/**
 * The structured data of a log record: attributes and groups collected by a chain of WithAttrs and
 * WithGroup calls, and placed by scanning the chain from right to left with a stack.
 */
module LogData {
  import opened Results
  import opened Stacks

  datatype Value = Nil | Scalar(text: string) | Group(attrs: seq<Attr>)

  datatype Attr = Attr(key: string, value: Value)

  datatype Data = Leaf(value: Value) | Node(fields: Fields)

  type Fields = map<string, Data>

  /** One link of the chain: a group name, or attributes, or neither (padding). */
  datatype Entry = Entry(group: string, attrs: seq<Attr>)

  const PADDING := Entry("", [])

  const EMPTY_ATTR := Attr("", Nil)

  /** What an attribute adds under its key; empty attributes and groups without content add nothing. */
  function Rendered(attr: Attr): Option<Data>
    decreases attr, 1
  {
    if attr == EMPTY_ATTR then None
    else match attr.value
      case Group(attrs) =>
        var fields := AppendAll(map[], attrs);
        if attrs == [] || fields == map[] then None else Some(Node(fields))
      case _ => Some(Leaf(attr.value))
  }

  /** appendAttr for each attribute in turn. */
  function AppendAll(fields: Fields, attrs: seq<Attr>): Fields
    decreases attrs, 0
  {
    if attrs == [] then fields
    else AppendAll(AppendAttr(fields, attrs[0].key, Rendered(attrs[0])), attrs[1..])
  }

  function AppendAttr(fields: Fields, key: string, rendered: Option<Data>): Fields {
    if rendered.None? then fields else fields[key := rendered.value]
  }

  // ---------- right to left: what Handle does ----------

  /** The scan after the entries: finished groups, and the attributes still on the stack. */
  datatype Scan = Scan(fields: Fields, stack: seq<Attr>)

  function ScanBack(entries: seq<Entry>): Scan {
    if entries == [] then Scan(map[], []) else
    var Scan(fields, stack) := ScanBack(entries[1..]);
    if entries[0].group != ""
    then Scan(fields[entries[0].group := Node(AppendAll(map[], Reverse(stack)))], [])
    else Scan(fields, stack + entries[0].attrs)
  }

  /** Groups at the end of the chain are dropped when the record has no attributes of its own. */
  function Trim(entries: seq<Entry>): seq<Entry> {
    if entries != [] && entries[|entries| - 1].group != "" then Trim(entries[..|entries| - 1]) else entries
  }

  function Collected(entries: seq<Entry>): Fields {
    AppendAll(ScanBack(entries).fields, Reverse(ScanBack(entries).stack))
  }

  /** The data of a log with the given chain and record attributes. */
  function RecordData(entries: seq<Entry>, attrs: seq<Attr>): Fields {
    AppendAll(Collected(if attrs == [] then Trim(entries) else entries), attrs)
  }

  // ---------- left to right: what is meant ----------

  /** Each group opens an empty object; each attribute goes to the last group opened, or to the top. */
  function Place(fields: Fields, current: Option<string>, entries: seq<Entry>): Fields
    requires current.Some? ==> current.value in fields && fields[current.value].Node?
    decreases |entries|
  {
    if entries == [] then fields
    else if entries[0].group != "" then
      Place(fields[entries[0].group := Node(map[])], Some(entries[0].group), entries[1..])
    else if current.Some? then
      var node := Node(AppendAll(fields[current.value].fields, entries[0].attrs));
      Place(fields[current.value := node], current, entries[1..])
    else
      Place(AppendAll(fields, entries[0].attrs), None, entries[1..])
  }

  function GroupNames(entries: seq<Entry>): set<string> {
    set e <- entries | e.group != "" :: e.group
  }

  function TopAttrs(entries: seq<Entry>): seq<Attr> {
    if entries == [] || entries[0].group != "" then [] else entries[0].attrs + TopAttrs(entries[1..])
  }

  function Keys(attrs: seq<Attr>): set<string> {
    set a <- attrs :: a.key
  }

  predicate DistinctKeys(attrs: seq<Attr>) {
    forall i, j :: 0 <= i < j < |attrs| ==> attrs[i].key != attrs[j].key
  }

  predicate DistinctGroups(entries: seq<Entry>) {
    entries != [] ==>
      DistinctGroups(entries[1..]) && (entries[0].group != "" ==> entries[0].group !in GroupNames(entries[1..]))
  }

  // ---------- repeated keys ----------

  /** The attribute adds something under the key. */
  predicate Adds(attr: Attr, key: string) {
    attr.key == key && Rendered(attr).Some?
  }

  /** What the first attribute that adds something under the key adds. */
  function FirstOf(attrs: seq<Attr>, key: string): Option<Data> {
    if attrs == [] then None else
    var earlier := FirstOf(attrs[..|attrs| - 1], key);
    if earlier.Some? then earlier
    else if Adds(attrs[|attrs| - 1], key) then Rendered(attrs[|attrs| - 1]) else None
  }

  /** What the last attribute that adds something under the key adds. */
  function LastOf(attrs: seq<Attr>, key: string): Option<Data> {
    if attrs == [] then None else
    var later := LastOf(attrs[1..], key);
    if later.Some? then later else if Adds(attrs[0], key) then Rendered(attrs[0]) else None
  }

  /** Under every key, the first and the last attribute of the call add the same. */
  ghost predicate OrderFree(attrs: seq<Attr>) {
    forall key :: FirstOf(attrs, key) == LastOf(attrs, key)
  }

  function At(fields: Fields, key: string): Option<Data> {
    if key in fields then Some(fields[key]) else None
  }

  lemma SameEverywhere(f: Fields, g: Fields)
    requires forall key :: At(f, key) == At(g, key)
    ensures f == g
  {
    forall key ensures key in f <==> key in g {
      assert At(f, key) == At(g, key);
    }
    forall key | key in f ensures f[key] == g[key] {
      assert At(f, key) == At(g, key);
    }
  }

  /** Appending attributes leaves under a key what the last of them adds there. */
  lemma {:induction false} AppendAllAt(fields: Fields, attrs: seq<Attr>, key: string)
    ensures At(AppendAll(fields, attrs), key) ==
            if LastOf(attrs, key).Some? then LastOf(attrs, key) else At(fields, key)
    decreases |attrs|
  {
    if attrs != [] {
      AppendAllAt(AppendAttr(fields, attrs[0].key, Rendered(attrs[0])), attrs[1..], key);
    }
  }

  lemma {:induction false} LastOfReverse(attrs: seq<Attr>, key: string)
    ensures LastOf(Reverse(attrs), key) == FirstOf(attrs, key)
  {
    if attrs != [] {
      var last, before := attrs[|attrs| - 1], attrs[..|attrs| - 1];
      LastOfReverse(before, key);
      assert ([last] + Reverse(before))[1..] == Reverse(before);
    }
  }

  lemma {:induction false} FirstOfIsSome(attrs: seq<Attr>, key: string)
    ensures FirstOf(attrs, key).Some? <==> exists a <- attrs :: Adds(a, key)
    ensures FirstOf(attrs, key).Some? ==> exists a <- attrs :: Adds(a, key) && FirstOf(attrs, key) == Rendered(a)
  {
    if attrs != [] {
      FirstOfIsSome(attrs[..|attrs| - 1], key);
      assert attrs == attrs[..|attrs| - 1] + [attrs[|attrs| - 1]];
    }
  }

  lemma {:induction false} LastOfIsSome(attrs: seq<Attr>, key: string)
    ensures LastOf(attrs, key).Some? <==> exists a <- attrs :: Adds(a, key)
    ensures LastOf(attrs, key).Some? ==> exists a <- attrs :: Adds(a, key) && LastOf(attrs, key) == Rendered(a)
  {
    if attrs != [] {
      LastOfIsSome(attrs[1..], key);
      assert attrs == [attrs[0]] + attrs[1..];
    }
  }

  /**
   * What an attribute shows: its value, unless it is empty or a group. A group shows an object
   * that holds, under each key, what the last of its attributes adds there; a group to which
   * nothing is added shows nothing.
   */
  lemma RenderedShows(attr: Attr)
    ensures attr == Attr("", Nil) ==> Rendered(attr) == None
    ensures attr != Attr("", Nil) && !attr.value.Group? ==> Rendered(attr) == Some(Leaf(attr.value))
    ensures attr.value.Group? ==>
      (Rendered(attr).Some? <==> exists a <- attr.value.attrs :: Rendered(a).Some?)
    ensures attr.value.Group? && Rendered(attr).Some? ==>
      Rendered(attr).value.Node? && forall key :: At(Rendered(attr).value.fields, key) == LastOf(attr.value.attrs, key)
  {
    if attr.value.Group? {
      var attrs := attr.value.attrs;
      var fields := AppendAll(map[], attrs);
      forall key ensures At(fields, key) == LastOf(attrs, key) {
        AppendAllAt(map[], attrs, key);
      }
      if fields == map[] {
        forall a | a in attrs ensures Rendered(a).None? {
          assert At(fields, a.key) == None;
          LastOfIsSome(attrs, a.key);
          assert !Adds(a, a.key);
        }
      } else {
        var key :| key in fields;
        assert At(fields, key).Some?;
        LastOfIsSome(attrs, key);
      }
    }
  }

  /** Appending attributes in reverse gives the same if and only if no key is added to differently. */
  lemma AppendReversedIff(fields: Fields, attrs: seq<Attr>)
    ensures AppendAll(fields, Reverse(attrs)) == AppendAll(fields, attrs) <==> OrderFree(attrs)
  {
    var f, g := AppendAll(fields, Reverse(attrs)), AppendAll(fields, attrs);
    forall key ensures At(f, key) == At(g, key) <==> FirstOf(attrs, key) == LastOf(attrs, key) {
      AppendAllAt(fields, attrs, key);
      AppendAllAt(fields, Reverse(attrs), key);
      LastOfReverse(attrs, key);
      FirstOfIsSome(attrs, key);
      LastOfIsSome(attrs, key);
    }
    if OrderFree(attrs) {
      forall key ensures At(f, key) == At(g, key) {
        assert FirstOf(attrs, key) == LastOf(attrs, key);
      }
      SameEverywhere(f, g);
    }
    if f == g {
      forall key ensures FirstOf(attrs, key) == LastOf(attrs, key) {
        assert At(f, key) == At(g, key);
      }
    }
  }

  /** In particular when no key is repeated. */
  lemma DistinctIsOrderFree(attrs: seq<Attr>)
    requires DistinctKeys(attrs)
    ensures OrderFree(attrs)
  {
    forall key ensures FirstOf(attrs, key) == LastOf(attrs, key) {
      FirstOfIsSome(attrs, key);
      LastOfIsSome(attrs, key);
      if FirstOf(attrs, key).Some? {
        var a :| a in attrs && Adds(a, key) && FirstOf(attrs, key) == Rendered(a);
        var b :| b in attrs && Adds(b, key) && LastOf(attrs, key) == Rendered(b);
        assert a == b;
      }
    }
  }

  /**
   * No call adds differently under one key, no group name is used twice, and no ungrouped
   * attribute is named like a group.
   */
  ghost predicate Distinct(entries: seq<Entry>) {
    && (forall e <- entries :: OrderFree(e.attrs))
    && DistinctGroups(entries)
    && Keys(TopAttrs(entries)) !! GroupNames(entries)
  }

  lemma {:induction false} AppendAllConcat(fields: Fields, a: seq<Attr>, b: seq<Attr>)
    ensures AppendAll(fields, a + b) == AppendAll(AppendAll(fields, a), b)
    decreases |a|
  {
    if a == [] {
      assert a + b == b;
    } else {
      assert (a + b)[1..] == a[1..] + b;
      AppendAllConcat(AppendAttr(fields, a[0].key, Rendered(a[0])), a[1..], b);
    }
  }

  lemma {:induction false} AppendDisjoint(fields: Fields, others: Fields, attrs: seq<Attr>)
    requires Keys(attrs) !! others.Keys
    ensures AppendAll(fields + others, attrs) == AppendAll(fields, attrs) + others
    decreases |attrs|
  {
    if attrs != [] {
      var fields' := AppendAttr(fields, attrs[0].key, Rendered(attrs[0]));
      assert attrs[0].key in Keys(attrs);
      assert AppendAttr(fields + others, attrs[0].key, Rendered(attrs[0])) == fields' + others;
      AppendDisjoint(fields', others, attrs[1..]);
    }
  }

  lemma KeysConcat(a: seq<Attr>, b: seq<Attr>)
    ensures Keys(a + b) == Keys(a) + Keys(b)
  {
    assert forall x <- a :: x in a + b;
    assert forall x <- b :: x in a + b;
  }

  lemma {:induction false} ScanBackShape(entries: seq<Entry>)
    ensures ScanBack(entries).fields.Keys == GroupNames(entries)
    ensures Keys(ScanBack(entries).stack) == Keys(TopAttrs(entries))
  {
    if entries != [] {
      ScanBackShape(entries[1..]);
      assert entries == [entries[0]] + entries[1..];
      KeysConcat(ScanBack(entries[1..]).stack, entries[0].attrs);
      KeysConcat(entries[0].attrs, TopAttrs(entries[1..]));
    }
  }

  /** Where the left-to-right placement stands relative to the right-to-left scan of what follows. */
  function Merged(fields: Fields, current: Option<string>, scan: Scan): Fields
    requires current.Some? ==> current.value in fields && fields[current.value].Node?
  {
    (if current.Some?
     then fields[current.value := Node(AppendAll(fields[current.value].fields, Reverse(scan.stack)))]
     else AppendAll(fields, Reverse(scan.stack)))
    + scan.fields
  }

  lemma MergeAttrs(fields: Fields, stack: seq<Attr>, attrs: seq<Attr>)
    requires OrderFree(attrs)
    ensures AppendAll(fields, Reverse(stack + attrs)) == AppendAll(AppendAll(fields, attrs), Reverse(stack))
  {
    ReverseConcat(stack, attrs);
    AppendAllConcat(fields, Reverse(attrs), Reverse(stack));
    AppendReversedIff(fields, attrs);
  }

  lemma MergeGroup(fields: Fields, current: Option<string>, name: string, scan: Scan)
    requires current.Some? ==> current.value in fields && fields[current.value].Node?
    requires name !in scan.fields
    ensures Merged(fields[name := Node(map[])], Some(name), scan) ==
            Merged(fields, current, Scan(scan.fields[name := Node(AppendAll(map[], Reverse(scan.stack)))], []))
  {
    var node := Node(AppendAll(map[], Reverse(scan.stack)));
    assert fields[name := Node(map[])][name := node] + scan.fields == fields + scan.fields[name := node];
    assert current.Some? ==> fields[current.value := Node(fields[current.value].fields)] == fields;
  }

  lemma {:induction false} PlaceIsMerge(fields: Fields, current: Option<string>, entries: seq<Entry>)
    requires current.Some? ==> current.value in fields && fields[current.value].Node?
    requires (forall e <- entries :: OrderFree(e.attrs)) && DistinctGroups(entries)
    ensures Place(fields, current, entries) == Merged(fields, current, ScanBack(entries))
    decreases |entries|, 1
  {
    if entries == [] {
    } else {
      var first, rest := entries[0], entries[1..];
      assert first in entries;
      assert forall e <- rest :: e in entries;
      var scan := ScanBack(rest);
      if first.group != "" {
        ScanBackShape(rest);
        PlaceIsMerge(fields[first.group := Node(map[])], Some(first.group), rest);
        MergeGroup(fields, current, first.group, scan);
      } else if current.Some? {
        PlaceAttrsInGroup(fields, current.value, entries);
      } else {
        PlaceIsMerge(AppendAll(fields, first.attrs), None, rest);
        MergeAttrs(fields, scan.stack, first.attrs);
      }
    }
  }

  lemma PlaceAttrsInGroup(fields: Fields, name: string, entries: seq<Entry>)
    requires name in fields && fields[name].Node?
    requires entries != [] && entries[0].group == ""
    requires (forall e <- entries :: OrderFree(e.attrs)) && DistinctGroups(entries)
    ensures Place(fields, Some(name), entries) == Merged(fields, Some(name), ScanBack(entries))
    decreases |entries|, 0
  {
    var first, rest := entries[0], entries[1..];
    var group := fields[name].fields;
    var fields' := fields[name := Node(AppendAll(group, first.attrs))];
    PlaceIsMerge(fields', Some(name), rest);
    MergeAttrs(group, ScanBack(rest).stack, first.attrs);
    var node := Node(AppendAll(group, Reverse(ScanBack(entries).stack)));
    assert fields'[name := node] == fields[name := node];
  }

  /**
   * For any chain with distinct names whose calls do not depend on the order of their own
   * attributes, the right-to-left scan with a stack puts every attribute under its nearest
   * preceding group, or at the top if there is none: it computes what
   * the left-to-right placement means.
   */
  lemma BackwardScanPlacesForward(entries: seq<Entry>)
    requires Distinct(entries)
    ensures Collected(entries) == Place(map[], None, entries)
  {
    PlaceIsMerge(map[], None, entries);
    ScanBackShape(entries);
    var Scan(fields, stack) := ScanBack(entries);
    KeysOfReverse(stack);
    AppendDisjoint(map[], fields, Reverse(stack));
    assert map[] + fields == fields;
  }

  lemma OneCall(attrs: seq<Attr>)
    ensures Collected([Entry("", attrs)]) == AppendAll(map[], Reverse(attrs))
    ensures Place(map[], None, [Entry("", attrs)]) == AppendAll(map[], attrs)
  {
    var entries := [Entry("", attrs)];
    assert entries[1..] == [];
    assert ScanBack([]) == Scan(map[], []);
    assert [] + attrs == attrs;
    assert ScanBack(entries) == Scan(map[], attrs);
    assert Place(AppendAll(map[], attrs), None, []) == AppendAll(map[], attrs);
  }

  /** One call alone is placed as meant if and only if the order of its attributes does not matter. */
  lemma OneCallIff(attrs: seq<Attr>)
    ensures Collected([Entry("", attrs)]) == Place(map[], None, [Entry("", attrs)]) <==> OrderFree(attrs)
  {
    OneCall(attrs);
    AppendReversedIff(map[], attrs);
  }

  lemma LastScalarStays(key: string, first: string, last: string)
    ensures AppendAll(map[], [Attr(key, Scalar(first)), Attr(key, Scalar(last))]) == map[key := Leaf(Scalar(last))]
  {
    var a, b := Attr(key, Scalar(first)), Attr(key, Scalar(last));
    var withFirst: Fields := map[key := Leaf(Scalar(first))];
    assert Rendered(a) == Some(Leaf(Scalar(first))) && Rendered(b) == Some(Leaf(Scalar(last)));
    assert [a, b][1..] == [b] && [b][1..] == [];
    assert AppendAttr(map[], key, Rendered(a)) == withFirst;
    assert AppendAll(map[], [a, b]) == AppendAll(withFirst, [b]);
    assert AppendAll(withFirst, [b]) == AppendAll(AppendAttr(withFirst, key, Rendered(b)), []);
  }

  /** A key repeated within one call keeps its first value, where the last one is meant. */
  lemma FirstRepeatWins(key: string, first: string, last: string)
    ensures var entries := [Entry("", [Attr(key, Scalar(first)), Attr(key, Scalar(last))])];
      && Collected(entries) == map[key := Leaf(Scalar(first))]
      && Place(map[], None, entries) == map[key := Leaf(Scalar(last))]
  {
    var a, b := Attr(key, Scalar(first)), Attr(key, Scalar(last));
    OneCall([a, b]);
    assert Reverse([a, b]) == [b, a] by {
      assert [a, b][..1] == [a] && [a][..0] == [];
      assert Reverse([a]) == [a] + Reverse([]);
    }
    LastScalarStays(key, first, last);
    LastScalarStays(key, last, first);
  }

  lemma {:induction false} KeysOfReverse(attrs: seq<Attr>)
    ensures Keys(Reverse(attrs)) == Keys(attrs)
  {
    if attrs != [] {
      var last, before := attrs[|attrs| - 1], attrs[..|attrs| - 1];
      KeysOfReverse(before);
      assert attrs == before + [last];
      KeysConcat(before, [last]);
      KeysConcat([last], Reverse(before));
    }
  }

  // ---------- padding ----------

  /** The chain as the handler stores it: every call adds a padding entry and its own entry. */
  function Padded(calls: seq<Entry>): seq<Entry> {
    if calls == [] then [] else Padded(calls[..|calls| - 1]) + [PADDING, calls[|calls| - 1]]
  }

  lemma {:induction false} ScanBackConcat(a: seq<Entry>, b: seq<Entry>, c: seq<Entry>)
    requires ScanBack(b) == ScanBack(c)
    ensures ScanBack(a + b) == ScanBack(a + c)
    decreases |a|
  {
    if a == [] {
      assert a + b == b && a + c == c;
    } else {
      assert (a + b)[1..] == a[1..] + b && (a + c)[1..] == a[1..] + c;
      ScanBackConcat(a[1..], b, c);
    }
  }

  lemma PaddingScansAway(a: seq<Entry>, b: seq<Entry>)
    ensures ScanBack(a + [PADDING] + b) == ScanBack(a + b)
  {
    var padded := [PADDING] + b;
    assert padded[1..] == b;
    assert ScanBack(b).stack + [] == ScanBack(b).stack;
    ScanBackConcat(a, padded, b);
    assert a + [PADDING] + b == a + padded;
  }

  /** In the scan itself, padding entries have no effect. */
  lemma {:induction false} PaddedScansLikeCalls(calls: seq<Entry>, rest: seq<Entry>)
    ensures ScanBack(Padded(calls) + rest) == ScanBack(calls + rest)
    decreases |calls|
  {
    if calls == [] {
      assert Padded(calls) + rest == calls + rest;
    } else {
      var before, last := calls[..|calls| - 1], calls[|calls| - 1];
      assert Padded(calls) + rest == Padded(before) + [PADDING] + ([last] + rest);
      PaddingScansAway(Padded(before), [last] + rest);
      PaddedScansLikeCalls(before, [last] + rest);
      assert calls + rest == before + ([last] + rest);
    }
  }

  /** The chain ends in two groups. */
  predicate EndsInTwoGroups(calls: seq<Entry>) {
    |calls| >= 2 && calls[|calls| - 1].group != "" && calls[|calls| - 2].group != ""
  }

  lemma PaddedScan(calls: seq<Entry>)
    ensures ScanBack(Padded(calls)) == ScanBack(calls)
    ensures ScanBack(Padded(calls) + [PADDING]) == ScanBack(calls)
  {
    PaddedScansLikeCalls(calls, []);
    assert Padded(calls) + [] == Padded(calls) && calls + [] == calls;
    PaddingScansAway(Padded(calls), []);
    assert Padded(calls) + [PADDING] + [] == Padded(calls) + [PADDING];
  }

  /** Padding stops the trimming of trailing groups after the last one. */
  lemma TrimPadded(calls: seq<Entry>)
    requires calls != []
    ensures Trim(Padded(calls)) ==
            if calls[|calls| - 1].group != "" then Padded(calls[..|calls| - 1]) + [PADDING] else Padded(calls)
  {
    var padded := Padded(calls);
    assert padded[|padded| - 1] == calls[|calls| - 1];
    assert padded[..|padded| - 1] == Padded(calls[..|calls| - 1]) + [PADDING];
  }

  lemma {:induction false} TrimIsPrefix(calls: seq<Entry>)
    ensures Trim(calls) <= calls
  {
    if calls != [] && calls[|calls| - 1].group != "" {
      TrimIsPrefix(calls[..|calls| - 1]);
    }
  }

  lemma {:induction false} DistinctPrefix(calls: seq<Entry>, n: nat)
    requires Distinct(calls) && n <= |calls|
    ensures Distinct(calls[..n])
  {
    DistinctGroupsPrefix(calls, n);
    TopAttrsPrefix(calls, n);
    assert forall e <- calls[..n] :: e in calls;
  }

  lemma {:induction false} DistinctGroupsPrefix(calls: seq<Entry>, n: nat)
    requires DistinctGroups(calls) && n <= |calls|
    ensures DistinctGroups(calls[..n])
    decreases n
  {
    if n > 0 {
      DistinctGroupsPrefix(calls[1..], n - 1);
      assert calls[..n][1..] == calls[1..][..n - 1];
      assert forall e <- calls[1..][..n - 1] :: e in calls[1..];
    }
  }

  lemma {:induction false} TopAttrsPrefix(calls: seq<Entry>, n: nat)
    requires n <= |calls|
    ensures Keys(TopAttrs(calls[..n])) <= Keys(TopAttrs(calls))
    decreases n
  {
    if n > 0 && calls[0].group == "" {
      TopAttrsPrefix(calls[1..], n - 1);
      assert calls[..n][1..] == calls[1..][..n - 1];
      KeysConcat(calls[0].attrs, TopAttrs(calls[1..]));
      KeysConcat(calls[0].attrs, TopAttrs(calls[1..][..n - 1]));
    }
  }

  lemma {:induction false} AppendAllKeys(fields: Fields, attrs: seq<Attr>)
    ensures fields.Keys <= AppendAll(fields, attrs).Keys <= fields.Keys + Keys(attrs)
    decreases |attrs|
  {
    if attrs != [] {
      AppendAllKeys(AppendAttr(fields, attrs[0].key, Rendered(attrs[0])), attrs[1..]);
      assert attrs[0].key in Keys(attrs);
    }
  }

  lemma CollectedKeys(entries: seq<Entry>)
    ensures GroupNames(entries) <= Collected(entries).Keys <= GroupNames(entries) + Keys(TopAttrs(entries))
  {
    ScanBackShape(entries);
    KeysOfReverse(ScanBack(entries).stack);
    AppendAllKeys(ScanBack(entries).fields, Reverse(ScanBack(entries).stack));
  }

  lemma {:induction false} GroupNotBefore(calls: seq<Entry>, k: nat)
    requires DistinctGroups(calls) && k < |calls| && calls[k].group != ""
    ensures calls[k].group !in GroupNames(calls[..k])
    decreases k
  {
    if k > 0 {
      GroupNotBefore(calls[1..], k - 1);
      assert calls[..k] == [calls[0]] + calls[1..][..k - 1];
      assert calls[k] in calls[1..];
    }
  }

  lemma NameAbsentFromPrefix(calls: seq<Entry>, n: nat, k: nat)
    requires Distinct(calls) && k <= n < |calls| && calls[n].group != ""
    ensures calls[n].group !in GroupNames(calls[..k]) + Keys(TopAttrs(calls[..k]))
  {
    GroupNotBefore(calls, n);
    assert forall e <- calls[..k] :: e in calls[..n];
    TopAttrsPrefix(calls, k);
    assert calls[n] in calls;
  }

  lemma GroupAbsentFromPrefix(calls: seq<Entry>, n: nat, k: nat)
    requires Distinct(calls) && k <= n < |calls| && calls[n].group != ""
    ensures calls[n].group !in Collected(calls[..k])
  {
    CollectedKeys(calls[..k]);
    NameAbsentFromPrefix(calls, n, k);
  }

  lemma TrimTakesTwoGroups(calls: seq<Entry>) returns (k: nat)
    requires EndsInTwoGroups(calls)
    ensures k <= |calls| - 2 && Trim(calls) == calls[..k]
  {
    var n := |calls| - 2;
    assert calls[..n + 1][..n] == calls[..n];
    assert Trim(calls) == Trim(calls[..n]);
    TrimIsPrefix(calls[..n]);
    k := |Trim(calls)|;
  }

  lemma GroupPresent(entries: seq<Entry>, i: nat)
    requires i < |entries| && entries[i].group != ""
    ensures entries[i].group in Collected(entries)
  {
    assert entries[i] in entries;
    CollectedKeys(entries);
  }

  /** A prefix that stops before a group collects other fields than one that ends with it. */
  lemma ShorterLosesGroup(calls: seq<Entry>, n: nat, k: nat)
    requires Distinct(calls) && k <= n < |calls| && calls[n].group != ""
    ensures Collected(calls[..k]) != Collected(calls[..n + 1])
  {
    GroupPresent(calls[..n + 1], n);
    GroupAbsentFromPrefix(calls, n, k);
  }

  /** With two groups at the end, the trimmed chain collects other fields than the chain without its last group. */
  ghost predicate TrimLoses(calls: seq<Entry>) {
    calls != [] && Collected(Trim(calls)) != Collected(calls[..|calls| - 1])
  }

  lemma TrimmingLosesGroup(calls: seq<Entry>)
    requires Distinct(calls) && EndsInTwoGroups(calls)
    ensures TrimLoses(calls)
  {
    var n := |calls| - 2;
    var k := TrimTakesTwoGroups(calls);
    ShorterLosesGroup(calls, n, k);
  }

  /**
   * The padding entries change a record's data if and only if the record has no attributes and
   * the chain ends in two groups: trimming stops at the padding, so all but the last trailing
   * group remain as empty objects.
   */
  lemma PaddingHarmlessIff(calls: seq<Entry>, attrs: seq<Attr>)
    requires Distinct(calls)
    ensures RecordData(Padded(calls), attrs) == RecordData(calls, attrs) <==>
            !(attrs == [] && EndsInTwoGroups(calls))
  {
    PaddedScan(calls);
    if attrs == [] && calls != [] {
      var before := calls[..|calls| - 1];
      PaddedScan(before);
      TrimPadded(calls);
      if EndsInTwoGroups(calls) {
        TrimmingLosesGroup(calls);
      } else if calls[|calls| - 1].group != "" {
        assert Trim(calls) == before;
      }
    }
  }

  /**
   * What a log shows: record attributes on top of the chain placed left to right, minus the
   * chain's last group when the record has no attributes.
   */
  lemma RecordShowsPlacedChain(calls: seq<Entry>, attrs: seq<Attr>)
    requires Distinct(calls)
    ensures var shown := if attrs == [] && calls != [] && calls[|calls| - 1].group != ""
                         then calls[..|calls| - 1] else calls;
      RecordData(Padded(calls), attrs) == AppendAll(Place(map[], None, shown), attrs)
  {
    PaddedScan(calls);
    BackwardScanPlacesForward(calls);
    if attrs == [] && calls != [] {
      var before := calls[..|calls| - 1];
      TrimPadded(calls);
      if calls[|calls| - 1].group != "" {
        PaddedScan(before);
        DistinctPrefix(calls, |calls| - 1);
        BackwardScanPlacesForward(before);
      }
    }
  }
}
