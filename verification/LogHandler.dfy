/** The log handler: derives handlers with attributes and groups, and writes logs in batches. */
module LogHandlers {
  import opened Stacks
  import opened LogData

  datatype Log = Log(message: string, data: Fields)

  const DEFAULT_BATCH := 100

  class LogHandler {
    const batchSize: int
    const groups: array<Entry>
    var logs: seq<Log>
    /** The batches handed to the write function, oldest first. */
    var written: seq<seq<Log>>

    constructor (batchSize: int)
      ensures this.batchSize == (if batchSize == 0 then 100 else batchSize)
      ensures fresh(groups) && groups[..] == [] && logs == [] && written == []
    {
      this.batchSize := if batchSize == 0 then DEFAULT_BATCH else batchSize;
      groups := new Entry[0];
      logs, written := [], [];
    }

    constructor Derived(parent: LogHandler, groups: array<Entry>)
      ensures batchSize == parent.batchSize && this.groups == groups
      ensures logs == parent.logs && written == []
    {
      batchSize := parent.batchSize;
      this.groups := groups;
      logs, written := parent.logs, [];
    }

    /** The chain grows by a padding entry and the new entry, in an array of the new handler's own. */
    method WithGroupAttrs(param: Entry) returns (h: LogHandler)
      ensures fresh(h) && fresh(h.groups) && h.batchSize == batchSize
      ensures h.groups[..] == groups[..] + [PADDING, param]
    {
      var copied := new Entry[groups.Length + 2](_ => PADDING);
      for i := 0 to groups.Length
        invariant copied[..i] == groups[..i]
        invariant forall j :: i <= j < copied.Length ==> copied[j] == PADDING
        invariant groups[..] == old(groups[..])
      {
        copied[i] := groups[i];
      }
      copied[groups.Length + 1] := param;
      assert copied[..] == copied[..groups.Length] + [PADDING, param];
      h := new LogHandler.Derived(this, copied);
    }

    method WithAttrs(attrs: seq<Attr>) returns (h: LogHandler)
      ensures attrs == [] ==> h == this
      ensures attrs != [] ==>
        fresh(h) && fresh(h.groups) && h.groups[..] == groups[..] + [PADDING, Entry("", attrs)]
    {
      if attrs == [] {
        return this;
      }
      h := WithGroupAttrs(Entry("", attrs));
    }

    method WithGroup(name: string) returns (h: LogHandler)
      ensures name == "" ==> h == this
      ensures name != "" ==>
        fresh(h) && fresh(h.groups) && h.groups[..] == groups[..] + [PADDING, Entry(name, [])]
    {
      if name == "" {
        return this;
      }
      h := WithGroupAttrs(Entry(name, []));
    }

    /** The backward scan over the first n entries. */
    method Collect(n: nat) returns (data: Fields)
      requires n <= groups.Length
      ensures data == Collected(groups[..n])
    {
      data := map[];
      var stack := new Stack<Attr>();
      var i := n;
      while i > 0
        invariant 0 <= i <= n && fresh(stack)
        invariant ScanBack(groups[i..n]) == Scan(data, stack.data)
      {
        i := i - 1;
        assert groups[i..n][1..] == groups[i + 1..n];
        var pending := stack.data;
        if groups[i].group != "" {
          var size := stack.Len();
          var popped := stack.PopByLength(size);
          assert pending[|pending| - size..] == pending;
          var key := AppendEach(map[], popped);
          data := data[groups[i].group := Node(key)];
        } else {
          PushEach(stack, groups[i].attrs);
        }
      }
      var all := stack.data;
      var size := stack.Len();
      var popped := stack.PopByLength(size);
      assert all[|all| - size..] == all;
      assert groups[0..n] == groups[..n];
      data := AppendEach(data, popped);
    }

    method PushEach(stack: Stack<Attr>, attrs: seq<Attr>)
      modifies stack
      ensures stack.data == old(stack.data) + attrs
    {
      for i := 0 to |attrs|
        invariant stack.data == old(stack.data) + attrs[..i]
      {
        stack.Push(attrs[i]);
      }
    }

    method AppendEach(fields: Fields, attrs: seq<Attr>) returns (r: Fields)
      ensures r == AppendAll(fields, attrs)
    {
      r := fields;
      for i := 0 to |attrs|
        invariant AppendAll(r, attrs[i..]) == AppendAll(fields, attrs)
      {
        assert attrs[i..][1..] == attrs[i + 1..];
        r := AppendAttr(r, attrs[i].key, Rendered(attrs[i]));
      }
    }

    /** `accepted` is the filter's verdict. */
    method Handle(message: string, attrs: seq<Attr>, accepted: bool)
      modifies this
      ensures !accepted ==> logs == old(logs) && written == old(written)
      ensures accepted ==>
        var all := old(logs) + [Log(message, RecordData(groups[..], attrs))];
        && logs == (if |all| >= batchSize then [] else all)
        && written == old(written) + (if |all| >= batchSize then [all] else [])
    {
      var n := groups.Length;
      assert groups[..n] == groups[..];
      if attrs == [] {
        while n > 0 && groups[n - 1].group != ""
          invariant 0 <= n <= groups.Length
          invariant Trim(groups[..n]) == Trim(groups[..])
        {
          assert groups[..n][..n - 1] == groups[..n - 1];
          n := n - 1;
        }
      }
      var data := Collect(n);
      data := AppendEach(data, attrs);
      if !accepted {
        return;
      }
      logs := logs + [Log(message, data)];
      if |logs| >= batchSize {
        WriteAll();
      }
    }

    method WriteAll()
      modifies this
      ensures logs == []
      ensures written == old(written) + if old(logs) == [] then [] else [old(logs)]
    {
      if logs == [] {
        return;
      }
      var batch := logs;
      logs := [];
      written := written + [batch];
    }
  }
}
