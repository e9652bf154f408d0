/** The generic stack; its top is the end of `data`. */
module Stacks {
  function Reverse<T>(s: seq<T>): seq<T> {
    if s == [] then [] else [s[|s| - 1]] + Reverse(s[..|s| - 1])
  }

  class Stack<T> {
    var data: seq<T>

    constructor ()
      ensures data == []
    {
      data := [];
    }

    method Push(item: T)
      modifies this
      ensures data == old(data) + [item]
    {
      data := data + [item];
    }

    /** Popping an empty stack panics. */
    method Pop() returns (item: T)
      requires data != []
      modifies this
      ensures old(data) == data + [item]
    {
      item := data[|data| - 1];
      data := data[..|data| - 1];
    }

    /** The last `count` items, most recent first. */
    method PopByLength(count: nat) returns (items: seq<T>)
      requires count <= |data|
      modifies this
      ensures data == old(data)[..|old(data)| - count]
      ensures items == Reverse(old(data)[|old(data)| - count..])
    {
      items := [];
      var n := |data|;
      for i := 0 to count
        invariant data == old(data)[..n - i]
        invariant items == Reverse(old(data)[n - i..])
      {
        var item := Pop();
        assert old(data)[n - i - 1..] == [item] + old(data)[n - i..];
        ReverseCons(item, old(data)[n - i..]);
        items := items + [item];
      }
    }

    method Len() returns (n: nat)
      ensures n == |data|
    {
      n := |data|;
    }
  }

  lemma {:induction false} ReverseCons<T>(x: T, s: seq<T>)
    ensures Reverse([x] + s) == Reverse(s) + [x]
  {
    if s == [] {
      assert [x] + s == [x] && [x][..0] == [];
    } else {
      assert ([x] + s)[..|s|] == [x] + s[..|s| - 1];
      ReverseCons(x, s[..|s| - 1]);
    }
  }

  lemma {:induction false} ReverseConcat<T>(s: seq<T>, t: seq<T>)
    ensures Reverse(s + t) == Reverse(t) + Reverse(s)
  {
    if t == [] {
      assert s + t == s;
    } else {
      assert (s + t)[..|s + t| - 1] == s + t[..|t| - 1];
      ReverseConcat(s, t[..|t| - 1]);
    }
  }
}
