/** The generic helpers of utils.go. */
module Utils {
  import opened Strings

  /**
   * `TruncateText`: a string shorter than `max` is kept; otherwise it is cut
   * at the last space among its first `max` bytes and " ..." is appended.
   * Go panics when `max` is negative or that prefix holds no space, so both
   * are preconditions. Note that `max == |s|` still truncates.
   */
  function TruncateText(s: string, max: int): (r: string)
    requires 0 <= max
    requires max <= |s| ==> exists j :: 0 <= j < max && s[j] == ' '
    ensures max > |s| ==> r == s
    ensures max <= |s| ==>
      exists k :: 0 <= k < max && s[k] == ' ' && (forall j :: k < j < max ==> s[j] != ' ') && r == s[..k] + " ..."
    ensures max <= |s| ==> 4 <= |r| < max + 4 && r[|r| - 4..] == " ..." && r[..|r| - 4] <= s
  {
    if max > |s| then s
    else
      var prefix := s[..max];
      var k := LastIndex(prefix, ' ');
      assert prefix[k] == ' ' by {
        var j :| 0 <= j < max && s[j] == ' ';
        assert prefix[j] == ' ';
      }
      assert forall j :: k < j < max ==> s[j] == prefix[j];
      var r := s[..k] + " ...";
      assert r[..|r| - 4] == s[..k] && r[|r| - 4..] == " ...";
      r
  }

  /** `sliceContains`: a linear scan for `x`. */
  method SliceContains<T(==)>(s: seq<T>, x: T) returns (found: bool)
    ensures found <==> exists i :: 0 <= i < |s| && s[i] == x
  {
    for i := 0 to |s|
      invariant forall j :: 0 <= j < i ==> s[j] != x
    {
      if s[i] == x {
        return true;
      }
    }
    return false;
  }

  /** `Map`: applies `f` to every element, keeping length and order. */
  method Map<T, U>(data: seq<T>, f: T -> U) returns (res: seq<U>)
    ensures |res| == |data|
    ensures forall i :: 0 <= i < |data| ==> res[i] == f(data[i])
  {
    res := [];
    for i := 0 to |data|
      invariant |res| == i
      invariant forall j :: 0 <= j < i ==> res[j] == f(data[j])
    {
      res := res + [f(data[i])];
    }
  }

  /** The generic membership set of utils.go, backed by a Go map in the source. */
  class Set<T(==)> {
    var list: set<T>

    /** `NewSet`: an empty set. */
    constructor ()
      ensures list == {} && Size() == 0
    {
      list := {};
    }

    function Has(v: T): (r: bool)
      reads this
      ensures r ==> Size() > 0
    {
      v in list
    }

    /** The number of distinct members; zero exactly when nothing is a member. */
    function Size(): (n: nat)
      reads this
      ensures n == 0 <==> forall w :: w !in list
    {
      assert list != {} ==> exists w :: w in list;
      |list|
    }

    method Add(v: T)
      modifies this
      ensures Has(v)
      ensures forall w :: w != v ==> (Has(w) <==> w in old(list))
      ensures v in old(list) ==> Size() == old(Size())
      ensures v !in old(list) ==> Size() == old(Size()) + 1
    {
      if v in list {
        assert list + {v} == list;
      }
      list := list + {v};
    }

    method Remove(v: T)
      modifies this
      ensures !Has(v)
      ensures forall w :: w != v ==> (Has(w) <==> w in old(list))
      ensures v in old(list) ==> Size() == old(Size()) - 1
      ensures v !in old(list) ==> Size() == old(Size())
    {
      if v !in list {
        assert list - {v} == list;
      }
      list := list - {v};
    }

    method Clear()
      modifies this
      ensures forall w :: !Has(w)
      ensures Size() == 0
    {
      list := {};
    }

    /** `Slice`: every member exactly once, in no particular order. */
    method Slice() returns (res: seq<T>)
      ensures |res| == Size()
      ensures forall v :: v in res <==> Has(v)
      ensures forall i, j :: 0 <= i < j < |res| ==> res[i] != res[j]
    {
      res := [];
      var rest := list;
      while rest != {}
        invariant rest <= list
        invariant forall v :: v in res <==> v in list && v !in rest
        invariant forall i, j :: 0 <= i < j < |res| ==> res[i] != res[j]
        invariant |res| + |rest| == |list|
        decreases |rest|
      {
        var v :| v in rest;
        res := res + [v];
        rest := rest - {v};
      }
    }
  }
}
