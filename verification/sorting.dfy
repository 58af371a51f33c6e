/** Insertion sort by a total preorder, for the ORM's `_order` listings. */
module Sorting {

  /** `le` relates any two values one way or the other. */
  ghost predicate IsTotal<T(!new)>(le: (T, T) -> bool) {
    forall a: T, b: T :: le(a, b) || le(b, a)
  }

  /** Each element is `le` its successor. */
  predicate Ordered<T>(s: seq<T>, le: (T, T) -> bool) {
    forall i :: 0 <= i < |s| - 1 ==> le(s[i], s[i + 1])
  }

  lemma OrderedTail<T>(s: seq<T>, le: (T, T) -> bool)
    requires 0 < |s| && Ordered(s, le)
    ensures Ordered(s[1..], le)
  {
    assert forall i :: 0 <= i < |s[1..]| ==> s[1..][i] == s[i + 1];
  }

  /** Puts `x` before the first element it is `le`. */
  function Insert<T(!new)>(le: (T, T) -> bool, x: T, s: seq<T>): (r: seq<T>)
    requires IsTotal(le)
    requires Ordered(s, le)
    ensures Ordered(r, le)
    ensures multiset(r) == multiset(s) + multiset{x}
    ensures 0 < |r| && (r[0] == x || (0 < |s| && r[0] == s[0]))
    decreases |s|
  {
    if |s| == 0 then [x]
    else if le(x, s[0]) then [x] + s
    else
      assert le(s[0], x);
      var rest := Insert(le, x, s[1..]);
      assert s == [s[0]] + s[1..];
      [s[0]] + rest
  }

  function Sort<T(!new)>(le: (T, T) -> bool, s: seq<T>): (r: seq<T>)
    requires IsTotal(le)
    ensures Ordered(r, le)
    ensures multiset(r) == multiset(s)
    decreases |s|
  {
    if |s| == 0 then []
    else
      assert s == [s[0]] + s[1..];
      Insert(le, s[0], Sort(le, s[1..]))
  }
}
