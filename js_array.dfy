/**
 The JavaScript array operations the view model uses, on sequences:
 Array.prototype.indexOf (strict equality, which on objects is identity) and
 Array.prototype.splice (sections 23.1.3.17 and 23.1.3.31 of ECMA-262), with the
 order notions used to state what they and `filter` keep.
 */
module JsArray {

  /** No element occurs twice. */
  ghost predicate Distinct<T>(s: seq<T>) {
    forall i, j :: 0 <= i < j < |s| ==> s[i] != s[j]
  }

  /** `r` is `s` with some elements left out, the rest in their original order. */
  ghost predicate IsSubsequence<T>(r: seq<T>, s: seq<T>)
    decreases |s|
  {
    if r == [] then true
    else if s == [] then false
    else (r[|r| - 1] == s[|s| - 1] && IsSubsequence(r[..|r| - 1], s[..|s| - 1]))
         || IsSubsequence(r, s[..|s| - 1])
  }

  /** `s.indexOf(x)`: the index of the first occurrence of `x`, or -1. */
  function IndexOf<T(==)>(s: seq<T>, x: T): (i: int)
    ensures -1 <= i < |s|
    ensures i == -1 <==> x !in s
    ensures 0 <= i ==> s[i] == x && forall j :: 0 <= j < i ==> s[j] != x
  {
    if s == [] then -1
    else if s[0] == x then 0
    else
      var k := IndexOf(s[1..], x);
      if k == -1 then -1 else k + 1
  }

  /** What is left of `s` after `s.splice(start, deleteCount)` with nothing to
      insert. Deletion starts at `start`, where a negative `start` counts from
      the end, and the start is clamped to [0, |s|]. It removes `deleteCount`
      elements, a negative count meaning none, and stops at the end of `s`. */
  function Splice<T>(s: seq<T>, start: int, deleteCount: int): (r: seq<T>)
    ensures |r| <= |s| && multiset(r) <= multiset(s)
    ensures 0 <= deleteCount ==> |s| - deleteCount <= |r|
    ensures deleteCount <= 0 || start >= |s| ==> r == s
    ensures 0 <= start < |s| && deleteCount == 1 ==> r == s[..start] + s[start + 1..]
    ensures -|s| <= start < 0 && deleteCount == 1 ==>
              r == s[..|s| + start] + s[|s| + start + 1..]
    ensures start == -1 && deleteCount == 1 ==> r == if s == [] then [] else s[..|s| - 1]
  {
    var a := if start < 0 then (if |s| + start < 0 then 0 else |s| + start)
             else (if start < |s| then start else |s|);
    var d := if deleteCount < 0 then 0 else if deleteCount < |s| - a then deleteCount else |s| - a;
    assert s == s[..a] + s[a..a + d] + s[a + d..];
    assert d == 0 ==> s[..a] + s[a + d..] == s;
    s[..a] + s[a + d..]
  }

  /** `s.splice(s.indexOf(x), 1)`: when `x` occurs, exactly its first occurrence
      goes and the rest keep their order; when it does not, indexOf yields -1 and
      splice(-1, 1) removes the last element, if there is one. */
  function SpliceIndexOf<T(==)>(s: seq<T>, x: T): (r: seq<T>)
    ensures x in s ==> |r| == |s| - 1 && r == s[..IndexOf(s, x)] + s[IndexOf(s, x) + 1..]
    ensures x !in s ==> r == if s == [] then [] else s[..|s| - 1]
    ensures forall y :: y in r ==> y in s
    ensures Distinct(s) ==> Distinct(r) && x !in r
  {
    var i := IndexOf(s, x);
    var r := Splice(s, i, 1);
    r
  }
}
