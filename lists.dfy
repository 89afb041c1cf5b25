/** Order-preserving list operations used by the client pages (`Array.prototype.filter`). */
module Lists {
  import opened Common

  /** `r` can be obtained from `s` by deleting elements: the elements of `r`
      occur in `s` in the same relative order. */
  ghost predicate IsSubsequence<T>(r: seq<T>, s: seq<T>)
    decreases |s|
  {
    r == [] || (s != [] && ((r[0] == s[0] && IsSubsequence(r[1..], s[1..])) || IsSubsequence(r, s[1..])))
  }

  /** `s.filter(keep)`: the elements of `s` that satisfy `keep`, in their original
      order, each as often as it occurs in `s`, and nothing else. */
  function Filter<T(==,!new)>(s: seq<T>, keep: T -> bool): (r: seq<T>)
    ensures |r| <= |s|
    ensures forall i :: 0 <= i < |r| ==> keep(r[i])
    ensures forall x :: multiset(r)[x] == if keep(x) then multiset(s)[x] else 0
    ensures IsSubsequence(r, s)
  {
    if s == [] then []
    else
      assert s == [s[0]] + s[1..];
      var rest := Filter(s[1..], keep);
      if keep(s[0]) then
        assert ([s[0]] + rest)[1..] == rest;
        [s[0]] + rest
      else
        rest
  }

  /** `s.filter(x => key(x) !== id)`: drop every element whose id is `id`. */
  function DropId<T(==,!new)>(s: seq<T>, key: T -> Id, id: Id): (r: seq<T>)
    ensures forall i :: 0 <= i < |r| ==> key(r[i]) != id
    ensures forall x :: key(x) != id ==> multiset(r)[x] == multiset(s)[x]
    ensures IsSubsequence(r, s)
    ensures (forall i :: 0 <= i < |s| ==> key(s[i]) != id) ==> r == s
  {
    var r := Filter(s, x => key(x) != id);
    if forall i :: 0 <= i < |s| ==> key(s[i]) != id then
      FilterKeepsAll(s, x => key(x) != id);
      r
    else
      r
  }

  /** The length of a filtered list grows by one for each kept element. */
  lemma FilterLengthStep<T(!new)>(s: seq<T>, keep: T -> bool)
    requires s != []
    ensures |Filter(s, keep)| == (if keep(s[0]) then 1 else 0) + |Filter(s[1..], keep)|
  {
  }

  /** Filtering with a predicate every element satisfies is the identity. */
  lemma {:induction false} FilterKeepsAll<T(!new)>(s: seq<T>, keep: T -> bool)
    requires forall i :: 0 <= i < |s| ==> keep(s[i])
    ensures Filter(s, keep) == s
  {
    if s != [] {
      FilterKeepsAll(s[1..], keep);
    }
  }
}
