/** Sequence operations the queries and views are built from: filtering, `LIMIT`, and Swift's `compactMap`. */
module Seqs {
  import opened Wrappers

  /** `r` is `s` with some elements left out, the others kept in order. */
  ghost predicate IsSubsequence<T>(r: seq<T>, s: seq<T>)
    decreases |s|
  {
    r == [] || (s != [] && ((r[0] == s[0] && IsSubsequence(r[1..], s[1..])) || IsSubsequence(r, s[1..])))
  }

  /** The elements of `s` that satisfy `p`, each as often as in `s`, in their order in `s`. */
  function Filter<T(!new)>(s: seq<T>, p: T -> bool): (r: seq<T>)
    ensures |r| <= |s|
    ensures forall x :: multiset(r)[x] == if p(x) then multiset(s)[x] else 0
    ensures forall x :: x in r <==> x in s && p(x)
    ensures IsSubsequence(r, s)
  {
    if s == [] then []
    else
      var rest := Filter(s[1..], p);
      assert s == [s[0]] + s[1..];
      assert multiset(s) == multiset{s[0]} + multiset(s[1..]);
      if p(s[0]) then
        assert ([s[0]] + rest)[1..] == rest;
        [s[0]] + rest
      else
        rest
  }

  /** SQL `LIMIT limit`: the first `limit` elements; a negative limit means no limit at all. */
  function Take<T>(s: seq<T>, limit: int): (r: seq<T>)
    ensures r <= s
    ensures limit < 0 ==> r == s
    ensures 0 <= limit ==> |r| == if limit < |s| then limit else |s|
  {
    if 0 <= limit < |s| then s[..limit] else s
  }

  /** The value of an optional as a sequence of zero or one element. */
  function Present<T>(o: Option<T>): (r: seq<T>)
    ensures |r| <= 1
    ensures r == [] <==> o.None?
  {
    match o
    case None => []
    case Some(v) => [v]
  }

  /** Swift's `compactMap { $0 }`: the wrapped values of the non-nil entries, in order. */
  function CompactMap<T(!new)>(s: seq<Option<T>>): (r: seq<T>)
    ensures |r| <= |s|
    ensures r == [] <==> forall i :: 0 <= i < |s| ==> s[i].None?
    ensures forall v :: v in r <==> Some(v) in s
  {
    if s == [] then [] else Present(s[0]) + CompactMap(s[1..])
  }
}
