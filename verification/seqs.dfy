/** The array primitives the game code relies on: `findIndex`/`find`,
    `every`, and removal of one element with `splice(index, 1)`. */
module Seqs {

  /** Position of the first element satisfying `p`, or -1 when there is none. */
  function FindIndex<T>(s: seq<T>, p: T -> bool): (r: int)
    ensures -1 <= r < |s|
    ensures r == -1 <==> forall j :: 0 <= j < |s| ==> !p(s[j])
    ensures 0 <= r ==> p(s[r]) && forall j :: 0 <= j < r ==> !p(s[j])
  {
    if |s| == 0 then -1
    else if p(s[0]) then 0
    else
      var k := FindIndex(s[1..], p);
      if k == -1 then -1 else k + 1
  }

  /** Position of the first occurrence of `x`, or -1. */
  function IndexOf<T(==)>(s: seq<T>, x: T): (r: int)
    ensures -1 <= r < |s|
    ensures r == -1 <==> x !in s
    ensures 0 <= r ==> r < |s| && s[r] == x && x !in s[..r]
  {
    FindIndex(s, y => y == x)
  }

  /** True iff every element satisfies `p`. */
  function Every<T>(s: seq<T>, p: T -> bool): (r: bool)
    ensures r <==> forall j :: 0 <= j < |s| ==> p(s[j])
  {
    if |s| == 0 then true
    else p(s[0]) && Every(s[1..], p)
  }

  /** Appending an element the list already holds is invisible to `findIndex`
      and `every`: the earlier occurrence answers first. */
  lemma RepeatIsUnobservable<T>(s: seq<T>, x: T, p: T -> bool)
    requires x in s
    ensures FindIndex(s + [x], p) == FindIndex(s, p)
    ensures Every(s + [x], p) == Every(s, p)
  {
    var t := s + [x];
    var i :| 0 <= i < |s| && s[i] == x;
    assert t[i] == x && t[|s|] == x;
    assert forall j :: 0 <= j < |s| ==> t[j] == s[j];
  }

  /** No element occurs twice. */
  predicate NoDuplicates<T(==)>(s: seq<T>) {
    forall i, j :: 0 <= i < j < |s| ==> s[i] != s[j]
  }

  /** Without duplicates, the first occurrence of an element is its only one. */
  lemma IndexOfUnique<T>(s: seq<T>, i: int)
    requires NoDuplicates(s) && 0 <= i < |s|
    ensures IndexOf(s, s[i]) == i
  {
  }

  /** `s` with the first occurrence of `x` spliced out; `s` itself when `x` is absent. */
  function RemoveFirst<T(==)>(s: seq<T>, x: T): (r: seq<T>)
    ensures x !in s ==> r == s
    ensures x in s ==> |r| == |s| - 1
    ensures forall y :: y in r ==> y in s
    ensures NoDuplicates(s) ==> NoDuplicates(r) && x !in r
  {
    var i := IndexOf(s, x);
    if i == -1 then s
    else
      SpliceMembers(s, i);
      SpliceNoDuplicates(s, i);
      s[..i] + s[i + 1..]
  }

  /** Removing the first occurrence of a present element keeps everything
      before it and shifts everything after it down by one place. */
  lemma RemoveFirstSplices<T>(s: seq<T>, x: T)
    ensures x in s ==> var i := IndexOf(s, x);
                       && RemoveFirst(s, x)[..i] == s[..i]
                       && RemoveFirst(s, x)[i..] == s[i + 1..]
  {
  }

  /** Removing the first occurrence of a present element takes exactly one
      copy of it out of the multiset of elements. */
  lemma RemoveFirstMultiset<T>(s: seq<T>, x: T)
    ensures x in s ==> multiset(RemoveFirst(s, x)) == multiset(s) - multiset{x}
  {
    if x in s {
      var i := IndexOf(s, x);
      assert s == s[..i] + [s[i]] + s[i + 1..];
      assert multiset(s) == multiset(s[..i]) + multiset{s[i]} + multiset(s[i + 1..]);
    }
  }

  lemma SpliceMembers<T>(s: seq<T>, i: int)
    requires 0 <= i < |s|
    ensures forall y :: y in s[..i] + s[i + 1..] ==> y in s
  {
  }

  lemma SpliceNoDuplicates<T>(s: seq<T>, i: int)
    requires 0 <= i < |s|
    ensures NoDuplicates(s) ==> NoDuplicates(s[..i] + s[i + 1..]) && s[i] !in s[..i] + s[i + 1..]
  {
    var r := s[..i] + s[i + 1..];
    assert forall k :: 0 <= k < |r| ==> r[k] == s[if k < i then k else k + 1];
  }
}
