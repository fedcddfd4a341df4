/** The JavaScript array operations the storefront relies on (`filter`, `find`,
    `some`), as functions over Dafny sequences, with the facts about them that the
    page modules use. */
module Seqs {

  datatype Option<T> = None | Some(value: T)

  /** `r` is `s` with some elements left out, the rest in their original order. */
  predicate IsSubsequence<T(==,!new)>(r: seq<T>, s: seq<T>)
  {
    r == [] || (s != [] && ((r[0] == s[0] && IsSubsequence(r[1..], s[1..])) || IsSubsequence(r, s[1..])))
  }

  /** `Array.prototype.filter`: the elements of `s` that `keep` accepts, in order. */
  function Filter<T(==,!new)>(s: seq<T>, keep: T -> bool): (r: seq<T>)
    ensures |r| <= |s|
  {
    if s == [] then []
    else if keep(s[0]) then [s[0]] + Filter(s[1..], keep)
    else Filter(s[1..], keep)
  }

  /** An element is in the filtered sequence exactly when it is in `s` and is kept. */
  lemma {:induction false} FilterMembers<T(!new)>(s: seq<T>, keep: T -> bool)
    ensures forall x :: x in Filter(s, keep) <==> x in s && keep(x)
  {
    if s != [] {
      FilterMembers(s[1..], keep);
    }
  }

  /** Every kept element occurs in the filtered sequence as often as in `s`;
      every other element not at all. */
  lemma {:induction false} FilterCounts<T(!new)>(s: seq<T>, keep: T -> bool)
    ensures forall x :: multiset(Filter(s, keep))[x] == if keep(x) then multiset(s)[x] else 0
  {
    if s != [] {
      FilterCounts(s[1..], keep);
      assert s == [s[0]] + s[1..];
    }
  }

  /** The filtered sequence keeps the relative order of `s`. */
  lemma {:induction false} FilterSubsequence<T(!new)>(s: seq<T>, keep: T -> bool)
    ensures IsSubsequence(Filter(s, keep), s)
  {
    if s != [] {
      FilterSubsequence(s[1..], keep);
      if !keep(s[0]) {
        SubsequenceOfTail(Filter(s[1..], keep), s);
      }
    }
  }

  lemma SubsequenceOfTail<T(!new)>(r: seq<T>, s: seq<T>)
    requires s != [] && IsSubsequence(r, s[1..])
    ensures IsSubsequence(r, s)
  {
  }

  /** Filtering with a predicate that accepts every element changes nothing. */
  lemma {:induction false} FilterKeepsAll<T(!new)>(s: seq<T>, keep: T -> bool)
    requires forall x :: x in s ==> keep(x)
    ensures Filter(s, keep) == s
  {
    if s != [] {
      FilterKeepsAll(s[1..], keep);
    }
  }

  /** Filtering distributes over concatenation. */
  lemma {:induction false} FilterAppend<T(!new)>(a: seq<T>, b: seq<T>, keep: T -> bool)
    ensures Filter(a + b, keep) == Filter(a, keep) + Filter(b, keep)
  {
    if a == [] {
      assert a + b == b;
    } else {
      assert (a + b)[1..] == a[1..] + b;
      FilterAppend(a[1..], b, keep);
    }
  }

  /** `Array.prototype.find`: the first element of `s` that `matches` accepts. */
  function Find<T(!new)>(s: seq<T>, matches: T -> bool): (r: Option<T>)
    ensures r.None? <==> forall x :: x in s ==> !matches(x)
    ensures r.Some? ==> exists k :: 0 <= k < |s| && s[k] == r.value && matches(s[k])
                                    && forall j :: 0 <= j < k ==> !matches(s[j])
  {
    if s == [] then None
    else if matches(s[0]) then Some(s[0])
    else
      var r := Find(s[1..], matches);
      assert r.Some? ==> exists k :: 1 <= k < |s| && s[k] == r.value && matches(s[k])
                                     && forall j :: 1 <= j < k ==> !matches(s[j]);
      r
  }

  /** `Array.prototype.some`: whether some element of `s` is accepted by `matches`. */
  predicate Any<T(!new)>(s: seq<T>, matches: T -> bool)
    ensures Any(s, matches) <==> exists x :: x in s && matches(x)
  {
    s != [] && (matches(s[0]) || Any(s[1..], matches))
  }

  /** No element occurs twice. */
  predicate Distinct<T(==)>(s: seq<T>)
  {
    forall i, j :: 0 <= i < j < |s| ==> s[i] != s[j]
  }
}
