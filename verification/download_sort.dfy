/** Sorting apps by download count with the comparator both list pages pass to
    `Array.prototype.sort`: `b.downloads - a.downloads` when the order is "desc",
    `a.downloads - b.downloads` for any other order.

    `Array.prototype.sort` is stable, so the comparator alone fixes the result. It
    is specified here by a stable insertion sort on sequences (`SortBy`), which is
    proved ordered, a permutation of its input and stable for each download count;
    `SortInPlace` is the in-place sort on an array, proved to produce `SortBy`. */
module DownloadSort {
  import opened Seqs
  import opened Apps

  /** The comparator: positive when `b` has to be placed before `a`. */
  function Compare(order: string, a: App, b: App): (r: int)
    ensures r <= 0 <==> if order == "desc" then a.downloads >= b.downloads else a.downloads <= b.downloads
  {
    if order == "desc" then b.downloads - a.downloads else a.downloads - b.downloads
  }

  /** Every pair of apps stands in the order the comparator asks for. */
  ghost predicate Sorted(order: string, s: seq<App>)
  {
    forall i, j :: 0 <= i < j < |s| ==> Compare(order, s[i], s[j]) <= 0
  }

  /** Inserts `x` into `t`, scanning from the right and passing only the apps the
      comparator puts after `x`: equal download counts keep `x` behind them. */
  function Insert(order: string, x: App, t: seq<App>): (r: seq<App>)
    ensures |r| == |t| + 1
  {
    if t == [] || Compare(order, t[|t| - 1], x) <= 0 then t + [x]
    else Insert(order, x, t[..|t| - 1]) + [t[|t| - 1]]
  }

  /** The stable sort of `s` by the comparator. */
  function SortBy(order: string, s: seq<App>): (r: seq<App>)
    ensures |r| == |s|
  {
    if s == [] then []
    else Insert(order, s[|s| - 1], SortBy(order, s[..|s| - 1]))
  }

  lemma {:induction false} InsertPermutes(order: string, x: App, t: seq<App>)
    ensures multiset(Insert(order, x, t)) == multiset(t) + multiset{x}
  {
    if t != [] && Compare(order, t[|t| - 1], x) > 0 {
      var front := t[..|t| - 1];
      InsertPermutes(order, x, front);
      assert t == front + [t[|t| - 1]];
    }
  }

  /** The sort neither adds nor drops an app. */
  lemma {:induction false} SortByPermutes(order: string, s: seq<App>)
    ensures multiset(SortBy(order, s)) == multiset(s)
  {
    if s != [] {
      var front := s[..|s| - 1];
      SortByPermutes(order, front);
      InsertPermutes(order, s[|s| - 1], SortBy(order, front));
      assert s == front + [s[|s| - 1]];
    }
  }

  lemma {:induction false} InsertSorted(order: string, x: App, t: seq<App>)
    requires Sorted(order, t)
    ensures Sorted(order, Insert(order, x, t))
  {
    if t == [] || Compare(order, t[|t| - 1], x) <= 0 {
    } else {
      var last := t[|t| - 1];
      var front := t[..|t| - 1];
      InsertSorted(order, x, front);
      var r := Insert(order, x, front);
      InsertPermutes(order, x, front);
      forall y | y in r
        ensures Compare(order, y, last) <= 0
      {
        assert y in multiset(r);
        if y != x {
          assert y in multiset(front);
        }
      }
      assert Insert(order, x, t) == r + [last];
    }
  }

  lemma {:induction false} SortBySorted(order: string, s: seq<App>)
    ensures Sorted(order, SortBy(order, s))
  {
    if s != [] {
      SortBySorted(order, s[..|s| - 1]);
      InsertSorted(order, s[|s| - 1], SortBy(order, s[..|s| - 1]));
    }
  }

  /** The sort orders its result by download count: non-increasing for "desc",
      non-decreasing for every other order. */
  lemma SortByOrdered(order: string, s: seq<App>)
    ensures var r := SortBy(order, s);
      forall i, j :: 0 <= i < j < |r| ==>
        if order == "desc" then r[i].downloads >= r[j].downloads else r[i].downloads <= r[j].downloads
  {
    SortBySorted(order, s);
  }

  /** The apps with download count `k`, as a filter test. */
  function WithDownloads(k: int): App -> bool
  {
    (a: App) => a.downloads == k
  }

  lemma {:induction false} InsertStable(order: string, x: App, t: seq<App>, k: int)
    ensures Filter(Insert(order, x, t), WithDownloads(k))
         == Filter(t, WithDownloads(k)) + Filter([x], WithDownloads(k))
  {
    var keep := WithDownloads(k);
    if t == [] || Compare(order, t[|t| - 1], x) <= 0 {
      FilterAppend(t, [x], keep);
    } else {
      var last := t[|t| - 1];
      var front := t[..|t| - 1];
      assert t == front + [last];
      var before, mine, theirs := Filter(front, keep), Filter([x], keep), Filter([last], keep);
      InsertStable(order, x, front, k);
      FilterAppend(Insert(order, x, front), [last], keep);
      FilterAppend(front, [last], keep);
      assert Filter(Insert(order, x, t), keep) == before + mine + theirs;
      assert Filter(t, keep) == before + theirs;
      // `last` was passed, so its download count differs from that of `x`
      assert mine == [] || theirs == [];
    }
  }

  /** The sort is stable: the apps with any one download count keep their relative
      order. */
  lemma {:induction false} SortByStable(order: string, s: seq<App>, k: int)
    ensures Filter(SortBy(order, s), WithDownloads(k)) == Filter(s, WithDownloads(k))
  {
    if s != [] {
      var front := s[..|s| - 1];
      SortByStable(order, front, k);
      InsertStable(order, s[|s| - 1], SortBy(order, front), k);
      assert s == front + [s[|s| - 1]];
      FilterAppend(front, [s[|s| - 1]], WithDownloads(k));
    }
  }

  /** Apps are counted alike by any two sequences that agree on the apps of every
      download count. */
  lemma SameAppsPerCountSameMultiset(r1: seq<App>, r2: seq<App>)
    requires forall k :: Filter(r1, WithDownloads(k)) == Filter(r2, WithDownloads(k))
    ensures multiset(r1) == multiset(r2)
  {
    forall x: App
      ensures multiset(r1)[x] == multiset(r2)[x]
    {
      var keep := WithDownloads(x.downloads);
      FilterCounts(r1, keep);
      FilterCounts(r2, keep);
      assert Filter(r1, keep) == Filter(r2, keep);
    }
  }

  /** Two sorted sequences holding the same apps start with equal download counts. */
  lemma FirstSameDownloads(order: string, r1: seq<App>, r2: seq<App>)
    requires Sorted(order, r1) && Sorted(order, r2)
    requires multiset(r1) == multiset(r2) && r1 != [] && r2 != []
    ensures r1[0].downloads == r2[0].downloads
  {
    assert r2[0] in multiset(r1) && r1[0] in multiset(r2);
    var i :| 0 <= i < |r1| && r1[i] == r2[0];
    var j :| 0 <= j < |r2| && r2[j] == r1[0];
    assert Compare(order, r1[0], r1[i]) <= 0 && Compare(order, r2[0], r2[j]) <= 0;
  }

  /** For one download count `k`: sequences whose first apps have equal download
      counts and that agree on the apps with count `k` still agree without their
      first apps, and when `k` is the first apps' count those apps are the same. */
  lemma RestAgrees(r1: seq<App>, r2: seq<App>, k: int)
    requires r1 != [] && r2 != [] && r1[0].downloads == r2[0].downloads
    requires Filter(r1, WithDownloads(k)) == Filter(r2, WithDownloads(k))
    ensures Filter(r1[1..], WithDownloads(k)) == Filter(r2[1..], WithDownloads(k))
    ensures k == r1[0].downloads ==> r1[0] == r2[0]
  {
    if k == r1[0].downloads {
      var f1, f2 := Filter(r1[1..], WithDownloads(k)), Filter(r2[1..], WithDownloads(k));
      assert [r1[0]] + f1 == [r2[0]] + f2;
      assert ([r1[0]] + f1)[0] == r1[0] && ([r2[0]] + f2)[0] == r2[0];
      assert ([r1[0]] + f1)[1..] == f1 && ([r2[0]] + f2)[1..] == f2;
    }
  }

  /** Sequences that agree on the apps of every download count have equal length. */
  lemma SameLength(r1: seq<App>, r2: seq<App>)
    requires forall k :: Filter(r1, WithDownloads(k)) == Filter(r2, WithDownloads(k))
    ensures multiset(r1) == multiset(r2) && |r1| == |r2|
  {
    SameAppsPerCountSameMultiset(r1, r2);
    assert |multiset(r1)| == |multiset(r2)|;
  }

  /** Two sequences in comparator order that agree on the apps of every download
      count are equal. */
  lemma {:induction false} SortedStableUnique(order: string, r1: seq<App>, r2: seq<App>)
    requires Sorted(order, r1) && Sorted(order, r2)
    requires forall k :: Filter(r1, WithDownloads(k)) == Filter(r2, WithDownloads(k))
    ensures r1 == r2
    decreases |r1|
  {
    SameLength(r1, r2);
    if r1 != [] {
      FirstSameDownloads(order, r1, r2);
      forall k
        ensures Filter(r1[1..], WithDownloads(k)) == Filter(r2[1..], WithDownloads(k))
      {
        RestAgrees(r1, r2, k);
      }
      RestAgrees(r1, r2, r1[0].downloads);
      assert Sorted(order, r1[1..]) && Sorted(order, r2[1..]);
      SortedStableUnique(order, r1[1..], r2[1..]);
      assert r1 == [r1[0]] + r1[1..] && r2 == [r2[0]] + r2[1..];
    }
  }

  /** Any stable sort with this comparator gives `SortBy`: a sequence in comparator
      order that keeps the relative order of the apps of each download count of
      `s` is `SortBy(order, s)`. So the result does not depend on the sorting
      algorithm the JavaScript engine uses. */
  lemma StableSortIsSortBy(order: string, s: seq<App>, r: seq<App>)
    requires Sorted(order, r)
    requires forall k :: Filter(r, WithDownloads(k)) == Filter(s, WithDownloads(k))
    ensures r == SortBy(order, s)
  {
    SortBySorted(order, s);
    forall k
      ensures Filter(r, WithDownloads(k)) == Filter(SortBy(order, s), WithDownloads(k))
    {
      SortByStable(order, s, k);
    }
    SortedStableUnique(order, r, SortBy(order, s));
  }

  lemma SortByStep(order: string, s: seq<App>, i: int)
    requires 0 <= i < |s|
    ensures SortBy(order, s[..i + 1]) == Insert(order, s[i], SortBy(order, s[..i]))
  {
    assert s[..i + 1][..i] == s[..i];
  }

  /** Where `Insert` puts `x`: behind `t[..j]`, when `t[j - 1]` may stay before
      `x` and every app from `j` on has to go after it. */
  lemma {:induction false} InsertPosition(order: string, x: App, t: seq<App>, j: int)
    requires 0 <= j <= |t|
    requires j == 0 || Compare(order, t[j - 1], x) <= 0
    requires forall k :: j <= k < |t| ==> Compare(order, t[k], x) > 0
    ensures Insert(order, x, t) == t[..j] + [x] + t[j..]
  {
    if j < |t| {
      var front := t[..|t| - 1];
      assert front[..j] == t[..j];
      if j > 0 {
        assert front[j - 1] == t[j - 1];
      }
      InsertPosition(order, x, front, j);
      assert t[j..] == front[j..] + [t[|t| - 1]];
    }
  }

  lemma SplicedAt(t: seq<App>, x: App, j: int, k: int)
    requires 0 <= j <= |t| && 0 <= k <= |t|
    ensures (t[..j] + [x] + t[j..])[k] == if k < j then t[k] else if k == j then x else t[k - 1]
  {
  }

  /** One step of the in-place sort: shifts the apps of the sorted prefix
      `a[..i]` that the comparator puts after `a[i]` one place right and drops
      `a[i]` into the gap. */
  method InsertInPlace(a: array<App>, i: int, order: string)
    requires 0 <= i < a.Length
    modifies a
    ensures a[..i + 1] == Insert(order, old(a[i]), old(a[..i]))
    ensures forall k :: i < k < a.Length ==> a[k] == old(a[k])
  {
    var x := a[i];
    ghost var t := a[..i];
    var j := i;
    while j > 0 && Compare(order, a[j - 1], x) > 0
      invariant 0 <= j <= i
      invariant forall k :: 0 <= k < j ==> a[k] == t[k]
      invariant forall k :: j < k <= i ==> a[k] == t[k - 1]
      invariant forall k :: i < k < a.Length ==> a[k] == old(a[k])
      invariant forall k :: j <= k < i ==> Compare(order, t[k], x) > 0
    {
      a[j] := a[j - 1];
      j := j - 1;
    }
    a[j] := x;
    InsertPosition(order, x, t, j);
    forall k | 0 <= k <= i
      ensures a[k] == (t[..j] + [x] + t[j..])[k]
    {
      SplicedAt(t, x, j, k);
    }
    assert a[..i + 1] == t[..j] + [x] + t[j..];
  }

  /** Sorting an array in place with the comparator, by insertion. */
  method SortInPlace(a: array<App>, order: string)
    modifies a
    ensures a[..] == SortBy(order, old(a[..]))
  {
    ghost var s := a[..];
    var i := 0;
    while i < a.Length
      invariant 0 <= i <= a.Length
      invariant a[..i] == SortBy(order, s[..i])
      invariant forall k :: i <= k < a.Length ==> a[k] == s[k]
    {
      InsertInPlace(a, i, order);
      SortByStep(order, s, i);
      i := i + 1;
    }
    assert a[..] == a[..a.Length];
    assert s[..a.Length] == s;
  }

  /** Sorting a fresh copy of `s` with the comparator, leaving `s` alone. */
  method SortedCopy(s: seq<App>, order: string) returns (r: seq<App>)
    ensures r == SortBy(order, s)
  {
    var a := new App[|s|](i requires 0 <= i < |s| => s[i]);
    assert a[..] == s;
    SortInPlace(a, order);
    r := a[..];
  }
}
