// Ranking of scored candidates, shared by the three similarity searches:
// sort by descending score and keep the first `limit` (std::sort plus
// resize, or std::partial_sort plus resize). Neither sort is stable, so the
// order of equal scores is left open.

module Ranking {

  datatype Scored<T> = Scored(item: T, score: real)

  function MinNat(a: nat, b: nat): nat { if a <= b then a else b }

  predicate SortedDesc<T>(s: seq<Scored<T>>)
  {
    forall i, j | 0 <= i < j < |s| :: s[i].score >= s[j].score
  }

  /**
   * r is a possible result of sorting c by descending score and keeping the
   * first k: min(k, |c|) candidates of c, best first, and no candidate left
   * out scores above one that was kept.
   */
  predicate IsTopK<T(==)>(r: seq<Scored<T>>, c: seq<Scored<T>>, k: nat)
  {
    && |r| == MinNat(k, |c|)
    && SortedDesc(r)
    && multiset(r) <= multiset(c)
    && forall x, y | x in multiset(c) - multiset(r) && y in r :: x.score <= y.score
  }

  /**
   * Selection of the k best candidates, best first: std::partial_sort of the
   * first k positions (k >= |c| sorts everything, as std::sort does).
   */
  method SelectTop<T(==)>(c: seq<Scored<T>>, k: nat) returns (r: seq<Scored<T>>)
    ensures IsTopK(r, c, k)
    ensures k >= |c| ==> multiset(r) == multiset(c)
  {
    var a := c;
    var n := MinNat(k, |c|);
    var i := 0;
    while i < n
      invariant 0 <= i <= n
      invariant |a| == |c| && multiset(a) == multiset(c)
      invariant SelectedPrefix(a, i)
    {
      var m := ArgMax(a, i);
      SwapKeepsPrefix(a, i, m);
      a := a[i := a[m]][m := a[i]];
      i := i + 1;
    }
    r := a[..n];
    PrefixIsTopK(a, c, k);
  }

  /** The first i positions hold the i best candidates, best first. */
  predicate SelectedPrefix<T>(a: seq<Scored<T>>, i: nat)
  {
    && i <= |a|
    && SortedDesc(a[..i])
    && forall p, q | 0 <= p < i <= q < |a| :: a[p].score >= a[q].score
  }

  /** The position of a best candidate among a[i..]. */
  method ArgMax<T>(a: seq<Scored<T>>, i: nat) returns (m: nat)
    requires i < |a|
    ensures i <= m < |a| && forall q | i <= q < |a| :: a[m].score >= a[q].score
  {
    m := i;
    var j := i + 1;
    while j < |a|
      invariant i <= m < |a| && i + 1 <= j <= |a|
      invariant forall q | i <= q < j :: a[m].score >= a[q].score
    {
      if a[j].score > a[m].score { m := j; }
      j := j + 1;
    }
  }

  lemma SwapKeepsPrefix<T>(a: seq<Scored<T>>, i: nat, m: nat)
    requires SelectedPrefix(a, i) && i <= m < |a|
    requires forall q | i <= q < |a| :: a[m].score >= a[q].score
    ensures SelectedPrefix(a[i := a[m]][m := a[i]], i + 1)
  {
  }

  lemma PrefixIsTopK<T>(a: seq<Scored<T>>, c: seq<Scored<T>>, k: nat)
    requires |a| == |c| && multiset(a) == multiset(c)
    requires SelectedPrefix(a, MinNat(k, |c|))
    ensures IsTopK(a[..MinNat(k, |c|)], c, k)
    ensures k >= |c| ==> multiset(a[..MinNat(k, |c|)]) == multiset(c)
  {
    var n := MinNat(k, |c|);
    var r := a[..n];
    assert a == r + a[n..];
    assert multiset(a) == multiset(r) + multiset(a[n..]);
    assert multiset(c) - multiset(r) == multiset(a[n..]);
    forall x, y | x in multiset(c) - multiset(r) && y in r ensures x.score <= y.score {
      assert x in a[n..];
      var q :| n <= q < |a| && a[q] == x;
      var p :| 0 <= p < n && r[p] == y;
    }
  }

  /** Keeping the first k of a full descending sort is a top-k selection. */
  lemma TruncateSorted<T>(r: seq<Scored<T>>, c: seq<Scored<T>>, k: nat)
    requires SortedDesc(r) && multiset(r) == multiset(c)
    ensures IsTopK(if |r| > k then r[..k] else r, c, k)
  {
    assert |r| == |multiset(r)| == |multiset(c)| == |c|;
    var n := MinNat(k, |c|);
    assert SelectedPrefix(r, n) by {
      forall i, j | 0 <= i < j < n ensures r[..n][i].score >= r[..n][j].score {
        assert r[..n][i] == r[i] && r[..n][j] == r[j];
      }
    }
    PrefixIsTopK(r, c, k);
    assert (if |r| > k then r[..k] else r) == r[..n];
  }

  /** std::sort followed by resize(limit), as the heap store's search does it. */
  method SortThenTruncate<T(==)>(c: seq<Scored<T>>, limit: nat) returns (r: seq<Scored<T>>)
    ensures IsTopK(r, c, limit)
  {
    var sorted := SelectTop(c, |c|);
    TruncateSorted(sorted, c, limit);
    r := if |sorted| > limit then sorted[..limit] else sorted;
  }

  /** The first result is a best candidate. */
  lemma TopKFirstIsBest<T>(r: seq<Scored<T>>, c: seq<Scored<T>>, k: nat, x: Scored<T>)
    requires IsTopK(r, c, k) && k > 0 && x in c
    ensures |r| > 0 && x.score <= r[0].score
  {
    assert |r| > 0;
    if x !in multiset(r) {
      assert x in multiset(c) - multiset(r);
    } else {
      var p :| 0 <= p < |r| && r[p] == x;
    }
  }

  /** No two positions hold the same value. */
  ghost predicate Distinct<T>(s: seq<T>)
  {
    forall i, j | 0 <= i < j < |s| :: s[i] != s[j]
  }

  /** In a sequence without repeats every value occurs at most once. */
  lemma {:induction false} DistinctCount<T>(s: seq<T>, x: T)
    requires Distinct(s)
    ensures multiset(s)[x] == if x in s then 1 else 0
  {
    if s != [] {
      var t := s[..|s| - 1];
      assert s == t + [s[|s| - 1]];
      assert Distinct(t);
      DistinctCount(t, x);
    }
  }

  /** Two equal positions make a value occur at least twice. */
  lemma RepeatCount<T>(s: seq<T>, i: nat, j: nat)
    requires i < j < |s| && s[i] == s[j]
    ensures multiset(s)[s[i]] >= 2
  {
    assert s == s[..j] + [s[j]] + s[j + 1..];
    assert s[i] in s[..j];
  }

  /** Every element of a sub-multiset of a sequence without repeats occurs once. */
  lemma SubDistinct<T>(a: seq<T>, b: seq<T>)
    requires multiset(a) <= multiset(b) && Distinct(b)
    ensures Distinct(a)
  {
    forall i, j | 0 <= i < j < |a| ensures a[i] != a[j] {
      if a[i] == a[j] {
        RepeatCount(a, i, j);
        DistinctCount(b, a[i]);
      }
    }
  }

  /**
   * c lists positions 0..|hc|-1 of hc with hc's scores, hc's items are
   * pairwise different, and r is top with each position replaced by hc's item.
   */
  ghost predicate Relabelled<T>(top: seq<Scored<nat>>, c: seq<Scored<nat>>, hc: seq<Scored<T>>, r: seq<Scored<T>>)
  {
    && |c| == |hc| && (forall j | 0 <= j < |c| :: c[j] == Scored(j, hc[j].score))
    && (forall i, j | 0 <= i < j < |hc| :: hc[i].item != hc[j].item)
    && |r| == |top| && forall i | 0 <= i < |top| :: top[i].item < |hc| && r[i] == Scored(hc[top[i].item].item, top[i].score)
  }

  lemma RelabelPoints<T>(top: seq<Scored<nat>>, c: seq<Scored<nat>>, hc: seq<Scored<T>>, r: seq<Scored<T>>)
    requires Relabelled(top, c, hc, r) && multiset(top) <= multiset(c)
    ensures Distinct(c) && Distinct(hc)
    ensures forall i | 0 <= i < |top| :: top[i] == c[top[i].item] && r[i] == hc[top[i].item]
  {
    assert Distinct(c) by {
      forall i, j | 0 <= i < j < |c| ensures c[i] != c[j] { assert c[i].item == i; }
    }
    forall i | 0 <= i < |top| ensures top[i] == c[top[i].item] && r[i] == hc[top[i].item] {
      assert top[i] in multiset(c);
      var m :| 0 <= m < |c| && c[m] == top[i];
    }
  }

  lemma RelabelSub<T>(top: seq<Scored<nat>>, c: seq<Scored<nat>>, hc: seq<Scored<T>>, r: seq<Scored<T>>)
    requires Relabelled(top, c, hc, r) && multiset(top) <= multiset(c)
    ensures Distinct(r) && multiset(r) <= multiset(hc)
  {
    RelabelPoints(top, c, hc, r);
    SubDistinct(top, c);
    assert Distinct(r) by {
      forall i, j | 0 <= i < j < |r| ensures r[i] != r[j] {
        assert top[i] != top[j];
        assert top[i].item != top[j].item;
      }
    }
    forall x ensures multiset(r)[x] <= multiset(hc)[x] {
      DistinctCount(r, x);
      DistinctCount(hc, x);
      if x in r {
        var i :| 0 <= i < |r| && r[i] == x;
      }
    }
  }

  lemma RelabelLeftOut<T>(top: seq<Scored<nat>>, c: seq<Scored<nat>>, k: nat, hc: seq<Scored<T>>, r: seq<Scored<T>>, x: Scored<T>, y: Scored<T>)
    requires Relabelled(top, c, hc, r) && IsTopK(top, c, k)
    requires x in multiset(hc) - multiset(r) && y in r
    ensures x.score <= y.score
  {
    RelabelPoints(top, c, hc, r);
    RelabelSub(top, c, hc, r);
    DistinctCount(r, x);
    DistinctCount(hc, x);
    var m :| 0 <= m < |hc| && hc[m] == x;
    var i :| 0 <= i < |r| && r[i] == y;
    forall p | 0 <= p < |top| ensures top[p] != c[m] {
      assert r[p] in r;
    }
    DistinctCount(top, c[m]);
    DistinctCount(c, c[m]);
    assert c[m] in multiset(c) - multiset(top);
    assert top[i] in top;
  }

  /**
   * A top-k selection over the positions of hc, relabelled with hc's
   * items, is a top-k selection over hc.
   */
  lemma RelabelTopK<T>(top: seq<Scored<nat>>, c: seq<Scored<nat>>, k: nat, hc: seq<Scored<T>>, r: seq<Scored<T>>)
    requires IsTopK(top, c, k) && Relabelled(top, c, hc, r)
    ensures IsTopK(r, hc, k)
  {
    RelabelPoints(top, c, hc, r);
    RelabelSub(top, c, hc, r);
    forall x, y | x in multiset(hc) - multiset(r) && y in r ensures x.score <= y.score {
      RelabelLeftOut(top, c, k, hc, r, x, y);
    }
  }
}
