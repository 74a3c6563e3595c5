/**
 * Order independence of the aggregation: permuting the input records
 * leaves every wallet's counters and USD totals unchanged, permutes its
 * timestamps, and so leaves its score unchanged. (This holds of exact
 * arithmetic; with floating-point totals a different order can round
 * differently.)
 */
module Reordering {
  import opened Wrappers
  import opened Records
  import opened Aggregation
  import opened Sorting
  import opened Cadence
  import opened Scoring

  lemma {:induction false} CountAppend(a: seq<Record>, b: seq<Record>, w: string, act: Action)
    ensures Count(a + b, w, act) == Count(a, w, act) + Count(b, w, act)
  {
    if b == [] {
      assert a + b == a;
    } else {
      var b' := b[..|b| - 1];
      CountAppend(a, b', w, act);
      assert (a + b)[..|a + b| - 1] == a + b';
      assert (a + b)[|a + b| - 1] == b[|b| - 1];
    }
  }

  lemma {:induction false} TotalAppend(a: seq<Record>, b: seq<Record>, w: string, act: Action)
    requires AllWellFormed(a) && AllWellFormed(b)
    ensures AllWellFormed(a + b)
    ensures Total(a + b, w, act) == Total(a, w, act) + Total(b, w, act)
  {
    if b == [] {
      assert a + b == a;
    } else {
      var b' := b[..|b| - 1];
      TotalAppend(a, b', w, act);
      assert (a + b)[..|a + b| - 1] == a + b';
      assert (a + b)[|a + b| - 1] == b[|b| - 1];
    }
  }

  lemma {:induction false} TimestampsAppend(a: seq<Record>, b: seq<Record>, w: string)
    ensures Timestamps(a + b, w) == Timestamps(a, w) + Timestamps(b, w)
  {
    if b == [] {
      assert a + b == a;
    } else {
      var b' := b[..|b| - 1];
      TimestampsAppend(a, b', w);
      assert (a + b)[..|a + b| - 1] == a + b';
      assert (a + b)[|a + b| - 1] == b[|b| - 1];
    }
  }

  /**
   * The last record of `d1` sits at some index `k` of `d2`; taking it out of
   * both leaves two sequences that are again permutations of each other.
   */
  lemma Split(d1: seq<Record>, d2: seq<Record>) returns (k: nat)
    requires |d1| > 0 && multiset(d1) == multiset(d2)
    ensures k < |d2| && d2[k] == d1[|d1| - 1]
    ensures d2 == d2[..k] + [d2[k]] + d2[k + 1..]
    ensures multiset(d1[..|d1| - 1]) == multiset(d2[..k] + d2[k + 1..])
  {
    var x := d1[|d1| - 1];
    DropLastMultiset(d1);
    assert x in multiset(d2);
    k :| 0 <= k < |d2| && d2[k] == x;
    RemoveAtMultiset(d2, k);
  }

  /** Dropping the last element removes one copy of it. */
  lemma DropLastMultiset<T>(s: seq<T>)
    requires |s| > 0
    ensures multiset(s[..|s| - 1]) == multiset(s) - multiset{s[|s| - 1]}
  {
    assert s == s[..|s| - 1] + [s[|s| - 1]];
  }

  /** Cutting out position `k` removes one copy of the element there. */
  lemma RemoveAtMultiset<T>(s: seq<T>, k: nat)
    requires k < |s|
    ensures s == s[..k] + [s[k]] + s[k + 1..]
    ensures multiset(s[..k] + s[k + 1..]) == multiset(s) - multiset{s[k]}
  {
    assert s == s[..k] + [s[k]] + s[k + 1..];
    assert multiset(s) == multiset(s[..k]) + multiset{s[k]} + multiset(s[k + 1..]);
  }

  lemma WellFormedPermutation(d1: seq<Record>, d2: seq<Record>)
    requires multiset(d1) == multiset(d2) && AllWellFormed(d1)
    ensures AllWellFormed(d2)
  {
    forall i | 0 <= i < |d2| ensures WellFormed(d2[i]) {
      assert d2[i] in multiset(d1);
    }
  }

  lemma {:induction false} CountPermutation(d1: seq<Record>, d2: seq<Record>, w: string, act: Action)
    requires multiset(d1) == multiset(d2)
    ensures Count(d1, w, act) == Count(d2, w, act)
    decreases |d1|
  {
    if d1 == [] {
      assert d2 == [] by { assert |multiset(d2)| == 0; }
    } else {
      var k := Split(d1, d2);
      var rest := d2[..k] + d2[k + 1..];
      CountPermutation(d1[..|d1| - 1], rest, w, act);
      CountAppend(d2[..k], d2[k + 1..], w, act);
      CountAppend(d2[..k] + [d2[k]], d2[k + 1..], w, act);
      CountAppend(d2[..k], [d2[k]], w, act);
      assert Count([d2[k]], w, act) == Count([], w, act) + (if Names(d2[k], w) && Classify(d2[k]) == Some(act) then 1 else 0) by {
        assert [d2[k]][..0] == [];
      }
    }
  }

  lemma {:induction false} TotalPermutation(d1: seq<Record>, d2: seq<Record>, w: string, act: Action)
    requires multiset(d1) == multiset(d2) && AllWellFormed(d1)
    ensures AllWellFormed(d2)
    ensures Total(d1, w, act) == Total(d2, w, act)
    decreases |d1|
  {
    WellFormedPermutation(d1, d2);
    if d1 == [] {
      assert d2 == [] by { assert |multiset(d2)| == 0; }
    } else {
      var k := Split(d1, d2);
      var front, back := d2[..k], d2[k + 1..];
      assert AllWellFormed(front) && AllWellFormed(back) && AllWellFormed([d2[k]]);
      var rest := front + back;
      WellFormedPermutation(d2, d2);
      assert AllWellFormed(d1[..|d1| - 1]);
      TotalPermutation(d1[..|d1| - 1], rest, w, act);
      TotalAppend(front, back, w, act);
      TotalAppend(front, [d2[k]], w, act);
      TotalAppend(front + [d2[k]], back, w, act);
      assert Total([d2[k]], w, act) == Total([], w, act) + (if Names(d2[k], w) && Classify(d2[k]) == Some(act) then AmountUsd(d2[k]) else 0.0) by {
        assert [d2[k]][..0] == [];
      }
    }
  }

  lemma {:induction false} TimestampsPermutation(d1: seq<Record>, d2: seq<Record>, w: string)
    requires multiset(d1) == multiset(d2)
    ensures multiset(Timestamps(d1, w)) == multiset(Timestamps(d2, w))
    decreases |d1|
  {
    if d1 == [] {
      assert d2 == [] by { assert |multiset(d2)| == 0; }
    } else {
      var k := Split(d1, d2);
      var front, back := d2[..k], d2[k + 1..];
      TimestampsPermutation(d1[..|d1| - 1], front + back, w);
      TimestampsAppend(front, back, w);
      TimestampsAppend(front, [d2[k]], w);
      TimestampsAppend(front + [d2[k]], back, w);
      assert Timestamps([d2[k]], w) == Timestamps([], w) + (if Names(d2[k], w) then [d2[k].timestamp.value] else []) by {
        assert [d2[k]][..0] == [];
      }
    }
  }

  /** Reordering the records does not change which wallets are scored. */
  lemma NamedPermutation(d1: seq<Record>, d2: seq<Record>, w: string)
    requires multiset(d1) == multiset(d2)
    ensures Named(d1, w) <==> Named(d2, w)
  {
    if Named(d1, w) {
      var i :| 0 <= i < |d1| && Names(d1[i], w);
      assert d1[i] in multiset(d2);
    }
    if Named(d2, w) {
      var i :| 0 <= i < |d2| && Names(d2[i], w);
      assert d2[i] in multiset(d1);
    }
  }

  /**
   * Permuting the input records leaves each wallet's counters and totals
   * unchanged and its score unchanged.
   */
  lemma ScoreIgnoresRecordOrder(d1: seq<Record>, d2: seq<Record>, w: string, log1p: real -> real)
    requires multiset(d1) == multiset(d2) && AllWellFormed(d1)
    requires InLogDomain(FeaturesOf(d1, w))
    ensures AllWellFormed(d2)
    ensures FeaturesOf(d2, w) == FeaturesOf(d1, w).(timestamps := FeaturesOf(d2, w).timestamps)
    ensures InLogDomain(FeaturesOf(d2, w))
    ensures WalletScore(FeaturesOf(d1, w), log1p) == WalletScore(FeaturesOf(d2, w), log1p)
  {
    WellFormedPermutation(d1, d2);
    var f1, f2 := FeaturesOf(d1, w), FeaturesOf(d2, w);
    CountPermutation(d1, d2, w, Deposit);
    CountPermutation(d1, d2, w, Borrow);
    CountPermutation(d1, d2, w, Repay);
    CountPermutation(d1, d2, w, LiquidationCall);
    TotalPermutation(d1, d2, w, Deposit);
    TotalPermutation(d1, d2, w, Borrow);
    TotalPermutation(d1, d2, w, Repay);
    TimestampsPermutation(d1, d2, w);
    SortIgnoresOrder(f1.timestamps, f2.timestamps);
    assert BotPenalty(f1.timestamps) == BotPenalty(f2.timestamps);
    assert RawScore(f1, log1p) == RawScore(f2, log1p);
  }
}
