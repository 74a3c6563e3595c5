/**
 * The aggregation pass: one loop over the transaction records that builds,
 * per wallet, a features record (four counters, three USD totals and the
 * list of timestamps), in a dictionary whose keys keep first-seen order.
 *
 * The specification is declarative: each field of a wallet's features is
 * a count, a sum or a list taken over the valid records that name that
 * wallet, and the key order is the order in which wallets first appear.
 * AggregateWallets, the loop itself, is proved to build exactly that.
 */
module Aggregation {
  import opened Wrappers
  import opened Records

  /** The per-wallet features record. */
  datatype WalletFeatures = WalletFeatures(
    numDeposits: nat,
    totalDepositUsd: real,
    numBorrows: nat,
    totalBorrowUsd: real,
    numRepayments: nat,
    totalRepayUsd: real,
    numLiquidations: nat,
    timestamps: seq<int>)

  /** The record a wallet gets when it is first seen. */
  const Fresh := WalletFeatures(0, 0.0, 0, 0.0, 0, 0.0, 0, [])

  /** The dictionary of features together with its key order. */
  datatype Table = Table(wallets: map<string, WalletFeatures>, order: seq<string>)

  /** The counter an action increments. */
  function CounterOf(f: WalletFeatures, a: Action): nat {
    match a
    case Deposit => f.numDeposits
    case Borrow => f.numBorrows
    case Repay => f.numRepayments
    case LiquidationCall => f.numLiquidations
  }

  /** Liquidations are counted but carry no USD total. */
  predicate HasTotal(a: Action) {
    a != LiquidationCall
  }

  /** The USD total an action adds to. */
  function TotalOf(f: WalletFeatures, a: Action): real
    requires HasTotal(a)
  {
    match a
    case Deposit => f.totalDepositUsd
    case Borrow => f.totalBorrowUsd
    case Repay => f.totalRepayUsd
  }

  // ---------------------------------------------------------------------
  // Specification, by recursion on the last record

  /** Timestamps of the valid records naming `w`, in input order. */
  function Timestamps(data: seq<Record>, w: string): seq<int> {
    if data == [] then []
    else
      var r := data[|data| - 1];
      Timestamps(data[..|data| - 1], w) + (if Names(r, w) then [r.timestamp.value] else [])
  }

  /** Number of valid records naming `w` whose action is `a`. */
  function Count(data: seq<Record>, w: string, a: Action): nat {
    if data == [] then 0
    else
      var r := data[|data| - 1];
      Count(data[..|data| - 1], w, a) + (if Names(r, w) && Classify(r) == Some(a) then 1 else 0)
  }

  /** USD value of the valid records naming `w` whose action is `a`. */
  function Total(data: seq<Record>, w: string, a: Action): real
    requires AllWellFormed(data)
  {
    if data == [] then 0.0
    else
      var r := data[|data| - 1];
      Total(data[..|data| - 1], w, a) + (if Names(r, w) && Classify(r) == Some(a) then AmountUsd(r) else 0.0)
  }

  /** The features the script holds for `w` after reading `data`. */
  function FeaturesOf(data: seq<Record>, w: string): WalletFeatures
    requires AllWellFormed(data)
  {
    WalletFeatures(
      Count(data, w, Deposit), Total(data, w, Deposit),
      Count(data, w, Borrow), Total(data, w, Borrow),
      Count(data, w, Repay), Total(data, w, Repay),
      Count(data, w, LiquidationCall),
      Timestamps(data, w))
  }

  /** The wallets named by valid records, in order of first appearance. */
  function FirstSeen(data: seq<Record>): seq<string> {
    if data == [] then []
    else
      var before := FirstSeen(data[..|data| - 1]);
      var r := data[|data| - 1];
      if IsValid(r) && r.wallet.value !in before then before + [r.wallet.value] else before
  }

  /** The dictionary the aggregation loop builds from `data`. */
  function Aggregated(data: seq<Record>): (t: Table)
    requires AllWellFormed(data)
    ensures forall w :: w in t.wallets <==> w in t.order
  {
    var order := FirstSeen(data);
    Table(map w | w in order :: FeaturesOf(data, w), order)
  }

  // ---------------------------------------------------------------------
  // What the specification promises

  /** Some valid record of `data` names `w`. */
  predicate Named(data: seq<Record>, w: string) {
    exists i :: 0 <= i < |data| && Names(data[i], w)
  }

  /** A wallet is a key iff some valid record names it. */
  lemma {:induction false} FirstSeenMembers(data: seq<Record>, w: string)
    ensures w in FirstSeen(data) <==> Named(data, w)
  {
    if data != [] {
      var init := data[..|data| - 1];
      FirstSeenMembers(init, w);
      if w in FirstSeen(init) {
        var i :| 0 <= i < |init| && Names(init[i], w);
        assert data[i] == init[i];
      }
      if exists i :: 0 <= i < |data| && Names(data[i], w) {
        var i :| 0 <= i < |data| && Names(data[i], w);
        if i < |init| { assert init[i] == data[i]; }
      }
    }
  }

  /** No wallet appears twice in the key order. */
  lemma {:induction false} FirstSeenDistinct(data: seq<Record>)
    ensures forall i, j :: 0 <= i < j < |FirstSeen(data)| ==> FirstSeen(data)[i] != FirstSeen(data)[j]
  {
    if data != [] {
      FirstSeenDistinct(data[..|data| - 1]);
    }
  }

  /**
   * Reading more records only appends keys: the key order after any prefix
   * is a prefix of the final key order.
   */
  lemma {:induction false} FirstSeenPrefix(data: seq<Record>, n: nat)
    requires n <= |data|
    ensures FirstSeen(data[..n]) <= FirstSeen(data)
    decreases |data| - n
  {
    if n < |data| {
      FirstSeenPrefix(data, n + 1);
      assert data[..n + 1][..n] == data[..n];
    } else {
      assert data[..n] == data;
    }
  }

  /** A wallet no valid record names has the default features. */
  lemma {:induction false} UnnamedIsFresh(data: seq<Record>, w: string)
    requires AllWellFormed(data)
    requires w !in FirstSeen(data)
    ensures FeaturesOf(data, w) == Fresh
  {
    if data != [] {
      var init := data[..|data| - 1];
      assert AllWellFormed(init);
      UnnamedIsFresh(init, w);
    }
  }

  /** Positions of the valid records of `data` that name `w`. */
  function NamingIndices(data: seq<Record>, w: string): set<nat> {
    set i: nat | i < |data| && Names(data[i], w)
  }

  /** A wallet has one timestamp per valid record naming it. */
  lemma {:induction false} TimestampsPerRecord(data: seq<Record>, w: string)
    ensures |Timestamps(data, w)| == |NamingIndices(data, w)|
  {
    if data != [] {
      var n := |data| - 1;
      var init := data[..n];
      TimestampsPerRecord(init, w);
      assert forall i :: 0 <= i < n ==> init[i] == data[i];
      if Names(data[n], w) {
        assert NamingIndices(data, w) == NamingIndices(init, w) + {n};
      } else {
        assert NamingIndices(data, w) == NamingIndices(init, w);
      }
    }
  }

  /**
   * Every valid record adds exactly one timestamp and at most one counter
   * step: the four counters together never exceed the number of timestamps.
   */
  lemma {:induction false} CountersBoundedByTimestamps(data: seq<Record>, w: string)
    ensures Count(data, w, Deposit) + Count(data, w, Borrow) + Count(data, w, Repay)
            + Count(data, w, LiquidationCall) <= |Timestamps(data, w)|
  {
    if data != [] {
      CountersBoundedByTimestamps(data[..|data| - 1], w);
    }
  }

  /** A wallet in the key order has at least one timestamp. */
  lemma {:induction false} KeysHaveTimestamps(data: seq<Record>, w: string)
    requires w in FirstSeen(data)
    ensures |Timestamps(data, w)| >= 1
  {
    var init := data[..|data| - 1];
    if w in FirstSeen(init) {
      KeysHaveTimestamps(init, w);
    }
  }

  /** Every amount and price converts to a non-negative number. */
  predicate NonNegativeAmounts(data: seq<Record>)
    requires AllWellFormed(data)
  {
    forall i :: 0 <= i < |data| ==> Coerce(data[i].amount).value >= 0.0 && Coerce(data[i].price).value >= 0.0
  }

  /** With non-negative amounts and prices every USD total is non-negative. */
  lemma {:induction false} TotalsNonNegative(data: seq<Record>, w: string, a: Action)
    requires AllWellFormed(data)
    requires NonNegativeAmounts(data)
    ensures Total(data, w, a) >= 0.0
  {
    if data != [] {
      var r := data[|data| - 1];
      assert Coerce(r.amount).value >= 0.0 && Coerce(r.price).value >= 0.0;
      TotalsNonNegative(data[..|data| - 1], w, a);
    }
  }

  /** The keys of the table are exactly its key order, without repetition. */
  lemma AggregatedIndexed(data: seq<Record>)
    requires AllWellFormed(data)
    ensures forall w :: w in Aggregated(data).wallets <==> w in Aggregated(data).order
    ensures forall i, j :: 0 <= i < j < |Aggregated(data).order| ==> Aggregated(data).order[i] != Aggregated(data).order[j]
  {
    FirstSeenDistinct(data);
  }

  /** When valid records name a single wallet, the table has that one entry. */
  lemma SingleWallet(data: seq<Record>, w: string)
    requires AllWellFormed(data) && FirstSeen(data) == [w]
    ensures Aggregated(data) == Table(map[w := FeaturesOf(data, w)], [w])
  {
    var m := Aggregated(data).wallets;
    assert forall v :: v in m <==> v == w;
    assert m[w] == FeaturesOf(data, w);
    assert m == map[w := FeaturesOf(data, w)];
  }

  /** One more record changes only the features of the wallet it names. */
  lemma FeaturesAppendOther(data: seq<Record>, r: Record, v: string)
    requires AllWellFormed(data + [r])
    requires !Names(r, v)
    ensures AllWellFormed(data)
    ensures FeaturesOf(data + [r], v) == FeaturesOf(data, v)
  {
    var d := data + [r];
    assert d[..|d| - 1] == data;
    assert forall i :: 0 <= i < |data| ==> data[i] == d[i];
  }

  /** One more record of wallet `v`: the step in each field of `v`'s features. */
  lemma FeaturesAppendOwn(data: seq<Record>, r: Record, v: string)
    requires AllWellFormed(data + [r])
    requires Names(r, v)
    ensures AllWellFormed(data)
    ensures FeaturesOf(data + [r], v).timestamps == FeaturesOf(data, v).timestamps + [r.timestamp.value]
    ensures forall a :: CounterOf(FeaturesOf(data + [r], v), a) == CounterOf(FeaturesOf(data, v), a) + (if Classify(r) == Some(a) then 1 else 0)
    ensures forall a :: HasTotal(a) ==> TotalOf(FeaturesOf(data + [r], v), a) == TotalOf(FeaturesOf(data, v), a) + (if Classify(r) == Some(a) then AmountUsd(r) else 0.0)
  {
    var d := data + [r];
    assert d[..|d| - 1] == data;
    PrefixWellFormed(data, r);
    forall a ensures Count(d, v, a) == Count(data, v, a) + (if Classify(r) == Some(a) then 1 else 0) {
    }
    forall a ensures Total(d, v, a) == Total(data, v, a) + (if Classify(r) == Some(a) then AmountUsd(r) else 0.0) {
    }
  }

  lemma PrefixWellFormed(data: seq<Record>, r: Record)
    requires AllWellFormed(data + [r])
    ensures AllWellFormed(data) && WellFormed(r)
  {
    assert forall i :: 0 <= i < |data| ==> data[i] == (data + [r])[i];
    assert r == (data + [r])[|data|];
  }

  /** A record without a wallet or a timestamp leaves the table as it was. */
  lemma AppendSkipped(data: seq<Record>, r: Record)
    requires AllWellFormed(data + [r])
    requires !IsValid(r)
    ensures AllWellFormed(data)
    ensures Aggregated(data + [r]) == Aggregated(data)
  {
    var d := data + [r];
    assert d[..|d| - 1] == data;
    assert FirstSeen(d) == FirstSeen(data);
    forall v | v in FirstSeen(data) ensures FeaturesOf(d, v) == FeaturesOf(data, v) {
      FeaturesAppendOther(data, r, v);
    }
  }

  /**
   * A valid record of wallet `w` creates `w`'s entry if it is new (appending
   * `w` to the key order), leaves every other entry unchanged, appends its
   * timestamp to `w`'s list, increments exactly the counter of its action
   * (none for an unrecognised one) and adds its USD value to exactly that
   * action's total (none for a liquidation).
   */
  lemma AppendValid(data: seq<Record>, r: Record)
    requires AllWellFormed(data + [r])
    requires IsValid(r)
    ensures AllWellFormed(data)
    ensures
      var w := r.wallet.value;
      var before := Aggregated(data);
      var after := Aggregated(data + [r]);
      var prev := if w in before.wallets then before.wallets[w] else Fresh;
      && after.wallets.Keys == before.wallets.Keys + {w}
      && after.order == (if w in before.wallets then before.order else before.order + [w])
      && (forall v :: v in before.wallets && v != w ==> after.wallets[v] == before.wallets[v])
      && after.wallets[w].timestamps == prev.timestamps + [r.timestamp.value]
      && (forall a :: CounterOf(after.wallets[w], a) == CounterOf(prev, a) + (if Classify(r) == Some(a) then 1 else 0))
      && (forall a :: HasTotal(a) ==> TotalOf(after.wallets[w], a) == TotalOf(prev, a) + (if Classify(r) == Some(a) then AmountUsd(r) else 0.0))
  {
    var d := data + [r];
    assert d[..|d| - 1] == data;
    assert AllWellFormed(data);
    var w := r.wallet.value;
    var before := Aggregated(data);
    var after := Aggregated(d);
    assert after.order == (if w in before.wallets then before.order else before.order + [w]);
    assert after.wallets.Keys == before.wallets.Keys + {w};
    forall v | v in before.wallets && v != w ensures after.wallets[v] == before.wallets[v] {
      FeaturesAppendOther(data, r, v);
    }
    if w !in FirstSeen(data) {
      UnnamedIsFresh(data, w);
    }
    FeaturesAppendOwn(data, r, w);
  }

  // ---------------------------------------------------------------------
  // The loop

  /**
   * The aggregation loop. Each record's amount and price are converted
   * first, so an unconvertible one ends the run with MalformedNumber at the
   * first such record, even when the record would have been skipped.
   * Otherwise the result is the table Aggregated describes.
   */
  method AggregateWallets(data: seq<Record>) returns (r: Result<Table, RunError>)
    ensures r.Failure? <==> !AllWellFormed(data)
    ensures r.Failure? ==>
      r.error.MalformedNumber? && r.error.index < |data|
      && !WellFormed(data[r.error.index])
      && forall i :: 0 <= i < r.error.index ==> WellFormed(data[i])
    ensures r.Success? ==> r.value == Aggregated(data)
  {
    var wallets: map<string, WalletFeatures> := map[];
    var order: seq<string> := [];
    var i := 0;
    while i < |data|
      invariant 0 <= i <= |data|
      invariant AllWellFormed(data[..i])
      invariant Table(wallets, order) == Aggregated(data[..i])
    {
      var rec := data[i];
      var action := Lower(rec.action.GetOr(""));
      var amount := Coerce(rec.amount);
      var price := Coerce(rec.price);
      if amount.None? || price.None? {
        return Failure(MalformedNumber(i));
      }
      var amountUsd := amount.value * price.value;
      assert data[..i + 1] == data[..i] + [rec];
      assert AllWellFormed(data[..i + 1]);

      if rec.wallet.None? || rec.timestamp.None? {
        AppendSkipped(data[..i], rec);
        i := i + 1;
        continue;
      }

      assert amountUsd == AmountUsd(rec);
      wallets, order := Accumulate(data[..i], rec, action, amountUsd, wallets, order);
      i := i + 1;
    }
    assert data[..i] == data;
    return Success(Table(wallets, order));
  }

  /**
   * The loop body for a valid record: create the wallet's entry if it is
   * new, append the timestamp, dispatch on the action. The table read so
   * far becomes the table of one more record.
   */
  method Accumulate(ghost data: seq<Record>, rec: Record, action: string, amountUsd: real,
                    wallets: map<string, WalletFeatures>, order: seq<string>)
    returns (wallets': map<string, WalletFeatures>, order': seq<string>)
    requires AllWellFormed(data) && WellFormed(rec) && AllWellFormed(data + [rec]) && IsValid(rec)
    requires action == Lower(rec.action.GetOr("")) && amountUsd == AmountUsd(rec)
    requires Table(wallets, order) == Aggregated(data)
    ensures Table(wallets', order') == Aggregated(data + [rec])
  {
    var w := rec.wallet.value;
    ghost var before := Table(wallets, order);
    wallets', order' := wallets, order;
    if w !in wallets' {
      wallets' := wallets'[w := Fresh];
      order' := order' + [w];
    }
    var f := wallets'[w];
    ghost var prev := f;
    f := f.(timestamps := f.timestamps + [rec.timestamp.value]);
    StampKeepsCounts(prev, f);
    f := Dispatch(f, action, amountUsd);
    wallets' := wallets'[w := f];
    ValidStep(data, rec, before, f);
  }

  /**
   * The dispatch on the lowered action: the counter of the action named
   * `action` goes up by one and, for all but a liquidation, its USD total
   * by `amountUsd`; any other text changes nothing.
   */
  method Dispatch(f: WalletFeatures, action: string, amountUsd: real) returns (g: WalletFeatures)
    ensures g.timestamps == f.timestamps
    ensures forall a :: CounterOf(g, a) == CounterOf(f, a) + (if action == ActionName(a) then 1 else 0)
    ensures forall a :: HasTotal(a) ==> TotalOf(g, a) == TotalOf(f, a) + (if action == ActionName(a) then amountUsd else 0.0)
  {
    g := f;
    if action == "deposit" {
      g := g.(numDeposits := g.numDeposits + 1, totalDepositUsd := g.totalDepositUsd + amountUsd);
    } else if action == "borrow" {
      g := g.(numBorrows := g.numBorrows + 1, totalBorrowUsd := g.totalBorrowUsd + amountUsd);
    } else if action == "repay" {
      g := g.(numRepayments := g.numRepayments + 1, totalRepayUsd := g.totalRepayUsd + amountUsd);
    } else if action == "liquidationcall" {
      g := g.(numLiquidations := g.numLiquidations + 1);
    }
  }

  /**
   * The loop's handling of a valid record produces the next table of the
   * specification: `f`, the entry after the timestamp is appended and the
   * action dispatched, is the wallet's new features.
   */
  lemma ValidStep(data: seq<Record>, rec: Record, before: Table, f: WalletFeatures)
    requires AllWellFormed(data + [rec]) && IsValid(rec)
    requires AllWellFormed(data) && WellFormed(rec) && before == Aggregated(data)
    requires
      var w := rec.wallet.value;
      var prev := if w in before.wallets then before.wallets[w] else Fresh;
      var action := Lower(rec.action.GetOr(""));
      && f.timestamps == prev.timestamps + [rec.timestamp.value]
      && (forall a :: CounterOf(f, a) == CounterOf(prev, a) + (if action == ActionName(a) then 1 else 0))
      && (forall a :: HasTotal(a) ==> TotalOf(f, a) == TotalOf(prev, a) + (if action == ActionName(a) then AmountUsd(rec) else 0.0))
    ensures
      var w := rec.wallet.value;
      Table(before.wallets[w := f], if w in before.wallets then before.order else before.order + [w])
        == Aggregated(data + [rec])
  {
    var w := rec.wallet.value;
    ValidEntry(data, rec, before, f);
    AppendValid(data, rec);
    var after := Aggregated(data + [rec]);
    MapUpdate(before.wallets, after.wallets, w, f);
  }

  /** A map that adds or changes only key `w`, to value `f`, is the update of the old map at `w`. */
  lemma MapUpdate(m0: map<string, WalletFeatures>, m1: map<string, WalletFeatures>, w: string, f: WalletFeatures)
    requires m1.Keys == m0.Keys + {w}
    requires w in m1 && m1[w] == f
    requires forall v :: v in m0 && v != w ==> m1[v] == m0[v]
    ensures m0[w := f] == m1
  {
    var m := m0[w := f];
    assert m.Keys == m1.Keys;
    forall v | v in m ensures m[v] == m1[v] {
    }
  }

  /** The entry the loop body leaves for the record's wallet is the specified one. */
  lemma ValidEntry(data: seq<Record>, rec: Record, before: Table, f: WalletFeatures)
    requires AllWellFormed(data + [rec]) && IsValid(rec)
    requires AllWellFormed(data) && WellFormed(rec) && before == Aggregated(data)
    requires
      var w := rec.wallet.value;
      var prev := if w in before.wallets then before.wallets[w] else Fresh;
      var action := Lower(rec.action.GetOr(""));
      && f.timestamps == prev.timestamps + [rec.timestamp.value]
      && (forall a :: CounterOf(f, a) == CounterOf(prev, a) + (if action == ActionName(a) then 1 else 0))
      && (forall a :: HasTotal(a) ==> TotalOf(f, a) == TotalOf(prev, a) + (if action == ActionName(a) then AmountUsd(rec) else 0.0))
    ensures rec.wallet.value in Aggregated(data + [rec]).wallets
    ensures Aggregated(data + [rec]).wallets[rec.wallet.value] == f
  {
    var w := rec.wallet.value;
    var prev := if w in before.wallets then before.wallets[w] else Fresh;
    AppendValid(data, rec);
    var after := Aggregated(data + [rec]);
    SameEntry(prev, f, after.wallets[w], Lower(rec.action.GetOr("")), Classify(rec), AmountUsd(rec));
  }

  /**
   * An entry stepped by dispatching on the lowered text `action` equals
   * the entry stepped by the action class `c` that `action` spells.
   */
  lemma SameEntry(prev: WalletFeatures, f: WalletFeatures, g: WalletFeatures,
                  action: string, c: Option<Action>, usd: real)
    requires c.Some? ==> action == ActionName(c.value)
    requires c.None? ==> forall a: Action :: action != ActionName(a)
    requires f.timestamps == g.timestamps
    requires forall a :: CounterOf(f, a) == CounterOf(prev, a) + (if action == ActionName(a) then 1 else 0)
    requires forall a :: HasTotal(a) ==> TotalOf(f, a) == TotalOf(prev, a) + (if action == ActionName(a) then usd else 0.0)
    requires forall a :: CounterOf(g, a) == CounterOf(prev, a) + (if c == Some(a) then 1 else 0)
    requires forall a :: HasTotal(a) ==> TotalOf(g, a) == TotalOf(prev, a) + (if c == Some(a) then usd else 0.0)
    ensures f == g
  {
    forall a ensures (action == ActionName(a)) == (c == Some(a)) {
      if c.Some? && action == ActionName(a) {
        NamesDistinct(a, c.value);
      }
    }
    FeaturesAgree(f, g);
  }

  /** Changing only the timestamp list leaves every counter and total as it was. */
  lemma StampKeepsCounts(f: WalletFeatures, g: WalletFeatures)
    requires g == f.(timestamps := g.timestamps)
    ensures forall a :: CounterOf(g, a) == CounterOf(f, a)
    ensures forall a :: HasTotal(a) ==> TotalOf(g, a) == TotalOf(f, a)
  {
  }

  /** Different actions have different names. */
  lemma NamesDistinct(a: Action, b: Action)
    requires ActionName(a) == ActionName(b)
    ensures a == b
  {
  }

  /** Two features records that agree on every counter, total and timestamp list are equal. */
  lemma FeaturesAgree(f: WalletFeatures, g: WalletFeatures)
    requires forall a :: CounterOf(f, a) == CounterOf(g, a)
    requires forall a :: HasTotal(a) ==> TotalOf(f, a) == TotalOf(g, a)
    requires f.timestamps == g.timestamps
    ensures f == g
  {
    assert CounterOf(f, Deposit) == CounterOf(g, Deposit);
    assert CounterOf(f, Borrow) == CounterOf(g, Borrow);
    assert CounterOf(f, Repay) == CounterOf(g, Repay);
    assert CounterOf(f, LiquidationCall) == CounterOf(g, LiquidationCall);
    assert TotalOf(f, Deposit) == TotalOf(g, Deposit);
    assert TotalOf(f, Borrow) == TotalOf(g, Borrow);
    assert TotalOf(f, Repay) == TotalOf(g, Repay);
  }
}
