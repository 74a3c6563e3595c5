/**
 * One input transaction record as the scoring script reads it, and the
 * per-record decisions it takes: numeric coercion of the `actionData`
 * fields, the skip rule, and the case-insensitive action dispatch.
 */
module Records {
  import opened Wrappers

  /** A numeric field of `actionData` (`amount` or `assetPriceUSD`) as found in the input. */
  datatype NumField =
    | Absent              // key missing: the script falls back to 0
    | Number(value: real) // a number, or text that `float(...)` accepts
    | Unparseable         // present but rejected by `float(...)`: the run aborts

  /**
   * A transaction record. For the wallet and the timestamp `None` stands for
   * a key that is missing or null. For the action it stands only for a
   * missing key, which reads as the empty string; a null action makes
   * `.lower()` raise and has no counterpart here.
   */
  datatype Record = Record(
    wallet: Option<string>,
    action: Option<string>,
    timestamp: Option<int>,
    amount: NumField,
    price: NumField)

  /** The four actions the aggregation recognises. */
  datatype Action = Deposit | Borrow | Repay | LiquidationCall

  /** Why a run ends without output. */
  datatype RunError =
    | MalformedNumber(index: nat) // record `index` has an amount or price `float(...)` rejects
    | LogDomain(wallet: string)   // a USD total of this wallet is outside the domain of log1p

  /** `float(action_data.get(key, 0))`: `None` when the conversion raises. */
  function Coerce(f: NumField): Option<real> {
    match f
    case Absent => Some(0.0)
    case Number(x) => Some(x)
    case Unparseable => None
  }

  /** Both numeric fields convert, so processing this record raises nothing. */
  predicate WellFormed(r: Record) {
    Coerce(r.amount).Some? && Coerce(r.price).Some?
  }

  predicate AllWellFormed(data: seq<Record>) {
    forall i :: 0 <= i < |data| ==> WellFormed(data[i])
  }

  /** `amount_usd = amount * price`. */
  function AmountUsd(r: Record): real
    requires WellFormed(r)
  {
    Coerce(r.amount).value * Coerce(r.price).value
  }

  /** A record counts towards a wallet only when it has both a wallet and a timestamp. */
  predicate IsValid(r: Record) {
    r.wallet.Some? && r.timestamp.Some?
  }

  /** `r` is a valid record of wallet `w`. */
  predicate Names(r: Record, w: string) {
    IsValid(r) && r.wallet.value == w
  }

  function LowerChar(c: char): char {
    if 'A' <= c <= 'Z' then (c as int - 'A' as int + 'a' as int) as char else c
  }

  /** `str.lower()` restricted to ASCII letters. */
  function Lower(s: string): string {
    seq(|s|, i requires 0 <= i < |s| => LowerChar(s[i]))
  }

  /** The lower-case spelling under which the script recognises an action. */
  function ActionName(a: Action): string {
    match a
    case Deposit => "deposit"
    case Borrow => "borrow"
    case Repay => "repay"
    case LiquidationCall => "liquidationcall"
  }

  /**
   * The dispatch on `action.lower()`: the recognised action whose name the
   * lowered text equals, or `None` for any other text.
   */
  function ClassifyText(s: string): (r: Option<Action>)
    ensures r.Some? ==> Lower(s) == ActionName(r.value)
    ensures r.None? ==> forall a: Action :: Lower(s) != ActionName(a)
  {
    var t := Lower(s);
    if t == "deposit" then Some(Deposit)
    else if t == "borrow" then Some(Borrow)
    else if t == "repay" then Some(Repay)
    else if t == "liquidationcall" then Some(LiquidationCall)
    else None
  }

  /** The action a record is counted under; a missing action reads as "". */
  function Classify(r: Record): Option<Action> {
    ClassifyText(r.action.GetOr(""))
  }

  /** Matching ignores case: every spelling of a name, in any case, is that action. */
  lemma {:induction false} ClassifyIgnoresCase(s: string)
    ensures ClassifyText(Lower(s)) == ClassifyText(s)
  {
    assert Lower(Lower(s)) == Lower(s) by {
      forall i | 0 <= i < |s| ensures Lower(Lower(s))[i] == Lower(s)[i] {
        var c := s[i];
        assert 'A' <= LowerChar(c) <= 'Z' ==> false;
      }
    }
  }

  /** Each action's own name is recognised as that action and no other. */
  lemma ClassifyNames(a: Action)
    ensures ClassifyText(ActionName(a)) == Some(a)
  {
    var n := ActionName(a);
    assert Lower(n) == n;
  }
}
