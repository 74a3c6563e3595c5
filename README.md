# Wallet credit scoring, modelled in Dafny

This project models `score_wallets.py`, a script that scores lending-protocol
wallets (deposits, borrows, repayments, liquidation calls) with an integer
between 0 and 1000. The script runs in two stages:

1. **Aggregation.** One pass over the transaction records builds a dictionary
   from wallet id to a features record. The record holds four counters, three
   USD totals and the list of timestamps. A record without a wallet or a
   timestamp is skipped. A valid record always appends its timestamp and then
   dispatches on its lower-cased action.
2. **Scoring.** Each wallet is scored in the dictionary's key order. The
   score combines the log-dampened deposit and repay volumes, a repay ratio
   capped at 1, a liquidation penalty and a "bot" penalty for actions less
   than a day apart on average. The sum is scaled by 100, clamped to
   [0, 1000] and truncated.

Modules:

- `Records` (`records.dfy`): the input record. It covers numeric coercion of
  `amount` and `assetPriceUSD`, the skip rule and the case-insensitive action
  classification. It also holds the errors that end a run.
- `Aggregation` (`aggregation.dfy`): the features record and a declarative
  specification of the dictionary. Each field is a count, a sum or a list
  over the valid records that name the wallet. The key order is the order in
  which wallets first appear. `AggregateWallets` is the imperative loop; it
  uses a `map` and a key `seq`, and it is proved to build exactly that table.
- `Sorting` (`sorting.dfy`): the ascending sort of timestamps. It is modelled
  as insertion sort and proved sorted, a permutation, and the only sorted
  permutation.
- `Cadence` (`cadence.dfy`): the bot rule. It is computed as the script
  does, from the average of the sorted consecutive gaps. It is then proved
  equal to an integer test on the spread of the timestamps.
- `Scoring` (`scoring.dfy`): the per-wallet score as pure functions.
- `Pipeline` (`pipeline.dfy`): the scoring loop over the key order, and the
  whole run.
- `Reordering` (`reordering.dfy`): permuting the input records changes no
  wallet's counters, totals or score.

`math.log1p` is passed in as a function parameter `log1p`. Results are stated
for any such function. The general lemmas ask only that `log1p(0) == 0` and
that `log1p(x) >= 0` for `x >= 0`; the worked example also asks for two of
its values (see "## Left out").

Two behaviours of the code, easy to miss, are modelled as written:

- An unconvertible `amount` or `assetPriceUSD` aborts the whole run. This
  happens even for a record that would have been skipped, because the
  conversion comes before the skip test.
- Totals are not forced to be non-negative. Negative amounts or prices give
  negative totals. A deposit or repay total of -1 or below makes `math.log1p`
  raise, which aborts the run. The model represents this as the `LogDomain`
  error.

## Model

| member | source | states |
|---|---|---|
| Records.Coerce | score_wallets.py:40-41 | The definition as written: a missing field reads as 0, a number as itself, an unconvertible one as failure. AggregateWallets states the failure's effect on the run |
| Records.WellFormed | score_wallets.py:40-41 | The definition as written: both numeric fields convert, so processing the record raises nothing. Aggregation.AggregateWallets states that the run fails exactly when some record is not well formed |
| Records.AmountUsd | score_wallets.py:42 | The definition as written: amount times price. Its use is stated by Aggregation.AppendValid and Aggregation.TotalsNonNegative |
| Records.Lower | score_wallets.py:36 | The definition as written, on ASCII letters. Its property is Records.ClassifyIgnoresCase |
| Records.IsValid | score_wallets.py:44-45 | The definition as written: a record counts only with a wallet and a timestamp. Aggregation.AppendSkipped states that any other record changes nothing |
| Records.ClassifyText | score_wallets.py:49-59 | The action is recognised exactly when its lower-cased text is one of the four action names, and then as that action |
| Records.Classify | score_wallets.py:36 | The definition as written: the record's action text, "" when the key is missing, classified by Records.ClassifyText. Aggregation.SameEntry ties it to the dispatch |
| Records.ClassifyIgnoresCase | score_wallets.py:36 | Lower-casing the action text first does not change its classification, so matching ignores case |
| Records.ClassifyNames | score_wallets.py:49-58 | Each action's own name is classified as that action |
| Aggregation.AggregateWallets | score_wallets.py:34-59 | The loop fails exactly when some amount or price cannot be converted, and then at the first such record, whether or not that record is valid; otherwise it returns exactly the specified table |
| Aggregation.Dispatch | score_wallets.py:49-59 | The counter of the named action goes up by one; its USD total (none for a liquidation) grows by the record's USD value; any other text changes nothing |
| Aggregation.Accumulate | score_wallets.py:47-59 | The loop body for a valid record (a default entry if the wallet is new, the timestamp appended, the action dispatched) turns the table of the records read so far into the table of one more record |
| Aggregation.ValidStep | score_wallets.py:47-59 | A wallet entry stepped as the loop does, written back into the table, gives the specified table for one more record: same keys plus the wallet, order extended only when it is new |
| Aggregation.ValidEntry | score_wallets.py:47-59 | The entry the loop leaves for the record's wallet is the specified features of that wallet after the record |
| Aggregation.SameEntry | score_wallets.py:49-59 | Dispatching on the lower-cased text and stepping by the record's action class give the same entry |
| Aggregation.Aggregated | score_wallets.py:23-32 | The table's keys are exactly its key order |
| Aggregation.Fresh | score_wallets.py:23-32 | The definition as written: all counters and totals zero, no timestamps. Aggregation.UnnamedIsFresh states that every wallet no valid record names has it |
| Aggregation.AppendSkipped | score_wallets.py:44-45 | A record without a wallet or a timestamp changes no entry and adds no key |
| Aggregation.AppendValid | score_wallets.py:47-59 | A valid record adds its wallet as a key if it is new and changes no other entry; it appends its timestamp; it increments exactly the counter of its action, or none; it adds its USD value to exactly that action's total, or none for a liquidation |
| Aggregation.FeaturesAppendOther | score_wallets.py:47-59 | A record leaves the features of every wallet it does not name unchanged |
| Aggregation.FeaturesAppendOwn | score_wallets.py:47-59 | A valid record of a wallet changes that wallet's timestamps, counters and totals by exactly one step of its action |
| Aggregation.FirstSeenMembers | score_wallets.py:44-47 | A wallet is a key if and only if some valid record names it |
| Aggregation.FirstSeenDistinct | score_wallets.py:23-32 | No wallet appears twice in the key order |
| Aggregation.FirstSeenPrefix | score_wallets.py:47 | The key order after any prefix of the input is a prefix of the final key order, so keys are in first-seen order |
| Aggregation.UnnamedIsFresh | score_wallets.py:23-32 | A wallet no valid record names has the default all-zero features |
| Aggregation.TimestampsPerRecord | score_wallets.py:47 | A wallet has exactly one timestamp per valid record naming it |
| Aggregation.CountersBoundedByTimestamps | score_wallets.py:47-59 | The four counters together never exceed the number of timestamps |
| Aggregation.KeysHaveTimestamps | score_wallets.py:47 | Every key has at least one timestamp |
| Aggregation.TotalsNonNegative | score_wallets.py:40-57 | With non-negative amounts and prices every USD total is non-negative |
| Aggregation.AggregatedIndexed | score_wallets.py:23-32 | The keys are the key order, without repetition |
| Sorting.SortAscending | score_wallets.py:76 | The result has the input's length; sortedness and permutation are Sorting.SortAscendingCorrect |
| Sorting.InsertPermutes | score_wallets.py:76 | Insertion adds exactly one copy of the element |
| Sorting.InsertSorted | score_wallets.py:76 | Inserting into a sorted sequence keeps it sorted |
| Sorting.SortAscendingCorrect | score_wallets.py:76 | The sorted timestamps are in ascending order and are a permutation of the input |
| Sorting.SortedPermutationUnique | score_wallets.py:76 | Two sorted permutations of the same timestamps are equal, so any correct sort agrees with this one |
| Sorting.SortIgnoresOrder | score_wallets.py:76 | Timestamp lists that are permutations of each other sort to the same sequence |
| Sorting.SortedEnds | score_wallets.py:76 | The sorted timestamps start at the least timestamp and end at the greatest |
| Cadence.Gaps | score_wallets.py:78 | One gap fewer than timestamps; their sum is Cadence.GapsTelescope |
| Cadence.MeanGapDays | score_wallets.py:79 | The definition as written: the gap total over the gap count, in days. Cadence.AvgGapIsSpreadMean and Cadence.BelowOneDay state its use |
| Cadence.AvgGapDays | score_wallets.py:76-81 | The definition as written. Its properties are Cadence.AvgGapIsSpreadMean and Cadence.FewTimestampsSentinel |
| Cadence.GapsTelescope | score_wallets.py:78-79 | The consecutive gaps add up to the last minus the first element |
| Cadence.BotPenalty | score_wallets.py:83-85 | The bot penalty is either 0 or 0.1 |
| Cadence.BotPenaltyRule | score_wallets.py:76-85 | For the least timestamp lo and the greatest hi, the penalty is 0.1 exactly when there are at least two timestamps and hi − lo < 86400·(n−1); a single timestamp is never penalised |
| Cadence.FewTimestampsSentinel | score_wallets.py:77-85 | With zero or one timestamp the average gap is the 999-day sentinel and there is no penalty |
| Cadence.AvgGapIsSpreadMean | score_wallets.py:76-79 | With two or more timestamps the average gap is (greatest − least) / (n − 1) / 86400 |
| Cadence.SpreadIsGapSum | score_wallets.py:76-79 | The sorted gaps add up to the greatest minus the least timestamp |
| Cadence.BotPenaltyBoundary | score_wallets.py:76-85 | Two timestamps exactly a day apart give no penalty; half a day apart give 0.1; a single timestamp gives none |
| Cadence.BelowOneDay | score_wallets.py:79-84 | An average under one day is the same as spread < 86400 times the number of gaps |
| Scoring.InLogDomain | score_wallets.py:65-66 | The definition as written: both logarithm arguments are above -1, so `math.log1p` does not raise. Pipeline.ScoreEach states that the run fails at the first key outside it |
| Scoring.RepayRatio | score_wallets.py:68-72 | The ratio is at most 1. It equals 1 exactly when nothing was borrowed or the repayments cover the borrows. Below 1 it is the exact fraction repaid. It is non-negative for non-negative repayments |
| Scoring.LiquidationPenalty | score_wallets.py:74 | The penalty is never negative and is zero exactly when there was no liquidation |
| Scoring.RawScore | score_wallets.py:65-93 | The definition as written. Its properties are Scoring.WalletScore, Scoring.LiquidationNeverRaises, Scoring.NoBorrowFloor, Scoring.IdleWalletScore and Scoring.WorkedExample |
| Scoring.FinalScore | score_wallets.py:95-97 | The score is an integer in [0, 1000]: 0 when raw·100 ≤ 0, 1000 when raw·100 ≥ 1000, otherwise the integer part of raw·100 |
| Scoring.WalletScore | score_wallets.py:64-97 | Every wallet's score lies in [0, 1000] |
| Scoring.FinalScoreMonotone | score_wallets.py:95-97 | A larger raw score never gives a smaller final score |
| Scoring.LiquidationNeverRaises | score_wallets.py:74 | One more liquidation never raises a wallet's score |
| Scoring.NoBorrowFloor | score_wallets.py:68-72 | A wallet that never borrowed or was liquidated, with non-negative volumes, scores at least 20, or 19 under the bot penalty |
| Scoring.IdleWalletScore | score_wallets.py:65-93 | A wallet with no volume and no liquidations scores exactly 20, or 19 under the bot penalty |
| Scoring.WorkedExample | score_wallets.py:64-97 | A wallet with a 1000 USD deposit, a 500 USD borrow and a 500 USD repay, a day apart, with ln(1001) and ln(501) taken to three decimals, scores 413 |
| Pipeline.ScoreEach | score_wallets.py:62-97 | There is one row per key, in key order, carrying the key and its score in [0, 1000]. Otherwise the run fails at the first key whose totals are outside log1p's domain |
| Pipeline.TailOfOrder | score_wallets.py:64-66 | After a key inside log1p's domain, the rest of the keys decide the outcome, and the first failing key moves one place on |
| Pipeline.ScoreWallets | score_wallets.py:34-97 | The run fails with MalformedNumber exactly when some amount or price cannot be converted; otherwise its result is the scoring of the aggregated table |
| Pipeline.OneRowPerWallet | score_wallets.py:62-64 | A run that does not abort has one row per wallet named by a valid record, in first-seen order, none twice, each score in [0, 1000] |
| Pipeline.NonNegativeInputsScoreEveryWallet | score_wallets.py:65-72 | With non-negative amounts and prices the scoring never aborts and every repay ratio is in [0, 1] |
| Pipeline.WorkedExampleRun | score_wallets.py:34-97 | The three records of that example (wallet "0xABC", price 1.0) make a run that writes the single row ("0xABC", 413) |
| Pipeline.ExampleTable | score_wallets.py:34-59 | Aggregating the example gives one key, "0xABC", with one of each of the three actions and its three timestamps |
| Aggregation.SingleWallet | score_wallets.py:23-32 | When valid records name only one wallet, the table has that single entry |
| Reordering.CountPermutation | score_wallets.py:49-59 | Permuting the records leaves every counter unchanged |
| Reordering.TotalPermutation | score_wallets.py:51-57 | Permuting the records leaves every USD total unchanged (exact arithmetic) |
| Reordering.TimestampsPermutation | score_wallets.py:47 | Permuting the records permutes each wallet's timestamps |
| Reordering.NamedPermutation | score_wallets.py:44-47 | Permuting the records does not change which wallets are keys |
| Reordering.ScoreIgnoresRecordOrder | score_wallets.py:64-97 | Permuting the records leaves each wallet's counters, totals and score unchanged |

## Left out

- Command-line arity check and exit (score_wallets.py:9-14): process plumbing.
- Reading the JSON input, writing the CSV output and the two console messages (score_wallets.py:17-20, 99-106): file I/O. The output rows are the `ScoreRow` sequence.
- Floating point: amounts, prices, totals, ratios and scores are exact `real`s. IEEE rounding, overflow to infinity and NaN are not modelled. This includes NaN or infinity that `float(...)` accepts from text such as "nan". Reordering.TotalPermutation therefore holds for reals, not for float sums.
- `math.log1p` is a parameter. Only the two laws above are assumed, and only where a lemma asks for them. The worked example (Scoring.WorkedExample, Pipeline.WorkedExampleRun) instead asks for log1p(1000) and log1p(500) to three decimals.
- Which texts `float(...)` accepts is abstracted: a numeric field is absent, a number, or unparseable.
- Records.Lower: lower-cases ASCII letters only. Python's `str.lower()` is Unicode-wide. Two non-ASCII characters lower-case to ASCII. 'İ' (U+0130) becomes 'i' followed by the combining dot U+0307, and that dot survives. KELVIN SIGN (U+212A) becomes 'k', which is in none of the action names. So no text that is not already an action name in ASCII lower-cases to one, and classification is the same.
- A null or non-string `action`, or a null or non-object `actionData`, raises in the script (`.lower()` or `.get` on a value without it). The model has no such values: a missing action reads as the empty string and a missing `actionData` as absent numbers.
- Wallet ids are strings and timestamps are integers. Timestamps of other JSON types, and the ordering Python would give mixed types, are not modelled.
