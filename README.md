# Reward accumulator helpers

A Dafny model of the helper functions behind Osmosis's reward accumulator
(`osmoutils/accum/accum_helpers.go`). An accumulator keeps a running,
multi-denomination "reward per share" value. Each position records its share
count, a snapshot of the accumulator value at its last settlement, the rewards
settled but not yet paid out, and an opaque options pointer. The four helpers:

- write a position record, or overwrite one, in the accumulator's store;
- read it back, or report that it is missing;
- compute what a position is owed;
- decide whether a replacement accumulator value is admissible.

Files:

- `wrappers.dfy`: `Option`. `None` stands for Go's nil error or nil pointer.
- `dec_coins.dfy` (module `Coins`): the decimal coin sets the helpers compute with.
  A coin set is a `map<string, int>` with no zero entries. It supports `Add`,
  `Negative`, `SafeSub`, `Sub` (which panics on a negative result),
  `MulDec` and `IsAnyNegative`. Each works per denomination over the union of
  keys, and a missing denomination counts as zero.
- `accum_types.dfy` (module `AccumTypes`): minimal versions of the types the
  helpers use:
  - `Record`, `Options` and `AccumulatorObject`;
  - the error values;
  - the position store, a class whose `records` map is keyed by
    (accumulator name, position index).
- `accum_helpers.dfy` (module `AccumHelpers`): the four helpers, plus the
  `minusOne` constant.
  - `InitOrUpdatePosition` and `GetPosition` are methods over the store.
  - `GetTotalRewards` and `ValidateAccumulatorValue` are functions.
- `accum_properties.dfy` (module `AccumProperties`): what the helpers
  guarantee together:
  - a record reads back exactly as written;
  - a settled position is owed exactly its unclaimed rewards;
  - re-basing a position after settlement creates or loses nothing;
  - an admissible replacement value keeps every position settleable.

## Model

| member | source | states |
|---|---|---|
| `Coins.Add` | osmoutils/accum/accum_helpers.go:48-49 | every denomination of the sum is the sum of the operands' amounts, with missing denominations counting as zero; only denominations of the operands appear |
| `Coins.Negative` | osmoutils/accum/accum_helpers.go:62 | every amount has its sign flipped, and the denominations stay the same |
| `Coins.IsAnyNegative` | osmoutils/accum/accum_helpers.go:59 | true exactly when some denomination holds a negative amount, i.e. exactly when the coin set is not non-negative |
| `Coins.SafeSub` | osmoutils/accum/accum_helpers.go:62-63 | the difference is per-denomination `a - b`; the flag is set exactly when `a` is below `b` in some denomination |
| `Coins.Sub` | osmoutils/accum/accum_helpers.go:48 | can be called only when `a >= b` component-wise, since the library panics otherwise; the difference is per-denomination `a - b` and is non-negative |
| `Coins.MulDec` | osmoutils/accum/accum_helpers.go:48 | every denomination is scaled by the scalar; only denominations of the operand appear |
| `AccumHelpers.InitOrUpdatePosition` | osmoutils/accum/accum_helpers.go:15-23 | the store afterwards holds `Record{numShares, accumulatorValue, unclaimedRewards, options}` under (accumulator name, index); every other key keeps its entry, and no key appears or disappears |
| `AccumHelpers.GetPosition` | osmoutils/accum/accum_helpers.go:26-37 | a missing key gives the empty record and `NoPositionError{name}`; an undecodable entry gives the empty record and the store's read error; otherwise the stored record and no error; no error exactly when a decodable record is stored; the store is not modified (no `modifies`) |
| `AccumHelpers.UncreditedGrowth` | osmoutils/accum/accum_helpers.go:43-48 | requires `accum.value >= initAccumValue + feeGrowthOutside` component-wise; each denomination is `value - (initAccumValue + feeGrowthOutside)`, which is non-negative |
| `AccumHelpers.GetTotalRewards` | osmoutils/accum/accum_helpers.go:40-52 | under the same requirement, each denomination of the result is `unclaimedRewards + (value - (initAccumValue + feeGrowthOutside)) × numShares`; it is a function, so it mutates nothing |
| `AccumHelpers.ValidateAccumulatorValue` | osmoutils/accum/accum_helpers.go:54-67 | a value with any negative denomination gives `NegativeCustomAccError{custom}`, whatever the old value; otherwise, if it falls short of the old value anywhere, it gives `NegativeAccDifferenceError` whose payload is per-denomination `old - custom`; nil exactly when `custom >= 0` and `custom >= old` component-wise |
| `AccumProperties.InitThenGetPosition` | osmoutils/accum/accum_helpers.go:15-37 | reading right after writing gives back `Record{s, v, u, o}` with no error, and every other stored key keeps its entry |
| `AccumProperties.SettledPositionOwesUnclaimed` | osmoutils/accum/accum_helpers.go:40-52 | when the snapshot equals the accumulator value and there is no growth outside, the total equals the unclaimed rewards |
| `AccumProperties.RebasePreservesOwed` | osmoutils/accum/accum_helpers.go:15-52 | re-basing a position (snapshot := accumulator value, unclaimed := its settled total, same shares and options) leaves its total owed unchanged |
| `AccumProperties.TotalRewardsAtLeastUnclaimed` | osmoutils/accum/accum_helpers.go:41-49 | with `numShares >= 0` the total is at least the unclaimed rewards in every denomination; with zero shares it equals them |
| `AccumProperties.SettlementPathIndependent` | osmoutils/accum/accum_helpers.go:44-49 | for a ranged position whose growth outside is `outside1` at an intermediate settlement and `outside2` later: settling at the intermediate value, re-basing to `value - outside1` and settling again later owes exactly what one settlement at the end (against `outside2`) would |
| `AccumProperties.AdmissibleOverrideKeepsPositionsSettleable` | osmoutils/accum/accum_helpers.go:40-67 | if `ValidateAccumulatorValue(custom, accum.value)` is nil, every position settleable against the old value stays settleable against `custom`; with non-negative shares it is owed at least as much as before |
| `AccumProperties.DeficitIsOldMinusCustom` | osmoutils/accum/accum_helpers.go:62-64 | for a non-negative value that falls short, the error payload is exactly `SafeSub(old, custom)`, which is positive in at least one denomination |
| `AccumProperties.EarlyPositionExample` | osmoutils/accum/accum_helpers.go:40-52 | 100 shares with an empty snapshot, at 0.15 uX per share, are owed 15 uX |
| `AccumProperties.LatePositionExample` | osmoutils/accum/accum_helpers.go:40-52 | 100 shares with a snapshot of 0.10 uX per share, at 0.15 uX per share, are owed 5 uX |

Notes on the code:

- The comment on `initOrUpdatePosition` (accum_helpers.go:13-14) says the
  position is created "at accumulator's current value". The function
  actually stores its `accumulatorValue` argument as the snapshot (:15, :18)
  and never reads `accum.value`. The model stores the argument.
- The payload of `NegativeAccDifferenceError` is `newValue.MulDec(minusOne)`
  (:62-64). That is −1 × (custom − old) = `old − custom` in every
  denomination where the two differ, including those where `custom` exceeds
  `old`; there the payload holds a negative amount.
- `getPosition` names its index parameter `name` (:26). The
  `NoPositionError` it returns carries that argument (:33).

## Left out

- Coins: amounts and share counts are whole-number decimals, modelled as
  exact integers. The 18-digit decimal type multiplies the two values scaled
  by 10^18 and divides the product by 10^18. For two whole numbers that
  division leaves no remainder, so the product is exact and nothing is
  rounded. It rounds only when a factor has a fractional part. Fractional
  share counts and fractional amounts are not represented, so that rounding
  is not modelled. The examples use amounts
  counted in hundredths of a uX, so that every amount is a whole number.
- Coins: amounts are unbounded. The 18-digit decimal type limits how many
  bits a value may have, and its add, subtract and multiply panic on a
  result beyond that limit. That overflow panic is not modelled in `Add`,
  `SafeSub`, `Sub` or `MulDec`, and therefore not in
  `AccumHelpers.GetTotalRewards` or `AccumHelpers.ValidateAccumulatorValue`.
- Coins: the library's other validity rules for coin sets are not checked.
  These are sorted order, no duplicate denominations and well-formed
  denomination names. Only the "no zero entries" normal form is kept, as the
  type invariant.
- AccumHelpers.GetTotalRewards: the panic of the coin subtraction is a
  precondition, not a modelled runtime failure. This matches the code's own
  TODO: it has no check that the accumulator value is large enough.
- AccumHelpers.InitOrUpdatePosition: the storage key format is abstracted as
  an injective pair (accumulator name, index). Protobuf marshalling and the
  panic of `MustSet` on a marshalling failure are left out.
- AccumHelpers.GetPosition: an unmarshalling failure inside `osmoutils.Get` is
  modelled as a stored entry that does not decode. The error it returns is
  abstracted as `StoreReadError(key)`.
- The contents of `Options` are not modelled. The helpers pass the pointer
  through unchanged, and the model keeps it as opaque bytes or nil.
- These parts of the accumulator package are not part of this model:
  - the lifecycle operations (create, add to, remove from and claim a
    position);
  - `IncreaseValue` and the total-share bookkeeping;
  - the full definitions of `AccumulatorObject`, `Record` and the error types.

  `AccumulatorObject.totalShares` is therefore carried but never used.
- Nothing outside `osmoutils/accum` is modelled.
