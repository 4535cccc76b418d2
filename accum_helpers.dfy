/**
  The accumulator helpers: writing and reading a position record, the
  reward a position is owed, and the admissibility check for a replacement
  accumulator value.
*/
module AccumHelpers {
  import opened Wrappers
  import opened Coins
  import opened AccumTypes

  /** The scalar used to turn a negative difference into the deficit it reports. */
  const MinusOne: int := -1

  /**
    Creates a position, or overwrites the one under the same index, with the
    given share count, snapshot value, unclaimed rewards and options. Only
    the record under (accumulator name, index) changes.
  */
  method InitOrUpdatePosition(
    accum: AccumulatorObject,
    accumulatorValue: DecCoins,
    index: string,
    numShareUnits: int,
    unclaimedRewards: DecCoins,
    options: Option<Options>)
    modifies accum.store`records
    ensures accum.store.records ==
      old(accum.store.records)[PositionKey(accum.name, index) :=
        Marshalled(Record(numShareUnits, accumulatorValue, unclaimedRewards, options))]
    ensures forall k :: k != PositionKey(accum.name, index) ==>
      (k in accum.store.records <==> k in old(accum.store.records)) &&
      (k in accum.store.records ==> accum.store.records[k] == old(accum.store.records)[k])
  {
    var position := Record(numShareUnits, accumulatorValue, unclaimedRewards, options);
    accum.store.records := accum.store.records[PositionKey(accum.name, index) := Marshalled(position)];
  }

  /**
    Reads the position stored under `name` (the position's index). A missing
    record yields `NoPositionError`, an undecodable one the store's read
    error; either way the record returned is the empty one. Reads only.
  */
  method GetPosition(accum: AccumulatorObject, name: string) returns (position: Record, err: Option<AccumError>)
    ensures PositionKey(accum.name, name) !in accum.store.records ==>
      position == EmptyRecord() && err == Some(NoPositionError(name))
    ensures PositionKey(accum.name, name) in accum.store.records ==>
      match accum.store.records[PositionKey(accum.name, name)]
      case Marshalled(r) => position == r && err == None
      case Unreadable => position == EmptyRecord() && err == Some(StoreReadError(PositionKey(accum.name, name)))
    ensures err == None <==>
      (PositionKey(accum.name, name) in accum.store.records &&
       accum.store.records[PositionKey(accum.name, name)].Marshalled?)
  {
    var key := PositionKey(accum.name, name);
    // The store read: found when the key is present, an error when its bytes do not decode.
    var found := key in accum.store.records;
    if found && accum.store.records[key].Unreadable? {
      return EmptyRecord(), Some(StoreReadError(key));
    }
    if !found {
      return EmptyRecord(), Some(NoPositionError(name));
    }
    position, err := accum.store.records[key].record, None;
  }

  /**
    The growth per share the position has not been credited for yet: the
    accumulator value less the position's snapshot and the growth that
    happened outside its range. The coin subtraction panics when this would
    be negative in some denomination, so callers must rule that out.
  */
  function UncreditedGrowth(accum: AccumulatorObject, position: Record, feeGrowthOutside: DecCoins): (growth: DecCoins)
    requires Gte(accum.value, Add(position.initAccumValue, feeGrowthOutside))
    ensures forall d :: (AmountOf(growth, d) ==
      AmountOf(accum.value, d) - (AmountOf(position.initAccumValue, d) + AmountOf(feeGrowthOutside, d)))
    ensures NonNegative(growth)
  {
    Sub(accum.value, Add(position.initAccumValue, feeGrowthOutside))
  }

  /**
    What the position is owed: its unclaimed rewards plus its shares times
    the growth it has not been credited for. Computes a value; changes nothing.
  */
  function GetTotalRewards(accum: AccumulatorObject, position: Record, feeGrowthOutside: DecCoins): (totalRewards: DecCoins)
    requires Gte(accum.value, Add(position.initAccumValue, feeGrowthOutside))
    ensures forall d :: (AmountOf(totalRewards, d) ==
      AmountOf(position.unclaimedRewards, d) +
      AmountOf(UncreditedGrowth(accum, position, feeGrowthOutside), d) * position.numShares)
  {
    var accumulatorRewards := MulDec(UncreditedGrowth(accum, position, feeGrowthOutside), position.numShares);
    Add(position.unclaimedRewards, accumulatorRewards)
  }

  /**
    Whether `customAccumulatorValue` may replace `oldPositionAccumulatorValue`:
    it must be non-negative (checked first), and at least the old value in
    every denomination; otherwise the error carries the deficit
    `old - custom`. `None` means admissible.
  */
  function ValidateAccumulatorValue(customAccumulatorValue: DecCoins, oldPositionAccumulatorValue: DecCoins): (err: Option<AccumError>)
    ensures !NonNegative(customAccumulatorValue) ==>
      err == Some(NegativeCustomAccError(customAccumulatorValue))
    ensures NonNegative(customAccumulatorValue) && !Gte(customAccumulatorValue, oldPositionAccumulatorValue) ==>
      err.Some? && err.value.NegativeAccDifferenceError? &&
      forall d :: AmountOf(err.value.accumulatorDifference, d) ==
        AmountOf(oldPositionAccumulatorValue, d) - AmountOf(customAccumulatorValue, d)
    ensures err == None <==>
      NonNegative(customAccumulatorValue) && Gte(customAccumulatorValue, oldPositionAccumulatorValue)
  {
    if IsAnyNegative(customAccumulatorValue) then
      Some(NegativeCustomAccError(customAccumulatorValue))
    else
      var (newValue, isAnyNegative) := SafeSub(customAccumulatorValue, oldPositionAccumulatorValue);
      if isAnyNegative then
        Some(NegativeAccDifferenceError(MulDec(newValue, MinusOne)))
      else
        None
  }
}
