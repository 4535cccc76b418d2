/**
  What the helpers guarantee together: storing and reading back a record,
  settling and re-basing a position without creating or losing rewards,
  and replacing the accumulator value only by an admissible one.
*/
module AccumProperties {
  import opened Wrappers
  import opened Coins
  import opened AccumTypes
  import opened AccumHelpers

  /** The record a settlement leaves: same shares and options, new snapshot and unclaimed rewards. */
  function Rebased(position: Record, snapshot: DecCoins, unclaimedRewards: DecCoins): Record
  {
    Record(position.numShares, snapshot, unclaimedRewards, position.options)
  }

  /** Scaling by a share count distributes over a sum of growths. */
  lemma ScaleDistributes(a: int, b: int, sum: int, shares: int)
    requires a + b == sum
    ensures a * shares + b * shares == sum * shares
  {
  }

  /** Scaling by a non-negative share count preserves order. */
  lemma ScaleMonotone(a: int, b: int, shares: int)
    requires a <= b && shares >= 0
    ensures a * shares <= b * shares
  {
  }

  /**
    Reading a position right after writing it gives back exactly the
    record written, with no error, and leaves every other key alone.
  */
  method InitThenGetPosition(
    accum: AccumulatorObject,
    accumulatorValue: DecCoins,
    index: string,
    numShareUnits: int,
    unclaimedRewards: DecCoins,
    options: Option<Options>)
    returns (position: Record, err: Option<AccumError>)
    modifies accum.store`records
    ensures position == Record(numShareUnits, accumulatorValue, unclaimedRewards, options)
    ensures err == None
    ensures forall k :: k != PositionKey(accum.name, index) && k in old(accum.store.records) ==>
      k in accum.store.records && accum.store.records[k] == old(accum.store.records)[k]
  {
    InitOrUpdatePosition(accum, accumulatorValue, index, numShareUnits, unclaimedRewards, options);
    position, err := GetPosition(accum, index);
  }

  /**
    A position whose snapshot is the accumulator's current value, with no
    growth outside, is owed exactly its unclaimed rewards.
  */
  lemma SettledPositionOwesUnclaimed(accum: AccumulatorObject, position: Record)
    requires position.initAccumValue == accum.value
    ensures Gte(accum.value, Add(position.initAccumValue, map[]))
    ensures GetTotalRewards(accum, position, map[]) == position.unclaimedRewards
  {
    AddEmpty(position.initAccumValue);
    var total := GetTotalRewards(accum, position, map[]);
    forall d ensures AmountOf(total, d) == AmountOf(position.unclaimedRewards, d) {
      assert AmountOf(accum.value, d) - (AmountOf(position.initAccumValue, d) + AmountOf(map[], d)) == 0;
    }
    Extensionality(total, position.unclaimedRewards);
  }

  /**
    Re-basing a position at the current accumulator value with its settled
    total as unclaimed rewards leaves what it is owed unchanged.
  */
  lemma RebasePreservesOwed(accum: AccumulatorObject, position: Record, feeGrowthOutside: DecCoins)
    requires Gte(accum.value, Add(position.initAccumValue, feeGrowthOutside))
    ensures var owed := GetTotalRewards(accum, position, feeGrowthOutside);
      GetTotalRewards(accum, Rebased(position, accum.value, owed), map[]) == owed
  {
    var owed := GetTotalRewards(accum, position, feeGrowthOutside);
    SettledPositionOwesUnclaimed(accum, Rebased(position, accum.value, owed));
  }

  /**
    With non-negative shares a position is owed at least its unclaimed
    rewards in every denomination, and exactly them with zero shares.
  */
  lemma TotalRewardsAtLeastUnclaimed(accum: AccumulatorObject, position: Record, feeGrowthOutside: DecCoins)
    requires Gte(accum.value, Add(position.initAccumValue, feeGrowthOutside))
    ensures position.numShares >= 0 ==>
      Gte(GetTotalRewards(accum, position, feeGrowthOutside), position.unclaimedRewards)
    ensures position.numShares == 0 ==>
      GetTotalRewards(accum, position, feeGrowthOutside) == position.unclaimedRewards
  {
    var total := GetTotalRewards(accum, position, feeGrowthOutside);
    var growth := UncreditedGrowth(accum, position, feeGrowthOutside);
    if position.numShares >= 0 {
      forall d ensures AmountOf(total, d) >= AmountOf(position.unclaimedRewards, d) {
        // the product of a non-negative growth and a non-negative share count is non-negative
        ScaleMonotone(0, AmountOf(growth, d), position.numShares);
      }
    }
    if position.numShares == 0 {
      Extensionality(total, position.unclaimedRewards);
    }
  }

  /**
    Settling a ranged position at an intermediate accumulator value and
    re-basing it (snapshot = accumulator value minus the growth outside its
    range at that time, `outside1`), then settling again later, when the
    growth outside has become `outside2`, gives the position exactly what
    settling once at the end would: re-basing creates and loses nothing.
  */
  lemma SettlementPathIndependent(
    accum1: AccumulatorObject, accum2: AccumulatorObject, position: Record,
    outside1: DecCoins, outside2: DecCoins)
    requires Gte(accum1.value, Add(position.initAccumValue, outside1))
    requires Gte(accum2.value, Add(position.initAccumValue, outside2))
    requires Gte(accum2.value, Add(SafeSub(accum1.value, outside1).0, outside2))
    ensures var mid := Rebased(position, SafeSub(accum1.value, outside1).0,
                               GetTotalRewards(accum1, position, outside1));
      GetTotalRewards(accum2, mid, outside2) == GetTotalRewards(accum2, position, outside2)
  {
    var mid := Rebased(position, SafeSub(accum1.value, outside1).0,
                       GetTotalRewards(accum1, position, outside1));
    var twoStep := GetTotalRewards(accum2, mid, outside2);
    var direct := GetTotalRewards(accum2, position, outside2);
    forall d ensures AmountOf(twoStep, d) == AmountOf(direct, d) {
      SettlementPathIndependentAt(accum1, accum2, position, mid, outside1, outside2, d);
    }
    Extensionality(twoStep, direct);
  }

  /** One denomination of the settlement path independence. */
  lemma SettlementPathIndependentAt(
    accum1: AccumulatorObject, accum2: AccumulatorObject, position: Record, mid: Record,
    outside1: DecCoins, outside2: DecCoins, d: string)
    requires Gte(accum1.value, Add(position.initAccumValue, outside1))
    requires Gte(accum2.value, Add(position.initAccumValue, outside2))
    requires Gte(accum2.value, Add(mid.initAccumValue, outside2))
    requires mid.numShares == position.numShares
    requires mid.unclaimedRewards == GetTotalRewards(accum1, position, outside1)
    requires AmountOf(mid.initAccumValue, d) == AmountOf(accum1.value, d) - AmountOf(outside1, d)
    ensures AmountOf(GetTotalRewards(accum2, mid, outside2), d) ==
            AmountOf(GetTotalRewards(accum2, position, outside2), d)
  {
    // growth before the intermediate settlement, after it, and over the whole span
    var before := AmountOf(UncreditedGrowth(accum1, position, outside1), d);
    var after := AmountOf(UncreditedGrowth(accum2, mid, outside2), d);
    var whole := AmountOf(UncreditedGrowth(accum2, position, outside2), d);
    ScaleDistributes(before, after, whole, position.numShares);
  }

  /**
    An admissible replacement value keeps every position that could be
    settled against the old value settleable, and (with non-negative
    shares) owes it at least as much as before.
  */
  lemma AdmissibleOverrideKeepsPositionsSettleable(
    accum: AccumulatorObject, customValue: DecCoins, position: Record, feeGrowthOutside: DecCoins)
    requires ValidateAccumulatorValue(customValue, accum.value) == None
    requires Gte(accum.value, Add(position.initAccumValue, feeGrowthOutside))
    ensures Gte(customValue, Add(position.initAccumValue, feeGrowthOutside))
    ensures position.numShares >= 0 ==>
      Gte(GetTotalRewards(accum.(value := customValue), position, feeGrowthOutside),
          GetTotalRewards(accum, position, feeGrowthOutside))
  {
    var replaced := accum.(value := customValue);
    GteTransitive(customValue, accum.value, Add(position.initAccumValue, feeGrowthOutside));
    var before := GetTotalRewards(accum, position, feeGrowthOutside);
    var after := GetTotalRewards(replaced, position, feeGrowthOutside);
    if position.numShares >= 0 {
      forall d ensures AmountOf(after, d) >= AmountOf(before, d) {
        ScaleMonotone(
          AmountOf(UncreditedGrowth(accum, position, feeGrowthOutside), d),
          AmountOf(UncreditedGrowth(replaced, position, feeGrowthOutside), d),
          position.numShares);
      }
    }
  }

  /**
    When the replacement is non-negative but falls short of the old value
    somewhere, the error carries exactly `old - custom`, which is positive
    in at least one denomination.
  */
  lemma DeficitIsOldMinusCustom(customValue: DecCoins, oldValue: DecCoins)
    requires NonNegative(customValue) && !Gte(customValue, oldValue)
    ensures ValidateAccumulatorValue(customValue, oldValue) ==
      Some(NegativeAccDifferenceError(SafeSub(oldValue, customValue).0))
    ensures exists d :: AmountOf(SafeSub(oldValue, customValue).0, d) > 0
  {
    var err := ValidateAccumulatorValue(customValue, oldValue);
    var expected := SafeSub(oldValue, customValue).0;
    Extensionality(err.value.accumulatorDifference, expected);
    var d :| AmountOf(customValue, d) < AmountOf(oldValue, d);
    assert AmountOf(expected, d) > 0;
  }

  /**
    Two positions of 100 shares each: the first there from the start, the
    second joining when the accumulator stood at 0.10 uX per share. The
    accumulator now stands at 0.15 uX per share. Amounts are in hundredths
    of uX: the first is owed 15 uX, the second 5 uX.
  */
  lemma EarlyPositionExample(store: PositionStore)
    ensures var accum := AccumulatorObject(store, "pool", map["uX" := 15], 200);
      var first := Record(100, map[], map[], None);
      Gte(accum.value, Add(first.initAccumValue, map[])) &&
      GetTotalRewards(accum, first, map[]) == map["uX" := 1500]
  {
    var accum := AccumulatorObject(store, "pool", map["uX" := 15], 200);
    var first := Record(100, map[], map[], None);
    AddEmpty(first.initAccumValue);
    var owed: DecCoins := map["uX" := 1500];
    Extensionality(GetTotalRewards(accum, first, map[]), owed);
  }

  /** The second position of the example above. */
  lemma LatePositionExample(store: PositionStore)
    ensures var accum := AccumulatorObject(store, "pool", map["uX" := 15], 200);
      var second := Record(100, map["uX" := 10], map[], None);
      Gte(accum.value, Add(second.initAccumValue, map[])) &&
      GetTotalRewards(accum, second, map[]) == map["uX" := 500]
  {
    var accum := AccumulatorObject(store, "pool", map["uX" := 15], 200);
    var second := Record(100, map["uX" := 10], map[], None);
    AddEmpty(second.initAccumValue);
    LatePositionGrowth(accum, second);
    var total := GetTotalRewards(accum, second, map[]);
    var owed: DecCoins := map["uX" := 500];
    forall d ensures AmountOf(total, d) == AmountOf(owed, d) {
      assert AmountOf(total, d) == AmountOf(map["uX" := 5], d) * 100;
    }
    Extensionality(total, owed);
  }

  /** The growth per share the second position of the example has not been credited for. */
  lemma LatePositionGrowth(accum: AccumulatorObject, position: Record)
    requires accum.value == map["uX" := 15] && position.initAccumValue == map["uX" := 10]
    ensures Gte(accum.value, Add(position.initAccumValue, map[]))
    ensures UncreditedGrowth(accum, position, map[]) == map["uX" := 5]
  {
    AddEmpty(position.initAccumValue);
    var perShare: DecCoins := map["uX" := 5];
    Extensionality(UncreditedGrowth(accum, position, map[]), perShare);
  }
}
