/**
  The types the accumulator helpers work on: the accumulator object, the
  position record, the opaque options, the errors and the position store.
  They are declared elsewhere in the accumulator package; these are the
  minimal versions the helpers need.
*/
module AccumTypes {
  import opened Wrappers
  import opened Coins

  /**
    The caller-defined options of a position. The helpers never look
    inside; the configuration is kept as its serialised bytes.
  */
  datatype Options = Options(encoded: seq<bv8>)

  /**
    A position: its share count, the accumulator value at its last
    settlement, the rewards settled but not yet paid out, and a possibly
    nil pointer to its options.
  */
  datatype Record = Record(
    numShares: int,
    initAccumValue: DecCoins,
    unclaimedRewards: DecCoins,
    options: Option<Options>)

  /** The zero value `Record{}` returned next to an error. */
  function EmptyRecord(): Record
  {
    Record(0, map[], map[], None)
  }

  /** Positions are keyed by the accumulator's name and the position's index. */
  type Key = (string, string)

  function PositionKey(accumName: string, index: string): Key
  {
    (accumName, index)
  }

  /**
    What the store holds under a key: a record that decodes, or bytes that
    fail to decode (the store's read then reports an error).
  */
  datatype StoreEntry = Marshalled(record: Record) | Unreadable

  /** The errors the helpers report. */
  datatype AccumError =
    | NoPositionError(name: string)
    | NegativeCustomAccError(customAccumulatorValue: DecCoins)
    | NegativeAccDifferenceError(accumulatorDifference: DecCoins)
    | StoreReadError(key: Key)

  /** The key-value store that holds the position records; shared by reference. */
  class PositionStore {
    var records: map<Key, StoreEntry>

    constructor ()
      ensures records == map[]
    {
      records := map[];
    }
  }

  /**
    An accumulator: a handle on the store, its name, its current
    reward-per-share value and its total share count. Passed by value; the
    store inside it is shared.
  */
  datatype AccumulatorObject = AccumulatorObject(
    store: PositionStore,
    name: string,
    value: DecCoins,
    totalShares: int)
}
