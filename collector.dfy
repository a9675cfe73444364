/**
 * The `Recommendations` collector that `get_recommendations` feeds. Its selection
 * policy is not part of this model: the collector records every `insert_or_skip`
 * call, and what `get_recommendations()` reads out of it is the `readout` it was
 * created with, applied to its capacity and that record.
 */
module Collector {
  import opened Types

  class Recommendations {
    const capacity: nat
    const readout: (nat, seq<Entry>) -> seq<Entry>
    /** The `insert_or_skip` calls made so far, in order. */
    var calls: seq<Entry>

    /** `Recommendations::new(capacity)`: nothing inserted yet. */
    constructor (capacity: nat, readout: (nat, seq<Entry>) -> seq<Entry>)
      ensures this.capacity == capacity && this.readout == readout
      ensures calls == []
    {
      this.capacity := capacity;
      this.readout := readout;
      calls := [];
    }

    /** `insert_or_skip(name, score)`: one more offered pair. */
    method InsertOrSkip(name: string, score: real)
      modifies this
      ensures calls == old(calls) + [(name, score)]
    {
      calls := calls + [(name, score)];
    }

    /** `get_recommendations()`: the readout of everything offered. */
    function GetRecommendations(): seq<Entry>
      reads this
    {
      readout(capacity, calls)
    }
  }
}
