/** `Counter`: the number of files copied, whose only mutator is `tap`. */
module Counters {

  class Counter {
    /** `count`, whose setter is private: only `Tap` changes it. */
    var count: nat

    constructor ()
      ensures count == 0
    {
      count := 0;
    }

    /** `tap() = ++count`: one more, and the new value is returned. */
    method Tap() returns (n: nat)
      modifies this
      ensures count == old(count) + 1 && n == count
    {
      count := count + 1;
      n := count;
    }
  }
}
