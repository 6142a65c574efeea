/**
 * The part of the per-step execution context that the loop commands use: the
 * two reporting calls `next` and `skip`, and the coordinator's signal counters.
 * SpyContext records every reported verdict in order, the way the tests' spy
 * context does, so that a contract can say exactly what a step reported.
 */
module Contexts {
  import opened CmdResult

  class SpyContext {
    /** Every verdict reported so far, oldest first. */
    var calls: seq<Result>
    /** The coordinator's signal namespace: name to current count. */
    var signals: map<string, int>

    constructor (signals: map<string, int>)
      ensures calls == [] && this.signals == signals
    {
      calls := [];
      this.signals := signals;
    }

    /** Context.next(output). */
    method Next(output: string)
      modifies this`calls
      ensures calls == old(calls) + [NextOf(output)]
    {
      calls := calls + [NextOf(output)];
    }

    /** Context.skip(output). */
    method Skip(output: string)
      modifies this`calls
      ensures calls == old(calls) + [SkipOf(output)]
    {
      calls := calls + [SkipOf(output)];
    }

    /** Coordinator.getSignalCount: a name never signalled counts as zero. */
    function GetSignalCount(name: string): (n: int)
      reads this
      ensures name in signals ==> n == signals[name]
      ensures name !in signals ==> n == 0
    {
      if name in signals then signals[name] else 0
    }
  }
}
