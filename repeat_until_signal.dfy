/**
 * The repeat-until-signal gate. Each run resolves the signal name against the
 * current state, reads the coordinator's count for it and reports `next` while
 * the count is above zero and `skip` otherwise. It only reads the count: the
 * signal that ends the loop comes from elsewhere. An empty or unresolved name
 * reports `skip` and then still goes on to the count check, so such a run
 * reports two verdicts.
 */
module RepeatUntil {
  import opened Wrappers
  import opened CmdResult
  import opened Contexts

  const PREFIX: string := "repeat-until: "

  /** The text both toString and a positive log line are made of. */
  function Describe(n: string): (s: string)
    ensures |s| == |PREFIX| + |n| && s[..|PREFIX|] == PREFIX && s[|PREFIX|..] == n
  {
    PREFIX + n
  }

  /** The name a run resolved is missing (null) or empty. */
  predicate Unnamed(p: Option<string>) {
    p == None || p == Some("")
  }

  /** The coordinator's count for a resolved name; a null name is never signalled. */
  function CountFor(signals: map<string, int>, p: Option<string>): (n: int)
    ensures p.Some? && p.value in signals ==> n == signals[p.value]
    ensures (p.None? || p.value !in signals) ==> n == 0
  {
    match p
    case None => 0
    case Some(s) => if s in signals then signals[s] else 0
  }

  /**
   * The verdicts of one run, in the order they are reported, for the resolved
   * name `p`, the count read for it and the run's input.
   */
  function GateVerdicts(p: Option<string>, count: int, input: string): (rs: seq<Result>)
    ensures 1 <= |rs| <= 2
  {
    (if Unnamed(p) then [SkipOf(input)] else []) + [if count > 0 then NextOf(input) else SkipOf(input)]
  }

  /**
   * What a run reports: exactly two verdicts when the name is empty or
   * unresolved (the first a skip) and one otherwise; the last is `next` exactly
   * when the count is above zero; every verdict hands on the input unchanged.
   */
  lemma GateVerdictsMeaning(p: Option<string>, count: int, input: string)
    ensures var rs := GateVerdicts(p, count, input);
            && (|rs| == 2 <==> Unnamed(p))
            && (|rs| == 2 ==> rs[0].kind == Skip)
            && (rs[|rs| - 1].kind == Next <==> count > 0)
            && (forall k :: 0 <= k < |rs| ==> rs[k].result == input)
            && (forall k :: 0 <= k < |rs| - 1 ==> rs[k].kind == Skip)
  {
  }

  /** getLogOutput on the gate's fields: a line only when the last count was positive. */
  function LogLine(name: string, populatedName: Option<string>, amount: int): (s: string)
    ensures amount > 0 ==> s == Describe(populatedName.GetOr(name))
    ensures amount <= 0 ==> s == ""
  {
    if amount > 0 then Describe(populatedName.GetOr(name)) else ""
  }

  /** The log line is non-empty exactly when the last count read was positive. */
  lemma LogLineNonEmptyIffSignalled(name: string, populatedName: Option<string>, amount: int)
    ensures LogLine(name, populatedName, amount) != "" <==> amount > 0
  {
    if amount > 0 {
      assert |LogLine(name, populatedName, amount)| >= |PREFIX|;
    }
  }

  /** Different names give different descriptions. */
  lemma DescribeInjective(a: string, b: string)
    ensures Describe(a) == Describe(b) <==> a == b
  {
    if Describe(a) == Describe(b) {
      assert a == Describe(a)[|PREFIX|..];
    }
  }

  class RepeatUntilSignal {
    /** The signal name as configured (may hold state references). */
    const name: string
    /** The name the last run resolved; absent (null) before any run. */
    var populatedName: Option<string>
    /** The count the last run read; -1 before any run. */
    var amount: int

    constructor (name: string)
      ensures this.name == name && populatedName == None && amount == -1
    {
      this.name := name;
      populatedName := None;
      amount := -1;
    }

    /** getName(). */
    function GetName(): (n: string)
      reads this
      ensures n == name
    {
      name
    }

    /**
     * run(input, context). `populate` stands for Cmd.populateStateVariables on
     * the current state; None is its null result.
     */
    method Run(input: string, ctx: SpyContext, populate: string -> Option<string>)
      modifies this, ctx`calls
      ensures populatedName == populate(name)
      ensures amount == CountFor(ctx.signals, populatedName)
      ensures ctx.signals == old(ctx.signals)
      ensures ctx.calls == old(ctx.calls) + GateVerdicts(populatedName, amount, input)
    {
      populatedName := populate(name);
      if Unnamed(populatedName) {
        ctx.Skip(input);
      }
      amount := CountFor(ctx.signals, populatedName);
      if amount > 0 {
        ctx.Next(input);
      } else {
        ctx.Skip(input);
      }
    }

    /** copy(): a new gate with the same name and none of the run state. */
    method Copy() returns (c: RepeatUntilSignal)
      ensures fresh(c)
      ensures c.name == name && c.GetName() == GetName()
      ensures c.populatedName == None && c.amount == -1
      ensures c.GetLogOutput("") == ""
    {
      c := new RepeatUntilSignal(name);
    }

    /** toString(). */
    function ToString(): (s: string)
      reads this
      ensures s == Describe(name)
    {
      Describe(name)
    }

    /**
     * getLogOutput(output, context): the description with the resolved name (the
     * raw name when none was resolved) when the last count was positive, else "".
     */
    function GetLogOutput(output: string): (s: string)
      reads this
      ensures s == LogLine(name, populatedName, amount)
      ensures s != "" <==> amount > 0
    {
      LogLineNonEmptyIffSignalled(name, populatedName, amount);
      LogLine(name, populatedName, amount)
    }
  }

  /**
   * A gate run `n` times while its signal has a positive count reports `next`
   * with the input every time, and the count is the same afterwards: the gate
   * never consumes the signal, so only another command can end the loop.
   */
  method RunWhileSignalled(signal: string, count: int, input: string, n: nat)
    returns (calls: seq<Result>, after: int, log: string)
    requires signal != "" && count > 0
    ensures calls == Repeat(NextOf(input), n)
    ensures after == count
    ensures n > 0 ==> log == Describe(signal)
  {
    var gate := new RepeatUntilSignal(signal);
    var ctx := new SpyContext(map[signal := count]);
    var resolve := (s: string) => Some(s);
    var k := 0;
    while k < n
      invariant 0 <= k <= n
      invariant ctx.signals == map[signal := count]
      invariant ctx.calls == Repeat(NextOf(input), k)
      invariant k > 0 ==> gate.populatedName == Some(signal) && gate.amount == count
    {
      gate.Run(input, ctx, resolve);
      RepeatAppend(NextOf(input), k);
      k := k + 1;
    }
    calls := ctx.calls;
    after := ctx.GetSignalCount(signal);
    log := gate.GetLogOutput(input);
  }
}
