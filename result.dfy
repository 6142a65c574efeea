/**
 * The verdict a command step reports: a two-valued type (`next` to continue the
 * sequential chain, `skip` to take the alternate branch or skip target) paired
 * with the output text handed on to the following step.
 */
module CmdResult {

  /** Result.Type. */
  datatype ResultType = Next | Skip

  /**
   * Result. In the source the constructor is private and there are no setters,
   * so a Result is only ever made by the two factories below and never changes;
   * a datatype value has exactly that property.
   */
  datatype Result = Result(result: string, kind: ResultType)

  /** Result.next(output). */
  function NextOf(output: string): (r: Result)
    ensures r.kind == Next && r.result == output
  {
    Result(output, Next)
  }

  /** Result.skip(output). */
  function SkipOf(output: string): (r: Result)
    ensures r.kind == Skip && r.result == output
  {
    Result(output, Skip)
  }

  /**
   * Every Result is built by exactly one factory, and the factories keep their
   * argument: equal results come from the same factory and the same output.
   */
  lemma FactoriesCoverAndSeparate(r: Result, a: string, b: string)
    ensures r == NextOf(r.result) || r == SkipOf(r.result)
    ensures NextOf(a) != SkipOf(b)
    ensures NextOf(a) == NextOf(b) <==> a == b
    ensures SkipOf(a) == SkipOf(b) <==> a == b
  {
  }

  /** `n` copies of one verdict, as a step that reports the same thing every time produces. */
  function Repeat(r: Result, n: nat): (rs: seq<Result>)
    ensures |rs| == n && forall k :: 0 <= k < n ==> rs[k] == r
  {
    if n == 0 then [] else [r] + Repeat(r, n - 1)
  }

  lemma {:induction false} RepeatAppend(r: Result, n: nat)
    ensures Repeat(r, n + 1) == Repeat(r, n) + [r]
  {
  }
}
