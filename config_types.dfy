/**
 * The values a run configuration is built from and built into: script
 * references, scripts with their wait/signal summary, stages, recorded
 * problems, per-host wrapper scripts and the finished run configuration.
 */
module ConfigTypes {
  import opened Wrappers
  import opened Hosts

  const ALL_ROLE: string := "all"
  const HOST_EXPRESSION_PREFIX: string := "="
  const HOST_EXPRESSION_INCLUDE: string := "+"
  const HOST_EXPRESSION_EXCLUDE: string := "-"
  const SETUP_PREFIX: string := "setup:"
  const CLEANUP_PREFIX: string := "cleanup:"

  /** A reference to a script from a role stage (Cmd.script(name)) with its `with` bindings. */
  datatype ScriptCmd = ScriptCmd(name: string, with: map<string, string>)

  /**
   * A named script together with what a command summary finds in it: the
   * signals it waits for, the signals it raises and its warnings.
   */
  datatype Script = Script(name: string, waits: set<string>, signals: set<string>, warnings: seq<string>)

  /** The three stages a role can have scripts for. */
  datatype Stage = Setup | Run | Cleanup

  /** A problem recorded by the builder; the message text is reduced to its kind and subjects. */
  datatype ConfigError =
    | Reported(message: string)
    | HostMissingAt(short: string, full: string)
    | HostNotDefined(short: string)
    | ExpressionEnds(role: string, token: string)
    | ExpressionToken(role: string, token: string)
    | MissingHostDefinition(role: string, short: string)

  /** A problem found while validating one stage. */
  datatype StageError =
    | MissingScript(role: string, script: string)
    | Warning(text: string)
    | MissingSignals(names: set<string>)

  /** What validating a stage collects: every wait and signal name and the problems. */
  datatype StageValidation = StageValidation(waiters: set<string>, signals: set<string>, errors: seq<StageError>)

  datatype RunValidation = RunValidation(setup: StageValidation, run: StageValidation, cleanup: StageValidation)

  /** How building ended: normally, or with an exception. */
  datatype Outcome = Completed | Threw

  /** A per-host script that runs the role scripts of one stage in order. */
  datatype Wrapper = Wrapper(name: string, cmds: seq<ScriptCmd>)

  /** The built run: either only the errors, or everything the run needs. */
  datatype RunConfig =
    | ErrorsOnly(name: Option<string>, errors: seq<ConfigError>)
    | Config(name: Option<string>, scripts: map<string, Script>, runState: map<string, string>,
             hostState: map<string, map<string, string>>, setup: map<Host, Wrapper>,
             run: map<Host, seq<ScriptCmd>>, cleanup: map<Host, Wrapper>, validation: RunValidation)

  /** HashedSets.get: the hosts listed for a role, none when the role is absent. */
  function HostsOf(roleHosts: map<string, set<string>>, role: string): (hs: set<string>)
    ensures role in roleHosts ==> hs == roleHosts[role]
    ensures role !in roleHosts ==> hs == {}
  {
    if role in roleHosts then roleHosts[role] else {}
  }

  /** HashedLists.get: the script references listed for a role, none when the role is absent. */
  function CmdsOf(stage: map<string, seq<ScriptCmd>>, role: string): (cs: seq<ScriptCmd>)
    ensures role in stage ==> cs == stage[role]
    ensures role !in stage ==> cs == []
  {
    if role in stage then stage[role] else []
  }
}
