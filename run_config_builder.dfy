/**
 * The run configuration builder: it collects scripts, roles with their hosts
 * or host expressions, per-role setup/run/cleanup script lists, host aliases
 * and run state, and then builds the run: one resolved Host per reference,
 * the `all` role, the host expressions, a setup and a cleanup wrapper script
 * per host and the run scripts per host. Problems are collected as errors, and
 * a run with errors carries nothing else.
 */
module RunConfigs {
  import opened Wrappers
  import opened JavaString
  import opened Hosts
  import opened ConfigTypes
  import HR = HostResolution
  import SA = StageAssembly
  import SC = StageChecks

  /** Cmd.script(name), with the bindings when they are given and not empty. */
  function MakeScriptCmd(script: string, with: Option<map<string, string>>): (c: ScriptCmd)
    ensures c.name == script
    ensures c.with == if with.Some? && with.value != map[] then with.value else map[]
  {
    if with.Some? && with.value != map[] then ScriptCmd(script, with.value) else ScriptCmd(script, map[])
  }

  class RunConfigBuilder {
    var name: Option<string>
    /** Scripts by name; the first definition of a name is kept. */
    var scripts: map<string, Script>
    /** Hosts (short names) listed for each role. */
    var roleHosts: map<string, set<string>>
    /** Host expressions (`= role + role - role`) for roles defined by other roles. */
    var roleHostExpression: map<string, string>
    var roleSetup: map<string, seq<ScriptCmd>>
    var roleRun: map<string, seq<ScriptCmd>>
    var roleCleanup: map<string, seq<ScriptCmd>>
    /** Short name or alias to fully qualified `user@host[:port]`. */
    var hostAlias: map<string, string>
    var errors: seq<ConfigError>
    /** The run-level state. */
    var runState: map<string, string>
    /** The state of each host. */
    var hostState: map<string, map<string, string>>
    /** The verdict of the last isValid(). */
    var valid: bool

    /** RunConfigBuilder(name, cmdBuilder): everything empty. */
    constructor Named(name: Option<string>)
      ensures this.name == name && Empty() && !valid
    {
      this.name := name;
      scripts := map[];
      roleHosts := map[];
      roleHostExpression := map[];
      roleSetup := map[];
      roleRun := map[];
      roleCleanup := map[];
      hostAlias := map[];
      errors := [];
      runState := map[];
      hostState := map[];
      valid := false;
    }

    /** RunConfigBuilder(cmdBuilder): named `run-` and the current time in milliseconds. */
    constructor Timed(millis: int)
      ensures name == Some("run-" + IntToString(millis)) && Empty() && !valid
    {
      name := Some("run-" + IntToString(millis));
      scripts := map[];
      roleHosts := map[];
      roleHostExpression := map[];
      roleSetup := map[];
      roleRun := map[];
      roleCleanup := map[];
      hostAlias := map[];
      errors := [];
      runState := map[];
      hostState := map[];
      valid := false;
    }

    /** Nothing registered yet. */
    ghost predicate Empty()
      reads this
    {
      && scripts == map[] && roleHosts == map[] && roleHostExpression == map[]
      && roleSetup == map[] && roleRun == map[] && roleCleanup == map[]
      && hostAlias == map[] && errors == [] && runState == map[] && hostState == map[]
    }

    // ---- role queries ----

    /** getRolesWithScripts(): roles with setup, run or cleanup scripts. */
    function RolesWithScripts(): (rs: set<string>)
      reads this
      ensures forall r :: r in rs <==> r in roleSetup || r in roleRun || r in roleCleanup
    {
      roleSetup.Keys + roleRun.Keys + roleCleanup.Keys
    }

    /** getRolesWithoutHosts(): roles with scripts but neither hosts nor a host expression. */
    function RolesWithoutHosts(): (rs: set<string>)
      reads this
      ensures forall r :: r in rs <==> r in RolesWithScripts() && r !in roleHostExpression && r !in roleHosts
    {
      RolesWithScripts() - roleHostExpression.Keys - roleHosts.Keys
    }

    /** getRolesWithoutScripts(): roles with hosts or a host expression but no scripts. */
    function RolesWithoutScripts(): (rs: set<string>)
      reads this
      ensures forall r :: r in rs <==> (r in roleHosts || r in roleHostExpression) && r !in RolesWithScripts()
    {
      (roleHosts.Keys + roleHostExpression.Keys) - RolesWithScripts()
    }

    // ---- registration ----

    /** setName(name): only a missing name is set. */
    method SetName(n: string)
      modifies this`name
      ensures name == if old(name).None? then Some(n) else old(name)
    {
      if name.None? {
        name := Some(n);
      }
    }

    function GetName(): (n: Option<string>)
      reads this
      ensures n == name
    {
      name
    }

    /** setRoleHostExpession(role, expression). */
    method SetRoleHostExpression(role: string, expression: string)
      modifies this`roleHostExpression
      ensures roleHostExpression == old(roleHostExpression)[role := expression]
    {
      roleHostExpression := roleHostExpression[role := expression];
    }

    /** addHostToRole(role, host). */
    method AddHostToRole(role: string, host: string)
      modifies this`roleHosts
      ensures roleHosts == old(roleHosts)[role := HostsOf(old(roleHosts), role) + {host}]
    {
      roleHosts := roleHosts[role := HostsOf(roleHosts, role) + {host}];
    }

    /** addHostAlias(alias, host): the alias and the host itself both name the host. */
    method AddHostAlias(alias: string, host: string)
      modifies this`hostAlias
      ensures hostAlias == old(hostAlias)[alias := host][host := host]
      ensures alias in hostAlias && hostAlias[alias] == host && host in hostAlias && hostAlias[host] == host
    {
      hostAlias := hostAlias[alias := host];
      hostAlias := hostAlias[host := host];
    }

    /** addRoleSetup / addRoleRun / addRoleCleanup: append a script reference to the role's list. */
    method AddRoleScript(stage: Stage, role: string, script: string, with: Option<map<string, string>>)
      modifies this`roleSetup, this`roleRun, this`roleCleanup
      ensures var c := MakeScriptCmd(script, with);
              match stage
              case Setup => roleSetup == old(roleSetup)[role := CmdsOf(old(roleSetup), role) + [c]] &&
                            roleRun == old(roleRun) && roleCleanup == old(roleCleanup)
              case Run => roleRun == old(roleRun)[role := CmdsOf(old(roleRun), role) + [c]] &&
                          roleSetup == old(roleSetup) && roleCleanup == old(roleCleanup)
              case Cleanup => roleCleanup == old(roleCleanup)[role := CmdsOf(old(roleCleanup), role) + [c]] &&
                              roleSetup == old(roleSetup) && roleRun == old(roleRun)
    {
      var c := MakeScriptCmd(script, with);
      match stage
      case Setup => roleSetup := roleSetup[role := CmdsOf(roleSetup, role) + [c]];
      case Run => roleRun := roleRun[role := CmdsOf(roleRun, role) + [c]];
      case Cleanup => roleCleanup := roleCleanup[role := CmdsOf(roleCleanup, role) + [c]];
    }

    /** forceRunState(key, value): always written. */
    method ForceRunState(key: string, value: string)
      modifies this`runState
      ensures runState == old(runState)[key := value]
    {
      runState := runState[key := value];
    }

    /** setRunState(key, value): written only when the key is absent; the first value stays. */
    method SetRunState(key: string, value: string)
      modifies this`runState
      ensures key in old(runState) ==> runState == old(runState)
      ensures key !in old(runState) ==> runState == old(runState)[key := value]
      ensures key in runState && runState[key] == if key in old(runState) then old(runState)[key] else value
    {
      if key !in runState {
        runState := runState[key := value];
      }
    }

    /**
     * setHostState(host, key, value): the write guarded by the absent-check is
     * followed by an unguarded one, so the value is always written and the
     * last write wins.
     */
    method SetHostState(host: string, key: string, value: string)
      modifies this`hostState
      ensures var before := if host in old(hostState) then old(hostState)[host] else map[];
              hostState == old(hostState)[host := before[key := value]]
      ensures host in hostState && key in hostState[host] && hostState[host][key] == value
    {
      var before := if host in hostState then hostState[host] else map[];
      var target := before;
      if key !in target {
        target := target[key := value];
      }
      assert target[key := value] == before[key := value];
      hostState := hostState[host := target];
      hostState := hostState[host := hostState[host][key := value]];
    }

    /** addScript(script): the first script with a name is kept; a later one is refused. */
    method AddScript(script: Script) returns (added: bool)
      modifies this`scripts
      ensures added <==> script.name !in old(scripts)
      ensures added ==> scripts == old(scripts)[script.name := script]
      ensures !added ==> scripts == old(scripts)
      ensures HasScript(script.name)
    {
      if script.name in scripts {
        return false;
      }
      scripts := scripts[script.name := script];
      return true;
    }

    /** hasScript(name). */
    predicate HasScript(n: string)
      reads this
    {
      n in scripts
    }

    /**
     * getScript(name, command): the script a reference names, after the
     * state variables in the name are filled in from the command (`resolve`
     * stands for that step), or none (null).
     */
    function GetScript(c: ScriptCmd, resolve: ScriptCmd -> string): (s: Option<Script>)
      reads this
      ensures s.Some? <==> resolve(c) in scripts
      ensures s.Some? ==> s.value == scripts[resolve(c)]
    {
      SC.Lookup(scripts, resolve, c)
    }

    /** The script references of a stage, by role. */
    function StageMap(stage: Stage): map<string, seq<ScriptCmd>>
      reads this`roleSetup, this`roleRun, this`roleCleanup
    {
      match stage
      case Setup => roleSetup
      case Run => roleRun
      case Cleanup => roleCleanup
    }

    // ---- validation ----

    /**
     * validate(stage, hosts) for one role: each reference's script must
     * exist; for each host of the role a found script adds its waits,
     * signals and warnings.
     */
    method ValidateRole(sm: map<string, seq<ScriptCmd>>, r: string, resolve: ScriptCmd -> string)
      returns (waits: set<string>, signals: set<string>, errs: seq<StageError>)
      ensures waits == SC.RoleWaits(sm, roleHosts, scripts, resolve, r)
      ensures signals == SC.RoleSignals(sm, roleHosts, scripts, resolve, r)
      ensures errs == SC.RoleErrors(sm, roleHosts, scripts, resolve, r)
    {
      var cmds := CmdsOf(sm, r);
      var hosts := HostsOf(roleHosts, r);
      waits, signals, errs := {}, {}, [];
      var j := 0;
      while j < |cmds|
        invariant j <= |cmds|
        invariant ScannedTo(r, hosts, resolve, cmds[..j], waits, signals, errs)
      {
        assert cmds[..j + 1] == cmds[..j] + [cmds[j]];
        waits, signals, errs := CheckCmd(r, hosts, resolve, cmds[..j], cmds[j], waits, signals, errs);
        j := j + 1;
      }
      assert cmds[..j] == cmds;
    }

    /** What validating the references `pre` of role `r` has gathered. */
    predicate ScannedTo(r: string, hosts: set<string>, resolve: ScriptCmd -> string, pre: seq<ScriptCmd>,
                        waits: set<string>, signals: set<string>, errs: seq<StageError>)
      reads this
    {
      && waits == (if hosts != {} then SC.CmdWaits(scripts, resolve, pre) else {})
      && signals == (if hosts != {} then SC.CmdSignals(scripts, resolve, pre) else {})
      && errs == SC.CmdErrors(r, scripts, resolve, pre, |hosts|)
    }

    /** One script reference of a role: a missing script is an error, a found one adds its facts per host. */
    method CheckCmd(r: string, hosts: set<string>, resolve: ScriptCmd -> string, pre: seq<ScriptCmd>, c: ScriptCmd,
                    waits: set<string>, signals: set<string>, errs: seq<StageError>)
      returns (waits': set<string>, signals': set<string>, errs': seq<StageError>)
      requires ScannedTo(r, hosts, resolve, pre, waits, signals, errs)
      ensures ScannedTo(r, hosts, resolve, pre + [c], waits', signals', errs')
    {
      ghost var post := pre + [c];
      assert post[..|pre|] == pre && post[|pre|] == c;
      var script := GetScript(c, resolve);
      if script.None? {
        waits', signals', errs' := waits, signals, errs + [MissingScript(r, c.name)];
      } else {
        var w, sg, e := PerHost(script.value, hosts);
        waits', signals', errs' := waits + w, signals + sg, errs + e;
      }
    }

    /** For each host of a role, a found script adds its waits, signals and warnings. */
    method PerHost(s: Script, hosts: set<string>) returns (waits: set<string>, signals: set<string>, errs: seq<StageError>)
      ensures waits == (if hosts != {} then s.waits else {})
      ensures signals == (if hosts != {} then s.signals else {})
      ensures errs == SC.WarningsTimes(s.warnings, |hosts|)
    {
      waits, signals, errs := {}, {}, [];
      var remaining := hosts;
      while remaining != {}
        invariant remaining <= hosts
        invariant waits == (if remaining != hosts then s.waits else {})
        invariant signals == (if remaining != hosts then s.signals else {})
        invariant errs == SC.WarningsTimes(s.warnings, |hosts| - |remaining|)
        decreases |remaining|
      {
        var h :| h in remaining;
        waits := waits + s.waits;
        signals := signals + s.signals;
        errs := errs + SC.Warnings(s.warnings);
        remaining := remaining - {h};
      }
    }

    /**
     * validate(stage, hosts): the roles in map order (any order); the
     * result is the stage's validation for the order taken.
     */
    method ValidateStage(stage: Stage, resolve: ScriptCmd -> string) returns (v: StageValidation, ghost order: seq<string>)
      ensures v == SC.Validation(StageMap(stage), roleHosts, scripts, resolve, order)
      ensures forall i :: 0 <= i < |order| ==> order[i] in StageMap(stage)
      ensures forall r :: r in StageMap(stage) ==> r in order
      ensures v.waiters == SC.WaitsOver(StageMap(stage), roleHosts, scripts, resolve, StageMap(stage).Keys)
      ensures v.signals == SC.SignalsOver(StageMap(stage), roleHosts, scripts, resolve, StageMap(stage).Keys)
      ensures v.errors == [] <==> SC.StageOk(StageMap(stage), roleHosts, scripts, resolve)
    {
      var waiters, signals, errs;
      waiters, signals, errs, order := ValidateRoles(StageMap(stage), resolve);
      if waiters - signals != {} {
        errs := errs + [MissingSignals(waiters - signals)];
      }
      v := StageValidation(waiters, signals, errs);
      SC.ValidationCleanIff(StageMap(stage), roleHosts, scripts, resolve, order);
    }

    /** The role loop of validate(stage, hosts). */
    method ValidateRoles(sm: map<string, seq<ScriptCmd>>, resolve: ScriptCmd -> string)
      returns (waiters: set<string>, signals: set<string>, errs: seq<StageError>, ghost order: seq<string>)
      ensures waiters == SC.WaitsOver(sm, roleHosts, scripts, resolve, sm.Keys)
      ensures signals == SC.SignalsOver(sm, roleHosts, scripts, resolve, sm.Keys)
      ensures errs == SC.ErrorsOver(sm, roleHosts, scripts, resolve, order)
      ensures forall i :: 0 <= i < |order| ==> order[i] in sm
      ensures forall r :: r in sm ==> r in order
    {
      waiters, signals, errs := {}, {}, [];
      var remaining := sm.Keys;
      ghost var done: set<string> := {};
      order := [];
      while remaining != {}
        invariant done <= sm.Keys && remaining == sm.Keys - done
        invariant SC.ListsAll(order, done)
        invariant RolesScanned(sm, resolve, done, order, waiters, signals, errs)
        decreases |remaining|
      {
        var r :| r in remaining;
        waiters, signals, errs := RoleStep(sm, resolve, waiters, signals, errs, done, order, r);
        SC.ListsAllSnoc(order, done, r);
        order := order + [r];
        done := done + {r};
        remaining := remaining - {r};
      }
    }

    /** What validating the roles `done`, taken in `order`, has gathered. */
    predicate RolesScanned(sm: map<string, seq<ScriptCmd>>, resolve: ScriptCmd -> string,
                           done: set<string>, order: seq<string>,
                           waiters: set<string>, signals: set<string>, errs: seq<StageError>)
      reads this
    {
      && waiters == SC.WaitsOver(sm, roleHosts, scripts, resolve, done)
      && signals == SC.SignalsOver(sm, roleHosts, scripts, resolve, done)
      && errs == SC.ErrorsOver(sm, roleHosts, scripts, resolve, order)
    }

    /** One role of validate(stage, hosts): its results join the ones gathered so far. */
    method RoleStep(sm: map<string, seq<ScriptCmd>>, resolve: ScriptCmd -> string,
                    waiters: set<string>, signals: set<string>, errs: seq<StageError>,
                    ghost done: set<string>, ghost order: seq<string>, r: string)
      returns (waiters': set<string>, signals': set<string>, errs': seq<StageError>)
      requires RolesScanned(sm, resolve, done, order, waiters, signals, errs)
      ensures RolesScanned(sm, resolve, done + {r}, order + [r], waiters', signals', errs')
    {
      var w, s, e := ValidateRole(sm, r, resolve);
      WaitsSignalsAdd(sm, roleHosts, scripts, resolve, done, r);
      assert (order + [r])[..|order|] == order;
      waiters', signals', errs' := waiters + w, signals + s, errs + e;
    }

    /** runValidation(): the three stages validated. */
    method RunValidationOf(resolve: ScriptCmd -> string) returns (rv: RunValidation)
      ensures rv.setup.errors == [] <==> SC.StageOk(roleSetup, roleHosts, scripts, resolve)
      ensures rv.run.errors == [] <==> SC.StageOk(roleRun, roleHosts, scripts, resolve)
      ensures rv.cleanup.errors == [] <==> SC.StageOk(roleCleanup, roleHosts, scripts, resolve)
    {
      var setup, _ := ValidateStage(Setup, resolve);
      var run, _ := ValidateStage(Run, resolve);
      var cleanup, _ := ValidateStage(Cleanup, resolve);
      rv := RunValidation(setup, run, cleanup);
    }

    /**
     * validate(): false as soon as an error is recorded; otherwise valid
     * exactly when every stage is clean (all scripts found, no warnings,
     * every wait signalled).
     */
    method Validate(resolve: ScriptCmd -> string) returns (ok: bool)
      ensures ok <==> errors == [] && SC.StageOk(roleSetup, roleHosts, scripts, resolve) &&
                      SC.StageOk(roleRun, roleHosts, scripts, resolve) && SC.StageOk(roleCleanup, roleHosts, scripts, resolve)
    {
      if |errors| > 0 {
        return false;
      }
      var rv := RunValidationOf(resolve);
      ok := rv.setup.errors == [] && rv.run.errors == [] && rv.cleanup.errors == [];
    }

    /** isValid(): validate and remember the verdict. */
    method IsValid(resolve: ScriptCmd -> string) returns (ok: bool)
      modifies this`valid
      ensures valid == ok
      ensures ok <==> errors == [] && SC.StageOk(roleSetup, roleHosts, scripts, resolve) &&
                      SC.StageOk(roleRun, roleHosts, scripts, resolve) && SC.StageOk(roleCleanup, roleHosts, scripts, resolve)
    {
      ok := Validate(resolve);
      valid := ok;
    }

    // ---- building ----

    /**
     * One host short name of buildConfig: look the alias up, skip a fully
     * qualified text already seen, otherwise split it at the first `@` and,
     * when the host part has a `:`, read the port after it.
     */
    method ResolveStep(short: string, seen: map<string, Host>) returns (seen': map<string, Host>, threw: bool)
      modifies this`errors
      ensures HR.Resolution(seen', errors, threw) == HR.ResolveOne(hostAlias, HR.Resolution(seen, old(errors), false), short)
    {
      seen', threw := seen, false;
      if short !in hostAlias || hostAlias[short] == "" {
        errors := errors + [HostNotDefined(short)];
        return;
      }
      var full := hostAlias[short];
      if full in seen {
        return;
      }
      var parsed := SplitHost(full);
      match parsed
      case MissingAt =>
        errors := errors + [HostMissingAt(short, full)];
      case BadPort =>
        threw := true;
      case Parsed(h) =>
        seen' := seen[full := h][short := h][HostString(h) := h];
    }

    /**
     * The parsing in buildConfig's host loop: the user before the first `@`,
     * the host after it, and, when the host part has a `:`, the port after
     * the first `:` (Integer.parseInt) with the host name cut there.
     */
    static method SplitHost(full: string) returns (r: HostParse)
      ensures r == ParseHost(full)
    {
      var at := IndexOf(full, '@');
      if at.None? {
        return MissingAt;
      }
      var username := full[..at.value];
      var hostname := full[at.value + 1..];
      var port := DEFAULT_PORT;
      var colon := IndexOf(hostname, ':');
      if colon.Some? {
        var parsed := ParseInt(hostname[colon.value + 1..]);
        if parsed.None? {
          return BadPort;
        }
        port := parsed.value;
        hostname := hostname[..colon.value];
      }
      r := Parsed(Host(username, hostname, port));
    }

    /** The host loop of buildConfig for one role. */
    method ResolveRole(role: string, seen: map<string, Host>, ghost start: HR.Resolution, ghost pairs: seq<SA.Visit>)
      returns (threw: bool, seen': map<string, Host>, ghost pairs': seq<SA.Visit>)
      requires role in roleHosts && !start.threw
      requires SA.Distinct(pairs) && forall i :: 0 <= i < |pairs| ==> pairs[i].role != role
      requires HR.Resolution(seen, errors, false) == HR.ResolveAll(hostAlias, start, SA.Shorts(pairs))
      modifies this`errors
      ensures old(errors) <= errors
      ensures pairs <= pairs' && SA.Distinct(pairs')
      ensures forall i :: |pairs| <= i < |pairs'| ==> pairs'[i].role == role && pairs'[i].short in roleHosts[role]
      ensures HR.Resolution(seen', errors, threw) == HR.ResolveAll(hostAlias, start, SA.Shorts(pairs'))
      ensures !threw ==> forall s :: s in roleHosts[role] ==> SA.Visit(role, s) in pairs'
    {
      var remaining := roleHosts[role];
      seen', pairs' := seen, pairs;
      threw := false;
      while remaining != {}
        invariant old(errors) <= errors
        invariant SA.RoleVisits(pairs, pairs', role, roleHosts[role], remaining)
        invariant HR.Resolution(seen', errors, false) == HR.ResolveAll(hostAlias, start, SA.Shorts(pairs'))
        decreases |remaining|
      {
        var s :| s in remaining;
        var v := SA.Visit(role, s);
        SA.RoleVisitsStep(pairs, pairs', role, roleHosts[role], remaining, s);
        SA.ShortsSnoc(pairs', v);
        assert SA.Shorts(pairs' + [v])[..|pairs'|] == SA.Shorts(pairs');
        seen', threw := ResolveStep(s, seen');
        pairs' := pairs' + [v];
        if threw {
          return;
        }
        remaining := remaining - {s};
      }
    }

    /**
     * The host loop of buildConfig: every short name of every role, in map
     * order, resolved through the aliases; the result is host resolution
     * over the (role, short name) pairs taken, each listed pair once.
     */
    method ResolveHosts() returns (out: Outcome, seen: map<string, Host>, ghost pairs: seq<SA.Visit>)
      modifies this`errors
      ensures var r := HR.ResolveAll(hostAlias, HR.Resolution(map[], old(errors), false), SA.Shorts(pairs));
              HR.Resolution(seen, errors, out == Threw) == r
      ensures old(errors) <= errors
      ensures SA.Distinct(pairs)
      ensures forall i :: 0 <= i < |pairs| ==> pairs[i].role in roleHosts && pairs[i].short in roleHosts[pairs[i].role]
      ensures out == Completed ==> forall r, s :: r in roleHosts && s in roleHosts[r] ==> SA.Visit(r, s) in pairs
    {
      ghost var start := HR.Resolution(map[], errors, false);
      seen, pairs := map[], [];
      var remaining := roleHosts.Keys;
      while remaining != {}
        invariant remaining <= roleHosts.Keys
        invariant old(errors) <= errors
        invariant SA.Distinct(pairs)
        invariant forall i :: 0 <= i < |pairs| ==> pairs[i].role in roleHosts && pairs[i].short in roleHosts[pairs[i].role]
        invariant forall i :: 0 <= i < |pairs| ==> pairs[i].role !in remaining
        invariant forall r, s :: r in roleHosts && r !in remaining && s in roleHosts[r] ==> SA.Visit(r, s) in pairs
        invariant HR.Resolution(seen, errors, false) == HR.ResolveAll(hostAlias, start, SA.Shorts(pairs))
        decreases |remaining|
      {
        var role :| role in remaining;
        var threw;
        ghost var before := pairs;
        threw, seen, pairs := ResolveRole(role, seen, start, pairs);
        forall i | 0 <= i < |pairs|
          ensures pairs[i].role in roleHosts && pairs[i].short in roleHosts[pairs[i].role]
          ensures pairs[i].role !in remaining - {role}
        {
          if i < |before| {
            assert pairs[i] == before[i];
          }
        }
        if threw {
          return Threw, seen, pairs;
        }
        forall r, s | r in roleHosts && r !in remaining - {role} && s in roleHosts[r]
          ensures SA.Visit(r, s) in pairs
        {
          if r != role {
            var k :| 0 <= k < |before| && before[k] == SA.Visit(r, s);
            assert pairs[k] == before[k];
          }
        }
        remaining := remaining - {role};
      }
      out := Completed;
    }

    /**
     * One host expression of buildConfig: the tokens from `split`, read
     * left to right; the hosts to add minus those to remove are written to
     * the role by canonical text when any remain, and an unresolved (null)
     * host among them throws.
     */
    method ApplyExpression(role: string, expr: string, split: string -> seq<string>, seen: map<string, Host>)
      returns (out: Outcome)
      modifies this`errors, this`roleHosts
      ensures var all := HR.EvalFrom(role, split(expr), 0, old(roleHosts), seen);
              var sel := all.add - all.remove;
              && errors == old(errors) + all.errs
              && (out == Threw <==> None in sel)
              && (out == Threw ==> roleHosts == old(roleHosts))
              && (out == Completed ==> roleHosts == if sel == {} then old(roleHosts)
                                                   else old(roleHosts)[role := HostsOf(old(roleHosts), role) + HR.Canonical(sel)])
    {
      var tokens := split(expr);
      var toAdd: set<Option<Host>> := {};
      var toRemove: set<Option<Host>> := {};
      ghost var all := HR.EvalFrom(role, tokens, 0, roleHosts, seen);
      ghost var e0 := errors;
      var i := 0;
      while i < |tokens|
        invariant i <= |tokens| && roleHosts == old(roleHosts)
        invariant var rest := HR.EvalFrom(role, tokens, i, roleHosts, seen);
                  && all.add == toAdd + rest.add && all.remove == toRemove + rest.remove
                  && e0 + all.errs == errors + rest.errs
        decreases |tokens| - i
      {
        i, toAdd, toRemove := EvalStep(role, tokens, i, seen, toAdd, toRemove);
      }
      var sel := toAdd - toRemove;
      if sel != {} {
        if None in sel {
          return Threw;
        }
        roleHosts := roleHosts[role := HostsOf(roleHosts, role) + HR.Canonical(sel)];
      }
      out := Completed;
    }

    /**
     * One pass of the token loop: an operator with a role after it adds or
     * removes that role's hosts and consumes both tokens; an operator at the
     * end or any other token records an error and consumes one.
     */
    method EvalStep(role: string, tokens: seq<string>, i: nat, seen: map<string, Host>,
                    toAdd: set<Option<Host>>, toRemove: set<Option<Host>>)
      returns (i': nat, toAdd': set<Option<Host>>, toRemove': set<Option<Host>>)
      requires i < |tokens|
      modifies this`errors
      ensures i < i' <= |tokens|
      ensures var before := HR.EvalFrom(role, tokens, i, roleHosts, seen);
              var after := HR.EvalFrom(role, tokens, i', roleHosts, seen);
              && toAdd + before.add == toAdd' + after.add
              && toRemove + before.remove == toRemove' + after.remove
              && old(errors) + before.errs == errors + after.errs
    {
      var t := tokens[i];
      toAdd', toRemove' := toAdd, toRemove;
      if t == HOST_EXPRESSION_PREFIX || t == HOST_EXPRESSION_INCLUDE || t == HOST_EXPRESSION_EXCLUDE {
        if i + 1 < |tokens| {
          var hosts := HR.Lookup(roleHosts, seen, tokens[i + 1]);
          if t == HOST_EXPRESSION_EXCLUDE {
            toRemove' := toRemove + hosts;
          } else {
            toAdd' := toAdd + hosts;
          }
          i' := i + 2;
        } else {
          errors := errors + [ExpressionEnds(role, t)];
          i' := i + 1;
        }
      } else {
        errors := errors + [ExpressionToken(role, t)];
        i' := i + 1;
      }
    }

    /**
     * The host expression loop of buildConfig, in map order: the roles taken
     * are distinct roles with an expression, all of them unless one throws,
     * and the result is the expressions applied in that order. Each role's
     * hosts only grow, roles without an expression keep theirs, and when
     * every listed host resolves (and resolution is closed) no expression
     * throws and every listed host still resolves afterwards.
     */
    method ApplyExpressions(split: string -> seq<string>, seen: map<string, Host>)
      returns (out: Outcome, ghost roles: seq<string>)
      modifies this`errors, this`roleHosts
      ensures var x := HR.ApplyAll(roleHostExpression, split, seen, HR.Expressions(old(roleHosts), old(errors), false), roles);
              && roleHosts == x.roleHosts && errors == x.errs && (out == Threw <==> x.threw)
      ensures forall i, j :: 0 <= i < j < |roles| ==> roles[i] != roles[j]
      ensures forall i :: 0 <= i < |roles| ==> roles[i] in roleHostExpression
      ensures out == Completed ==> forall r :: r in roleHostExpression ==> r in roles
      ensures old(errors) <= errors
      ensures HR.Widened(old(roleHosts), roleHosts, roleHostExpression.Keys)
      ensures HR.AllResolved(old(roleHosts), seen) && HR.Closed(seen) ==> out == Completed && HR.AllResolved(roleHosts, seen)
    {
      var remaining := roleHostExpression.Keys;
      ghost var start := HR.Expressions(roleHosts, errors, false);
      roles := [];
      out := Completed;
      while remaining != {} && out == Completed
        invariant RolesTaken(roleHostExpression.Keys, remaining, roles)
        invariant HR.ApplyAll(roleHostExpression, split, seen, start, roles) == HR.Expressions(roleHosts, errors, out == Threw)
        decreases |remaining|
      {
        var role :| role in remaining;
        out := ApplyExpression(role, roleHostExpression[role], split, seen);
        RolesTakenStep(roleHostExpression.Keys, remaining, roles, role);
        HR.ApplyAllSnoc(roleHostExpression, split, seen, start, roles, role);
        roles := roles + [role];
        remaining := remaining - {role};
      }
      HR.ApplyAllFacts(roleHostExpression, split, seen, start, roles, roleHostExpression.Keys);
    }

    /** The canonical texts of every resolved host (the `all` role's additions). */
    function AllHostNames(seen: map<string, Host>): (names: set<string>)
      ensures forall k :: k in seen ==> HostString(seen[k]) in names
      ensures forall n :: n in names ==> exists k :: k in seen && n == HostString(seen[k])
    {
      set k | k in seen :: HostString(seen[k])
    }

    /**
     * One (role, short name) pair of a stage loop in buildConfig: an
     * unresolved name records a missing host definition; otherwise setup
     * and cleanup make sure the host has its wrapper, and each script
     * reference of the role is appended to the host's list.
     */
    method CollectStep(stage: Stage, cmds: seq<ScriptCmd>, seen: map<string, Host>,
                       perHost: map<Host, seq<ScriptCmd>>, v: SA.Visit)
      returns (perHost': map<Host, seq<ScriptCmd>>)
      requires SA.Acts(stage, cmds)
      modifies this`errors
      ensures SA.Assembly(perHost', errors) == SA.CollectOne(stage, cmds, seen, SA.Assembly(perHost, old(errors)), v)
    {
      perHost' := perHost;
      if v.short !in seen {
        errors := errors + [MissingHostDefinition(v.role, v.short)];
        return;
      }
      var h := seen[v.short];
      ghost var base := SA.CmdsAt(perHost, h);
      assert base + cmds[..0] == base;
      if stage != Run {
        if h !in perHost' {
          perHost' := perHost'[h := []];
        } else {
          assert perHost' == perHost[h := base];
        }
      }
      var j := 0;
      while j < |cmds|
        invariant j <= |cmds|
        invariant stage != Run || j > 0 ==> perHost' == perHost[h := base + cmds[..j]]
        invariant stage == Run && j == 0 ==> perHost' == perHost
      {
        assert base + cmds[..j + 1] == base + cmds[..j] + [cmds[j]];
        assert SA.CmdsAt(perHost', h) == base + cmds[..j];
        perHost' := perHost'[h := SA.CmdsAt(perHost', h) + [cmds[j]]];
        j := j + 1;
      }
      assert cmds[..j] == cmds;
    }

    /** The host loop of a stage for one role. */
    method CollectRole(stage: Stage, role: string, seen: map<string, Host>, perHost: map<Host, seq<ScriptCmd>>,
                       ghost start: SA.Assembly, ghost visits: seq<SA.Visit>)
      returns (perHost': map<Host, seq<ScriptCmd>>, ghost visits': seq<SA.Visit>)
      requires role in StageMap(stage) && SA.Acts(stage, StageMap(stage)[role])
      requires SA.Distinct(visits) && forall i :: 0 <= i < |visits| ==> visits[i].role != role
      requires SA.Assembly(perHost, errors) == SA.CollectAll(stage, StageMap(stage), seen, start, visits)
      modifies this`errors
      ensures visits <= visits' && SA.Distinct(visits')
      ensures forall i :: |visits| <= i < |visits'| ==> visits'[i].role == role && visits'[i].short in HostsOf(roleHosts, role)
      ensures forall s :: s in HostsOf(roleHosts, role) ==> SA.Visit(role, s) in visits'
      ensures SA.Assembly(perHost', errors) == SA.CollectAll(stage, StageMap(stage), seen, start, visits')
    {
      var cmds := StageMap(stage)[role];
      var remaining := HostsOf(roleHosts, role);
      perHost', visits' := perHost, visits;
      while remaining != {}
        invariant SA.RoleVisits(visits, visits', role, HostsOf(roleHosts, role), remaining)
        invariant SA.Assembly(perHost', errors) == SA.CollectAll(stage, StageMap(stage), seen, start, visits')
        decreases |remaining|
      {
        var s :| s in remaining;
        var v := SA.Visit(role, s);
        SA.RoleVisitsStep(visits, visits', role, HostsOf(roleHosts, role), remaining, s);
        assert (visits' + [v])[..|visits'|] == visits';
        perHost' := CollectStep(stage, cmds, seen, perHost', v);
        visits' := visits' + [v];
        remaining := remaining - {s};
      }
    }

    /**
     * A stage loop of buildConfig: roles in map order, hosts in set order
     * (setup skips a role without scripts); the result is the stage
     * assembled over the pairs visited, which are exactly the stage's
     * (role, listed host) pairs that are acted on, each once.
     */
    method CollectStage(stage: Stage, seen: map<string, Host>)
      returns (perHost: map<Host, seq<ScriptCmd>>, ghost visits: seq<SA.Visit>)
      modifies this`errors
      ensures SA.Assembly(perHost, errors) == SA.CollectAll(stage, StageMap(stage), seen, SA.Assembly(map[], old(errors)), visits)
      ensures SA.StageVisits(stage, StageMap(stage), roleHosts, visits)
      ensures errors == old(errors) + SA.MissingErrors(stage, StageMap(stage), seen, visits)
    {
      ghost var start := SA.Assembly(map[], errors);
      var sm := StageMap(stage);
      perHost, visits := CollectRoles(stage, sm, seen, start);
      VisitsComplete(stage, sm, roleHosts, sm.Keys, visits);
      SA.CollectErrors(stage, sm, seen, start, visits);
    }

    /** The role loop of a stage: every role of the stage, in map order. */
    method CollectRoles(stage: Stage, sm: map<string, seq<ScriptCmd>>, seen: map<string, Host>, ghost start: SA.Assembly)
      returns (perHost: map<Host, seq<ScriptCmd>>, ghost visits: seq<SA.Visit>)
      requires sm == StageMap(stage) && start == SA.Assembly(map[], errors)
      modifies this`errors
      ensures VisitsIn(stage, sm, roleHosts, sm.Keys, visits) && VisitsCover(stage, sm, roleHosts, sm.Keys, visits)
      ensures SA.Assembly(perHost, errors) == SA.CollectAll(stage, sm, seen, start, visits)
    {
      var remaining := sm.Keys;
      ghost var done: set<string> := {};
      perHost, visits := map[], [];
      while remaining != {}
        invariant remaining <= sm.Keys && done == sm.Keys - remaining
        invariant VisitsIn(stage, sm, roleHosts, done, visits) && VisitsCover(stage, sm, roleHosts, done, visits)
        invariant SA.Assembly(perHost, errors) == SA.CollectAll(stage, sm, seen, start, visits)
        decreases |remaining|
      {
        var role :| role in remaining;
        perHost, visits := CollectStageRole(stage, sm, role, seen, perHost, start, visits, done);
        done := done + {role};
        remaining := remaining - {role};
      }
    }

    /** One role of a stage loop of buildConfig: an acting role adds its hosts' entries. */
    method CollectStageRole(stage: Stage, sm: map<string, seq<ScriptCmd>>, role: string, seen: map<string, Host>,
                            perHost: map<Host, seq<ScriptCmd>>,
                            ghost start: SA.Assembly, ghost visits: seq<SA.Visit>, ghost done: set<string>)
      returns (perHost': map<Host, seq<ScriptCmd>>, ghost visits': seq<SA.Visit>)
      requires sm == StageMap(stage) && role in sm && role !in done
      requires VisitsIn(stage, sm, roleHosts, done, visits) && VisitsCover(stage, sm, roleHosts, done, visits)
      requires SA.Assembly(perHost, errors) == SA.CollectAll(stage, sm, seen, start, visits)
      modifies this`errors
      ensures VisitsIn(stage, sm, roleHosts, done + {role}, visits') && VisitsCover(stage, sm, roleHosts, done + {role}, visits')
      ensures SA.Assembly(perHost', errors) == SA.CollectAll(stage, sm, seen, start, visits')
    {
      if !SA.Acts(stage, sm[role]) {
        return perHost, visits;
      }
      perHost', visits' := CollectRole(stage, role, seen, perHost, start, visits);
      forall r, s | r in sm && r in done + {role} && SA.Acts(stage, sm[r]) && s in HostsOf(roleHosts, r)
        ensures SA.Visit(r, s) in visits'
      {
        if r != role {
          assert SA.Visit(r, s) in visits;
          var k :| 0 <= k < |visits| && visits[k] == SA.Visit(r, s);
          assert visits'[k] == visits[k];
        }
      }
      forall i | 0 <= i < |visits'|
        ensures visits'[i].role in sm && visits'[i].role in done + {role} && SA.Acts(stage, sm[visits'[i].role])
        ensures visits'[i].short in HostsOf(roleHosts, visits'[i].role)
      {
        if i < |visits| {
          assert visits'[i] == visits[i];
        }
      }
    }

    /**
     * The three stage loops of buildConfig, setup then cleanup then run:
     * each visits its acted-on (role, listed host) pairs once; a host has an
     * entry exactly when some visit reaches it, holding the scripts of the
     * visits resolving to it in order; every such host is a resolved,
     * well-formed host; and the errors are one missing host definition per
     * unresolved visit, stage by stage.
     */
    method AssembleStages(seen: map<string, Host>)
      returns (setup: map<Host, seq<ScriptCmd>>, cleanup: map<Host, seq<ScriptCmd>>, run: map<Host, seq<ScriptCmd>>,
               ghost v1: seq<SA.Visit>, ghost v2: seq<SA.Visit>, ghost v3: seq<SA.Visit>)
      requires HR.AllWellFormed(seen)
      modifies this`errors
      ensures SA.StageVisits(Setup, roleSetup, roleHosts, v1)
      ensures SA.StageVisits(Cleanup, roleCleanup, roleHosts, v2)
      ensures SA.StageVisits(Run, roleRun, roleHosts, v3)
      ensures errors == old(errors) + SA.MissingErrors(Setup, roleSetup, seen, v1)
                                    + SA.MissingErrors(Cleanup, roleCleanup, seen, v2)
                                    + SA.MissingErrors(Run, roleRun, seen, v3)
      ensures forall h :: h in setup <==> SA.Reached(Setup, roleSetup, seen, v1, h)
      ensures forall h :: h in cleanup <==> SA.Reached(Cleanup, roleCleanup, seen, v2, h)
      ensures forall h :: h in run <==> SA.Reached(Run, roleRun, seen, v3, h)
      ensures forall h :: h in setup ==> HR.WellFormed(h)
      ensures forall h :: h in cleanup ==> HR.WellFormed(h)
      ensures forall h :: h in run ==> HR.WellFormed(h)
      ensures forall h :: SA.CmdsAt(setup, h) == SA.ForHost(Setup, roleSetup, seen, v1, h)
      ensures forall h :: SA.CmdsAt(cleanup, h) == SA.ForHost(Cleanup, roleCleanup, seen, v2, h)
      ensures forall h :: SA.CmdsAt(run, h) == SA.ForHost(Run, roleRun, seen, v3, h)
    {
      ghost var e0 := errors;
      setup, v1 := CollectStage(Setup, seen);
      StageFacts(Setup, roleSetup, seen, SA.Assembly(map[], e0), v1, setup);
      ghost var e1 := errors;
      cleanup, v2 := CollectStage(Cleanup, seen);
      StageFacts(Cleanup, roleCleanup, seen, SA.Assembly(map[], e1), v2, cleanup);
      ghost var e2 := errors;
      run, v3 := CollectStage(Run, seen);
      StageFacts(Run, roleRun, seen, SA.Assembly(map[], e2), v3, run);
    }

    /**
     * buildConfig(): resolve the hosts, give the `all` role every resolved
     * host, apply the host expressions, assemble the setup, cleanup and run
     * stages, and return only the errors when there are any. A port that
     * does not parse, or an unresolved host an expression selects, throws.
     * The ghost results record the orders the maps and sets were walked in:
     * `pairs` the (role, short name) pairs of host resolution, `roles` the
     * roles whose expressions were applied, `v1`, `v2`, `v3` the pairs of
     * the three stages.
     */
    method BuildConfig(split: string -> seq<string>, resolve: ScriptCmd -> string)
      returns (out: Outcome, config: Option<RunConfig>, ghost seen: map<string, Host>, ghost pairs: seq<SA.Visit>,
               ghost roles: seq<string>, ghost v1: seq<SA.Visit>, ghost v2: seq<SA.Visit>, ghost v3: seq<SA.Visit>)
      modifies this`errors, this`roleHosts
      ensures config.Some? <==> out == Completed
      ensures SA.Distinct(pairs)
      ensures forall i :: 0 <= i < |pairs| ==> pairs[i].role in old(roleHosts) && pairs[i].short in old(roleHosts)[pairs[i].role]
      ensures var res := HR.ResolveAll(hostAlias, HR.Resolution(map[], old(errors), false), SA.Shorts(pairs));
              var x := HR.ApplyAll(roleHostExpression, split, res.seen,
                                   HR.Expressions(WithAll(old(roleHosts), res.seen), res.errs, false), roles);
              && (out == Threw <==> res.threw || x.threw)
              && seen == res.seen
              && (res.threw ==> roleHosts == old(roleHosts))
              && (!res.threw ==> roleHosts == x.roleHosts)
              && (out == Threw ==> errors == if res.threw then res.errs else x.errs)
              && (out == Completed ==> errors == x.errs + SA.MissingErrors(Setup, roleSetup, seen, v1)
                                                       + SA.MissingErrors(Cleanup, roleCleanup, seen, v2)
                                                       + SA.MissingErrors(Run, roleRun, seen, v3))
      ensures out == Completed ==> forall r, s :: r in old(roleHosts) && s in old(roleHosts)[r] ==> SA.Visit(r, s) in pairs
      ensures forall i, j :: 0 <= i < j < |roles| ==> roles[i] != roles[j]
      ensures forall i :: 0 <= i < |roles| ==> roles[i] in roleHostExpression
      ensures out == Completed ==> forall r :: r in roleHostExpression ==> r in roles
      ensures out == Completed ==>
                && SA.StageVisits(Setup, roleSetup, roleHosts, v1)
                && SA.StageVisits(Cleanup, roleCleanup, roleHosts, v2)
                && SA.StageVisits(Run, roleRun, roleHosts, v3)
                && AllHostNames(seen) <= HostsOf(roleHosts, ALL_ROLE)
      ensures config.Some? ==> (config.value.ErrorsOnly? <==> errors != [])
      ensures config.Some? && config.value.ErrorsOnly? ==> config.value.errors == errors && config.value.name == name
      ensures config.Some? && config.value.Config? ==>
                && old(errors) == []
                && config.value.name == name && config.value.scripts == scripts
                && config.value.runState == runState && config.value.hostState == hostState
      ensures config.Some? && config.value.Config? ==>
                && (forall h :: h in config.value.setup <==> SA.Reached(Setup, roleSetup, seen, v1, h))
                && (forall h :: h in config.value.cleanup <==> SA.Reached(Cleanup, roleCleanup, seen, v2, h))
                && (forall h :: h in config.value.run <==> SA.Reached(Run, roleRun, seen, v3, h))
      ensures config.Some? && config.value.Config? ==>
                && (forall h :: h in config.value.setup ==>
                      HR.WellFormed(h) && config.value.setup[h] == Wrapper(SA.WrapperName(Setup, h), SA.ForHost(Setup, roleSetup, seen, v1, h)))
                && (forall h :: h in config.value.cleanup ==>
                      HR.WellFormed(h) && config.value.cleanup[h] == Wrapper(SA.WrapperName(Cleanup, h), SA.ForHost(Cleanup, roleCleanup, seen, v2, h)))
                && (forall h :: h in config.value.run ==> HR.WellFormed(h) && config.value.run[h] == SA.ForHost(Run, roleRun, seen, v3, h))
      ensures config.Some? && config.value.Config? ==>
                && (config.value.validation.setup.errors == [] <==> SC.StageOk(roleSetup, roleHosts, scripts, resolve))
                && (config.value.validation.run.errors == [] <==> SC.StageOk(roleRun, roleHosts, scripts, resolve))
                && (config.value.validation.cleanup.errors == [] <==> SC.StageOk(roleCleanup, roleHosts, scripts, resolve))
    {
      v1, v2, v3 := [], [], [];
      var seen';
      out, seen', pairs, roles := ResolveAndExpand(split);
      seen := seen';
      if out == Threw {
        config := None;
        return;
      }
      var setup, cleanup, run;
      setup, cleanup, run, v1, v2, v3 := AssembleStages(seen');
      if |errors| > 0 {
        config := Some(ErrorsOnly(name, errors));
        return;
      }
      var validation := RunValidationOf(resolve);
      config := Some(Config(name, scripts, runState, hostState, SA.WrapperScripts(Setup, setup), run,
                            SA.WrapperScripts(Cleanup, cleanup), validation));
    }

    /**
     * The first half of buildConfig: resolve the hosts, give the `all` role
     * every resolved host, and apply the host expressions. Afterwards every
     * resolved host is well formed and listed by the `all` role.
     */
    method ResolveAndExpand(split: string -> seq<string>)
      returns (out: Outcome, seen: map<string, Host>, ghost pairs: seq<SA.Visit>, ghost roles: seq<string>)
      modifies this`errors, this`roleHosts
      ensures SA.Distinct(pairs)
      ensures forall i :: 0 <= i < |pairs| ==> pairs[i].role in old(roleHosts) && pairs[i].short in old(roleHosts)[pairs[i].role]
      ensures var res := HR.ResolveAll(hostAlias, HR.Resolution(map[], old(errors), false), SA.Shorts(pairs));
              var x := HR.ApplyAll(roleHostExpression, split, res.seen,
                                   HR.Expressions(WithAll(old(roleHosts), res.seen), res.errs, false), roles);
              && (out == Threw <==> res.threw || x.threw)
              && seen == res.seen
              && (res.threw ==> roleHosts == old(roleHosts) && errors == res.errs)
              && (!res.threw ==> roleHosts == x.roleHosts && errors == x.errs)
      ensures out == Completed ==> forall r, s :: r in old(roleHosts) && s in old(roleHosts)[r] ==> SA.Visit(r, s) in pairs
      ensures forall i, j :: 0 <= i < j < |roles| ==> roles[i] != roles[j]
      ensures forall i :: 0 <= i < |roles| ==> roles[i] in roleHostExpression
      ensures out == Completed ==> forall r :: r in roleHostExpression ==> r in roles
      ensures out == Completed ==> HR.AllWellFormed(seen) && AllHostNames(seen) <= HostsOf(roleHosts, ALL_ROLE)
      ensures old(errors) <= errors
    {
      roles := [];
      out, seen, pairs := ResolveHosts();
      if out == Threw {
        return;
      }
      HR.ResolveAllWellFormed(hostAlias, HR.Resolution(map[], old(errors), false), SA.Shorts(pairs));
      roleHosts := WithAll(roleHosts, seen);
      out, roles := ApplyExpressions(split, seen);
    }

    /** The role map with the `all` role given every resolved host, by canonical text. */
    function WithAll(rh: map<string, set<string>>, seen: map<string, Host>): (r: map<string, set<string>>)
      ensures r.Keys == rh.Keys + {ALL_ROLE}
      ensures HostsOf(r, ALL_ROLE) == HostsOf(rh, ALL_ROLE) + AllHostNames(seen)
      ensures forall role :: role != ALL_ROLE ==> HostsOf(r, role) == HostsOf(rh, role)
    {
      rh[ALL_ROLE := HostsOf(rh, ALL_ROLE) + AllHostNames(seen)]
    }

    /** addError(error). */
    method AddError(e: ConfigError)
      modifies this`errors
      ensures errors == old(errors) + [e]
    {
      errors := errors + [e];
    }

    /** errorCount(). */
    function ErrorCount(): (n: nat)
      reads this
      ensures n == |errors|
    {
      |errors|
    }
  }

  /**
   * A stage assembled from nothing over well-formed resolved hosts has only
   * well-formed hosts, and each host holds the scripts of the visits that
   * reach it.
   */
  lemma StageFacts(stage: Stage, sm: map<string, seq<ScriptCmd>>, seen: map<string, Host>, start: SA.Assembly,
                   visits: seq<SA.Visit>, perHost: map<Host, seq<ScriptCmd>>)
    requires HR.AllWellFormed(seen) && start.perHost == map[]
    requires perHost == SA.CollectAll(stage, sm, seen, start, visits).perHost
    ensures forall h :: h in perHost <==> SA.Reached(stage, sm, seen, visits, h)
    ensures forall h :: h in perHost ==> HR.WellFormed(h)
    ensures forall h :: SA.CmdsAt(perHost, h) == SA.ForHost(stage, sm, seen, visits, h)
  {
    forall h
      ensures h in perHost <==> SA.Reached(stage, sm, seen, visits, h)
    {
      SA.CollectHosts(stage, sm, seen, start, visits, h);
    }
    forall h | h in perHost
      ensures HR.WellFormed(h)
    {
      var i :| 0 <= i < |visits| && SA.Reaches(stage, sm, seen, visits[i], h);
    }
    forall h
      ensures SA.CmdsAt(perHost, h) == SA.ForHost(stage, sm, seen, visits, h)
    {
      SA.CollectPerHost(stage, sm, seen, start, visits, h);
    }
  }

  /**
   * The roles taken so far are distinct keys no longer remaining, and every
   * key is either taken or remaining.
   */
  ghost predicate RolesTaken(keys: set<string>, remaining: set<string>, roles: seq<string>) {
    && remaining <= keys
    && (forall i, j :: 0 <= i < j < |roles| ==> roles[i] != roles[j])
    && (forall i :: 0 <= i < |roles| ==> roles[i] in keys && roles[i] !in remaining)
    && (forall r :: r in keys ==> r in remaining || r in roles)
  }

  /** Taking one more remaining role. */
  lemma RolesTakenStep(keys: set<string>, remaining: set<string>, roles: seq<string>, role: string)
    requires RolesTaken(keys, remaining, roles) && role in remaining
    ensures RolesTaken(keys, remaining - {role}, roles + [role])
  {
  }

  /** The visits are distinct, each of a listed host of an acting role in `done`. */
  ghost predicate VisitsIn(stage: Stage, sm: map<string, seq<ScriptCmd>>, rh: map<string, set<string>>,
                           done: set<string>, visits: seq<SA.Visit>)
  {
    && SA.Distinct(visits)
    && forall i :: 0 <= i < |visits| ==>
         visits[i].role in sm && visits[i].role in done && SA.Acts(stage, sm[visits[i].role])
         && visits[i].short in HostsOf(rh, visits[i].role)
  }

  /** Every host of every acting role in `done` has been visited. */
  ghost predicate VisitsCover(stage: Stage, sm: map<string, seq<ScriptCmd>>, rh: map<string, set<string>>,
                              done: set<string>, visits: seq<SA.Visit>)
  {
    forall r, s :: r in sm && r in done && SA.Acts(stage, sm[r]) && s in HostsOf(rh, r) ==> SA.Visit(r, s) in visits
  }

  /** Once every role is done, the visits are exactly the stage's. */
  lemma VisitsComplete(stage: Stage, sm: map<string, seq<ScriptCmd>>, rh: map<string, set<string>>,
                       done: set<string>, visits: seq<SA.Visit>)
    requires done == sm.Keys
    requires VisitsIn(stage, sm, rh, done, visits) && VisitsCover(stage, sm, rh, done, visits)
    ensures SA.StageVisits(stage, sm, rh, visits)
  {
  }

  /** The waits and signals of one more role. */
  lemma WaitsSignalsAdd(sm: map<string, seq<ScriptCmd>>, rh: map<string, set<string>>, sc: map<string, Script>,
                        resolve: ScriptCmd -> string, done: set<string>, r: string)
    ensures SC.WaitsOver(sm, rh, sc, resolve, done + {r}) ==
            SC.WaitsOver(sm, rh, sc, resolve, done) + SC.RoleWaits(sm, rh, sc, resolve, r)
    ensures SC.SignalsOver(sm, rh, sc, resolve, done + {r}) ==
            SC.SignalsOver(sm, rh, sc, resolve, done) + SC.RoleSignals(sm, rh, sc, resolve, r)
  {
  }

  /**
   * A role either has scripts and hosts (or an expression), or lacks one of
   * the two and is reported by exactly one of the two queries.
   */
  lemma RoleQueriesPartition(b: RunConfigBuilder, r: string)
    ensures r in b.RolesWithoutHosts() ==> r !in b.RolesWithoutScripts()
    ensures r in b.RolesWithScripts() ==> (r in b.RolesWithoutHosts() <==> r !in b.roleHosts && r !in b.roleHostExpression)
    ensures (r in b.roleHosts || r in b.roleHostExpression) ==> (r in b.RolesWithoutScripts() <==> r !in b.RolesWithScripts())
    ensures r !in b.RolesWithoutHosts() && r !in b.RolesWithoutScripts() ==>
              (r in b.RolesWithScripts() <==> r in b.roleHosts || r in b.roleHostExpression)
  {
  }
}
