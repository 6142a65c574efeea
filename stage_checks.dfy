/**
 * Validating one stage of a run: every script a role refers to must exist;
 * for a role with hosts, each referenced script contributes its waits,
 * signals and warnings once per host; and every name waited for must be
 * signalled somewhere in the stage. A signal nobody waits for is fine.
 */
module StageChecks {
  import opened Wrappers
  import opened ConfigTypes

  /** `order` lists exactly the members of `s` (a map's keys in the order they were taken). */
  ghost predicate ListsAll(order: seq<string>, s: set<string>) {
    && (forall i :: 0 <= i < |order| ==> order[i] in s)
    && (forall x :: x in s ==> x in order)
  }

  lemma ListsAllSnoc(order: seq<string>, s: set<string>, r: string)
    requires ListsAll(order, s)
    ensures ListsAll(order + [r], s + {r})
  {
    forall x | x in s + {r}
      ensures x in order + [r]
    {
      if x in s {
        var i :| 0 <= i < |order| && order[i] == x;
        assert (order + [r])[i] == x;
      } else {
        assert (order + [r])[|order|] == x;
      }
    }
  }

  /** The script a reference names once state variables are filled in (`resolve`), if any. */
  function Lookup(scripts: map<string, Script>, resolve: ScriptCmd -> string, c: ScriptCmd): (s: Option<Script>)
    ensures s.Some? <==> resolve(c) in scripts
    ensures s.Some? ==> s.value == scripts[resolve(c)]
  {
    if resolve(c) in scripts then Some(scripts[resolve(c)]) else None
  }

  /** The names the referenced scripts wait for. */
  function CmdWaits(scripts: map<string, Script>, resolve: ScriptCmd -> string, cmds: seq<ScriptCmd>): (ws: set<string>)
    decreases |cmds|
  {
    if cmds == [] then {}
    else
      var c := cmds[|cmds| - 1];
      CmdWaits(scripts, resolve, cmds[..|cmds| - 1]) + (if resolve(c) in scripts then scripts[resolve(c)].waits else {})
  }

  /** The names the referenced scripts signal. */
  function CmdSignals(scripts: map<string, Script>, resolve: ScriptCmd -> string, cmds: seq<ScriptCmd>): (ss: set<string>)
    decreases |cmds|
  {
    if cmds == [] then {}
    else
      var c := cmds[|cmds| - 1];
      CmdSignals(scripts, resolve, cmds[..|cmds| - 1]) + (if resolve(c) in scripts then scripts[resolve(c)].signals else {})
  }

  /** A script's warnings as stage errors. */
  function Warnings(ws: seq<string>): (es: seq<StageError>)
    ensures |es| == |ws| && forall i :: 0 <= i < |ws| ==> es[i] == Warning(ws[i])
  {
    if ws == [] then [] else Warnings(ws[..|ws| - 1]) + [Warning(ws[|ws| - 1])]
  }

  /** A script's warnings once for each of `n` hosts. */
  function WarningsTimes(ws: seq<string>, n: nat): (es: seq<StageError>)
    ensures |es| == n * |ws|
  {
    if n == 0 then [] else WarningsTimes(ws, n - 1) + Warnings(ws)
  }

  /**
   * The errors of a role's references, in order: a missing script is
   * reported once; a found one reports its warnings once per host.
   */
  function CmdErrors(role: string, scripts: map<string, Script>, resolve: ScriptCmd -> string,
                     cmds: seq<ScriptCmd>, hosts: nat): (es: seq<StageError>)
    decreases |cmds|
  {
    if cmds == [] then []
    else
      var c := cmds[|cmds| - 1];
      CmdErrors(role, scripts, resolve, cmds[..|cmds| - 1], hosts) +
        (if resolve(c) in scripts then WarningsTimes(scripts[resolve(c)].warnings, hosts) else [MissingScript(role, c.name)])
  }

  /** What a role contributes to the stage's waits: nothing unless it has hosts. */
  function RoleWaits(stage: map<string, seq<ScriptCmd>>, roleHosts: map<string, set<string>>,
                     scripts: map<string, Script>, resolve: ScriptCmd -> string, r: string): set<string>
  {
    if HostsOf(roleHosts, r) != {} then CmdWaits(scripts, resolve, CmdsOf(stage, r)) else {}
  }

  function RoleSignals(stage: map<string, seq<ScriptCmd>>, roleHosts: map<string, set<string>>,
                       scripts: map<string, Script>, resolve: ScriptCmd -> string, r: string): set<string>
  {
    if HostsOf(roleHosts, r) != {} then CmdSignals(scripts, resolve, CmdsOf(stage, r)) else {}
  }

  function RoleErrors(stage: map<string, seq<ScriptCmd>>, roleHosts: map<string, set<string>>,
                      scripts: map<string, Script>, resolve: ScriptCmd -> string, r: string): seq<StageError>
  {
    CmdErrors(r, scripts, resolve, CmdsOf(stage, r), |HostsOf(roleHosts, r)|)
  }

  /** The waits of a set of roles. */
  function WaitsOver(stage: map<string, seq<ScriptCmd>>, roleHosts: map<string, set<string>>,
                     scripts: map<string, Script>, resolve: ScriptCmd -> string, roles: set<string>): (ws: set<string>)
  {
    set r, w | r in roles && w in RoleWaits(stage, roleHosts, scripts, resolve, r) :: w
  }

  function SignalsOver(stage: map<string, seq<ScriptCmd>>, roleHosts: map<string, set<string>>,
                       scripts: map<string, Script>, resolve: ScriptCmd -> string, roles: set<string>): (ss: set<string>)
  {
    set r, s | r in roles && s in RoleSignals(stage, roleHosts, scripts, resolve, r) :: s
  }

  /** The errors of roles visited in the given order. */
  function ErrorsOver(stage: map<string, seq<ScriptCmd>>, roleHosts: map<string, set<string>>,
                      scripts: map<string, Script>, resolve: ScriptCmd -> string, order: seq<string>): seq<StageError>
    decreases |order|
  {
    if order == [] then []
    else ErrorsOver(stage, roleHosts, scripts, resolve, order[..|order| - 1]) +
         RoleErrors(stage, roleHosts, scripts, resolve, order[|order| - 1])
  }

  /**
   * A stage visited in the given role order: the waits, the signals, every
   * role's errors, and then one error naming the waits nobody signals.
   */
  function Validation(stage: map<string, seq<ScriptCmd>>, roleHosts: map<string, set<string>>,
                      scripts: map<string, Script>, resolve: ScriptCmd -> string, order: seq<string>): (v: StageValidation)
    ensures var unsignalled := v.waiters - v.signals;
            && (unsignalled != {} <==> |v.errors| > 0 && v.errors[|v.errors| - 1] == MissingSignals(unsignalled))
            && forall x :: MissingSignals(x) in v.errors ==> x == unsignalled && x != {}
  {
    var waiters := WaitsOver(stage, roleHosts, scripts, resolve, stage.Keys);
    var signals := SignalsOver(stage, roleHosts, scripts, resolve, stage.Keys);
    var errs := ErrorsOver(stage, roleHosts, scripts, resolve, order);
    NoMissingSignalsInRoles(stage, roleHosts, scripts, resolve, order);
    StageValidation(waiters, signals,
                    errs + (if waiters - signals != {} then [MissingSignals(waiters - signals)] else []))
  }

  /** Role errors are never about signals. */
  lemma {:induction false} NoMissingSignalsInRoles(stage: map<string, seq<ScriptCmd>>, roleHosts: map<string, set<string>>,
                                                   scripts: map<string, Script>, resolve: ScriptCmd -> string, order: seq<string>)
    ensures forall e :: e in ErrorsOver(stage, roleHosts, scripts, resolve, order) ==> !e.MissingSignals?
    decreases |order|
  {
    if order != [] {
      NoMissingSignalsInRoles(stage, roleHosts, scripts, resolve, order[..|order| - 1]);
      var r := order[|order| - 1];
      NoMissingSignalsInCmds(r, scripts, resolve, CmdsOf(stage, r), |HostsOf(roleHosts, r)|);
    }
  }

  lemma {:induction false} NoMissingSignalsInCmds(role: string, scripts: map<string, Script>, resolve: ScriptCmd -> string,
                                                  cmds: seq<ScriptCmd>, hosts: nat)
    ensures forall e :: e in CmdErrors(role, scripts, resolve, cmds, hosts) ==> !e.MissingSignals?
    decreases |cmds|
  {
    if cmds != [] {
      NoMissingSignalsInCmds(role, scripts, resolve, cmds[..|cmds| - 1], hosts);
      var c := cmds[|cmds| - 1];
      if resolve(c) in scripts {
        WarningsTimesAreWarnings(scripts[resolve(c)].warnings, hosts);
      }
    }
  }

  lemma {:induction false} WarningsTimesAreWarnings(ws: seq<string>, n: nat)
    ensures forall e :: e in WarningsTimes(ws, n) ==> e.Warning?
  {
    if n > 0 {
      WarningsTimesAreWarnings(ws, n - 1);
    }
  }

  /** Every script a role refers to exists and, when the role has hosts, has no warnings. */
  predicate RoleOk(stage: map<string, seq<ScriptCmd>>, roleHosts: map<string, set<string>>,
                   scripts: map<string, Script>, resolve: ScriptCmd -> string, r: string)
  {
    forall i :: 0 <= i < |CmdsOf(stage, r)| ==>
      resolve(CmdsOf(stage, r)[i]) in scripts &&
      (HostsOf(roleHosts, r) != {} ==> scripts[resolve(CmdsOf(stage, r)[i])].warnings == [])
  }

  /**
   * The reference condition for a clean stage: every role is fine and every
   * name waited for is signalled.
   */
  predicate StageOk(stage: map<string, seq<ScriptCmd>>, roleHosts: map<string, set<string>>,
                    scripts: map<string, Script>, resolve: ScriptCmd -> string)
  {
    && (forall r :: r in stage ==> RoleOk(stage, roleHosts, scripts, resolve, r))
    && WaitsOver(stage, roleHosts, scripts, resolve, stage.Keys) <= SignalsOver(stage, roleHosts, scripts, resolve, stage.Keys)
  }

  /** A role's references give no error exactly when all exist and, with hosts, none warns. */
  lemma {:induction false} CmdErrorsEmpty(role: string, scripts: map<string, Script>, resolve: ScriptCmd -> string,
                                          cmds: seq<ScriptCmd>, hosts: nat)
    ensures CmdErrors(role, scripts, resolve, cmds, hosts) == [] <==>
            forall i :: 0 <= i < |cmds| ==> resolve(cmds[i]) in scripts && (hosts > 0 ==> scripts[resolve(cmds[i])].warnings == [])
    decreases |cmds|
  {
    if cmds != [] {
      var init := cmds[..|cmds| - 1];
      CmdErrorsEmpty(role, scripts, resolve, init, hosts);
      assert forall i :: 0 <= i < |init| ==> init[i] == cmds[i];
      var c := cmds[|cmds| - 1];
      if resolve(c) in scripts {
        var ws := scripts[resolve(c)].warnings;
        assert |WarningsTimes(ws, hosts)| == hosts * |ws|;
        assert hosts * |ws| == 0 <==> hosts == 0 || |ws| == 0 by {
          if hosts > 0 && |ws| > 0 {
            MulPositive(hosts, |ws|);
          }
        }
      }
    }
  }

  lemma MulPositive(a: nat, b: nat)
    requires a > 0 && b > 0
    ensures a * b > 0
  {
  }

  /** The roles' errors are empty exactly when each role's are. */
  lemma {:induction false} ErrorsOverEmpty(stage: map<string, seq<ScriptCmd>>, roleHosts: map<string, set<string>>,
                                           scripts: map<string, Script>, resolve: ScriptCmd -> string, order: seq<string>)
    ensures ErrorsOver(stage, roleHosts, scripts, resolve, order) == [] <==>
            forall i :: 0 <= i < |order| ==> RoleErrors(stage, roleHosts, scripts, resolve, order[i]) == []
    decreases |order|
  {
    if order != [] {
      var init, last := order[..|order| - 1], order[|order| - 1];
      ErrorsOverEmpty(stage, roleHosts, scripts, resolve, init);
      var before, now := ErrorsOver(stage, roleHosts, scripts, resolve, init), RoleErrors(stage, roleHosts, scripts, resolve, last);
      assert ErrorsOver(stage, roleHosts, scripts, resolve, order) == before + now;
      assert before + now == [] <==> before == [] && now == [] by {
        assert |before + now| == |before| + |now|;
      }
      assert forall i :: 0 <= i < |init| ==> init[i] == order[i];
    }
  }

  /**
   * Whatever order the roles are visited in, the stage validates without
   * errors exactly when the reference condition holds.
   */
  lemma ValidationCleanIff(stage: map<string, seq<ScriptCmd>>, roleHosts: map<string, set<string>>,
                           scripts: map<string, Script>, resolve: ScriptCmd -> string, order: seq<string>)
    requires forall i :: 0 <= i < |order| ==> order[i] in stage
    requires forall r :: r in stage ==> r in order
    ensures Validation(stage, roleHosts, scripts, resolve, order).errors == [] <==> StageOk(stage, roleHosts, scripts, resolve)
  {
    var waiters := WaitsOver(stage, roleHosts, scripts, resolve, stage.Keys);
    var signals := SignalsOver(stage, roleHosts, scripts, resolve, stage.Keys);
    var errs := ErrorsOver(stage, roleHosts, scripts, resolve, order);
    assert Validation(stage, roleHosts, scripts, resolve, order).errors ==
           errs + (if waiters - signals != {} then [MissingSignals(waiters - signals)] else []);
    assert waiters - signals == {} <==> waiters <= signals by {
      if waiters - signals == {} {
        forall w | w in waiters ensures w in signals {
          assert w !in waiters - signals;
        }
      }
    }
    ErrorsOverEmpty(stage, roleHosts, scripts, resolve, order);
    RolesOkIff(stage, roleHosts, scripts, resolve, order);
  }

  /** Over a visit order of exactly the stage's roles, all role errors are empty exactly when every role is fine. */
  lemma RolesOkIff(stage: map<string, seq<ScriptCmd>>, roleHosts: map<string, set<string>>,
                   scripts: map<string, Script>, resolve: ScriptCmd -> string, order: seq<string>)
    requires forall i :: 0 <= i < |order| ==> order[i] in stage
    requires forall r :: r in stage ==> r in order
    ensures (forall i :: 0 <= i < |order| ==> RoleErrors(stage, roleHosts, scripts, resolve, order[i]) == []) <==>
            (forall r :: r in stage ==> RoleOk(stage, roleHosts, scripts, resolve, r))
  {
    forall r
      ensures RoleErrors(stage, roleHosts, scripts, resolve, r) == [] <==> RoleOk(stage, roleHosts, scripts, resolve, r)
    {
      CmdErrorsEmpty(r, scripts, resolve, CmdsOf(stage, r), |HostsOf(roleHosts, r)|);
    }
    if forall i :: 0 <= i < |order| ==> RoleErrors(stage, roleHosts, scripts, resolve, order[i]) == [] {
      forall r | r in stage
        ensures RoleOk(stage, roleHosts, scripts, resolve, r)
      {
        var i :| 0 <= i < |order| && order[i] == r;
      }
    }
  }
}
