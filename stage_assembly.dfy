/**
 * Assembling a stage of the run: every (role, host short name) pair of the
 * stage sends the role's script references to the host it resolves to, or
 * records that the host has no definition. The builder's loops are proved
 * to compute `CollectAll`; the lemmas here describe what it gives per host.
 */
module StageAssembly {
  import opened Wrappers
  import opened Hosts
  import opened ConfigTypes
  import opened HostResolution

  /** Script references per host so far, and the errors recorded. */
  datatype Assembly = Assembly(perHost: map<Host, seq<ScriptCmd>>, errs: seq<ConfigError>)

  /** A (role, short name) pair a stage loop visits. */
  datatype Visit = Visit(role: string, short: string)

  /** No pair is visited twice. */
  predicate Distinct(visits: seq<Visit>) {
    forall i, j :: 0 <= i < j < |visits| ==> visits[i] != visits[j]
  }

  /** Visiting a new pair keeps the visits distinct. */
  lemma DistinctSnoc(visits: seq<Visit>, v: Visit)
    requires Distinct(visits) && v !in visits
    ensures Distinct(visits + [v])
  {
  }

  /**
   * A role's host loop so far: `visits` extends `base` (which has no visit
   * of the role) by distinct visits of the role's hosts no longer
   * remaining, and every host of the role is remaining or visited.
   */
  ghost predicate RoleVisits(base: seq<Visit>, visits: seq<Visit>, role: string, hosts: set<string>, remaining: set<string>) {
    && remaining <= hosts && base <= visits && Distinct(visits)
    && (forall i :: 0 <= i < |base| ==> base[i].role != role)
    && (forall i :: |base| <= i < |visits| ==> visits[i].role == role && visits[i].short in hosts && visits[i].short !in remaining)
    && (forall s :: s in hosts ==> s in remaining || Visit(role, s) in visits)
  }

  /** Visiting one more remaining host of the role. */
  lemma RoleVisitsStep(base: seq<Visit>, visits: seq<Visit>, role: string, hosts: set<string>, remaining: set<string>, s: string)
    requires RoleVisits(base, visits, role, hosts, remaining) && s in remaining
    ensures RoleVisits(base, visits + [Visit(role, s)], role, hosts, remaining - {s})
  {
    var v := Visit(role, s);
    forall i | 0 <= i < |visits|
      ensures visits[i] != v
    {
      if i < |base| {
        assert visits[i] == base[i];
      }
    }
    DistinctSnoc(visits, v);
  }

  /** The short names of the visits, in order. */
  function Shorts(visits: seq<Visit>): (ss: seq<string>)
    ensures |ss| == |visits| && forall i :: 0 <= i < |visits| ==> ss[i] == visits[i].short
  {
    seq(|visits|, i requires 0 <= i < |visits| => visits[i].short)
  }

  /** Visiting one more pair adds its short name at the end. */
  lemma ShortsSnoc(visits: seq<Visit>, v: Visit)
    ensures Shorts(visits + [v]) == Shorts(visits) + [v.short]
  {
  }

  /**
   * The visits of a stage are exactly its acted-on (role, listed host)
   * pairs, each once.
   */
  ghost predicate StageVisits(stage: Stage, stageMap: map<string, seq<ScriptCmd>>, roleHosts: map<string, set<string>>,
                              visits: seq<Visit>) {
    && Distinct(visits)
    && (forall i :: 0 <= i < |visits| ==>
          visits[i].role in stageMap && Acts(stage, stageMap[visits[i].role]) && visits[i].short in HostsOf(roleHosts, visits[i].role))
    && (forall r, s :: r in stageMap && Acts(stage, stageMap[r]) && s in HostsOf(roleHosts, r) ==> Visit(r, s) in visits)
  }

  /** Some visit gives `h` an entry. */
  ghost predicate Reached(stage: Stage, stageMap: map<string, seq<ScriptCmd>>, seen: map<string, Host>,
                          visits: seq<Visit>, h: Host) {
    exists i :: 0 <= i < |visits| && Reaches(stage, stageMap, seen, visits[i], h)
  }

  function CmdsAt(perHost: map<Host, seq<ScriptCmd>>, h: Host): (cs: seq<ScriptCmd>)
    ensures h !in perHost ==> cs == []
  {
    if h in perHost then perHost[h] else []
  }

  /**
   * Whether a visit is acted on at all: setup skips a role without scripts,
   * before looking at its hosts.
   */
  predicate Acts(stage: Stage, cmds: seq<ScriptCmd>) {
    !(stage == Setup && cmds == [])
  }

  /**
   * Whether a resolved visit gives the host an entry: setup and cleanup
   * create the host's wrapper, run only registers each script, so a role
   * without scripts registers nothing.
   */
  predicate Creates(stage: Stage, cmds: seq<ScriptCmd>) {
    Acts(stage, cmds) && !(stage == Run && cmds == [])
  }

  /**
   * One visit: an unresolved short name records a missing host definition;
   * a resolved one appends the role's scripts to its host.
   */
  function CollectOne(stage: Stage, cmds: seq<ScriptCmd>, seen: map<string, Host>, acc: Assembly, v: Visit): (a: Assembly)
    ensures acc.errs <= a.errs && acc.perHost.Keys <= a.perHost.Keys
  {
    if !Acts(stage, cmds) then acc
    else if v.short !in seen then acc.(errs := acc.errs + [MissingHostDefinition(v.role, v.short)])
    else if !Creates(stage, cmds) then acc
    else
      var h := seen[v.short];
      acc.(perHost := acc.perHost[h := CmdsAt(acc.perHost, h) + cmds])
  }

  /** All visits in order. */
  function CollectAll(stage: Stage, stageMap: map<string, seq<ScriptCmd>>, seen: map<string, Host>,
                      start: Assembly, visits: seq<Visit>): (a: Assembly)
    decreases |visits|
  {
    if visits == [] then start
    else
      var last := visits[|visits| - 1];
      CollectOne(stage, CmdsOf(stageMap, last.role), seen, CollectAll(stage, stageMap, seen, start, visits[..|visits| - 1]), last)
  }

  /**
   * The reference view of one host: the scripts of every visit that resolves
   * to it, in visit order.
   */
  function ForHost(stage: Stage, stageMap: map<string, seq<ScriptCmd>>, seen: map<string, Host>,
                   visits: seq<Visit>, h: Host): (cs: seq<ScriptCmd>)
    decreases |visits|
  {
    if visits == [] then []
    else
      var v := visits[|visits| - 1];
      var cmds := CmdsOf(stageMap, v.role);
      ForHost(stage, stageMap, seen, visits[..|visits| - 1], h) +
        (if Acts(stage, cmds) && v.short in seen && seen[v.short] == h then cmds else [])
  }

  /** A visit gives `h` an entry. */
  predicate Reaches(stage: Stage, stageMap: map<string, seq<ScriptCmd>>, seen: map<string, Host>, v: Visit, h: Host) {
    Creates(stage, CmdsOf(stageMap, v.role)) && v.short in seen && seen[v.short] == h
  }

  /** A visit records a missing host definition. */
  predicate Misses(stage: Stage, stageMap: map<string, seq<ScriptCmd>>, seen: map<string, Host>, v: Visit) {
    Acts(stage, CmdsOf(stageMap, v.role)) && v.short !in seen
  }

  /**
   * Per host, the assembled scripts are the host's earlier scripts followed
   * by the scripts of every visit resolving to it, in visit order.
   */
  lemma {:induction false} CollectPerHost(stage: Stage, stageMap: map<string, seq<ScriptCmd>>, seen: map<string, Host>,
                                          start: Assembly, visits: seq<Visit>, h: Host)
    ensures CmdsAt(CollectAll(stage, stageMap, seen, start, visits).perHost, h) ==
            CmdsAt(start.perHost, h) + ForHost(stage, stageMap, seen, visits, h)
    decreases |visits|
  {
    if visits != [] {
      var init := visits[..|visits| - 1];
      CollectPerHost(stage, stageMap, seen, start, init, h);
      var v := visits[|visits| - 1];
      var cmds := CmdsOf(stageMap, v.role);
      var p := CollectAll(stage, stageMap, seen, start, init);
      var extra := if Acts(stage, cmds) && v.short in seen && seen[v.short] == h then cmds else [];
      assert CmdsAt(CollectOne(stage, cmds, seen, p, v).perHost, h) == CmdsAt(p.perHost, h) + extra;
      assert ForHost(stage, stageMap, seen, visits, h) == ForHost(stage, stageMap, seen, init, h) + extra;
    }
  }

  /** A host has an entry exactly when it had one or some visit reaches it. */
  lemma {:induction false} CollectHosts(stage: Stage, stageMap: map<string, seq<ScriptCmd>>, seen: map<string, Host>,
                                        start: Assembly, visits: seq<Visit>, h: Host)
    ensures h in CollectAll(stage, stageMap, seen, start, visits).perHost <==>
            h in start.perHost || exists i :: 0 <= i < |visits| && Reaches(stage, stageMap, seen, visits[i], h)
    decreases |visits|
  {
    if visits != [] {
      var init := visits[..|visits| - 1];
      CollectHosts(stage, stageMap, seen, start, init, h);
      var v := visits[|visits| - 1];
      var p := CollectAll(stage, stageMap, seen, start, init);
      assert h in CollectOne(stage, CmdsOf(stageMap, v.role), seen, p, v).perHost <==>
             h in p.perHost || Reaches(stage, stageMap, seen, v, h);
      if exists i :: 0 <= i < |init| && Reaches(stage, stageMap, seen, init[i], h) {
        var i :| 0 <= i < |init| && Reaches(stage, stageMap, seen, init[i], h);
        assert visits[i] == init[i];
      }
      if exists i :: 0 <= i < |visits| && Reaches(stage, stageMap, seen, visits[i], h) {
        var i :| 0 <= i < |visits| && Reaches(stage, stageMap, seen, visits[i], h);
        if i < |init| {
          assert init[i] == visits[i];
        }
      }
    }
  }

  /**
   * The errors a stage records are the earlier ones followed by one missing
   * host definition per visit whose short name does not resolve, in order.
   */
  lemma {:induction false} CollectErrors(stage: Stage, stageMap: map<string, seq<ScriptCmd>>, seen: map<string, Host>,
                                         start: Assembly, visits: seq<Visit>)
    ensures var a := CollectAll(stage, stageMap, seen, start, visits);
            a.errs == start.errs + MissingErrors(stage, stageMap, seen, visits)
    decreases |visits|
  {
    if visits != [] {
      CollectErrors(stage, stageMap, seen, start, visits[..|visits| - 1]);
    }
  }

  /** The reference list of missing host definitions. */
  function MissingErrors(stage: Stage, stageMap: map<string, seq<ScriptCmd>>, seen: map<string, Host>,
                         visits: seq<Visit>): (es: seq<ConfigError>)
    ensures forall e :: e in es ==> e.MissingHostDefinition? && e.short !in seen
    ensures forall i :: 0 <= i < |visits| && Misses(stage, stageMap, seen, visits[i]) ==>
              MissingHostDefinition(visits[i].role, visits[i].short) in es
    decreases |visits|
  {
    if visits == [] then []
    else
      var v := visits[|visits| - 1];
      var init := visits[..|visits| - 1];
      assert forall i :: 0 <= i < |init| ==> init[i] == visits[i];
      MissingErrors(stage, stageMap, seen, init) +
        (if Misses(stage, stageMap, seen, v) then [MissingHostDefinition(v.role, v.short)] else [])
  }

  /** When every short name resolves, a stage records no error. */
  lemma {:induction false} NoMissingWhenResolved(stage: Stage, stageMap: map<string, seq<ScriptCmd>>, seen: map<string, Host>,
                                                 visits: seq<Visit>)
    requires forall i :: 0 <= i < |visits| ==> visits[i].short in seen
    ensures MissingErrors(stage, stageMap, seen, visits) == []
    decreases |visits|
  {
    if visits != [] {
      NoMissingWhenResolved(stage, stageMap, seen, visits[..|visits| - 1]);
    }
  }

  /** The name of a host's wrapper script for a stage: `setup:` or `cleanup:` and the host's canonical text. */
  function WrapperName(stage: Stage, h: Host): string
    requires stage != Run
  {
    (if stage == Setup then SETUP_PREFIX else CLEANUP_PREFIX) + HostString(h)
  }

  /** The wrappers of a stage: one per host, named after it, holding its scripts. */
  function WrapperScripts(stage: Stage, perHost: map<Host, seq<ScriptCmd>>): (ws: map<Host, Wrapper>)
    requires stage != Run
    ensures ws.Keys == perHost.Keys
    ensures forall h :: h in ws ==> ws[h].cmds == perHost[h]
  {
    map h | h in perHost :: Wrapper(WrapperName(stage, h), perHost[h])
  }

  /** Two well-formed hosts share a wrapper name only when they are the same host. */
  lemma WrapperNamesDistinct(stage: Stage, h1: Host, h2: Host)
    requires stage != Run && WellFormed(h1) && WellFormed(h2)
    ensures WrapperName(stage, h1) == WrapperName(stage, h2) <==> h1 == h2
  {
    if WrapperName(stage, h1) == WrapperName(stage, h2) {
      var pre := if stage == Setup then SETUP_PREFIX else CLEANUP_PREFIX;
      assert HostString(h1) == WrapperName(stage, h1)[|pre|..];
      assert HostString(h2) == WrapperName(stage, h2)[|pre|..];
      ParseHostString(h1);
      ParseHostString(h2);
    }
  }
}
