/**
 * The two host steps of building a run, stated as functions: resolving every
 * host short name a role lists through the alias table, and evaluating a
 * role's host expression (`= role + role - role`) over the resolved hosts.
 * The builder's loops are proved to compute these.
 */
module HostResolution {
  import opened Wrappers
  import opened JavaString
  import opened Hosts
  import opened ConfigTypes

  /** A host a reference can resolve to: its canonical text reads back to it. */
  predicate WellFormed(h: Host) {
    '@' !in h.username && ':' !in h.hostname && INT_MIN <= h.port <= INT_MAX
  }

  /** Every resolved host is well formed. */
  predicate AllWellFormed(seen: map<string, Host>) {
    forall k :: k in seen ==> WellFormed(seen[k])
  }

  /** Host resolution so far: the hosts by reference, the errors, and whether parsing threw. */
  datatype Resolution = Resolution(seen: map<string, Host>, errs: seq<ConfigError>, threw: bool)

  /** `a` is `b` with possibly more errors and more references. */
  predicate Grows(a: Resolution, b: Resolution) {
    a.errs <= b.errs && a.seen.Keys <= b.seen.Keys
  }

  /**
   * What resolving a short name guarantees: a missing or empty alias is
   * reported; an alias with `@` is resolved; one without `@` is reported
   * unless a host is already known under that text.
   */
  predicate Covered(alias: map<string, string>, st: Resolution, short: string) {
    if short !in alias || alias[short] == "" then HostNotDefined(short) in st.errs
    else if '@' in alias[short] then alias[short] in st.seen
    else HostMissingAt(short, alias[short]) in st.errs || alias[short] in st.seen
  }

  /**
   * One short name: an unknown or empty alias is an error, a fully qualified
   * text already resolved is skipped, text without `@` is an error, a bad
   * port throws, and a parsed host is recorded under the fully qualified
   * text, the short name and its canonical text.
   */
  function ResolveOne(alias: map<string, string>, st: Resolution, short: string): (r: Resolution)
    requires !st.threw
    ensures st.errs <= r.errs && st.seen.Keys <= r.seen.Keys
    ensures r.threw <==> short in alias && alias[short] != "" && alias[short] !in st.seen && ParseHost(alias[short]).BadPort?
  {
    if short !in alias || alias[short] == "" then st.(errs := st.errs + [HostNotDefined(short)])
    else
      var full := alias[short];
      if full in st.seen then st
      else
        match ParseHost(full)
        case MissingAt => st.(errs := st.errs + [HostMissingAt(short, full)])
        case BadPort => st.(threw := true)
        case Parsed(h) => st.(seen := st.seen[full := h][short := h][HostString(h) := h])
  }

  /**
   * One short name is covered afterwards, keeps every host well formed, and
   * any host it records is what its alias parses to.
   */
  lemma ResolveOneFacts(alias: map<string, string>, st: Resolution, short: string)
    requires !st.threw
    ensures var r := ResolveOne(alias, st, short);
            && (!r.threw ==> Covered(alias, r, short))
            && (AllWellFormed(st.seen) ==> AllWellFormed(r.seen))
            && forall k :: k in r.seen ==>
                 ((k in st.seen && r.seen[k] == st.seen[k]) || (short in alias && ParseHost(alias[short]) == Parsed(r.seen[k])))
  {
    if short in alias && alias[short] != "" && alias[short] !in st.seen {
      var full := alias[short];
      match ParseHost(full)
      case MissingAt =>
      case BadPort =>
      case Parsed(h) =>
        ParsedWellFormed(full, h);
        assert ResolveOne(alias, st, short).seen == Record(st.seen, full, short, h);
        RecordFacts(st.seen, full, short, h);
    }
  }

  /** Recording a host adds it under the full text and changes nothing but the three names. */
  lemma RecordFacts(seen: map<string, Host>, full: string, short: string, h: Host)
    ensures var r := Record(seen, full, short, h);
            && full in r
            && (AllWellFormed(seen) && WellFormed(h) ==> AllWellFormed(r))
            && forall k :: k in r ==> (k in seen && r[k] == seen[k]) || r[k] == h
  {
  }

  /** A parsed host is well formed. */
  lemma ParsedWellFormed(full: string, h: Host)
    requires ParseHost(full) == Parsed(h)
    ensures WellFormed(h)
  {
    ParsedFields(full, h);
    var a := IndexOf(full, '@').value;
    if IndexOf(full[a + 1..], ':').Some? {
      assert INT_MIN <= h.port <= INT_MAX;
    }
  }

  /** The short names in order, stopping at the first one whose port does not parse. */
  function ResolveAll(alias: map<string, string>, start: Resolution, shorts: seq<string>): (r: Resolution)
    decreases |shorts|
  {
    if shorts == [] then start
    else
      var p := ResolveAll(alias, start, shorts[..|shorts| - 1]);
      if p.threw then p else ResolveOne(alias, p, shorts[|shorts| - 1])
  }

  /** Some short name's alias has a port that is not a 32-bit integer. */
  predicate SomeBadPort(alias: map<string, string>, shorts: seq<string>) {
    exists i :: 0 <= i < |shorts| && shorts[i] in alias && ParseHost(alias[shorts[i]]).BadPort?
  }

  /** `h` is what some short name's alias parses to. */
  predicate FromAlias(alias: map<string, string>, shorts: seq<string>, h: Host) {
    exists i :: 0 <= i < |shorts| && shorts[i] in alias && ParseHost(alias[shorts[i]]) == Parsed(h)
  }

  /**
   * Resolution only adds: errors are appended and references are never
   * dropped; and it throws only at a port that does not parse.
   */
  lemma {:induction false} ResolveAllGrows(alias: map<string, string>, start: Resolution, shorts: seq<string>)
    requires !start.threw
    ensures var r := ResolveAll(alias, start, shorts);
            Grows(start, r) && (r.threw ==> SomeBadPort(alias, shorts))
  {
    if shorts != [] {
      var init := shorts[..|shorts| - 1];
      ResolveAllGrows(alias, start, init);
      var p := ResolveAll(alias, start, init);
      if p.threw {
        assert SomeBadPort(alias, shorts) by {
          var i :| 0 <= i < |init| && init[i] in alias && ParseHost(alias[init[i]]).BadPort?;
          assert shorts[i] == init[i];
        }
      } else {
        var r := ResolveOne(alias, p, shorts[|shorts| - 1]);
        if r.threw {
          assert ParseHost(alias[shorts[|shorts| - 1]]).BadPort?;
        }
      }
    }
  }

  /** Every host resolution records is well formed, so its canonical text reads back to it. */
  lemma {:induction false} ResolveAllWellFormed(alias: map<string, string>, start: Resolution, shorts: seq<string>)
    requires !start.threw && AllWellFormed(start.seen)
    ensures var r := ResolveAll(alias, start, shorts);
            AllWellFormed(r.seen) && forall k :: k in r.seen ==> ParseHost(HostString(r.seen[k])) == Parsed(r.seen[k])
  {
    if shorts != [] {
      var init := shorts[..|shorts| - 1];
      ResolveAllWellFormed(alias, start, init);
      var p := ResolveAll(alias, start, init);
      if !p.threw {
        ResolveOneFacts(alias, p, shorts[|shorts| - 1]);
      }
    }
    var r := ResolveAll(alias, start, shorts);
    forall k | k in r.seen
      ensures ParseHost(HostString(r.seen[k])) == Parsed(r.seen[k])
    {
      ParseHostString(r.seen[k]);
    }
  }

  /**
   * When resolution does not throw, every short name is covered: reported,
   * or resolved under its fully qualified text.
   */
  lemma {:induction false} ResolveAllCovers(alias: map<string, string>, start: Resolution, shorts: seq<string>)
    requires !start.threw
    ensures var r := ResolveAll(alias, start, shorts);
            !r.threw ==> forall i :: 0 <= i < |shorts| ==> Covered(alias, r, shorts[i])
  {
    if shorts != [] {
      var init := shorts[..|shorts| - 1];
      ResolveAllCovers(alias, start, init);
      var p := ResolveAll(alias, start, init);
      var r := ResolveAll(alias, start, shorts);
      if !r.threw {
        assert !p.threw && r == ResolveOne(alias, p, shorts[|shorts| - 1]);
        ResolveOneFacts(alias, p, shorts[|shorts| - 1]);
        forall i | 0 <= i < |shorts|
          ensures Covered(alias, r, shorts[i])
        {
          if i < |init| {
            assert shorts[i] == init[i];
            CoveredGrows(alias, p, r, shorts[i]);
          }
        }
      }
    }
  }

  /** Coverage survives further resolution. */
  lemma CoveredGrows(alias: map<string, string>, a: Resolution, b: Resolution, short: string)
    requires Covered(alias, a, short) && Grows(a, b)
    ensures Covered(alias, b, short)
  {
    if short !in alias || alias[short] == "" {
      assert HostNotDefined(short) in b.errs by { PrefixKeeps(a.errs, b.errs, HostNotDefined(short)); }
    } else if '@' !in alias[short] && HostMissingAt(short, alias[short]) in a.errs {
      PrefixKeeps(a.errs, b.errs, HostMissingAt(short, alias[short]));
    }
  }

  lemma PrefixKeeps<T>(a: seq<T>, b: seq<T>, x: T)
    requires a <= b && x in a
    ensures x in b
  {
    var i :| 0 <= i < |a| && a[i] == x;
    assert b[i] == x;
  }

  /** Every host resolution records under a new reference is what some short name's alias parses to. */
  lemma {:induction false} ResolveAllFromAlias(alias: map<string, string>, start: Resolution, shorts: seq<string>)
    requires !start.threw
    ensures var r := ResolveAll(alias, start, shorts);
            forall k :: k in r.seen ==> (k in start.seen && r.seen[k] == start.seen[k]) || FromAlias(alias, shorts, r.seen[k])
  {
    if shorts != [] {
      var init := shorts[..|shorts| - 1];
      ResolveAllFromAlias(alias, start, init);
      var p := ResolveAll(alias, start, init);
      var r := ResolveAll(alias, start, shorts);
      if !p.threw {
        ResolveOneFacts(alias, p, shorts[|shorts| - 1]);
      }
      forall k | k in r.seen && !(k in start.seen && r.seen[k] == start.seen[k])
        ensures FromAlias(alias, shorts, r.seen[k])
      {
        if k in p.seen && r.seen[k] == p.seen[k] {
          var i :| 0 <= i < |init| && init[i] in alias && ParseHost(alias[init[i]]) == Parsed(p.seen[k]);
          assert shorts[i] == init[i];
        } else {
          assert !p.threw;
          assert ParseHost(alias[shorts[|shorts| - 1]]) == Parsed(r.seen[k]);
        }
      }
    }
  }

  /**
   * Two short names aliasing the same fully qualified text: the second is
   * skipped as already seen, so it is never recorded under its own name.
   */
  lemma SharedAliasSecondUnresolved()
    ensures var alias := map["a" := "u@h", "b" := "u@h"];
            var r := ResolveAll(alias, Resolution(map[], [], false), ["a", "b"]);
            !r.threw && r.errs == [] && "a" in r.seen && "b" !in r.seen
  {
    var alias := map["a" := "u@h", "b" := "u@h"];
    var start := Resolution(map[], [], false);
    assert IndexOf("u@h", '@') == Some(1);
    assert IndexOf("h", ':') == None;
    assert ParseHost("u@h") == Parsed(Host("u", "h", DEFAULT_PORT));
    assert ["a", "b"][..1] == ["a"];
    assert ["a"][..0] == [];
    var h := Host("u", "h", DEFAULT_PORT);
    var p := ResolveAll(alias, start, ["a"]);
    assert p.seen == map["u@h" := h]["a" := h][HostString(h) := h];
    assert HostString(h) != "b";
  }

  // ---- host expressions ----

  /** The hosts a role lists, each looked up by reference; an unresolved one is none (null). */
  function Lookup(roleHosts: map<string, set<string>>, seen: map<string, Host>, role: string): (hs: set<Option<Host>>)
    ensures forall s :: s in HostsOf(roleHosts, role) && s in seen ==> Some(seen[s]) in hs
    ensures None in hs <==> exists s :: s in HostsOf(roleHosts, role) && s !in seen
  {
    set s | s in HostsOf(roleHosts, role) :: if s in seen then Some(seen[s]) else None
  }

  predicate IsInclude(t: string) {
    t == HOST_EXPRESSION_PREFIX || t == HOST_EXPRESSION_INCLUDE
  }

  predicate IsOperator(t: string) {
    IsInclude(t) || t == HOST_EXPRESSION_EXCLUDE
  }

  /** What evaluating an expression collects: hosts to add, hosts to remove, and errors. */
  datatype Selection = Selection(add: set<Option<Host>>, remove: set<Option<Host>>, errs: seq<ConfigError>)

  /**
   * The tokens from `i` on: `=` or `+` followed by a role adds that role's
   * hosts, `-` followed by a role removes them, an operator at the end is an
   * error and ends the expression, any other token is an error and is skipped.
   */
  function EvalFrom(role: string, tokens: seq<string>, i: nat, roleHosts: map<string, set<string>>,
                    seen: map<string, Host>): (sel: Selection)
    requires i <= |tokens|
    decreases |tokens| - i
  {
    if i == |tokens| then Selection({}, {}, [])
    else
      var t := tokens[i];
      if IsOperator(t) then
        if i + 1 < |tokens| then
          var rest := EvalFrom(role, tokens, i + 2, roleHosts, seen);
          var hosts := Lookup(roleHosts, seen, tokens[i + 1]);
          if IsInclude(t) then rest.(add := hosts + rest.add) else rest.(remove := hosts + rest.remove)
        else Selection({}, {}, [ExpressionEnds(role, t)])
      else
        var rest := EvalFrom(role, tokens, i + 1, roleHosts, seen);
        rest.(errs := [ExpressionToken(role, t)] + rest.errs)
  }

  /** From `i` on, the tokens alternate operator, role, operator, role, ... */
  predicate WellFormedFrom(tokens: seq<string>, i: nat)
    requires i <= |tokens|
  {
    (|tokens| - i) % 2 == 0 && forall j :: i <= j < |tokens| && (j - i) % 2 == 0 ==> IsOperator(tokens[j])
  }

  /** An expression records no error exactly when it alternates operators and roles. */
  lemma {:induction false} EvalErrorsIff(role: string, tokens: seq<string>, i: nat,
                                         roleHosts: map<string, set<string>>, seen: map<string, Host>)
    requires i <= |tokens|
    ensures EvalFrom(role, tokens, i, roleHosts, seen).errs == [] <==> WellFormedFrom(tokens, i)
    decreases |tokens| - i
  {
    if i < |tokens| {
      if IsOperator(tokens[i]) && i + 1 < |tokens| {
        EvalErrorsIff(role, tokens, i + 2, roleHosts, seen);
        assert WellFormedFrom(tokens, i) <==> WellFormedFrom(tokens, i + 2) by {
          if WellFormedFrom(tokens, i + 2) {
            forall j | i <= j < |tokens| && (j - i) % 2 == 0
              ensures IsOperator(tokens[j])
            {
              if j != i {
                assert (j - (i + 2)) % 2 == 0;
              }
            }
          }
          if WellFormedFrom(tokens, i) {
            forall j | i + 2 <= j < |tokens| && (j - (i + 2)) % 2 == 0
              ensures IsOperator(tokens[j])
            {
              assert (j - i) % 2 == 0;
            }
          }
        }
      } else if !IsOperator(tokens[i]) {
        assert !WellFormedFrom(tokens, i) by {
          assert (i - i) % 2 == 0;
        }
      }
    }
  }

  /** Role position `j + 1` of a well-formed expression contributes through the operator at `j`. */
  predicate Adds(tokens: seq<string>, i: nat, j: int, roleHosts: map<string, set<string>>,
                 seen: map<string, Host>, x: Option<Host>)
  {
    i <= j && j + 1 < |tokens| && (j - i) % 2 == 0 && IsInclude(tokens[j]) && x in Lookup(roleHosts, seen, tokens[j + 1])
  }

  predicate Removes(tokens: seq<string>, i: nat, j: int, roleHosts: map<string, set<string>>,
                    seen: map<string, Host>, x: Option<Host>)
  {
    i <= j && j + 1 < |tokens| && (j - i) % 2 == 0 && tokens[j] == HOST_EXPRESSION_EXCLUDE &&
    x in Lookup(roleHosts, seen, tokens[j + 1])
  }

  /**
   * In a well-formed expression, the hosts to add are exactly those of the
   * roles after `=` or `+`, and the hosts to remove those of the roles after `-`.
   */
  lemma {:induction false} EvalMembers(role: string, tokens: seq<string>, i: nat,
                                       roleHosts: map<string, set<string>>, seen: map<string, Host>, x: Option<Host>)
    requires i <= |tokens| && WellFormedFrom(tokens, i)
    ensures var sel := EvalFrom(role, tokens, i, roleHosts, seen);
            && (x in sel.add <==> exists j :: Adds(tokens, i, j, roleHosts, seen, x))
            && (x in sel.remove <==> exists j :: Removes(tokens, i, j, roleHosts, seen, x))
    decreases |tokens| - i
  {
    if i < |tokens| {
      assert IsOperator(tokens[i]) by { assert (i - i) % 2 == 0; }
      assert i + 1 < |tokens|;
      assert WellFormedFrom(tokens, i + 2) by {
        forall j | i + 2 <= j < |tokens| && (j - (i + 2)) % 2 == 0
          ensures IsOperator(tokens[j])
        {
          assert (j - i) % 2 == 0;
        }
      }
      EvalMembers(role, tokens, i + 2, roleHosts, seen, x);
      ShiftAdds(tokens, i, i + 2, roleHosts, seen, x);
      ShiftRemoves(tokens, i, i + 2, roleHosts, seen, x);
    }
  }

  /** An addition from `i` on is the one at `i` or one from `i + 2` on. */
  lemma ShiftAdds(tokens: seq<string>, i: nat, k: nat, roleHosts: map<string, set<string>>, seen: map<string, Host>, x: Option<Host>)
    requires i + 1 < |tokens| && k == i + 2
    ensures (exists j :: Adds(tokens, i, j, roleHosts, seen, x)) <==>
            Adds(tokens, i, i, roleHosts, seen, x) || exists j :: Adds(tokens, k, j, roleHosts, seen, x)
  {
    if j :| Adds(tokens, i, j, roleHosts, seen, x) && j != i {
      assert (j - k) % 2 == 0;
      assert Adds(tokens, k, j, roleHosts, seen, x);
    }
    if j :| Adds(tokens, k, j, roleHosts, seen, x) {
      assert (j - i) % 2 == 0;
      assert Adds(tokens, i, j, roleHosts, seen, x);
    }
  }

  /** A removal from `i` on is the one at `i` or one from `i + 2` on. */
  lemma ShiftRemoves(tokens: seq<string>, i: nat, k: nat, roleHosts: map<string, set<string>>, seen: map<string, Host>, x: Option<Host>)
    requires i + 1 < |tokens| && k == i + 2
    ensures (exists j :: Removes(tokens, i, j, roleHosts, seen, x)) <==>
            Removes(tokens, i, i, roleHosts, seen, x) || exists j :: Removes(tokens, k, j, roleHosts, seen, x)
  {
    if j :| Removes(tokens, i, j, roleHosts, seen, x) && j != i {
      assert (j - k) % 2 == 0;
      assert Removes(tokens, k, j, roleHosts, seen, x);
    }
    if j :| Removes(tokens, k, j, roleHosts, seen, x) {
      assert (j - i) % 2 == 0;
      assert Removes(tokens, i, j, roleHosts, seen, x);
    }
  }

  /** Every host the roles list is resolved. */
  predicate AllResolved(roleHosts: map<string, set<string>>, seen: map<string, Host>) {
    forall r, s :: r in roleHosts && s in roleHosts[r] ==> s in seen
  }

  /**
   * When every listed host is resolved, an expression never selects an
   * unresolved (null) host, so writing its hosts back cannot throw.
   */
  lemma {:induction false} EvalResolved(role: string, tokens: seq<string>, i: nat,
                                        roleHosts: map<string, set<string>>, seen: map<string, Host>)
    requires i <= |tokens| && AllResolved(roleHosts, seen)
    ensures None !in EvalFrom(role, tokens, i, roleHosts, seen).add
    decreases |tokens| - i
  {
    if i < |tokens| {
      if IsOperator(tokens[i]) && i + 1 < |tokens| {
        EvalResolved(role, tokens, i + 2, roleHosts, seen);
        assert None !in Lookup(roleHosts, seen, tokens[i + 1]);
      } else if !IsOperator(tokens[i]) {
        EvalResolved(role, tokens, i + 1, roleHosts, seen);
      }
    }
  }

  /** Every resolved host is also recorded under its canonical text. */
  predicate Closed(seen: map<string, Host>) {
    forall k :: k in seen ==> HostString(seen[k]) in seen
  }

  /** Resolution records each new host under its canonical text too, so it stays closed. */
  lemma {:induction false} ResolveAllClosed(alias: map<string, string>, start: Resolution, shorts: seq<string>)
    requires !start.threw && Closed(start.seen)
    ensures Closed(ResolveAll(alias, start, shorts).seen)
  {
    if shorts != [] {
      var init := shorts[..|shorts| - 1];
      ResolveAllClosed(alias, start, init);
      var p := ResolveAll(alias, start, init);
      if !p.threw {
        ResolveOneClosed(alias, p, shorts[|shorts| - 1]);
      }
    }
  }

  lemma ResolveOneClosed(alias: map<string, string>, st: Resolution, short: string)
    requires !st.threw && Closed(st.seen)
    ensures Closed(ResolveOne(alias, st, short).seen)
  {
    if short in alias && alias[short] != "" && alias[short] !in st.seen {
      var full := alias[short];
      match ParseHost(full)
      case MissingAt =>
      case BadPort =>
      case Parsed(h) =>
        assert ResolveOne(alias, st, short).seen == Record(st.seen, full, short, h);
        RecordKeepsClosed(st.seen, full, short, h);
    }
  }

  /** The map after a parsed host is recorded under three names. */
  function Record(seen: map<string, Host>, full: string, short: string, h: Host): map<string, Host> {
    seen[full := h][short := h][HostString(h) := h]
  }

  lemma RecordKeepsClosed(seen: map<string, Host>, full: string, short: string, h: Host)
    requires Closed(seen)
    ensures Closed(Record(seen, full, short, h))
  {
    var r := Record(seen, full, short, h);
    forall k | k in r
      ensures HostString(r[k]) in r
    {
      if r[k] != h {
        assert k in seen && r[k] == seen[k];
      }
    }
  }

  /**
   * Over a closed resolution, every host an expression adds has its
   * canonical text resolved, so the names written back for the role resolve.
   */
  lemma {:induction false} EvalAddsResolved(role: string, tokens: seq<string>, i: nat,
                                            roleHosts: map<string, set<string>>, seen: map<string, Host>)
    requires i <= |tokens| && Closed(seen)
    ensures forall h :: Some(h) in EvalFrom(role, tokens, i, roleHosts, seen).add ==> HostString(h) in seen
    decreases |tokens| - i
  {
    if i < |tokens| {
      var sel := EvalFrom(role, tokens, i, roleHosts, seen);
      if IsOperator(tokens[i]) && i + 1 < |tokens| {
        EvalAddsResolved(role, tokens, i + 2, roleHosts, seen);
        LookupClosed(roleHosts, seen, tokens[i + 1]);
        assert sel.add <= Lookup(roleHosts, seen, tokens[i + 1]) + EvalFrom(role, tokens, i + 2, roleHosts, seen).add;
      } else if !IsOperator(tokens[i]) {
        EvalAddsResolved(role, tokens, i + 1, roleHosts, seen);
        assert sel.add == EvalFrom(role, tokens, i + 1, roleHosts, seen).add;
      } else {
        assert sel.add == {};
      }
    }
  }

  lemma LookupClosed(roleHosts: map<string, set<string>>, seen: map<string, Host>, role: string)
    requires Closed(seen)
    ensures forall h :: Some(h) in Lookup(roleHosts, seen, role) ==> HostString(h) in seen
  {
    forall h | Some(h) in Lookup(roleHosts, seen, role)
      ensures HostString(h) in seen
    {
      var s :| s in HostsOf(roleHosts, role) && (if s in seen then Some(seen[s]) else None) == Some(h);
    }
  }

  /** The host expression loop so far: every role's hosts, the errors, and whether it threw. */
  datatype Expressions = Expressions(roleHosts: map<string, set<string>>, errs: seq<ConfigError>, threw: bool)

  /**
   * One role's expression: its errors are recorded; a selection holding an
   * unresolved (null) host throws and changes no role; otherwise the
   * selected hosts are added to the role by canonical text.
   */
  function ApplyOne(exprs: map<string, string>, split: string -> seq<string>, seen: map<string, Host>,
                    st: Expressions, role: string): (r: Expressions)
    ensures st.threw || role !in exprs ==> r == st
    ensures r.roleHosts.Keys <= st.roleHosts.Keys + {role}
  {
    if st.threw || role !in exprs then st
    else
      var all := EvalFrom(role, split(exprs[role]), 0, st.roleHosts, seen);
      var sel := all.add - all.remove;
      if None in sel then Expressions(st.roleHosts, st.errs + all.errs, true)
      else if sel == {} then Expressions(st.roleHosts, st.errs + all.errs, false)
      else Expressions(st.roleHosts[role := HostsOf(st.roleHosts, role) + Canonical(sel)], st.errs + all.errs, false)
  }

  /** The roles' expressions in order, stopping at the first that throws. */
  function ApplyAll(exprs: map<string, string>, split: string -> seq<string>, seen: map<string, Host>,
                    start: Expressions, roles: seq<string>): (r: Expressions)
    decreases |roles|
  {
    if roles == [] then start
    else ApplyOne(exprs, split, seen, ApplyAll(exprs, split, seen, start, roles[..|roles| - 1]), roles[|roles| - 1])
  }

  /** One more role applies its expression to the state so far. */
  lemma ApplyAllSnoc(exprs: map<string, string>, split: string -> seq<string>, seen: map<string, Host>,
                     start: Expressions, roles: seq<string>, role: string)
    ensures ApplyAll(exprs, split, seen, start, roles + [role]) == ApplyOne(exprs, split, seen, ApplyAll(exprs, split, seen, start, roles), role)
  {
    assert (roles + [role])[..|roles|] == roles;
  }

  /** Every role of `rh1` lists at least what it did in `rh0`, and only the roles in `keys` list more. */
  ghost predicate Widened(rh0: map<string, set<string>>, rh1: map<string, set<string>>, keys: set<string>) {
    forall r :: HostsOf(rh0, r) <= HostsOf(rh1, r) && (r !in keys ==> HostsOf(rh1, r) == HostsOf(rh0, r))
  }

  /**
   * One role's expression keeps the earlier errors, only widens that role,
   * and, when every listed host resolves (and resolution is closed), does
   * not throw and leaves every listed host resolved.
   */
  lemma ApplyOneFacts(exprs: map<string, string>, split: string -> seq<string>, seen: map<string, Host>,
                      st: Expressions, role: string)
    ensures var r := ApplyOne(exprs, split, seen, st, role);
            && st.errs <= r.errs && Widened(st.roleHosts, r.roleHosts, {role})
            && (!st.threw && AllResolved(st.roleHosts, seen) && Closed(seen) ==> !r.threw && AllResolved(r.roleHosts, seen))
  {
    if !st.threw && role in exprs {
      var all := EvalFrom(role, split(exprs[role]), 0, st.roleHosts, seen);
      var sel := all.add - all.remove;
      var r := ApplyOne(exprs, split, seen, st, role);
      assert r.errs == st.errs + all.errs;
      if None !in sel && sel != {} {
        WidenOne(st.roleHosts, role, Canonical(sel));
      }
      if AllResolved(st.roleHosts, seen) && Closed(seen) {
        ApplyOneResolved(exprs, split, seen, st, role);
      }
    }
  }

  /** Adding hosts to one role widens only that role. */
  lemma WidenOne(rh: map<string, set<string>>, role: string, more: set<string>)
    ensures Widened(rh, rh[role := HostsOf(rh, role) + more], {role})
  {
  }

  /** The resolved case of `ApplyOneFacts`. */
  lemma ApplyOneResolved(exprs: map<string, string>, split: string -> seq<string>, seen: map<string, Host>,
                         st: Expressions, role: string)
    requires !st.threw && role in exprs && AllResolved(st.roleHosts, seen) && Closed(seen)
    ensures var r := ApplyOne(exprs, split, seen, st, role);
            !r.threw && AllResolved(r.roleHosts, seen)
  {
    var tokens := split(exprs[role]);
    var all := EvalFrom(role, tokens, 0, st.roleHosts, seen);
    var sel := all.add - all.remove;
    var r := ApplyOne(exprs, split, seen, st, role);
    EvalResolved(role, tokens, 0, st.roleHosts, seen);
    EvalAddsResolved(role, tokens, 0, st.roleHosts, seen);
    forall q, s | q in r.roleHosts && s in r.roleHosts[q]
      ensures s in seen
    {
      if q == role && s !in HostsOf(st.roleHosts, role) {
        var h :| Some(h) in sel && s == HostString(h);
      }
    }
  }

  /**
   * The expressions of roles among `keys` keep the earlier errors, only
   * widen those roles, and, from a resolved and closed start, do not throw
   * and leave every listed host resolved.
   */
  lemma {:induction false} ApplyAllFacts(exprs: map<string, string>, split: string -> seq<string>, seen: map<string, Host>,
                                         start: Expressions, roles: seq<string>, keys: set<string>)
    requires forall i :: 0 <= i < |roles| ==> roles[i] in keys
    ensures var r := ApplyAll(exprs, split, seen, start, roles);
            && start.errs <= r.errs && Widened(start.roleHosts, r.roleHosts, keys)
            && (!start.threw && AllResolved(start.roleHosts, seen) && Closed(seen) ==> !r.threw && AllResolved(r.roleHosts, seen))
    decreases |roles|
  {
    if roles != [] {
      var init := roles[..|roles| - 1];
      ApplyAllFacts(exprs, split, seen, start, init, keys);
      ApplyOneFacts(exprs, split, seen, ApplyAll(exprs, split, seen, start, init), roles[|roles| - 1]);
    }
  }

  /** Once an expression throws, the rest change nothing. */
  lemma {:induction false} ApplyAllThrown(exprs: map<string, string>, split: string -> seq<string>, seen: map<string, Host>,
                                          start: Expressions, roles: seq<string>)
    requires start.threw
    ensures ApplyAll(exprs, split, seen, start, roles) == start
    decreases |roles|
  {
    if roles != [] {
      ApplyAllThrown(exprs, split, seen, start, roles[..|roles| - 1]);
    }
  }

  /** The canonical texts of the selected hosts. */
  function Canonical(sel: set<Option<Host>>): (names: set<string>)
    ensures forall h :: Some(h) in sel ==> HostString(h) in names
    ensures forall n :: n in names ==> exists h :: Some(h) in sel && n == HostString(h)
  {
    set o | o in sel && o.Some? :: HostString(o.value)
  }
}
