/**
 * The for-each loop command. Its first run splits the runtime input into tokens
 * and caches them; every run while tokens exist advances the index once,
 * binds the current token to the loop variable in the command's `with`
 * bindings and reports `next` with it, and after the last token reports `skip`
 * with the run's input. Attaching a body with `then` rewires successor links so
 * that the body leads back to the loop command.
 */
module ForEachCmd {
  import opened Wrappers
  import opened JavaString
  import opened CmdResult
  import opened Contexts
  import opened CmdGraph

  /**
   * The tokens of the first run: the text split on "\n" (trailing empty pieces
   * dropped, as String.split does) when it holds a newline, and none otherwise.
   */
  function SplitRunInput(s: string): (tokens: seq<string>)
    ensures '\n' !in s ==> tokens == []
    ensures forall k :: 0 <= k < |tokens| ==> '\n' !in tokens[k]
    ensures tokens == [] || tokens[|tokens| - 1] != ""
  {
    if '\n' in s then SplitAllPiecesFree(s, '\n'); StripTrailingEmpty(SplitAll(s, '\n')) else []
  }

  /** When the text does not end with a newline, the tokens are exactly its lines. */
  lemma SplitRunInputLines(s: string)
    requires '\n' in s && s[|s| - 1] != '\n'
    ensures Join(SplitRunInput(s), '\n') == s
  {
    JavaSplitJoin(s, '\n');
  }

  /**
   * A single trailing newline adds no empty token: the tokens of `t + "\n"` are
   * exactly the lines of `t` (for example "one\ntwo\nthree\n" gives three).
   */
  lemma SplitRunInputTrailingNewline(t: string)
    requires t != [] && t[|t| - 1] != '\n'
    ensures SplitRunInput(t + "\n") == SplitAll(t, '\n')
    ensures Join(SplitRunInput(t + "\n"), '\n') == t
  {
    var parts := SplitAll(t, '\n');
    SplitAllSnoc(t, '\n');
    assert (t + "\n")[|t|] == '\n';
    assert SplitRunInput(t + "\n") == StripTrailingEmpty(parts + [""]);
    assert (parts + [""])[..|parts|] == parts;
    LastPieceNonEmpty(t, '\n');
    assert StripTrailingEmpty(parts) == parts;
    JoinSplitAll(t, '\n');
  }

  /** The `next` verdicts for each token, in order. */
  function NextAll(tokens: seq<string>): (r: seq<Result>)
    ensures |r| == |tokens|
    ensures forall k :: 0 <= k < |r| ==> r[k] == NextOf(tokens[k])
  {
    if tokens == [] then [] else [NextOf(tokens[0])] + NextAll(tokens[1..])
  }

  /**
   * The loop body of `f` is wired as a cycle: `f` leads to its first child, each
   * child to the following one, and the last child back to `f`.
   */
  ghost predicate LoopWired(thens: map<CmdId, seq<CmdId>>, next: map<CmdId, CmdId>, f: CmdId) {
    var body := Children(thens, f);
    body == [] ||
    (&& f in next && next[f] == body[0]
     && (forall i :: 0 <= i < |body| - 1 ==> body[i] in next && next[body[i]] == body[i + 1])
     && body[|body| - 1] in next && next[body[|body| - 1]] == f)
  }

  /** The body of `f` holds distinct commands without children of their own, none of them `f`. */
  ghost predicate FlatBody(thens: map<CmdId, seq<CmdId>>, f: CmdId) {
    var body := Children(thens, f);
    && (forall i :: 0 <= i < |body| ==> body[i] != f && Children(thens, body[i]) == [])
    && (forall i, j :: 0 <= i < j < |body| ==> body[i] != body[j])
  }

  /**
   * Attaching one more childless command to a flat, cycle-wired loop body (the
   * way ForEach.then does: old tail to the command, the command back to the
   * loop) keeps the body flat and the cycle closed.
   */
  lemma ThenKeepsLoopWired(thens: map<CmdId, seq<CmdId>>, next: map<CmdId, CmdId>, f: CmdId, c: CmdId)
    requires LoopWired(thens, next, f) && FlatBody(thens, f)
    requires c != f && Children(thens, c) == [] && c !in Children(thens, f)
    ensures var thens' := thens[f := Children(thens, f) + [c]];
            var next' := next[Tail(thens, f) := c][c := f];
            LoopWired(thens', next', f) && FlatBody(thens', f)
  {
    var body := Children(thens, f);
    var thens' := thens[f := body + [c]];
    if body != [] {
      var last := body[|body| - 1];
      assert Children(thens - {f}, last) == [];
      assert Tail(thens, f) == last;
    }
    forall i | 0 <= i < |body| ensures Children(thens', body[i]) == [] {
      assert body[i] != f;
    }
  }

  /**
   * Following successor links from a cycle-wired loop visits its body in order
   * and then comes back to the loop command.
   */
  lemma LoopVisitsBodyThenReturns(thens: map<CmdId, seq<CmdId>>, next: map<CmdId, CmdId>, f: CmdId)
    requires LoopWired(thens, next, f) && Children(thens, f) != []
    ensures forall k :: 0 <= k < |Children(thens, f)| ==> Follow(next, f, k + 1) == Some(Children(thens, f)[k])
    ensures Follow(next, f, |Children(thens, f)| + 1) == Some(f)
  {
    var body := Children(thens, f);
    forall k | 0 <= k < |body| ensures Follow(next, f, k + 1) == Some(body[k]) {
      FollowAlongBody(next, body, 0, k);
    }
    FollowAlongBody(next, body, 0, |body| - 1);
    FollowFrom(next, f, |body|, body[|body| - 1]);
  }

  lemma {:induction false} FollowAlongBody(next: map<CmdId, CmdId>, body: seq<CmdId>, j: nat, k: nat)
    requires j <= k < |body|
    requires forall i :: 0 <= i < |body| - 1 ==> body[i] in next && next[body[i]] == body[i + 1]
    ensures Follow(next, body[j], k - j) == Some(body[k])
    decreases k - j
  {
    if j < k {
      FollowAlongBody(next, body, j + 1, k);
    }
  }

  /** Following k links and then one more. */
  lemma {:induction false} FollowFrom(next: map<CmdId, CmdId>, c: CmdId, k: nat, d: CmdId)
    requires Follow(next, c, k) == Some(d) && d in next
    ensures Follow(next, c, k + 1) == Some(next[d])
    decreases k
  {
    if k > 0 {
      FollowFrom(next, next[c], k - 1, d);
    }
  }

  class ForEach {
    /** This command's identity in the command graph. */
    const id: CmdId
    /** The loop variable's name (may hold state references). */
    const name: string
    /** Always "": the two-argument constructor drops its input. */
    var input: string
    /** The cached tokens, absent (null) until the first run. */
    var split: Option<seq<string>>
    /** The position of the current token; -1 before the first token. */
    var index: int
    /** The command's local variable bindings. */
    var with: map<string, string>

    /** The stored input is always empty, and the index is -1 until tokens are cached. */
    ghost predicate Valid()
      reads this
    {
      input == "" && index >= -1 && (split.None? ==> index == -1)
    }

    /** ForEach(name). */
    constructor Named(id: CmdId, name: string)
      ensures Valid()
      ensures this.id == id && this.name == name && input == "" && split == None && index == -1 && with == map[]
    {
      this.id := id;
      this.name := name;
      input := "";
      split := None;
      index := -1;
      with := map[];
    }

    /** ForEach(name, input): the input argument is discarded and the field set to "". */
    constructor (id: CmdId, name: string, input: string)
      ensures Valid()
      ensures this.id == id && this.name == name && this.input == "" && split == None && index == -1 && with == map[]
    {
      this.id := id;
      this.name := name;
      this.input := "";
      split := None;
      index := -1;
      with := map[];
    }

    /**
     * run(input, context). `populate` stands for Cmd.populateStateVariables: it
     * resolves state references in a text given this command's bindings.
     */
    method Run(runInput: string, ctx: SpyContext, populate: (string, map<string, string>) -> string)
      requires Valid()
      modifies this, ctx
      ensures Valid() && input == old(input)
      ensures split == Some(if old(split).Some? then old(split).value else SplitRunInput(runInput))
      ensures ctx.signals == old(ctx.signals)
      ensures var tokens := split.value;
              && (tokens == [] ==> index == old(index) && with == old(with) && ctx.calls == old(ctx.calls))
              && (tokens != [] ==> index == old(index) + 1)
              && (tokens != [] && index < |tokens| ==>
                    with == old(with)[populate(name, old(with)) := tokens[index]] &&
                    ctx.calls == old(ctx.calls) + [NextOf(tokens[index])])
              && (tokens != [] && index >= |tokens| ==>
                    with == old(with) && ctx.calls == old(ctx.calls) + [SkipOf(runInput)])
    {
      if split.None? {
        var toSplit := if input == "" then runInput else populate(input, with);
        split := Some(SplitRunInput(toSplit));
      }
      if split.Some? && split.value != [] {
        var populatedName := populate(name, with);
        index := index + 1;
        if index < |split.value| {
          var value := split.value[index];
          with := with[populatedName := value];
          ctx.Next(value);
        } else {
          ctx.Skip(runInput);
        }
      }
    }

    /** clone(): the same name and bindings, with fresh iteration state. */
    method Clone(newId: CmdId) returns (c: ForEach)
      ensures fresh(c) && c.Valid()
      ensures c.id == newId && c.name == name && c.with == with
      ensures c.input == "" && c.split == None && c.index == -1
    {
      c := new ForEach(newId, name, input);
      c.with := with;
    }

    /**
     * then(command): append `command` to the body, point the previous tail at it
     * and point it back at this loop command; returns what the base `then`
     * returns (this command).
     */
    method Then(g: Graph, command: CmdId) returns (r: CmdId)
      modifies g
      ensures r == id
      ensures g.thens == old(g.thens)[id := Children(old(g.thens), id) + [command]]
      ensures g.parent == old(g.parent)[command := id]
      ensures g.next == old(g.next)[Tail(old(g.thens), id) := command][command := id]
      ensures old(LoopWired(g.thens, g.next, id) && FlatBody(g.thens, id)) &&
              command != id && old(Children(g.thens, command)) == [] && command !in old(Children(g.thens, id))
              ==> LoopWired(g.thens, g.next, id) && FlatBody(g.thens, id)
    {
      ghost var thens0, next0 := g.thens, g.next;
      var currentTail := Tail(g.thens, id);
      r := g.AppendChild(id, command);
      g.ForceNext(currentTail, command);
      g.ForceNext(command, id);
      if LoopWired(thens0, next0, id) && FlatBody(thens0, id) &&
         command != id && Children(thens0, command) == [] && command !in Children(thens0, id) {
        ThenKeepsLoopWired(thens0, next0, id, command);
      }
    }

    /**
     * toString(): the stored input is printed after the name, but it is always
     * empty, so the text is the prefix and the loop variable's name alone.
     */
    function ToString(): (s: string)
      requires Valid()
      reads this
      ensures s == "for-each: " + name
    {
      "for-each: " + name + input
    }
  }

  /**
   * What a fresh for-each has reported after `k` runs over `tokens`: one `next`
   * per token in order, then `skip` with the run input on every later run;
   * nothing at all when there are no tokens.
   */
  function Reported(tokens: seq<string>, runInput: string, k: nat): (calls: seq<Result>)
    ensures |calls| == if tokens == [] then 0 else k
  {
    if tokens == [] then []
    else if k <= |tokens| then NextAll(tokens[..k])
    else NextAll(tokens) + Repeat(SkipOf(runInput), k - |tokens|)
  }

  /** One more run adds the next token's `next`, or a `skip` once the tokens are used up. */
  lemma ReportedStep(tokens: seq<string>, runInput: string, k: nat)
    requires tokens != []
    ensures Reported(tokens, runInput, k + 1) ==
            Reported(tokens, runInput, k) + [if k < |tokens| then NextOf(tokens[k]) else SkipOf(runInput)]
  {
    if k < |tokens| {
      assert tokens[..k + 1] == tokens[..k] + [tokens[k]];
      NextAllAppend(tokens[..k], tokens[k]);
    } else {
      if k == |tokens| {
        assert tokens[..k] == tokens;
      }
      RepeatAppend(SkipOf(runInput), k - |tokens|);
    }
  }

  /**
   * A fresh for-each run 1 + |tokens| + extra times over the same input reports
   * `next` once per token in order, then `skip` with the input on every later
   * run (the index is never reset); with no tokens it reports nothing at all.
   */
  method RunFreshLoop(name: string, runInput: string, populate: (string, map<string, string>) -> string, extra: nat)
    returns (calls: seq<Result>)
    ensures var tokens := SplitRunInput(runInput);
            calls == if tokens == [] then [] else NextAll(tokens) + Repeat(SkipOf(runInput), extra + 1)
  {
    var fe := new ForEach.Named(0, name);
    var ctx := new SpyContext(map[]);
    var tokens := SplitRunInput(runInput);
    var total := |tokens| + 1 + extra;
    var k := 0;
    while k < total
      invariant 0 <= k <= total
      invariant fe.Valid() && fe.input == ""
      invariant k == 0 ==> fe.split == None
      invariant k > 0 ==> fe.split == Some(tokens)
      invariant k > 0 && tokens != [] ==> fe.index == k - 1
      invariant ctx.calls == Reported(tokens, runInput, k)
    {
      fe.Run(runInput, ctx, populate);
      if tokens != [] {
        ReportedStep(tokens, runInput, k);
      }
      k := k + 1;
    }
    calls := ctx.calls;
  }

  lemma {:induction false} NextAllAppend(ts: seq<string>, t: string)
    ensures NextAll(ts + [t]) == NextAll(ts) + [NextOf(t)]
  {
  }
}
