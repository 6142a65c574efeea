/**
 * The YAML parser's Builder: two stacks kept side by side. `targets` holds the
 * JSON node that content is currently added to at each depth; `contexts` holds,
 * for the same depth, a small bag of parser facts (the indentation of the
 * entry, whether the node is a child array or an inline list or map). Lookups
 * may search every depth from the innermost outwards.
 */
module YamlBuilder {
  import opened Wrappers
  import opened JsonHeap

  type Context = map<string, Val>

  /**
   * The depths (innermost first) whose context holds `key`; the reference
   * definition for the recursive lookups.
   */
  function Hits(cs: seq<Context>, key: string): (hs: seq<nat>)
    ensures forall j :: 0 <= j < |hs| ==> hs[j] < |cs| && key in cs[hs[j]]
    ensures forall j, l :: 0 <= j < l < |hs| ==> hs[j] > hs[l]
  {
    if cs == [] then []
    else
      var d := |cs| - 1;
      var rest := Hits(cs[..d], key);
      if key in cs[d] then [d] + rest else rest
  }

  /** Every depth that holds `key` is a hit, so no hits means no depth holds it. */
  lemma {:induction false} HitsComplete(cs: seq<Context>, key: string)
    ensures forall d :: 0 <= d < |cs| && key in cs[d] ==> d in Hits(cs, key)
    ensures Hits(cs, key) == [] <==> forall d :: 0 <= d < |cs| ==> key !in cs[d]
  {
    if cs != [] {
      var n := |cs| - 1;
      HitsComplete(cs[..n], key);
      forall d | 0 <= d < n ensures cs[..n][d] == cs[d] {}
    }
  }

  class Builder {
    /** The node content goes into, one per depth. */
    var targets: seq<nat>
    /** The parser facts recorded at each depth. */
    var contexts: seq<Context>

    /** The two stacks always have the same depth, and at least one entry once reset. */
    ghost predicate Valid()
      reads this
    {
      |targets| == |contexts| >= 1
    }

    /** Builder(): both stacks empty until the first reset. */
    constructor ()
      ensures targets == [] && contexts == []
    {
      targets := [];
      contexts := [];
    }

    /** reset(json): `json` becomes the only target, with an empty context. */
    method Reset(json: nat)
      modifies this
      ensures Valid()
      ensures targets == [json] && contexts == [map[]]
    {
      targets := [];
      contexts := [];
      Push(json);
    }

    /** push(target): a new depth with `target` and an empty context. */
    method Push(target: nat)
      modifies this
      ensures targets == old(targets) + [target] && contexts == old(contexts) + [map[]]
    {
      targets := targets + [target];
      contexts := contexts + [map[]];
    }

    /** pop(): drop the innermost depth, but never the bottom one. */
    method Pop()
      requires Valid()
      modifies this
      ensures Valid()
      ensures |old(targets)| > 1 ==> targets == old(targets)[..|old(targets)| - 1] &&
                                     contexts == old(contexts)[..|old(contexts)| - 1]
      ensures |old(targets)| == 1 ==> targets == old(targets) && contexts == old(contexts)
    {
      if |targets| > 1 {
        targets := targets[..|targets| - 1];
        contexts := contexts[..|contexts| - 1];
      }
    }

    /** set(key, value): record a fact in the innermost context. */
    method Set(key: string, value: Val)
      requires Valid()
      modifies this`contexts
      ensures Valid()
      ensures contexts == old(contexts)[|contexts| - 1 := old(contexts)[|contexts| - 1][key := value]]
    {
      contexts := contexts[|contexts| - 1 := contexts[|contexts| - 1][key := value]];
    }

    /** size(). */
    function Size(): (n: nat)
      reads this
      ensures n == |targets|
    {
      |targets|
    }

    /** target(): the innermost target. */
    function Target(): (t: nat)
      requires Valid()
      reads this
      ensures t == targets[|targets| - 1]
    {
      targets[|targets| - 1]
    }

    /**
     * peekTarget(amount): the `amount`-th target counting from the innermost
     * (1 is the innermost), or the bottom one when the stack is not that deep.
     * An amount of 0 or less indexes at or past the top of the stack, which
     * throws (None).
     */
    function PeekTarget(amount: int): (t: Option<nat>)
      requires Valid()
      reads this
      ensures t.None? <==> amount <= 0
      ensures 0 < amount <= |targets| ==> t == Some(targets[|targets| - amount])
      ensures amount > |targets| ==> t == Some(targets[0])
      ensures t.Some? ==> t.value in targets
    {
      if amount <= 0 then None
      else if |targets| >= amount then Some(targets[|targets| - amount])
      else Some(targets[0])
    }

    /**
     * hasAt(key, offset): whether the context `offset` depths out from the
     * innermost holds `key`; false whenever the stack is not deeper than offset+1,
     * so the bottom context is never consulted.
     */
    function HasAt(key: string, offset: nat): (b: bool)
      reads this
      ensures b <==> |contexts| > offset + 1 && key in contexts[|contexts| - (offset + 1)]
      ensures b ==> |contexts| >= 2
    {
      if |contexts| > offset + 1 then key in contexts[|contexts| - (offset + 1)] else false
    }

    /** has(key, recursive): the innermost context only, or any depth. */
    method Has(key: string, recursive: bool) returns (b: bool)
      requires Valid()
      ensures !recursive ==> (b <==> key in contexts[|contexts| - 1])
      ensures recursive ==> (b <==> exists d :: 0 <= d < |contexts| && key in contexts[d])
    {
      if !recursive {
        b := key in contexts[|contexts| - 1];
      } else {
        b := false;
        var i := |contexts| - 1;
        while i >= 0 && !b
          invariant -1 <= i < |contexts|
          invariant b ==> 0 <= i + 1 < |contexts| && key in contexts[i + 1]
          invariant !b ==> forall d :: i < d < |contexts| ==> key !in contexts[d]
        {
          b := key in contexts[i];
          i := i - 1;
        }
      }
    }

    /**
     * get(key, recursive, skip): without recursion, the innermost context's
     * value; with recursion, the value at the (skip+1)-th innermost depth that
     * holds the key (a negative skip counts as none), or null (None).
     */
    method Get(key: string, recursive: bool, skip: int) returns (r: Option<Val>)
      requires Valid()
      ensures !recursive ==> r == if key in contexts[|contexts| - 1] then Some(contexts[|contexts| - 1][key]) else None
      ensures recursive ==>
                var hs := Hits(contexts, key);
                var s := if skip < 0 then 0 else skip;
                r == if s < |hs| then Some(contexts[hs[s]][key]) else None
    {
      if !recursive {
        r := if key in contexts[|contexts| - 1] then Some(contexts[|contexts| - 1][key]) else None;
      } else {
        var left := skip;
        r := None;
        var i := |contexts| - 1;
        while i >= 0 && r.None?
          invariant -1 <= i < |contexts|
          invariant r.None? ==> LookFrom(contexts, key, i, left) == LookFrom(contexts, key, |contexts| - 1, skip)
          invariant r.Some? ==> r == LookFrom(contexts, key, |contexts| - 1, skip)
          decreases i
        {
          r := if key in contexts[i] then Some(contexts[i][key]) else None;
          i := i - 1;
          if r.Some? && left > 0 {
            left := left - 1;
            r := None;
          }
        }
        LookFromHits(contexts, key, |contexts| - 1, skip);
        assert contexts[..|contexts|] == contexts;
      }
    }

    /** getInt(key, recursive): the nearest value if it is a number, else 0. */
    method GetInt(key: string, recursive: bool) returns (n: int)
      requires Valid()
      ensures !recursive ==> n == if key in contexts[|contexts| - 1] && contexts[|contexts| - 1][key].VInt?
                                  then contexts[|contexts| - 1][key].num else 0
      ensures recursive ==> n == NearestInt(contexts, key)
    {
      var obj := Get(key, recursive, 0);
      n := if obj.Some? && obj.value.VInt? then obj.value.num else 0;
    }

    /** getString(key, recursive): the nearest value if it is a text, else "". */
    method GetString(key: string, recursive: bool) returns (s: string)
      requires Valid()
      ensures !recursive ==> s == if key in contexts[|contexts| - 1] && contexts[|contexts| - 1][key].VStr?
                                  then contexts[|contexts| - 1][key].str else ""
      ensures recursive ==>
                var hs := Hits(contexts, key);
                s == if |hs| > 0 && contexts[hs[0]][key].VStr? then contexts[hs[0]][key].str else ""
    {
      var obj := Get(key, recursive, 0);
      s := if obj.Some? && obj.value.VStr? then obj.value.str else "";
    }
  }

  /**
   * The search `get` performs, from depth `i` outwards with `left` matches
   * still to pass over.
   */
  function LookFrom(cs: seq<Context>, key: string, i: int, left: int): Option<Val>
    requires i < |cs|
    decreases i + 1
  {
    if i < 0 then None
    else if key in cs[i] then (if left > 0 then LookFrom(cs, key, i - 1, left - 1) else Some(cs[i][key]))
    else LookFrom(cs, key, i - 1, left)
  }

  /** The search from depth `i` finds the (left+1)-th hit among depths 0..i. */
  lemma {:induction false} LookFromHits(cs: seq<Context>, key: string, i: int, left: int)
    requires -1 <= i < |cs|
    ensures var hs := Hits(cs[..i + 1], key);
            var s := if left < 0 then 0 else left;
            LookFrom(cs, key, i, left) == if s < |hs| then Some(cs[hs[s]][key]) else None
    decreases i + 1
  {
    if i >= 0 {
      LookFromHits(cs, key, i - 1, if key in cs[i] && left > 0 then left - 1 else left);
      HitsStep(cs[..i + 1], key);
      assert cs[..i + 1][..i] == cs[..i];
    }
  }

  /** One step of the recursive search: the innermost context, then the rest. */
  lemma HitsStep(cs: seq<Context>, key: string)
    requires cs != []
    ensures Hits(cs, key) == (if key in cs[|cs| - 1] then [|cs| - 1] else []) + Hits(cs[..|cs| - 1], key)
  {
  }

  /**
   * The number held at the innermost depth that has `key`, or 0 when that value
   * is not a number or no depth has the key; what a recursive getInt returns.
   */
  function NearestInt(cs: seq<Context>, key: string): (n: int)
  {
    var hs := Hits(cs, key);
    if |hs| > 0 && cs[hs[0]][key].VInt? then cs[hs[0]][key].num else 0
  }

  /** The nearest number is the one at the deepest depth holding the key; with none, 0. */
  lemma NearestIntIsInnermost(cs: seq<Context>, key: string)
    ensures (forall d :: 0 <= d < |cs| ==> key !in cs[d]) ==> NearestInt(cs, key) == 0
    ensures forall d :: (0 <= d < |cs| && key in cs[d] && cs[d][key].VInt? &&
                         (forall e :: d < e < |cs| ==> key !in cs[e])) ==> NearestInt(cs, key) == cs[d][key].num
  {
    var hs := Hits(cs, key);
    HitsComplete(cs, key);
    forall d | 0 <= d < |cs| && key in cs[d] && cs[d][key].VInt? && (forall e :: d < e < |cs| ==> key !in cs[e])
      ensures NearestInt(cs, key) == cs[d][key].num
    {
      assert d in hs;
      assert hs[0] == d;
    }
  }
}
