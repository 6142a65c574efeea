/**
 * The wiring of a command tree, standing for the parts of the Cmd base class the
 * loop commands call: `then` (append a child), `forceNext` (overwrite the
 * successor link), `getTail` and `getSkip`. Commands are named by identities
 * (`CmdId`) so that links may form cycles, as the loop commands need.
 */
module CmdGraph {
  import opened Wrappers

  type CmdId = nat

  /** The children of `c` in order (a command without an entry has none). */
  function Children(thens: map<CmdId, seq<CmdId>>, c: CmdId): seq<CmdId> {
    if c in thens then thens[c] else []
  }

  /**
   * getTail: a command without children is its own tail; otherwise the tail of
   * its last child. Each step leaves `c` out of the map, so a malformed cyclic
   * child relation still ends.
   */
  function Tail(thens: map<CmdId, seq<CmdId>>, c: CmdId): CmdId
    decreases |thens|
  {
    if c in thens && thens[c] != [] then Tail(thens - {c}, thens[c][|thens[c]| - 1]) else c
  }

  /** The position of `c` among `cs`, if it is there. */
  function IndexIn(cs: seq<CmdId>, c: CmdId): (r: Option<nat>)
    ensures r.Some? ==> r.value < |cs| && cs[r.value] == c
    ensures r.None? ==> c !in cs
  {
    if cs == [] then None
    else if cs[0] == c then Some(0)
    else
      match IndexIn(cs[1..], c)
      case None => None
      case Some(i) => Some(i + 1)
  }

  /**
   * getSkip: where execution resumes once `c` and everything under it is done:
   * the command after `c` in its parent's children; for the last child, the
   * parent itself when the parent loops (`loops`: the for-each and
   * repeat-until commands), or else the skip target of the parent; a command
   * without a parent has none (null).
   */
  function SkipTarget(thens: map<CmdId, seq<CmdId>>, parent: map<CmdId, CmdId>, loops: set<CmdId>, c: CmdId): Option<CmdId>
    decreases |parent|
  {
    if c !in parent then None
    else
      var p := parent[c];
      var sibs := Children(thens, p);
      match IndexIn(sibs, c)
      case Some(i) =>
        if i + 1 < |sibs| then Some(sibs[i + 1])
        else if p in loops then Some(p)
        else SkipTarget(thens, parent - {c}, loops, p)
      case None =>
        if p in loops then Some(p) else SkipTarget(thens, parent - {c}, loops, p)
  }

  /** The command reached from `c` by following `k` successor links, if the links go that far. */
  function Follow(next: map<CmdId, CmdId>, c: CmdId, k: nat): Option<CmdId>
    decreases k
  {
    if k == 0 then Some(c)
    else if c in next then Follow(next, next[c], k - 1)
    else None
  }

  class Graph {
    /** Each command's children, in the order `then` added them. */
    var thens: map<CmdId, seq<CmdId>>
    /** Each child's parent. */
    var parent: map<CmdId, CmdId>
    /** Each command's successor link (`next`). */
    var next: map<CmdId, CmdId>

    constructor ()
      ensures thens == map[] && parent == map[] && next == map[]
    {
      thens, parent, next := map[], map[], map[];
    }

    /** Cmd.forceNext: overwrite the successor of `c`. */
    method ForceNext(c: CmdId, n: CmdId)
      modifies this`next
      ensures next == old(next)[c := n]
    {
      next := next[c := n];
    }

    /** Cmd.then as the base class does it: append `c` to the children of `p` and return `p`. */
    method AppendChild(p: CmdId, c: CmdId) returns (r: CmdId)
      modifies this`thens, this`parent
      ensures thens == old(thens)[p := Children(old(thens), p) + [c]]
      ensures parent == old(parent)[c := p]
      ensures r == p
    {
      thens := thens[p := Children(thens, p) + [c]];
      parent := parent[c := p];
      r := p;
    }
  }

  /** A command without children is its own tail. */
  lemma ChildlessIsOwnTail(thens: map<CmdId, seq<CmdId>>, c: CmdId)
    requires Children(thens, c) == []
    ensures Tail(thens, c) == c
  {
  }

  /** The skip target of a command that has a following sibling is that sibling. */
  lemma SkipIsFollowingSibling(thens: map<CmdId, seq<CmdId>>, parent: map<CmdId, CmdId>, loops: set<CmdId>, p: CmdId, i: nat)
    requires i + 1 < |Children(thens, p)|
    requires var c := Children(thens, p)[i]; c in parent && parent[c] == p && c !in Children(thens, p)[..i]
    ensures SkipTarget(thens, parent, loops, Children(thens, p)[i]) == Some(Children(thens, p)[i + 1])
  {
    var sibs := Children(thens, p);
    var c := sibs[i];
    FirstIndex(sibs, i);
  }

  /**
   * The last child of a looping command skips back to that command (so the
   * loop runs its next pass), and the last child of any other command skips
   * where its parent skips.
   */
  lemma SkipOfLastChild(thens: map<CmdId, seq<CmdId>>, parent: map<CmdId, CmdId>, loops: set<CmdId>, p: CmdId)
    requires var sibs := Children(thens, p);
             sibs != [] && sibs[|sibs| - 1] in parent && parent[sibs[|sibs| - 1]] == p && sibs[|sibs| - 1] !in sibs[..|sibs| - 1]
    ensures var c := Children(thens, p)[|Children(thens, p)| - 1];
            SkipTarget(thens, parent, loops, c) == if p in loops then Some(p) else SkipTarget(thens, parent - {c}, loops, p)
  {
    var sibs := Children(thens, p);
    FirstIndex(sibs, |sibs| - 1);
  }

  lemma {:induction false} FirstIndex(cs: seq<CmdId>, i: nat)
    requires i < |cs| && cs[i] !in cs[..i]
    ensures IndexIn(cs, cs[i]) == Some(i)
  {
    if i > 0 {
      assert cs[1..][..i - 1] == cs[..i][1..];
      assert cs[1..][i - 1] == cs[i];
      FirstIndex(cs[1..], i - 1);
    }
  }
}
