/**
 * The line-oriented YAML parser. Each file becomes a JSON tree: an array of
 * entries, each entry an object with its `key`, `value`, `lineNumber`, an
 * optional `comment`, a `dashed` flag for entries introduced by `-`, and a
 * `child` array for what is nested under it. Indentation decides nesting; `[`
 * and `{` open inline lists and maps whose entries are separated by `,`.
 * Problems are recorded per file name instead of stopping the parse, and once
 * any problem is recorded no further line content is read.
 *
 * Where the parser never returns (a loop that makes no progress) a step
 * reports `Hung`; where it throws, `Threw`. Neither stores the document.
 */
module Yaml {
  import opened Wrappers
  import opened JavaString
  import opened JsonHeap
  import opened YamlBuilder
  import opened YamlScan

  const CHILD: string := "child"
  const DASHED: string := "dashed"
  const KEY: string := "key"
  const VALUE: string := "value"
  const COMMENT: string := "comment"
  const LINE_NUMBER: string := "lineNumber"
  const CHILD_LENGTH: string := "childLength"
  const CHILD_ARRAY: string := "childArray"
  const INLINE_MAP: string := "inlineMap"
  const INLINE_LIST: string := "inlineList"

  /** A recorded problem; the message text is reduced to its kind and line number. */
  datatype ParseError =
    | DashInsideInline(line: nat)
    | MismatchedClose(found: InlineKind, line: nat)
    | KeyAlreadyExists(line: nat)
    | ExpectingKeyValue(line: nat)
    | UnclosedInline(open: seq<InlineKind>)

  /** How a step ended: normally, in a loop that never ends, or with an exception. */
  datatype Outcome = Completed | Hung | Threw

  /** The builder fact that marks an open inline structure of this kind. */
  function InlineKey(k: InlineKind): string {
    match k
    case InlineList => INLINE_LIST
    case InlineMap => INLINE_MAP
  }

  /** The innermost open inline structure. */
  function Top(inline: seq<InlineKind>): (t: Option<InlineKind>)
    ensures t.None? <==> inline == []
  {
    if inline == [] then None else Some(inline[|inline| - 1])
  }

  /** Lines the parser passes over: document markers `---` and `...`, and blank lines. */
  predicate Skipped(line: string) {
    var t := Trim(line);
    StartsWith(t, "---") || StartsWith(t, "...") || t == []
  }

  function ErrorsOf(errors: map<string, seq<ParseError>>, file: string): seq<ParseError> {
    if file in errors then errors[file] else []
  }

  /** The last problem recorded for `file` is that the inline structures `open` were never closed. */
  predicate LastIsUnclosed(errors: map<string, seq<ParseError>>, file: string, open: seq<InlineKind>) {
    var es := ErrorsOf(errors, file);
    es != [] && es[|es| - 1] == UnclosedInline(open)
  }

  /** `e1` keeps every error of `e0` and adds new ones only under `file`, at the end. */
  predicate ErrorsExtend(e0: map<string, seq<ParseError>>, e1: map<string, seq<ParseError>>, file: string) {
    && (e1 == e0 || e1 == e0[file := ErrorsOf(e1, file)])
    && ErrorsOf(e0, file) <= ErrorsOf(e1, file)
  }

  /**
   * What the value part of a key line leaves: the stored value, if any, and the
   * rest of the line. After the key, a `:` starts the value unless what follows
   * starts a comment or an inline structure; the value runs to where the value
   * scanner stops and is stored only when that is more than one character.
   */
  function AfterKey(rest: string, top: Option<InlineKind>): (r: (Option<string>, string))
    ensures |r.1| <= |rest|
  {
    if !StartsWith(rest, ":") then (None, rest)
    else
      var v := Trim(rest[1..]);
      if StartsWith(v, "#") || StartsWith(v, "[") || StartsWith(v, "{") then (None, v)
      else
        var e := ValueEnd(v, top);
        if e > 1 then (Some(v[..e]), Trim(v[e..])) else (None, v)
  }

  /** The entry a key line makes: key, line number, the dash flag and the value. */
  function EntryData(key: string, lineNo: nat, dashed: bool, value: Option<string>): (m: map<Key, Val>)
    ensures KStr(KEY) in m && m[KStr(KEY)] == VStr(key)
    ensures KStr(LINE_NUMBER) in m && m[KStr(LINE_NUMBER)] == VInt(lineNo)
    ensures KStr(DASHED) in m <==> dashed
    ensures KStr(VALUE) in m <==> value.Some?
    ensures value.Some? ==> m[KStr(VALUE)] == VStr(value.value)
    ensures m.Keys <= {KStr(KEY), KStr(LINE_NUMBER), KStr(DASHED), KStr(VALUE)}
  {
    var m := map[KStr(KEY) := VStr(key), KStr(LINE_NUMBER) := VInt(lineNo)];
    var m2 := if dashed then m[KStr(DASHED) := VBool(true)] else m;
    if value.Some? then m2[KStr(VALUE) := VStr(value.value)] else m2
  }

  /**
   * A value is stored only when it is longer than one character: a value of
   * exactly one character stays on the line (where it is then read as a key).
   */
  lemma ShortValueStaysOnLine(rest: string, top: Option<InlineKind>)
    requires StartsWith(rest, ":")
    requires var v := Trim(rest[1..]);
             !StartsWith(v, "#") && !StartsWith(v, "[") && !StartsWith(v, "{") && ValueEnd(v, top) <= 1
    ensures AfterKey(rest, top) == (None, Trim(rest[1..]))
  {
  }

  /**
   * A stored value is the start of the text after the colon, longer than one
   * character, and it ends at the end of the line or just before a character
   * that stops values inside the innermost inline structure.
   */
  lemma StoredValueIsScannedPrefix(rest: string, top: Option<InlineKind>)
    ensures var (value, left) := AfterKey(rest, top);
            value.Some? ==>
              StartsWith(rest, ":") &&
              var v := Trim(rest[1..]);
              && |value.value| > 1 && value.value == v[..|value.value|]
              && StopsAt(v, |value.value|, top)
              && left == Trim(v[|value.value|..])
  {
    if StartsWith(rest, ":") {
      var v := Trim(rest[1..]);
      if !(StartsWith(v, "#") || StartsWith(v, "[") || StartsWith(v, "{")) {
        var e := ValueEnd(v, top);
        ScanStopsOnlyAtStopChars(v, 0, false, false, top);
        assert StopsAt(v, e, top);
        if e > 1 {
          assert AfterKey(rest, top) == (Some(v[..e]), Trim(v[e..]));
          assert |v[..e]| == e;
        }
      }
    }
  }

  /**
   * Outside inline structures a value with no `#` after the colon takes the
   * whole trimmed rest of the line, commas and brackets included.
   */
  lemma PlainValueTakesRestOfLine(rest: string)
    requires StartsWith(rest, ":")
    requires var v := Trim(rest[1..]);
             |v| > 1 && v[0] != '[' && v[0] != '{' && '#' !in v
    ensures AfterKey(rest, None) == (Some(Trim(rest[1..])), "")
  {
    var v := Trim(rest[1..]);
    PlainValueEnd(v);
    StoredValue(rest, None, v, |v|);
    TakeAll(v);
  }

  /** Up to the end of a line is the whole line, and nothing is left after it. */
  lemma TakeAll(v: string)
    ensures v[..|v|] == v && Trim(v[|v|..]) == ""
  {
    assert v[|v|..] == [];
  }

  /** The value stored when the scan ends past the first character. */
  lemma StoredValue(rest: string, top: Option<InlineKind>, v: string, e: nat)
    requires StartsWith(rest, ":") && v == Trim(rest[1..])
    requires !StartsWith(v, "#") && !StartsWith(v, "[") && !StartsWith(v, "{")
    requires e == ValueEnd(v, top) && e > 1
    ensures AfterKey(rest, top) == (Some(v[..e]), Trim(v[e..]))
  {
  }

  /** A line with no `#` outside inline structures is one value, up to its end. */
  lemma PlainValueEnd(v: string)
    requires |v| > 1 && v[0] != '[' && v[0] != '{' && '#' !in v
    ensures !StartsWith(v, "#") && !StartsWith(v, "[") && !StartsWith(v, "{")
    ensures ValueEnd(v, None) == |v|
  {
    assert v[..1] == [v[0]];
    forall j | 0 <= j < |v|
      ensures v[j] != '#'
    {
      assert v[j] in v;
    }
    ScanToEndOutsideInline(v, 0, false, false);
  }

  /** A prefix of a prefix of `a` is a prefix of `a`: popping twice keeps the stacks' bottoms. */
  lemma PrefixOfPrefix<T>(a: seq<T>, b: seq<T>, c: seq<T>)
    requires |b| <= |a| && b == a[..|b|] && |c| <= |b| && c == b[..|c|]
    ensures c == a[..|c|]
  {
  }

  /** No level of stack `ts` from `from` up is an array node of `h`. */
  ghost predicate NoArrayFrom(h: Heap, ts: seq<nat>, from: int) {
    forall d :: 0 <= d < |ts| && from <= d ==> ts[d] < |h| && !h[ts[d]].isArray
  }

  /** No context of `cs` from `from` up holds `key`. */
  predicate NoKeyFrom(cs: seq<Context>, key: string, from: int) {
    forall d :: 0 <= d < |cs| && from <= d ==> key !in cs[d]
  }

  /**
   * No context of `cs` from `from` up to the one below the innermost marks an
   * inline list or map; the bottom context is left out, since `hasAt(key, 1)`
   * never looks at it.
   */
  predicate NoInlineFrom(cs: seq<Context>, from: int) {
    forall d :: 1 <= d < |cs| - 1 && from <= d ==> INLINE_LIST !in cs[d] && INLINE_MAP !in cs[d]
  }

  /**
   * The elder branch pops a level whose stack of contexts is `cs`: the line
   * is less indented than the nearest recorded indentation, or the innermost
   * context marks a child array.
   */
  predicate ElderPops(childLength: nat, cs: seq<Context>)
    requires |cs| >= 1
  {
    childLength < NearestInt(cs, CHILD_LENGTH) || CHILD_ARRAY in cs[|cs| - 1]
  }

  /** The elder branch pops at depth `d` of contexts `cs` (the level whose stack is `cs[..d + 1]`). */
  predicate PopsAt(childLength: nat, cs: seq<Context>, d: nat)
    requires d < |cs|
  {
    ElderPops(childLength, cs[..d + 1])
  }

  /** Whether the elder branch pops at a depth does not depend on the levels above it. */
  /** Every level of `cs` from depth `n` up meets the elder branch's pop test. */
  predicate PopsFrom(childLength: nat, cs: seq<Context>, n: nat) {
    forall d :: n <= d < |cs| ==> PopsAt(childLength, cs, d)
  }

  /** One more level popped that met the test. */
  lemma PopsFromStep(childLength: nat, cs: seq<Context>, n: nat)
    requires 1 <= n <= |cs| && PopsFrom(childLength, cs, n) && PopsAt(childLength, cs, n - 1)
    ensures PopsFrom(childLength, cs, n - 1)
  {
  }

  /** Whether level `|c| - 1` of `c0` pops is decided by the prefix `c` alone. */
  lemma PopsAtTop(childLength: nat, c0: seq<Context>, c: seq<Context>)
    requires 1 <= |c| <= |c0| && c == c0[..|c|]
    ensures PopsAt(childLength, c0, |c| - 1) == ElderPops(childLength, c)
  {
    assert c0[..|c| - 1 + 1] == c;
  }

  lemma PopsAtPrefix(childLength: nat, cs: seq<Context>, n: nat, d: nat)
    requires d < n <= |cs|
    ensures PopsAt(childLength, cs[..n], d) == PopsAt(childLength, cs, d)
  {
    assert cs[..n][..d + 1] == cs[..d + 1];
  }

  /**
   * The depth at which the elder branch's pops stop, starting from contexts
   * `cs`: the deepest depth at which `ElderPops` fails, or 0 when it holds
   * at every depth (the loop then spins at the bottom).
   */
  function ElderDepth(childLength: nat, cs: seq<Context>): (k: nat)
    ensures k <= |cs|
    decreases |cs|
  {
    if |cs| == 0 then 0
    else if !ElderPops(childLength, cs) then |cs|
    else ElderDepth(childLength, cs[..|cs| - 1])
  }

  /**
   * A stop depth `k` with the pops happening at every depth from `k` up,
   * and not at the depth below `k` (when `k` is not 0), is the elder depth.
   */
  lemma {:induction false} ElderDepthUnique(childLength: nat, cs: seq<Context>, k: nat)
    requires k <= |cs|
    requires 1 <= k ==> !PopsAt(childLength, cs, k - 1)
    requires PopsFrom(childLength, cs, k)
    ensures ElderDepth(childLength, cs) == k
    decreases |cs|
  {
    if k < |cs| {
      var n := |cs| - 1;
      assert PopsAt(childLength, cs, n);
      assert cs[..n + 1] == cs;
      var cs' := cs[..n];
      forall d | k <= d < n
        ensures PopsAt(childLength, cs', d)
      {
        PopsAtPrefix(childLength, cs, n, d);
      }
      if 1 <= k {
        PopsAtPrefix(childLength, cs, n, k - 1);
      }
      ElderDepthUnique(childLength, cs', k);
    } else if 1 <= k {
      assert cs[..k - 1 + 1] == cs;
    }
  }

  /**
   * `h1` is `h0` with one new object `e`, holding `d`, added to node `p` as
   * its next element (`p.add(e)`); every other node is unchanged.
   */
  ghost predicate EntryAdded(h0: Heap, h1: Heap, p: nat, e: nat, d: map<Key, Val>) {
    && p < |h0| && e == |h0| && |h1| == e + 1
    && h1[e] == Node(false, d)
    && h1[p] == Node(h0[p].isArray, h0[p].data[KIdx(|h0[p].data|) := VRef(e)])
    && (forall n :: 0 <= n < |h0| && n != p ==> h1[n] == h0[n])
  }

  /**
   * From stacks `t0`/`c0` and heap `h0` to `t1`/`c1` and `h1`: a new entry
   * holding `d` has been added as the next element of the node below it on
   * the stack, and pushed with an empty context. That node is the old target
   * when the old target was empty or an array; otherwise it is the nearest
   * array target below it: the stacks below the entry are a prefix of the
   * old ones, and no level popped was an array.
   */
  ghost predicate AddedEntry(t0: seq<nat>, c0: seq<Context>, h0: Heap,
                             t1: seq<nat>, c1: seq<Context>, h1: Heap, d: map<Key, Val>)
    requires |t0| >= 1 && t0[|t0| - 1] < |h0|
  {
    var n := |t1|;
    var top := t0[|t0| - 1];
    && 2 <= n <= |t0| + 1 && n == |c1| && n <= |c0| + 1
    && t1[..n - 1] == t0[..n - 1] && c1[..n - 1] == c0[..n - 1]
    && c1[n - 1] == map[]
    && EntryAdded(h0, h1, t1[n - 2], t1[n - 1], d)
    && (h0[top].data == map[] || h0[top].isArray ==> n == |t0| + 1)
    && (!(h0[top].data == map[] || h0[top].isArray) ==> h0[t1[n - 2]].isArray)
    && NoArrayFrom(h0, t0, n - 1)
  }

  /** An entry pushed onto a prefix `tm`/`cm` of the old stacks, ending at the right level, is an added entry. */
  lemma AddedByPush(t0: seq<nat>, c0: seq<Context>, h0: Heap, tm: seq<nat>, cm: seq<Context>,
                    t1: seq<nat>, c1: seq<Context>, h1: Heap)
    requires |t0| >= 1 && t0[|t0| - 1] < |h0|
    requires 1 <= |tm| == |cm| && |tm| <= |t0| && |cm| <= |c0| && tm == t0[..|tm|] && cm == c0[..|cm|]
    requires t1 == tm + [|h0|] && c1 == cm + [map[]]
    requires EntryAdded(h0, h1, tm[|tm| - 1], |h0|, map[])
    requires NoArrayFrom(h0, t0, |tm|)
    requires var top := t0[|t0| - 1];
             && (h0[top].data == map[] || h0[top].isArray ==> |tm| == |t0|)
             && (!(h0[top].data == map[] || h0[top].isArray) ==> h0[tm[|tm| - 1]].isArray)
    ensures AddedEntry(t0, c0, h0, t1, c1, h1, map[])
  {
    assert t1[..|tm|] == tm && c1[..|cm|] == cm;
  }

  /**
   * The stacks and heap `t1`/`c1`/`h1` hold a dash entry made from
   * `t0`/`c0`/`h0`: a new empty entry added as the next element of the
   * nearest level marked as a child array, and pushed; below it the stacks
   * are a prefix of the old ones, and no level popped was marked.
   */
  ghost predicate DashedEntry(t0: seq<nat>, c0: seq<Context>, h0: Heap, t1: seq<nat>, c1: seq<Context>, h1: Heap) {
    var n := |t1|;
    && 2 <= n <= |t0| + 1 && n == |c1| && n <= |c0| + 1
    && t1[..n - 1] == t0[..n - 1] && c1[..n - 1] == c0[..n - 1]
    && CHILD_ARRAY in c1[n - 2]
    && NoKeyFrom(c0, CHILD_ARRAY, n - 1)
    && EntryAdded(h0, h1, t1[n - 2], t1[n - 1], map[])
  }

  /**
   * Popping to a child array and pushing a new entry added to it makes a
   * dash entry, whatever the new entry's context.
   */
  lemma DashFromPush(t0: seq<nat>, c0: seq<Context>, h0: Heap, tm: seq<nat>, cm: seq<Context>,
                     h1: Heap, e: nat, top: Context)
    requires 1 <= |tm| <= |t0| && tm == t0[..|tm|] && |cm| == |tm| && |cm| <= |c0| && cm == c0[..|cm|]
    requires CHILD_ARRAY in cm[|cm| - 1] && NoKeyFrom(c0, CHILD_ARRAY, |cm|)
    requires EntryAdded(h0, h1, tm[|tm| - 1], e, map[])
    ensures DashedEntry(t0, c0, h0, tm + [e], cm + [top], h1)
  {
    assert (tm + [e])[..|tm|] == tm;
    assert (cm + [top])[..|cm|] == cm;
  }

  /** Filling the added entry in place keeps it the added entry. */
  lemma EntryFilled(t0: seq<nat>, c0: seq<Context>, h0: Heap, t1: seq<nat>, c1: seq<Context>,
                    h1: Heap, h2: Heap, d: map<Key, Val>)
    requires |t0| >= 1 && t0[|t0| - 1] < |h0|
    requires AddedEntry(t0, c0, h0, t1, c1, h1, map[])
    requires h2 == h1[t1[|t1| - 1] := Node(false, d)]
    ensures AddedEntry(t0, c0, h0, t1, c1, h2, d)
  {
  }

  /** `h` with a new, empty array stored under `child` of node `t` (`t.add(CHILD, new Json())` on a node without one). */
  function WithChildArray(h: Heap, t: nat): (r: Heap)
    requires t < |h|
    ensures |r| == |h| + 1 && r[|h|] == Node(true, map[])
    ensures r[t] == Node(h[t].isArray, h[t].data[KStr(CHILD) := VRef(|h|)])
    ensures forall n :: 0 <= n < |h| && n != t ==> r[n] == h[n]
  {
    Put(Alloc(h, true), t, KStr(CHILD), VRef(|h|))
  }

  class YamlParser {
    /** The parser's Builder, reset at the start of every load. */
    const builder: Builder
    /** Every JSON node made so far. */
    var heap: Heap
    /** The problems recorded, by file name, in the order they were found. */
    var fileErrors: map<string, seq<ParseError>>
    /** The document loaded from each file name. */
    var loaded: map<string, nat>
    /** The file names in the order they were first loaded. */
    var order: seq<string>

    ghost predicate Valid()
      reads this, builder
    {
      && |builder.targets| == |builder.contexts|
      && Closed(heap)
      && (forall i :: 0 <= i < |builder.targets| ==> builder.targets[i] < |heap|)
      && (forall n :: n in loaded ==> loaded[n] < |heap|)
      && (forall n :: n in loaded <==> n in order)
      && (forall i, j :: 0 <= i < j < |order| ==> order[i] != order[j])
    }

    /** Valid, and the builder has been reset (during a load). */
    ghost predicate Ready()
      reads this, builder
    {
      Valid() && builder.Valid()
    }

    /** The builder stacks are a non-empty prefix of the given ones. */
    ghost predicate Shrunk(t0: seq<nat>, c0: seq<Context>)
      reads builder
    {
      1 <= |builder.targets| <= |t0| && |builder.contexts| <= |c0|
      && builder.targets == t0[..|builder.targets|] && builder.contexts == c0[..|builder.contexts|]
    }

    /** The builder and the heap hold a dash entry made from `t0`/`c0`/`h0` (see `DashedEntry`). */
    ghost predicate DashEntry(t0: seq<nat>, c0: seq<Context>, h0: Heap)
      reads this, builder
    {
      DashedEntry(t0, c0, h0, builder.targets, builder.contexts, heap)
    }

    constructor ()
      ensures Valid() && fresh(builder)
      ensures heap == [] && fileErrors == map[] && loaded == map[] && order == []
    {
      builder := new Builder();
      heap := [];
      fileErrors := map[];
      loaded := map[];
      order := [];
    }

    /** hasErrors(): whether any problem has been recorded, for any file. */
    function HasErrors(): (b: bool)
      reads this
      ensures b <==> exists f :: f in fileErrors
    {
      fileErrors != map[]
    }

    /** fileNames(): the loaded file names, in load order. */
    function FileNames(): (names: seq<string>)
      reads this
      ensures names == order
    {
      order
    }

    method NewJson(isArray: bool) returns (r: nat)
      modifies this`heap
      ensures heap == Alloc(old(heap), isArray) && r == |old(heap)|
    {
      r := |heap|;
      heap := Alloc(heap, isArray);
    }

    method Add(n: nat, v: Val)
      requires n < |heap|
      modifies this`heap
      ensures heap == Append(old(heap), n, v)
    {
      heap := Append(heap, n, v);
    }

    method SetField(n: nat, key: string, v: Val)
      requires n < |heap|
      modifies this`heap
      ensures heap == Put(old(heap), n, KStr(key), v)
    {
      heap := Put(heap, n, KStr(key), v);
    }

    method AddField(n: nat, key: string, v: Val)
      requires Closed(heap) && n < |heap| && ValIn(v, |heap|)
      modifies this`heap
      ensures heap == AddKeyed(old(heap), n, KStr(key), v)
    {
      heap := AddKeyed(heap, n, KStr(key), v);
    }

    method AddError(file: string, e: ParseError)
      modifies this`fileErrors
      ensures fileErrors == old(fileErrors)[file := ErrorsOf(old(fileErrors), file) + [e]]
      ensures ErrorsExtend(old(fileErrors), fileErrors, file) && HasErrors()
    {
      ErrorsExtendByOne(fileErrors, file, e);
      fileErrors := fileErrors[file := ErrorsOf(fileErrors, file) + [e]];
    }

    // ---- the "pop until" loops; each spins forever once only the bottom is left ----

    /** Pop until the innermost context is a child array (in load's elder and sibling branches for a dashed line). */
    method PopToChildArray() returns (out: Outcome)
      requires Ready()
      modifies builder
      ensures Ready() && Shrunk(old(builder.targets), old(builder.contexts)) && out != Threw
      ensures out == Completed <==> CHILD_ARRAY in builder.contexts[|builder.contexts| - 1]
      ensures NoKeyFrom(old(builder.contexts), CHILD_ARRAY, |builder.contexts|)
      ensures out == Hung ==> |builder.targets| == 1
    {
      var has := builder.Has(CHILD_ARRAY, false);
      while !has
        invariant Ready() && Shrunk(old(builder.targets), old(builder.contexts))
        invariant has <==> CHILD_ARRAY in builder.contexts[|builder.contexts| - 1]
        invariant NoKeyFrom(old(builder.contexts), CHILD_ARRAY, |builder.contexts|)
        decreases |builder.targets|
      {
        if builder.Size() == 1 {
          return Hung;
        }
        assert old(builder.contexts)[|builder.contexts| - 1] == builder.contexts[|builder.contexts| - 1];
        builder.Pop();
        has := builder.Has(CHILD_ARRAY, false);
      }
      out := Completed;
    }

    /** Pop until the innermost target is an array (in load's sibling branch without a dash, and before a key's new entry). */
    method PopToArrayTarget() returns (out: Outcome)
      requires Ready()
      modifies builder
      ensures Ready() && Shrunk(old(builder.targets), old(builder.contexts)) && out != Threw
      ensures out == Completed <==> heap[builder.Target()].isArray
      ensures NoArrayFrom(heap, old(builder.targets), |builder.targets|)
      ensures out == Hung ==> |builder.targets| == 1
    {
      while !heap[builder.Target()].isArray
        invariant Ready() && Shrunk(old(builder.targets), old(builder.contexts))
        invariant NoArrayFrom(heap, old(builder.targets), |builder.targets|)
        decreases |builder.targets|
      {
        if builder.Size() == 1 {
          return Hung;
        }
        assert old(builder.targets)[|builder.targets| - 1] == builder.Target();
        builder.Pop();
      }
      out := Completed;
    }

    /**
     * Pop while the line is less indented than the nearest recorded indentation
     * or the innermost context is a child array (load's elder branch).
     */
    method PopToElder(childLength: nat) returns (out: Outcome)
      requires Ready()
      modifies builder
      ensures Ready() && Shrunk(old(builder.targets), old(builder.contexts)) && out != Threw
      ensures out == Completed <==>
                !(childLength < NearestInt(builder.contexts, CHILD_LENGTH)) &&
                CHILD_ARRAY !in builder.contexts[|builder.contexts| - 1]
      ensures PopsFrom(childLength, old(builder.contexts), |builder.contexts|)
      ensures out == Hung ==> |builder.targets| == 1 && PopsFrom(childLength, old(builder.contexts), 0)
    {
      var l := builder.GetInt(CHILD_LENGTH, true);
      var has := builder.Has(CHILD_ARRAY, false);
      while childLength < l || has
        invariant Ready() && Shrunk(old(builder.targets), old(builder.contexts))
        invariant l == NearestInt(builder.contexts, CHILD_LENGTH)
        invariant has <==> CHILD_ARRAY in builder.contexts[|builder.contexts| - 1]
        invariant PopsFrom(childLength, old(builder.contexts), |builder.contexts|)
        decreases |builder.targets|
      {
        PopsAtTop(childLength, old(builder.contexts), builder.contexts);
        if builder.Size() == 1 {
          PopsFromStep(childLength, old(builder.contexts), 1);
          return Hung;
        }
        ghost var t1, c1 := builder.targets, builder.contexts;
        l, has := PopAndLook();
        PrefixOfPrefix(old(builder.targets), t1, builder.targets);
        PrefixOfPrefix(old(builder.contexts), c1, builder.contexts);
        PopsFromStep(childLength, old(builder.contexts), |c1|);
      }
      out := Completed;
    }

    /** One step of the elder branch's pop loop: pop, then read the two facts the loop tests. */
    method PopAndLook() returns (l: int, has: bool)
      requires Ready() && |builder.targets| > 1
      modifies builder
      ensures Ready() && Shrunk(old(builder.targets), old(builder.contexts))
      ensures |builder.targets| == |old(builder.targets)| - 1
      ensures l == NearestInt(builder.contexts, CHILD_LENGTH)
      ensures has <==> CHILD_ARRAY in builder.contexts[|builder.contexts| - 1]
    {
      builder.Pop();
      l := builder.GetInt(CHILD_LENGTH, true);
      has := builder.Has(CHILD_ARRAY, false);
    }

    /** Pop until the context one out from the innermost marks an inline list or map (load's comma case). */
    method PopToInlineEntry() returns (out: Outcome)
      requires Ready()
      modifies builder
      ensures Ready() && Shrunk(old(builder.targets), old(builder.contexts)) && out != Threw
      ensures out == Completed <==> builder.HasAt(INLINE_LIST, 1) || builder.HasAt(INLINE_MAP, 1)
      ensures NoInlineFrom(old(builder.contexts), |builder.contexts| - 1)
      ensures out == Hung ==> |builder.targets| == 1
    {
      while !builder.HasAt(INLINE_LIST, 1) && !builder.HasAt(INLINE_MAP, 1)
        invariant Ready() && Shrunk(old(builder.targets), old(builder.contexts))
        invariant NoInlineFrom(old(builder.contexts), |builder.contexts| - 1)
        decreases |builder.targets|
      {
        if builder.Size() == 1 {
          return Hung;
        }
        assert |builder.contexts| > 2 ==> old(builder.contexts)[|builder.contexts| - 2] == builder.contexts[|builder.contexts| - 2];
        builder.Pop();
      }
      out := Completed;
    }

    /**
     * Pop until the innermost context holds `key` (or only the bottom is left),
     * then pop once more (load's `]` and `}` cases). This loop always ends: it
     * stops at depth one.
     */
    method PopPast(key: string)
      requires Ready()
      modifies builder
      ensures Ready() && Shrunk(old(builder.targets), old(builder.contexts))
      ensures |old(builder.targets)| == 1 ==> builder.targets == old(builder.targets)
      ensures |old(builder.targets)| > 1 ==>
                var n := |builder.targets|;
                && n < |old(builder.targets)|
                && (forall d :: n < d < |old(builder.contexts)| ==> key !in old(builder.contexts)[d])
                && (key in old(builder.contexts)[n] || n == 1)
    {
      var has := builder.Has(key, false);
      while !has && builder.Size() > 1
        invariant Ready() && Shrunk(old(builder.targets), old(builder.contexts))
        invariant has <==> key in builder.contexts[|builder.contexts| - 1]
        invariant forall d :: |builder.contexts| <= d < |old(builder.contexts)| ==> key !in old(builder.contexts)[d]
        decreases |builder.targets|
      {
        builder.Pop();
        has := builder.Has(key, false);
      }
      builder.Pop();
    }

    // ---- nesting by indentation ----

    /**
     * Place the line by its indentation prefix (load's child, elder and sibling branches): deeper than the
     * recorded indentation opens a child array with a new entry; shallower pops
     * back out (and a dash starts a new entry there); equal is a sibling (a dash
     * starts a new entry in the nearest child array, otherwise the nearest
     * array becomes the target). Wherever it records an indentation, it is the
     * line's.
     */
    method Nest(childValue: string, contextLength: int) returns (out: Outcome)
      requires Ready()
      modifies this`heap, builder
      ensures Ready() && |old(heap)| <= |heap|
      ensures fileErrors == old(fileErrors) && loaded == old(loaded) && order == old(order)
      ensures out == Completed && (|childValue| >= contextLength || '-' in childValue) ==>
                var top := builder.contexts[|builder.contexts| - 1];
                CHILD_LENGTH in top && top[CHILD_LENGTH] == VInt(|childValue|)
      ensures out != Completed ==> heap == old(heap)
      ensures out == Completed && |childValue| > contextLength ==> |builder.targets| == |old(builder.targets)| + 2
      ensures out == Completed && |childValue| > contextLength ==>
                var t := old(builder.Target());
                var a := builder.targets[|builder.targets| - 2];
                var e := builder.Target();
                && builder.targets == old(builder.targets) + [a, e]
                && builder.contexts == old(builder.contexts) + [map[CHILD_ARRAY := VBool(true)], map[CHILD_LENGTH := VInt(|childValue|)]]
                && KStr(CHILD) in heap[t].data && heap[t].data[KStr(CHILD)] == VRef(a)
                && EntryAdded(if KStr(CHILD) in old(heap)[t].data then old(heap) else WithChildArray(old(heap), t), heap, a, e, map[])
      ensures out == Completed && |childValue| < contextLength ==>
                var m := ElderDepth(|childValue|, old(builder.contexts));
                && 1 <= m
                && ('-' in childValue ==> DashedEntry(old(builder.targets)[..m], old(builder.contexts)[..m], old(heap),
                                                      builder.targets, builder.contexts, heap))
                && ('-' !in childValue ==>
                      && builder.targets == old(builder.targets)[..m] && builder.contexts == old(builder.contexts)[..m]
                      && !(|childValue| < NearestInt(builder.contexts, CHILD_LENGTH))
                      && CHILD_ARRAY !in builder.contexts[|builder.contexts| - 1])
      ensures out == Completed && |childValue| == contextLength ==>
                && ('-' in childValue ==> DashEntry(old(builder.targets), old(builder.contexts), old(heap)))
                && ('-' !in childValue ==>
                      && 1 <= |builder.targets| <= |old(builder.targets)| && builder.targets == old(builder.targets)[..|builder.targets|]
                      && heap[builder.Target()].isArray && NoArrayFrom(heap, old(builder.targets), |builder.targets|))
      ensures |childValue| <= contextLength && '-' !in childValue ==> heap == old(heap)
    {
      var childLength := |childValue|;
      if childLength > contextLength {
        out := NestChild(childLength);
      } else if childLength < contextLength {
        out := NestElder(childLength, '-' in childValue);
      } else {
        out := NestSibling(childLength, '-' in childValue);
      }
    }

    /** builder.push(node) of a node in the arena: a new depth with an empty context. */
    method PushTarget(t: nat)
      requires Ready() && t < |heap|
      modifies builder
      ensures Ready()
      ensures builder.targets == old(builder.targets) + [t] && builder.contexts == old(builder.contexts) + [map[]]
    {
      builder.Push(t);
    }

    /** A new empty object: added to the innermost target, then pushed as the new target. */
    method PushEntry() returns (e: nat)
      requires Ready()
      modifies this`heap, builder
      ensures Ready() && EntryAdded(old(heap), heap, old(builder.Target()), e, map[])
      ensures builder.targets == old(builder.targets) + [e] && builder.contexts == old(builder.contexts) + [map[]]
    {
      e := NewJson(false);
      Add(builder.Target(), VRef(e));
      PushTarget(e);
    }

    /** A deeper line: a new entry in the target's child array, made when missing. */
    method NestChild(childLength: nat) returns (out: Outcome)
      requires Ready()
      modifies this`heap, builder
      ensures Ready() && |old(heap)| <= |heap|
      ensures fileErrors == old(fileErrors) && loaded == old(loaded) && order == old(order)
      ensures out != Hung
      ensures out == Threw ==> heap == old(heap)
      ensures out == Completed ==> |builder.targets| == |old(builder.targets)| + 2
      ensures out == Completed ==>
                var t := old(builder.Target());
                var a := builder.targets[|builder.targets| - 2];
                var e := builder.Target();
                && builder.targets == old(builder.targets) + [a, e]
                && builder.contexts == old(builder.contexts) + [map[CHILD_ARRAY := VBool(true)], map[CHILD_LENGTH := VInt(childLength)]]
                && KStr(CHILD) in heap[t].data && heap[t].data[KStr(CHILD)] == VRef(a)
                && EntryAdded(if KStr(CHILD) in old(heap)[t].data then old(heap) else WithChildArray(old(heap), t), heap, a, e, map[])
    {
      ghost var t := builder.Target();
      var childAry;
      out, childAry := ChildArray();
      if out == Threw {
        return;
      }
      PushTarget(childAry);
      builder.Set(CHILD_ARRAY, VBool(true));
      var _ := PushEntry();
      builder.Set(CHILD_LENGTH, VInt(childLength));
      assert heap[t].data[KStr(CHILD)] == VRef(childAry) by {
        if t != childAry {
          assert heap[t] == old(heap)[t] || heap[t] == WithChildArray(old(heap), t)[t];
        }
      }
    }

    /**
     * The target's child array: the node under its `child` key, or a new array
     * stored there when the key is missing; a `child` value that is not a node
     * fails.
     */
    method ChildArray() returns (out: Outcome, a: nat)
      requires Ready()
      modifies this`heap
      ensures Ready() && |old(heap)| <= |heap| && out != Hung
      ensures var t := builder.Target();
              && (out == Threw <==> KStr(CHILD) in old(heap)[t].data && !old(heap)[t].data[KStr(CHILD)].VRef?)
              && (out == Threw ==> heap == old(heap))
              && (out == Completed ==>
                    && a < |heap| && KStr(CHILD) in heap[t].data && heap[t].data[KStr(CHILD)] == VRef(a)
                    && (KStr(CHILD) in old(heap)[t].data ==> heap == old(heap))
                    && (KStr(CHILD) !in old(heap)[t].data ==> a == |old(heap)| && heap == WithChildArray(old(heap), t)))
    {
      var t := builder.Target();
      if Has(heap, t, CHILD) {
        var v := heap[t].data[KStr(CHILD)];
        assert ValIn(v, |heap|);
        if !v.VRef? {
          // getJson gives null for a value that is not a node
          return Threw, 0;
        }
        return Completed, v.ref;
      }
      a := NewJson(true);
      AddField(t, CHILD, VRef(a));
      out := Completed;
    }

    /** A shallower line: pop back out; a dash starts a new entry in the nearest child array. */
    method NestElder(childLength: nat, dash: bool) returns (out: Outcome)
      requires Ready()
      modifies this`heap, builder
      ensures Ready() && |old(heap)| <= |heap|
      ensures fileErrors == old(fileErrors) && loaded == old(loaded) && order == old(order)
      ensures out != Threw
      ensures out == Hung || !dash ==> heap == old(heap)
      ensures out == Completed ==> 1 <= ElderDepth(childLength, old(builder.contexts))
      ensures out == Hung ==> |builder.targets| == 1
      ensures out == Hung && !dash ==> ElderDepth(childLength, old(builder.contexts)) == 0
      ensures out == Completed && !dash ==>
                var m := ElderDepth(childLength, old(builder.contexts));
                && builder.targets == old(builder.targets)[..m] && builder.contexts == old(builder.contexts)[..m]
                && !(childLength < NearestInt(builder.contexts, CHILD_LENGTH))
                && CHILD_ARRAY !in builder.contexts[|builder.contexts| - 1]
      ensures out == Completed && dash ==>
                var m := ElderDepth(childLength, old(builder.contexts));
                && DashedEntry(old(builder.targets)[..m], old(builder.contexts)[..m], old(heap),
                               builder.targets, builder.contexts, heap)
                && builder.contexts[|builder.contexts| - 1] == map[CHILD_LENGTH := VInt(childLength)]
    {
      ghost var c0 := builder.contexts;
      out := PopToElder(childLength);
      if out == Hung {
        ElderDepthUnique(childLength, c0, 0);
      }
      if out != Completed {
        return;
      }
      PopsAtTop(childLength, c0, builder.contexts);
      ElderDepthUnique(childLength, c0, |builder.contexts|);
      if dash {
        out := PushDash(childLength);
      }
    }

    /**
     * A dash line's entry: the nearest child array becomes the target, a new
     * entry is added to it and pushed, with the line's indentation in its
     * context.
     */
    method PushDash(childLength: nat) returns (out: Outcome)
      requires Ready()
      modifies this`heap, builder
      ensures Ready() && |old(heap)| <= |heap| && out != Threw
      ensures out == Hung ==> heap == old(heap) && |builder.targets| == 1
      ensures out == Completed ==>
                && DashEntry(old(builder.targets), old(builder.contexts), old(heap))
                && builder.contexts[|builder.contexts| - 1] == map[CHILD_LENGTH := VInt(childLength)]
    {
      out := PopToChildArray();
      if out != Completed {
        return;
      }
      ghost var tm, cm := builder.targets, builder.contexts;
      var e := PushEntry();
      builder.Set(CHILD_LENGTH, VInt(childLength));
      assert builder.contexts == cm + [map[CHILD_LENGTH := VInt(childLength)]];
      DashFromPush(old(builder.targets), old(builder.contexts), old(heap), tm, cm, heap, e,
                   map[CHILD_LENGTH := VInt(childLength)]);
    }

    /**
     * A line as indented as the last: a dash starts a new entry in the nearest
     * child array, otherwise the nearest array becomes the target.
     */
    method NestSibling(childLength: nat, dash: bool) returns (out: Outcome)
      requires Ready()
      modifies this`heap, builder
      ensures Ready() && |old(heap)| <= |heap|
      ensures fileErrors == old(fileErrors) && loaded == old(loaded) && order == old(order)
      ensures out != Threw
      ensures out == Completed ==>
                var top := builder.contexts[|builder.contexts| - 1];
                CHILD_LENGTH in top && top[CHILD_LENGTH] == VInt(childLength)
      ensures out == Completed && !dash ==> heap[builder.Target()].isArray
      ensures out == Hung || !dash ==> heap == old(heap)
      ensures out == Completed && !dash ==>
                && 1 <= |builder.targets| <= |old(builder.targets)| && builder.targets == old(builder.targets)[..|builder.targets|]
                && NoArrayFrom(heap, old(builder.targets), |builder.targets|)
      ensures out == Completed && dash ==> DashEntry(old(builder.targets), old(builder.contexts), old(heap))
    {
      if dash {
        out := PushDash(childLength);
        return;
      } else {
        out := PopToArrayTarget();
        if out != Completed {
          return;
        }
      }
      builder.Set(CHILD_LENGTH, VInt(childLength));
    }
  
    // ---- the content of a line ----

    /**
     * A comment (load's `#` case): into an empty or array target it goes as a new
     * node holding the comment; an object target keeps the first comment it
     * gets. The rest of the line is consumed.
     */
    method Comment(line: string) returns (line': string)
      requires Ready() && line != [] && line[0] == '#'
      modifies this`heap
      ensures Ready() && |old(heap)| <= |heap| && line' == ""
      ensures var t := builder.Target();
              var text := VStr(line[1..]);
              if old(heap)[t].data == map[] || old(heap)[t].isArray then
                && |heap| == |old(heap)| + 1
                && heap[|old(heap)|] == Node(true, map[KStr(COMMENT) := text])
                && heap[t] == Node(old(heap)[t].isArray, old(heap)[t].data[KIdx(|old(heap)[t].data|) := VRef(|old(heap)|)])
              else
                && |heap| == |old(heap)| && heap[t].isArray == old(heap)[t].isArray
                && heap[t].data == old(heap)[t].data[KStr(COMMENT) := if KStr(COMMENT) in old(heap)[t].data
                                                                       then old(heap)[t].data[KStr(COMMENT)] else text]
      ensures forall n :: 0 <= n < |old(heap)| && n != builder.Target() ==> heap[n] == old(heap)[n]
    {
      var t := builder.Target();
      if IsEmpty(heap, t) || heap[t].isArray {
        var commentJson := NewJson(true);
        AddField(commentJson, COMMENT, VStr(line[1..]));
        Add(t, VRef(commentJson));
      } else if !Has(heap, t, COMMENT) {
        SetField(t, COMMENT, VStr(line[1..]));
      }
      line' := "";
    }

    /**
     * A comma (load's `,` case) ends the current entry of an inline structure:
     * pop to the entry just inside it. Outside every inline structure it
     * consumes nothing and records nothing, so the parser loops forever.
     */
    method Comma(line: string, inline: seq<InlineKind>) returns (out: Outcome, line': string)
      requires Ready() && line != [] && line[0] == ','
      modifies builder
      ensures Ready() && Shrunk(old(builder.targets), old(builder.contexts))
      ensures inline == [] ==> out == Hung
      ensures out == Completed ==> (line' == Trim(line[1..]) && |line'| < |line| &&
                                   (builder.HasAt(INLINE_LIST, 1) || builder.HasAt(INLINE_MAP, 1)))
      ensures NoInlineFrom(old(builder.contexts), |builder.contexts| - 1)
      ensures inline == [] ==> builder.targets == old(builder.targets) && builder.contexts == old(builder.contexts)
      ensures out == Hung && inline != [] ==> |builder.targets| == 1
      ensures out != Threw
    {
      line' := line;
      if inline == [] {
        return Hung, line';
      }
      out := PopToInlineEntry();
      if out == Completed {
        line' := Trim(line[1..]);
      }
    }

    /**
     * `[` or `{` (load's inline list and map cases) opens an inline structure: a child array marked
     * with its kind, holding a first entry that becomes the target. An array
     * target gets a new node holding the child array; any other target gets it
     * under `child`.
     */
    method OpenInline(kind: InlineKind, line: string, inline: seq<InlineKind>) returns (line': string, inline': seq<InlineKind>)
      requires Ready() && line != []
      modifies this`heap, builder
      ensures Ready() && |old(heap)| <= |heap| && fileErrors == old(fileErrors)
      ensures inline' == inline + [kind] && line' == Trim(line[1..])
      ensures builder.contexts == old(builder.contexts) + [map[InlineKey(kind) := VBool(true)], map[]]
      ensures builder.targets == old(builder.targets) + [|old(heap)|, |old(heap)| + 1]
      ensures heap[builder.Target()] == Node(true, map[])
      ensures var c := builder.targets[|builder.targets| - 2];
              heap[c] == Node(true, map[KIdx(0) := VRef(builder.Target())])
      ensures var t := old(builder.Target());
              var c := |old(heap)|;
              && (old(heap)[t].isArray ==>
                    && |heap| == |old(heap)| + 3
                    && heap[t].data == old(heap)[t].data[KIdx(|old(heap)[t].data|) := VRef(|old(heap)| + 2)]
                    && heap[|old(heap)| + 2] == Node(true, map[KStr(CHILD) := VRef(c)]))
              && (!old(heap)[t].isArray ==>
                    && KStr(CHILD) in heap[t].data
                    && (KStr(CHILD) !in old(heap)[t].data ==> heap[t].data == old(heap)[t].data[KStr(CHILD) := VRef(c)]))
    {
      inline' := inline + [kind];
      var childArray, firstEntry := InlineNodes(builder.Target());
      PushTarget(childArray);
      builder.Set(InlineKey(kind), VBool(true));
      PushTarget(firstEntry);
      line' := Trim(line[1..]);
    }

    /** The nodes an inline structure opens, attached to target `t`. */
    method InlineNodes(t: nat) returns (childArray: nat, firstEntry: nat)
      requires Valid() && t < |heap|
      modifies this`heap
      ensures Valid() && |old(heap)| + 2 <= |heap| && childArray == |old(heap)| && firstEntry == |old(heap)| + 1
      ensures heap[firstEntry] == Node(true, map[])
      ensures heap[childArray] == Node(true, map[KIdx(0) := VRef(firstEntry)])
      ensures old(heap)[t].isArray ==>
                && |heap| == |old(heap)| + 3
                && heap[t].data == old(heap)[t].data[KIdx(|old(heap)[t].data|) := VRef(|old(heap)| + 2)]
                && heap[|old(heap)| + 2] == Node(true, map[KStr(CHILD) := VRef(childArray)])
      ensures !old(heap)[t].isArray ==>
                && KStr(CHILD) in heap[t].data
                && (KStr(CHILD) !in old(heap)[t].data ==> heap[t].data == old(heap)[t].data[KStr(CHILD) := VRef(childArray)])
    {
      ghost var h0 := heap;
      childArray := NewJson(true);
      firstEntry := NewJson(true);
      Add(childArray, VRef(firstEntry));
      ghost var h1 := heap;
      if heap[t].isArray {
        var newEntry := NewJson(true);
        AddField(newEntry, CHILD, VRef(childArray));
        Add(t, VRef(newEntry));
      } else {
        AddField(t, CHILD, VRef(childArray));
      }
    }

    /**
     * `]` or `}` (load's closing cases) closes the innermost inline structure: a
     * closing bracket of the other kind records an error but still closes it,
     * and then the builder pops past the depth marked with the found kind.
     * With no inline structure open, peeking at the empty stack throws.
     */
    method CloseInline(kind: InlineKind, file: string, lineNo: nat, line: string, inline: seq<InlineKind>)
      returns (out: Outcome, line': string, inline': seq<InlineKind>)
      requires Ready() && line != []
      modifies this`fileErrors, builder
      ensures Ready() && Shrunk(old(builder.targets), old(builder.contexts))
      ensures ErrorsExtend(old(fileErrors), fileErrors, file)
      ensures inline == [] <==> out == Threw
      ensures out != Hung && line' == Trim(line[1..])
      ensures out == Completed ==>
                && inline' == inline[..|inline| - 1]
                && fileErrors == if Top(inline) == Some(kind) then old(fileErrors)
                                 else old(fileErrors)[file := ErrorsOf(old(fileErrors), file) + [MismatchedClose(kind, lineNo)]]
    {
      line' := Trim(line[1..]);
      inline' := inline;
      if inline == [] {
        return Threw, line', inline';
      }
      if inline[|inline| - 1] != kind {
        AddError(file, MismatchedClose(kind, lineNo));
      }
      inline' := inline[..|inline| - 1];
      PopPast(InlineKey(kind));
      out := Completed;
    }

    /**
     * Start the entry for a key (load's key case): an empty target takes it
     * directly; any other target that is not an array is popped until an array
     * is the target. The new, empty object becomes the target.
     */
    method OpenEntry() returns (out: Outcome)
      requires Ready()
      modifies this`heap, builder
      ensures Ready() && |old(heap)| <= |heap| && out != Threw
      ensures out == Hung ==> heap == old(heap)
      ensures out == Completed ==>
                AddedEntry(old(builder.targets), old(builder.contexts), old(heap), builder.targets, builder.contexts, heap, map[])
    {
      ghost var t0, c0, h0 := builder.targets, builder.contexts, heap;
      var t := builder.Target();
      if !IsEmpty(heap, t) && !heap[t].isArray {
        out := PopToArrayTarget();
        if out != Completed {
          return;
        }
      }
      ghost var tm, cm := builder.targets, builder.contexts;
      var e := PushEntry();
      AddedByPush(t0, c0, h0, tm, cm, builder.targets, builder.contexts, heap);
      out := Completed;
    }

    /**
     * A key line (load's key case): a new entry with the key (quotes removed),
     * the line number, the dash flag when the line began an entry with `-`,
     * and the value when one is stored. Text that is not a key records
     * "Expecting KEY : VALUE" and consumes nothing. A new entry never already
     * has a key, so "Key already exists" is never recorded.
     */
    method KeyLine(file: string, lineNo: nat, line: string, inline: seq<InlineKind>, nestedDash: bool)
      returns (out: Outcome, line': string, nestedDash': bool)
      requires Ready() && line != []
      modifies this`heap, this`fileErrors, builder
      ensures Ready() && |old(heap)| <= |heap|
      ensures KeyEnd(line).None? ==>
                && out == Completed && line' == line && nestedDash' == nestedDash
                && heap == old(heap) && builder.targets == old(builder.targets)
                && fileErrors == old(fileErrors)[file := ErrorsOf(old(fileErrors), file) + [ExpectingKeyValue(lineNo)]]
      ensures KeyEnd(line).Some? ==> fileErrors == old(fileErrors)
      ensures ErrorsExtend(old(fileErrors), fileErrors, file)
      ensures out == Threw ==> KeyEnd(line).Some? && line[..KeyEnd(line).value] == "\""
      ensures KeyEnd(line).Some? && out == Completed ==>
                var e := KeyEnd(line).value;
                var (value, rest) := AfterKey(Trim(line[e..]), Top(inline));
                && StripQuotes(line[..e]).Some?
                && line' == rest && |line'| < |line| && !nestedDash'
                && AddedEntry(old(builder.targets), old(builder.contexts), old(heap),
                              builder.targets, builder.contexts, heap, EntryData(StripQuotes(line[..e]).value, lineNo, nestedDash, value))
    {
      var m := KeyEnd(line);
      if m.None? {
        AddError(file, ExpectingKeyValue(lineNo));
        return Completed, line, nestedDash;
      }
      var e := m.value;
      var key := StripQuotes(line[..e]);
      var (value, rest) := AfterKey(Trim(line[e..]), Top(inline));
      out := KeyEntry(file, lineNo, key, nestedDash, value);
      if out != Completed {
        return out, line, nestedDash;
      }
      return Completed, rest, false;
    }

    /**
     * The entry of a key line: open it, then take the key, which throws for
     * a lone `"` (`substring(1, 0)`), then fill the entry.
     */
    method KeyEntry(file: string, lineNo: nat, key: Option<string>, dashed: bool, value: Option<string>)
      returns (out: Outcome)
      requires Ready()
      modifies this`heap, this`fileErrors, builder
      ensures Ready() && |old(heap)| <= |heap| && fileErrors == old(fileErrors)
      ensures out == Threw ==> key.None?
      ensures out == Hung ==> heap == old(heap)
      ensures out == Completed ==>
                && key.Some?
                && AddedEntry(old(builder.targets), old(builder.contexts), old(heap),
                              builder.targets, builder.contexts, heap, EntryData(key.value, lineNo, dashed, value))
    {
      ghost var t0, c0, h0 := builder.targets, builder.contexts, heap;
      out := OpenEntry();
      if out != Completed {
        return;
      }
      var entry := builder.Target();
      if key.None? {
        return Threw;
      }
      ghost var h1 := heap;
      FillEntry(file, entry, key.value, lineNo, dashed, value);
      EntryFilled(t0, c0, h0, builder.targets, builder.contexts, h1, heap, EntryData(key.value, lineNo, dashed, value));
    }
  
    /**
     * Record the key and line number in a new entry, its dash flag and
     * its value (load's key case). The duplicate-key branch is kept, but
     * the entry is always fresh, so it never records anything.
     */
    method FillEntry(file: string, entry: nat, key: string, lineNo: nat, dashed: bool, value: Option<string>)
      requires Valid() && entry < |heap| && heap[entry] == Node(false, map[])
      modifies this`heap, this`fileErrors
      ensures Valid() && fileErrors == old(fileErrors)
      ensures heap == old(heap)[entry := Node(false, EntryData(key, lineNo, dashed, value))]
    {
      var dup := Has(heap, entry, KEY);
      fileErrors := if dup then fileErrors[file := ErrorsOf(fileErrors, file) + [KeyAlreadyExists(lineNo)]] else fileErrors;
      heap := if dup then heap else Put(Put(heap, entry, KStr(KEY), VStr(key)), entry, KStr(LINE_NUMBER), VInt(lineNo));
      if dashed {
        SetField(entry, DASHED, VBool(true));
      }
      if value.Some? {
        SetField(entry, VALUE, VStr(value.value));
      }
    }

    // ---- one line ----

    /**
     * One step of load's content loop, chosen by the first
     * character of what is left of the line. A completed step either shortens
     * the line or records a problem, so the loop it drives ends.
     */
    method ContentStep(file: string, lineNo: nat, line: string, inline: seq<InlineKind>, nestedDash: bool)
      returns (out: Outcome, line': string, inline': seq<InlineKind>, nestedDash': bool)
      requires Ready() && line != []
      modifies this`heap, this`fileErrors, builder
      ensures Ready() && |old(heap)| <= |heap|
      ensures ErrorsExtend(old(fileErrors), fileErrors, file)
      ensures out == Completed ==> |line'| < |line| || HasErrors()
      ensures line[0] == '#' ==> out == Completed && line' == "" && inline' == inline
      ensures line[0] == ',' ==> (inline == [] ==> out == Hung) && inline' == inline
      ensures Bracket(line[0]) ==> nestedDash' == nestedDash
      ensures !Bracket(line[0]) && line[0] != '#' && line[0] != ',' ==>
                inline' == inline && (out == Completed ==> nestedDash' == (KeyEnd(line).None? && nestedDash))
    {
      inline' := inline;
      nestedDash' := nestedDash;
      out := Completed;
      if line[0] == '#' {
        line' := Comment(line);
      } else if line[0] == ',' {
        out, line' := Comma(line, inline);
      } else if Bracket(line[0]) {
        out, line', inline' := BracketStep(file, lineNo, line, inline);
      } else {
        out, line', nestedDash' := KeyLine(file, lineNo, line, inline, nestedDash);
      }
    }

    /** The four bracket cases of a content step. */
    method BracketStep(file: string, lineNo: nat, line: string, inline: seq<InlineKind>)
      returns (out: Outcome, line': string, inline': seq<InlineKind>)
      requires Ready() && line != [] && Bracket(line[0])
      modifies this`heap, this`fileErrors, builder
      ensures Ready() && |old(heap)| <= |heap|
      ensures ErrorsExtend(old(fileErrors), fileErrors, file)
      ensures line' == Trim(line[1..]) && |line'| < |line| && out != Hung
      ensures line[0] == '[' ==> out == Completed && inline' == inline + [InlineList]
      ensures line[0] == '{' ==> out == Completed && inline' == inline + [InlineMap]
      ensures line[0] == ']' || line[0] == '}' ==>
                (out == Threw <==> inline == []) && (out == Completed ==> inline' == inline[..|inline| - 1])
    {
      out := Completed;
      if line[0] == '[' || line[0] == '{' {
        var kind := if line[0] == '[' then InlineList else InlineMap;
        line', inline' := OpenInline(kind, line, inline);
        ErrorsExtendRefl(fileErrors, file);
      } else {
        var kind := if line[0] == ']' then InlineList else InlineMap;
        out, line', inline' := CloseInline(kind, file, lineNo, line, inline);
      }
    }

    /**
     * The content loop of load: steps until the line is used up or any
     * problem has been recorded, for any file. With a problem already on
     * record it reads nothing at all.
     */
    method ContentLoop(file: string, lineNo: nat, line: string, inline: seq<InlineKind>, nestedDash: bool)
      returns (out: Outcome, inline': seq<InlineKind>, nestedDash': bool)
      requires Ready()
      modifies this`heap, this`fileErrors, builder
      ensures Ready() && |old(heap)| <= |heap|
      ensures ErrorsExtend(old(fileErrors), fileErrors, file)
      ensures old(HasErrors()) || line == [] ==>
                && out == Completed && heap == old(heap) && fileErrors == old(fileErrors)
                && builder.targets == old(builder.targets) && builder.contexts == old(builder.contexts)
                && inline' == inline && nestedDash' == nestedDash
    {
      var rest := line;
      inline' := inline;
      nestedDash' := nestedDash;
      out := Completed;
      while rest != [] && !HasErrors()
        invariant Ready() && |old(heap)| <= |heap|
        invariant ErrorsExtend(old(fileErrors), fileErrors, file)
        invariant old(HasErrors()) || line == [] ==>
                    && out == Completed && heap == old(heap) && fileErrors == old(fileErrors)
                    && builder.targets == old(builder.targets) && builder.contexts == old(builder.contexts)
                    && inline' == inline && nestedDash' == nestedDash
        decreases if HasErrors() then 0 else 1, |rest|
      {
        ghost var e1 := fileErrors;
        out, rest, inline', nestedDash' := ContentStep(file, lineNo, rest, inline', nestedDash');
        ErrorsExtendTrans(old(fileErrors), e1, fileErrors, file);
        if out != Completed {
          return;
        }
      }
    }

    /**
     * One line of input in load's line loop. Document markers and blank lines are
     * passed over. Otherwise the indentation prefix (spaces and dashes) places
     * the line, unless an inline structure is open or the previous line was a
     * lone dash; a dash inside an inline structure is a problem; then the rest
     * of the line is read by the content loop.
     */
    method ProcessLine(file: string, lineNo: nat, original: string, inline: seq<InlineKind>, nestedDash: bool, emptyDash: bool)
      returns (out: Outcome, inline': seq<InlineKind>, nestedDash': bool, emptyDash': bool)
      requires Ready()
      modifies this`heap, this`fileErrors, builder
      ensures Ready() && |old(heap)| <= |heap|
      ensures ErrorsExtend(old(fileErrors), fileErrors, file)
      ensures Skipped(original) ==>
                && out == Completed && heap == old(heap) && fileErrors == old(fileErrors)
                && builder.targets == old(builder.targets) && builder.contexts == old(builder.contexts)
                && inline' == inline && nestedDash' == nestedDash && emptyDash' == emptyDash
      ensures !Skipped(original) && out == Completed && inline != [] && '-' in original[..NestLength(original)] ==>
                DashInsideInline(lineNo) in ErrorsOf(fileErrors, file)
      ensures !Skipped(original) && out == Completed ==>
                (emptyDash' ==> Trim(original[NestLength(original)..]) == [])
    {
      if Skipped(original) {
        return Completed, inline, nestedDash, emptyDash;
      }
      var nl := NestLength(original);
      var childValue := original[..nl];
      ghost var e0 := fileErrors;
      out, nestedDash' := PlaceLine(file, lineNo, childValue, inline, nestedDash, emptyDash);
      if out != Completed {
        return out, inline, nestedDash', emptyDash;
      }
      ghost var e1 := fileErrors;
      var line := original[nl..];
      emptyDash' := Trim(line) == [] && nestedDash';
      out, inline', nestedDash' := ContentLoop(file, lineNo, line, inline, nestedDash');
      ErrorsExtendTrans(e0, e1, fileErrors, file);
      if inline != [] && '-' in childValue {
        ErrorsExtendKeeps(e1, fileErrors, file, DashInsideInline(lineNo));
      }
    }

    /**
     * Place a line by its indentation prefix (load's nesting step): nesting happens
     * only outside inline structures and not right after a lone dash; a dash
     * in the prefix then marks the next entry; inside an inline structure a
     * dash is a problem.
     */
    method PlaceLine(file: string, lineNo: nat, childValue: string, inline: seq<InlineKind>, nestedDash: bool, emptyDash: bool)
      returns (out: Outcome, nestedDash': bool)
      requires Ready()
      modifies this`heap, this`fileErrors, builder
      ensures Ready() && |old(heap)| <= |heap|
      ensures ErrorsExtend(old(fileErrors), fileErrors, file)
      ensures inline != [] || emptyDash ==>
                && out == Completed && nestedDash' == nestedDash && heap == old(heap)
                && builder.targets == old(builder.targets) && builder.contexts == old(builder.contexts)
      ensures inline != [] && '-' in childValue ==>
                fileErrors == old(fileErrors)[file := ErrorsOf(old(fileErrors), file) + [DashInsideInline(lineNo)]]
      ensures !(inline != [] && '-' in childValue) ==> fileErrors == old(fileErrors)
      ensures inline == [] && !emptyDash && out == Completed ==> nestedDash' == (nestedDash || '-' in childValue)
    {
      out := Completed;
      nestedDash' := nestedDash;
      ErrorsExtendRefl(fileErrors, file);
      if inline == [] && !emptyDash {
        var contextLength := builder.GetInt(CHILD_LENGTH, true);
        out := Nest(childValue, contextLength);
        if out != Completed {
          return;
        }
        if '-' in childValue {
          nestedDash' := true;
        }
      }
      if inline != [] && '-' in childValue {
        AddError(file, DashInsideInline(lineNo));
      }
    }

    /**
     * load(fileName, stream) over the file's lines: the
     * document is a new array, line numbers count from 1, inline structures
     * left open at the end are a problem, and the document is stored under
     * the file name, a name loaded before keeping its place in the order.
     */
    method Load(fileName: string, lines: seq<string>) returns (out: Outcome, ghost open: seq<InlineKind>)
      requires Valid()
      modifies this`heap, this`fileErrors, this`loaded, this`order, builder
      ensures Valid() && |old(heap)| < |heap|
      ensures ErrorsExtend(old(fileErrors), fileErrors, fileName)
      ensures out != Completed ==> loaded == old(loaded) && order == old(order)
      ensures out == Completed ==>
                && loaded == old(loaded)[fileName := |old(heap)|]
                && order == if fileName in old(loaded) then old(order) else old(order) + [fileName]
      ensures out == Completed && open != [] ==> LastIsUnclosed(fileErrors, fileName, open)
      ensures (forall k :: 0 <= k < |lines| ==> Skipped(lines[k])) ==>
                out == Completed && open == [] && fileErrors == old(fileErrors) && heap[|old(heap)|] == Node(true, map[])
    {
      var inline, root;
      out, inline, root := LoadLines(fileName, lines);
      open := inline;
      if out != Completed {
        return;
      }
      ghost var e1, h1 := fileErrors, heap;
      Finish(fileName, root, inline);
      ErrorsExtendTrans(old(fileErrors), e1, fileErrors, fileName);
      assert heap == h1;
    }

    /** The reading loop of load: a fresh document, then every line in turn until one does not complete. */
    method LoadLines(fileName: string, lines: seq<string>) returns (out: Outcome, inline: seq<InlineKind>, root: nat)
      requires Valid()
      modifies this`heap, this`fileErrors, builder
      ensures Ready() && root == |old(heap)| < |heap|
      ensures ErrorsExtend(old(fileErrors), fileErrors, fileName)
      ensures (forall k :: 0 <= k < |lines| ==> Skipped(lines[k])) ==>
                out == Completed && inline == [] && fileErrors == old(fileErrors) && heap[root] == Node(true, map[])
    {
      root := NewJson(true);
      builder.Reset(root);
      inline := [];
      var nestedDash := false;
      var emptyDash := false;
      ErrorsExtendRefl(fileErrors, fileName);
      out := Completed;
      var k := 0;
      while k < |lines|
        invariant 0 <= k <= |lines|
        invariant Ready() && root == |old(heap)| < |heap|
        invariant ErrorsExtend(old(fileErrors), fileErrors, fileName)
        invariant (forall j :: 0 <= j < k ==> Skipped(lines[j])) ==>
                    && out == Completed && heap[root] == Node(true, map[]) && fileErrors == old(fileErrors) && inline == []
      {
        ghost var e1 := fileErrors;
        out, inline, nestedDash, emptyDash := ProcessLine(fileName, k + 1, lines[k], inline, nestedDash, emptyDash);
        ErrorsExtendTrans(old(fileErrors), e1, fileErrors, fileName);
        if out != Completed {
          return;
        }
        k := k + 1;
      }
    }

    /** The end of load: report inline structures left open, then record the document under the file name. */
    method Finish(fileName: string, root: nat, inline: seq<InlineKind>)
      requires Valid() && root < |heap|
      modifies this`fileErrors, this`loaded, this`order
      ensures Valid()
      ensures ErrorsExtend(old(fileErrors), fileErrors, fileName)
      ensures inline == [] ==> fileErrors == old(fileErrors)
      ensures inline != [] ==> LastIsUnclosed(fileErrors, fileName, inline)
      ensures loaded == old(loaded)[fileName := root]
      ensures order == if fileName in old(loaded) then old(order) else old(order) + [fileName]
    {
      Unclosed(fileName, inline);
      if fileName !in loaded {
        order := order + [fileName];
      }
      loaded := loaded[fileName := root];
    }

    /** The end of load: inline structures still open are one more problem, the last of the file. */
    method Unclosed(fileName: string, inline: seq<InlineKind>)
      modifies this`fileErrors
      ensures ErrorsExtend(old(fileErrors), fileErrors, fileName)
      ensures inline == [] ==> fileErrors == old(fileErrors)
      ensures inline != [] ==> ErrorsOf(fileErrors, fileName) == ErrorsOf(old(fileErrors), fileName) + [UnclosedInline(inline)]
      ensures inline != [] ==> LastIsUnclosed(fileErrors, fileName, inline)
    {
      if inline != [] {
        AddError(fileName, UnclosedInline(inline));
        ghost var es := ErrorsOf(fileErrors, fileName);
        assert es == ErrorsOf(old(fileErrors), fileName) + [UnclosedInline(inline)];
        assert es[|es| - 1] == UnclosedInline(inline);
      } else {
        ErrorsExtendRefl(fileErrors, fileName);
      }
    }

    /** getJson(): a new array holding every loaded document, in load order. */
    method GetJsonAll() returns (r: nat)
      requires Valid()
      modifies this`heap
      ensures Valid() && r == |old(heap)| && |heap| == |old(heap)| + 1
      ensures forall i :: 0 <= i < r ==> heap[i] == old(heap)[i]
      ensures heap[r].isArray && |heap[r].data| == |order|
      ensures forall i :: 0 <= i < |order| ==> KIdx(i) in heap[r].data && heap[r].data[KIdx(i)] == VRef(loaded[order[i]])
    {
      r := NewJson(true);
      assert heap[..r] == old(heap);
      FillLoaded(r);
    }

    /** The loop of getJson(): every loaded document, in load order, joins the empty array `r`. */
    method FillLoaded(r: nat)
      requires Closed(heap) && r < |heap| && ListsLoaded(r, 0)
      requires forall n :: n in loaded ==> loaded[n] < |heap|
      requires forall n :: n in loaded <==> n in order
      modifies this`heap
      ensures Closed(heap) && |heap| == |old(heap)| && ListsLoaded(r, |order|)
      ensures heap[..r] == old(heap)[..r]
    {
      var k := 0;
      while k < |order|
        invariant 0 <= k <= |order|
        invariant Closed(heap) && |heap| == |old(heap)| && heap[..r] == old(heap)[..r]
        invariant ListsLoaded(r, k)
      {
        AppendLoaded(r, k);
        k := k + 1;
      }
    }

    /** Node `r` is an array of the first `k` loaded documents, in load order. */
    ghost predicate ListsLoaded(r: nat, k: nat)
      reads this
      requires r < |heap| && k <= |order|
    {
      && heap[r].isArray && heap[r].data.Keys == IdxKeys(k) && |heap[r].data| == k
      && forall i :: 0 <= i < k ==>
           KIdx(i) in heap[r].data && order[i] in loaded && heap[r].data[KIdx(i)] == VRef(loaded[order[i]])
    }

    /** One step of getJson(): the next loaded document joins the array. */
    method AppendLoaded(r: nat, k: nat)
      requires Closed(heap) && r < |heap| && k < |order| && ListsLoaded(r, k)
      requires order[k] in loaded && loaded[order[k]] < |heap|
      modifies this`heap
      ensures Closed(heap) && |heap| == |old(heap)| && ListsLoaded(r, k + 1)
      ensures heap[..r] == old(heap)[..r]
    {
      ghost var d0 := heap[r].data;
      Add(r, VRef(loaded[order[k]]));
      ghost var d1 := heap[r].data;
      assert d1 == d0[KIdx(k) := VRef(loaded[order[k]])];
      assert d1.Keys == d0.Keys + {KIdx(k)};
      IdxKeysSnoc(k);
      IdxKeysCard(k + 1);
      forall i | 0 <= i < k + 1
        ensures KIdx(i) in d1 && order[i] in loaded && d1[KIdx(i)] == VRef(loaded[order[i]])
      {
        if i < k {
          assert KIdx(i) in d0 && KIdx(i) != KIdx(k);
        }
      }
      assert heap[..r] == old(heap)[..r];
    }

    /** getJson(name): the document loaded under `name`, or a new empty array. */
    method GetJson(name: string) returns (r: nat)
      requires Valid()
      modifies this`heap
      ensures Valid() && r < |heap|
      ensures name in loaded ==> r == loaded[name] && heap == old(heap)
      ensures name !in loaded ==> heap == Alloc(old(heap), true) && r == |old(heap)| && heap[r] == Node(true, map[])
    {
      if name in loaded {
        r := loaded[name];
      } else {
        r := NewJson(true);
      }
    }
  }

  /** The characters that open or close an inline list or map. */
  predicate Bracket(c: char) {
    c == '[' || c == '{' || c == ']' || c == '}'
  }

  /** Recording nothing extends the errors. */
  lemma ErrorsExtendRefl(e0: map<string, seq<ParseError>>, file: string)
    ensures ErrorsExtend(e0, e0, file)
  {
  }

  /** Recording one more problem for `file` extends the errors. */
  lemma ErrorsExtendByOne(e0: map<string, seq<ParseError>>, file: string, e: ParseError)
    ensures ErrorsExtend(e0, e0[file := ErrorsOf(e0, file) + [e]], file)
  {
    var e1 := e0[file := ErrorsOf(e0, file) + [e]];
    assert ErrorsOf(e1, file) == ErrorsOf(e0, file) + [e];
  }

  /** A problem on record stays on record when the errors are extended. */
  lemma ErrorsExtendKeeps(e0: map<string, seq<ParseError>>, e1: map<string, seq<ParseError>>, file: string, e: ParseError)
    requires ErrorsExtend(e0, e1, file) && e in ErrorsOf(e0, file)
    ensures e in ErrorsOf(e1, file)
  {
    var i :| 0 <= i < |ErrorsOf(e0, file)| && ErrorsOf(e0, file)[i] == e;
    assert ErrorsOf(e1, file)[i] == e;
  }

  /** Extending the errors twice extends them once. */
  lemma ErrorsExtendTrans(e0: map<string, seq<ParseError>>, e1: map<string, seq<ParseError>>,
                          e2: map<string, seq<ParseError>>, file: string)
    requires ErrorsExtend(e0, e1, file) && ErrorsExtend(e1, e2, file)
    ensures ErrorsExtend(e0, e2, file)
  {
  }
}
