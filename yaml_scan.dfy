/**
 * The line scanners of the YAML parser, written out by hand in place of its
 * regular expressions: the indentation prefix (whitespace and dashes), the key
 * at the start of a line, and the scanner that finds where a value ends, which
 * knows about double quotes, `${{...}}` variables and the innermost open inline
 * list or map.
 */
module YamlScan {
  import opened Wrappers
  import opened JavaString

  /** The kind of an open inline structure: `[` ... `]` or `{` ... `}`. */
  datatype InlineKind = InlineList | InlineMap

  /** A character of the regex class `\s`: space, tab, newline, vertical tab, form feed, carriage return. */
  predicate RegexSpace(c: char) {
    c == ' ' || c == '\t' || c == '\n' || c == '\r' || c as int == 0x0B || c as int == 0x0C
  }

  predicate NestChar(c: char) {
    RegexSpace(c) || c == '-'
  }

  /** The length of the indentation prefix `^[\s-]*`: the longest run of spaces and dashes. */
  function NestLength(line: string): (n: nat)
    ensures n <= |line|
    ensures forall i :: 0 <= i < n ==> NestChar(line[i])
    ensures n < |line| ==> !NestChar(line[n])
  {
    if line == [] || !NestChar(line[0]) then 0 else 1 + NestLength(line[1..])
  }

  /** A character a bare key may hold: anything but `:`, `#`, `,`, whitespace and brackets. */
  predicate KeyChar(c: char) {
    !(c == ':' || c == '#' || c == ',' || RegexSpace(c) || c == '[' || c == ']' || c == '{' || c == '}')
  }

  /** `s[i..]` starts with `p`. */
  predicate At(s: string, i: nat, p: string) {
    i + |p| <= |s| && s[i..i + |p|] == p
  }

  /**
   * The end of a bare key `(?:[^:#,\s\[\]{}]|}}|\{\{)+` scanned from `i`:
   * key characters and the pairs `}}` and `{{`, as far as they go.
   */
  function BareKeyEnd(line: string, i: nat): (e: nat)
    requires i <= |line|
    ensures i <= e <= |line|
    ensures e < |line| ==> !KeyChar(line[e]) && !At(line, e, "}}") && !At(line, e, "{{")
    decreases |line| - i
  {
    if i < |line| && KeyChar(line[i]) then BareKeyEnd(line, i + 1)
    else if At(line, i, "}}") || At(line, i, "{{") then BareKeyEnd(line, i + 2)
    else i
  }

  /** The last position at or after `from` holding a double quote, if any. */
  function LastQuote(line: string, from: nat): (r: Option<nat>)
    ensures r.Some? ==> from <= r.value < |line| && line[r.value] == '"'
    ensures r.Some? ==> forall j :: r.value < j < |line| ==> line[j] != '"'
    ensures r.None? ==> forall j :: from <= j < |line| ==> line[j] != '"'
    decreases |line| - from
  {
    if from >= |line| then None
    else
      match LastQuote(line, from + 1)
      case Some(j) => Some(j)
      case None => if line[from] == '"' then Some(from) else None
  }

  /**
   * Where the key at the start of `line` ends, or None when there is no key.
   * The quoted form `"(?:[^"]|\")+"` matches greedily from a leading quote to
   * the last quote on the line that leaves at least one character between;
   * otherwise the bare form must match at least one unit.
   */
  function KeyEnd(line: string): (r: Option<nat>)
    ensures r.Some? ==> 0 < r.value <= |line|
  {
    if |line| > 0 && line[0] == '"' && LastQuote(line, 2).Some? then Some(LastQuote(line, 2).value + 1)
    else
      var e := BareKeyEnd(line, 0);
      if e == 0 then None else Some(e)
  }

  /**
   * The stored key: a key that starts and ends with a double quote loses both;
   * a lone `"` starts and ends with one too, and cutting it fails (None stands
   * for the exception thrown).
   */
  function StripQuotes(k: string): (r: Option<string>)
    ensures r.None? <==> k == "\""
    ensures r.Some? && |k| >= 2 && k[0] == '"' && k[|k| - 1] == '"' ==> r.value == k[1..|k| - 1]
    ensures r.Some? && !(|k| >= 1 && k[0] == '"' && k[|k| - 1] == '"') ==> r.value == k
  {
    if |k| >= 1 && k[0] == '"' && k[|k| - 1] == '"' then
      if |k| < 2 then None else Some(k[1..|k| - 1])
    else Some(k)
  }

  /** A quoted key is stored without its quotes, and keeps every character between them. */
  lemma QuotedKeyStoredWithoutQuotes(line: string)
    requires |line| >= 3 && line[0] == '"' && LastQuote(line, 2).Some?
    ensures var e := KeyEnd(line).value;
            && e == LastQuote(line, 2).value + 1
            && StripQuotes(line[..e]) == Some(line[1..e - 1])
            && forall j :: e <= j < |line| ==> line[j] != '"'
  {
    var e := LastQuote(line, 2).value + 1;
    var k := line[..e];
    assert k[0] == '"' && k[|k| - 1] == '"' && |k| >= 3;
    assert k[1..|k| - 1] == line[1..e - 1];
    assert StripQuotes(k) == Some(k[1..|k| - 1]);
  }

  /**
   * The value scanner from position `i`: where the value that starts at 0 ends.
   * `quoted` and `inVariable` are the scanner's flags so far and `top` the kind
   * of the innermost open inline structure (None when none is open).
   */
  function ScanFrom(line: string, i: nat, quoted: bool, inVariable: bool, top: Option<InlineKind>): (e: nat)
    requires i <= |line| && (quoted ==> i > 0)
    ensures i <= e <= |line|
    decreases |line| - i
  {
    if i == |line| then i
    else
      var c := line[i];
      if c == ',' then
        if !quoted && !inVariable && top.Some? then i else ScanFrom(line, i + 1, quoted, inVariable, top)
      else if c == '$' then
        ScanFrom(line, i + 1, quoted, inVariable || At(line, i, "${{"), top)
      else if c == '#' then
        if !quoted then i else ScanFrom(line, i + 1, quoted, inVariable, top)
      else if c == '"' then
        ScanFrom(line, i + 1, if !quoted then true else line[i - 1] == '\\', inVariable, top)
      else if c == '}' && !quoted && inVariable && At(line, i, "}}") then
        ScanFrom(line, i + 2, quoted, inVariable, top)
      else if c == '}' && !quoted && top == Some(InlineMap) then i
      else if c == ']' && !quoted && top == Some(InlineList) then i
      else ScanFrom(line, i + 1, quoted, inVariable, top)
  }

  /** Where a value starting at the beginning of `line` ends. */
  function ValueEnd(line: string, top: Option<InlineKind>): (e: nat)
    ensures e <= |line|
  {
    ScanFrom(line, 0, false, false, top)
  }

  /** Position `e` ends the line, or holds a character that may stop a value inside `top`. */
  predicate StopsAt(line: string, e: nat, top: Option<InlineKind>) {
    e < |line| ==>
      || line[e] == '#'
      || (line[e] == ',' && top.Some?)
      || (line[e] == '}' && top == Some(InlineMap))
      || (line[e] == ']' && top == Some(InlineList))
  }

  /**
   * The scanner only ever stops before the end of the line at one of its stop
   * characters, and at each only in its own circumstances: `,` only inside an
   * inline structure, `}` only inside an inline map, `]` only inside an inline
   * list.
   */
  lemma {:induction false} ScanStopsOnlyAtStopChars(line: string, i: nat, quoted: bool, inVariable: bool, top: Option<InlineKind>)
    requires i <= |line| && (quoted ==> i > 0)
    ensures StopsAt(line, ScanFrom(line, i, quoted, inVariable, top), top)
    decreases |line| - i
  {
    if i < |line| {
      var c := line[i];
      if c == ',' {
        if quoted || inVariable || top.None? {
          ScanStopsOnlyAtStopChars(line, i + 1, quoted, inVariable, top);
        }
      } else if c == '$' {
        ScanStopsOnlyAtStopChars(line, i + 1, quoted, inVariable || At(line, i, "${{"), top);
      } else if c == '#' {
        if quoted {
          ScanStopsOnlyAtStopChars(line, i + 1, quoted, inVariable, top);
        }
      } else if c == '"' {
        ScanStopsOnlyAtStopChars(line, i + 1, if !quoted then true else line[i - 1] == '\\', inVariable, top);
      } else if c == '}' && !quoted && inVariable && At(line, i, "}}") {
        ScanStopsOnlyAtStopChars(line, i + 2, quoted, inVariable, top);
      } else if c == '}' && !quoted && top == Some(InlineMap) {
      } else if c == ']' && !quoted && top == Some(InlineList) {
      } else {
        ScanStopsOnlyAtStopChars(line, i + 1, quoted, inVariable, top);
      }
    }
  }

  /**
   * Outside every inline structure, and with no `#` on the line, the value runs
   * to the end of the line: commas and brackets are then part of it.
   */
  lemma {:induction false} ScanToEndOutsideInline(line: string, i: nat, quoted: bool, inVariable: bool)
    requires i <= |line| && (quoted ==> i > 0)
    requires forall j :: i <= j < |line| ==> line[j] != '#'
    ensures ScanFrom(line, i, quoted, inVariable, None) == |line|
    decreases |line| - i
  {
    if i < |line| {
      var c := line[i];
      if c == '$' {
        ScanToEndOutsideInline(line, i + 1, quoted, inVariable || At(line, i, "${{"));
      } else if c == '"' {
        ScanToEndOutsideInline(line, i + 1, if !quoted then true else line[i - 1] == '\\', inVariable);
      } else if c == '}' && !quoted && inVariable && At(line, i, "}}") {
        ScanToEndOutsideInline(line, i + 2, quoted, inVariable);
      } else {
        ScanToEndOutsideInline(line, i + 1, quoted, inVariable);
      }
    }
  }

  /**
   * Outside inline structures a value with no double quote before its first
   * `#` ends at that `#`: a comment is never part of a value.
   */
  lemma {:induction false} ScanStopsAtFirstHash(line: string, i: nat, inVariable: bool, h: nat)
    requires i <= h < |line| && line[h] == '#'
    requires forall j :: i <= j < h ==> line[j] != '#' && line[j] != '"'
    ensures ScanFrom(line, i, false, inVariable, None) == h
    decreases h - i
  {
    if i < h {
      var c := line[i];
      if c == '$' {
        ScanStopsAtFirstHash(line, i + 1, inVariable || At(line, i, "${{"), h);
      } else if c == '}' && inVariable && At(line, i, "}}") {
        assert line[i + 1] == line[i..i + 2][1];
        ScanStopsAtFirstHash(line, i + 2, inVariable, h);
      } else {
        ScanStopsAtFirstHash(line, i + 1, inVariable, h);
      }
    }
  }

  /** A character that ends an unquoted value inside the inline structure `top`. */
  predicate InlineStop(c: char, top: InlineKind) {
    c == '#' || c == ',' || (c == '}' && top == InlineMap) || (c == ']' && top == InlineList)
  }

  /**
   * Inside an inline list or map, a value with no double quote and no `${{`
   * before its first stop character ends at that character: the first `,`,
   * `#`, or the closing bracket of the innermost structure (`]` in a list,
   * `}` in a map).
   */
  lemma {:induction false} ScanStopsAtFirstInlineStop(line: string, i: nat, top: InlineKind, h: nat)
    requires i <= h < |line| && InlineStop(line[h], top)
    requires forall j :: i <= j < h ==> !InlineStop(line[j], top) && line[j] != '"' && !At(line, j, "${{")
    ensures ScanFrom(line, i, false, false, Some(top)) == h
    decreases h - i
  {
    if i < h {
      ScanStopsAtFirstInlineStop(line, i + 1, top, h);
    }
  }

  /**
   * The value scanner as the parser runs it: a loop over the characters with
   * the flags `stop`, `quoted` and `inVariable`; it ends where the value ends.
   */
  method ScanValue(line: string, top: Option<InlineKind>) returns (end: nat)
    ensures end == ValueEnd(line, top)
  {
    var i: int := 0;
    var stop := false;
    var quoted := false;
    var inVariable := false;
    while i < |line| && !stop
      invariant 0 <= i <= |line|
      invariant quoted ==> i > 0
      invariant !stop ==> ScanFrom(line, i, quoted, inVariable, top) == ValueEnd(line, top)
      invariant stop ==> i == ValueEnd(line, top)
      decreases |line| - i, if stop then 0 else 1
    {
      var c := line[i];
      if c == ',' {
        if !quoted && !inVariable && top.Some? {
          stop := true;
          i := i - 1;
        }
      } else if c == '$' {
        if At(line, i, "${{") {
          inVariable := true;
        }
      } else if c == '#' {
        if !quoted {
          stop := true;
          i := i - 1;
        }
      } else if c == '"' {
        if !quoted {
          quoted := true;
        } else if line[i - 1] == '\\' {
        } else {
          quoted := false;
        }
      } else if c == '}' {
        if !quoted {
          if inVariable && At(line, i, "}}") {
            i := i + 1;
          } else if top == Some(InlineMap) {
            stop := true;
            i := i - 1;
          }
        }
      } else if c == ']' {
        if !quoted {
          if top == Some(InlineList) {
            stop := true;
            i := i - 1;
          }
        }
      }
      i := i + 1;
    }
    end := i;
  }
}
