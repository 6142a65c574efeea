/**
 * The few java.lang.String and java.lang.Integer operations the configuration code
 * relies on, written out over `seq<char>`: trim, indexOf, split on one character
 * (with Java's removal of trailing empty strings) and Integer.parseInt / toString.
 */
module JavaString {
  import opened Wrappers

  const INT_MIN: int := -0x8000_0000
  const INT_MAX: int := 0x7fff_ffff

  /** String.trim removes leading and trailing characters whose code is at most U+0020. */
  predicate Blank(c: char) {
    c <= ' '
  }

  function StartsWith(s: string, prefix: string): bool {
    |prefix| <= |s| && s[..|prefix|] == prefix
  }

  function TrimStart(s: string): (r: string)
    ensures |r| <= |s| && r == s[|s| - |r|..]
    ensures r == [] || !Blank(r[0])
    ensures forall i :: 0 <= i < |s| - |r| ==> Blank(s[i])
  {
    if s == [] || !Blank(s[0]) then s else TrimStart(s[1..])
  }

  function TrimEnd(s: string): (r: string)
    ensures |r| <= |s| && r == s[..|r|]
    ensures r == [] || !Blank(r[|r| - 1])
    ensures forall i :: |r| <= i < |s| ==> Blank(s[i])
  {
    if s == [] || !Blank(s[|s| - 1]) then s else TrimEnd(s[..|s| - 1])
  }

  /** String.trim. */
  function Trim(s: string): string {
    TrimEnd(TrimStart(s))
  }

  /** `s.trim().isEmpty()` holds exactly when every character of `s` is blank. */
  lemma TrimEmptyIffBlank(s: string)
    ensures Trim(s) == [] <==> forall i :: 0 <= i < |s| ==> Blank(s[i])
  {
    var t := TrimStart(s);
    if Trim(s) == [] {
      assert TrimEnd(t) == [];
      forall i | 0 <= i < |s| ensures Blank(s[i]) {
        if i >= |s| - |t| {
          assert s[i] == t[i - (|s| - |t|)];
        }
      }
    } else {
      var r := Trim(s);
      assert r[0] == t[0];
      assert s[|s| - |t|] == t[0];
    }
  }

  /** A trimmed string starts and ends with a non-blank character and is a slice of the input. */
  lemma TrimIsSlice(s: string)
    ensures exists i, j :: 0 <= i <= j <= |s| && Trim(s) == s[i..j]
    ensures Trim(s) == [] || (!Blank(Trim(s)[0]) && !Blank(Trim(s)[|Trim(s)| - 1]))
  {
    var i, j := TrimBounds(s);
    TrimEnds(s);
  }

  /** Where the trimmed text sits in the input. */
  lemma TrimBounds(s: string) returns (i: nat, j: nat)
    ensures i <= j <= |s| && Trim(s) == s[i..j]
  {
    var t := TrimStart(s);
    i := |s| - |t|;
    j := i + |TrimEnd(t)|;
  }

  /** The trimmed text starts and ends with a non-blank character. */
  lemma TrimEnds(s: string)
    ensures Trim(s) == [] || (!Blank(Trim(s)[0]) && !Blank(Trim(s)[|Trim(s)| - 1]))
  {
    var t := TrimStart(s);
    PrefixEnds(t, TrimEnd(t));
  }

  /** A non-empty prefix of text starting with a non-blank starts with that character too. */
  lemma PrefixEnds(t: string, r: string)
    requires |r| <= |t| && r == t[..|r|] && (t == [] || !Blank(t[0])) && (r == [] || !Blank(r[|r| - 1]))
    ensures r == [] || (!Blank(r[0]) && !Blank(r[|r| - 1]))
  {
    if r != [] {
      assert r[0] == t[0];
    }
  }

  /** String.indexOf(char): the first position of `c`, or none. */
  function IndexOf(s: string, c: char): (r: Option<nat>)
    ensures r.None? <==> c !in s
    ensures r.Some? ==> r.value < |s| && s[r.value] == c && c !in s[..r.value]
  {
    if s == [] then None
    else if s[0] == c then Some(0)
    else
      match IndexOf(s[1..], c)
      case None => None
      case Some(i) =>
        assert s[..i + 1] == [s[0]] + s[1..][..i];
        Some(i + 1)
  }

  /** The first occurrence is the one indexOf reports. */
  lemma IndexOfFirst(s: string, c: char, i: nat)
    requires i < |s| && s[i] == c && c !in s[..i]
    ensures IndexOf(s, c) == Some(i)
  {
    assert s[..i + 1][i] == c;
  }

  /**
   * Every piece between occurrences of `sep`, empty pieces kept, built one
   * character at a time from the end: a separator opens a new empty piece,
   * any other character extends the last piece.
   */
  function SplitAll(s: string, sep: char): (parts: seq<string>)
    ensures |parts| >= 1
  {
    if s == [] then [""]
    else
      var init := SplitAll(s[..|s| - 1], sep);
      var c := s[|s| - 1];
      if c == sep then init + [""] else init[..|init| - 1] + [init[|init| - 1] + [c]]
  }

  /** No piece between separators holds the separator. */
  lemma {:induction false} SplitAllPiecesFree(s: string, sep: char)
    ensures forall k :: 0 <= k < |SplitAll(s, sep)| ==> sep !in SplitAll(s, sep)[k]
    decreases |s|
  {
    if s != [] {
      var p, c := s[..|s| - 1], s[|s| - 1];
      SplitAllPiecesFree(p, sep);
      var init := SplitAll(p, sep);
      if c != sep {
        assert sep !in init[|init| - 1];
        assert sep !in init[|init| - 1] + [c];
      }
    }
  }

  /** A separator at the end of the input adds one empty last piece. */
  lemma SplitAllSnoc(s: string, sep: char)
    ensures SplitAll(s + [sep], sep) == SplitAll(s, sep) + [""]
  {
    assert (s + [sep])[..|s|] == s;
  }

  /** Input ending in another character ends in a non-empty piece. */
  lemma LastPieceNonEmpty(s: string, sep: char)
    requires s != [] && s[|s| - 1] != sep
    ensures SplitAll(s, sep)[|SplitAll(s, sep)| - 1] != ""
  {
    var init := SplitAll(s[..|s| - 1], sep);
    assert SplitAll(s, sep)[|SplitAll(s, sep)| - 1] == init[|init| - 1] + [s[|s| - 1]];
  }

  /** The pieces with `sep` between consecutive ones. */
  function Join(parts: seq<string>, sep: char): string {
    if |parts| == 0 then ""
    else if |parts| == 1 then parts[0]
    else Join(parts[..|parts| - 1], sep) + [sep] + parts[|parts| - 1]
  }

  /** Splitting on `sep` loses nothing: joining the pieces gives the input back. */
  lemma {:induction false} JoinSplitAll(s: string, sep: char)
    ensures Join(SplitAll(s, sep), sep) == s
    decreases |s|
  {
    if s != [] {
      var p, c := s[..|s| - 1], s[|s| - 1];
      var init := SplitAll(p, sep);
      JoinSplitAll(p, sep);
      LastSplit(s);
      if c == sep {
        assert SplitAll(s, sep) == init + [""];
        JoinSnoc(init, "", sep);
      } else {
        assert SplitAll(s, sep) == init[..|init| - 1] + [init[|init| - 1] + [c]];
        JoinExtendLast(init, c, sep);
      }
    }
  }

  /** A non-empty text is its front followed by its last character. */
  lemma LastSplit(s: string)
    requires s != []
    ensures s == s[..|s| - 1] + [s[|s| - 1]]
  {
  }

  /** One more piece adds a separator and the piece. */
  lemma JoinSnoc(parts: seq<string>, x: string, sep: char)
    requires |parts| >= 1
    ensures Join(parts + [x], sep) == Join(parts, sep) + [sep] + x
  {
    assert (parts + [x])[..|parts|] == parts;
  }

  /** One more character on the last piece adds that character at the end. */
  lemma JoinExtendLast(parts: seq<string>, c: char, sep: char)
    requires |parts| >= 1
    ensures var n := |parts|;
            Join(parts[..n - 1] + [parts[n - 1] + [c]], sep) == Join(parts, sep) + [c]
  {
    var n := |parts|;
    var ext := parts[..n - 1] + [parts[n - 1] + [c]];
    if n > 1 {
      assert ext[..n - 1] == parts[..n - 1];
    }
  }

  /** Drops the empty strings at the end of a split, as String.split with limit 0 does. */
  function StripTrailingEmpty(parts: seq<string>): (r: seq<string>)
    ensures |r| <= |parts| && r == parts[..|r|]
    ensures r == [] || r[|r| - 1] != ""
    ensures forall k :: |r| <= k < |parts| ==> parts[k] == ""
  {
    if parts != [] && parts[|parts| - 1] == "" then StripTrailingEmpty(parts[..|parts| - 1]) else parts
  }

  /**
   * String.split(String.valueOf(sep)) for a separator that is not a regex
   * metacharacter: no match gives the whole input; otherwise the pieces with
   * trailing empty pieces removed.
   */
  function JavaSplit(s: string, sep: char): seq<string> {
    if sep !in s then [s] else StripTrailingEmpty(SplitAll(s, sep))
  }

  /** No piece of a split contains the separator. */
  lemma JavaSplitPiecesFree(s: string, sep: char)
    ensures forall k :: 0 <= k < |JavaSplit(s, sep)| ==> sep !in JavaSplit(s, sep)[k]
  {
    SplitAllPiecesFree(s, sep);
  }

  /** When the input does not end with the separator, the pieces join back to the input. */
  lemma JavaSplitJoin(s: string, sep: char)
    requires sep in s && s[|s| - 1] != sep
    ensures Join(JavaSplit(s, sep), sep) == s
  {
    var parts := SplitAll(s, sep);
    LastPieceNonEmpty(s, sep);
    assert StripTrailingEmpty(parts) == parts;
    JoinSplitAll(s, sep);
  }

  // ---- Integer.parseInt and Integer.toString ----

  predicate IsDigit(c: char) {
    '0' <= c <= '9'
  }

  predicate AllDigits(s: string) {
    forall i :: 0 <= i < |s| ==> IsDigit(s[i])
  }

  function DigitsValue(ds: string): nat
    requires AllDigits(ds)
  {
    if ds == [] then 0 else DigitsValue(ds[..|ds| - 1]) * 10 + (ds[|ds| - 1] as int - '0' as int)
  }

  /**
   * Integer.parseInt: an optional sign, then at least one decimal digit, and the
   * value must fit in 32 bits; anything else is a NumberFormatException (None).
   */
  function ParseInt(s: string): (r: Option<int>)
    ensures r.Some? ==> INT_MIN <= r.value <= INT_MAX
  {
    if s == [] then None
    else
      var digits := if s[0] == '-' || s[0] == '+' then s[1..] else s;
      if digits == [] || !AllDigits(digits) then None
      else
        var v: int := if s[0] == '-' then 0 - (DigitsValue(digits) as int) else DigitsValue(digits);
        if INT_MIN <= v <= INT_MAX then Some(v) else None
  }

  function DigitChar(d: nat): char
    requires d < 10
  {
    ('0' as int + d) as char
  }

  function NatToDigits(n: nat): (r: string)
    ensures r != [] && AllDigits(r)
  {
    if n < 10 then [DigitChar(n)] else NatToDigits(n / 10) + [DigitChar(n % 10)]
  }

  /** Integer.toString: decimal digits with a leading '-' for negative values. */
  function IntToString(n: int): string {
    if n < 0 then "-" + NatToDigits(-n) else NatToDigits(n)
  }

  lemma {:induction false} DigitsRoundTrip(n: nat)
    ensures DigitsValue(NatToDigits(n)) == n
  {
    if n >= 10 {
      DigitsRoundTrip(n / 10);
      var ds := NatToDigits(n);
      assert ds[..|ds| - 1] == NatToDigits(n / 10);
    }
  }

  /** Integer.parseInt(Integer.toString(n)) == n for every 32-bit n. */
  lemma ParseIntToString(n: int)
    requires INT_MIN <= n <= INT_MAX
    ensures ParseInt(IntToString(n)) == Some(n)
  {
    DigitsRoundTrip(if n < 0 then -n else n);
    if n < 0 {
      assert IntToString(n)[1..] == NatToDigits(-n);
    } else {
      var ds := NatToDigits(n);
      assert ds[0] != '-' && ds[0] != '+';
    }
  }
}
