/** The string operations of Python that the backend relies on: decimal
    rendering (`str(n)`, f-string interpolation), `int(s)`, slicing with an
    upper bound past the end (`s[:n]`), `startswith` and `split`. */
module Text {
  import opened Common

  // ---------------------------------------------------------------------
  // Decimal rendering
  // ---------------------------------------------------------------------

  predicate IsDigit(c: char) {
    '0' <= c <= '9'
  }

  function DigitChar(d: nat): (c: char)
    requires d < 10
    ensures IsDigit(c)
  {
    (('0' as int) + d) as char
  }

  function DigitValue(c: char): (d: nat)
    requires IsDigit(c)
    ensures d < 10
    ensures DigitChar(d) == c
  {
    (c as int) - ('0' as int)
  }

  predicate AllDigits(s: string) {
    forall i :: 0 <= i < |s| ==> IsDigit(s[i])
  }

  /** `str(n)` for a non-negative integer: shortest decimal digits. */
  function NatToString(n: nat): (s: string)
    ensures |s| >= 1 && AllDigits(s)
    ensures n >= 10 ==> s[0] != '0'
    decreases n
  {
    if n < 10 then [DigitChar(n)]
    else NatToString(n / 10) + [DigitChar(n % 10)]
  }

  /** The number a string of decimal digits denotes (most significant first). */
  function DigitsValue(s: string): nat
    requires AllDigits(s)
  {
    if s == [] then 0
    else 10 * DigitsValue(s[..|s| - 1]) + DigitValue(s[|s| - 1])
  }

  /** Reading back a rendered number gives the number. */
  lemma {:induction false} NatToStringRoundTrip(n: nat)
    ensures DigitsValue(NatToString(n)) == n
    decreases n
  {
    if n >= 10 {
      NatToStringRoundTrip(n / 10);
      var s := NatToString(n);
      assert s[..|s| - 1] == NatToString(n / 10);
    }
  }

  /** Distinct numbers render to distinct strings. */
  lemma NatToStringInjective(a: nat, b: nat)
    requires NatToString(a) == NatToString(b)
    ensures a == b
  {
    NatToStringRoundTrip(a);
    NatToStringRoundTrip(b);
  }

  /** One digit exactly below ten, at least two from ten on. */
  lemma {:induction false} NatToStringLength(n: nat)
    ensures |NatToString(n)| == 1 <==> n < 10
    ensures n >= 10 ==> |NatToString(n)| >= 2
  {
    if n >= 10 {
      assert |NatToString(n)| == |NatToString(n / 10)| + 1;
    }
  }

  /** `str(i)` for any integer: a minus sign before the magnitude. */
  function IntToString(i: int): (s: string)
    ensures |s| >= 1
    ensures i >= 0 ==> s == NatToString(i)
    ensures i < 0 ==> s == "-" + NatToString(-i)
  {
    if i < 0 then "-" + NatToString(-i) else NatToString(i)
  }

  // ---------------------------------------------------------------------
  // Python's int(str)
  // ---------------------------------------------------------------------

  /** `str.lower` on one character, for ASCII letters. */
  function LowerChar(c: char): (d: char)
    ensures 65 <= c as int <= 90 ==> d as int == c as int + 32   // 'A' to 'Z'
    ensures !(65 <= c as int <= 90) ==> d == c
  {
    var n := c as int;
    if 65 <= n <= 90 then (n + 32) as char else c
  }

  /** `str.lower` for ASCII letters: the same length, each character lowered. */
  function Lower(s: string): (r: string)
    ensures |r| == |s| && forall i :: 0 <= i < |s| ==> r[i] == LowerChar(s[i])
  {
    if s == [] then [] else [LowerChar(s[0])] + Lower(s[1..])
  }

  /** The ASCII characters `str.strip` and `int` treat as white space: the space,
      tab, line feed, vertical tab, form feed and carriage return, and the four
      separators `\x1c` to `\x1f`. */
  predicate IsSpace(c: char) {
    var n := c as int;
    n == 32 || 9 <= n <= 13 || 28 <= n <= 31
  }

  function StripLeft(s: string): (r: string)
    ensures |r| <= |s| && r == s[|s| - |r|..]
    ensures r == [] || !IsSpace(r[0])
  {
    if s != [] && IsSpace(s[0]) then
      var t := StripLeft(s[1..]);
      assert s[1..][|s| - 1 - |t|..] == s[|s| - |t|..];
      t
    else
      assert s[0..] == s;
      s
  }

  function StripRight(s: string): (r: string)
    ensures |r| <= |s| && r == s[..|r|]
    ensures r == [] || !IsSpace(r[|r| - 1])
  {
    if s != [] && IsSpace(s[|s| - 1]) then
      var t := StripRight(s[..|s| - 1]);
      assert s[..|s| - 1][..|t|] == s[..|t|];
      t
    else
      assert s[..|s|] == s;
      s
  }

  function Strip(s: string): string {
    StripRight(StripLeft(s))
  }

  /** A string of white space strips to nothing. */
  lemma {:induction false} AllSpaceStrips(s: string)
    requires forall i :: 0 <= i < |s| ==> IsSpace(s[i])
    ensures Strip(s) == ""
  {
    if s != [] {
      assert IsSpace(s[0]);
      AllSpaceStrips(s[1..]);
      assert StripLeft(s) == StripLeft(s[1..]);
    }
  }

  /** Digits with single underscores between them, as Python integer literals allow. */
  predicate DigitGroups(s: string) {
    && |s| >= 1
    && IsDigit(s[0]) && IsDigit(s[|s| - 1])
    && (forall i :: 0 <= i < |s| ==> IsDigit(s[i]) || s[i] == '_')
    && (forall i :: 0 <= i < |s| - 1 ==> !(s[i] == '_' && s[i + 1] == '_'))
  }

  function RemoveUnderscores(s: string): (r: string)
    ensures (forall i :: 0 <= i < |s| ==> IsDigit(s[i]) || s[i] == '_') ==> AllDigits(r)
  {
    if s == [] then []
    else if s[0] == '_' then RemoveUnderscores(s[1..])
    else [s[0]] + RemoveUnderscores(s[1..])
  }

  /** `int(s)` on a string: `None` where Python raises ValueError. */
  function ParseInt(s: string): (r: Option<int>)
    ensures r.Some? ==> Strip(s) != []
  {
    ParseStripped(Strip(s))
  }

  /** `int` on text already stripped of white space: an optional sign, then digit groups. */
  function ParseStripped(t: string): (r: Option<int>)
    ensures r.Some? ==> t != []
  {
    if t == [] then None
    else
      var body := if t[0] == '-' || t[0] == '+' then t[1..] else t;
      if DigitGroups(body) then
        var v: int := DigitsValue(RemoveUnderscores(body));
        Some(if t[0] == '-' then -v else v)
      else None
  }

  lemma {:induction false} RemoveUnderscoresOfDigits(s: string)
    requires AllDigits(s)
    ensures RemoveUnderscores(s) == s
  {
    if s != [] {
      assert IsDigit(s[0]);
      RemoveUnderscoresOfDigits(s[1..]);
    }
  }

  /** A string with no white space at either end is its own strip. */
  lemma StripUnchanged(s: string)
    requires s != [] && !IsSpace(s[0]) && !IsSpace(s[|s| - 1])
    ensures Strip(s) == s
  {
    assert StripLeft(s) == s;
  }

  /** Python's `int` reads back what `str` wrote. */
  lemma ParseIntOfIntToString(i: int)
    ensures ParseInt(IntToString(i)) == Some(i)
  {
    var m: nat := if i < 0 then -i else i;
    NatToStringRoundTrip(m);
    if i < 0 {
      ParseNegativeDigits(NatToString(m));
    } else {
      ParseDigits(NatToString(m));
    }
  }

  lemma DigitsAreGroups(d: string)
    requires |d| >= 1 && AllDigits(d)
    ensures DigitGroups(d) && RemoveUnderscores(d) == d
  {
    RemoveUnderscoresOfDigits(d);
  }

  lemma ParseDigits(d: string)
    requires |d| >= 1 && AllDigits(d)
    ensures ParseInt(d) == Some(DigitsValue(d))
  {
    assert IsDigit(d[0]) && IsDigit(d[|d| - 1]);
    StripUnchanged(d);
    DigitsAreGroups(d);
  }

  /** `int` ignores white space after the digits, the separators `\x1c` to `\x1f` included. */
  lemma TrailingSpaceIgnored(d: string, c: char)
    requires |d| >= 1 && AllDigits(d) && IsSpace(c)
    ensures ParseInt(d + [c]) == Some(DigitsValue(d))
  {
    StripTrailingSpace(d + [c], d);
    ParseDigits(d);
    StripUnchanged(d);
    assert ParseInt(d) == ParseStripped(d);
  }

  lemma StripTrailingSpace(s: string, d: string)
    requires |d| >= 1 && AllDigits(d)
    requires |s| == |d| + 1 && s[..|d|] == d && IsSpace(s[|d|])
    ensures Strip(s) == d
  {
    assert IsDigit(d[0]) && IsDigit(d[|d| - 1]);
    assert !IsSpace(s[0]) by {
      assert s[0] == d[0];
    }
    assert StripLeft(s) == s;
    assert s[..|s| - 1] == d;
    assert StripRight(s) == StripRight(d);
    assert StripRight(d) == d;
  }

  lemma ParseNegativeDigits(d: string)
    requires |d| >= 1 && AllDigits(d)
    ensures ParseInt("-" + d) == Some(-(DigitsValue(d) as int))
  {
    var s := "-" + d;
    assert s[0] == '-' && s[1..] == d;
    assert IsDigit(d[|d| - 1]) && s[|s| - 1] == d[|d| - 1];
    StripUnchanged(s);
    ParseStrippedNegative(s, d);
    assert ParseInt(s) == ParseStripped(s);
  }

  lemma ParseStrippedNegative(t: string, d: string)
    requires |d| >= 1 && AllDigits(d)
    requires |t| >= 2 && t[0] == '-' && t[1..] == d
    ensures ParseStripped(t) == Some(-(DigitsValue(d) as int))
  {
    DigitsAreGroups(d);
  }

  /** A string with no digit at all is not an integer. */
  lemma ParseIntNeedsDigit(s: string)
    requires forall i :: 0 <= i < |s| ==> !IsDigit(s[i])
    ensures ParseInt(s) == None
  {
    var t := Strip(s);
    if t != [] {
      var u := StripLeft(s);
      assert t == u[..|t|];
      assert u == s[|s| - |u|..];
      var body := if t[0] == '-' || t[0] == '+' then t[1..] else t;
      if |body| >= 1 {
        assert body[0] in s;
      }
    }
  }

  // ---------------------------------------------------------------------
  // Slicing, prefixes, occurrences
  // ---------------------------------------------------------------------

  /** `s[:n]` for n >= 0: the first n characters, or all of them. */
  function Take(s: string, n: nat): (r: string)
    ensures |r| == if n <= |s| then n else |s|
    ensures r == s[..|r|]
  {
    if n <= |s| then s[..n] else s
  }

  predicate StartsWith(s: string, prefix: string) {
    |prefix| <= |s| && s[..|prefix|] == prefix
  }

  /** `sep` occurs in `s` at position k. */
  predicate OccursAt(s: string, sep: string, k: int) {
    0 <= k && k + |sep| <= |s| && s[k..k + |sep|] == sep
  }

  ghost predicate Contains(s: string, sep: string) {
    exists k :: OccursAt(s, sep, k)
  }

  /** The first position of `sep` in `s` at or after `from`. */
  function FindFrom(s: string, sep: string, from: nat): (r: Option<nat>)
    requires |sep| > 0
    ensures r.Some? ==> from <= r.value && OccursAt(s, sep, r.value)
    decreases |s| - from
  {
    if from + |sep| > |s| then None
    else if s[from..from + |sep|] == sep then Some(from)
    else FindFrom(s, sep, from + 1)
  }

  /** Every occurrence at or after `from` is found, at it or earlier. */
  lemma {:induction false} FindFromFirst(s: string, sep: string, from: nat, j: int)
    requires |sep| > 0
    requires from <= j && OccursAt(s, sep, j)
    ensures FindFrom(s, sep, from).Some? && FindFrom(s, sep, from).value <= j
    decreases |s| - from
  {
    if s[from..from + |sep|] != sep {
      FindFromFirst(s, sep, from + 1, j);
    }
  }

  /** Nothing found means no occurrence at all. */
  lemma FindFromNone(s: string, sep: string)
    requires |sep| > 0
    requires FindFrom(s, sep, 0).None?
    ensures !Contains(s, sep)
  {
    forall j | OccursAt(s, sep, j) ensures false {
      FindFromFirst(s, sep, 0, j);
    }
  }

  /** `s.split(sep)` for a non-empty separator. */
  function Split(s: string, sep: string): (parts: seq<string>)
    requires |sep| > 0
    ensures |parts| >= 1
    decreases |s|, 1
  {
    SplitAt(s, sep, FindFrom(s, sep, 0))
  }

  /** `Split` once the first occurrence, if any, is known. */
  function SplitAt(s: string, sep: string, first: Option<nat>): (parts: seq<string>)
    requires |sep| > 0
    requires first.Some? ==> OccursAt(s, sep, first.value)
    ensures |parts| >= 1
    decreases |s|, 0
  {
    match first
    case None => [s]
    case Some(k) => [s[..k]] + Split(s[k + |sep|..], sep)
  }

  /** `sep.join(parts)`. */
  function Join(parts: seq<string>, sep: string): string
    requires |parts| >= 1
  {
    if |parts| == 1 then parts[0] else parts[0] + sep + Join(parts[1..], sep)
  }

  /** One step of `Split`: the piece before the first separator, then the rest. */
  lemma SplitStep(s: string, sep: string, k: nat)
    requires |sep| > 0
    requires FindFrom(s, sep, 0) == Some(k)
    ensures k + |sep| <= |s|
    ensures Split(s, sep) == [s[..k]] + Split(s[k + |sep|..], sep)
  {
    assert Split(s, sep) == SplitAt(s, sep, Some(k));
  }

  /** A string is the text before an occurrence, the separator, and the text after it. */
  lemma AroundOccurrence(s: string, sep: string, k: nat)
    requires OccursAt(s, sep, k)
    ensures s == s[..k] + sep + s[k + |sep|..]
  {
    assert s == s[..k] + s[k..k + |sep|] + s[k + |sep|..];
  }

  lemma JoinStep(parts: seq<string>, sep: string)
    requires |parts| >= 2
    ensures Join(parts, sep) == parts[0] + sep + Join(parts[1..], sep)
  {
  }

  /** Joining the pieces of a split restores the string. */
  lemma {:induction false} SplitJoin(s: string, sep: string)
    requires |sep| > 0
    ensures Join(Split(s, sep), sep) == s
    decreases |s|
  {
    var f := FindFrom(s, sep, 0);
    if f.Some? {
      var k := f.value;
      var rest := s[k + |sep|..];
      SplitStep(s, sep, k);
      SplitJoin(rest, sep);
      var parts := Split(s, sep);
      assert parts[0] == s[..k] && parts[1..] == Split(rest, sep);
      JoinStep(parts, sep);
      AroundOccurrence(s, sep, k);
    }
  }

  /** The text before the first occurrence holds no occurrence. */
  lemma HeadFree(s: string, sep: string, k: nat)
    requires |sep| > 0
    requires FindFrom(s, sep, 0) == Some(k)
    ensures !Contains(s[..k], sep)
  {
    forall j | OccursAt(s[..k], sep, j) ensures false {
      assert s[j..j + |sep|] == s[..k][j..j + |sep|];
      FindFromFirst(s, sep, 0, j);
    }
  }

  /** No piece of a split contains the separator. */
  lemma {:induction false} SplitPiecesFree(s: string, sep: string)
    requires |sep| > 0
    ensures forall i :: 0 <= i < |Split(s, sep)| ==> !Contains(Split(s, sep)[i], sep)
    decreases |s|
  {
    var f := FindFrom(s, sep, 0);
    if f.Some? {
      var k := f.value;
      SplitStep(s, sep, k);
      var rest := s[k + |sep|..];
      SplitPiecesFree(rest, sep);
      HeadFree(s, sep, k);
      var parts := Split(s, sep);
      forall i | 0 <= i < |parts| ensures !Contains(parts[i], sep) {
        if i > 0 {
          assert parts[i] == Split(rest, sep)[i - 1];
        }
      }
    } else {
      FindFromNone(s, sep);
    }
  }

  /** A string free of the separator does not split. */
  lemma SplitAbsent(s: string, sep: string)
    requires |sep| > 0
    requires !Contains(s, sep)
    ensures Split(s, sep) == [s]
  {
  }

  /** A string containing the separator splits into at least two pieces. */
  lemma SplitPresent(s: string, sep: string, k: nat)
    requires |sep| > 0
    requires OccursAt(s, sep, k)
    ensures |Split(s, sep)| >= 2
  {
    FindFromFirst(s, sep, 0, k);
  }

  /** An occurrence in a suffix is an occurrence in the whole string, shifted. */
  lemma OccursInSuffix(s: string, sep: string, off: nat, j: int)
    requires off <= |s|
    ensures OccursAt(s[off..], sep, j) <==> j >= 0 && OccursAt(s, sep, off + j)
  {
    if j >= 0 && off + j + |sep| <= |s| {
      assert s[off..][j..j + |sep|] == s[off + j..off + j + |sep|];
    }
  }

  /** Two non-overlapping occurrences give at least three pieces. */
  lemma SplitTwice(s: string, sep: string, i: nat, j: nat)
    requires |sep| > 0
    requires OccursAt(s, sep, i) && OccursAt(s, sep, j)
    requires i + |sep| <= j
    ensures |Split(s, sep)| >= 3
  {
    FindFromFirst(s, sep, 0, i);
    var k := FindFrom(s, sep, 0).value;
    SplitStep(s, sep, k);
    var off := k + |sep|;
    OccursInSuffix(s, sep, off, j - off);
    SplitPresent(s[off..], sep, j - off);
  }

  /** A single occurrence at k splits into the text before and after it. */
  lemma SplitOnce(s: string, sep: string, k: nat)
    requires |sep| > 0
    requires OccursAt(s, sep, k)
    requires forall j :: OccursAt(s, sep, j) ==> j == k
    ensures Split(s, sep) == [s[..k], s[k + |sep|..]]
  {
    FindFromFirst(s, sep, 0, k);
    var first := FindFrom(s, sep, 0).value;
    assert OccursAt(s, sep, first);
    SplitStep(s, sep, k);
    var off := k + |sep|;
    assert !Contains(s[off..], sep) by {
      forall j | OccursAt(s[off..], sep, j) ensures false {
        OccursInSuffix(s, sep, off, j);
      }
    }
    SplitAbsent(s[off..], sep);
  }

  /** `s.split(sep)[-1]`: the text after the last separator. */
  function LastPiece(s: string, sep: string): (r: string)
    requires |sep| > 0
  {
    var parts := Split(s, sep);
    parts[|parts| - 1]
  }

  lemma LastPieceStep(s: string, sep: string, k: nat)
    requires |sep| > 0
    requires FindFrom(s, sep, 0) == Some(k)
    ensures k + |sep| <= |s|
    ensures LastPiece(s, sep) == LastPiece(s[k + |sep|..], sep)
  {
    SplitStep(s, sep, k);
    LastOfCons(Split(s, sep), s[..k], Split(s[k + |sep|..], sep));
  }

  lemma LastOfCons(parts: seq<string>, head: string, tail: seq<string>)
    requires |tail| >= 1 && parts == [head] + tail
    ensures parts[|parts| - 1] == tail[|tail| - 1]
  {
  }

  /** The last piece is a separator-free suffix, the whole string when the separator is absent. */
  lemma LastPieceSuffix(s: string, sep: string)
    requires |sep| > 0
    ensures !Contains(LastPiece(s, sep), sep)
    ensures |LastPiece(s, sep)| <= |s| && LastPiece(s, sep) == s[|s| - |LastPiece(s, sep)|..]
    ensures !Contains(s, sep) ==> LastPiece(s, sep) == s
  {
    SplitPiecesFree(s, sep);
    var parts := Split(s, sep);
    assert !Contains(parts[|parts| - 1], sep);
    LastPieceIsSuffix(s, sep);
  }

  lemma {:induction false} LastPieceIsSuffix(s: string, sep: string)
    requires |sep| > 0
    ensures |LastPiece(s, sep)| <= |s| && LastPiece(s, sep) == s[|s| - |LastPiece(s, sep)|..]
    ensures !Contains(s, sep) ==> LastPiece(s, sep) == s
    decreases |s|
  {
    var f := FindFrom(s, sep, 0);
    if f.Some? {
      var k := f.value;
      var off := k + |sep|;
      var rest := s[off..];
      LastPieceIsSuffix(rest, sep);
      LastPieceStep(s, sep, k);
      var r := LastPiece(rest, sep);
      assert rest[|rest| - |r|..] == s[|s| - |r|..];
      assert OccursAt(s, sep, k);
    } else {
      assert Split(s, sep) == [s];
    }
  }

  /** When the separator occurs, it stands right before the last piece. */
  lemma {:induction false} LastPieceAfterSeparator(s: string, sep: string, r: string)
    requires |sep| > 0
    requires Contains(s, sep)
    requires r == LastPiece(s, sep)
    ensures |r| + |sep| <= |s|
    ensures OccursAt(s, sep, |s| - |r| - |sep|)
    decreases |s|
  {
    var j :| OccursAt(s, sep, j);
    FindFromFirst(s, sep, 0, j);
    var k := FindFrom(s, sep, 0).value;
    LastPieceStep(s, sep, k);
    var off := k + |sep|;
    var rest := s[off..];
    if Contains(rest, sep) {
      LastPieceAfterSeparator(rest, sep, r);
      OccursInSuffix(s, sep, off, |rest| - |r| - |sep|);
    } else {
      SplitAbsent(rest, sep);
      assert r == rest;
      assert OccursAt(s, sep, k);
    }
  }
}
