/**
 * The JavaScript string and regular-expression primitives the analyser relies on, over `seq<char>`:
 * the character classes `\s`, `\w` and `[A-Za-z0-9_\-]`, ASCII case mapping (what `/i` means for an
 * ASCII pattern), `trim`/`trimEnd`, `split(/\r?\n/)`, `indexOf`, `endsWith` and number rendering.
 */
module Text {

  // ---------------------------------------------------------------------------
  // Character classes
  // ---------------------------------------------------------------------------

  /** JavaScript white space and line terminators: what `\s` matches and `trim` removes. */
  predicate IsSpace(c: char) {
    || c == ' '
    || ('\t' <= c <= '\r')
    || c == '\U{00A0}' || c == '\U{1680}'
    || ('\U{2000}' <= c <= '\U{200A}')
    || c == '\U{2028}' || c == '\U{2029}' || c == '\U{202F}' || c == '\U{205F}'
    || c == '\U{3000}' || c == '\U{FEFF}'
  }

  predicate IsLineBreak(c: char) { c == '\r' || c == '\n' }

  predicate IsDigit(c: char) { '0' <= c <= '9' }

  /** `[A-Za-z0-9]` */
  predicate IsAlnum(c: char) { ('A' <= c <= 'Z') || ('a' <= c <= 'z') || IsDigit(c) }

  /** `\w`, the class that decides `\b`: `[A-Za-z0-9_]`. */
  predicate IsWordChar(c: char) { IsAlnum(c) || c == '_' }

  /** `[A-Za-z0-9_\-]`, the identifier class of every statement pattern. */
  predicate IsIdentChar(c: char) { IsWordChar(c) || c == '-' }

  // ---------------------------------------------------------------------------
  // ASCII case mapping
  // ---------------------------------------------------------------------------

  function UpperChar(c: char): char {
    if 'a' <= c <= 'z' then (c as int - 32) as char else c
  }

  function LowerChar(c: char): char {
    if 'A' <= c <= 'Z' then (c as int + 32) as char else c
  }

  function Upper(s: string): string {
    seq(|s|, i requires 0 <= i < |s| => UpperChar(s[i]))
  }

  function Lower(s: string): string {
    seq(|s|, i requires 0 <= i < |s| => LowerChar(s[i]))
  }

  /** Lower-casing twice is lower-casing once. */
  lemma LowerIdempotent(s: string)
    ensures Lower(Lower(s)) == Lower(s)
  {
  }

  /** `w` occurs at offset `i` of `s`, compared as a `/i` pattern compares ASCII letters. */
  predicate MatchesAt(s: string, i: nat, w: string) {
    i + |w| <= |s| && forall j :: 0 <= j < |w| ==> UpperChar(s[i + j]) == UpperChar(w[j])
  }

  /** Text without lower-case ASCII letters is its own upper-case form. */
  lemma UpperOfUpperCase(w: string)
    requires forall j :: 0 <= j < |w| ==> !('a' <= w[j] <= 'z')
    ensures Upper(w) == w
  {
  }

  /** The text a `/i` pattern matched, upper-cased, is the pattern's own upper-case spelling. */
  lemma UpperOfMatch(s: string, i: nat, w: string)
    requires MatchesAt(s, i, w)
    ensures Upper(s[i..i + |w|]) == Upper(w)
  {
    forall j | 0 <= j < |w| ensures Upper(s[i..i + |w|])[j] == Upper(w)[j] {
      assert s[i..i + |w|][j] == s[i + j];
    }
  }

  // ---------------------------------------------------------------------------
  // Scanning
  // ---------------------------------------------------------------------------

  /** `s[i]` is a word character; offsets outside `s` are not. */
  predicate IsWordAt(s: string, i: int) {
    0 <= i < |s| && IsWordChar(s[i])
  }

  /** `\b` at offset `i`. */
  predicate WordBoundary(s: string, i: nat) {
    IsWordAt(s, i - 1) != IsWordAt(s, i)
  }

  /** Where `\s*` starting at `k` stops. */
  function SkipSpaces(s: string, k: nat): (e: nat)
    requires k <= |s|
    ensures k <= e <= |s|
    ensures forall i :: k <= i < e ==> IsSpace(s[i])
    ensures e == |s| || !IsSpace(s[e])
    decreases |s| - k
  {
    if k == |s| || !IsSpace(s[k]) then k else SkipSpaces(s, k + 1)
  }

  /** Where `[A-Za-z0-9_\-]*` starting at `k` stops. */
  function IdentEnd(s: string, k: nat): (e: nat)
    requires k <= |s|
    ensures k <= e <= |s|
    ensures forall i :: k <= i < e ==> IsIdentChar(s[i])
    ensures e == |s| || !IsIdentChar(s[e])
    decreases |s| - k
  {
    if k == |s| || !IsIdentChar(s[k]) then k else IdentEnd(s, k + 1)
  }

  /** Where `[A-Za-z0-9]*` starting at `k` stops. */
  function AlnumEnd(s: string, k: nat): (e: nat)
    requires k <= |s|
    ensures k <= e <= |s|
    ensures forall i :: k <= i < e ==> IsAlnum(s[i])
    ensures e == |s| || !IsAlnum(s[e])
    decreases |s| - k
  {
    if k == |s| || !IsAlnum(s[k]) then k else AlnumEnd(s, k + 1)
  }

  /** Where `[^\r\n]*` starting at `k` stops: the next line break, or the end of the text. */
  function LineEnd(s: string, k: nat): (e: nat)
    requires k <= |s|
    ensures k <= e <= |s|
    ensures forall i :: k <= i < e ==> !IsLineBreak(s[i])
    ensures e == |s| || IsLineBreak(s[e])
    decreases |s| - k
  {
    if k == |s| || IsLineBreak(s[k]) then k else LineEnd(s, k + 1)
  }

  /** The first offset at or after `k` holding `c`, or `|s|` when there is none. */
  function IndexOfChar(s: string, k: nat, c: char): (e: nat)
    requires k <= |s|
    ensures k <= e <= |s|
    ensures forall i :: k <= i < e ==> s[i] != c
    ensures e < |s| ==> s[e] == c
    decreases |s| - k
  {
    if k == |s| || s[k] == c then k else IndexOfChar(s, k + 1, c)
  }

  lemma IndexOfCharAt(s: string, k: nat, c: char, m: nat)
    requires k <= m < |s| && s[m] == c
    requires forall i :: k <= i < m ==> s[i] != c
    ensures IndexOfChar(s, k, c) == m
  {
  }

  /** `sub` occurs in `s` at offset `i`. */
  predicate OccursAt(s: string, i: nat, sub: string) {
    i + |sub| <= |s| && s[i..i + |sub|] == sub
  }

  /** JavaScript `s.indexOf(sub)`: the first offset where `sub` occurs, or -1. */
  function IndexOf(s: string, sub: string): (r: int)
    ensures -1 <= r <= |s|
    ensures r >= 0 ==> OccursAt(s, r, sub)
    ensures r >= 0 ==> forall i: nat :: i < r ==> !OccursAt(s, i, sub)
    ensures r < 0 ==> forall i: nat :: !OccursAt(s, i, sub)
  {
    IndexOfFrom(s, sub, 0)
  }

  function IndexOfFrom(s: string, sub: string, k: nat): (r: int)
    requires k <= |s| + 1
    ensures r == -1 || k <= r <= |s|
    ensures r >= 0 ==> OccursAt(s, r, sub)
    ensures r >= 0 ==> forall i: nat :: k <= i < r ==> !OccursAt(s, i, sub)
    ensures r < 0 ==> forall i: nat :: k <= i ==> !OccursAt(s, i, sub)
    decreases |s| + 1 - k
  {
    if k + |sub| > |s| then -1
    else if OccursAt(s, k, sub) then k
    else IndexOfFrom(s, sub, k + 1)
  }

  /** JavaScript `s.includes(sub)`. */
  predicate Contains(s: string, sub: string) {
    IndexOf(s, sub) >= 0
  }

  /** JavaScript `s.endsWith(suffix)`. */
  predicate EndsWith(s: string, suffix: string) {
    |suffix| <= |s| && s[|s| - |suffix|..] == suffix
  }

  // ---------------------------------------------------------------------------
  // trim / trimEnd
  // ---------------------------------------------------------------------------

  function TrimStart(s: string): (r: string)
    ensures |r| <= |s|
  {
    if s != [] && IsSpace(s[0]) then TrimStart(s[1..]) else s
  }

  /** `trimStart` removes the longest all-white-space prefix and nothing else. */
  lemma {:induction false} TrimStartShape(s: string)
    ensures var r := TrimStart(s);
      && r == s[|s| - |r|..]
      && (r == [] || !IsSpace(r[0]))
      && forall i :: 0 <= i < |s| - |r| ==> IsSpace(s[i])
  {
    if s != [] && IsSpace(s[0]) {
      TrimStartShape(s[1..]);
      var r := TrimStart(s);
      forall i | 0 <= i < |s| - |r| ensures IsSpace(s[i]) {
        if i > 0 {
          assert s[i] == s[1..][i - 1];
        }
      }
    }
  }

  /** JavaScript `s.trimEnd()`. */
  function TrimEnd(s: string): (r: string)
    ensures |r| <= |s|
  {
    if s != [] && IsSpace(s[|s| - 1]) then TrimEnd(s[..|s| - 1]) else s
  }

  /** `trimEnd` removes the longest all-white-space suffix and nothing else. */
  lemma {:induction false} TrimEndShape(s: string)
    ensures var r := TrimEnd(s);
      && r == s[..|r|]
      && (r == [] || !IsSpace(r[|r| - 1]))
      && forall i :: |r| <= i < |s| ==> IsSpace(s[i])
  {
    if s != [] && IsSpace(s[|s| - 1]) {
      TrimEndShape(s[..|s| - 1]);
      var r := TrimEnd(s);
      forall i | |r| <= i < |s| ensures IsSpace(s[i]) {
        if i < |s| - 1 {
          assert s[i] == s[..|s| - 1][i];
        }
      }
    }
  }

  /** JavaScript `s.trim()`. */
  function Trim(s: string): (r: string) {
    TrimEnd(TrimStart(s))
  }

  /** Leading white space in front of a word that starts and ends with non-space is all `trim` removes. */
  lemma {:induction false} TrimIndented(ws: string, s: string)
    requires forall i :: 0 <= i < |ws| ==> IsSpace(ws[i])
    requires s != [] && !IsSpace(s[0]) && !IsSpace(s[|s| - 1])
    ensures Trim(ws + s) == s
  {
    TrimStartPrefix(ws, s);
  }

  lemma {:induction false} TrimStartPrefix(ws: string, s: string)
    requires forall i :: 0 <= i < |ws| ==> IsSpace(ws[i])
    requires s != [] && !IsSpace(s[0])
    ensures TrimStart(ws + s) == s
    decreases |ws|
  {
    var t := ws + s;
    if ws == [] {
      assert t == s;
    } else {
      assert t[0] == ws[0];
      assert t[1..] == ws[1..] + s;
      TrimStartPrefix(ws[1..], s);
    }
  }

  // ---------------------------------------------------------------------------
  // Lines
  // ---------------------------------------------------------------------------

  /**
   * JavaScript `s.split(/\r?\n/)`: cut at every `\n`, dropping a `\r` that immediately precedes it.
   * A lone `\r` stays inside its line.
   */
  function SplitLines(s: string): (r: seq<string>)
    ensures |r| >= 1
    decreases |s|
  {
    var i := IndexOfChar(s, 0, '\n');
    if i == |s| then [s]
    else [if i > 0 && s[i - 1] == '\r' then s[..i - 1] else s[..i]] + SplitLines(s[i + 1..])
  }

  /** The lines joined with `\n` between them (and none after the last). */
  function JoinLines(ls: seq<string>): string
    decreases |ls|
  {
    if |ls| == 0 then ""
    else if |ls| == 1 then ls[0]
    else ls[0] + "\n" + JoinLines(ls[1..])
  }

  /** A line `split(/\r?\n/)` gives back unchanged: no `\n` inside, no `\r` at its end. */
  predicate IsPlainLine(l: string) {
    '\n' !in l && (l == [] || l[|l| - 1] != '\r')
  }

  /** Splitting lines that were joined with `\n` gives them back. */
  lemma {:induction false} SplitJoinLines(ls: seq<string>)
    requires |ls| >= 1
    requires forall i :: 0 <= i < |ls| ==> IsPlainLine(ls[i])
    ensures SplitLines(JoinLines(ls)) == ls
    decreases |ls|
  {
    if |ls| == 1 {
      var s := ls[0];
      assert IndexOfChar(s, 0, '\n') == |s|;
    } else {
      SplitFirstLine(ls[0], JoinLines(ls[1..]));
      forall i | 0 <= i < |ls[1..]| ensures IsPlainLine(ls[1..][i]) {
        assert ls[1..][i] == ls[i + 1];
      }
      SplitJoinLines(ls[1..]);
      assert ls == [ls[0]] + ls[1..];
    }
  }

  /** A plain line followed by `\n` splits off as the first line. */
  lemma SplitFirstLine(a: string, rest: string)
    requires IsPlainLine(a)
    ensures SplitLines(a + "\n" + rest) == [a] + SplitLines(rest)
  {
    var s := a + "\n" + rest;
    assert s[|a|] == '\n';
    forall i | 0 <= i < |a| ensures s[i] != '\n' {
      assert s[i] == a[i];
    }
    IndexOfCharAt(s, 0, '\n', |a|);
    assert s[..|a|] == a;
    assert s[|a| + 1..] == rest;
    assert |a| > 0 ==> s[|a| - 1] == a[|a| - 1];
  }

  // ---------------------------------------------------------------------------
  // Numbers
  // ---------------------------------------------------------------------------

  function DigitChar(d: nat): char
    requires d < 10
  {
    ('0' as int + d) as char
  }

  /** The decimal rendering of a natural number, as template interpolation writes it. */
  function NatToString(n: nat): (r: string)
    ensures |r| >= 1
    ensures forall i :: 0 <= i < |r| ==> IsDigit(r[i])
    ensures n >= 10 ==> r[0] != '0'
  {
    if n < 10 then [DigitChar(n)] else NatToString(n / 10) + [DigitChar(n % 10)]
  }

  /** The decimal rendering of an integer, with a leading `-` when it is negative. */
  function IntToString(n: int): (r: string)
    ensures |r| >= 1 && IsDigit(r[|r| - 1])
  {
    if n < 0 then "-" + NatToString(-n) else NatToString(n)
  }

  function DigitValue(c: char): nat
    requires IsDigit(c)
  {
    c as int - '0' as int
  }

  /** The value of a string of decimal digits. */
  function DigitsValue(s: string): nat
    requires forall i :: 0 <= i < |s| ==> IsDigit(s[i])
  {
    if s == [] then 0 else DigitsValue(s[..|s| - 1]) * 10 + DigitValue(s[|s| - 1])
  }

  /** Reading back a rendered natural number gives the number. */
  lemma {:induction false} DigitsValueOfNatToString(n: nat)
    ensures DigitsValue(NatToString(n)) == n
  {
    if n >= 10 {
      var r := NatToString(n);
      assert r[..|r| - 1] == NatToString(n / 10);
      DigitsValueOfNatToString(n / 10);
    }
  }
}
