/**
 * Statement extraction from ABL source text: the file-name filters and the three scanning passes of
 * `extractStatementsFromSource` (`FOR EACH|FIRST|LAST`, `FIND [FIRST|LAST]`, `CAN-FIND(…)`).
 *
 * Each global, case-insensitive regular expression is modelled by a scanner `…At(s, i)` that says
 * whether the pattern matches at offset `i` and what it captures, with the backtracking of the
 * pattern worked out by hand; `Exec` finds the leftmost match at or after `lastIndex`, as
 * `RegExp.prototype.exec` does, and `Pass` is what a `while (regex.exec(text))` loop visits.
 */
module AblAnalyzer {
  import opened Wrappers
  import opened Text
  import opened Sequences

  datatype StatementType = ForEach | ForFirst | ForLast | Find | FindFirst | FindLast

  /** One statement found in a source file; `usedFields` is present only for CAN-FIND statements. */
  datatype AnalyzedStatement = AnalyzedStatement(
    stype: StatementType,
    table: string,
    line: nat,
    raw: string,
    usedFields: Option<seq<string>>)

  datatype FileAnalysis = FileAnalysis(fileName: string, statements: seq<AnalyzedStatement>)

  // ---------------------------------------------------------------------------
  // File names
  // ---------------------------------------------------------------------------

  /** ABL procedures, windows, includes and classes. */
  predicate IsSourceFile(name: string) {
    var lower := Lower(name);
    EndsWith(lower, ".p") || EndsWith(lower, ".w") || EndsWith(lower, ".i") || EndsWith(lower, ".cls")
  }

  predicate IsZipFile(name: string) {
    EndsWith(Lower(name), ".zip")
  }

  /** No name is both an ABL source file and a zip archive. */
  lemma SourceAndZipExclusive(name: string)
    ensures !(IsSourceFile(name) && IsZipFile(name))
  {
    var lower := Lower(name);
    if IsZipFile(name) {
      var n := |lower|;
      assert lower[n - 4..] == ".zip";
      assert lower[n - 1] == 'p' && lower[n - 2] == 'i' && lower[n - 3] == 'z' && lower[n - 4] == '.';
      assert !EndsWith(lower, ".p") by { assert lower[n - 2..][0] == 'i'; }
      assert !EndsWith(lower, ".w") by { assert lower[n - 2..][1] == 'p'; }
      assert !EndsWith(lower, ".i") by { assert lower[n - 2..][1] == 'p'; }
      assert !EndsWith(lower, ".cls") by { assert lower[n - 4..][1] == 'z'; }
    }
  }

  /** The extension test ignores letter case. */
  lemma SourceFileIgnoresCase(name: string)
    ensures IsSourceFile(Upper(name)) == IsSourceFile(name)
    ensures IsZipFile(Upper(name)) == IsZipFile(name)
  {
    assert Lower(Upper(name)) == Lower(name);
  }

  // ---------------------------------------------------------------------------
  // Line numbers
  // ---------------------------------------------------------------------------

  /**
   * The separators `split(/\r\n|\r|\n/)` finds, scanning left to right and preferring `\r\n` to a
   * lone `\r`.
   */
  function SplitSeparators(p: string): nat {
    if p == [] then 0
    else if |p| >= 2 && p[0] == '\r' && p[1] == '\n' then 1 + SplitSeparators(p[2..])
    else if IsLineBreak(p[0]) then 1 + SplitSeparators(p[1..])
    else SplitSeparators(p[1..])
  }

  /** `getLineNumber(index)`: the number of pieces the text before `index` splits into. */
  function LineNumber(text: string, index: nat): nat
    requires index <= |text|
  {
    1 + SplitSeparators(text[..index])
  }

  /** Whether the character `c`, following `p`, ends a line: `\r` always, `\n` unless it follows `\r`. */
  function BreakAfter(p: string, c: char): nat {
    if c == '\r' || (c == '\n' && !(p != [] && p[|p| - 1] == '\r')) then 1 else 0
  }

  /** Line breaks counted from the end of `p`; `\r\n`, a lone `\r` and a lone `\n` each count once. */
  function LineBreaks(p: string): nat {
    if p == [] then 0 else LineBreaks(p[..|p| - 1]) + BreakAfter(p[..|p| - 1], p[|p| - 1])
  }

  lemma {:induction false} SplitSeparatorsSnoc(p: string, c: char)
    ensures SplitSeparators(p + [c]) == SplitSeparators(p) + BreakAfter(p, c)
    decreases |p|
  {
    var q := p + [c];
    if p == [] {
    } else if |p| >= 2 && p[0] == '\r' && p[1] == '\n' {
      assert q[2..] == p[2..] + [c];
      SplitSeparatorsSnoc(p[2..], c);
      assert BreakAfter(p[2..], c) == BreakAfter(p, c);
    } else if |p| == 1 && p[0] == '\r' && c == '\n' {
      assert q[2..] == [];
    } else {
      assert q[1..] == p[1..] + [c];
      SplitSeparatorsSnoc(p[1..], c);
      assert BreakAfter(p[1..], c) == BreakAfter(p, c);
    }
  }

  /** Counting separators the way `split` does agrees with counting line breaks from the end. */
  lemma {:induction false} SeparatorsAreLineBreaks(p: string)
    ensures SplitSeparators(p) == LineBreaks(p)
  {
    if p != [] {
      var init := p[..|p| - 1];
      assert p == init + [p[|p| - 1]];
      SeparatorsAreLineBreaks(init);
      SplitSeparatorsSnoc(init, p[|p| - 1]);
    }
  }

  /** Line numbers never decrease as the offset grows. */
  lemma {:induction false} LineNumberMonotone(text: string, i: nat, j: nat)
    requires i <= j <= |text|
    ensures 1 <= LineNumber(text, i) <= LineNumber(text, j)
    decreases j
  {
    SeparatorsAreLineBreaks(text[..i]);
    SeparatorsAreLineBreaks(text[..j]);
    if i < j {
      LineNumberMonotone(text, i, j - 1);
      SeparatorsAreLineBreaks(text[..j - 1]);
      assert text[..j][..j - 1] == text[..j - 1];
    }
  }

  /** A line break strictly between two offsets puts them on different lines. */
  lemma LineNumberIncreases(text: string, i: nat, e: nat, j: nat)
    requires i <= e < j <= |text|
    requires text[e] == '\r' || (text[e] == '\n' && (e == 0 || text[e - 1] != '\r'))
    ensures LineNumber(text, i) < LineNumber(text, j)
  {
    LineNumberMonotone(text, i, e);
    LineNumberMonotone(text, e + 1, j);
    SeparatorsAreLineBreaks(text[..e]);
    SeparatorsAreLineBreaks(text[..e + 1]);
    assert text[..e + 1][..e] == text[..e];
  }

  // ---------------------------------------------------------------------------
  // The three statement patterns
  // ---------------------------------------------------------------------------

  datatype Pattern = ForPattern | FindPattern | CanFindPattern

  /**
   * What `exec` reports: where the match starts and ends, the qualifier group (`""` when it did not
   * take part), the table group and where it starts, and the CAN-FIND where-block group.
   */
  datatype RegexMatch = RegexMatch(
    index: nat,
    end: nat,
    kind: string,
    table: string,
    tableAt: nat,
    whereBlock: string)

  /** The table group is a non-empty run of `[A-Za-z0-9_\-]` inside the match. */
  predicate TableCaptured(s: string, m: RegexMatch) {
    && m.index < m.tableAt
    && m.tableAt + |m.table| <= m.end <= |s|
    && m.table != []
    && s[m.tableAt..m.tableAt + |m.table|] == m.table
    && forall q :: 0 <= q < |m.table| ==> IsIdentChar(m.table[q])
  }

  /** `[^\r\n]*` took the rest of the line: no line break from the table onward, one (or the end) right after. */
  predicate RunsToLineEnd(s: string, m: RegexMatch)
    requires m.end <= |s|
  {
    && (m.end == |s| || IsLineBreak(s[m.end]))
    && forall q :: m.tableAt <= q < m.end ==> !IsLineBreak(s[q])
  }

  /** The lazy where block stopped at the first `)`, which is the last character of the match. */
  predicate ClosedAtParen(s: string, m: RegexMatch)
    requires TableCaptured(s, m)
  {
    s[m.end - 1] == ')' && ')' !in m.whereBlock
  }

  /** What a match of each pattern guarantees about the text it covers. */
  predicate MatchFacts(s: string, m: RegexMatch, pat: Pattern) {
    && TableCaptured(s, m)
    && match pat
       case CanFindPattern => ClosedAtParen(s, m)
       case _ => RunsToLineEnd(s, m) && !IsLineBreak(s[m.index])
  }

  /** `[A-Za-z0-9_\-]+[^\r\n]*` from offset `k`: the table group, then the rest of the line. */
  function TableToLineEnd(s: string, i: nat, k: nat, kind: string): (r: Option<RegexMatch>)
    requires i < k <= |s|
    ensures r.Some? ==> r.value.index == i && r.value.kind == kind
    ensures r.Some? ==> TableCaptured(s, r.value) && RunsToLineEnd(s, r.value)
  {
    var e := IdentEnd(s, k);
    if e == k then None else Some(RegexMatch(i, LineEnd(s, e), kind, s[k..e], k, []))
  }

  /** The length of `EACH|FIRST|LAST` at offset `j`, or 0 when none of them is there. */
  function ForQualifierLength(s: string, j: nat): (n: nat)
    ensures n > 0 ==> j + n <= |s|
  {
    if MatchesAt(s, j, "EACH") then 4
    else if MatchesAt(s, j, "FIRST") then 5
    else if MatchesAt(s, j, "LAST") then 4
    else 0
  }

  /** The length of `FIRST|LAST` at offset `j`, or 0 when neither is there. */
  function FindQualifierLength(s: string, j: nat): (n: nat)
    ensures n > 0 ==> j + n <= |s|
  {
    if MatchesAt(s, j, "FIRST") then 5
    else if MatchesAt(s, j, "LAST") then 4
    else 0
  }

  /** A qualifier found at `j` is `EACH`, `FIRST` or `LAST` in some letter case. */
  lemma ForQualifierSpelling(s: string, j: nat)
    ensures var n := ForQualifierLength(s, j);
      n > 0 ==> Upper(s[j..j + n]) in ["EACH", "FIRST", "LAST"]
  {
    if MatchesAt(s, j, "EACH") {
      UpperOfMatch(s, j, "EACH");
      UpperOfUpperCase("EACH");
    } else if MatchesAt(s, j, "FIRST") {
      UpperOfMatch(s, j, "FIRST");
      UpperOfUpperCase("FIRST");
    } else if MatchesAt(s, j, "LAST") {
      UpperOfMatch(s, j, "LAST");
      UpperOfUpperCase("LAST");
    }
  }

  /** A qualifier found at `j` is `FIRST` or `LAST` in some letter case. */
  lemma FindQualifierSpelling(s: string, j: nat)
    ensures var n := FindQualifierLength(s, j);
      n > 0 ==> Upper(s[j..j + n]) in ["FIRST", "LAST"]
  {
    if MatchesAt(s, j, "FIRST") {
      UpperOfMatch(s, j, "FIRST");
      UpperOfUpperCase("FIRST");
    } else if MatchesAt(s, j, "LAST") {
      UpperOfMatch(s, j, "LAST");
      UpperOfUpperCase("LAST");
    }
  }

  /** `\bFOR\s+(EACH|FIRST|LAST)\s+([A-Za-z0-9_\-]+)[^\r\n]*`, case-insensitive, at offset `i`. */
  function ForAt(s: string, i: nat): (r: Option<RegexMatch>)
    ensures r.Some? ==> r.value.index == i && TableCaptured(s, r.value) && RunsToLineEnd(s, r.value)
    ensures r.Some? ==> MatchesAt(s, i, "FOR") && WordBoundary(s, i) && !IsLineBreak(s[i])
    ensures r.Some? ==> Upper(r.value.kind) in ["EACH", "FIRST", "LAST"]
  {
    if !(MatchesAt(s, i, "FOR") && WordBoundary(s, i)) then None
    else
      assert UpperChar(s[i]) == UpperChar("FOR"[0]);
      var j := SkipSpaces(s, i + 3);
      var n := ForQualifierLength(s, j);
      if j == i + 3 || n == 0 then None
      else
        var k := SkipSpaces(s, j + n);
        ForQualifierSpelling(s, j);
        if k == j + n then None else TableToLineEnd(s, i, k, s[j..j + n])
  }

  /**
   * `\bFIND\s+(FIRST|LAST)?\s*([A-Za-z0-9_\-]+)[^\r\n]*`, case-insensitive, at offset `i`. The
   * optional qualifier is tried first; when no table follows it, the engine backtracks and takes the
   * qualifier's own letters as the table (so `FIND FIRST.` names table `FIRST`).
   */
  function FindAt(s: string, i: nat): (r: Option<RegexMatch>)
    ensures r.Some? ==> r.value.index == i && TableCaptured(s, r.value) && RunsToLineEnd(s, r.value)
    ensures r.Some? ==> MatchesAt(s, i, "FIND") && WordBoundary(s, i) && !IsLineBreak(s[i])
    ensures r.Some? ==> r.value.kind == [] || Upper(r.value.kind) in ["FIRST", "LAST"]
  {
    if !(MatchesAt(s, i, "FIND") && WordBoundary(s, i)) then None
    else
      assert UpperChar(s[i]) == UpperChar("FIND"[0]);
      var j := SkipSpaces(s, i + 4);
      if j == i + 4 then None
      else
        var n := FindQualifierLength(s, j);
        FindQualifierSpelling(s, j);
        var withQualifier := if n > 0 then TableToLineEnd(s, i, SkipSpaces(s, j + n), s[j..j + n]) else None;
        if withQualifier.Some? then withQualifier else TableToLineEnd(s, i, j, [])
  }

  /**
   * The part of `\bcan-find\s*\(\s*(?:first\s+)?([A-Za-z0-9_\-]+)\s+where\s+([\s\S]*?)\)` after
   * the optional `first`, from offset `m`: the table, `where`, and the lazy where block, which ends
   * at the first `)`.
   */
  function CanFindTail(s: string, i: nat, m: nat): (r: Option<RegexMatch>)
    requires i < m <= |s|
    ensures r.Some? ==> r.value.index == i && r.value.tableAt == m && TableCaptured(s, r.value)
    ensures r.Some? ==> ClosedAtParen(s, r.value)
  {
    var e := IdentEnd(s, m);
    var w := SkipSpaces(s, e);
    if e == m || w == e || !MatchesAt(s, w, "where") then None
    else
      var b := SkipSpaces(s, w + 5);
      var p := IndexOfChar(s, b, ')');
      if b == w + 5 || p == |s| then None
      else Some(RegexMatch(i, p + 1, [], s[m..e], m, s[b..p]))
  }

  /** The CAN-FIND pattern at offset `i`: with `first ` skipped when that leads to a match, else without. */
  function CanFindAt(s: string, i: nat): (r: Option<RegexMatch>)
    ensures r.Some? ==> r.value.index == i && TableCaptured(s, r.value)
    ensures r.Some? ==> ClosedAtParen(s, r.value)
    ensures r.Some? ==> MatchesAt(s, i, "can-find") && WordBoundary(s, i)
  {
    if !(MatchesAt(s, i, "can-find") && WordBoundary(s, i)) then None
    else
      var j := SkipSpaces(s, i + 8);
      if !(j < |s| && s[j] == '(') then None
      else
        var k := SkipSpaces(s, j + 1);
        var viaFirst :=
          if MatchesAt(s, k, "first") && SkipSpaces(s, k + 5) > k + 5
          then CanFindTail(s, i, SkipSpaces(s, k + 5))
          else None;
        if viaFirst.Some? then viaFirst else CanFindTail(s, i, k)
  }

  // ---------------------------------------------------------------------------
  // Global regular expressions
  // ---------------------------------------------------------------------------

  /**
   * A scanner `at` over a text of length `n` reports, for each offset, whether its pattern matches
   * there; a match it reports starts at that offset and ends after it, inside the text.
   */
  predicate Reports(at: nat -> Option<RegexMatch>, n: nat) {
    forall i: nat :: i <= n && at(i).Some? ==> at(i).value.index == i < at(i).value.end <= n
  }

  /** `regex.exec(text)` with `regex.lastIndex == from`: the leftmost match at or after `from`. */
  function FirstMatch(at: nat -> Option<RegexMatch>, n: nat, from: nat): (r: Option<RegexMatch>)
    requires from <= n
    ensures Reports(at, n) && r.Some? ==>
      from <= r.value.index < r.value.end <= n && at(r.value.index) == r
    decreases n - from
  {
    if at(from).Some? then at(from) else if from == n then None else FirstMatch(at, n, from + 1)
  }

  /** No offset between `from` and the match `FirstMatch` reports holds a match. */
  lemma {:induction false} FirstMatchIsLeftmost(at: nat -> Option<RegexMatch>, n: nat, from: nat)
    requires Reports(at, n) && from <= n && FirstMatch(at, n, from).Some?
    ensures forall i :: from <= i < FirstMatch(at, n, from).value.index ==> at(i).None?
    decreases n - from
  {
    if at(from).None? {
      FirstMatchIsLeftmost(at, n, from + 1);
    }
  }

  /** `FirstMatch` reports nothing only when no offset from `from` on holds a match. */
  lemma {:induction false} FirstMatchNone(at: nat -> Option<RegexMatch>, n: nat, from: nat)
    requires from <= n && FirstMatch(at, n, from).None?
    ensures forall i :: from <= i <= n ==> at(i).None?
    decreases n - from
  {
    if from < n {
      FirstMatchNone(at, n, from + 1);
    }
  }

  /** The matches a `while ((match = regex.exec(text)) !== null)` loop visits, from `lastIndex == from`. */
  function AllMatches(at: nat -> Option<RegexMatch>, n: nat, from: nat): (ms: seq<RegexMatch>)
    requires Reports(at, n) && from <= n
    ensures forall k :: 0 <= k < |ms| ==>
      from <= ms[k].index < ms[k].end <= n && at(ms[k].index) == Some(ms[k])
    decreases n - from
  {
    match FirstMatch(at, n, from)
    case None => []
    case Some(m) => [m] + AllMatches(at, n, m.end)
  }

  /** The visited matches do not overlap and come in text order. */
  lemma {:induction false} AllMatchesOrdered(at: nat -> Option<RegexMatch>, n: nat, from: nat)
    requires Reports(at, n) && from <= n
    ensures forall a, b :: 0 <= a < b < |AllMatches(at, n, from)| ==>
      AllMatches(at, n, from)[a].end <= AllMatches(at, n, from)[b].index
    decreases n - from
  {
    match FirstMatch(at, n, from) {
      case None =>
      case Some(m) =>
        AllMatchesOrdered(at, n, m.end);
        var ms := AllMatches(at, n, from);
        var rest := AllMatches(at, n, m.end);
        assert ms == [m] + rest;
        forall a, b | 0 <= a < b < |ms| ensures ms[a].end <= ms[b].index {
          assert ms[b] == rest[b - 1];
          if a > 0 {
            assert ms[a] == rest[a - 1];
          }
        }
    }
  }

  /** No match is skipped: every offset between two visited matches, or after the last, holds none. */
  lemma {:induction false} AllMatchesComplete(at: nat -> Option<RegexMatch>, n: nat, from: nat, i: nat)
    requires Reports(at, n) && from <= i <= n && at(i).Some?
    ensures exists k :: (0 <= k < |AllMatches(at, n, from)| &&
      AllMatches(at, n, from)[k].index <= i < AllMatches(at, n, from)[k].end)
    decreases n - from
  {
    match FirstMatch(at, n, from) {
      case None =>
        FirstMatchNone(at, n, from);
      case Some(m) =>
        var ms := AllMatches(at, n, from);
        assert ms == [m] + AllMatches(at, n, m.end);
        FirstMatchIsLeftmost(at, n, from);
        if i < m.end {
          assert ms[0] == m;
        } else {
          AllMatchesComplete(at, n, m.end, i);
          var k :| 0 <= k < |AllMatches(at, n, m.end)| &&
            AllMatches(at, n, m.end)[k].index <= i < AllMatches(at, n, m.end)[k].end;
          assert ms[k + 1] == AllMatches(at, n, m.end)[k];
        }
    }
  }

  // ---------------------------------------------------------------------------
  // The scanners of the three patterns
  // ---------------------------------------------------------------------------

  /** The scanner of each pattern, as a function of the offset. */
  function Scanner(s: string, pat: Pattern): nat -> Option<RegexMatch> {
    match pat
    case ForPattern => (i: nat) => ForAt(s, i)
    case FindPattern => (i: nat) => FindAt(s, i)
    case CanFindPattern => (i: nat) => CanFindAt(s, i)
  }

  /** Whether, and with what groups, pattern `pat` matches at offset `i`. */
  function At(s: string, i: nat, pat: Pattern): (r: Option<RegexMatch>)
    ensures r.Some? ==> r.value.index == i && MatchFacts(s, r.value, pat)
  {
    Scanner(s, pat)(i)
  }

  lemma ScannerReports(s: string, pat: Pattern)
    ensures Reports(Scanner(s, pat), |s|)
  {
    forall i: nat | i <= |s| && Scanner(s, pat)(i).Some?
      ensures Scanner(s, pat)(i).value.index == i < Scanner(s, pat)(i).value.end <= |s|
    {
      assert At(s, i, pat) == Scanner(s, pat)(i);
    }
  }

  /** `regex.exec(text)` for one of the three patterns. */
  function Exec(s: string, from: nat, pat: Pattern): (r: Option<RegexMatch>)
    requires from <= |s|
    ensures r.Some? ==> from <= r.value.index && r.value.end <= |s| && MatchFacts(s, r.value, pat)
  {
    ScannerReports(s, pat);
    var r := FirstMatch(Scanner(s, pat), |s|, from);
    assert r.Some? ==> At(s, r.value.index, pat) == r;
    r
  }

  /** `Exec` reports the match at the smallest offset at or after `from` that holds one. */
  lemma ExecIsLeftmost(s: string, from: nat, pat: Pattern)
    requires from <= |s| && Exec(s, from, pat).Some?
    ensures At(s, Exec(s, from, pat).value.index, pat) == Exec(s, from, pat)
    ensures forall i :: from <= i < Exec(s, from, pat).value.index ==> At(s, i, pat).None?
  {
    ScannerReports(s, pat);
    FirstMatchIsLeftmost(Scanner(s, pat), |s|, from);
  }

  /** `Exec` reports nothing only when no offset from `from` on holds a match. */
  lemma ExecNoneMeansNoMatch(s: string, from: nat, pat: Pattern)
    requires from <= |s| && Exec(s, from, pat).None?
    ensures forall i :: from <= i <= |s| ==> At(s, i, pat).None?
  {
    FirstMatchNone(Scanner(s, pat), |s|, from);
  }

  // ---------------------------------------------------------------------------
  // CAN-FIND field references
  // ---------------------------------------------------------------------------

  /** `x` is a field name following a `<table>.` qualifier at offset `q`, the qualifier starting a word. */
  predicate QualifiedAt(block: string, table: string, q: nat, x: string) {
    && WordBoundary(block, q)
    && MatchesAt(block, q, table)
    && q + |table| < |block| && block[q + |table|] == '.'
    && x != [] && q + |table| + 1 + |x| <= |block|
    && block[q + |table| + 1..q + |table| + 1 + |x|] == x
  }

  /**
   * `\b<table>\.([A-Za-z0-9_-]+)`, case-insensitive, at offset `q` of the where block: the field name
   * and where the match ends.
   */
  function FieldAt(block: string, table: string, q: nat): (r: Option<(string, nat)>)
    ensures r.Some? ==> q < r.value.1 <= |block|
  {
    var dot := q + |table|;
    if !(WordBoundary(block, q) && MatchesAt(block, q, table) && dot < |block| && block[dot] == '.') then None
    else
      var e := IdentEnd(block, dot + 1);
      if e == dot + 1 then None else Some((block[dot + 1..e], e))
  }

  /** A field match is a qualified name, taken as far as the identifier characters go. */
  lemma FieldAtShape(block: string, table: string, q: nat)
    requires FieldAt(block, table, q).Some?
    ensures var (x, e) := FieldAt(block, table, q).value;
      && QualifiedAt(block, table, q, x)
      && e == q + |table| + 1 + |x|
      && (forall k :: 0 <= k < |x| ==> IsIdentChar(x[k]))
      && (e == |block| || !IsIdentChar(block[e]))
  {
  }

  function FieldExec(block: string, table: string, from: nat): (r: Option<(string, nat)>)
    requires from <= |block|
    ensures r.Some? ==> from < r.value.1 <= |block|
    decreases |block| - from
  {
    if FieldAt(block, table, from).Some? then FieldAt(block, table, from)
    else if from == |block| then None
    else FieldExec(block, table, from + 1)
  }

  /** `fieldRegex.exec` reports the match at the smallest offset at or after `lastIndex`. */
  lemma {:induction false} FieldExecIsLeftmost(block: string, table: string, from: nat)
    requires from <= |block|
    ensures FieldExec(block, table, from).Some? ==>
      exists q :: from <= q < FieldExec(block, table, from).value.1 && FieldAt(block, table, q) == FieldExec(block, table, from)
    ensures FieldExec(block, table, from).None? ==> forall q :: from <= q <= |block| ==> FieldAt(block, table, q).None?
    decreases |block| - from
  {
    if FieldAt(block, table, from).None? && from < |block| {
      FieldExecIsLeftmost(block, table, from + 1);
      assert FieldExec(block, table, from) == FieldExec(block, table, from + 1);
      forall q | from <= q <= |block| && FieldExec(block, table, from).None? ensures FieldAt(block, table, q).None? {
        if q > from {
          assert from + 1 <= q;
        }
      }
    }
  }

  /** Every field name the `fieldRegex` loop meets, in order, repetitions included. */
  function FieldNames(block: string, table: string, from: nat): seq<string>
    requires from <= |block|
    decreases |block| - from
  {
    match FieldExec(block, table, from)
    case None => []
    case Some((name, e)) => [name] + FieldNames(block, table, e)
  }

  /** Where each match the `fieldRegex` loop meets ends, in order: the `lastIndex` it resumes from next. */
  function FieldEnds(block: string, table: string, from: nat): (es: seq<nat>)
    requires from <= |block|
    ensures |es| == |FieldNames(block, table, from)|
    ensures forall k :: 0 <= k < |es| ==> from < es[k] <= |block|
    decreases |block| - from
  {
    match FieldExec(block, table, from)
    case None => []
    case Some((name, e)) => [e] + FieldEnds(block, table, e)
  }

  /** Where visit `k` of the loop resumed: `from` for the first, else where the previous match ended. */
  function ResumedAt(from: nat, es: seq<nat>, k: nat): nat
    requires k < |es|
  {
    if k == 0 then from else es[k - 1]
  }

  /**
   * No field reference is skipped: a match at any offset `q` from `from` on lies in the stretch of
   * one visit of the loop, from where that visit resumed up to where its match ended. As each visit
   * takes the leftmost match from where it resumed, `q` is that match's start or inside it.
   */
  lemma {:induction false} FieldNamesComplete(block: string, table: string, from: nat, q: nat)
    requires from <= q <= |block| && FieldAt(block, table, q).Some?
    ensures exists k :: (0 <= k < |FieldEnds(block, table, from)| &&
      ResumedAt(from, FieldEnds(block, table, from), k) <= q < FieldEnds(block, table, from)[k])
    decreases |block| - from
  {
    match FieldExec(block, table, from) {
      case None =>
        FieldExecIsLeftmost(block, table, from);
      case Some((name, e)) =>
        if e <= q {
          FieldNamesComplete(block, table, e, q);
        }
        ResumedCons(from, e, FieldEnds(block, table, e), q);
        assert FieldEnds(block, table, from) == [e] + FieldEnds(block, table, e);
    }
  }

  /** An offset before the first end, or inside a later visit, lies inside some visit of `[e] + rest`. */
  lemma ResumedCons(from: nat, e: nat, rest: seq<nat>, q: nat)
    requires from <= q
    requires q < e || exists k :: 0 <= k < |rest| && ResumedAt(e, rest, k) <= q < rest[k]
    ensures exists k :: 0 <= k < |[e] + rest| && ResumedAt(from, [e] + rest, k) <= q < ([e] + rest)[k]
  {
    var es := [e] + rest;
    if q < e {
      assert ResumedAt(from, es, 0) <= q < es[0];
    } else {
      var k :| 0 <= k < |rest| && ResumedAt(e, rest, k) <= q < rest[k];
      assert ResumedAt(from, es, k + 1) == ResumedAt(e, rest, k) && es[k + 1] == rest[k];
    }
  }

  /** Visit `k` resumed at `r` and found, at an offset from `r` up to its end `e`, the match of `x`. */
  predicate VisitFound(block: string, table: string, r: nat, x: string, e: nat) {
    exists p :: r <= p < e && FieldAt(block, table, p) == Some((x, e))
  }

  /** The `k`-th name the loop collects is the capture of a match found on its `k`-th visit. */
  lemma {:induction false} FieldVisits(block: string, table: string, from: nat)
    requires from <= |block|
    ensures forall k :: 0 <= k < |FieldEnds(block, table, from)| ==>
      VisitFound(block, table, ResumedAt(from, FieldEnds(block, table, from), k),
                 FieldNames(block, table, from)[k], FieldEnds(block, table, from)[k])
    decreases |block| - from
  {
    FieldExecIsLeftmost(block, table, from);
    match FieldExec(block, table, from) {
      case None =>
      case Some((name, e)) =>
        FieldVisits(block, table, e);
        var es, rest := FieldEnds(block, table, from), FieldEnds(block, table, e);
        var xs, more := FieldNames(block, table, from), FieldNames(block, table, e);
        assert es == [e] + rest && xs == [name] + more;
        forall k | 0 <= k < |es| ensures VisitFound(block, table, ResumedAt(from, es, k), xs[k], es[k]) {
          if k > 0 {
            assert ResumedAt(from, es, k) == ResumedAt(e, rest, k - 1);
            assert xs[k] == more[k - 1] && es[k] == rest[k - 1];
          }
        }
    }
  }

  /** Each name found follows a `<table>.` qualifier in the where block. */
  lemma {:induction false} FieldNamesQualified(block: string, table: string, from: nat)
    requires from <= |block|
    ensures forall x :: x in FieldNames(block, table, from) ==> exists q :: from <= q && QualifiedAt(block, table, q, x)
    decreases |block| - from
  {
    match FieldExec(block, table, from) {
      case None =>
      case Some((name, e)) =>
        FieldNamesQualified(block, table, e);
        FieldExecIsLeftmost(block, table, from);
        var q :| from <= q < e && FieldAt(block, table, q) == Some((name, e));
        FieldAtShape(block, table, q);
        assert FieldNames(block, table, from) == [name] + FieldNames(block, table, e);
    }
  }

  // ---------------------------------------------------------------------------
  // Statements and passes
  // ---------------------------------------------------------------------------

  /** The matches a pass visits, starting from `lastIndex == from`. */
  function Matches(s: string, from: nat, pat: Pattern): (ms: seq<RegexMatch>)
    requires from <= |s|
    ensures forall k :: 0 <= k < |ms| ==> from <= ms[k].index < ms[k].end <= |s|
  {
    ScannerReports(s, pat);
    AllMatches(Scanner(s, pat), |s|, from)
  }

  /** Each visited match is the pattern's match at its offset, with what a match guarantees. */
  lemma MatchesFacts(s: string, from: nat, pat: Pattern)
    requires from <= |s|
    ensures forall k :: 0 <= k < |Matches(s, from, pat)| ==>
      At(s, Matches(s, from, pat)[k].index, pat) == Some(Matches(s, from, pat)[k])
      && MatchFacts(s, Matches(s, from, pat)[k], pat)
  {
    var ms := Matches(s, from, pat);
    forall k | 0 <= k < |ms| ensures At(s, ms[k].index, pat) == Some(ms[k]) {
    }
  }

  function ForType(kind: string): StatementType {
    var k := Upper(kind);
    if k == "FIRST" then ForFirst else if k == "LAST" then ForLast else ForEach
  }

  function FindType(kind: string): StatementType {
    var k := Upper(kind);
    if k == "FIRST" then FindFirst else if k == "LAST" then FindLast else Find
  }

  /** The suffix that marks a statement found inside `CAN-FIND(…)`. */
  const CanFindMarker := " [CAN-FIND]"

  /** The record pushed for a match of pattern `pat`. */
  function StatementOf(s: string, m: RegexMatch, pat: Pattern): AnalyzedStatement
    requires m.index <= m.end <= |s|
  {
    var raw := Trim(s[m.index..m.end]);
    var line := LineNumber(s, m.index);
    match pat
    case ForPattern => AnalyzedStatement(ForType(m.kind), m.table, line, raw, None)
    case FindPattern => AnalyzedStatement(FindType(m.kind), m.table, line, raw, None)
    case CanFindPattern =>
      AnalyzedStatement(Find, m.table, line, raw + CanFindMarker,
                        Some(Dedup(FieldNames(m.whereBlock, m.table, 0))))
  }

  predicate InText(s: string, ms: seq<RegexMatch>) {
    forall k :: 0 <= k < |ms| ==> ms[k].index <= ms[k].end <= |s|
  }

  /** The records pushed for the matches `ms`, in order. */
  function StatementsOf(s: string, ms: seq<RegexMatch>, pat: Pattern): (sts: seq<AnalyzedStatement>)
    requires InText(s, ms)
    ensures |sts| == |ms|
  {
    if ms == [] then [] else StatementsOf(s, ms[..|ms| - 1], pat) + [StatementOf(s, ms[|ms| - 1], pat)]
  }

  lemma {:induction false} StatementsOfIndex(s: string, ms: seq<RegexMatch>, pat: Pattern)
    requires InText(s, ms)
    ensures forall k :: 0 <= k < |ms| ==> StatementsOf(s, ms, pat)[k] == StatementOf(s, ms[k], pat)
  {
    if ms != [] {
      var init := ms[..|ms| - 1];
      StatementsOfIndex(s, init, pat);
      assert StatementsOf(s, ms, pat) == StatementsOf(s, init, pat) + [StatementOf(s, ms[|ms| - 1], pat)];
      forall k | 0 <= k < |init| ensures StatementsOf(s, ms, pat)[k] == StatementOf(s, ms[k], pat) {
        assert init[k] == ms[k];
      }
    }
  }

  /** The statements one pass pushes. */
  function Pass(s: string, pat: Pattern): seq<AnalyzedStatement> {
    StatementsOf(s, Matches(s, 0, pat), pat)
  }

  /** Everything `extractStatementsFromSource` returns: the FOR pass, then the FIND pass, then CAN-FIND. */
  function ExtractedStatements(source: string): seq<AnalyzedStatement> {
    Pass(source, ForPattern) + Pass(source, FindPattern) + Pass(source, CanFindPattern)
  }

  /** One turn of a `while (regex.exec(text))` loop: the match found, then the matches after it. */
  lemma MatchesStep(s: string, from: nat, pat: Pattern)
    requires from <= |s|
    ensures Exec(s, from, pat).None? ==> Matches(s, from, pat) == []
    ensures Exec(s, from, pat).Some? ==>
      Matches(s, from, pat) == [Exec(s, from, pat).value] + Matches(s, Exec(s, from, pat).value.end, pat)
  {
  }

  method ExtractStatementsFromSource(source: string) returns (results: seq<AnalyzedStatement>)
    ensures results == ExtractedStatements(source)
  {
    var text := source;
    results := ForStatements(text);
    var findStatements := FindStatements(text);
    results := results + findStatements;
    var canFindStatements := CanFindStatements(text);
    results := results + canFindStatements;
  }

  /** One more match adds its statement at the end. */
  lemma PushStatement(s: string, ms: seq<RegexMatch>, n: nat, pat: Pattern)
    requires InText(s, ms) && n < |ms|
    ensures StatementsOf(s, ms[..n + 1], pat) == StatementsOf(s, ms[..n], pat) + [StatementOf(s, ms[n], pat)]
  {
    assert ms[..n + 1][..n] == ms[..n];
  }

  /** The `FOR EACH|FIRST|LAST` loop. */
  method ForStatements(text: string) returns (results: seq<AnalyzedStatement>)
    ensures results == Pass(text, ForPattern)
  {
    results := [];
    ghost var all := Matches(text, 0, ForPattern);
    ghost var n := 0;
    var forIndex := 0;
    var match_ := Exec(text, forIndex, ForPattern);
    while match_.Some?
      invariant forIndex <= |text| && match_ == Exec(text, forIndex, ForPattern)
      invariant n <= |all| && all[n..] == Matches(text, forIndex, ForPattern)
      invariant results == StatementsOf(text, all[..n], ForPattern)
      decreases |text| - forIndex
    {
      var m := match_.value;
      var kind := Upper(m.kind);
      var full := Trim(text[m.index..m.end]);
      var line := LineNumber(text, m.index);
      var stype := ForEach;
      if kind == "FIRST" {
        stype := ForFirst;
      }
      if kind == "LAST" {
        stype := ForLast;
      }
      results := results + [AnalyzedStatement(stype, m.table, line, full, None)];
      MatchesStep(text, forIndex, ForPattern);
      DropCons(all, n, m, Matches(text, m.end, ForPattern));
      n := n + 1;
      forIndex := m.end;
      match_ := Exec(text, forIndex, ForPattern);
    }
    MatchesStep(text, forIndex, ForPattern);
    assert all[..n] == all;
  }

  /** The `FIND [FIRST|LAST]` loop. */
  method FindStatements(text: string) returns (results: seq<AnalyzedStatement>)
    ensures results == Pass(text, FindPattern)
  {
    results := [];
    ghost var all := Matches(text, 0, FindPattern);
    ghost var n := 0;
    var findIndex := 0;
    var match_ := Exec(text, findIndex, FindPattern);
    while match_.Some?
      invariant findIndex <= |text| && match_ == Exec(text, findIndex, FindPattern)
      invariant n <= |all| && all[n..] == Matches(text, findIndex, FindPattern)
      invariant results == StatementsOf(text, all[..n], FindPattern)
      decreases |text| - findIndex
    {
      var m := match_.value;
      var kind := Upper(m.kind);
      var full := Trim(text[m.index..m.end]);
      var line := LineNumber(text, m.index);
      var stype := Find;
      if kind == "FIRST" {
        stype := FindFirst;
      }
      if kind == "LAST" {
        stype := FindLast;
      }
      assert stype == FindType(m.kind);
      PushStatement(text, all, n, FindPattern);
      results := results + [AnalyzedStatement(stype, m.table, line, full, None)];
      MatchesStep(text, findIndex, FindPattern);
      DropCons(all, n, m, Matches(text, m.end, FindPattern));
      n := n + 1;
      findIndex := m.end;
      match_ := Exec(text, findIndex, FindPattern);
    }
    MatchesStep(text, findIndex, FindPattern);
    assert all[..n] == all;
  }

  /** The `CAN-FIND(…)` loop, with its inner loop over the where block's field references. */
  method CanFindStatements(text: string) returns (results: seq<AnalyzedStatement>)
    ensures results == Pass(text, CanFindPattern)
  {
    results := [];
    ghost var all := Matches(text, 0, CanFindPattern);
    ghost var n := 0;
    var canFindIndex := 0;
    var match_ := Exec(text, canFindIndex, CanFindPattern);
    while match_.Some?
      invariant canFindIndex <= |text| && match_ == Exec(text, canFindIndex, CanFindPattern)
      invariant n <= |all| && all[n..] == Matches(text, canFindIndex, CanFindPattern)
      invariant results == StatementsOf(text, all[..n], CanFindPattern)
      decreases |text| - canFindIndex
    {
      var m := match_.value;
      var table := m.table;
      var whereBlock := m.whereBlock;
      var full := Trim(text[m.index..m.end]);
      var line := LineNumber(text, m.index);
      var usedFields := CollectFields(whereBlock, table);
      results := results + [AnalyzedStatement(Find, table, line, full + CanFindMarker, Some(usedFields))];
      MatchesStep(text, canFindIndex, CanFindPattern);
      DropCons(all, n, m, Matches(text, m.end, CanFindPattern));
      n := n + 1;
      canFindIndex := m.end;
      match_ := Exec(text, canFindIndex, CanFindPattern);
    }
    MatchesStep(text, canFindIndex, CanFindPattern);
    assert all[..n] == all;
  }

  /** The inner `fieldRegex` loop: push each `<table>.field` name unless `usedFields` already includes it. */
  method CollectFields(whereBlock: string, table: string) returns (usedFields: seq<string>)
    ensures usedFields == Dedup(FieldNames(whereBlock, table, 0))
  {
    usedFields := [];
    ghost var all := FieldNames(whereBlock, table, 0);
    ghost var n := 0;
    var fieldIndex := 0;
    var f := FieldExec(whereBlock, table, fieldIndex);
    while f.Some?
      invariant fieldIndex <= |whereBlock| && f == FieldExec(whereBlock, table, fieldIndex)
      invariant n <= |all| && all[n..] == FieldNames(whereBlock, table, fieldIndex)
      invariant usedFields == Dedup(all[..n])
      decreases |whereBlock| - fieldIndex
    {
      var fieldName := f.value.0;
      FieldNamesStep(whereBlock, table, fieldIndex);
      DropCons(all, n, fieldName, FieldNames(whereBlock, table, f.value.1));
      DedupSnoc(all[..n], fieldName);
      if fieldName !in usedFields {
        usedFields := usedFields + [fieldName];
      }
      n := n + 1;
      fieldIndex := f.value.1;
      f := FieldExec(whereBlock, table, fieldIndex);
    }
    FieldNamesStep(whereBlock, table, fieldIndex);
    assert all[..n] == all;
  }

  lemma FieldNamesStep(block: string, table: string, from: nat)
    requires from <= |block|
    ensures FieldExec(block, table, from).None? ==> FieldNames(block, table, from) == []
    ensures FieldExec(block, table, from).Some? ==>
      FieldNames(block, table, from) == [FieldExec(block, table, from).value.0] + FieldNames(block, table, FieldExec(block, table, from).value.1)
  {
  }

  // ---------------------------------------------------------------------------
  // What the passes promise
  // ---------------------------------------------------------------------------

  /** The matches of a pass do not overlap and come in text order. */
  lemma MatchesOrdered(s: string, from: nat, pat: Pattern)
    requires from <= |s|
    ensures forall a, b :: 0 <= a < b < |Matches(s, from, pat)| ==>
      Matches(s, from, pat)[a].end <= Matches(s, from, pat)[b].index
  {
    ScannerReports(s, pat);
    AllMatchesOrdered(Scanner(s, pat), |s|, from);
  }

  /** A pass skips no match: every offset where the pattern matches lies inside a visited match. */
  lemma MatchesComplete(s: string, from: nat, pat: Pattern, i: nat)
    requires from <= i <= |s| && At(s, i, pat).Some?
    ensures exists k :: (0 <= k < |Matches(s, from, pat)| &&
      Matches(s, from, pat)[k].index <= i < Matches(s, from, pat)[k].end)
  {
    ScannerReports(s, pat);
    assert Scanner(s, pat)(i) == At(s, i, pat);
    AllMatchesComplete(Scanner(s, pat), |s|, from, i);
    assert Matches(s, from, pat) == AllMatches(Scanner(s, pat), |s|, from);
  }

  /** The shape every statement of a pass has. */
  predicate StatementShape(st: AnalyzedStatement, pat: Pattern) {
    && st.line >= 1
    && st.table != []
    && match pat
       case ForPattern => st.stype in {ForEach, ForFirst, ForLast} && st.usedFields.None?
       case FindPattern => st.stype in {Find, FindFirst, FindLast} && st.usedFields.None?
       case CanFindPattern =>
         && st.stype == Find
         && EndsWith(st.raw, CanFindMarker)
         && st.usedFields.Some?
         && Distinct(st.usedFields.value)
  }

  lemma StatementOfShape(s: string, m: RegexMatch, pat: Pattern)
    requires TableCaptured(s, m)
    ensures StatementShape(StatementOf(s, m, pat), pat)
  {
    var st := StatementOf(s, m, pat);
    if pat == CanFindPattern {
      assert st.raw[|st.raw| - |CanFindMarker|..] == CanFindMarker;
    }
  }

  /**
   * FOR statements are typed `FOR EACH|FIRST|LAST`, FIND statements `FIND [FIRST|LAST]`, both without
   * `usedFields`; CAN-FIND statements are typed `FIND`, marked with ` [CAN-FIND]` and carry distinct
   * field names. Every statement has a table and a line number of at least 1.
   */
  lemma PassShape(s: string, pat: Pattern)
    ensures forall k :: 0 <= k < |Pass(s, pat)| ==> StatementShape(Pass(s, pat)[k], pat)
  {
    var ms := Matches(s, 0, pat);
    StatementsOfIndex(s, ms, pat);
    MatchesFacts(s, 0, pat);
    forall k | 0 <= k < |ms| ensures StatementShape(Pass(s, pat)[k], pat) {
      StatementOfShape(s, ms[k], pat);
    }
  }

  /**
   * A FOR statement's type is `FOR EACH`, `FOR FIRST` or `FOR LAST` exactly as its match's qualifier
   * is `EACH`, `FIRST` or `LAST` in any letter case; a FIND statement is plain `FIND` exactly when
   * its match has no qualifier, else `FIND FIRST` or `FIND LAST` as the qualifier says.
   */
  lemma PassTypesFollowQualifier(s: string)
    ensures forall k :: 0 <= k < |Pass(s, ForPattern)| ==>
      var q := Upper(Matches(s, 0, ForPattern)[k].kind);
      && q in ["EACH", "FIRST", "LAST"]
      && (Pass(s, ForPattern)[k].stype == ForEach <==> q == "EACH")
      && (Pass(s, ForPattern)[k].stype == ForFirst <==> q == "FIRST")
      && (Pass(s, ForPattern)[k].stype == ForLast <==> q == "LAST")
    ensures forall k :: 0 <= k < |Pass(s, FindPattern)| ==>
      var kind := Matches(s, 0, FindPattern)[k].kind;
      && (kind == [] || Upper(kind) in ["FIRST", "LAST"])
      && (Pass(s, FindPattern)[k].stype == Find <==> kind == [])
      && (Pass(s, FindPattern)[k].stype == FindFirst <==> Upper(kind) == "FIRST")
      && (Pass(s, FindPattern)[k].stype == FindLast <==> Upper(kind) == "LAST")
  {
    var fors := Matches(s, 0, ForPattern);
    var finds := Matches(s, 0, FindPattern);
    MatchesFacts(s, 0, ForPattern);
    MatchesFacts(s, 0, FindPattern);
    StatementsOfIndex(s, fors, ForPattern);
    StatementsOfIndex(s, finds, FindPattern);
    forall k | 0 <= k < |fors| ensures Upper(fors[k].kind) in ["EACH", "FIRST", "LAST"] {
      assert ForAt(s, fors[k].index) == At(s, fors[k].index, ForPattern);
    }
    forall k | 0 <= k < |fors| ensures Pass(s, ForPattern)[k].stype == ForType(fors[k].kind) {
    }
    forall k | 0 <= k < |finds| ensures finds[k].kind == [] || Upper(finds[k].kind) in ["FIRST", "LAST"] {
      assert FindAt(s, finds[k].index) == At(s, finds[k].index, FindPattern);
    }
    forall k | 0 <= k < |finds| ensures Pass(s, FindPattern)[k].stype == FindType(finds[k].kind) {
    }
    forall k | 0 <= k < |fors| ensures ForType(fors[k].kind) == ForEach <==> Upper(fors[k].kind) == "EACH" {
      ForTypeOfQualifier(fors[k].kind);
    }
    forall k | 0 <= k < |finds| ensures FindType(finds[k].kind) == Find <==> finds[k].kind == [] {
      FindTypeOfQualifier(finds[k].kind);
    }
  }

  /** The output is the three passes one after another, each in the order its matches were found. */
  lemma ExtractionGroupedByPass(source: string)
    ensures var r := ExtractedStatements(source);
      var nFor := |Pass(source, ForPattern)|;
      var nFind := |Pass(source, FindPattern)|;
      && |r| == nFor + nFind + |Pass(source, CanFindPattern)|
      && (forall k :: 0 <= k < nFor ==> StatementShape(r[k], ForPattern))
      && (forall k :: nFor <= k < nFor + nFind ==> StatementShape(r[k], FindPattern))
      && (forall k :: nFor + nFind <= k < |r| ==> StatementShape(r[k], CanFindPattern))
  {
    PassShape(source, ForPattern);
    PassShape(source, FindPattern);
    PassShape(source, CanFindPattern);
    ConcatenatedShapes(Pass(source, ForPattern), Pass(source, FindPattern), Pass(source, CanFindPattern));
  }

  lemma ConcatenatedShapes(a: seq<AnalyzedStatement>, b: seq<AnalyzedStatement>, c: seq<AnalyzedStatement>)
    requires forall k :: 0 <= k < |a| ==> StatementShape(a[k], ForPattern)
    requires forall k :: 0 <= k < |b| ==> StatementShape(b[k], FindPattern)
    requires forall k :: 0 <= k < |c| ==> StatementShape(c[k], CanFindPattern)
    ensures var r := a + b + c;
      && (forall k :: 0 <= k < |a| ==> StatementShape(r[k], ForPattern))
      && (forall k :: |a| <= k < |a| + |b| ==> StatementShape(r[k], FindPattern))
      && (forall k :: |a| + |b| <= k < |r| ==> StatementShape(r[k], CanFindPattern))
  {
    var r := a + b + c;
    forall k | 0 <= k < |a| ensures StatementShape(r[k], ForPattern) {
      assert r[k] == (a + b)[k] == a[k];
    }
    forall k | |a| <= k < |a| + |b| ensures StatementShape(r[k], FindPattern) {
      assert r[k] == (a + b)[k] == b[k - |a|];
    }
    forall k | |a| + |b| <= k < |r| ensures StatementShape(r[k], CanFindPattern) {
      assert r[k] == c[k - |a| - |b|];
    }
  }

  /** A FOR match takes its type from the qualifier, whatever its letter case. */
  lemma ForTypeOfQualifier(kind: string)
    requires Upper(kind) in ["EACH", "FIRST", "LAST"]
    ensures ForType(kind) == ForEach <==> Upper(kind) == "EACH"
    ensures ForType(kind) == ForFirst <==> Upper(kind) == "FIRST"
    ensures ForType(kind) == ForLast <==> Upper(kind) == "LAST"
  {
  }

  /** A FIND match is plain `FIND` exactly when the qualifier is absent. */
  lemma FindTypeOfQualifier(kind: string)
    requires kind == [] || Upper(kind) in ["FIRST", "LAST"]
    ensures FindType(kind) == Find <==> kind == []
    ensures FindType(kind) == FindFirst <==> Upper(kind) == "FIRST"
    ensures FindType(kind) == FindLast <==> Upper(kind) == "LAST"
  {
  }

  /**
   * Because FOR and FIND matches run to the end of their line, each of those passes yields at most
   * one statement per source line, and its line numbers strictly increase.
   */
  lemma PassLinesIncrease(s: string, pat: Pattern)
    requires pat != CanFindPattern
    ensures forall a, b :: 0 <= a < b < |Pass(s, pat)| ==> Pass(s, pat)[a].line < Pass(s, pat)[b].line
  {
    var ms := Matches(s, 0, pat);
    MatchesOrdered(s, 0, pat);
    MatchesFacts(s, 0, pat);
    StatementsOfIndex(s, ms, pat);
    forall a, b | 0 <= a < b < |ms| ensures Pass(s, pat)[a].line < Pass(s, pat)[b].line {
      LaterLineMatch(s, ms[a], ms[b], pat);
    }
  }

  /** A FOR or FIND match that starts at or after the end of another starts on a later line. */
  lemma LaterLineMatch(s: string, ma: RegexMatch, mb: RegexMatch, pat: Pattern)
    requires pat != CanFindPattern && MatchFacts(s, ma, pat) && MatchFacts(s, mb, pat)
    requires ma.end <= mb.index
    ensures LineNumber(s, ma.index) < LineNumber(s, mb.index)
  {
    assert ma.end < |s| && IsLineBreak(s[ma.end]);
    assert mb.index != ma.end;
    assert !IsLineBreak(s[ma.end - 1]);
    LineNumberIncreases(s, ma.index, ma.end, mb.index);
  }

  /** The used fields of a CAN-FIND statement are its where block's `<table>.field` names, deduplicated. */
  lemma CanFindFields(s: string, m: RegexMatch)
    requires m.index <= m.end <= |s|
    ensures var st := StatementOf(s, m, CanFindPattern);
      && st.usedFields.Some?
      && Distinct(st.usedFields.value)
      && (forall x :: x in st.usedFields.value <==> x in FieldNames(m.whereBlock, m.table, 0))
      && forall i, j :: 0 <= i < j < |st.usedFields.value| ==>
           FirstIndex(FieldNames(m.whereBlock, m.table, 0), st.usedFields.value[i])
           < FirstIndex(FieldNames(m.whereBlock, m.table, 0), st.usedFields.value[j])
  {
    DedupFirstOccurrenceOrder(FieldNames(m.whereBlock, m.table, 0));
  }
}
