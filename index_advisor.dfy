/**
 * The index advisor of `src/parsers/indexAdvisor.ts`. For every statement the analyser found it
 * collects the fields the statement filters on, looks the table up in the merged schemas, and
 * reports the existing index whose leading fields cover the most of those fields or, when no index
 * covers even one, a new index in `.df` format built from them.
 */
module IndexAdvisor {
  import opened Wrappers
  import opened Text
  import opened Sequences
  import opened DfParser
  import opened IndexGenerator
  import AblAnalyzer

  // ---------------------------------------------------------------------------
  // extractWhereFields
  // ---------------------------------------------------------------------------

  /** One match of the WHERE field pattern: its start, the captured field name and where it was captured, its end. */
  datatype FieldMatch = FieldMatch(index: nat, field: string, fieldAt: nat, end: nat)

  /**
   * The length of the comparison operator at `k`, taking the first alternative of
   * `=|<>|>=|<=|>|<` that matches; 0 when none does.
   */
  function OperatorLength(s: string, k: nat): (n: nat)
    ensures n > 0 ==> k + n <= |s|
  {
    if k >= |s| then 0
    else if s[k] == '=' then 1
    else if s[k] == '<' then (if k + 1 < |s| && (s[k + 1] == '>' || s[k + 1] == '=') then 2 else 1)
    else if s[k] == '>' then (if k + 1 < |s| && s[k + 1] == '=' then 2 else 1)
    else 0
  }

  /**
   * `\b(?:[A-Za-z0-9_\-]+\.)?([A-Za-z0-9_\-]+)\s*(?:=|<>|>=|<=|>|<)` tried at offset `i`.
   * Neither identifier run can give characters back: the character after a shorter run would be
   * an identifier character, never the `.` or operator the pattern needs next. So the qualifier
   * is taken exactly when the first run is followed by `.`, and the match then fails as a whole
   * if no field and operator follow (without the qualifier the field would end at that `.`).
   */
  function FieldAt(s: string, i: nat): (r: Option<FieldMatch>)
    ensures r.Some? ==> r.value.index == i < r.value.end <= |s|
  {
    if i >= |s| || !WordBoundary(s, i) then None
    else
      var j := IdentEnd(s, i);
      if j == i then None
      else if j < |s| && s[j] == '.' then FieldRun(s, i, j + 1)
      else FieldRun(s, i, i)
  }

  /** `([A-Za-z0-9_\-]+)\s*(?:=|<>|>=|<=|>|<)` from offset `k`, for a match that started at `i`. */
  function FieldRun(s: string, i: nat, k: nat): (r: Option<FieldMatch>)
    requires i <= k <= |s|
    ensures r.Some? ==> r.value.index == i && r.value.fieldAt == k && k < r.value.end <= |s|
  {
    var e := IdentEnd(s, k);
    var n := OperatorLength(s, SkipSpaces(s, e));
    if e == k || n == 0 then None else Some(FieldMatch(i, s[k..e], k, SkipSpaces(s, e) + n))
  }

  /** An identifier: one or more characters of `[A-Za-z0-9_\-]`. */
  predicate IsIdentifier(s: string) {
    s != [] && forall i :: 0 <= i < |s| ==> IsIdentChar(s[i])
  }

  /**
   * A match captures an identifier that stands in the text at the match's start or right after a
   * `qualifier.`, and is followed, after optional white space, by a comparison operator.
   */
  lemma FieldAtShape(s: string, i: nat)
    requires FieldAt(s, i).Some?
    ensures FieldShape(s, i, FieldAt(s, i).value)
  {
    var j := IdentEnd(s, i);
    var k := if j < |s| && s[j] == '.' then j + 1 else i;
    assert FieldAt(s, i) == FieldRun(s, i, k);
    FieldRunShape(s, i, k);
  }

  /** What a where-field match found at offset `i` looks like in the text. */
  predicate FieldShape(s: string, i: nat, m: FieldMatch) {
    && i <= m.fieldAt && m.fieldAt + |m.field| <= |s|
    && s[m.fieldAt..m.fieldAt + |m.field|] == m.field
    && (m.fieldAt == i || s[m.fieldAt - 1] == '.')
    && OperatorLength(s, SkipSpaces(s, m.fieldAt + |m.field|)) > 0
    && IsIdentifier(m.field)
  }

  lemma FieldRunShape(s: string, i: nat, k: nat)
    requires i <= k <= |s| && FieldRun(s, i, k).Some?
    requires k == i || s[k - 1] == '.'
    ensures FieldShape(s, i, FieldRun(s, i, k).value)
  {
    var e := IdentEnd(s, k);
    IdentifierSlice(s, k, e);
    assert FieldRun(s, i, k).value.field == s[k..e];
  }

  lemma IdentifierSlice(s: string, a: nat, b: nat)
    requires a < b <= |s| && forall k :: a <= k < b ==> IsIdentChar(s[k])
    ensures IsIdentifier(s[a..b])
  {
    forall k | 0 <= k < b - a ensures IsIdentChar(s[a..b][k]) {
      assert s[a..b][k] == s[a + k];
    }
  }

  // The global search below is stated over any scanner `at` (offset to match), so that its proofs
  // do not unfold the pattern itself; `FieldScanner` instantiates it with `FieldAt`.

  /** `at` only reports matches that start at the offset asked for and end within `n`. */
  ghost predicate ScansWithin(at: nat -> Option<FieldMatch>, n: nat) {
    forall i: nat :: at(i).Some? ==> at(i).value.index == i < at(i).value.end <= n
  }

  /** `exec` with `lastIndex` at `from`: the leftmost match starting there or later. */
  function ExecBy(at: nat -> Option<FieldMatch>, n: nat, from: nat): (r: Option<FieldMatch>)
    requires ScansWithin(at, n)
    ensures r.Some? ==> from <= r.value.index < r.value.end <= n && at(r.value.index) == r
    decreases n - from
  {
    if from >= n then None
    else if at(from).Some? then at(from)
    else ExecBy(at, n, from + 1)
  }

  /** The captures of successive `exec` calls from `from`, each resuming where the last match ended. */
  function CapturesBy(at: nat -> Option<FieldMatch>, n: nat, from: nat): seq<string>
    requires ScansWithin(at, n)
    decreases n - from
  {
    match ExecBy(at, n, from)
    case None => []
    case Some(m) => [m.field] + CapturesBy(at, n, m.end)
  }

  /** Every capture comes from a match the scanner makes at some offset from `from` on. */
  lemma {:induction false} CapturesBySound(at: nat -> Option<FieldMatch>, n: nat, from: nat)
    requires ScansWithin(at, n)
    ensures forall k :: 0 <= k < |CapturesBy(at, n, from)| ==>
      exists i: nat :: from <= i < n && at(i).Some? && at(i).value.field == CapturesBy(at, n, from)[k]
    decreases n - from
  {
    match ExecBy(at, n, from)
    case None =>
      assert CapturesBy(at, n, from) == [];
    case Some(m) =>
      CapturesBySound(at, n, m.end);
      var fs := CapturesBy(at, n, from);
      forall k | 0 <= k < |fs|
        ensures exists i: nat :: from <= i < n && at(i).Some? && at(i).value.field == fs[k]
      {
        if k == 0 {
          assert at(m.index).value.field == fs[0];
        } else {
          assert fs[k] == CapturesBy(at, n, m.end)[k - 1];
        }
      }
  }

  /** The search from `from` finds nothing exactly when the scanner matches at no offset from there on. */
  lemma {:induction false} ExecByNone(at: nat -> Option<FieldMatch>, n: nat, from: nat)
    requires ScansWithin(at, n)
    ensures ExecBy(at, n, from).None? <==> forall i: nat :: from <= i ==> at(i).None?
    decreases n - from
  {
    if from < n && at(from).None? {
      ExecByNone(at, n, from + 1);
      forall i: nat | from <= i && at(i).Some? ensures from + 1 <= i {
      }
    }
  }

  /** No offset between `from` and the match `ExecBy` reports holds a match. */
  lemma {:induction false} ExecByLeftmost(at: nat -> Option<FieldMatch>, n: nat, from: nat)
    requires ScansWithin(at, n) && ExecBy(at, n, from).Some?
    ensures forall i: nat :: from <= i < ExecBy(at, n, from).value.index ==> at(i).None?
    decreases n - from
  {
    if at(from).None? {
      ExecByLeftmost(at, n, from + 1);
    }
  }

  /** The matches successive `exec` calls visit from `from`, each resuming where the last one ended. */
  function MatchesBy(at: nat -> Option<FieldMatch>, n: nat, from: nat): (ms: seq<FieldMatch>)
    requires ScansWithin(at, n)
    ensures forall k :: 0 <= k < |ms| ==> from <= ms[k].index < ms[k].end <= n && at(ms[k].index) == Some(ms[k])
    decreases n - from
  {
    match ExecBy(at, n, from)
    case None => []
    case Some(m) => [m] + MatchesBy(at, n, m.end)
  }

  /** The captures are the fields of the visited matches, one each, in the same order. */
  lemma {:induction false} CapturesByMatches(at: nat -> Option<FieldMatch>, n: nat, from: nat)
    requires ScansWithin(at, n)
    ensures |CapturesBy(at, n, from)| == |MatchesBy(at, n, from)|
    ensures forall k :: 0 <= k < |MatchesBy(at, n, from)| ==> CapturesBy(at, n, from)[k] == MatchesBy(at, n, from)[k].field
    decreases n - from
  {
    match ExecBy(at, n, from)
    case None =>
    case Some(m) =>
      CapturesByMatches(at, n, m.end);
      var fs, ms := CapturesBy(at, n, from), MatchesBy(at, n, from);
      assert fs == [m.field] + CapturesBy(at, n, m.end) && ms == [m] + MatchesBy(at, n, m.end);
      forall k | 0 <= k < |ms| ensures fs[k] == ms[k].field {
        if k > 0 {
          assert fs[k] == CapturesBy(at, n, m.end)[k - 1] && ms[k] == MatchesBy(at, n, m.end)[k - 1];
        }
      }
  }

  /** The visited matches do not overlap and come in text order. */
  lemma {:induction false} CapturesByOrdered(at: nat -> Option<FieldMatch>, n: nat, from: nat)
    requires ScansWithin(at, n)
    ensures forall a, b :: 0 <= a < b < |MatchesBy(at, n, from)| ==>
      MatchesBy(at, n, from)[a].end <= MatchesBy(at, n, from)[b].index
    decreases n - from
  {
    match ExecBy(at, n, from)
    case None =>
    case Some(m) =>
      CapturesByOrdered(at, n, m.end);
      var ms, rest := MatchesBy(at, n, from), MatchesBy(at, n, m.end);
      assert ms == [m] + rest;
      forall a, b | 0 <= a < b < |ms| ensures ms[a].end <= ms[b].index {
        assert ms[b] == rest[b - 1];
        if a > 0 {
          assert ms[a] == rest[a - 1];
        }
      }
  }

  /** No match is skipped: each offset from `from` on where the scanner matches lies in a visited match. */
  lemma {:induction false} CapturesByComplete(at: nat -> Option<FieldMatch>, n: nat, from: nat, i: nat)
    requires ScansWithin(at, n) && from <= i && at(i).Some?
    ensures exists k :: (0 <= k < |MatchesBy(at, n, from)| &&
      MatchesBy(at, n, from)[k].index <= i < MatchesBy(at, n, from)[k].end)
    decreases n - from
  {
    ExecByNone(at, n, from);
    match ExecBy(at, n, from)
    case None =>
    case Some(m) =>
      var ms, rest := MatchesBy(at, n, from), MatchesBy(at, n, m.end);
      assert ms == [m] + rest;
      ExecByLeftmost(at, n, from);
      if i < m.end {
        assert ms[0] == m;
      } else {
        CapturesByComplete(at, n, m.end, i);
        var k :| 0 <= k < |rest| && rest[k].index <= i < rest[k].end;
        assert ms[k + 1] == rest[k];
      }
  }

  function FieldScanner(s: string): nat -> Option<FieldMatch> {
    (i: nat) => FieldAt(s, i)
  }

  lemma FieldScannerWithin(s: string)
    ensures ScansWithin(FieldScanner(s), |s|)
  {
    forall i: nat ensures FieldScanner(s)(i) == FieldAt(s, i) {
    }
  }

  /** `fieldRegex.exec(s)` with `lastIndex` at `from`. */
  function FieldExec(s: string, from: nat): (r: Option<FieldMatch>)
    ensures r.Some? ==> from <= r.value.index < r.value.end <= |s|
  {
    FieldScannerWithin(s);
    ExecBy(FieldScanner(s), |s|, from)
  }

  /** The captures of the `exec` loop over `s` from `lastIndex` = `from`. */
  function FieldsFrom(s: string, from: nat): seq<string> {
    FieldScannerWithin(s);
    CapturesBy(FieldScanner(s), |s|, from)
  }

  /** One turn of the `exec` loop: no match ends it, a match contributes its capture and moves on. */
  lemma FieldsFromStep(s: string, from: nat)
    ensures FieldExec(s, from).None? ==> FieldsFrom(s, from) == []
    ensures FieldExec(s, from).Some? ==>
      FieldsFrom(s, from) == [FieldExec(s, from).value.field] + FieldsFrom(s, FieldExec(s, from).value.end)
  {
    FieldScannerWithin(s);
  }

  /** Where the WHERE clause starts: just after the first `where`, in any letter case. */
  function WhereClauseStart(raw: string): (r: Option<nat>)
    ensures r.Some? ==> 5 <= r.value <= |raw|
    ensures r.None? <==> forall i: nat :: !OccursAt(Lower(raw), i, "where")
    ensures r.Some? ==> OccursAt(Lower(raw), r.value - 5, "where")
    ensures r.Some? ==> forall i: nat :: i < r.value - 5 ==> !OccursAt(Lower(raw), i, "where")
  {
    var w := IndexOf(Lower(raw), "where");
    if w < 0 then None else Some(w + 5)
  }

  /** What `extractWhereFields(raw)` returns. */
  function WhereFields(raw: string): seq<string> {
    match WhereClauseStart(raw)
    case None => []
    case Some(k) => FieldsFrom(raw[k..], 0)
  }

  /** `extractWhereFields`: cut the text after `where`, then push the capture of every global match. */
  method ExtractWhereFields(raw: string) returns (fields: seq<string>)
    ensures fields == WhereFields(raw)
  {
    var whereIndex := IndexOf(Lower(raw), "where");
    if whereIndex == -1 {
      return [];
    }
    var whereClause := raw[whereIndex + 5..];
    fields := [];
    var lastIndex := 0;
    var match_ := FieldExec(whereClause, lastIndex);
    while match_.Some?
      invariant lastIndex <= |whereClause| && match_ == FieldExec(whereClause, lastIndex)
      invariant fields + FieldsFrom(whereClause, lastIndex) == WhereFields(raw)
      decreases |whereClause| - lastIndex
    {
      FieldsFromStep(whereClause, lastIndex);
      var fieldName := match_.value.field;
      fields := fields + [fieldName];
      lastIndex := match_.value.end;
      match_ := FieldExec(whereClause, lastIndex);
    }
    FieldsFromStep(whereClause, lastIndex);
  }

  /**
   * Every field a WHERE clause yields is an identifier the pattern captures after the first
   * `where`; and a statement yields no field at all when its text has no `where`, or when the
   * pattern matches nowhere after it.
   */
  lemma WhereFieldsSound(raw: string)
    ensures forall f :: f in WhereFields(raw) ==> IsIdentifier(f)
    ensures WhereClauseStart(raw).None? ==> WhereFields(raw) == []
    ensures WhereClauseStart(raw).Some? ==>
      var clause := raw[WhereClauseStart(raw).value..];
      && (WhereFields(raw) == [] <==> forall i: nat :: FieldAt(clause, i).None?)
      && forall k :: 0 <= k < |WhereFields(raw)| ==>
           exists i: nat :: i < |clause| && FieldAt(clause, i).Some? && FieldAt(clause, i).value.field == WhereFields(raw)[k]
  {
    if WhereClauseStart(raw).Some? {
      var clause := raw[WhereClauseStart(raw).value..];
      var at := FieldScanner(clause);
      FieldScannerWithin(clause);
      FieldsFromStep(clause, 0);
      CapturesBySound(at, |clause|, 0);
      ExecByNone(at, |clause|, 0);
      forall i: nat ensures at(i) == FieldAt(clause, i) {
      }
      forall f | f in WhereFields(raw) ensures IsIdentifier(f) {
        var k :| 0 <= k < |WhereFields(raw)| && WhereFields(raw)[k] == f;
        var i: nat :| i < |clause| && at(i).Some? && at(i).value.field == f;
        FieldAtShape(clause, i);
      }
    }
  }

  /** The matches the `exec` loop visits in a WHERE clause, from `lastIndex` = 0. */
  function WhereMatches(clause: string): seq<FieldMatch> {
    FieldScannerWithin(clause);
    MatchesBy(FieldScanner(clause), |clause|, 0)
  }

  /**
   * The `exec` loop over a clause collects the captures of the visited matches, one per match and
   * in the same order, repetitions kept; the matches are the pattern's own, do not overlap and
   * come in text order.
   */
  lemma ClauseFieldsInOrder(clause: string)
    ensures |FieldsFrom(clause, 0)| == |WhereMatches(clause)|
    ensures forall k :: 0 <= k < |WhereMatches(clause)| ==>
      FieldAt(clause, WhereMatches(clause)[k].index) == Some(WhereMatches(clause)[k])
      && FieldsFrom(clause, 0)[k] == WhereMatches(clause)[k].field
    ensures forall a, b :: 0 <= a < b < |WhereMatches(clause)| ==>
      WhereMatches(clause)[a].end <= WhereMatches(clause)[b].index
  {
    var at := FieldScanner(clause);
    FieldScannerWithin(clause);
    var ms := WhereMatches(clause);
    forall k | 0 <= k < |ms| ensures FieldAt(clause, ms[k].index) == Some(ms[k]) {
      assert at(ms[k].index) == Some(ms[k]);
    }
    CapturesByMatches(at, |clause|, 0);
    CapturesByOrdered(at, |clause|, 0);
  }

  /** No match in a clause is skipped: every offset where the pattern matches lies in a visited match. */
  lemma ClauseFieldsComplete(clause: string, i: nat)
    requires FieldAt(clause, i).Some?
    ensures exists k :: (0 <= k < |WhereMatches(clause)| &&
      WhereMatches(clause)[k].index <= i < WhereMatches(clause)[k].end)
  {
    var at := FieldScanner(clause);
    FieldScannerWithin(clause);
    assert at(i).Some?;
    var ms := MatchesBy(at, |clause|, 0);
    assert WhereMatches(clause) == ms;
    CapturesByComplete(at, |clause|, 0, i);
    var k :| 0 <= k < |ms| && ms[k].index <= i < ms[k].end;
  }

  /**
   * After the first `where`, the fields are the captures of the visited matches, in text order and
   * not de-duplicated, and every offset where the pattern matches lies in one of those matches.
   */
  lemma WhereFieldsComplete(raw: string)
    ensures WhereClauseStart(raw).Some? ==>
      var clause := raw[WhereClauseStart(raw).value..];
      && WhereFields(raw) == FieldsFrom(clause, 0)
      && |WhereFields(raw)| == |WhereMatches(clause)|
      && (forall k :: 0 <= k < |WhereMatches(clause)| ==>
            FieldAt(clause, WhereMatches(clause)[k].index) == Some(WhereMatches(clause)[k])
            && WhereFields(raw)[k] == WhereMatches(clause)[k].field)
      && (forall a, b :: 0 <= a < b < |WhereMatches(clause)| ==>
            WhereMatches(clause)[a].end <= WhereMatches(clause)[b].index)
      && (forall i: nat :: FieldAt(clause, i).Some? ==>
            exists k :: (0 <= k < |WhereMatches(clause)| &&
              WhereMatches(clause)[k].index <= i < WhereMatches(clause)[k].end))
  {
    if WhereClauseStart(raw).Some? {
      var clause := raw[WhereClauseStart(raw).value..];
      ClauseFieldsInOrder(clause);
      forall i: nat | FieldAt(clause, i).Some?
        ensures exists k :: (0 <= k < |WhereMatches(clause)| &&
          WhereMatches(clause)[k].index <= i < WhereMatches(clause)[k].end)
      {
        ClauseFieldsComplete(clause, i);
      }
    }
  }

  // ---------------------------------------------------------------------------
  // Index matching
  // ---------------------------------------------------------------------------

  /** The longest prefix of an index's fields that the statement uses, as `matchCount` counts it. */
  function MatchCount(indexFields: seq<string>, used: seq<string>): (mc: nat)
    ensures mc <= |indexFields|
    ensures forall i :: 0 <= i < mc ==> indexFields[i] in used
    ensures mc < |indexFields| ==> indexFields[mc] !in used
  {
    if indexFields == [] || indexFields[0] !in used then 0
    else 1 + MatchCount(indexFields[1..], used)
  }

  /** The three facts above pin the count down: nothing else is a used prefix ended by an unused field. */
  lemma MatchCountUnique(indexFields: seq<string>, used: seq<string>, m: nat)
    requires m <= |indexFields|
    requires forall i :: 0 <= i < m ==> indexFields[i] in used
    requires m < |indexFields| ==> indexFields[m] !in used
    ensures m == MatchCount(indexFields, used)
  {
  }

  /**
   * When the index lists no field twice, it cannot match more fields than are used; and a perfect
   * match means its leading fields are exactly the used fields, in some order.
   */
  lemma MatchCountBounded(indexFields: seq<string>, used: seq<string>)
    requires Distinct(indexFields)
    ensures var mc := MatchCount(indexFields, used);
      && mc <= |used|
      && (Distinct(used) && mc == |used| ==> forall x :: x in used <==> x in indexFields[..mc])
  {
    var mc := MatchCount(indexFields, used);
    var prefix := indexFields[..mc];
    assert Distinct(prefix);
    forall x | x in prefix ensures x in used {
      var k :| 0 <= k < |prefix| && prefix[k] == x;
      assert indexFields[k] == x;
    }
    DistinctWithin(prefix, used);
  }

  /** The index chosen for a statement, as `bestIndex` reports it. */
  datatype BestIndex = BestIndex(name: string, fields: seq<string>, matchCount: nat, isPerfect: bool)

  /** What one index scores: its match count, and whether that equals the number of used fields. */
  function Candidate(idx: Index, used: seq<string>): BestIndex {
    var mc := MatchCount(idx.fields, used);
    BestIndex(idx.name, idx.fields, mc, mc == |used|)
  }

  /** The index loop: an index with a positive count replaces the best so far only when it counts strictly more. */
  function ChooseBest(indexes: seq<Index>, used: seq<string>): Option<BestIndex> {
    if indexes == [] then None
    else
      var best := ChooseBest(indexes[..|indexes| - 1], used);
      var c := Candidate(indexes[|indexes| - 1], used);
      if c.matchCount > 0 && (best.None? || c.matchCount > best.value.matchCount) then Some(c) else best
  }

  /** The index loop of `analyzeIndexUsage`, counting each index's used prefix with an early `break`. */
  method BestIndexFor(indexes: seq<Index>, used: seq<string>) returns (bestMatch: Option<BestIndex>)
    ensures bestMatch == ChooseBest(indexes, used)
  {
    bestMatch := None;
    for n := 0 to |indexes|
      invariant bestMatch == ChooseBest(indexes[..n], used)
    {
      var idx := indexes[n];
      assert indexes[..n + 1][..n] == indexes[..n] && indexes[..n + 1][n] == idx;
      var matchCount := 0;
      for i := 0 to |idx.fields|
        invariant matchCount == i
        invariant forall k :: 0 <= k < i ==> idx.fields[k] in used
      {
        var indexField := idx.fields[i];
        if indexField in used {
          matchCount := matchCount + 1;
        } else {
          break;
        }
      }
      MatchCountUnique(idx.fields, used, matchCount);
      if matchCount > 0 {
        var isPerfect := matchCount == |used|;
        if bestMatch.None? || matchCount > bestMatch.value.matchCount {
          bestMatch := Some(BestIndex(idx.name, idx.fields, matchCount, isPerfect));
        }
      }
    }
    assert indexes[..|indexes|] == indexes;
  }

  /** No index is chosen exactly when no index's first field is used. */
  lemma {:induction false} ChooseBestNone(indexes: seq<Index>, used: seq<string>)
    ensures ChooseBest(indexes, used).None? <==>
      forall k :: 0 <= k < |indexes| ==> indexes[k].fields == [] || indexes[k].fields[0] !in used
  {
    if indexes != [] {
      var init := indexes[..|indexes| - 1];
      ChooseBestNone(init, used);
      assert forall k :: 0 <= k < |init| ==> init[k] == indexes[k];
    }
  }

  /**
   * The chosen index is the first of those with the highest positive count: it is one of the
   * table's indexes, nothing counts more, and every earlier index counts less.
   */
  lemma {:induction false} ChooseBestFirstMaximum(indexes: seq<Index>, used: seq<string>)
    requires ChooseBest(indexes, used).Some?
    ensures var b := ChooseBest(indexes, used).value;
      && b.matchCount > 0
      && (forall k :: 0 <= k < |indexes| ==> MatchCount(indexes[k].fields, used) <= b.matchCount)
      && exists k :: 0 <= k < |indexes| && b == Candidate(indexes[k], used)
           && forall j :: 0 <= j < k ==> MatchCount(indexes[j].fields, used) < b.matchCount
  {
    var cs := Candidates(indexes, used);
    ChooseBestPicks(indexes, used);
    PickFirstMaximum(cs);
    var b := ChooseBest(indexes, used).value;
    var k :| 0 <= k < |cs| && b == cs[k] && forall j :: 0 <= j < k ==> cs[j].matchCount < b.matchCount;
    assert b == Candidate(indexes[k], used);
    forall i | 0 <= i < |indexes| ensures MatchCount(indexes[i].fields, used) <= b.matchCount {
      assert cs[i].matchCount == MatchCount(indexes[i].fields, used);
    }
    forall j | 0 <= j < k ensures MatchCount(indexes[j].fields, used) < b.matchCount {
      assert cs[j].matchCount == MatchCount(indexes[j].fields, used);
    }
  }

  /** The candidate of every index, in order. */
  function Candidates(indexes: seq<Index>, used: seq<string>): (cs: seq<BestIndex>)
    ensures |cs| == |indexes|
  {
    seq(|indexes|, k requires 0 <= k < |indexes| => Candidate(indexes[k], used))
  }

  /** The choice of the index loop over a list of candidates: the first with the largest positive count. */
  function Pick(cs: seq<BestIndex>): Option<BestIndex> {
    if cs == [] then None
    else
      var best := Pick(cs[..|cs| - 1]);
      var c := cs[|cs| - 1];
      if c.matchCount > 0 && (best.None? || c.matchCount > best.value.matchCount) then Some(c) else best
  }

  lemma {:induction false} ChooseBestPicks(indexes: seq<Index>, used: seq<string>)
    ensures ChooseBest(indexes, used) == Pick(Candidates(indexes, used))
  {
    if indexes != [] {
      var init := indexes[..|indexes| - 1];
      ChooseBestPicks(init, used);
      assert Candidates(indexes, used)[..|indexes| - 1] == Candidates(init, used);
    }
  }

  lemma {:induction false} PickFirstMaximum(cs: seq<BestIndex>)
    requires Pick(cs).Some?
    ensures var b := Pick(cs).value;
      && b.matchCount > 0
      && (forall k :: 0 <= k < |cs| ==> cs[k].matchCount <= b.matchCount)
      && exists k :: 0 <= k < |cs| && b == cs[k] && forall j :: 0 <= j < k ==> cs[j].matchCount < b.matchCount
  {
    var init, c := cs[..|cs| - 1], cs[|cs| - 1];
    var prev := Pick(init);
    assert forall k :: 0 <= k < |init| ==> init[k] == cs[k];
    if prev.Some? {
      PickFirstMaximum(init);
    } else {
      PickNone(init);
    }
    if !(c.matchCount > 0 && (prev.None? || c.matchCount > prev.value.matchCount)) {
      var k :| 0 <= k < |init| && prev.value == init[k] && forall j :: 0 <= j < k ==> init[j].matchCount < prev.value.matchCount;
      assert cs[k] == init[k];
    }
  }

  lemma {:induction false} PickNone(cs: seq<BestIndex>)
    ensures Pick(cs).None? <==> forall k :: 0 <= k < |cs| ==> cs[k].matchCount == 0
  {
    if cs != [] {
      var init := cs[..|cs| - 1];
      PickNone(init);
      assert forall k :: 0 <= k < |init| ==> init[k] == cs[k];
      if Pick(init).Some? {
        PickFirstMaximum(init);
      }
    }
  }

  /** An index whose first field is unused, or that has no fields, counts zero. */
  lemma NoLeadingFieldNoMatch(fields: seq<string>, used: seq<string>)
    requires fields == [] || fields[0] !in used
    ensures MatchCount(fields, used) == 0
  {
  }

  /** A match is perfect exactly when it covers as many fields as the statement uses. */
  lemma ChooseBestPerfect(indexes: seq<Index>, used: seq<string>)
    requires ChooseBest(indexes, used).Some?
    ensures var b := ChooseBest(indexes, used).value; b.isPerfect <==> b.matchCount == |used|
  {
    ChooseBestFirstMaximum(indexes, used);
  }

  // ---------------------------------------------------------------------------
  // analyzeIndexUsage
  // ---------------------------------------------------------------------------

  /** One line of the report. */
  datatype IndexMatchResult = IndexMatchResult(
    table: string,
    statement: string,
    usedFields: seq<string>,
    bestIndex: Option<BestIndex>,
    warning: Option<string>,
    suggestion: Option<string>)

  const NoDfWarning := "No DF file was loaded. Unable to analyze or suggest indexes."
  const NotEnoughFiltersWarning := "There are not enough WHERE filters to recommend or suggest an index."
  const NoCompatibleIndexWarning := "No compatible index found."

  function MissingTableWarning(table: string): string {
    "Table \"" + table + "\" does not exist in any loaded DF file."
  }

  /** The single report line when no schema is loaded. */
  const NoDfResult := IndexMatchResult("", "", [], None, Some(NoDfWarning), None)

  /** `Object.assign` of every schema's tables in turn: a later schema's table replaces an earlier one. */
  function MergeTables(dfList: seq<ParsedDf>): map<string, Table> {
    if dfList == [] then map[]
    else MergeTables(dfList[..|dfList| - 1]) + dfList[|dfList| - 1].tables
  }

  /**
   * `tableSchema.fields[field]` as the pipeline evaluates it: `fields` is the table's array of
   * fields, so only a canonical array index below its length (`"0"`, `"1"`, ...) finds an entry,
   * and then the entry's type is found; any other key finds nothing.
   */
  function PipelineLookup(fields: seq<Field>): TypeLookup {
    (key: string) => if IsArrayIndex(key) && DigitsValue(key) < |fields| then Some(fields[DigitsValue(key)].fieldType) else None
  }

  /** A canonical array index: decimal digits without a leading zero (except `"0"` itself). */
  predicate IsArrayIndex(key: string) {
    && key != []
    && (forall i :: 0 <= i < |key| ==> IsDigit(key[i]))
    && (key[0] != '0' || |key| == 1)
  }

  /**
   * Consequence of the array lookup: a field whose name has a non-digit character gets no schema
   * type, so only the `lg-`/`dt-` naming convention can make it logical or a date.
   */
  lemma NamedFieldsClassifiedByName(fields: seq<Field>, name: string)
    requires exists i :: 0 <= i < |name| && !IsDigit(name[i])
    ensures PipelineLookup(fields)(name) == None
    ensures ClassOf(PipelineLookup(fields), name)
      == if HasTag(name, 'l', 'g') then Logical else if HasTag(name, 'd', 't') then Range else Equality
  {
    assert SchemaType(PipelineLookup(fields), name) == "";
    assert IndexOf("", "LOGICAL") == -1 && IndexOf("", "DATE") == -1 && IndexOf("", "DATETIME") == -1;
  }

  /** The fields a statement filters on: the analyser's `usedFields` when it has some, else its WHERE fields. */
  function CollectedFields(st: AblAnalyzer.AnalyzedStatement): seq<string> {
    if st.usedFields.Some? && |st.usedFields.value| > 0 then st.usedFields.value else WhereFields(st.raw)
  }

  /** `Array.from(new Set(collectedFields))`. */
  function UsedFields(st: AblAnalyzer.AnalyzedStatement): seq<string> {
    Dedup(CollectedFields(st))
  }

  /** The suggested index for a table that has no compatible index. */
  function SuggestionFor(table: string, dfTable: Table, used: seq<string>, suffix: nat): string
    requires 1000 <= suffix <= 9999
  {
    IndexDfText(table, FilteredFields(Classifier(PipelineLookup(dfTable.fields)), used), None, None, suffix)
  }

  /** The report line for one statement; `suffix` is the random number a suggestion's name would get. */
  function StatementAnalysis(tables: map<string, Table>, st: AblAnalyzer.AnalyzedStatement, suffix: nat): IndexMatchResult
    requires 1000 <= suffix <= 9999
  {
    if st.table !in tables then
      IndexMatchResult(st.table, st.raw, [], None, Some(MissingTableWarning(st.table)), None)
    else
      var used := UsedFields(st);
      if used == [] then
        IndexMatchResult(st.table, st.raw, [], None, Some(NotEnoughFiltersWarning), None)
      else
        match ChooseBest(tables[st.table].indexes, used)
        case None =>
          IndexMatchResult(st.table, st.raw, used, None, Some(NoCompatibleIndexWarning),
                           Some(SuggestionFor(st.table, tables[st.table], used, suffix)))
        case Some(b) =>
          IndexMatchResult(st.table, st.raw, used, Some(b), None, None)
  }

  /** `Math.floor(Math.random() * 9000 + 1000)` for the `n`-th report line, from the draw `draw(n)`. */
  function Suffix(draw: nat -> nat, n: nat): (r: nat)
    ensures 1000 <= r <= 9999
  {
    1000 + draw(n) % 9000
  }

  /** The statements of all files, file after file. */
  function Flatten(files: seq<AblAnalyzer.FileAnalysis>): seq<AblAnalyzer.AnalyzedStatement> {
    if files == [] then [] else Flatten(files[..|files| - 1]) + files[|files| - 1].statements
  }

  /** One report line per statement, in order. */
  function Analyses(tables: map<string, Table>, sts: seq<AblAnalyzer.AnalyzedStatement>, draw: nat -> nat): (rs: seq<IndexMatchResult>)
    ensures |rs| == |sts|
  {
    MapIndexed(Analyser(tables, draw), sts)
  }

  /** The report line of the `i`-th statement. */
  function Analyser(tables: map<string, Table>, draw: nat -> nat): (nat, AblAnalyzer.AnalyzedStatement) -> IndexMatchResult {
    (i: nat, st: AblAnalyzer.AnalyzedStatement) => StatementAnalysis(tables, st, Suffix(draw, i))
  }

  /** What `analyzeIndexUsage` returns. */
  function IndexUsage(files: seq<AblAnalyzer.FileAnalysis>, dfList: seq<ParsedDf>, draw: nat -> nat): seq<IndexMatchResult> {
    if dfList == [] then [NoDfResult] else Analyses(MergeTables(dfList), Flatten(files), draw)
  }

  /** The body of the statement loop of `analyzeIndexUsage`. */
  method AnalyzeStatement(tables: map<string, Table>, st: AblAnalyzer.AnalyzedStatement, suffix: nat)
    returns (result: IndexMatchResult)
    requires 1000 <= suffix <= 9999
    ensures result == StatementAnalysis(tables, st, suffix)
  {
    var table := st.table;
    var statementText := st.raw;
    if table !in tables {
      return IndexMatchResult(table, statementText, [], None, Some(MissingTableWarning(table)), None);
    }
    var dfTable := tables[table];
    var collectedFields;
    if st.usedFields.Some? && |st.usedFields.value| > 0 {
      collectedFields := st.usedFields.value;
    } else {
      collectedFields := ExtractWhereFields(statementText);
    }
    var used := Dedup(collectedFields);
    if |used| == 0 {
      return IndexMatchResult(table, statementText, [], None, Some(NotEnoughFiltersWarning), None);
    }
    var bestMatch := BestIndexFor(dfTable.indexes, used);
    if bestMatch.None? {
      var filteredFields := FilterFieldsForIndex(PipelineLookup(dfTable.fields), used);
      var suggestion := GenerateIndexDF(table, filteredFields, None, None, suffix);
      result := IndexMatchResult(table, statementText, used, None, Some(NoCompatibleIndexWarning), Some(suggestion));
    } else {
      result := IndexMatchResult(table, statementText, used, bestMatch, None, None);
    }
  }

  /** `analyzeIndexUsage`; `draw(n)` stands for the `Math.random()` a suggestion on report line `n` uses. */
  method AnalyzeIndexUsage(programAnalysis: seq<AblAnalyzer.FileAnalysis>, dfList: seq<ParsedDf>, draw: nat -> nat)
    returns (results: seq<IndexMatchResult>)
    ensures results == IndexUsage(programAnalysis, dfList, draw)
  {
    results := [];
    if |dfList| == 0 {
      results := results + [NoDfResult];
      return;
    }
    var tables: map<string, Table> := map[];
    for n := 0 to |dfList|
      invariant tables == MergeTables(dfList[..n])
    {
      assert dfList[..n + 1][..n] == dfList[..n];
      tables := tables + dfList[n].tables;
    }
    assert dfList[..|dfList|] == dfList;
    ghost var done: seq<AblAnalyzer.AnalyzedStatement> := [];
    for f := 0 to |programAnalysis|
      invariant done == Flatten(programAnalysis[..f])
      invariant results == Analyses(tables, done, draw)
    {
      var file := programAnalysis[f];
      assert programAnalysis[..f + 1][..f] == programAnalysis[..f];
      for k := 0 to |file.statements|
        invariant done == Flatten(programAnalysis[..f]) + file.statements[..k]
        invariant results == Analyses(tables, done, draw)
      {
        var st := file.statements[k];
        var result := AnalyzeStatement(tables, st, Suffix(draw, |results|));
        AnalysesSnoc(tables, done, st, draw);
        results := results + [result];
        done := done + [st];
        assert file.statements[..k + 1] == file.statements[..k] + [st];
      }
      assert file.statements[..|file.statements|] == file.statements;
    }
    assert programAnalysis[..|programAnalysis|] == programAnalysis;
  }

  lemma AnalysesSnoc(tables: map<string, Table>, sts: seq<AblAnalyzer.AnalyzedStatement>, st: AblAnalyzer.AnalyzedStatement, draw: nat -> nat)
    ensures Analyses(tables, sts + [st], draw) == Analyses(tables, sts, draw) + [StatementAnalysis(tables, st, Suffix(draw, |sts|))]
  {
    MapIndexedSnoc(Analyser(tables, draw), sts, st);
  }

  // ---------------------------------------------------------------------------
  // Properties of the report
  // ---------------------------------------------------------------------------

  /** No schema after the `k`-th declares table `t`. */
  predicate LastDeclaring(dfList: seq<ParsedDf>, k: nat, t: string) {
    forall j :: k < j < |dfList| ==> t !in dfList[j].tables
  }

  /**
   * Merging: a table is known exactly when some schema declares it, and its definition is the one
   * of the last schema that declares it.
   */
  lemma {:induction false} MergeTablesLastWins(dfList: seq<ParsedDf>, t: string)
    ensures t in MergeTables(dfList) <==> exists k :: 0 <= k < |dfList| && t in dfList[k].tables
    ensures forall k :: 0 <= k < |dfList| && t in dfList[k].tables && LastDeclaring(dfList, k, t) ==>
      MergeTables(dfList)[t] == dfList[k].tables[t]
  {
    if dfList != [] {
      var init := dfList[..|dfList| - 1];
      MergeTablesLastWins(init, t);
      assert forall k :: 0 <= k < |init| ==> init[k] == dfList[k];
    }
  }

  /**
   * Without a schema the report is the single warning line; otherwise it has one line per
   * statement, in file order and statement order, naming that statement's table and text.
   */
  lemma IndexUsageLines(files: seq<AblAnalyzer.FileAnalysis>, dfList: seq<ParsedDf>, draw: nat -> nat)
    ensures var rs := IndexUsage(files, dfList, draw);
      && (dfList == [] ==> |rs| == 1 && rs[0].warning == Some(NoDfWarning) && rs[0].usedFields == [])
      && (dfList != [] ==>
            && |rs| == |Flatten(files)|
            && forall i :: 0 <= i < |rs| ==> rs[i].table == Flatten(files)[i].table && rs[i].statement == Flatten(files)[i].raw)
  {
  }

  /** The statements of the files, in order: those of the first file, then those of the rest. */
  lemma {:induction false} FlattenCons(files: seq<AblAnalyzer.FileAnalysis>)
    requires files != []
    ensures Flatten(files) == files[0].statements + Flatten(files[1..])
    decreases |files|
  {
    if |files| > 1 {
      var init := files[..|files| - 1];
      FlattenCons(init);
      assert init[1..] == files[1..][..|files[1..]| - 1];
      assert files[1..][|files[1..]| - 1] == files[|files| - 1];
    } else {
      assert files[1..] == [];
    }
  }

  /**
   * The cases of one report line: a missing table, no filter fields, a best index, or a
   * suggestion. Exactly one of `bestIndex` and `warning` is present, and a suggestion comes
   * only with the no-compatible-index warning.
   */
  lemma StatementAnalysisCases(tables: map<string, Table>, st: AblAnalyzer.AnalyzedStatement, suffix: nat)
    requires 1000 <= suffix <= 9999
    ensures var r := StatementAnalysis(tables, st, suffix);
      && r.table == st.table && r.statement == st.raw
      && (r.bestIndex.Some? <==> r.warning.None?)
      && (r.suggestion.Some? ==> r.warning == Some(NoCompatibleIndexWarning))
      && (st.table !in tables <==> r.warning == Some(MissingTableWarning(st.table)))
      && (st.table in tables && UsedFields(st) == [] <==> r.warning == Some(NotEnoughFiltersWarning))
      && (r.usedFields == [] <==> st.table !in tables || UsedFields(st) == [])
      && (r.usedFields != [] ==> r.usedFields == UsedFields(st))
  {
    var m := MissingTableWarning(st.table);
    // The three warnings differ in their next-to-last character: "file.", "index." and "found.".
    assert m[|m| - 2] == 'e';
    assert NotEnoughFiltersWarning[|NotEnoughFiltersWarning| - 2] == 'x';
    assert NoCompatibleIndexWarning[|NoCompatibleIndexWarning| - 2] == 'd';
  }

  /**
   * The used fields of a report line: free of repetitions, in order of first use, and exactly the
   * fields the statement filters on.
   */
  lemma UsedFieldsFacts(st: AblAnalyzer.AnalyzedStatement)
    ensures Distinct(UsedFields(st))
    ensures forall x :: x in UsedFields(st) <==> x in CollectedFields(st)
    ensures forall i, j :: 0 <= i < j < |UsedFields(st)| ==>
      FirstIndex(CollectedFields(st), UsedFields(st)[i]) < FirstIndex(CollectedFields(st), UsedFields(st)[j])
  {
    DedupFirstOccurrenceOrder(CollectedFields(st));
  }

  /**
   * A best index is the first of the table's indexes with the longest used prefix; it is perfect
   * exactly when that prefix is as long as the list of used fields.
   */
  lemma BestIndexChosen(tables: map<string, Table>, st: AblAnalyzer.AnalyzedStatement, suffix: nat)
    requires 1000 <= suffix <= 9999
    requires StatementAnalysis(tables, st, suffix).bestIndex.Some?
    ensures st.table in tables
    ensures var b := StatementAnalysis(tables, st, suffix).bestIndex.value;
      var used := UsedFields(st);
      var ix := tables[st.table].indexes;
      && b.matchCount > 0
      && (b.isPerfect <==> b.matchCount == |used|)
      && (forall k :: 0 <= k < |ix| ==> MatchCount(ix[k].fields, used) <= b.matchCount)
      && exists k :: 0 <= k < |ix| && b == Candidate(ix[k], used)
           && forall j :: 0 <= j < k ==> MatchCount(ix[j].fields, used) < b.matchCount
  {
    ChooseBestFirstMaximum(tables[st.table].indexes, UsedFields(st));
  }

  /**
   * A suggestion is made only when the table exists, some field is used, and none of the table's
   * indexes starts with a used field; it is the `.df` block for the filtered used fields.
   */
  lemma SuggestionMade(tables: map<string, Table>, st: AblAnalyzer.AnalyzedStatement, suffix: nat)
    requires 1000 <= suffix <= 9999
    requires StatementAnalysis(tables, st, suffix).suggestion.Some?
    ensures st.table in tables && UsedFields(st) != []
    ensures var ix := tables[st.table].indexes;
      forall k :: 0 <= k < |ix| ==> ix[k].fields == [] || ix[k].fields[0] !in UsedFields(st)
    ensures StatementAnalysis(tables, st, suffix).suggestion.value
      == SuggestionFor(st.table, tables[st.table], UsedFields(st), suffix)
  {
    ChooseBestNone(tables[st.table].indexes, UsedFields(st));
  }
}
