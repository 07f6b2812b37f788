/**
 * The generator and the schema parser agree: the `ADD INDEX` block that `generateIndexDF` writes,
 * read back by `parseDf`, is one table holding exactly the index it describes, and the advisor's
 * suggestion, read back and analysed again, is a compatible index for the statement.
 *
 * The header lines `AREA`, `INDEX-NUM` and `FOREIGN-NAME` are not records the parser knows, so
 * they leave no trace; the index comes back non-primary because the generator writes no `PRIMARY`.
 */
module RoundTrip {
  import opened Wrappers
  import opened Text
  import opened Sequences
  import opened DfParser
  import opened IndexGenerator
  import opened IndexAdvisor
  import AblAnalyzer

  /** A name the generator can put between double quotes on a line of its own. */
  predicate Quotable(s: string) {
    s != [] && '"' !in s && '\n' !in s
  }

  predicate AllQuotable(names: seq<string>) {
    forall k :: 0 <= k < |names| ==> Quotable(names[k])
  }

  // ---------------------------------------------------------------------------
  // The recognisers on text laid out as expected
  // ---------------------------------------------------------------------------

  lemma WordAt(s: string, i: nat, w: string)
    requires i + |w| <= |s| && s[i..i + |w|] == w
    ensures MatchesAt(s, i, w)
  {
    forall j | 0 <= j < |w| ensures s[i + j] == w[j] {
      assert s[i..i + |w|][j] == s[i + j];
    }
  }

  lemma OneSpaceAt(s: string, i: nat)
    requires i + 1 < |s| && s[i] == ' ' && !IsSpace(s[i + 1])
    ensures Spaces1(s, i) == Some(i + 1)
  {
    assert SkipSpaces(s, i + 1) == i + 1;
  }

  lemma QuotedTextAt(s: string, i: nat, x: string)
    requires x != [] && '"' !in x
    requires i + |x| + 2 <= |s| && s[i] == '"' && s[i + 1..i + 1 + |x|] == x && s[i + 1 + |x|] == '"'
    ensures QuotedAt(s, i) == Some((x, i + |x| + 2))
  {
    var m := i + 1 + |x|;
    forall k | i + 1 <= k < m ensures s[k] != '"' {
      assert s[k] == s[i + 1..m][k - i - 1];
    }
    IndexOfCharAt(s, i + 1, '"', m);
  }

  /** A trimmed line starting `F` or `AR` matches none of the record patterns. */
  lemma NoRecordLine(t: string)
    requires |t| >= 2 && (t[0] == 'F' || (t[0] == 'A' && t[1] == 'R'))
    ensures ClassifyLine(t) == Unrecognised
  {
    var j := if t[0] == 'F' then 0 else 1;
    assert !MatchesAt(t, 0, "ADD TABLE") by { assert UpperChar(t[j]) != UpperChar("ADD TABLE"[j]); }
    assert !MatchesAt(t, 0, "ADD FIELD") by { assert UpperChar(t[j]) != UpperChar("ADD FIELD"[j]); }
    assert !MatchesAt(t, 0, "ADD INDEX") by { assert UpperChar(t[j]) != UpperChar("ADD INDEX"[j]); }
    assert !MatchesAt(t, 0, "PRIMARY") by { assert UpperChar(t[0]) != UpperChar("PRIMARY"[0]); }
    assert !MatchesAt(t, 0, "INDEX-FIELD") by { assert UpperChar(t[0]) != UpperChar("INDEX-FIELD"[0]); }
  }

  // ---------------------------------------------------------------------------
  // Each generated line
  // ---------------------------------------------------------------------------

  /** Where the parts of `ADD INDEX "name" ON "table"` stand. */
  predicate IndexLineLayout(l: string, name: string, table: string) {
    var n := |name|;
    && |l| == 18 + n + |table|
    && l[..9] == "ADD INDEX" && l[9] == ' ' && l[10] == '"'
    && l[11..11 + n] == name && l[11 + n] == '"' && l[12 + n] == ' '
    && l[13 + n..15 + n] == "ON" && l[15 + n] == ' ' && l[16 + n] == '"'
    && l[17 + n..17 + n + |table|] == table && l[17 + n + |table|] == '"'
  }

  lemma IndexLineLaidOut(table: string, name: string)
    requires Quotable(table) && Quotable(name)
    ensures var l := HeaderLines(table, name, 0)[0];
      IndexLineLayout(l, name, table) && IsPlainLine(l)
  {
    var l := "ADD INDEX \"" + name + "\" ON \"" + table + "\"";
    assert l == HeaderLines(table, name, 0)[0];
    var n := |name|;
    assert l[..9] == "ADD INDEX";
    assert l[11..11 + n] == name;
    assert l[13 + n..15 + n] == "ON";
    assert l[17 + n..17 + n + |table|] == table;
  }

  /** `ADD INDEX\s+"([^"]+)"\s+ON\s+"([^"]+)"` takes the name and the table from such a line. */
  lemma IndexLineMatch(l: string, name: string, table: string)
    requires Quotable(table) && Quotable(name) && IndexLineLayout(l, name, table)
    ensures AddIndexRecord(l) == Some(AddIndex(name, table))
  {
    var n := |name|;
    WordAt(l, 0, "ADD INDEX");
    OneSpaceAt(l, 9);
    QuotedTextAt(l, 10, name);
    assert l[13 + n] == 'O' by { assert l[13 + n..15 + n][0] == l[13 + n]; }
    OneSpaceAt(l, 12 + n);
    WordAt(l, 13 + n, "ON");
    OneSpaceAt(l, 15 + n);
    QuotedTextAt(l, 16 + n, table);
  }

  /** A line laid out as `ADD INDEX "name" ON "table"` is trimmed and declares that index on that table. */
  lemma IndexLineRecord(l: string, name: string, table: string)
    requires Quotable(table) && Quotable(name) && IndexLineLayout(l, name, table)
    ensures Trim(l) == l && ClassifyLine(l) == AddIndex(name, table)
  {
    assert l[0] == 'A' && l[4] == 'I' by { assert l[..9][0] == l[0] && l[..9][4] == l[4]; }
    TrimIndented("", l);
    assert "" + l == l;
    assert !MatchesAt(l, 0, "ADD TABLE") by { assert UpperChar(l[4]) != UpperChar("ADD TABLE"[4]); }
    assert !MatchesAt(l, 0, "ADD FIELD") by { assert UpperChar(l[4]) != UpperChar("ADD FIELD"[4]); }
    IndexLineMatch(l, name, table);
  }

  /** `  AREA "Schema Area"` trims to a line the parser does not recognise. */
  lemma AreaLine()
    ensures var l := HeaderLines("t", "i", 0)[1];
      && IsPlainLine(l) && ClassifyLine(Trim(l)) == Unrecognised
  {
    var t := "AREA \"Schema Area\"";
    AreaLineText();
    AreaTextFacts();
    var l := "  " + t;
    forall i | 0 <= i < |l| ensures l[i] != '\n' {
      if i >= 2 {
        assert l[i] == t[i - 2];
      }
    }
    assert l[|l| - 1] == t[|t| - 1];
    TrimIndented("  ", t);
    NoRecordLine(t);
  }

  lemma AreaTextFacts()
    ensures var t := "AREA \"Schema Area\"";
      && |t| == 18 && t[0] == 'A' && t[1] == 'R' && t[17] == '"'
      && forall i :: 0 <= i < |t| ==> t[i] != '\n'
  {
  }

  lemma AreaLineText()
    ensures HeaderLines("t", "i", 0)[1] == "  " + "AREA \"Schema Area\""
  {
    var l := HeaderLines("t", "i", 0)[1];
    var t := "AREA \"Schema Area\"";
    assert |l| == |"  " + t|;
    forall i | 0 <= i < |l| ensures l[i] == ("  " + t)[i] {
    }
  }

  /** `  INDEX-NUM <num>` trims to a line the parser does not recognise. */
  lemma IndexNumLine(num: int)
    ensures var l := HeaderLines("t", "i", num)[2];
      && IsPlainLine(l) && ClassifyLine(Trim(l)) == Unrecognised
  {
    var d := IntToString(num);
    var t := "INDEX-NUM " + d;
    var l := "  INDEX-NUM " + d;
    assert l == HeaderLines("t", "i", num)[2];
    assert '\n' !in d by {
      forall i | 0 <= i < |d| ensures d[i] != '\n' {
        if num < 0 {
          var nd := NatToString(-num);
          assert d == "-" + nd;
          if i > 0 { assert d[i] == nd[i - 1]; }
        } else {
          assert IsDigit(NatToString(num)[i]);
        }
      }
    }
    assert l == "  " + t;
    assert t[|t| - 1] == d[|d| - 1];
    TrimIndented("  ", t);
    IndexNumRecord(t);
  }

  lemma IndexNumRecord(t: string)
    requires |t| >= 11 && t[..10] == "INDEX-NUM "
    ensures ClassifyLine(t) == Unrecognised
  {
    assert t[0] == 'I' && t[6] == 'N' by { assert t[..10][0] == t[0] && t[..10][6] == t[6]; }
    assert !MatchesAt(t, 0, "ADD TABLE") by { assert UpperChar(t[0]) != UpperChar("ADD TABLE"[0]); }
    assert !MatchesAt(t, 0, "ADD FIELD") by { assert UpperChar(t[0]) != UpperChar("ADD FIELD"[0]); }
    assert !MatchesAt(t, 0, "ADD INDEX") by { assert UpperChar(t[0]) != UpperChar("ADD INDEX"[0]); }
    assert !MatchesAt(t, 0, "INDEX-FIELD") by { assert UpperChar(t[6]) != UpperChar("INDEX-FIELD"[6]); }
  }

  /** `  FOREIGN-NAME "table##name"` trims to a line the parser does not recognise. */
  lemma ForeignNameLine(table: string, name: string)
    requires Quotable(table) && Quotable(name)
    ensures var l := HeaderLines(table, name, 0)[3];
      && IsPlainLine(l) && ClassifyLine(Trim(l)) == Unrecognised
  {
    var l := HeaderLines(table, name, 0)[3];
    ForeignNameLaidOut(table, name);
    var t := l[2..];
    assert l == l[..2] + t;
    TrimIndented("  ", t);
    NoRecordLine(t);
  }

  lemma ForeignNameLaidOut(table: string, name: string)
    requires Quotable(table) && Quotable(name)
    ensures var l := HeaderLines(table, name, 0)[3];
      && IsPlainLine(l) && |l| >= 4 && l[..2] == "  " && l[2] == 'F' && l[|l| - 1] == '"'
  {
    var l := "  FOREIGN-NAME \"" + table + "##" + name + "\"";
    assert l == HeaderLines(table, name, 0)[3];
  }

  /** Where the parts of `INDEX-FIELD "f" ASCENDING` stand. */
  predicate FieldLineLayout(t: string, f: string) {
    && |t| == 24 + |f|
    && t[..11] == "INDEX-FIELD" && t[11] == ' ' && t[12] == '"'
    && t[13..13 + |f|] == f && t[13 + |f|] == '"' && t[|t| - 1] == 'G'
  }

  lemma FieldLineLaidOut(f: string)
    requires Quotable(f)
    ensures var l := IndexFieldLine(f);
      IsPlainLine(l) && l[..2] == "  " && FieldLineLayout(l[2..], f)
  {
    var t := "INDEX-FIELD \"" + f + "\" ASCENDING";
    var l := "  INDEX-FIELD \"" + f + "\" ASCENDING";
    assert l == IndexFieldLine(f);
    assert l[2..] == t;
    assert t[..11] == "INDEX-FIELD";
    assert t[13..13 + |f|] == f;
  }

  /** A line laid out as `INDEX-FIELD "f" ASCENDING` adds `f` to the current index. */
  lemma FieldLineRecord(t: string, f: string)
    requires Quotable(f) && FieldLineLayout(t, f)
    ensures ClassifyLine(t) == IndexField(f)
  {
    assert t[0] == 'I' by { assert t[..11][0] == t[0]; }
    assert !MatchesAt(t, 0, "ADD TABLE") by { assert UpperChar(t[0]) != UpperChar("ADD TABLE"[0]); }
    assert !MatchesAt(t, 0, "ADD FIELD") by { assert UpperChar(t[0]) != UpperChar("ADD FIELD"[0]); }
    assert !MatchesAt(t, 0, "ADD INDEX") by { assert UpperChar(t[0]) != UpperChar("ADD INDEX"[0]); }
    WordAt(t, 0, "INDEX-FIELD");
    OneSpaceAt(t, 11);
    QuotedTextAt(t, 12, f);
  }

  /** `  INDEX-FIELD "f" ASCENDING` trims to the record adding `f` to the current index. */
  lemma IndexFieldLineRecord(f: string)
    requires Quotable(f)
    ensures var l := IndexFieldLine(f);
      && IsPlainLine(l) && ClassifyLine(Trim(l)) == IndexField(f)
  {
    var l := IndexFieldLine(f);
    FieldLineLaidOut(f);
    var t := l[2..];
    assert l == l[..2] + t;
    assert t[0] == 'I' by { assert t[..11][0] == t[0]; }
    TrimIndented("  ", t);
    FieldLineRecord(t, f);
  }

  // ---------------------------------------------------------------------------
  // The whole block
  // ---------------------------------------------------------------------------

  /** The records of a generated block: the index declaration, three ignored lines, one field each. */
  function BlockRecords(table: string, name: string, fields: seq<string>): seq<DfLine> {
    [AddIndex(name, table), Unrecognised, Unrecognised, Unrecognised]
      + seq(|fields|, k requires 0 <= k < |fields| => IndexField(fields[k]))
  }

  /** Line `k` of a generated block is plain and holds record `k` of the block. */
  lemma BlockLine(table: string, name: string, num: int, fields: seq<string>, k: nat)
    requires Quotable(table) && Quotable(name) && AllQuotable(fields)
    requires k < 4 + |fields|
    ensures var l := IndexDfLines(table, name, num, fields)[k];
      IsPlainLine(l) && ClassifyLine(Trim(l)) == BlockRecords(table, name, fields)[k]
  {
    var lines := IndexDfLines(table, name, num, fields);
    var recs := BlockRecords(table, name, fields);
    if k == 0 {
      assert lines[0] == HeaderLines(table, name, 0)[0];
      IndexLineLaidOut(table, name);
      IndexLineRecord(HeaderLines(table, name, 0)[0], name, table);
    } else if k == 1 {
      assert lines[1] == HeaderLines("t", "i", 0)[1];
      AreaLine();
    } else if k == 2 {
      assert lines[2] == HeaderLines("t", "i", num)[2];
      IndexNumLine(num);
    } else if k == 3 {
      assert lines[3] == HeaderLines(table, name, 0)[3];
      ForeignNameLine(table, name);
    } else {
      assert lines[k] == IndexFieldLine(fields[k - 4]) && recs[k] == IndexField(fields[k - 4]);
      IndexFieldLineRecord(fields[k - 4]);
    }
  }

  lemma BlockLines(table: string, name: string, num: int, fields: seq<string>)
    requires Quotable(table) && Quotable(name) && AllQuotable(fields)
    ensures var lines := IndexDfLines(table, name, num, fields);
      && (forall k :: 0 <= k < |lines| ==> IsPlainLine(lines[k]))
      && Records(lines) == BlockRecords(table, name, fields)
  {
    var lines := IndexDfLines(table, name, num, fields);
    forall k | 0 <= k < |lines| ensures IsPlainLine(lines[k]) && Records(lines)[k] == BlockRecords(table, name, fields)[k] {
      BlockLine(table, name, num, fields, k);
    }
  }

  /** The parse state after the declaration, the ignored lines and the first `k` fields. */
  function BlockState(table: string, name: string, fields: seq<string>): ParseState {
    ParseState(map[table := Table([], [Index(name, false, fields)])], None, Some((table, 0)))
  }

  lemma ParseSnoc(recs: seq<DfLine>, n: nat)
    requires n < |recs|
    ensures Parse(recs[..n + 1]) == Step(Parse(recs[..n]), recs[n])
  {
    assert recs[..n + 1][..n] == recs[..n];
  }

  /** The header record opens the index; the three lines after it change nothing. */
  lemma ParseBlockHead(table: string, name: string, fields: seq<string>)
    ensures Parse(BlockRecords(table, name, fields)[..4]) == BlockState(table, name, [])
  {
    var recs := BlockRecords(table, name, fields);
    ParseSnoc(recs, 0);
    assert recs[..0] == [] && recs[0] == AddIndex(name, table);
    assert Step(InitState, AddIndex(name, table)) == BlockState(table, name, []) by {
      assert TableOr(InitState.tables, table) == EmptyTable;
      assert EmptyTable.indexes + [Index(name, false, [])] == [Index(name, false, [])];
    }
    for n := 1 to 4
      invariant Parse(recs[..n]) == BlockState(table, name, [])
    {
      ParseSnoc(recs, n);
      assert recs[n] == Unrecognised;
      StepIgnoresOtherLines(Parse(recs[..n]), Unrecognised);
    }
  }

  /** An `INDEX-FIELD` record appends its field to the index the block opened. */
  lemma ParseBlockField(table: string, name: string, fs: seq<string>, f: string)
    ensures Step(BlockState(table, name, fs), IndexField(f)) == BlockState(table, name, fs + [f])
  {
    var st := BlockState(table, name, fs);
    assert st.tables[table].indexes[0 := Index(name, false, fs + [f])] == [Index(name, false, fs + [f])];
  }

  lemma {:induction false} ParseBlockRecords(table: string, name: string, fields: seq<string>, k: nat)
    requires k <= |fields|
    ensures Parse(BlockRecords(table, name, fields)[..4 + k]) == BlockState(table, name, fields[..k])
  {
    if k == 0 {
      ParseBlockHead(table, name, fields);
      assert fields[..0] == [];
    } else {
      var recs := BlockRecords(table, name, fields);
      ParseBlockRecords(table, name, fields, k - 1);
      ParseSnoc(recs, 3 + k);
      assert recs[3 + k] == IndexField(fields[k - 1]);
      ParseBlockField(table, name, fields[..k - 1], fields[k - 1]);
      assert fields[..k - 1] + [fields[k - 1]] == fields[..k];
    }
  }

  /**
   * Parsing a generated block gives back one table holding one non-primary index with the given
   * name and exactly the given fields, in order, as long as no name is empty or holds a double
   * quote or a line feed.
   */
  lemma ParseGeneratedBlock(table: string, name: string, num: int, fields: seq<string>)
    requires Quotable(table) && Quotable(name) && AllQuotable(fields)
    ensures ParseDfText(JoinLines(IndexDfLines(table, name, num, fields)))
         == ParsedDf(map[table := Table([], [Index(name, false, fields)])])
  {
    BlockTextRecords(table, name, num, fields);
    ParseBlock(table, name, fields);
  }

  /** The text of a block splits and trims into the block's records. */
  lemma BlockTextRecords(table: string, name: string, num: int, fields: seq<string>)
    requires Quotable(table) && Quotable(name) && AllQuotable(fields)
    ensures Records(SplitLines(JoinLines(IndexDfLines(table, name, num, fields)))) == BlockRecords(table, name, fields)
  {
    BlockLines(table, name, num, fields);
    SplitJoinLines(IndexDfLines(table, name, num, fields));
  }

  /** Folding all of a block's records builds its table. */
  lemma ParseBlock(table: string, name: string, fields: seq<string>)
    ensures Parse(BlockRecords(table, name, fields)) == BlockState(table, name, fields)
  {
    var recs := BlockRecords(table, name, fields);
    ParseBlockRecords(table, name, fields, |fields|);
    assert recs[..4 + |fields|] == recs;
    assert fields[..|fields|] == fields;
  }

  /** What `generateIndexDF` returns parses back to the index it was asked for, under its safe name. */
  lemma ParseGeneratedIndexDf(table: string, fields: seq<string>, indexName: Option<string>, indexNum: Option<int>, suffix: nat)
    requires 1000 <= suffix <= 9999
    requires Quotable(table) && AllQuotable(fields)
    requires indexName.Some? && indexName.value != [] ==> Quotable(indexName.value)
    ensures ParseDfText(IndexDfText(table, fields, indexName, indexNum, suffix))
         == ParsedDf(map[table := Table([], [Index(SafeIndexName(table, indexName, suffix), false, fields)])])
  {
    var name := SafeIndexName(table, indexName, suffix);
    if !(indexName.Some? && indexName.value != []) {
      var d := NatToString(suffix);
      assert name == table + "__ai" + d;
      forall i | 0 <= i < |name| ensures name[i] != '"' && name[i] != '\n' {
        if i >= |table| + 4 {
          assert name[i] == d[i - |table| - 4];
        } else if i >= |table| {
          assert name[i] == "__ai"[i - |table|];
        } else {
          assert name[i] == table[i];
        }
      }
    }
    ParseGeneratedBlock(table, name, EffectiveIndexNum(indexNum), fields);
  }

  // ---------------------------------------------------------------------------
  // The advisor's suggestions
  // ---------------------------------------------------------------------------

  lemma IdentifierQuotable(s: string)
    requires IsIdentifier(s)
    ensures Quotable(s)
  {
    assert forall i :: 0 <= i < |s| ==> IsIdentChar(s[i]);
  }

  /** The name a suggestion gives its index: the table, `__ai`, and the four digits of the suffix. */
  function SuggestedName(table: string, suffix: nat): string {
    table + "__ai" + NatToString(suffix)
  }

  /**
   * When the statement's table and used fields are identifiers, the suggestion parses back to that
   * table with one non-primary index, named after the table and the suffix, whose fields are the
   * filtered used fields.
   */
  lemma SuggestionParsesBack(tables: map<string, Table>, st: AblAnalyzer.AnalyzedStatement, suffix: nat)
    requires 1000 <= suffix <= 9999
    requires StatementAnalysis(tables, st, suffix).suggestion.Some?
    requires IsIdentifier(st.table)
    requires st.usedFields.Some? ==> forall f :: f in st.usedFields.value ==> IsIdentifier(f)
    ensures st.table in tables
    ensures ParseDfText(StatementAnalysis(tables, st, suffix).suggestion.value)
         == ParsedDf(map[st.table := Table([], [Index(SuggestedName(st.table, suffix), false,
                                                       FilteredFields(Classifier(PipelineLookup(tables[st.table].fields)), UsedFields(st)))])])
  {
    SuggestionMade(tables, st, suffix);
    var used := UsedFields(st);
    var r := FilteredFields(Classifier(PipelineLookup(tables[st.table].fields)), used);
    UsedFieldsFacts(st);
    WhereFieldsSound(st.raw);
    FilteredFieldsDropOnlyLogical(Classifier(PipelineLookup(tables[st.table].fields)), used);
    forall k | 0 <= k < |r| ensures Quotable(r[k]) {
      assert r[k] in multiset(r);
      assert r[k] in used;
      IdentifierQuotable(r[k]);
    }
    IdentifierQuotable(st.table);
    ParseGeneratedIndexDf(st.table, r, None, None, suffix);
  }

  /**
   * Once the suggested index is the table's only index, the advisor finds it compatible: every one
   * of its fields is used, and it is a perfect match exactly when no logical field was cut.
   */
  lemma SuggestionIsCompatible(tables: map<string, Table>, st: AblAnalyzer.AnalyzedStatement, suffix: nat)
    requires 1000 <= suffix <= 9999
    requires StatementAnalysis(tables, st, suffix).suggestion.Some?
    ensures st.table in tables
    ensures var used := UsedFields(st);
      var r := FilteredFields(Classifier(PipelineLookup(tables[st.table].fields)), used);
      var name := SuggestedName(st.table, suffix);
      && r != []
      && ChooseBest([Index(name, false, r)], used) == Some(BestIndex(name, r, |r|, |r| == |used|))
  {
    SuggestionMade(tables, st, suffix);
    var used := UsedFields(st);
    var cls := Classifier(PipelineLookup(tables[st.table].fields));
    var r := FilteredFields(cls, used);
    var name := SuggestedName(st.table, suffix);
    FilteredFieldsLength(cls, used);
    FilteredFieldsDropOnlyLogical(cls, used);
    forall i | 0 <= i < |r| ensures r[i] in used {
      assert r[i] in multiset(r);
    }
    MatchCountUnique(r, used, |r|);
    assert [Index(name, false, r)][..0] == [];
  }

  // ---------------------------------------------------------------------------
  // From the analyser's statements
  // ---------------------------------------------------------------------------

  /** The statement's table and the used fields it carries, if any, are identifiers. */
  predicate NamesAreIdentifiers(st: AblAnalyzer.AnalyzedStatement) {
    && IsIdentifier(st.table)
    && (st.usedFields.Some? ==> forall f :: f in st.usedFields.value ==> IsIdentifier(f))
  }

  /** Every name the CAN-FIND field loop collects is an identifier. */
  lemma {:induction false} FieldNamesAreIdentifiers(block: string, table: string, from: nat)
    requires from <= |block|
    ensures forall x :: x in AblAnalyzer.FieldNames(block, table, from) ==> IsIdentifier(x)
    decreases |block| - from
  {
    match AblAnalyzer.FieldExec(block, table, from) {
      case None =>
      case Some((name, e)) =>
        FieldNamesAreIdentifiers(block, table, e);
        AblAnalyzer.FieldExecIsLeftmost(block, table, from);
        var q :| from <= q < e && AblAnalyzer.FieldAt(block, table, q) == Some((name, e));
        AblAnalyzer.FieldAtShape(block, table, q);
        assert AblAnalyzer.FieldNames(block, table, from) == [name] + AblAnalyzer.FieldNames(block, table, e);
    }
  }

  lemma PassNamesAreIdentifiers(s: string, pat: AblAnalyzer.Pattern)
    ensures forall k :: 0 <= k < |AblAnalyzer.Pass(s, pat)| ==> NamesAreIdentifiers(AblAnalyzer.Pass(s, pat)[k])
  {
    var ms := AblAnalyzer.Matches(s, 0, pat);
    AblAnalyzer.StatementsOfIndex(s, ms, pat);
    AblAnalyzer.MatchesFacts(s, 0, pat);
    forall k | 0 <= k < |ms| ensures NamesAreIdentifiers(AblAnalyzer.Pass(s, pat)[k]) {
      var m := ms[k];
      assert AblAnalyzer.TableCaptured(s, m);
      if pat == AblAnalyzer.CanFindPattern {
        FieldNamesAreIdentifiers(m.whereBlock, m.table, 0);
      }
    }
  }

  lemma ConcatenatedNames(a: seq<AblAnalyzer.AnalyzedStatement>, b: seq<AblAnalyzer.AnalyzedStatement>, c: seq<AblAnalyzer.AnalyzedStatement>)
    requires forall k :: 0 <= k < |a| ==> NamesAreIdentifiers(a[k])
    requires forall k :: 0 <= k < |b| ==> NamesAreIdentifiers(b[k])
    requires forall k :: 0 <= k < |c| ==> NamesAreIdentifiers(c[k])
    ensures forall k :: 0 <= k < |a + b + c| ==> NamesAreIdentifiers((a + b + c)[k])
  {
    var sts := a + b + c;
    forall k | 0 <= k < |sts| ensures NamesAreIdentifiers(sts[k]) {
      if k < |a| { assert sts[k] == a[k]; }
      else if k < |a| + |b| { assert sts[k] == b[k - |a|]; }
      else { assert sts[k] == c[k - |a| - |b|]; }
    }
  }

  /** The analyser reports only identifier tables, and only identifier fields as used fields. */
  lemma ExtractedNamesAreIdentifiers(source: string)
    ensures var sts := AblAnalyzer.ExtractedStatements(source);
      forall k :: 0 <= k < |sts| ==> NamesAreIdentifiers(sts[k])
  {
    PassNamesAreIdentifiers(source, AblAnalyzer.ForPattern);
    PassNamesAreIdentifiers(source, AblAnalyzer.FindPattern);
    PassNamesAreIdentifiers(source, AblAnalyzer.CanFindPattern);
    ConcatenatedNames(AblAnalyzer.Pass(source, AblAnalyzer.ForPattern), AblAnalyzer.Pass(source, AblAnalyzer.FindPattern),
                      AblAnalyzer.Pass(source, AblAnalyzer.CanFindPattern));
  }

  /**
   * For any statement the analyser extracts from a source file, a suggested index, read back by the
   * schema parser, is exactly the index the advisor meant: on the statement's table, non-primary,
   * under the generated name, over the filtered used fields.
   */
  lemma ExtractedSuggestionParsesBack(tables: map<string, Table>, source: string, k: nat, suffix: nat)
    requires 1000 <= suffix <= 9999
    requires k < |AblAnalyzer.ExtractedStatements(source)|
    requires StatementAnalysis(tables, AblAnalyzer.ExtractedStatements(source)[k], suffix).suggestion.Some?
    ensures var st := AblAnalyzer.ExtractedStatements(source)[k];
      && st.table in tables
      && ParseDfText(StatementAnalysis(tables, st, suffix).suggestion.value)
         == ParsedDf(map[st.table := Table([], [Index(SuggestedName(st.table, suffix), false,
                                               FilteredFields(Classifier(PipelineLookup(tables[st.table].fields)), UsedFields(st)))])])
  {
    ExtractedNamesAreIdentifiers(source);
    SuggestionParsesBack(tables, AblAnalyzer.ExtractedStatements(source)[k], suffix);
  }
}
