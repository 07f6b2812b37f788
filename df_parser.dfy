/**
 * The schema (.df) parser: a line-by-line state machine over `ADD TABLE`, `ADD FIELD`, `ADD INDEX`,
 * `PRIMARY` and `INDEX-FIELD` records that builds a table map of fields and indexes.
 *
 * The TypeScript keeps the index being built in `currentIndex`, an object it has already pushed
 * onto its table's index list, and goes on mutating it through that alias. Here the current index
 * is the pair (table name, position in that table's index list); `ValidState` records that the pair
 * always names the most recently added index of that table.
 */
module DfParser {
  import opened Wrappers
  import opened Text

  datatype Field = Field(name: string, fieldType: string)

  datatype Index = Index(name: string, primary: bool, fields: seq<string>)

  datatype Table = Table(fields: seq<Field>, indexes: seq<Index>)

  /** `ParsedDf`: table name to table; a name is case-sensitive. */
  datatype ParsedDf = ParsedDf(tables: map<string, Table>)

  const EmptyTable := Table([], [])

  // ---------------------------------------------------------------------------
  // Recognising one trimmed line
  // ---------------------------------------------------------------------------

  /** What one trimmed line is, by the first of the parser's patterns that matches it. */
  datatype DfLine =
    | Blank
    | AddTable(table: string)
    | AddField(field: string, table: string, fieldType: string)
    | AddIndex(index: string, table: string)
    | Primary
    | IndexField(field: string)
    | Unrecognised

  /** `\s+` at offset `i`: where the run of white space ends, when it has at least one character. */
  function Spaces1(s: string, i: nat): (r: Option<nat>)
    requires i <= |s|
    ensures r.Some? ==> i < r.value <= |s|
  {
    var e := SkipSpaces(s, i);
    if e > i then Some(e) else None
  }

  /** `"([^"]+)"` at offset `i`: the quoted text and the offset just past the closing quote. */
  function QuotedAt(s: string, i: nat): (r: Option<(string, nat)>)
    ensures r.Some? ==> i + 3 <= r.value.1 <= |s|
    ensures r.Some? ==> r.value.0 == s[i + 1..r.value.1 - 1] && r.value.0 != [] && '"' !in r.value.0
  {
    if i < |s| && s[i] == '"' then
      var j := IndexOfChar(s, i + 1, '"');
      if i + 1 < j < |s| then Some((s[i + 1..j], j + 1)) else None
    else None
  }

  /** `^ADD TABLE\s+"([^"]+)"`, case-insensitive. */
  function AddTableRecord(s: string): Option<DfLine> {
    if !MatchesAt(s, 0, "ADD TABLE") then None
    else
      var a :- Spaces1(s, 9);
      var t :- QuotedAt(s, a);
      Some(AddTable(t.0))
  }

  /** `^ADD FIELD\s+"([^"]+)"\s+OF\s+"([^"]+)"\s+AS\s+([A-Za-z0-9]+)`, case-insensitive. */
  function AddFieldRecord(s: string): Option<DfLine> {
    if !MatchesAt(s, 0, "ADD FIELD") then None
    else
      var a :- Spaces1(s, 9);
      var f :- QuotedAt(s, a);
      var b :- Spaces1(s, f.1);
      if !MatchesAt(s, b, "OF") then None
      else
        var c :- Spaces1(s, b + 2);
        var t :- QuotedAt(s, c);
        var d :- Spaces1(s, t.1);
        if !MatchesAt(s, d, "AS") then None
        else
          var e :- Spaces1(s, d + 2);
          var k := AlnumEnd(s, e);
          if k == e then None else Some(AddField(f.0, t.0, s[e..k]))
  }

  /** `^ADD INDEX\s+"([^"]+)"\s+ON\s+"([^"]+)"`, case-insensitive. */
  function AddIndexRecord(s: string): Option<DfLine> {
    if !MatchesAt(s, 0, "ADD INDEX") then None
    else
      var a :- Spaces1(s, 9);
      var i :- QuotedAt(s, a);
      var b :- Spaces1(s, i.1);
      if !MatchesAt(s, b, "ON") then None
      else
        var c :- Spaces1(s, b + 2);
        var t :- QuotedAt(s, c);
        Some(AddIndex(i.0, t.0))
  }

  /** `^INDEX-FIELD\s+"([^"]+)"`, case-insensitive. */
  function IndexFieldRecord(s: string): Option<DfLine> {
    if !MatchesAt(s, 0, "INDEX-FIELD") then None
    else
      var a :- Spaces1(s, 11);
      var f :- QuotedAt(s, a);
      Some(IndexField(f.0))
  }

  /** `^PRIMARY$`, case-insensitive. */
  predicate IsPrimaryRecord(s: string) {
    |s| == 7 && MatchesAt(s, 0, "PRIMARY")
  }

  /** The record a trimmed line holds, trying the patterns in the parser's order. */
  function ClassifyLine(trimmed: string): DfLine {
    if trimmed == [] then Blank
    else
      var t := AddTableRecord(trimmed);
      if t.Some? then t.value
      else
        var f := AddFieldRecord(trimmed);
        if f.Some? then f.value
        else
          var i := AddIndexRecord(trimmed);
          if i.Some? then i.value
          else if IsPrimaryRecord(trimmed) then Primary
          else
            var x := IndexFieldRecord(trimmed);
            if x.Some? then x.value else Unrecognised
  }

  // ---------------------------------------------------------------------------
  // The state machine
  // ---------------------------------------------------------------------------

  /** `result.tables`, `currentTable` and `currentIndex` between two lines. */
  datatype ParseState = ParseState(
    tables: map<string, Table>,
    currentTable: Option<string>,
    currentIndex: Option<(string, nat)>)

  const InitState := ParseState(map[], None, None)

  /** The current index, when there is one, is the last index of an existing table. */
  predicate ValidState(st: ParseState) {
    st.currentIndex.Some? ==>
      st.currentIndex.value.0 in st.tables
      && st.currentIndex.value.1 + 1 == |st.tables[st.currentIndex.value.0].indexes|
  }

  function TableOr(tables: map<string, Table>, t: string): Table {
    if t in tables then tables[t] else EmptyTable
  }

  /** Replace index `p` of table `t`, leaving everything else as it is. */
  function UpdateIndex(tables: map<string, Table>, t: string, p: nat, idx: Index): map<string, Table>
    requires t in tables && p < |tables[t].indexes|
  {
    tables[t := tables[t].(indexes := tables[t].indexes[p := idx])]
  }

  /** The effect of one record on the parse state. */
  function Step(st: ParseState, rec: DfLine): (r: ParseState)
    requires ValidState(st)
    ensures ValidState(r)
  {
    match rec
    case AddTable(t) =>
      ParseState(if t in st.tables then st.tables else st.tables[t := EmptyTable], Some(t), None)
    case AddField(f, t, ty) =>
      var tab := TableOr(st.tables, t);
      st.(tables := st.tables[t := tab.(fields := tab.fields + [Field(f, Lower(ty))])])
    case AddIndex(i, t) =>
      var tab := TableOr(st.tables, t);
      ParseState(st.tables[t := tab.(indexes := tab.indexes + [Index(i, false, [])])],
                 st.currentTable, Some((t, |tab.indexes|)))
    case Primary =>
      if st.currentIndex.None? then st
      else
        var (t, p) := st.currentIndex.value;
        var idx := st.tables[t].indexes[p];
        st.(tables := UpdateIndex(st.tables, t, p, idx.(primary := true)))
    case IndexField(f) =>
      if st.currentIndex.None? then st
      else
        var (t, p) := st.currentIndex.value;
        var idx := st.tables[t].indexes[p];
        st.(tables := UpdateIndex(st.tables, t, p, idx.(fields := idx.fields + [f])))
    case _ => st
  }

  /** The record each line holds, once trimmed. */
  function Records(lines: seq<string>): seq<DfLine> {
    seq(|lines|, n requires 0 <= n < |lines| => ClassifyLine(Trim(lines[n])))
  }

  /** The state after the given records, folded from the first to the last. */
  function Parse(recs: seq<DfLine>): (st: ParseState)
    ensures ValidState(st)
  {
    if recs == [] then InitState else Step(Parse(recs[..|recs| - 1]), recs[|recs| - 1])
  }

  /** What `parseDf(dfText)` returns. */
  function ParseDfText(dfText: string): ParsedDf {
    ParsedDf(Parse(Records(SplitLines(dfText))).tables)
  }

  /**
   * `parseDf`: split the text on `\n` or `\r\n`, then for each trimmed line apply the first record
   * pattern that matches.
   */
  method ParseDf(dfText: string) returns (result: ParsedDf)
    ensures result == ParseDfText(dfText)
  {
    var lines := SplitLines(dfText);
    ghost var recs := Records(lines);
    var tables: map<string, Table> := map[];
    var currentTable: Option<string> := None;
    var currentIndex: Option<(string, nat)> := None;
    for n := 0 to |lines|
      invariant ParseState(tables, currentTable, currentIndex) == Parse(recs[..n])
    {
      assert recs[..n + 1][..n] == recs[..n];
      var trimmed := Trim(lines[n]);
      if trimmed == [] {
        assert recs[n] == Blank;
        continue;
      }
      var record := ClassifyLine(trimmed);
      assert record == recs[n];
      tables, currentTable, currentIndex := ApplyRecord(tables, currentTable, currentIndex, record);
    }
    assert recs[..|lines|] == recs;
    result := ParsedDf(tables);
  }

  /** The body of the `parseDf` loop once a line has been recognised. */
  method ApplyRecord(tables0: map<string, Table>, currentTable0: Option<string>,
                     currentIndex0: Option<(string, nat)>, record: DfLine)
    returns (tables: map<string, Table>, currentTable: Option<string>, currentIndex: Option<(string, nat)>)
    requires ValidState(ParseState(tables0, currentTable0, currentIndex0))
    ensures ParseState(tables, currentTable, currentIndex)
         == Step(ParseState(tables0, currentTable0, currentIndex0), record)
  {
    tables, currentTable, currentIndex := tables0, currentTable0, currentIndex0;
    match record {
      case AddTable(t) =>
        currentTable := Some(t);
        if t !in tables {
          tables := tables[t := EmptyTable];
        }
        currentIndex := None;
      case AddField(f, t, ty) =>
        if t !in tables {
          tables := tables[t := EmptyTable];
        }
        tables := tables[t := tables[t].(fields := tables[t].fields + [Field(f, Lower(ty))])];
      case AddIndex(i, t) =>
        if t !in tables {
          tables := tables[t := EmptyTable];
        }
        currentIndex := Some((t, |tables[t].indexes|));
        tables := tables[t := tables[t].(indexes := tables[t].indexes + [Index(i, false, [])])];
      case Primary =>
        if currentIndex.Some? {
          var (t, p) := currentIndex.value;
          var idx := tables[t].indexes[p];
          tables := tables[t := tables[t].(indexes := tables[t].indexes[p := idx.(primary := true)])];
        }
      case IndexField(f) =>
        if currentIndex.Some? {
          var (t, p) := currentIndex.value;
          var idx := tables[t].indexes[p];
          tables := tables[t := tables[t].(indexes := tables[t].indexes[p := idx.(fields := idx.fields + [f])])];
        }
      case _ =>
    }
  }

  // ---------------------------------------------------------------------------
  // One record at a time
  // ---------------------------------------------------------------------------

  /** A line of white space alone is blank. */
  lemma WhiteSpaceLineIsBlank(line: string)
    requires forall i :: 0 <= i < |line| ==> IsSpace(line[i])
    ensures ClassifyLine(Trim(line)) == Blank
  {
    TrimStartShape(line);
  }

  /** Blank and unrecognised lines change nothing, not even the current index. */
  lemma StepIgnoresOtherLines(st: ParseState, rec: DfLine)
    requires ValidState(st)
    requires rec == Blank || rec == Unrecognised
    ensures Step(st, rec) == st
  {
  }

  /**
   * `ADD TABLE "t"` makes `t` exist without discarding what it already holds, leaves every other
   * table alone and clears the current index.
   */
  lemma StepAddTable(st: ParseState, t: string)
    requires ValidState(st)
    ensures Step(st, AddTable(t)).tables.Keys == st.tables.Keys + {t}
    ensures Step(st, AddTable(t)).tables[t] == TableOr(st.tables, t)
    ensures forall u :: u in st.tables ==> Step(st, AddTable(t)).tables[u] == st.tables[u]
    ensures Step(st, AddTable(t)).currentIndex == None
  {
  }

  /**
   * `ADD FIELD "f" OF "t" AS ty` appends `{f, lowercase(ty)}` to the fields of the OF table (made if
   * absent), whatever the current table, and touches neither indexes nor the current index.
   */
  lemma StepAddField(st: ParseState, f: string, t: string, ty: string)
    requires ValidState(st)
    ensures Step(st, AddField(f, t, ty)).tables.Keys == st.tables.Keys + {t}
    ensures Step(st, AddField(f, t, ty)).tables[t].fields == TableOr(st.tables, t).fields + [Field(f, Lower(ty))]
    ensures Step(st, AddField(f, t, ty)).tables[t].indexes == TableOr(st.tables, t).indexes
    ensures forall u :: u in st.tables && u != t ==> Step(st, AddField(f, t, ty)).tables[u] == st.tables[u]
    ensures Step(st, AddField(f, t, ty)).currentIndex == st.currentIndex
  {
  }

  /**
   * `ADD INDEX "i" ON "t"` appends a non-primary index with no fields to the ON table (made if
   * absent) and makes it the current index.
   */
  lemma StepAddIndex(st: ParseState, i: string, t: string)
    requires ValidState(st)
    ensures Step(st, AddIndex(i, t)).tables.Keys == st.tables.Keys + {t}
    ensures Step(st, AddIndex(i, t)).tables[t].indexes == TableOr(st.tables, t).indexes + [Index(i, false, [])]
    ensures Step(st, AddIndex(i, t)).tables[t].fields == TableOr(st.tables, t).fields
    ensures forall u :: u in st.tables && u != t ==> Step(st, AddIndex(i, t)).tables[u] == st.tables[u]
    ensures Step(st, AddIndex(i, t)).currentIndex == Some((t, |TableOr(st.tables, t).indexes|))
  {
  }

  /**
   * `PRIMARY` marks the current index (index `p` of table `t`) and nothing else: the tables, their
   * fields, their other indexes, the index's name and fields and the current table and index stay
   * as they were. With no current index it does nothing.
   */
  lemma StepPrimary(st: ParseState, t: string, p: nat)
    requires ValidState(st)
    ensures st.currentIndex.None? ==> Step(st, Primary) == st
    ensures st.currentIndex == Some((t, p)) ==> IndexOnlyChanged(st, Step(st, Primary), t, p)
    ensures st.currentIndex == Some((t, p)) ==>
      && Step(st, Primary).tables[t].indexes[p].primary
      && Step(st, Primary).tables[t].indexes[p].name == st.tables[t].indexes[p].name
      && Step(st, Primary).tables[t].indexes[p].fields == st.tables[t].indexes[p].fields
  {
  }

  /**
   * `INDEX-FIELD "f"` appends `f` to the fields of the current index (index `p` of table `t`) and
   * changes nothing else: the index keeps its name and primary flag, and every other index, every
   * table's fields and the current table and index stay as they were. With no current index it
   * does nothing.
   */
  lemma StepIndexField(st: ParseState, f: string, t: string, p: nat)
    requires ValidState(st)
    ensures st.currentIndex.None? ==> Step(st, IndexField(f)) == st
    ensures st.currentIndex == Some((t, p)) ==> IndexOnlyChanged(st, Step(st, IndexField(f)), t, p)
    ensures st.currentIndex == Some((t, p)) ==>
      && Step(st, IndexField(f)).tables[t].indexes[p].fields == st.tables[t].indexes[p].fields + [f]
      && Step(st, IndexField(f)).tables[t].indexes[p].name == st.tables[t].indexes[p].name
      && Step(st, IndexField(f)).tables[t].indexes[p].primary == st.tables[t].indexes[p].primary
  {
  }

  /**
   * From `a` to `b` at most index `p` of table `t` changed: the same tables, every other table as
   * it was, table `t` with the same fields and as many indexes, its other indexes as they were, and
   * the same current table and index.
   */
  predicate IndexOnlyChanged(a: ParseState, b: ParseState, t: string, p: nat) {
    && b.tables.Keys == a.tables.Keys
    && (forall u :: u in a.tables && u != t ==> b.tables[u] == a.tables[u])
    && t in a.tables && p < |a.tables[t].indexes|
    && b.tables[t].fields == a.tables[t].fields
    && |b.tables[t].indexes| == |a.tables[t].indexes|
    && (forall k :: 0 <= k < |a.tables[t].indexes| && k != p ==> b.tables[t].indexes[k] == a.tables[t].indexes[k])
    && b.currentTable == a.currentTable
    && b.currentIndex == a.currentIndex
  }

  /** `a` only grows into `b`: no table, field or index is dropped, renamed or reordered. */
  predicate Grows(a: map<string, Table>, b: map<string, Table>) {
    && a.Keys <= b.Keys
    && forall t :: t in a ==> TableGrows(a[t], b[t])
  }

  predicate TableGrows(a: Table, b: Table) {
    && |a.fields| <= |b.fields| && b.fields[..|a.fields|] == a.fields
    && |a.indexes| <= |b.indexes|
    && forall k :: 0 <= k < |a.indexes| ==> IndexGrows(a.indexes[k], b.indexes[k])
  }

  predicate IndexGrows(a: Index, b: Index) {
    && b.name == a.name
    && |a.fields| <= |b.fields| && b.fields[..|a.fields|] == a.fields
    && (a.primary ==> b.primary)
  }

  /** No record discards or reorders a table, a field or an index that already exists. */
  lemma StepGrows(st: ParseState, rec: DfLine)
    requires ValidState(st)
    ensures Grows(st.tables, Step(st, rec).tables)
  {
    var r := Step(st, rec);
    forall t | t in st.tables ensures TableGrows(st.tables[t], r.tables[t]) {
      var a, b := st.tables[t], r.tables[t];
      match rec {
        case AddField(_, u, _) =>
          if u == t { assert b.fields[..|a.fields|] == a.fields; }
        case Primary =>
          if st.currentIndex.Some? && st.currentIndex.value.0 == t {
            assert forall k :: 0 <= k < |a.indexes| ==> IndexGrows(a.indexes[k], b.indexes[k]);
          }
        case IndexField(f) =>
          if st.currentIndex.Some? && st.currentIndex.value.0 == t {
            var p := st.currentIndex.value.1;
            assert b.indexes[p].fields[..|a.indexes[p].fields|] == a.indexes[p].fields;
            assert forall k :: 0 <= k < |a.indexes| ==> IndexGrows(a.indexes[k], b.indexes[k]);
          }
        case AddIndex(_, u) =>
          if u == t {
            assert forall k :: 0 <= k < |a.indexes| ==> IndexGrows(a.indexes[k], b.indexes[k]);
          }
        case _ =>
      }
    }
  }

  // ---------------------------------------------------------------------------
  // The whole text
  // ---------------------------------------------------------------------------

  function FieldsOf(tables: map<string, Table>, t: string): seq<Field> {
    TableOr(tables, t).fields
  }

  function IndexNames(idxs: seq<Index>): (r: seq<string>)
    ensures |r| == |idxs|
  {
    if idxs == [] then [] else IndexNames(idxs[..|idxs| - 1]) + [idxs[|idxs| - 1].name]
  }

  /** The field an `ADD FIELD … OF "t"` record declares, if it is one. */
  function FieldDecl(rec: DfLine, t: string): seq<Field> {
    match rec
    case AddField(f, u, ty) => if u == t then [Field(f, Lower(ty))] else []
    case _ => []
  }

  /** The name of an `ADD INDEX … ON "t"` record, if it is one. */
  function IndexDecl(rec: DfLine, t: string): seq<string> {
    match rec
    case AddIndex(i, u) => if u == t then [i] else []
    case _ => []
  }

  /** The fields the `ADD FIELD … OF "t"` records declare, in order. */
  function FieldDecls(recs: seq<DfLine>, t: string): seq<Field> {
    if recs == [] then [] else FieldDecls(recs[..|recs| - 1], t) + FieldDecl(recs[|recs| - 1], t)
  }

  /** The names of the `ADD INDEX … ON "t"` records, in order. */
  function IndexDecls(recs: seq<DfLine>, t: string): seq<string> {
    if recs == [] then [] else IndexDecls(recs[..|recs| - 1], t) + IndexDecl(recs[|recs| - 1], t)
  }

  /** A record that names table `t`. */
  predicate Declares(rec: DfLine, t: string) {
    match rec
    case AddTable(u) => u == t
    case AddField(_, u, _) => u == t
    case AddIndex(_, u) => u == t
    case _ => false
  }

  /** One record makes `t` exist exactly when it names `t`, and never removes it. */
  lemma StepKeys(st: ParseState, rec: DfLine, t: string)
    requires ValidState(st)
    ensures t in Step(st, rec).tables <==> t in st.tables || Declares(rec, t)
  {
  }

  /** One record adds to the fields of `t` exactly the field it declares for `t`. */
  lemma StepFields(st: ParseState, rec: DfLine, t: string)
    requires ValidState(st)
    ensures FieldsOf(Step(st, rec).tables, t) == FieldsOf(st.tables, t) + FieldDecl(rec, t)
  {
  }

  /** One record adds to the index names of `t` exactly the index it declares for `t`. */
  lemma StepIndexNames(st: ParseState, rec: DfLine, t: string)
    requires ValidState(st)
    ensures IndexNames(TableOr(Step(st, rec).tables, t).indexes) == IndexNames(TableOr(st.tables, t).indexes) + IndexDecl(rec, t)
  {
    var before := TableOr(st.tables, t).indexes;
    var after := TableOr(Step(st, rec).tables, t).indexes;
    match rec {
      case AddIndex(i, u) =>
        if u == t {
          assert after == before + [Index(i, false, [])];
          assert after[..|after| - 1] == before;
        } else {
          assert after == before;
        }
      case _ =>
        assert |after| == |before| && forall k :: 0 <= k < |after| ==> after[k].name == before[k].name;
        IndexNamesAgree(after, before);
    }
  }

  /** A table exists in the result exactly when some record names it. */
  lemma {:induction false} ParseTableKeys(recs: seq<DfLine>, t: string)
    ensures t in Parse(recs).tables <==> exists n :: 0 <= n < |recs| && Declares(recs[n], t)
  {
    if recs != [] {
      var init := recs[..|recs| - 1];
      ParseTableKeys(init, t);
      StepKeys(Parse(init), recs[|recs| - 1], t);
      assert forall n :: 0 <= n < |init| ==> init[n] == recs[n];
      if exists n :: 0 <= n < |init| && Declares(init[n], t) {
        var n :| 0 <= n < |init| && Declares(init[n], t);
        assert Declares(recs[n], t);
      }
    }
  }

  /** A table's fields are exactly its `ADD FIELD` records, in the order of the text. */
  lemma {:induction false} ParseFieldsInOrder(recs: seq<DfLine>, t: string)
    ensures FieldsOf(Parse(recs).tables, t) == FieldDecls(recs, t)
  {
    if recs != [] {
      var init := recs[..|recs| - 1];
      ParseFieldsInOrder(init, t);
      StepFields(Parse(init), recs[|recs| - 1], t);
    }
  }

  /**
   * A table's indexes are exactly its `ADD INDEX` records, in the order of the text; so a table has
   * as many indexes as there are `ADD INDEX` lines naming it.
   */
  lemma {:induction false} ParseIndexesInOrder(recs: seq<DfLine>, t: string)
    ensures IndexNames(TableOr(Parse(recs).tables, t).indexes) == IndexDecls(recs, t)
  {
    if recs != [] {
      var init := recs[..|recs| - 1];
      ParseIndexesInOrder(init, t);
      StepIndexNames(Parse(init), recs[|recs| - 1], t);
    }
  }

  lemma {:induction false} IndexNamesAgree(a: seq<Index>, b: seq<Index>)
    requires |a| == |b| && forall k :: 0 <= k < |a| ==> a[k].name == b[k].name
    ensures IndexNames(a) == IndexNames(b)
  {
    if a != [] {
      IndexNamesAgree(a[..|a| - 1], b[..|b| - 1]);
    }
  }
}
