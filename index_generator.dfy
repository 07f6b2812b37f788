/**
 * The index-suggestion helpers of `src/utils/indexGenerator.ts`: the LOGICAL and DATE heuristics,
 * the choice and order of the fields of a suggested index, and the rendering of that index as an
 * `ADD INDEX` block in the Progress data-definition (`.df`) format.
 */
module IndexGenerator {
  import opened Wrappers
  import opened Text

  // ---------------------------------------------------------------------------
  // Field heuristics
  // ---------------------------------------------------------------------------

  /**
   * What the heuristics read from the table schema: `typeOf(f)` is `Some(t)` when the schema
   * entry `fields[f]` carries the string `t` under `type` (failing that `dataType`, failing that
   * `DATA_TYPE`), and `None` when there is no such entry or the value found is not a string.
   */
  type TypeLookup = string -> Option<string>

  /** The upper-cased schema type of a field, or the empty string when it has none. */
  function SchemaType(typeOf: TypeLookup, field: string): string {
    match typeOf(field)
    case Some(t) => Upper(t)
    case None => ""
  }

  /** `/^ab[-_]/i.test(field)` for the lower-case ASCII letters `a` and `b`. */
  predicate HasTag(field: string, a: char, b: char) {
    && |field| >= 3
    && LowerChar(field[0]) == a && LowerChar(field[1]) == b
    && (field[2] == '-' || field[2] == '_')
  }

  /** `isLogicalField`: a LOGICAL schema type, or the `lg-`/`lg_` naming convention. */
  predicate IsLogicalField(typeOf: TypeLookup, field: string) {
    var t := SchemaType(typeOf, field);
    Contains(t, "LOGICAL") || t == "L" || HasTag(field, 'l', 'g')
  }

  /** `isDateField`: a DATE or DATETIME schema type, or the `dt-`/`dt_` naming convention. */
  predicate IsDateField(typeOf: TypeLookup, field: string) {
    var t := SchemaType(typeOf, field);
    Contains(t, "DATE") || Contains(t, "DATETIME") || t == "D" || HasTag(field, 'd', 't')
  }

  /** The three lists `filterFieldsForIndex` sorts the used fields into. */
  datatype FieldClass = Equality | Range | Logical

  /** The list a field goes to: the logical test is made first, then the date test. */
  function ClassOf(typeOf: TypeLookup, field: string): FieldClass {
    if IsLogicalField(typeOf, field) then Logical
    else if IsDateField(typeOf, field) then Range
    else Equality
  }

  /** A type containing `DATETIME` contains `DATE`, so the `DATETIME` test of `isDateField` never decides anything. */
  lemma DatetimeIsDate(t: string)
    ensures Contains(t, "DATETIME") ==> Contains(t, "DATE")
  {
    var r := IndexOf(t, "DATETIME");
    if r >= 0 {
      assert t[r..r + 4] == t[r..r + 8][..4] == "DATE";
      assert OccursAt(t, r, "DATE");
    }
  }

  /**
   * The class of a field: logical when `isLogicalField` holds, whatever its date test says; a range
   * field when only the date test holds, which needs only `DATE`, `D` or the `dt` tag; equality
   * field otherwise.
   */
  lemma ClassOfCases(typeOf: TypeLookup, field: string)
    ensures ClassOf(typeOf, field) == Logical <==> IsLogicalField(typeOf, field)
    ensures var t := SchemaType(typeOf, field);
      ClassOf(typeOf, field) == Range
      <==> !IsLogicalField(typeOf, field) && (Contains(t, "DATE") || t == "D" || HasTag(field, 'd', 't'))
    ensures ClassOf(typeOf, field) == Equality
      <==> !IsLogicalField(typeOf, field) && !IsDateField(typeOf, field)
  {
    DatetimeIsDate(SchemaType(typeOf, field));
  }

  /**
   * Without a schema type only the naming conventions decide: a field is logical exactly when its
   * name starts with `lg-` or `lg_`, a range field exactly when it starts with `dt-` or `dt_`, and
   * an equality field otherwise; the two tags never both hold.
   */
  lemma TagClasses(typeOf: TypeLookup, field: string)
    requires typeOf(field).None?
    ensures ClassOf(typeOf, field) == Logical <==> HasTag(field, 'l', 'g')
    ensures ClassOf(typeOf, field) == Range <==> HasTag(field, 'd', 't')
    ensures ClassOf(typeOf, field) == Equality <==> !HasTag(field, 'l', 'g') && !HasTag(field, 'd', 't')
    ensures !(HasTag(field, 'l', 'g') && HasTag(field, 'd', 't'))
  {
    assert SchemaType(typeOf, field) == "";
    assert IndexOf("", "LOGICAL") == -1 && IndexOf("", "DATE") == -1 && IndexOf("", "DATETIME") == -1;
  }

  /**
   * The tag test looks only at the first three characters and ignores the letter case of the two
   * letters: a name passes exactly when its upper-cased form, or any name starting with the same
   * three characters, does.
   */
  lemma TagIgnoresCaseAndRest(field: string, a: char, b: char, rest: string)
    requires 'a' <= a <= 'z' && 'a' <= b <= 'z'
    ensures HasTag(field, a, b) <==> HasTag(Upper(field), a, b)
    ensures |field| >= 3 ==> (HasTag(field, a, b) <==> HasTag(field[..3] + rest, a, b))
  {
    if |field| >= 3 {
      assert Upper(field)[0] == UpperChar(field[0]) && Upper(field)[1] == UpperChar(field[1]);
      assert Upper(field)[2] == UpperChar(field[2]);
      var g := field[..3] + rest;
      assert g[0] == field[0] && g[1] == field[1] && g[2] == field[2];
    }
  }

  /** The classification as a function value, so that the list lemmas below need not look inside it. */
  function Classifier(typeOf: TypeLookup): string -> FieldClass {
    (f: string) => ClassOf(typeOf, f)
  }

  /** Position of a class in a suggested index: equality fields, then ranges, then logicals. */
  function Rank(c: FieldClass): nat {
    match c
    case Equality => 0
    case Range => 1
    case Logical => 2
  }

  // ---------------------------------------------------------------------------
  // filterFieldsForIndex
  // ---------------------------------------------------------------------------

  /** Above this many equality and range fields no logical field is added. */
  const MaxFieldsWithoutLogical: nat := 7

  /** The fields of class `c`, in their order in `fields`. */
  function OfClass(cls: string -> FieldClass, fields: seq<string>, c: FieldClass): (r: seq<string>)
    ensures forall i :: 0 <= i < |r| ==> cls(r[i]) == c
  {
    if fields == [] then []
    else
      var last := fields[|fields| - 1];
      OfClass(cls, fields[..|fields| - 1], c) + (if cls(last) == c then [last] else [])
  }

  /** JavaScript `s.slice(0, k)`, which stops at the end of `s`. */
  function SliceTo(s: seq<string>, k: nat): (r: seq<string>) {
    if k < |s| then s[..k] else s
  }

  /**
   * The fields of the suggested index: equality fields, then range fields; then, only while
   * those number fewer than seven, as many logical fields as bring the total up to seven.
   */
  function FilteredFields(cls: string -> FieldClass, fields: seq<string>): seq<string> {
    var base := OfClass(cls, fields, Equality) + OfClass(cls, fields, Range);
    if |base| >= MaxFieldsWithoutLogical then base
    else base + SliceTo(OfClass(cls, fields, Logical), MaxFieldsWithoutLogical - |base|)
  }

  /** `filterFieldsForIndex`: one pass pushing each field onto its class's list, then the cut. */
  method FilterFieldsForIndex(typeOf: TypeLookup, fields: seq<string>) returns (r: seq<string>)
    ensures r == FilteredFields(Classifier(typeOf), fields)
  {
    var equalityFields: seq<string> := [];
    var rangeFields: seq<string> := [];
    var logicalFields: seq<string> := [];
    for n := 0 to |fields|
      invariant equalityFields == OfClass(Classifier(typeOf), fields[..n], Equality)
      invariant rangeFields == OfClass(Classifier(typeOf), fields[..n], Range)
      invariant logicalFields == OfClass(Classifier(typeOf), fields[..n], Logical)
    {
      var field := fields[n];
      assert Classifier(typeOf)(field) == ClassOf(typeOf, field);
      assert fields[..n + 1][..n] == fields[..n] && fields[..n + 1][n] == field;
      if IsLogicalField(typeOf, field) {
        logicalFields := logicalFields + [field];
        continue;
      }
      if IsDateField(typeOf, field) {
        rangeFields := rangeFields + [field];
        continue;
      }
      equalityFields := equalityFields + [field];
    }
    assert fields[..|fields|] == fields;
    var base := equalityFields + rangeFields;
    if |base| >= MaxFieldsWithoutLogical {
      return base;
    }
    var missing := MaxFieldsWithoutLogical - |base|;
    r := base + SliceTo(logicalFields, missing);
  }

  /** Filtering distributes over concatenation. */
  lemma {:induction false} OfClassConcat(cls: string -> FieldClass, a: seq<string>, b: seq<string>, c: FieldClass)
    ensures OfClass(cls, a + b, c) == OfClass(cls, a, c) + OfClass(cls, b, c)
    decreases |b|
  {
    if b == [] {
      assert a + b == a;
    } else {
      var init := b[..|b| - 1];
      assert (a + b)[..|a + b| - 1] == a + init;
      assert (a + b)[|a + b| - 1] == b[|b| - 1];
      OfClassConcat(cls, a, init, c);
    }
  }

  /** A list whose fields all have class `c` is kept whole by `c` and emptied by any other class. */
  lemma {:induction false} OfClassUniform(cls: string -> FieldClass, s: seq<string>, c: FieldClass, d: FieldClass)
    requires forall i :: 0 <= i < |s| ==> cls(s[i]) == c
    ensures OfClass(cls, s, d) == if c == d then s else []
  {
    if s != [] {
      OfClassUniform(cls, s[..|s| - 1], c, d);
      assert s == s[..|s| - 1] + [s[|s| - 1]];
    }
  }

  /** The three lists together hold every input field exactly as often as the input does. */
  lemma {:induction false} OfClassPartition(cls: string -> FieldClass, s: seq<string>)
    ensures Partitioned(cls, s)
  {
    if s != [] {
      OfClassPartition(cls, s[..|s| - 1]);
      PartitionStep(cls, s);
    }
  }

  predicate Partitioned(cls: string -> FieldClass, s: seq<string>) {
    multiset(OfClass(cls, s, Equality)) + multiset(OfClass(cls, s, Range))
      + multiset(OfClass(cls, s, Logical)) == multiset(s)
  }

  lemma PartitionStep(cls: string -> FieldClass, s: seq<string>)
    requires s != [] && Partitioned(cls, s[..|s| - 1])
    ensures Partitioned(cls, s)
  {
    var init, x := s[..|s| - 1], s[|s| - 1];
    assert multiset(s) == multiset(init) + multiset{x} by {
      assert s == init + [x];
    }
    OfClassLast(cls, s, Equality);
    OfClassLast(cls, s, Range);
    OfClassLast(cls, s, Logical);
    OneClassEach(cls, x);
  }

  /** `x` as a multiset when it has class `c`, else the empty multiset. */
  function IfOfClass(cls: string -> FieldClass, x: string, c: FieldClass): multiset<string> {
    if cls(x) == c then multiset{x} else multiset{}
  }

  /** Every field has exactly one class. */
  lemma OneClassEach(cls: string -> FieldClass, x: string)
    ensures IfOfClass(cls, x, Equality) + IfOfClass(cls, x, Range) + IfOfClass(cls, x, Logical) == multiset{x}
  {
  }

  /** The last field adds itself to the multiset of its own class and to no other. */
  lemma OfClassLast(cls: string -> FieldClass, s: seq<string>, c: FieldClass)
    requires s != []
    ensures multiset(OfClass(cls, s, c)) == multiset(OfClass(cls, s[..|s| - 1], c)) + IfOfClass(cls, s[|s| - 1], c)
  {
  }

  /** A field is in the list of class `c` exactly when it is an input field of that class. */
  lemma OfClassMembers(cls: string -> FieldClass, s: seq<string>, c: FieldClass, x: string)
    ensures x in OfClass(cls, s, c) <==> x in s && cls(x) == c
  {
    OfClassPartition(cls, s);
    var e, g, l := OfClass(cls, s, Equality), OfClass(cls, s, Range), OfClass(cls, s, Logical);
    assert x in multiset(s) <==> x in multiset(e) || x in multiset(g) || x in multiset(l);
  }

  /** How many logical fields the suggestion keeps. */
  function LogicalKept(cls: string -> FieldClass, fields: seq<string>): (k: nat) {
    var base := |OfClass(cls, fields, Equality)| + |OfClass(cls, fields, Range)|;
    var logical := |OfClass(cls, fields, Logical)|;
    if base >= MaxFieldsWithoutLogical then 0
    else if logical < MaxFieldsWithoutLogical - base then logical
    else MaxFieldsWithoutLogical - base
  }

  /**
   * The suggestion is a stable partition of the input: all equality fields, then all range fields,
   * then the first `LogicalKept` logical fields, each group in input order.
   */
  lemma FilteredFieldsGroups(cls: string -> FieldClass, fields: seq<string>)
    ensures var l := OfClass(cls, fields, Logical);
      && LogicalKept(cls, fields) <= |l|
      && FilteredFields(cls, fields)
         == OfClass(cls, fields, Equality) + OfClass(cls, fields, Range) + l[..LogicalKept(cls, fields)]
  {
    var l := OfClass(cls, fields, Logical);
    var base := OfClass(cls, fields, Equality) + OfClass(cls, fields, Range);
    if |base| >= MaxFieldsWithoutLogical {
      assert base + l[..0] == base;
    } else {
      assert l[..|l|] == l;
    }
  }

  /**
   * The field order of a suggestion: equality fields come before range fields, which come
   * before logical fields.
   */
  lemma FilteredFieldsRanked(cls: string -> FieldClass, fields: seq<string>)
    ensures var r := FilteredFields(cls, fields);
      forall i, j :: 0 <= i < j < |r| ==> Rank(cls(r[i])) <= Rank(cls(r[j]))
  {
    FilteredFieldsGroups(cls, fields);
    var e, g := OfClass(cls, fields, Equality), OfClass(cls, fields, Range);
    var l := OfClass(cls, fields, Logical)[..LogicalKept(cls, fields)];
    var r := FilteredFields(cls, fields);
    forall i | 0 <= i < |r|
      ensures Rank(cls(r[i])) == if i < |e| then 0 else if i < |e| + |g| then 1 else 2
    {
      if i < |e| {
        assert r[i] == e[i];
      } else if i < |e| + |g| {
        assert r[i] == g[i - |e|];
      } else {
        assert r[i] == l[i - |e| - |g|];
      }
    }
  }

  /**
   * Each group keeps its input order: filtering the suggestion by class gives back every
   * equality field and every range field of the input, and a prefix of its logical fields.
   */
  lemma FilteredFieldsKeepOrder(cls: string -> FieldClass, fields: seq<string>)
    ensures var r := FilteredFields(cls, fields);
      && OfClass(cls, r, Equality) == OfClass(cls, fields, Equality)
      && OfClass(cls, r, Range) == OfClass(cls, fields, Range)
      && OfClass(cls, r, Logical) == OfClass(cls, fields, Logical)[..LogicalKept(cls, fields)]
  {
    FilteredFieldsGroups(cls, fields);
    var e, g := OfClass(cls, fields, Equality), OfClass(cls, fields, Range);
    var l := OfClass(cls, fields, Logical)[..LogicalKept(cls, fields)];
    GroupsOfClass(cls, e, g, l, Equality);
    GroupsOfClass(cls, e, g, l, Range);
    GroupsOfClass(cls, e, g, l, Logical);
  }

  /** Filtering three single-class groups by one class picks out that class's group. */
  lemma GroupsOfClass(cls: string -> FieldClass, e: seq<string>, g: seq<string>, l: seq<string>, c: FieldClass)
    requires forall i :: 0 <= i < |e| ==> cls(e[i]) == Equality
    requires forall i :: 0 <= i < |g| ==> cls(g[i]) == Range
    requires forall i :: 0 <= i < |l| ==> cls(l[i]) == Logical
    ensures OfClass(cls, e + g + l, c) == match c case Equality => e case Range => g case Logical => l
  {
    OfClassConcat(cls, e + g, l, c);
    OfClassConcat(cls, e, g, c);
    OfClassUniform(cls, e, Equality, c);
    OfClassUniform(cls, g, Range, c);
    OfClassUniform(cls, l, Logical, c);
  }

  /**
   * Only logical fields are ever dropped: the suggestion takes each field at most as often as
   * the input has it, and keeps every equality and range field.
   */
  lemma FilteredFieldsDropOnlyLogical(cls: string -> FieldClass, fields: seq<string>)
    ensures var r := FilteredFields(cls, fields);
      && multiset(r) <= multiset(fields)
      && forall x :: x in fields && cls(x) != Logical ==> x in r
  {
    FilteredFieldsGroups(cls, fields);
    OfClassPartition(cls, fields);
    var e, g, l := OfClass(cls, fields, Equality), OfClass(cls, fields, Range), OfClass(cls, fields, Logical);
    var k := LogicalKept(cls, fields);
    assert l == l[..k] + l[k..];
    var r := FilteredFields(cls, fields);
    forall x | x in fields && cls(x) != Logical ensures x in r {
      OfClassMembers(cls, fields, cls(x), x);
    }
  }

  /**
   * The size of a suggestion: all equality and range fields when there are at least seven of them,
   * otherwise seven fields, or every field when the statement uses fewer than seven.
   */
  lemma FilteredFieldsLength(cls: string -> FieldClass, fields: seq<string>)
    ensures var base := |OfClass(cls, fields, Equality)| + |OfClass(cls, fields, Range)|;
      |FilteredFields(cls, fields)|
      == if base >= MaxFieldsWithoutLogical then base
         else if |fields| < MaxFieldsWithoutLogical then |fields| else MaxFieldsWithoutLogical
  {
    FilteredFieldsGroups(cls, fields);
    OfClassPartition(cls, fields);
    var e, g, l := OfClass(cls, fields, Equality), OfClass(cls, fields, Range), OfClass(cls, fields, Logical);
    assert |multiset(e)| + |multiset(g)| + |multiset(l)| == |multiset(fields)|;
  }

  /** With at most seven used fields nothing is dropped: the suggestion reorders them only. */
  lemma FewFieldsAllKept(cls: string -> FieldClass, fields: seq<string>)
    requires |fields| <= MaxFieldsWithoutLogical
    ensures multiset(FilteredFields(cls, fields)) == multiset(fields)
  {
    FilteredFieldsLength(cls, fields);
    FilteredFieldsDropOnlyLogical(cls, fields);
    OfClassPartition(cls, fields);
    var r := FilteredFields(cls, fields);
    assert |multiset(r)| == |r| && |multiset(fields)| == |fields|;
    SubMultisetOfSameSize(multiset(r), multiset(fields));
  }

  lemma SubMultisetOfSameSize<T>(a: multiset<T>, b: multiset<T>)
    requires a <= b && |a| == |b|
    ensures a == b
  {
    assert |b - a| == |b| - |a|;
    assert b == a + (b - a);
  }

  // ---------------------------------------------------------------------------
  // generateIndexDF
  // ---------------------------------------------------------------------------

  /** The index number written when none is given. */
  const DefaultIndexNum: int := 99

  /**
   * `indexName || \`${table}__ai${suffix}\``: an absent or empty name is replaced by the table
   * name, `__ai` and the four-digit number `suffix`, which the source draws at random.
   */
  function SafeIndexName(table: string, indexName: Option<string>, suffix: nat): string
    requires 1000 <= suffix <= 9999
  {
    if indexName.Some? && indexName.value != "" then indexName.value
    else table + "__ai" + NatToString(suffix)
  }

  /** `indexNum || 99`: an absent or zero number becomes 99. */
  function EffectiveIndexNum(indexNum: Option<int>): int {
    if indexNum.Some? && indexNum.value != 0 then indexNum.value else DefaultIndexNum
  }

  /** The four header lines of an `ADD INDEX` block. */
  function HeaderLines(table: string, name: string, num: int): seq<string> {
    [ "ADD INDEX \"" + name + "\" ON \"" + table + "\"",
      "  AREA \"Schema Area\"",
      "  INDEX-NUM " + IntToString(num),
      "  FOREIGN-NAME \"" + table + "##" + name + "\"" ]
  }

  /** The line declaring one ascending key field. */
  function IndexFieldLine(field: string): string {
    "  INDEX-FIELD \"" + field + "\" ASCENDING"
  }

  /** The lines of the block: the header, then one `INDEX-FIELD` line per field, in order. */
  function IndexDfLines(table: string, name: string, num: int, fields: seq<string>): (ls: seq<string>)
    ensures |ls| == 4 + |fields|
  {
    HeaderLines(table, name, num) + seq(|fields|, i requires 0 <= i < |fields| => IndexFieldLine(fields[i]))
  }

  /** The text `generateIndexDF` returns: the block's lines joined with line feeds, none after the last. */
  function IndexDfText(table: string, fields: seq<string>, indexName: Option<string>, indexNum: Option<int>, suffix: nat): string
    requires 1000 <= suffix <= 9999
  {
    JoinLines(IndexDfLines(table, SafeIndexName(table, indexName, suffix), EffectiveIndexNum(indexNum), fields))
  }

  /** `generateIndexDF`: every line is appended with its line feed, and `trimEnd` removes the last one. */
  method GenerateIndexDF(table: string, fields: seq<string>, indexName: Option<string>, indexNum: Option<int>, suffix: nat)
    returns (df: string)
    requires 1000 <= suffix <= 9999
    ensures df == IndexDfText(table, fields, indexName, indexNum, suffix)
  {
    var safeIndexName := SafeIndexName(table, indexName, suffix);
    var num := EffectiveIndexNum(indexNum);
    ghost var lines := IndexDfLines(table, safeIndexName, num, fields);
    df := "ADD INDEX \"" + safeIndexName + "\" ON \"" + table + "\"" + "\n";
    df := df + ("  AREA \"Schema Area\"" + "\n");
    df := df + ("  INDEX-NUM " + IntToString(num) + "\n");
    df := df + ("  FOREIGN-NAME \"" + table + "##" + safeIndexName + "\"" + "\n");
    HeaderTerminated(table, safeIndexName, num, fields);
    for n := 0 to |fields|
      invariant df == Terminated(lines[..4 + n])
    {
      assert lines[4 + n] == IndexFieldLine(fields[n]);
      TerminatedStep(lines, 4 + n);
      df := df + ("  INDEX-FIELD \"" + fields[n] + "\" ASCENDING" + "\n");
    }
    assert lines[..4 + |fields|] == lines;
    TrimEndOfTerminated(table, safeIndexName, num, fields);
    df := TrimEnd(df);
  }

  /** `trimEnd` takes off the line feed after the last line and nothing more. */
  lemma TrimEndOfTerminated(table: string, name: string, num: int, fields: seq<string>)
    ensures var lines := IndexDfLines(table, name, num, fields);
      TrimEnd(Terminated(lines)) == JoinLines(lines)
  {
    var lines := IndexDfLines(table, name, num, fields);
    var last := lines[|lines| - 1];
    assert last[|last| - 1] == (if fields == [] then '"' else 'G');
    TerminatedJoin(lines);
    JoinLinesLastChar(lines);
    TrimEndNewline(JoinLines(lines));
  }

  /** Each line followed by its line feed: what the `+=` statements build up. */
  function Terminated(ls: seq<string>): string {
    if ls == [] then "" else Terminated(ls[..|ls| - 1]) + (ls[|ls| - 1] + "\n")
  }

  /** The four header lines, each followed by its line feed, open the terminated block. */
  lemma HeaderTerminated(table: string, name: string, num: int, fields: seq<string>)
    ensures Terminated(IndexDfLines(table, name, num, fields)[..4])
      == "ADD INDEX \"" + name + "\" ON \"" + table + "\"" + "\n"
       + ("  AREA \"Schema Area\"" + "\n")
       + ("  INDEX-NUM " + IntToString(num) + "\n")
       + ("  FOREIGN-NAME \"" + table + "##" + name + "\"" + "\n")
  {
    var header := HeaderLines(table, name, num);
    assert IndexDfLines(table, name, num, fields)[..4] == header;
    TerminatedFour(header[0], header[1], header[2], header[3]);
    assert header == [header[0], header[1], header[2], header[3]];
  }

  /** Four lines, each followed by its line feed. */
  lemma TerminatedFour(a: string, b: string, c: string, d: string)
    ensures Terminated([a, b, c, d]) == (a + "\n") + (b + "\n") + (c + "\n") + (d + "\n")
  {
    var ls := [a, b, c, d];
    assert ls[..0] == [];
    TerminatedStep(ls, 0);
    TerminatedStep(ls, 1);
    TerminatedStep(ls, 2);
    TerminatedStep(ls, 3);
    assert ls[..4] == ls;
  }

  lemma TerminatedStep(ls: seq<string>, k: nat)
    requires k < |ls|
    ensures Terminated(ls[..k + 1]) == Terminated(ls[..k]) + (ls[k] + "\n")
  {
    assert ls[..k + 1][..k] == ls[..k];
  }

  /** Terminating every line is joining them and terminating the last one. */
  lemma {:induction false} TerminatedJoin(ls: seq<string>)
    requires |ls| >= 1
    ensures Terminated(ls) == JoinLines(ls) + "\n"
    decreases |ls|
  {
    var init := ls[..|ls| - 1];
    if |ls| > 1 {
      TerminatedJoin(init);
      JoinLinesSnoc(init, ls[|ls| - 1]);
      assert init + [ls[|ls| - 1]] == ls;
    } else {
      assert init == [];
    }
  }

  /** Appending a line to at least one line appends a line feed and the line. */
  lemma {:induction false} JoinLinesSnoc(ls: seq<string>, l: string)
    requires |ls| >= 1
    ensures JoinLines(ls + [l]) == JoinLines(ls) + "\n" + l
    decreases |ls|
  {
    if |ls| > 1 {
      assert (ls + [l])[1..] == ls[1..] + [l];
      JoinLinesSnoc(ls[1..], l);
    }
  }

  /** The joined text ends with the last character of the last line. */
  lemma {:induction false} JoinLinesLastChar(ls: seq<string>)
    requires |ls| >= 1 && ls[|ls| - 1] != []
    ensures var j := JoinLines(ls); var l := ls[|ls| - 1]; j != [] && j[|j| - 1] == l[|l| - 1]
    decreases |ls|
  {
    if |ls| > 1 {
      JoinLinesLastChar(ls[1..]);
    }
  }

  /** `trimEnd` of a text with one line feed added removes just that line feed. */
  lemma TrimEndNewline(s: string)
    requires s != [] && !IsSpace(s[|s| - 1])
    ensures TrimEnd(s + "\n") == s
  {
    assert (s + "\n")[..|s|] == s;
  }

  /** The generated name is the given one when that is non-empty, else the table name, `__ai` and four digits. */
  lemma SafeIndexNameShape(table: string, indexName: Option<string>, suffix: nat)
    requires 1000 <= suffix <= 9999
    ensures var n := SafeIndexName(table, indexName, suffix);
      && n != []
      && (indexName.Some? && indexName.value != [] ==> n == indexName.value)
      && (indexName.None? || indexName.value == [] ==>
            && |n| == |table| + 8 && n[..|table| + 4] == table + "__ai"
            && (forall i :: |table| + 4 <= i < |n| ==> IsDigit(n[i]))
            && DigitsValue(n[|table| + 4..]) == suffix)
  {
    var d := NatToString(suffix);
    assert |NatToString(suffix / 10 / 10)| == 2;
    assert |NatToString(suffix / 10)| == 3;
    DigitsValueOfNatToString(suffix);
    var n := table + "__ai" + d;
    assert n[|table| + 4..] == d;
  }

  /** The number written is the given one unless it is absent or zero, and never zero. */
  lemma EffectiveIndexNumNonZero(indexNum: Option<int>)
    ensures var k := EffectiveIndexNum(indexNum);
      && k != 0
      && (k == DefaultIndexNum <==> indexNum.None? || indexNum.value in {0, DefaultIndexNum})
  {
  }
}
