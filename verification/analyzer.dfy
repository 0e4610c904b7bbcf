/** The structural analyzer: one parsed SELECT statement becomes the
    structure part of a template (FROM table, select entries, joins,
    flattened WHERE predicates, GROUP BY and ORDER BY texts) and a unit
    tier; one SQL file becomes a whole template named after the file. */
module Analyzer {
  import opened Common
  import opened Text
  import opened SqlAst
  import opened Templates
  import opened WhereFlattening
  import opened JoinTier
  import opened FileNaming

  /** Step 2: the first table under FROM, or `Unknown`. */
  function FromTable(from: Option<seq<string>>): (r: string)
    ensures r == "Unknown" <==> from.None? || from.value == [] || from.value[0] == "Unknown"
    ensures r != "Unknown" ==> r in from.value
    ensures from.Some? && from.value != [] ==> r == from.value[0]
  {
    match from
    case Some(tables) => if tables != [] then tables[0] else "Unknown"
    case None => "Unknown"
  }

  /** The select entry of one projection, if it is kept: an aliased
      expression is attributed to the FROM table and is its own column; a
      bare column is its own alias; any other shape is dropped. */
  function SelectEntry(e: SelectExpr, fromTable: string): (r: Option<SelectColumn>)
    ensures r.Some? <==> Kept(e)
    ensures e.Aliased? ==>
      var c := r.value;
      c.alias == e.alias && c.expression == e.inner && c.column == e.inner
      && c.table == fromTable && c.aggregation == e.aggregate
    ensures e.ColumnRef? ==>
      var c := r.value;
      c.alias == e.name && c.column == e.name && c.expression == e.text
      && c.table == e.table && c.aggregation.None?
  {
    match e
    case Aliased(alias, inner, aggregate) => Some(SelectColumn(alias, inner, fromTable, inner, aggregate))
    case ColumnRef(name, table, text) => Some(SelectColumn(name, text, table, name, None))
    case OtherExpr(_) => None
  }

  predicate Kept(e: SelectExpr) {
    e.Aliased? || e.ColumnRef?
  }

  /** The projections that give a select entry, in order. */
  function KeptOf(es: seq<SelectExpr>): (r: seq<SelectExpr>)
    ensures forall e :: e in r <==> e in es && Kept(e)
  {
    if es == [] then []
    else (if Kept(es[0]) then [es[0]] else []) + KeptOf(es[1..])
  }

  /** Step 3: the select entries, in projection order. The k-th entry is
      the entry of the k-th aliased expression or bare column; every other
      projection is skipped. */
  function SelectColumns(es: seq<SelectExpr>, fromTable: string): (r: seq<SelectColumn>)
    ensures |r| == |KeptOf(es)|
    ensures forall i :: 0 <= i < |r| ==> SelectEntry(KeptOf(es)[i], fromTable) == Some(r[i])
  {
    if es == [] then []
    else
      var rest := SelectColumns(es[1..], fromTable);
      match SelectEntry(es[0], fromTable)
      case Some(c) =>
        assert KeptOf(es) == [es[0]] + KeptOf(es[1..]);
        [c] + rest
      case None =>
        assert KeptOf(es) == KeptOf(es[1..]);
        rest
  }

  lemma {:induction false} SelectColumnsConcat(a: seq<SelectExpr>, b: seq<SelectExpr>, fromTable: string)
    ensures SelectColumns(a + b, fromTable) == SelectColumns(a, fromTable) + SelectColumns(b, fromTable)
  {
    if a == [] {
      assert a + b == b;
    } else {
      assert (a + b)[0] == a[0];
      assert (a + b)[1..] == a[1..] + b;
      SelectColumnsConcat(a[1..], b, fromTable);
      match SelectEntry(a[0], fromTable)
      case Some(c) =>
        ConcatAssoc([c], SelectColumns(a[1..], fromTable), SelectColumns(b, fromTable));
      case None =>
    }
  }

  /** Extraction keeps the projection order, and dropping a projection of
      another shape changes nothing. */
  lemma SelectOrder(a: seq<SelectExpr>, e: SelectExpr, b: seq<SelectExpr>, fromTable: string)
    ensures SelectColumns(a + [e] + b, fromTable)
      == SelectColumns(a, fromTable) + SelectColumns([e], fromTable) + SelectColumns(b, fromTable)
    ensures !Kept(e) ==> SelectColumns(a + [e] + b, fromTable) == SelectColumns(a + b, fromTable)
  {
    SelectColumnsConcat(a + [e], b, fromTable);
    SelectColumnsConcat(a, [e], fromTable);
    if !Kept(e) {
      SelectColumnsDropped(e, fromTable);
      assert SelectColumns(a, fromTable) + [] == SelectColumns(a, fromTable);
      SelectColumnsConcat(a, b, fromTable);
    }
  }

  /** A projection of another shape gives no entry. */
  lemma SelectColumnsDropped(e: SelectExpr, fromTable: string)
    requires !Kept(e)
    ensures SelectColumns([e], fromTable) == []
  {
    assert [e][1..] == [];
  }

  /** Step 4: one record per JOIN node, in order. */
  function JoinRecordOf(j: JoinNode): (r: JoinRecord)
    ensures r.joinType == j.kind.GetOr("INNER") && r.table == j.table
    ensures r.onCondition == j.on.GetOr("") && r.relationship == r.onCondition
  {
    var on := j.on.GetOr("");
    JoinRecord(j.kind.GetOr("INNER"), j.table, on, on)
  }

  function JoinRecords(joins: seq<JoinNode>): (r: seq<JoinRecord>)
    ensures |r| == |joins|
    ensures forall i :: 0 <= i < |r| ==> r[i] == JoinRecordOf(joins[i])
  {
    seq(|joins|, i requires 0 <= i < |joins| => JoinRecordOf(joins[i]))
  }

  /** A join without a recorded kind is typed `INNER`, which counts
      towards the tier; a join without ON gets the empty condition; the
      relationship label is always the ON text. */
  lemma JoinDefaults(j: JoinNode)
    ensures j.kind.None? ==> JoinRecordOf(j).joinType == "INNER" && Counts(JoinRecordOf(j).joinType)
    ensures j.on.None? ==> JoinRecordOf(j).onCondition == ""
    ensures JoinRecordOf(j).relationship == JoinRecordOf(j).onCondition
  {
    if j.kind.None? {
      InnerCounts(JoinRecordOf(j).joinType);
    }
  }

  /** The analysis of one statement. */
  datatype Analysis = Analysis(structure: Structure, unit: Unit)

  /** Steps 2 to 8. WHERE, GROUP BY and ORDER BY lists are empty when the
      clause is absent; the tier is that of the extracted joins. */
  function Analyze(s: Statement): (a: Analysis)
    ensures a.structure.fromTable == FromTable(s.from)
    ensures a.structure.selectColumns == SelectColumns(s.projections, a.structure.fromTable)
    ensures a.structure.joins == JoinRecords(s.joins)
    ensures |a.structure.joins| == |s.joins|
    ensures s.where.None? ==> a.structure.whereConditions == []
    ensures s.where.Some? ==> multiset(a.structure.whereConditions) == multiset(DepthFirst(s.where.value))
    ensures s.groupBy.None? ==> a.structure.groupBy == []
    ensures s.groupBy.Some? ==> a.structure.groupBy == s.groupBy.value
    ensures s.orderBy.None? ==> a.structure.orderBy == []
    ensures s.orderBy.Some? ==> a.structure.orderBy == s.orderBy.value
    ensures a.unit == Classify(a.structure.joins)
  {
    var fromTable := FromTable(s.from);
    var joins := JoinRecords(s.joins);
    var where := match s.where
      case Some(c) => Flatten(c)
      case None => [];
    Analysis(
      Structure(SelectColumns(s.projections, fromTable), fromTable, joins, where,
        s.groupBy.GetOr([]), s.orderBy.GetOr([])),
      Classify(joins))
  }

  /** Two plain joins give `unitC`; a single join typed `LEFT` gives
      `unitA`. */
  lemma AnalyzeTierExamples(s: Statement, t: Statement)
    requires |s.joins| == 2 && s.joins[0].kind.None? && s.joins[1].kind.None?
    requires |t.joins| == 1 && t.joins[0].kind == Some("LEFT")
    ensures Analyze(s).unit == UnitC
    ensures Analyze(t).unit == UnitA
  {
    var js := Analyze(s).structure.joins;
    assert js == [js[0], js[1]];
    var jt := Analyze(t).structure.joins;
    assert jt == [jt[0]];
    TierExamples(js[0], js[1], jt[0]);
  }

  /** Whitespace in the sense of Python's `str.strip()` without
      arguments. */
  const Whitespace: set<char> := {
    '\U{0009}', '\U{000A}', '\U{000B}', '\U{000C}', '\U{000D}', '\U{001C}', '\U{001D}', '\U{001E}',
    '\U{001F}', '\U{0020}', '\U{0085}', '\U{00A0}', '\U{1680}', '\U{2000}', '\U{2001}', '\U{2002}',
    '\U{2003}', '\U{2004}', '\U{2005}', '\U{2006}', '\U{2007}', '\U{2008}', '\U{2009}', '\U{200A}',
    '\U{2028}', '\U{2029}', '\U{202F}', '\U{205F}', '\U{3000}'}

  /** The parser's verdict on the stripped file text: the statement and
      its normalised rendering, or a parse error. */
  datatype ParseOutcome = Parsed(statement: Statement, normalizedSql: string) | Unparseable

  datatype AnalysisError =
    | EmptyFile
    | ParseError
    | UndefinedName(name: string)

  /** Analysing one file as the code stands: a blank file and an
      unparseable one fail, and every other file fails too, because the
      template's `entities` and `tags` are read from a name that is never
      bound. */
  function AnalyzeFileAsWritten(filename: string, content: string, parse: ParseOutcome, now: string): (r: Result<Template, AnalysisError>)
    ensures r.Err?
    ensures Strip(content, Whitespace) == "" <==> r == Err(EmptyFile)
    ensures Strip(content, Whitespace) != "" && parse.Parsed? ==> r == Err(UndefinedName("entities"))
  {
    var sql := Strip(content, Whitespace);
    if sql == "" then Err(EmptyFile)
    else match parse
      case Unparseable => Err(ParseError)
      case Parsed(_, _) => Err(UndefinedName("entities"))
  }

  /** The entities of a statement: the main table and the tables of the
      joins that count towards the tier. */
  function Entities(structure: Structure): (r: seq<string>)
    ensures |r| == 1 + CountedJoins(structure.joins)
    ensures r[0] == structure.fromTable && r[1..] == CountedTables(structure.joins)
    ensures forall t :: t in r[1..] <==> exists j :: j in structure.joins && Counts(j.joinType) && j.table == t
  {
    [structure.fromTable] + CountedTables(structure.joins)
  }

  /** Analysing one file with `entities` bound to the main table and the
      joined tables that count: the template is named after the file, its
      structure and tier are those of the statement, `entities` lists each
      of those tables once and `tags` lists them all, in order. */
  function AnalyzeFile(filename: string, content: string, parse: ParseOutcome, now: string): (r: Result<Template, AnalysisError>)
    ensures Strip(content, Whitespace) == "" <==> r == Err(EmptyFile)
    ensures Strip(content, Whitespace) != "" ==> (r.Ok? <==> parse.Parsed?)
    ensures r.Ok? ==>
      var a := Analyze(parse.statement);
      var stem := Stem(filename);
      && r.value.queryId == QueryId(stem)
      && r.value.question == Question(stem)
      && r.value.structure == a.structure
      && r.value.unitType == a.unit.Name()
      && r.value.originalSql == Strip(content, Whitespace)
      && r.value.normalizedSql == parse.normalizedSql
      && r.value.tags == Entities(a.structure)
      && NoDuplicates(r.value.entities)
      && (forall t :: t in r.value.entities <==> t in Entities(a.structure))
      && |r.value.tags| == 1 + CountedJoins(a.structure.joins)
  {
    var sql := Strip(content, Whitespace);
    if sql == "" then Err(EmptyFile)
    else match parse
      case Unparseable => Err(ParseError)
      case Parsed(statement, normalized) =>
        var stem := Stem(filename);
        var a := Analyze(statement);
        var entities := Entities(a.structure);
        Ok(Template(
          QueryId(stem), Question(stem), Some("Auto-analyzed by sqlglot"),
          a.unit.Name(), "Automated Unit Classification", Distinct(entities),
          "table", "{}", None, sql, normalized, a.structure,
          now, None, None, entities, "low", Some("unknown")))
  }

  /** With `entities` bound, the tier and the entity list agree: a
      `unitA` query has the main table as its only tag, and every tier
      above adds one tag per counted join. */
  lemma TierMatchesEntities(filename: string, content: string, parse: ParseOutcome, now: string)
    ensures var r := AnalyzeFile(filename, content, parse, now);
      r.Ok? ==>
      var t := r.value;
      && (t.unitType == "unitA" <==> |t.tags| == 1)
      && (t.unitType == "unitB" <==> |t.tags| == 2)
      && (t.unitType == "unitC" <==> |t.tags| >= 3)
  {
  }
}
