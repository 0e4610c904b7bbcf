/** The rebuild engine (`SQLRebuilder.rebuild`): recomposes stored query
    fragments and a caller-supplied predicate list into SQL text.

    `Rebuild` follows the source: it builds the list of clause strings and
    joins it with newlines, keeping a clause only when its text is
    non-empty. `Head`, `Segment` and `Tail` describe the same text
    independently, as a concatenation of fixed segments; `Rebuild`'s
    contract ties the two together, and the lemmas below read the promised
    properties (fixed clause order, WHERE-only variation, no double
    aliasing) off that layout. */
module Rebuilder {
  import opened Common
  import opened Text

  /** A select row as the engine reads it: `alias` and `expression`. An
      absent alias (`None` in the source) behaves exactly like `""`. */
  datatype Item = Item(alias: string, expression: string)

  /** A join row: `join_type`, `table_name`, `on_condition`. */
  datatype JoinLine = JoinLine(joinType: string, tableName: string, onCondition: string)

  /** A predicate: `column` (or else `column_name`), `operator`, `value`.
      The column keys may be missing, and a missing `column_name` renders as
      the text `None`. */
  datatype Condition = Condition(column: Option<string>, columnName: Option<string>, operator: string, value: string)

  /** The quote characters stripped from an alias. */
  const QuoteChars: set<char> := {'\'', '"'}

  /** An item whose expression is emitted without an `AS` clause: it has no
      alias, its alias is the expression itself, or the expression already
      carries an ` AS ` (in any letter case). */
  predicate KeepsExpression(it: Item) {
    it.alias == "" || it.alias == it.expression || Contains(Upper(it.expression), " AS ")
  }

  /** `'<a>'`. */
  function Quoted(a: string): string {
    "'" + a + "'"
  }

  /** One entry of the SELECT list. */
  function RenderItem(it: Item): (r: string)
    ensures IsPrefix(it.expression, r)
    ensures r == it.expression <==> KeepsExpression(it)
    ensures !KeepsExpression(it) ==>
      r == it.expression + " AS " + Quoted(Strip(it.alias, QuoteChars))
  {
    if it.alias != "" && it.alias != it.expression && !Contains(Upper(it.expression), " AS ") then
      it.expression + " AS " + Quoted(Strip(it.alias, QuoteChars))
    else
      it.expression
  }

  /** An aliased entry is never aliased a second time: fed back in as an
      expression, with whatever alias, it comes out unchanged. */
  lemma NoDoubleAlias(it: Item, alias: string)
    requires !KeepsExpression(it)
    ensures RenderItem(Item(alias, RenderItem(it))) == RenderItem(it)
  {
    var e := it.expression;
    var q := Quoted(Strip(it.alias, QuoteChars));
    var r := RenderItem(it);
    assert r == e + " AS " + q;
    UpperConcat(e + " AS ", q);
    UpperConcat(e, " AS ");
    UpperNoLower(" AS ");
    assert Upper(r) == Upper(e) + " AS " + Upper(q);
    ContainsMiddle(Upper(e), " AS ", Upper(q));
  }

  function RenderItems(items: seq<Item>): (r: seq<string>)
    ensures |r| == |items|
    ensures forall i :: 0 <= i < |items| ==> r[i] == RenderItem(items[i])
  {
    seq(|items|, i requires 0 <= i < |items| => RenderItem(items[i]))
  }

  function JoinText(j: JoinLine): string {
    j.joinType + " " + j.tableName + " ON " + j.onCondition
  }

  function JoinTexts(joins: seq<JoinLine>): (r: seq<string>)
    ensures |r| == |joins|
    ensures forall i :: 0 <= i < |joins| ==> r[i] == JoinText(joins[i])
  {
    seq(|joins|, i requires 0 <= i < |joins| => JoinText(joins[i]))
  }

  /** The column a predicate names, as text: its `column` unless that is
      missing or empty, then its `column_name`, and `None` when both are
      missing. */
  function ColumnOf(c: Condition): (r: string)
    ensures c.column.Some? && c.column.value != "" ==> r == c.column.value
    ensures (c.column.None? || c.column.value == "") && c.columnName.Some? ==> r == c.columnName.value
    ensures (c.column.None? || c.column.value == "") && c.columnName.None? ==> r == "None"
  {
    if c.column.Some? && c.column.value != "" then c.column.value
    else match c.columnName
      case Some(n) => n
      case None => "None"
  }

  function ConditionText(c: Condition): string {
    ColumnOf(c) + " " + c.operator + " " + c.value
  }

  function ConditionTexts(conds: seq<Condition>): (r: seq<string>)
    ensures |r| == |conds|
    ensures forall i :: 0 <= i < |conds| ==> r[i] == ConditionText(conds[i])
  {
    seq(|conds|, i requires 0 <= i < |conds| => ConditionText(conds[i]))
  }

  function SelectClause(items: seq<Item>): string {
    "SELECT\n    " + Join(",\n    ", RenderItems(items))
  }

  function JoinClause(joins: seq<JoinLine>): string {
    Join("\n", JoinTexts(joins))
  }

  function WhereClause(conds: seq<Condition>): string {
    if conds == [] then "" else "WHERE " + Join("\n  AND ", ConditionTexts(conds))
  }

  function GroupByClause(groupBy: seq<string>): string {
    if groupBy == [] then "" else "GROUP BY " + Join(", ", groupBy)
  }

  function OrderByClause(orderBy: seq<string>): string {
    if orderBy == [] then "" else "ORDER BY " + Join(", ", orderBy)
  }

  /** `[clause]` when the clause text is non-empty, else nothing. */
  function IfPresent(clause: string): seq<string> {
    if clause != "" then [clause] else []
  }

  function Clauses(items: seq<Item>, fromTable: string, joins: seq<JoinLine>,
                   conds: seq<Condition>, groupBy: seq<string>, orderBy: seq<string>): seq<string>
  {
    [SelectClause(items), "FROM " + fromTable]
      + IfPresent(JoinClause(joins))
      + IfPresent(WhereClause(conds))
      + IfPresent(GroupByClause(groupBy))
      + IfPresent(OrderByClause(orderBy))
  }

  /* ---------- the reference layout ---------- */

  /** A line of the output: a newline, then the line's text. */
  function Line(text: string): string {
    "\n" + text
  }

  function FromClause(fromTable: string): string {
    "FROM " + fromTable
  }

  /** One line per join, in input order. */
  function JoinLines(joins: seq<JoinLine>): string {
    if joins == [] then "" else Line(JoinText(joins[0])) + JoinLines(joins[1..])
  }

  /** Everything up to and including the last JOIN line. */
  function Head(items: seq<Item>, fromTable: string, joins: seq<JoinLine>): string {
    SelectClause(items) + Line(FromClause(fromTable)) + JoinLines(joins)
  }

  /** A line for each present clause, nothing for an absent one. */
  function Segment(clause: string): string {
    if clause == "" then "" else Line(clause)
  }

  /** Everything after the WHERE segment. */
  function Tail(groupBy: seq<string>, orderBy: seq<string>): string {
    Segment(GroupByClause(groupBy)) + Segment(OrderByClause(orderBy))
  }

  /** `SQLRebuilder.rebuild`. Its text is the head (SELECT, FROM, the JOIN
      lines), then the WHERE line if any, then the tail (GROUP BY and ORDER
      BY lines if any), with nothing after. */
  function Rebuild(items: seq<Item>, fromTable: string, joins: seq<JoinLine>,
                   conds: seq<Condition>, groupBy: seq<string>, orderBy: seq<string>): (r: string)
    ensures r == Head(items, fromTable, joins) + Segment(WhereClause(conds)) + Tail(groupBy, orderBy)
  {
    var r := Join("\n", Clauses(items, fromTable, joins, conds, groupBy, orderBy));
    RebuildIsLayout(items, fromTable, joins, conds, groupBy, orderBy);
    r
  }

  /* ---------- proof that the clause list joins to the layout ---------- */

  /** A join clause is non-empty exactly when there is a join, and then as
      a line it reads as the join lines. */
  lemma {:induction false} JoinClauseLines(joins: seq<JoinLine>)
    ensures JoinClause(joins) == "" <==> joins == []
    ensures Segment(JoinClause(joins)) == JoinLines(joins)
    decreases |joins|
  {
    if joins != [] {
      var t := JoinTexts(joins);
      assert JoinText(joins[0]) != "" by {
        assert |JoinText(joins[0])| >= |" ON "|;
      }
      if |joins| > 1 {
        assert t[1..] == JoinTexts(joins[1..]);
        JoinClauseLines(joins[1..]);
        var rest := JoinClause(joins[1..]);
        assert JoinClause(joins) == t[0] + "\n" + rest;
        assert rest != "";
        calc {
          Line(JoinClause(joins));
          "\n" + ((t[0] + "\n") + rest);
          { ConcatAssoc("\n", t[0] + "\n", rest); }
          ("\n" + (t[0] + "\n")) + rest;
          { ConcatAssoc("\n", t[0], "\n"); }
          (("\n" + t[0]) + "\n") + rest;
          { ConcatAssoc("\n" + t[0], "\n", rest); }
          Line(t[0]) + Line(rest);
        }
      } else {
        assert JoinLines(joins[1..]) == "";
      }
    }
  }

  /** Joining `xs + IfPresent(c)` adds the clause's segment. */
  lemma JoinOptional(xs: seq<string>, c: string)
    requires xs != []
    ensures Join("\n", xs + IfPresent(c)) == Join("\n", xs) + Segment(c)
  {
    if c != "" {
      JoinSnoc("\n", xs, c);
      ConcatAssoc(Join("\n", xs), "\n", c);
    } else {
      assert xs + IfPresent(c) == xs;
    }
  }

  lemma RebuildIsLayout(items: seq<Item>, fromTable: string, joins: seq<JoinLine>,
                        conds: seq<Condition>, groupBy: seq<string>, orderBy: seq<string>)
    ensures Join("\n", Clauses(items, fromTable, joins, conds, groupBy, orderBy))
         == Head(items, fromTable, joins) + Segment(WhereClause(conds)) + Tail(groupBy, orderBy)
  {
    var sel := SelectClause(items);
    var s0 := [sel, FromClause(fromTable)];
    var s1 := s0 + IfPresent(JoinClause(joins));
    var s2 := s1 + IfPresent(WhereClause(conds));
    var s3 := s2 + IfPresent(GroupByClause(groupBy));
    var s4 := s3 + IfPresent(OrderByClause(orderBy));
    assert Join("\n", s0) == sel + Line(FromClause(fromTable)) by {
      JoinSnoc("\n", [sel], FromClause(fromTable));
      assert [sel] + [FromClause(fromTable)] == s0;
      ConcatAssoc(sel, "\n", FromClause(fromTable));
    }
    JoinClauseLines(joins);
    JoinOptional(s0, JoinClause(joins));
    JoinOptional(s1, WhereClause(conds));
    JoinOptional(s2, GroupByClause(groupBy));
    JoinOptional(s3, OrderByClause(orderBy));
    var h := Head(items, fromTable, joins);
    var w := Segment(WhereClause(conds));
    var g := Segment(GroupByClause(groupBy));
    var o := Segment(OrderByClause(orderBy));
    assert Join("\n", s4) == h + w + g + o;
    ConcatAssoc(h + w, g, o);
    assert s4 == Clauses(items, fromTable, joins, conds, groupBy, orderBy);
  }

  /* ---------- properties of the rebuilt text ---------- */

  /** The text opens with the SELECT header, then the select list, the
      FROM line and one line per join in input order: this head depends on
      nothing but the items, the table and the joins. */
  lemma RebuildOpening(items: seq<Item>, fromTable: string, joins: seq<JoinLine>,
                       conds: seq<Condition>, groupBy: seq<string>, orderBy: seq<string>)
    ensures var r := Rebuild(items, fromTable, joins, conds, groupBy, orderBy);
      && IsPrefix(Head(items, fromTable, joins), r)
      && IsPrefix(SelectClause(items) + Line(FromClause(fromTable)), r)
      && IsPrefix("SELECT\n    ", r)
  {
    var r := Rebuild(items, fromTable, joins, conds, groupBy, orderBy);
    var h := Head(items, fromTable, joins);
    var w := Segment(WhereClause(conds));
    var t := Tail(groupBy, orderBy);
    ConcatAssoc(h, w, t);
    PrefixOfConcat(h, w + t);
    var sel := SelectClause(items);
    var f := Line(FromClause(fromTable));
    PrefixOfConcat(sel + f, JoinLines(joins));
    PrefixTrans(sel + f, h, r);
    var hdr := "SELECT\n    ";
    PrefixOfConcat(hdr, Join(",\n    ", RenderItems(items)));
    PrefixOfConcat(sel, f);
    PrefixTrans(hdr, sel, sel + f);
    PrefixTrans(hdr, sel + f, r);
  }

  /** The WHERE line is present iff there are conditions; it holds them in
      input order, joined by a newline and `  AND `. */
  lemma WherePresence(conds: seq<Condition>)
    ensures Segment(WhereClause(conds)) == "" <==> conds == []
    ensures conds != [] ==>
      Segment(WhereClause(conds)) == Line("WHERE " + Join("\n  AND ", ConditionTexts(conds)))
  {
  }

  /** Substituting the predicates changes only the WHERE line: two rebuilds
      that differ in their conditions share the text before and the text
      after it. */
  lemma WhereSubstitution(items: seq<Item>, fromTable: string, joins: seq<JoinLine>,
                          c1: seq<Condition>, c2: seq<Condition>, groupBy: seq<string>, orderBy: seq<string>)
    ensures var r1 := Rebuild(items, fromTable, joins, c1, groupBy, orderBy);
      var r2 := Rebuild(items, fromTable, joins, c2, groupBy, orderBy);
      var h := Head(items, fromTable, joins);
      var t := Tail(groupBy, orderBy);
      && IsPrefix(h, r1) && IsPrefix(h, r2)
      && r1[|h|..] == Segment(WhereClause(c1)) + t
      && r2[|h|..] == Segment(WhereClause(c2)) + t
  {
    var h := Head(items, fromTable, joins);
    var t := Tail(groupBy, orderBy);
    ConcatAssoc(h, Segment(WhereClause(c1)), t);
    ConcatAssoc(h, Segment(WhereClause(c2)), t);
  }

  /** GROUP BY and ORDER BY lines appear exactly when their lists are
      non-empty, GROUP BY first. */
  lemma TailShape(groupBy: seq<string>, orderBy: seq<string>)
    ensures Segment(GroupByClause(groupBy)) == "" <==> groupBy == []
    ensures Segment(OrderByClause(orderBy)) == "" <==> orderBy == []
    ensures Tail(groupBy, orderBy) == "" <==> groupBy == [] && orderBy == []
  {
  }
}
