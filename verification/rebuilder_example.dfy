/** The rebuild engine's worked example, computed step by step: one aliased
    aggregate, one table, no joins and one equality predicate give exactly
    three lines, SELECT, FROM and WHERE. Each step is its own lemma so that
    every proof only sees the few literal strings it is about. */
module RebuilderExample {
  import opened Common
  import opened Text
  import opened Rebuilder

  const Expr := "COUNT(t.id)"
  const SelectLine := "SELECT\n    COUNT(t.id) AS 'cnt'"
  const FromLine := "\nFROM T t"
  const WhereLine := "\nWHERE t.d = '2025-01-01'"

  lemma ItemHasNoAs(u: string)
    requires u == Upper(Expr)
    ensures !Contains(u, " AS ")
  {
    assert forall k :: 0 <= k < |u| ==> u[k] != ' ';
    forall i | 0 <= i && i + 4 <= |u| ensures !OccursAt(u, " AS ", i) {
      assert u[i..i + 4][0] == u[i];
    }
  }

  /** The alias carries no quote to strip. */
  lemma AliasUnquoted()
    ensures Strip("cnt", QuoteChars) == "cnt"
  {
    assert "cnt"[0] == 'c' && "cnt"[2] == 't';
    StripUnchanged("cnt", QuoteChars);
  }

  /** The item is aliased: its expression has no ` AS ` and differs from
      the alias. */
  lemma ItemText(it: Item)
    requires it == Item("cnt", Expr)
    ensures RenderItem(it) == Expr + " AS " + Quoted("cnt")
  {
    ItemHasNoAs(Upper(Expr));
    assert it.alias != it.expression;
    AliasUnquoted();
  }

  lemma SelectConcat(s: string)
    requires s == "SELECT\n    " + (Expr + " AS " + Quoted("cnt"))
    ensures s == SelectLine
  {
  }

  lemma SingleJoin(sep: string, r: seq<string>, x: string)
    requires |r| == 1 && r[0] == x
    ensures Join(sep, r) == x
  {
  }

  lemma FromText()
    ensures Line(FromClause("T t")) == FromLine
  {
  }

  lemma SelectText(items: seq<Item>)
    requires items == [Item("cnt", Expr)]
    ensures SelectClause(items) == SelectLine
  {
    ItemText(items[0]);
    SingleJoin(",\n    ", RenderItems(items), RenderItem(items[0]));
    SelectConcat(SelectClause(items));
  }

  lemma HeadText(items: seq<Item>, joins: seq<JoinLine>)
    requires items == [Item("cnt", Expr)] && joins == []
    ensures Head(items, "T t", joins) == SelectLine + FromLine
  {
    SelectText(items);
    FromText();
    assert JoinLines(joins) == "";
    DropEmpty(SelectClause(items) + Line(FromClause("T t")), JoinLines(joins));
  }

  lemma DropEmpty(a: string, e: string)
    requires e == ""
    ensures a + e == a
  {
  }

  lemma WhereConcat(p: string)
    requires p == "t.d" + " " + "=" + " " + "'2025-01-01'"
    ensures "\n" + ("WHERE " + p) == WhereLine
  {
  }

  lemma WhereText(conds: seq<Condition>)
    requires conds == [Condition(Some("t.d"), None, "=", "'2025-01-01'")]
    ensures Segment(WhereClause(conds)) == WhereLine
  {
    var p := ConditionText(conds[0]);
    assert p == "t.d" + " " + "=" + " " + "'2025-01-01'";
    SingleJoin("\n  AND ", ConditionTexts(conds), p);
    assert Segment(WhereClause(conds)) == "\n" + ("WHERE " + p);
    WhereConcat(p);
  }

  /** `rebuild` of one aliased count over `T t`, without joins, with the
      predicate `t.d = '2025-01-01'`: three lines, SELECT, FROM and WHERE. */
  lemma WorkedExample()
    ensures Rebuild([Item("cnt", "COUNT(t.id)")], "T t", [], [Condition(Some("t.d"), None, "=", "'2025-01-01'")], [], [])
         == "SELECT\n    COUNT(t.id) AS 'cnt'" + "\nFROM T t" + "\nWHERE t.d = '2025-01-01'"
  {
    var items := [Item("cnt", "COUNT(t.id)")];
    var conds := [Condition(Some("t.d"), None, "=", "'2025-01-01'")];
    var h := Head(items, "T t", []);
    var w := Segment(WhereClause(conds));
    var t := Tail([], []);
    assert Rebuild(items, "T t", [], conds, [], []) == h + w + t;
    HeadText(items, []);
    WhereText(conds);
    assert t == "";
  }
}
