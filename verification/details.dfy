/** The details lookup: which stored rows describe a query. The master
    store is searched first and the generated store second; a generated
    query is described by its own WHERE rows and by the join and select
    rows of its parent. Select rows are listed by category and, within a
    category, in insertion order. */
module Details {
  import opened Common
  import opened Text
  import opened TemplateStore
  import opened Regeneration

  /** Strict order on texts: by character codes, a proper prefix first
      (the order of SQLite's binary collation on UTF-8 text). */
  predicate Before(a: string, b: string)
    decreases |a|
  {
    if a == [] then b != []
    else if b == [] then false
    else if a[0] != b[0] then a[0] < b[0]
    else Before(a[1..], b[1..])
  }

  lemma {:induction false} BeforeIrreflexive(a: string)
    ensures !Before(a, a)
    decreases |a|
  {
    if a != [] {
      BeforeIrreflexive(a[1..]);
    }
  }

  lemma {:induction false} BeforeTotal(a: string, b: string)
    ensures a == b || Before(a, b) || Before(b, a)
    decreases |a|
  {
    if a != [] && b != [] && a[0] == b[0] {
      BeforeTotal(a[1..], b[1..]);
      if a[1..] == b[1..] {
        assert a == [a[0]] + a[1..] && b == [b[0]] + b[1..];
      }
    }
  }

  lemma {:induction false} BeforeTransitive(a: string, b: string, c: string)
    requires Before(a, b) && Before(b, c)
    ensures Before(a, c)
    decreases |a|
  {
    if a != [] && a[0] == b[0] && b[0] == c[0] {
      BeforeTransitive(a[1..], b[1..], c[1..]);
    }
  }

  /** Rows ordered by category. */
  predicate SortedByCategory(rows: seq<SelectRow>) {
    forall i, j :: 0 <= i < j < |rows| ==> !Before(rows[j].category, rows[i].category)
  }

  /** `rows` with `x` placed after every row whose category does not come
      after its own. */
  function Insert(rows: seq<SelectRow>, x: SelectRow): (r: seq<SelectRow>)
    ensures multiset(r) == multiset(rows) + multiset{x}
    ensures |r| == |rows| + 1
  {
    if rows == [] then [x]
    else
      var last := rows[|rows| - 1];
      var init := rows[..|rows| - 1];
      assert rows == init + [last];
      if Before(x.category, last.category) then Insert(init, x) + [last]
      else rows + [x]
  }

  /** Ordering by category, then by insertion order: a stable insertion
      sort. */
  function SortByCategory(rows: seq<SelectRow>): (r: seq<SelectRow>)
    ensures multiset(r) == multiset(rows)
  {
    if rows == [] then []
    else
      assert rows == rows[..|rows| - 1] + [rows[|rows| - 1]];
      Insert(SortByCategory(rows[..|rows| - 1]), rows[|rows| - 1])
  }

  /** `a` does not come after `b`. */
  predicate NotAfter(a: string, b: string) {
    !Before(b, a)
  }

  lemma NotAfterTransitive(a: string, b: string, c: string)
    requires NotAfter(a, b) && NotAfter(b, c)
    ensures NotAfter(a, c)
  {
    if Before(c, a) {
      BeforeTotal(a, b);
      if a != b {
        BeforeTransitive(c, a, b);
      }
    }
  }

  lemma BeforeNotAfter(a: string, b: string)
    requires Before(a, b)
    ensures NotAfter(a, b)
  {
    if Before(b, a) {
      BeforeTransitive(a, b, a);
      BeforeIrreflexive(a);
    }
  }

  /** A row whose category comes after none of a sorted list's can follow
      it. */
  lemma SnocSorted(rows: seq<SelectRow>, y: SelectRow)
    requires SortedByCategory(rows)
    requires forall i :: 0 <= i < |rows| ==> NotAfter(rows[i].category, y.category)
    ensures SortedByCategory(rows + [y])
  {
  }

  lemma {:induction false} InsertSorted(rows: seq<SelectRow>, x: SelectRow)
    requires SortedByCategory(rows)
    ensures SortedByCategory(Insert(rows, x))
  {
    if rows != [] {
      var last := rows[|rows| - 1];
      var init := rows[..|rows| - 1];
      assert SortedByCategory(init);
      if Before(x.category, last.category) {
        InsertSorted(init, x);
        var s := Insert(init, x);
        forall i | 0 <= i < |s|
          ensures NotAfter(s[i].category, last.category)
        {
          assert s[i] in multiset(s);
          if s[i] == x {
            BeforeNotAfter(x.category, last.category);
          } else {
            assert s[i] in multiset(init);
            var k :| 0 <= k < |init| && init[k] == s[i];
            assert rows[k] == s[i];
          }
        }
        SnocSorted(s, last);
      } else {
        forall i | 0 <= i < |rows|
          ensures NotAfter(rows[i].category, x.category)
        {
          if i == |rows| - 1 {
            BeforeIrreflexive(last.category);
          }
          NotAfterTransitive(rows[i].category, last.category, x.category);
        }
        SnocSorted(rows, x);
      }
    }
  }

  lemma {:induction false} SortSorted(rows: seq<SelectRow>)
    ensures SortedByCategory(SortByCategory(rows))
  {
    if rows != [] {
      SortSorted(rows[..|rows| - 1]);
      InsertSorted(SortByCategory(rows[..|rows| - 1]), rows[|rows| - 1]);
    }
  }

  lemma {:induction false} OfCategoryConcat(a: seq<SelectRow>, b: seq<SelectRow>, c: string)
    ensures OfCategory(a + b, c) == OfCategory(a, c) + OfCategory(b, c)
  {
    if a == [] {
      assert a + b == b;
    } else {
      var head := if a[0].category == c then [a[0]] else [];
      assert (a + b)[0] == a[0];
      assert (a + b)[1..] == a[1..] + b;
      assert OfCategory(a + b, c) == head + OfCategory(a[1..] + b, c);
      assert OfCategory(a, c) == head + OfCategory(a[1..], c);
      OfCategoryConcat(a[1..], b, c);
      ConcatAssoc(head, OfCategory(a[1..], c), OfCategory(b, c));
    }
  }

  lemma OfCategoryOne(x: SelectRow, c: string)
    ensures OfCategory([x], c) == if x.category == c then [x] else []
  {
    assert [x][1..] == [];
  }

  /** Inserting `x` adds it to the end of its own category and leaves
      every category's order alone. */
  lemma {:induction false} InsertStable(rows: seq<SelectRow>, x: SelectRow, c: string)
    ensures OfCategory(Insert(rows, x), c) == OfCategory(rows, c) + OfCategory([x], c)
  {
    if rows == [] {
      assert Insert(rows, x) == [x];
      assert OfCategory(rows, c) == [];
    } else {
      var last := rows[|rows| - 1];
      var init := rows[..|rows| - 1];
      assert rows == init + [last];
      OfCategoryConcat(init, [last], c);
      var ox := OfCategory([x], c);
      var ol := OfCategory([last], c);
      if Before(x.category, last.category) {
        InsertStable(init, x, c);
        OfCategoryConcat(Insert(init, x), [last], c);
        OfCategoryOne(x, c);
        OfCategoryOne(last, c);
        if x.category == c && last.category == c {
          BeforeIrreflexive(c);
        }
        assert Insert(rows, x) == Insert(init, x) + [last];
        SwapEmpty(OfCategory(init, c), ox, ol);
      } else {
        OfCategoryConcat(rows, [x], c);
      }
    }
  }

  /** Two pieces of which one is empty can be appended in either order. */
  lemma SwapEmpty<T>(a: seq<T>, p: seq<T>, q: seq<T>)
    requires p == [] || q == []
    ensures (a + p) + q == (a + q) + p
  {
  }

  /** Sorting keeps, within each category, the rows in their order. */
  lemma {:induction false} SortStable(rows: seq<SelectRow>, c: string)
    ensures OfCategory(SortByCategory(rows), c) == OfCategory(rows, c)
  {
    if rows != [] {
      var init := rows[..|rows| - 1];
      var x := rows[|rows| - 1];
      SortStable(init, c);
      InsertStable(SortByCategory(init), x, c);
      assert rows == init + [x];
      OfCategoryConcat(init, [x], c);
    }
  }

  /** What the lookup reports: the query's own fields, where it was found,
      the id whose joins and select rows describe it, and those rows. A
      generated query has no unit of its own; it is reported as
      `Generated`. */
  datatype QueryDetails = QueryDetails(
    queryId: string,
    question: string,
    generated: bool,
    baseId: string,
    unitType: string,
    joins: seq<JoinRow>,
    conditions: seq<WhereRow>,
    selectColumns: seq<SelectRow>)

  datatype LookupError = UnknownQuery | MissingAttribute(name: string)

  /** The lookup as the code stands: the found row is read with a
      dictionary-style default lookup the row type does not offer, so any
      query that exists fails there; only an unknown id is reported as
      such. */
  function LookupAsWritten(m: Master, g: GenStore, id: string): (r: Result<QueryDetails, LookupError>)
    ensures r.Err?
    ensures r == Err(UnknownQuery) <==> id !in m.assets && id !in g.queries
  {
    if id !in m.assets && id !in g.queries then Err(UnknownQuery)
    else Err(MissingAttribute("get"))
  }

  /** The lookup with the row's fields read by name, defaults applied. */
  function Lookup(m: Master, g: GenStore, id: string): (r: Result<QueryDetails, LookupError>)
    ensures r.Err? <==> id !in m.assets && id !in g.queries
    ensures r.Err? ==> r.error == UnknownQuery
    ensures r.Ok? ==>
      && r.value.queryId == id
      && (r.value.generated <==> id !in m.assets)
      && r.value.baseId == (if id in m.assets then id else g.queries[id].parentId)
      && r.value.joins == OwnedBy(m.joins, r.value.baseId)
      && r.value.conditions == (if id in m.assets then OwnedBy(m.wheres, id) else OwnedBy(g.wheres, id))
      && SortedByCategory(r.value.selectColumns)
      && multiset(r.value.selectColumns) == multiset(OwnedBy(m.selects, r.value.baseId))
      && (forall c :: OfCategory(r.value.selectColumns, c) == OfCategory(OwnedBy(m.selects, r.value.baseId), c))
  {
    if id in m.assets then
      var a := m.assets[id];
      var selects := OwnedBy(m.selects, id);
      SortSorted(selects);
      assert forall c :: OfCategory(SortByCategory(selects), c) == OfCategory(selects, c) by {
        forall c ensures OfCategory(SortByCategory(selects), c) == OfCategory(selects, c) {
          SortStable(selects, c);
        }
      }
      Ok(QueryDetails(id, a.question, false, id, a.unitType,
        OwnedBy(m.joins, id), OwnedBy(m.wheres, id), SortByCategory(selects)))
    else if id in g.queries then
      var q := g.queries[id];
      var selects := OwnedBy(m.selects, q.parentId);
      SortSorted(selects);
      assert forall c :: OfCategory(SortByCategory(selects), c) == OfCategory(selects, c) by {
        forall c ensures OfCategory(SortByCategory(selects), c) == OfCategory(selects, c) {
          SortStable(selects, c);
        }
      }
      Ok(QueryDetails(id, q.question, true, q.parentId, "Generated",
        OwnedBy(m.joins, q.parentId), OwnedBy(g.wheres, id), SortByCategory(selects)))
    else Err(UnknownQuery)
  }

  /** The lookup with only the default lookups repaired: the FROM table,
      the presentation type and the modification date are still read by
      name from the found row, and a generated query's row has none of
      these columns. So a query of the master store is reported as the
      corrected lookup reports it, and any query found only in the
      generated store fails on its FROM table. */
  function LookupRowReadsAsWritten(m: Master, g: GenStore, id: string): (r: Result<QueryDetails, LookupError>)
    ensures id in m.assets ==> r == Lookup(m, g, id) && r.Ok?
    ensures id !in m.assets && id in g.queries ==> r == Err(MissingAttribute("from_table")) && Lookup(m, g, id).Ok?
    ensures id !in m.assets && id !in g.queries ==> r == Err(UnknownQuery)
  {
    if id !in m.assets && id in g.queries then Err(MissingAttribute("from_table"))
    else Lookup(m, g, id)
  }

  /** A query fresh from a regeneration is found in the generated store
      and is described by its parent's joins and select rows and by the
      new WHERE rows. */
  lemma LookupRegenerated(m: Master, g: GenStore, parent: string, cs: seq<ConditionInput>,
                          userQuestion: string, category: string, now: string)
    requires WellFormed(m)
    requires CanRegenerate(m, g, parent, cs)
    requires forall k :: k in g.wheres ==> k.queryId in g.queries
    ensures var r := ModifyWhere(m, g, parent, Some(cs), userQuestion, category, now, None);
      var id := r.outcome.value;
      id !in m.assets ==>
        var d := Lookup(r.master, r.gen, id);
        && d.Ok? && d.value.generated && d.value.baseId == parent
        && d.value.joins == OwnedBy(m.joins, parent)
        && d.value.conditions == GenWhereRows(cs)
  {
    var r := ModifyWhere(m, g, parent, Some(cs), userQuestion, category, now, None);
    var id := r.outcome.value;
    if id !in m.assets {
      assert r.master == Bump(m, parent);
      OwnedByConcat(g.wheres, Tag(id, GenWhereRows(cs)), id);
      OwnedByTag(id, GenWhereRows(cs), id);
      UnownedIsEmpty(g.wheres, g.queries.Keys, id);
    }
  }

  /** Rows all belonging to known ids own nothing for an unknown one. */
  lemma {:induction false} UnownedIsEmpty<T>(rows: seq<Keyed<T>>, ids: set<string>, id: string)
    requires forall k :: k in rows ==> k.queryId in ids
    requires id !in ids
    ensures OwnedBy(rows, id) == []
  {
    if rows != [] {
      assert rows[0] in rows;
      UnownedIsEmpty(rows[1..], ids, id);
    }
  }
}
