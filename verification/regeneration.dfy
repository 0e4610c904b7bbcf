/** Regeneration of a stored query with new WHERE predicates. The parent
    is looked up in the master store; its select rows (of the requested
    category, or else of category `all`) and its join rows are read, the
    SQL is rebuilt with the new predicates, and the result is written to a
    separate generated store under the id `<parent>_modified_<n + 1>`,
    where `n` is the parent's modification count, which is then bumped in
    the master store. The two stores commit one after the other, the
    generated store first. */
module Regeneration {
  import opened Common
  import opened Text
  import opened Templates
  import opened TemplateStore
  import Rebuilder
  import FileNaming

  /** A predicate as supplied by the caller; every key may be missing. */
  datatype ConditionInput = ConditionInput(
    column: Option<string>, columnName: Option<string>, operator: Option<string>,
    value: Option<string>, kind: Option<string>)

  /** A generated query. */
  datatype GenQuery = GenQuery(
    queryId: string, parentId: string, question: string, description: string,
    normalizedSql: string, createdAt: string, tags: seq<string>)

  /** The generated store: queries by id and their WHERE rows. */
  datatype GenStore = GenStore(queries: map<string, GenQuery>, wheres: seq<Keyed<WhereRow>>)

  /** The store statements of a regeneration that can fail. */
  datatype RegenStep = GenInsert | MasterUpdate | GenCommit | MasterCommit

  datatype RegenError =
    | NotFound
    | Malformed
    | MissingKey(key: string)
    | DuplicateId(id: string)
    | StoreFailure(step: RegenStep)

  /** Both stores after a regeneration, and its outcome: the new id or an
      error. */
  datatype RegenResult = RegenResult(master: Master, gen: GenStore, outcome: Result<string, RegenError>)

  /** The id of the query derived from `parent` at modification count
      `count`. */
  function DerivedId(parent: string, count: int): (r: string)
    ensures IsPrefix(parent + "_modified_", r)
    ensures r[|parent + "_modified_"|..] == IntToString(count + 1)
  {
    parent + "_modified_" + IntToString(count + 1)
  }

  /** Distinct counts give distinct ids: the ids a parent's successive
      regenerations derive never repeat while its count only grows. */
  lemma DerivedIdInjective(parent: string, c1: int, c2: int)
    requires DerivedId(parent, c1) == DerivedId(parent, c2)
    ensures c1 == c2
  {
    var n := |parent + "_modified_"|;
    assert IntToString(c1 + 1) == DerivedId(parent, c1)[n..];
    IntToStringInjective(c1 + 1, c2 + 1);
  }

  /** The parent's select rows for a category: those of the category if
      there are any, and otherwise those of category `all`. */
  function ChosenSelects(m: Master, parent: string, category: string): (r: seq<SelectRow>)
    ensures r == OfCategory(OwnedBy(m.selects, parent), category)
         || r == OfCategory(OwnedBy(m.selects, parent), "all")
    ensures OfCategory(OwnedBy(m.selects, parent), category) != [] ==>
              r == OfCategory(OwnedBy(m.selects, parent), category)
    ensures OfCategory(OwnedBy(m.selects, parent), category) == [] ==>
              r == OfCategory(OwnedBy(m.selects, parent), "all")
    ensures forall i :: 0 <= i < |r| ==> r[i].category in {category, "all"}
  {
    var own := OwnedBy(m.selects, parent);
    var inCategory := OfCategory(own, category);
    if inCategory != [] then inCategory else OfCategory(own, "all")
  }

  /** A condition the rebuild step can render: it has an operator and a
      value. */
  predicate Renderable(c: ConditionInput) {
    c.operator.Some? && c.value.Some?
  }

  /** The key the rebuild step finds missing first, if any: conditions are
      read in order, and each one's `operator` before its `value`. So the
      key reported is that of the first condition that cannot be rendered:
      `operator` if it has none, and `value` otherwise. */
  function MissingRenderKey(cs: seq<ConditionInput>): (r: Option<string>)
    ensures r.None? <==> forall i :: 0 <= i < |cs| ==> Renderable(cs[i])
    ensures r.Some? ==>
      exists i ::
        && 0 <= i < |cs| && !Renderable(cs[i])
        && (forall j :: 0 <= j < i ==> Renderable(cs[j]))
        && r.value == (if cs[i].operator.None? then "operator" else "value")
  {
    if cs == [] then None
    else if cs[0].operator.None? then Some("operator")
    else if cs[0].value.None? then Some("value")
    else
      var r := MissingRenderKey(cs[1..]);
      if r.Some? then
        var i :| 0 <= i < |cs[1..]| && !Renderable(cs[1..][i])
          && (forall j :: 0 <= j < i ==> Renderable(cs[1..][j]))
          && r.value == (if cs[1..][i].operator.None? then "operator" else "value");
        assert !Renderable(cs[i + 1]) && forall j :: 0 <= j < i + 1 ==> Renderable(cs[j]);
        r
      else r
  }

  predicate AllHaveColumn(cs: seq<ConditionInput>) {
    forall i :: 0 <= i < |cs| ==> cs[i].column.Some?
  }

  function Items(rows: seq<SelectRow>): (r: seq<Rebuilder.Item>)
    ensures |r| == |rows|
  {
    seq(|rows|, i requires 0 <= i < |rows| => Rebuilder.Item(rows[i].alias, rows[i].expression))
  }

  function JoinLines(rows: seq<JoinRow>): (r: seq<Rebuilder.JoinLine>)
    ensures |r| == |rows|
  {
    seq(|rows|, i requires 0 <= i < |rows| => Rebuilder.JoinLine(rows[i].joinType, rows[i].tableName, rows[i].onCondition))
  }

  function Conditions(cs: seq<ConditionInput>): (r: seq<Rebuilder.Condition>)
    requires MissingRenderKey(cs).None?
    ensures |r| == |cs|
  {
    seq(|cs|, i requires 0 <= i < |cs| && cs[i].operator.Some? && cs[i].value.Some? =>
      Rebuilder.Condition(cs[i].column, cs[i].columnName, cs[i].operator.value, cs[i].value.value))
  }

  /** The generated WHERE rows: one per condition, in order, of type
      `filter` unless the condition names one. */
  function GenWhereRows(cs: seq<ConditionInput>): (r: seq<WhereRow>)
    requires MissingRenderKey(cs).None? && AllHaveColumn(cs)
    ensures |r| == |cs|
    ensures forall i :: 0 <= i < |r| ==>
      && r[i].columnName == cs[i].column.value
      && r[i].operator == cs[i].operator.value
      && r[i].value == cs[i].value.value
      && r[i].conditionType == cs[i].kind.GetOr("filter")
  {
    seq(|cs|, i requires 0 <= i < |cs| && cs[i].column.Some? && cs[i].operator.Some? && cs[i].value.Some? =>
      WhereRow(cs[i].column.value, cs[i].operator.value, cs[i].value.value, cs[i].kind.GetOr("filter")))
  }

  /** The rebuilt SQL of a regeneration. */
  function RegeneratedSql(m: Master, parent: string, cs: seq<ConditionInput>, category: string): string
    requires parent in m.assets && MissingRenderKey(cs).None?
  {
    var a := m.assets[parent];
    Rebuilder.Rebuild(Items(ChosenSelects(m, parent, category)), a.fromTable,
      JoinLines(OwnedBy(m.joins, parent)), Conditions(cs), a.groupBy, a.orderBy)
  }

  /** The generated query of a regeneration. */
  function GenQueryOf(m: Master, parent: string, id: string, cs: seq<ConditionInput>,
                      userQuestion: string, category: string, now: string): (q: GenQuery)
    requires parent in m.assets && MissingRenderKey(cs).None?
    ensures q.queryId == id && q.parentId == parent
    ensures q.question == GenQuestion(userQuestion, m.assets[parent].question)
    ensures q.tags == m.assets[parent].tags
  {
    var a := m.assets[parent];
    GenQuery(id, parent, GenQuestion(userQuestion, a.question),
      "Modified from " + parent + " at " + category + " level",
      RegeneratedSql(m, parent, cs, category), now, a.tags)
  }

  /** The question of a generated query: the caller's, or else the
      parent's marked as a follow-up. */
  function GenQuestion(userQuestion: string, parentQuestion: string): string {
    if userQuestion != "" then userQuestion else "RE: " + parentQuestion
  }

  /** The master store with the parent's modification count one higher. */
  function Bump(m: Master, parent: string): (r: Master)
    requires parent in m.assets
    ensures r.assets.Keys == m.assets.Keys
    ensures r.assets[parent].modificationCount == m.assets[parent].modificationCount + 1
    ensures r.assets[parent] == m.assets[parent].(modificationCount := r.assets[parent].modificationCount)
    ensures forall k :: k in m.assets && k != parent ==> r.assets[k] == m.assets[k]
    ensures r.(assets := m.assets) == m
  {
    var a := m.assets[parent];
    m.(assets := m.assets[parent := a.(modificationCount := a.modificationCount + 1)])
  }

  /** One regeneration. `conds` is the decoded condition list, or `None`
      when the text is not valid JSON; `fault` names the store statement
      that fails, if one does. Every failure before the commits rolls both
      stores back; a failing master commit comes after the generated store
      has committed, and leaves it written. */
  function ModifyWhere(m: Master, g: GenStore, parent: string, conds: Option<seq<ConditionInput>>,
                       userQuestion: string, category: string, now: string,
                       fault: Option<RegenStep>): (r: RegenResult)
    ensures parent !in m.assets ==> r == RegenResult(m, g, Err(NotFound))
    ensures parent in m.assets && conds.None? ==> r == RegenResult(m, g, Err(Malformed))
    ensures r.outcome.Err? && r.outcome != Err(StoreFailure(MasterCommit)) ==> r.master == m && r.gen == g
    ensures r.outcome.Ok? ==>
      && parent in m.assets && conds.Some? && fault.None?
      && MissingRenderKey(conds.value).None? && AllHaveColumn(conds.value)
      && var a := m.assets[parent];
      var id := DerivedId(parent, a.modificationCount);
      && r.outcome.value == id
      && id !in g.queries
      && r.master == Bump(m, parent)
      && r.gen.queries == g.queries[id := GenQueryOf(m, parent, id, conds.value, userQuestion, category, now)]
      && r.gen.wheres == g.wheres + Tag(id, GenWhereRows(conds.value))
  {
    if parent !in m.assets then RegenResult(m, g, Err(NotFound))
    else if conds.None? then RegenResult(m, g, Err(Malformed))
    else
      var a := m.assets[parent];
      var id := DerivedId(parent, a.modificationCount);
      var cs := conds.value;
      match MissingRenderKey(cs)
      case Some(key) => RegenResult(m, g, Err(MissingKey(key)))
      case None =>
        if id in g.queries then RegenResult(m, g, Err(DuplicateId(id)))
        else if fault == Some(GenInsert) then RegenResult(m, g, Err(StoreFailure(GenInsert)))
        else if !AllHaveColumn(cs) then RegenResult(m, g, Err(MissingKey("column")))
        else Write(m, g, parent, GenQueryOf(m, parent, id, cs, userQuestion, category, now), cs, fault)
  }

  /** The writes of a regeneration whose conditions are complete and whose
      id is free: the generated query `q` and its WHERE rows, then the
      bumped count, then the two commits. */
  function Write(m: Master, g: GenStore, parent: string, q: GenQuery, cs: seq<ConditionInput>,
                 fault: Option<RegenStep>): (r: RegenResult)
    requires parent in m.assets && MissingRenderKey(cs).None? && AllHaveColumn(cs) && q.queryId !in g.queries
    requires fault != Some(GenInsert)
    ensures fault == Some(MasterUpdate) || fault == Some(GenCommit) ==>
      r == RegenResult(m, g, Err(StoreFailure(fault.value)))
    ensures fault == Some(MasterCommit) ==>
      r.master == m && r.outcome == Err(StoreFailure(MasterCommit))
    ensures fault.None? || fault == Some(MasterCommit) ==>
      && r.gen.queries == g.queries[q.queryId := q]
      && r.gen.wheres == g.wheres + Tag(q.queryId, GenWhereRows(cs))
    ensures fault.None? ==> r.outcome == Ok(q.queryId) && r.master == Bump(m, parent)
    ensures r.outcome.Ok? ==> fault.None?
  {
    var g' := GenStore(g.queries[q.queryId := q], g.wheres + Tag(q.queryId, GenWhereRows(cs)));
    match fault
    case Some(MasterCommit) => RegenResult(m, g', Err(StoreFailure(MasterCommit)))
    case Some(step) => RegenResult(m, g, Err(StoreFailure(step)))
    case None => RegenResult(Bump(m, parent), g', Ok(q.queryId))
  }

  /** What a regeneration needs in order to succeed when no store statement
      fails: the parent exists, every predicate has its column, operator
      and value, and the derived id is not yet taken. */
  predicate CanRegenerate(m: Master, g: GenStore, parent: string, cs: seq<ConditionInput>) {
    && parent in m.assets
    && MissingRenderKey(cs).None? && AllHaveColumn(cs)
    && DerivedId(parent, m.assets[parent].modificationCount) !in g.queries
  }

  /** A fault-free regeneration succeeds exactly when its inputs allow it. */
  lemma RegenerationSucceeds(m: Master, g: GenStore, parent: string, cs: seq<ConditionInput>,
                             userQuestion: string, category: string, now: string)
    ensures ModifyWhere(m, g, parent, Some(cs), userQuestion, category, now, None).outcome.Ok?
      <==> CanRegenerate(m, g, parent, cs)
  {
  }

  /** A successful regeneration leaves every select, join and WHERE row
      and the history of the master store as they were; only the parent's
      modification count moves, by exactly one. */
  lemma ParentRowsUntouched(m: Master, g: GenStore, parent: string, cs: seq<ConditionInput>,
                            userQuestion: string, category: string, now: string)
    requires CanRegenerate(m, g, parent, cs)
    ensures var r := ModifyWhere(m, g, parent, Some(cs), userQuestion, category, now, None).master;
      && r.selects == m.selects && r.joins == m.joins && r.wheres == m.wheres && r.history == m.history
      && r.assets.Keys == m.assets.Keys
      && r.assets[parent].modificationCount == m.assets[parent].modificationCount + 1
      && (forall k :: k in m.assets && k != parent ==> r.assets[k] == m.assets[k])
  {
    RegenerationSucceeds(m, g, parent, cs, userQuestion, category, now);
    var r := ModifyWhere(m, g, parent, Some(cs), userQuestion, category, now, None).master;
    assert r == Bump(m, parent);
  }

  /** Bumping a count keeps the master store well formed. */
  lemma BumpPreservesWellFormed(m: Master, parent: string)
    requires parent in m.assets && WellFormed(m)
    ensures WellFormed(Bump(m, parent))
  {
    var r := Bump(m, parent);
    assert r.assets.Keys == m.assets.Keys;
    forall k | k in r.assets
      ensures r.assets[k].queryId == k && r.assets[k].rowId == m.assets[k].rowId
    {
    }
  }

  /** The generated query is the SQL rebuilt from the parent's chosen
      select rows, the parent's join rows and FROM, GROUP BY and ORDER BY,
      and the new predicates. Its text up to the join lines is the
      parent's, whatever the predicates. */
  lemma RegeneratedQuery(m: Master, g: GenStore, parent: string, cs: seq<ConditionInput>,
                         userQuestion: string, category: string, now: string)
    requires CanRegenerate(m, g, parent, cs)
    ensures var r := ModifyWhere(m, g, parent, Some(cs), userQuestion, category, now, None);
      var a := m.assets[parent];
      var q := r.gen.queries[r.outcome.value];
      var items := Items(ChosenSelects(m, parent, category));
      var joins := JoinLines(OwnedBy(m.joins, parent));
      && q.normalizedSql == Rebuilder.Rebuild(items, a.fromTable, joins, Conditions(cs), a.groupBy, a.orderBy)
      && IsPrefix(Rebuilder.Head(items, a.fromTable, joins), q.normalizedSql)
  {
    RegenerationSucceeds(m, g, parent, cs, userQuestion, category, now);
    var a := m.assets[parent];
    var items := Items(ChosenSelects(m, parent, category));
    var joins := JoinLines(OwnedBy(m.joins, parent));
    Rebuilder.RebuildOpening(items, a.fromTable, joins, Conditions(cs), a.groupBy, a.orderBy);
  }

  /** A derived id always holds an underscore, so it is never an id the
      analyzer derives from a file name. */
  lemma DerivedIdNotAnalyzerId(stem: string, parent: string, count: int)
    ensures FileNaming.QueryId(stem) != DerivedId(parent, count)
  {
    var d := DerivedId(parent, count);
    assert d[|parent|] == '_';
  }

  /** The window between the two commits: when the master commit fails,
      the generated query is kept but the count is not bumped, so the next
      regeneration of the same parent derives the same id and is refused. */
  lemma FailedMasterCommitBlocksRetry(m: Master, g: GenStore, parent: string, cs: seq<ConditionInput>,
                                      userQuestion: string, category: string, now: string,
                                      cs2: seq<ConditionInput>, userQuestion2: string, category2: string, now2: string)
    requires CanRegenerate(m, g, parent, cs)
    requires MissingRenderKey(cs2).None?
    ensures var r := ModifyWhere(m, g, parent, Some(cs), userQuestion, category, now, Some(MasterCommit));
      && r.master == m
      && r.outcome == Err(StoreFailure(MasterCommit))
      && DerivedId(parent, m.assets[parent].modificationCount) in r.gen.queries
      && ModifyWhere(r.master, r.gen, parent, Some(cs2), userQuestion2, category2, now2, None).outcome
           == Err(DuplicateId(DerivedId(parent, m.assets[parent].modificationCount)))
  {
  }

  /** Re-importing the parent's template resets its modification count to
      the template's own, so after a successful regeneration from that
      count, the next one derives the id just used and is refused. */
  lemma ReimportBlocksRegeneration(m: Master, g: GenStore, parent: string, cs: seq<ConditionInput>,
                                   userQuestion: string, category: string, now: string,
                                   t: Template, importedAt: string,
                                   cs2: seq<ConditionInput>, userQuestion2: string, category2: string, now2: string)
    requires CanRegenerate(m, g, parent, cs)
    requires t.queryId == parent && t.modificationCount.GetOr(0) == m.assets[parent].modificationCount
    requires MissingRenderKey(cs2).None?
    ensures var r := ModifyWhere(m, g, parent, Some(cs), userQuestion, category, now, None);
      var m2 := Put(r.master, t, importedAt, None).store;
      ModifyWhere(m2, r.gen, parent, Some(cs2), userQuestion2, category2, now2, None).outcome
        == Err(DuplicateId(r.outcome.value))
  {
    RegenerationSucceeds(m, g, parent, cs, userQuestion, category, now);
    var r := ModifyWhere(m, g, parent, Some(cs), userQuestion, category, now, None);
    var m2 := Put(r.master, t, importedAt, None).store;
    assert m2.assets[parent].modificationCount == m.assets[parent].modificationCount;
  }
}
