/** The master store and its Move-then-Insert import. The store holds one
    active asset per query id, an append-only history of replaced assets,
    and three dependent row tables (select entries, joins, WHERE
    predicates) linked to their asset by query id. Importing a template
    archives the active asset of that id, if any, into the history, drops
    its dependent rows, and inserts the new asset and rows, all inside one
    transaction. */
module TemplateStore {
  import opened Common
  import opened Text
  import opened Templates

  /** An active asset: the template's metadata as stored, with the row id
      the table assigned it. */
  datatype Asset = Asset(
    rowId: nat,
    queryId: string,
    question: string,
    description: Option<string>,
    unitType: string,
    unitDescription: string,
    entities: seq<string>,
    presentationType: string,
    presentationConfig: string,
    fromTable: string,
    groupBy: seq<string>,
    orderBy: seq<string>,
    originalSql: string,
    normalizedSql: string,
    createdAt: string,
    modifiedAt: Option<string>,
    modificationCount: int,
    tags: seq<string>,
    complexity: string,
    estimatedRows: Option<string>)

  /** A replaced asset, as archived. */
  datatype HistoryRecord = HistoryRecord(
    assetId: nat, queryId: string, question: string, originalSql: string, archivedAt: string, reason: string)

  datatype SelectRow = SelectRow(
    alias: string, expression: string, table: string, column: string, aggregation: Option<string>, category: string)

  datatype JoinRow = JoinRow(joinType: string, tableName: string, onCondition: string, relationship: string)

  datatype WhereRow = WhereRow(columnName: string, operator: string, value: string, conditionType: string)

  /** A dependent row together with the query id it belongs to. */
  datatype Keyed<T> = Keyed(queryId: string, row: T)

  /** The master store. Dependent rows are kept in insertion order, which
      is also their row-id order. */
  datatype Master = Master(
    assets: map<string, Asset>,
    nextRowId: nat,
    history: seq<HistoryRecord>,
    selects: seq<Keyed<SelectRow>>,
    joins: seq<Keyed<JoinRow>>,
    wheres: seq<Keyed<WhereRow>>)

  /** The rows of `rows` that belong to `id`, in order. */
  function OwnedBy<T>(rows: seq<Keyed<T>>, id: string): (r: seq<T>)
    ensures |r| <= |rows|
  {
    if rows == [] then []
    else (if rows[0].queryId == id then [rows[0].row] else []) + OwnedBy(rows[1..], id)
  }

  /** The rows of `rows` that do not belong to `id`, in order. */
  function Without<T>(rows: seq<Keyed<T>>, id: string): (r: seq<Keyed<T>>)
    ensures |r| <= |rows|
    ensures forall i :: 0 <= i < |r| ==> r[i].queryId != id && r[i] in rows
  {
    if rows == [] then []
    else (if rows[0].queryId != id then [rows[0]] else []) + Without(rows[1..], id)
  }

  /** `xs`, each row tagged with `id`. */
  function Tag<T>(id: string, xs: seq<T>): (r: seq<Keyed<T>>)
    ensures |r| == |xs|
    ensures forall i :: 0 <= i < |r| ==> r[i] == Keyed(id, xs[i])
  {
    seq(|xs|, i requires 0 <= i < |xs| => Keyed(id, xs[i]))
  }

  lemma {:induction false} OwnedByConcat<T>(a: seq<Keyed<T>>, b: seq<Keyed<T>>, id: string)
    ensures OwnedBy(a + b, id) == OwnedBy(a, id) + OwnedBy(b, id)
  {
    if a == [] {
      assert a + b == b;
    } else {
      var head := if a[0].queryId == id then [a[0].row] else [];
      assert (a + b)[0] == a[0];
      assert (a + b)[1..] == a[1..] + b;
      assert OwnedBy(a + b, id) == head + OwnedBy(a[1..] + b, id);
      assert OwnedBy(a, id) == head + OwnedBy(a[1..], id);
      OwnedByConcat(a[1..], b, id);
      ConcatAssoc(head, OwnedBy(a[1..], id), OwnedBy(b, id));
    }
  }

  /** Removing the rows of `id` removes exactly those. */
  lemma {:induction false} OwnedByWithout<T>(rows: seq<Keyed<T>>, id: string, k: string)
    ensures OwnedBy(Without(rows, id), k) == if k == id then [] else OwnedBy(rows, k)
  {
    if rows != [] {
      OwnedByWithout(rows[1..], id, k);
      var head := if rows[0].queryId != id then [rows[0]] else [];
      OwnedByConcat(head, Without(rows[1..], id), k);
      if rows[0].queryId != id {
        assert head[1..] == [];
      }
    }
  }

  lemma {:induction false} OwnedByTag<T>(id: string, xs: seq<T>, k: string)
    ensures OwnedBy(Tag(id, xs), k) == if k == id then xs else []
  {
    if xs != [] {
      var t := Tag(id, xs);
      assert t[1..] == Tag(id, xs[1..]);
      OwnedByTag(id, xs[1..], k);
      if k == id {
        assert xs == [xs[0]] + xs[1..];
      }
    }
  }

  /** After removing the rows of `id` and appending new rows for it, the
      rows of `id` are the new ones and those of any other id are as
      before. */
  lemma Replace<T>(rows: seq<Keyed<T>>, id: string, xs: seq<T>, k: string)
    ensures OwnedBy(Without(rows, id) + Tag(id, xs), k) == if k == id then xs else OwnedBy(rows, k)
  {
    OwnedByConcat(Without(rows, id), Tag(id, xs), k);
    OwnedByWithout(rows, id, k);
    OwnedByTag(id, xs, k);
  }

  /** Every dependent row belongs to an active asset. */
  predicate NoOrphans<T>(rows: seq<Keyed<T>>, assets: map<string, Asset>) {
    forall i :: 0 <= i < |rows| ==> rows[i].queryId in assets
  }

  /** The store's invariant: every asset sits under its own query id, with
      a row id below the next one and unlike every other asset's, and no
      dependent row is orphaned. */
  predicate WellFormed(m: Master) {
    && (forall k :: k in m.assets ==> m.assets[k].queryId == k && m.assets[k].rowId < m.nextRowId)
    && (forall k, l :: k in m.assets && l in m.assets && k != l ==> m.assets[k].rowId != m.assets[l].rowId)
    && NoOrphans(m.selects, m.assets)
    && NoOrphans(m.joins, m.assets)
    && NoOrphans(m.wheres, m.assets)
  }

  /** The empty store. */
  function Empty(): (m: Master)
    ensures WellFormed(m)
  {
    Master(map[], 1, [], [], [], [])
  }

  /** The history record of a replaced asset. */
  function ArchiveRecord(a: Asset, now: string): HistoryRecord {
    HistoryRecord(a.rowId, a.queryId, a.question, a.originalSql, now, "UPDATE")
  }

  /** Archiving: if an asset is active for `id`, it is recorded in the
      history with reason `UPDATE`, removed, and its dependent rows are
      dropped; otherwise nothing changes. */
  function Archive(m: Master, id: string, now: string): (r: Master)
    ensures id !in r.assets
    ensures forall k :: k in m.assets && k != id ==> k in r.assets && r.assets[k] == m.assets[k]
    ensures forall k :: k in r.assets ==> k in m.assets
    ensures IsPrefix(m.history, r.history)
  {
    if id in m.assets then
      Master(
        m.assets - {id},
        m.nextRowId,
        m.history + [ArchiveRecord(m.assets[id], now)],
        Without(m.selects, id),
        Without(m.joins, id),
        Without(m.wheres, id))
    else m
  }

  /** The asset row of a template. A template without a modification count
      starts at zero. */
  function AssetOf(t: Template, rowId: nat): Asset {
    Asset(rowId, t.queryId, t.question, t.description, t.unitType, t.unitDescription, t.entities,
      t.presentationType, t.presentationConfig, t.structure.fromTable, t.structure.groupBy,
      t.structure.orderBy, t.originalSql, t.normalizedSql, t.createdAt, t.modifiedAt,
      t.modificationCount.GetOr(0), t.tags, t.complexity, t.estimatedRows)
  }

  function SelectRowOf(c: SelectColumn, category: string): SelectRow {
    SelectRow(c.alias, c.expression, c.table, c.column, c.aggregation, category)
  }

  /** The select rows of a list of columns, all tagged with one category. */
  function InCategory(cs: seq<SelectColumn>, category: string): (r: seq<SelectRow>)
    ensures |r| == |cs|
    ensures forall i :: 0 <= i < |r| ==> r[i] == SelectRowOf(cs[i], category)
  {
    seq(|cs|, i requires 0 <= i < |cs| => SelectRowOf(cs[i], category))
  }

  /** The number of columns over all presets. */
  function PresetColumnCount(presets: seq<Preset>): nat {
    if presets == [] then 0 else |presets[0].columns| + PresetColumnCount(presets[1..])
  }

  /** The categories the presets name. */
  function Categories(presets: seq<Preset>): set<string> {
    set p | p in presets :: p.category
  }

  /** The select rows of the presets, preset by preset. */
  function PresetRows(presets: seq<Preset>): (r: seq<SelectRow>)
    ensures |r| == PresetColumnCount(presets)
    ensures forall i :: 0 <= i < |r| ==> r[i].category in Categories(presets)
  {
    if presets == [] then []
    else
      var head := InCategory(presets[0].columns, presets[0].category);
      var rest := PresetRows(presets[1..]);
      assert Categories(presets[1..]) <= Categories(presets) by {
        forall c | c in Categories(presets[1..]) ensures c in Categories(presets) {
          var p :| p in presets[1..] && p.category == c;
          assert p in presets;
        }
      }
      assert presets[0] in presets;
      head + rest
  }

  /** The offset at which the rows of preset `p` start. */
  function PresetOffset(presets: seq<Preset>, p: nat): nat
    requires p <= |presets|
  {
    PresetColumnCount(presets[..p])
  }

  /** Preset by preset: the rows from the offset of preset `p` on are that
      preset's columns, in order, each tagged with that preset's own
      category. */
  lemma {:induction false} PresetBlock(presets: seq<Preset>, p: nat)
    requires p < |presets|
    ensures PresetOffset(presets, p) + |presets[p].columns| <= |PresetRows(presets)|
    ensures PresetRows(presets)[PresetOffset(presets, p)..PresetOffset(presets, p) + |presets[p].columns|]
            == InCategory(presets[p].columns, presets[p].category)
  {
    var head := InCategory(presets[0].columns, presets[0].category);
    var tail := presets[1..];
    var rest := PresetRows(tail);
    assert PresetRows(presets) == head + rest;
    if p == 0 {
      assert presets[..p] == [];
      SliceOfConcat(head, rest, 0, 0, |head|);
    } else {
      PresetBlock(tail, p - 1);
      var off := PresetOffset(tail, p - 1);
      var n := |presets[p].columns|;
      assert tail[p - 1] == presets[p];
      TakeOfTail(presets, p);
      assert PresetOffset(presets, p) == |head| + off;
      SliceOfConcat(head, rest, off, off + n, |head| + off);
    }
  }

  /** A slice of `h + t` that starts inside `t`, read off `t`; and `h`
      itself is the start. */
  lemma SliceOfConcat<T>(h: seq<T>, t: seq<T>, a: nat, b: nat, at: nat)
    requires a <= b <= |t| && at == |h| + a
    ensures (h + t)[at..at + (b - a)] == t[a..b]
    ensures (h + t)[..|h|] == h
  {
  }

  /** The first `p` elements of `s`, split into the first and the rest. */
  lemma TakeOfTail<T>(s: seq<T>, p: nat)
    requires 1 <= p <= |s|
    ensures s[..p][0] == s[0] && s[..p][1..] == s[1..][..p - 1]
  {
  }

  /** `rows` holds, from the offset of each preset on, that preset's
      columns tagged with its own category. */
  predicate LaysOutPresets(rows: seq<SelectRow>, presets: seq<Preset>) {
    forall p :: 0 <= p < |presets| ==>
      PresetOffset(presets, p) + |presets[p].columns| <= |rows|
      && rows[PresetOffset(presets, p)..PresetOffset(presets, p) + |presets[p].columns|]
         == InCategory(presets[p].columns, presets[p].category)
  }

  lemma PresetRowsLayout(presets: seq<Preset>)
    ensures LaysOutPresets(PresetRows(presets), presets)
  {
    forall p | 0 <= p < |presets|
      ensures PresetOffset(presets, p) + |presets[p].columns| <= |PresetRows(presets)|
              && PresetRows(presets)[PresetOffset(presets, p)..PresetOffset(presets, p) + |presets[p].columns|]
                 == InCategory(presets[p].columns, presets[p].category)
    {
      PresetBlock(presets, p);
    }
  }

  /** The select rows of a template. When the template has presets (even
      none), there is one row per preset column, tagged with a preset's
      category. Otherwise there is one row per select entry, in order,
      tagged `all`. */
  function SelectRowsOf(t: Template): (r: seq<SelectRow>)
    ensures t.presets.Some? ==>
      |r| == PresetColumnCount(t.presets.value)
      && forall i :: 0 <= i < |r| ==> r[i].category in Categories(t.presets.value)
    ensures t.presets.Some? ==> LaysOutPresets(r, t.presets.value)
    ensures t.presets == Some([]) ==> r == []
    ensures t.presets.None? ==>
      |r| == |t.structure.selectColumns|
      && forall i :: 0 <= i < |r| ==> r[i] == SelectRowOf(t.structure.selectColumns[i], "all")
  {
    match t.presets
    case Some(presets) => PresetRowsLayout(presets); PresetRows(presets)
    case None => InCategory(t.structure.selectColumns, "all")
  }

  function JoinRowsOf(t: Template): (r: seq<JoinRow>)
    ensures |r| == |t.structure.joins|
    ensures forall i :: 0 <= i < |r| ==>
      var j := t.structure.joins[i];
      r[i] == JoinRow(j.joinType, j.table, j.onCondition, j.relationship)
  {
    var js := t.structure.joins;
    seq(|js|, i requires 0 <= i < |js| => JoinRow(js[i].joinType, js[i].table, js[i].onCondition, js[i].relationship))
  }

  function WhereRowsOf(t: Template): (r: seq<WhereRow>)
    ensures |r| == |t.structure.whereConditions|
    ensures forall i :: 0 <= i < |r| ==>
      var p := t.structure.whereConditions[i];
      r[i] == WhereRow(p.column, p.operator, p.value, p.kind)
  {
    var ps := t.structure.whereConditions;
    seq(|ps|, i requires 0 <= i < |ps| => WhereRow(ps[i].column, ps[i].operator, ps[i].value, ps[i].kind))
  }

  /** The select rows of one category, in order. */
  function OfCategory(rows: seq<SelectRow>, category: string): (r: seq<SelectRow>)
    ensures |r| <= |rows|
    ensures forall i :: 0 <= i < |r| ==> r[i].category == category && r[i] in rows
  {
    if rows == [] then []
    else (if rows[0].category == category then [rows[0]] else []) + OfCategory(rows[1..], category)
  }

  /** The statements of the import transaction; any of them can fail. */
  datatype PutStep = ArchiveStep | InsertAsset | InsertSelects | InsertJoins | InsertWheres | CommitStep

  /** The store after an import, and whether the import committed. */
  datatype PutResult = PutResult(store: Master, committed: bool)

  /** The transaction's work up to the commit, on the store as seen inside
      the transaction. */
  function Staged(m: Master, t: Template, now: string): Master {
    var a := Archive(m, t.queryId, now);
    Master(
      a.assets[t.queryId := AssetOf(t, a.nextRowId)],
      a.nextRowId + 1,
      a.history,
      a.selects + Tag(t.queryId, SelectRowsOf(t)),
      a.joins + Tag(t.queryId, JoinRowsOf(t)),
      a.wheres + Tag(t.queryId, WhereRowsOf(t)))
  }

  /** Importing one template. `fault` names the statement that fails, if
      one does; a failure rolls the whole transaction back. */
  function Put(m: Master, t: Template, now: string, fault: Option<PutStep>): (r: PutResult)
    ensures r.committed <==> fault.None?
    ensures !r.committed ==> r.store == m
    ensures r.committed ==>
      var id := t.queryId;
      && r.store.assets.Keys == m.assets.Keys + {id}
      && r.store.assets[id] == AssetOf(t, m.nextRowId)
      && (forall k :: k in m.assets && k != id ==> r.store.assets[k] == m.assets[k])
      && (id in m.assets ==>
            && r.store.history == m.history + [ArchiveRecord(m.assets[id], now)]
            && r.store.selects == Without(m.selects, id) + Tag(id, SelectRowsOf(t))
            && r.store.joins == Without(m.joins, id) + Tag(id, JoinRowsOf(t))
            && r.store.wheres == Without(m.wheres, id) + Tag(id, WhereRowsOf(t)))
      && (id !in m.assets ==>
            && r.store.history == m.history
            && r.store.selects == m.selects + Tag(id, SelectRowsOf(t))
            && r.store.joins == m.joins + Tag(id, JoinRowsOf(t))
            && r.store.wheres == m.wheres + Tag(id, WhereRowsOf(t)))
  {
    if fault.Some? then PutResult(m, false) else PutResult(Staged(m, t, now), true)
  }

  /** An import keeps the store well formed. */
  lemma PutPreservesWellFormed(m: Master, t: Template, now: string, fault: Option<PutStep>)
    requires WellFormed(m)
    ensures WellFormed(Put(m, t, now, fault).store)
  {
    if fault.None? {
      var id := t.queryId;
      var r := Put(m, t, now, fault).store;
      PutAssetsWellFormed(m, t, now);
      if id !in m.assets {
        WithoutUnowned(m.selects, m.assets, id);
        WithoutUnowned(m.joins, m.assets, id);
        WithoutUnowned(m.wheres, m.assets, id);
      }
      WithoutThenTagNoOrphans(m.selects, m.assets, id, SelectRowsOf(t), r.assets);
      WithoutThenTagNoOrphans(m.joins, m.assets, id, JoinRowsOf(t), r.assets);
      WithoutThenTagNoOrphans(m.wheres, m.assets, id, WhereRowsOf(t), r.assets);
    }
  }

  /** After an import every asset sits under its own id with a fresh,
      distinct row id. */
  lemma PutAssetsWellFormed(m: Master, t: Template, now: string)
    requires WellFormed(m)
    ensures var r := Put(m, t, now, None).store;
      && (forall k :: k in r.assets ==> r.assets[k].queryId == k && r.assets[k].rowId < r.nextRowId)
      && (forall k, l :: k in r.assets && l in r.assets && k != l ==> r.assets[k].rowId != r.assets[l].rowId)
  {
    var id := t.queryId;
    var r := Put(m, t, now, None).store;
    assert r.nextRowId == m.nextRowId + 1;
    assert r.assets[id].rowId == m.nextRowId && r.assets[id].queryId == id;
    forall k | k in r.assets
      ensures r.assets[k].queryId == k && r.assets[k].rowId < r.nextRowId
    {
      if k != id {
        assert r.assets[k] == m.assets[k];
      }
    }
    forall k, l | k in r.assets && l in r.assets && k != l
      ensures r.assets[k].rowId != r.assets[l].rowId
    {
      if k != id && l != id {
        assert r.assets[k] == m.assets[k] && r.assets[l] == m.assets[l];
      }
    }
  }

  lemma WithoutThenTagNoOrphans<T>(rows: seq<Keyed<T>>, assets: map<string, Asset>, id: string, xs: seq<T>,
                                   assets': map<string, Asset>)
    requires NoOrphans(rows, assets)
    requires assets'.Keys == assets.Keys + {id}
    ensures NoOrphans(Without(rows, id) + Tag(id, xs), assets')
  {
    var w := Without(rows, id);
    forall i | 0 <= i < |w|
      ensures w[i].queryId in assets'
    {
      var j :| 0 <= j < |rows| && rows[j] == w[i];
    }
  }

  /** After an import, the dependent rows of the imported id are exactly
      the template's, in order, and those of every other id are as they
      were. */
  lemma PutRows(m: Master, t: Template, now: string, k: string)
    requires WellFormed(m)
    ensures var r := Put(m, t, now, None).store;
      && OwnedBy(r.selects, k) == (if k == t.queryId then SelectRowsOf(t) else OwnedBy(m.selects, k))
      && OwnedBy(r.joins, k) == (if k == t.queryId then JoinRowsOf(t) else OwnedBy(m.joins, k))
      && OwnedBy(r.wheres, k) == (if k == t.queryId then WhereRowsOf(t) else OwnedBy(m.wheres, k))
  {
    var id := t.queryId;
    if id !in m.assets {
      WithoutUnowned(m.selects, m.assets, id);
      WithoutUnowned(m.joins, m.assets, id);
      WithoutUnowned(m.wheres, m.assets, id);
    }
    Replace(m.selects, id, SelectRowsOf(t), k);
    Replace(m.joins, id, JoinRowsOf(t), k);
    Replace(m.wheres, id, WhereRowsOf(t), k);
  }

  /** Without orphans, an inactive id owns no rows, so there is nothing to
      remove for it. */
  lemma {:induction false} WithoutUnowned<T>(rows: seq<Keyed<T>>, assets: map<string, Asset>, id: string)
    requires NoOrphans(rows, assets) && id !in assets
    ensures Without(rows, id) == rows
  {
    if rows != [] {
      var tail := rows[1..];
      assert NoOrphans(tail, assets) by {
        forall i | 0 <= i < |tail| ensures tail[i].queryId in assets {
          assert tail[i] == rows[i + 1];
        }
      }
      WithoutUnowned(tail, assets, id);
      assert rows[0].queryId != id;
      assert Without(rows, id) == [rows[0]] + tail;
      assert rows == [rows[0]] + tail;
    }
  }

  /** The history only grows: every import keeps the records it found. */
  lemma HistoryAppendOnly(m: Master, t: Template, now: string, fault: Option<PutStep>)
    ensures IsPrefix(m.history, Put(m, t, now, fault).store.history)
    ensures |Put(m, t, now, fault).store.history| <= |m.history| + 1
  {
  }

  /** Importing several templates one after the other, none failing. */
  function PutAll(m: Master, ts: seq<Template>, now: string): Master
    decreases |ts|
  {
    if ts == [] then m else PutAll(Put(m, ts[0], now, None).store, ts[1..], now)
  }

  /** One successful import of `t`: the asset of its id carries its
      question, and the history gains a record exactly when that id was
      active. */
  lemma PutHistory(m: Master, t: Template, now: string)
    ensures var r := Put(m, t, now, None).store;
      && t.queryId in r.assets && r.assets[t.queryId].question == t.question
      && IsPrefix(m.history, r.history)
      && |r.history| == |m.history| + (if t.queryId in m.assets then 1 else 0)
  {
  }

  /** Importing `n` templates of one id that is not yet active leaves one
      active asset for it, the last template's, and `n - 1` history records
      for it on top of the history there was. */
  lemma {:induction false} RepeatedPut(m: Master, ts: seq<Template>, id: string, now: string)
    requires ts != []
    requires forall i :: 0 <= i < |ts| ==> ts[i].queryId == id
    requires id !in m.assets
    ensures var r := PutAll(m, ts, now);
      id in r.assets && r.assets[id].question == ts[|ts| - 1].question
      && |r.history| == |m.history| + |ts| - 1
      && IsPrefix(m.history, r.history)
    decreases |ts|
  {
    var m1 := Put(m, ts[0], now, None).store;
    PutHistory(m, ts[0], now);
    assert m1.history == m.history;
    if |ts| > 1 {
      RepeatedPutActive(m1, ts[1..], id, now);
      assert ts[1..][|ts[1..]| - 1] == ts[|ts| - 1];
    }
  }

  /** Importing `n` templates of an id that is already active adds `n`
      history records. */
  lemma {:induction false} RepeatedPutActive(m: Master, ts: seq<Template>, id: string, now: string)
    requires ts != []
    requires forall i :: 0 <= i < |ts| ==> ts[i].queryId == id
    requires id in m.assets
    ensures var r := PutAll(m, ts, now);
      id in r.assets && r.assets[id].question == ts[|ts| - 1].question
      && |r.history| == |m.history| + |ts|
      && IsPrefix(m.history, r.history)
    decreases |ts|
  {
    var m1 := Put(m, ts[0], now, None).store;
    PutHistory(m, ts[0], now);
    if |ts| > 1 {
      RepeatedPutActive(m1, ts[1..], id, now);
      assert ts[1..][|ts[1..]| - 1] == ts[|ts| - 1];
      PrefixTrans(m.history, m1.history, PutAll(m1, ts[1..], now).history);
    }
  }
}
