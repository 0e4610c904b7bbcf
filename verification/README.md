# Query-Bong core, modelled in Dafny

Query-Bong turns SQL SELECT statements into re-usable templates. It then
regenerates variants of a template by substituting only the WHERE
predicates. This project models the four pieces of logic that carry that
idea and proves what they promise.

- **Rebuild engine** (`SQLRebuilder.rebuild`): select items, a FROM table,
  joins, WHERE predicates and optional GROUP BY / ORDER BY lists become SQL
  text. The clause order is fixed and an entry is never aliased twice.
  Modules `Rebuilder` and `RebuilderExample`.
- **Structural analyzer** (`SQLQueryAnalyzer._analyze_ast`, steps 2 to 8,
  and the naming in `analyze_file`). The parser's output is an abstract
  statement (module `SqlAst`) with opaque text at its leaves. The model
  covers:
  - the FROM default `Unknown`;
  - select entries;
  - join records with the `INNER` default;
  - WHERE flattening (module `WhereFlattening`);
  - GROUP BY and ORDER BY;
  - the unit tier (module `JoinTier`);
  - the query id and question read off the file name (module `FileNaming`).

  Module `Analyzer` puts these together.
- **Template store** (`_archive_existing_query` plus `migrate_json_file`):
  one atomic Move-then-Insert `Put` on a master store. The store holds one
  active asset per id, an append-only history, and three row tables keyed
  by query id. Module `TemplateStore`; the template record is in `Templates`.
- **Regeneration** (`modify_where_conditions`) and the details lookup's
  choice of rows (`get_query_details`). The master store and the generated
  store are separate state components. Their two commits are separate
  steps, so the window between them is visible. Modules `Regeneration` and
  `Details`.

`Common` holds `Option` and `Result`. `Text` holds the Python string
operations the code relies on: `join`, ASCII `upper`, `in`, `strip`,
`replace`, `find`, `rfind`, `str(int)`, and first-occurrence de-duplication.

Clocks, file contents, parser results and store failures are parameters:
- `now` is a timestamp;
- `content` is the file text;
- `ParseOutcome` is the parser's verdict;
- `fault` names the store statement that fails.

Behaviours of the code that are easy to miss, all modelled as the code
has them:
- WHERE predicates come out in the parser's breadth-first search order,
  which is not their textual order: `a AND b AND c` flattens to `c, a, b`
  (`WhereFlattening.LeftDeepConjunction`).
- The rebuild engine joins WHERE predicates with a newline, two spaces and
  `AND ` (mcp_server/llm_query_rebuilder.py:61).
- A join record stores its kind under `type`, and that text is what the
  tier reads.
- Every join counts towards the tier unless its upper-cased type text
  mentions `LEFT`, `RIGHT` or `OUTER`. So `FULL` and `CROSS` joins count,
  and so does a join with an empty type text, although the comments at
  engine/sql_analyzer.py:224 and :228 speak only of INNER joins
  (`JoinTier.FullCounts`, `JoinTier.CrossCounts`, `JoinTier.EmptyTypeCounts`).
- The aggregate recorded for an aliased entry is the aggregate call's whole
  text, such as `COUNT(t.id)`.
- `put` removes dependent rows only for an id that has an active asset.
  Rows left without an asset by other means survive an import of their id.
  So "no orphaned dependents" holds only from a well-formed store on
  (`TemplateStore.PutPreservesWellFormed`).
- N imports of one id leave N−1 history records when the id was not
  active before, and N when it was (`TemplateStore.RepeatedPut`,
  `TemplateStore.RepeatedPutActive`).
- The FROM table is `Unknown` when there is no FROM, when FROM holds no
  table, and also when the first table's own text is `Unknown`.

## Model

| member | source | states |
|---|---|---|
| Rebuilder.RenderItem | mcp_server/llm_query_rebuilder.py:25-36 | An entry is emitted unchanged exactly when its alias is empty, equals the expression, or the upper-cased expression contains ` AS `. Otherwise it is the expression, ` AS `, and the alias with quotes stripped and put in single quotes. The expression is always a prefix. |
| Rebuilder.NoDoubleAlias | mcp_server/llm_query_rebuilder.py:32-36 | An aliased entry fed back in as an expression, under any alias, comes out unchanged. |
| Rebuilder.Rebuild | mcp_server/llm_query_rebuilder.py:74-84 | The output equals an independent layout: the head (SELECT, FROM, join lines), then the WHERE line if any, then the GROUP BY and ORDER BY lines if any, with nothing appended. |
| Rebuilder.RebuildIsLayout | mcp_server/llm_query_rebuilder.py:74-84 | Newline-joining the kept clause strings gives that layout. |
| Rebuilder.JoinClauseLines | mcp_server/llm_query_rebuilder.py:47-51 | The join clause is empty exactly when there are no joins; otherwise it gives one line per join, in input order. |
| Rebuilder.RebuildOpening | mcp_server/llm_query_rebuilder.py:38-44 | The text starts with `SELECT` then newline and four spaces, then the select list (entries separated by comma, newline, four spaces), then a newline and `FROM <table>`. |
| Rebuilder.WherePresence | mcp_server/llm_query_rebuilder.py:54-61 | A WHERE line is present exactly when there are predicates. It holds them in input order, joined by newline, two spaces and `AND `. |
| Rebuilder.ColumnOf | mcp_server/llm_query_rebuilder.py:56 | A predicate names its `column` unless that key is missing or empty; then its `column_name`; and the text `None` when that is missing too. |
| Rebuilder.WhereSubstitution | mcp_server/llm_query_rebuilder.py:23-78 | Two rebuilds that differ only in their predicates share the head and the tail; they differ only in the WHERE line. |
| Rebuilder.TailShape | mcp_server/llm_query_rebuilder.py:63-82 | The GROUP BY and ORDER BY lines appear exactly when their lists are non-empty. |
| RebuilderExample.WorkedExample | mcp_server/llm_query_rebuilder.py:23-84 | Item `cnt` / `COUNT(t.id)`, table `T t`, no joins and predicate `t.d = '2025-01-01'` give exactly three lines: `SELECT` with `COUNT(t.id) AS 'cnt'`, `FROM T t`, `WHERE t.d = '2025-01-01'`. |
| FileNaming.Stem | engine/sql_analyzer.py:69 | The stem is a prefix of the file name. When it is shorter, a dot follows it with no dot or `/` after that dot, and the last path part before the dot is not all dots. |
| FileNaming.StemOfNamed | engine/sql_analyzer.py:69 | Splitting off an extension undoes adding it: the stem of `base.ext` is `base`. |
| FileNaming.StemWithoutDot | engine/sql_analyzer.py:69 | A file name without a dot has no extension: it is its own stem. |
| FileNaming.QueryId | engine/sql_analyzer.py:71 | The id is a prefix of the stem with no underscore; when shorter, an underscore follows it in the stem. |
| FileNaming.QueryIdOfNamed | engine/sql_analyzer.py:71 | The id of `id_rest` is `id` for any underscore-free `id`. |
| FileNaming.Question | engine/sql_analyzer.py:72 | The question has the stem's length and no underscore; each underscore is read as a space and every other character is kept. |
| FileNaming.QuestionStartsWithId | engine/sql_analyzer.py:69-72 | The question starts with the query id. |
| Analyzer.FromTable | engine/sql_analyzer.py:111-118 | The result is the first table under FROM when there is one. It is `Unknown` exactly when there is no FROM, FROM holds no table, or that first table is `Unknown` itself. |
| Analyzer.SelectColumns | engine/sql_analyzer.py:120-146 | The k-th entry is the entry of the k-th projection that is an aliased expression or a bare column. Projections of any other shape are skipped, and there are no other entries. |
| Analyzer.SelectEntry | engine/sql_analyzer.py:122-144 | Only aliased expressions and bare columns give an entry. An aliased one has its alias, the inner expression as both expression and column, the FROM table, and its aggregate call. A bare column has its name as both alias and column, its own text and table qualifier, and no aggregate. |
| Analyzer.SelectOrder | engine/sql_analyzer.py:121-146 | Extraction keeps the projection order; dropping a projection of any other shape changes nothing. |
| Analyzer.JoinRecords | engine/sql_analyzer.py:148-164 | One record per JOIN node, in order. |
| Analyzer.JoinRecordOf | engine/sql_analyzer.py:148-164 | A record has the join's kind, or `INNER` when it has none; its target table; its ON text, or the empty text; and that same text as relationship. |
| Analyzer.JoinDefaults | engine/sql_analyzer.py:151-163 | A join without a kind is typed `INNER`, which counts toward the tier. A join without ON gets the empty condition. The relationship always equals the ON text. |
| Analyzer.Analyze | engine/sql_analyzer.py:102-239 | The structure holds the FROM table, the select entries of the projections, and one join record per join, in order. GROUP BY and ORDER BY are the clause's expressions, or empty when absent. WHERE is empty when absent; otherwise its predicates are, as a multiset, the depth-first predicates of the WHERE tree. The tier is the classifier's. |
| Analyzer.AnalyzeTierExamples | engine/sql_analyzer.py:148-239 | Two kind-less joins give `unitC`; one `LEFT` join gives `unitA`. |
| Analyzer.AnalyzeFileAsWritten | engine/sql_analyzer.py:240-268 | As written, analysing a file always fails. A blank file fails with the empty-file error; a parsed one fails on the unbound name `entities`. |
| Analyzer.AnalyzeFile | engine/sql_analyzer.py:58-75 | With `entities` bound, the outcome is as follows. A blank file is the empty-file error. Otherwise the result is a template exactly when the text parsed. That template carries the stem's id and question, the analysis's structure and tier, the stripped text, Its tags are exactly the entities: the main table, then the tables of the counting joins. Its entity list holds those same tables, each once. |
| Analyzer.Entities | engine/sql_analyzer.py:224-232 | The entities are the main table followed by the counted tables, one more than the counting joins. A table after the first is listed exactly when some counting join targets it. |
| Analyzer.TierMatchesEntities | engine/sql_analyzer.py:224-247 | `unitA`, `unitB` and `unitC` correspond to one, two and at least three tags. |
| WhereFlattening.ToPredicate | engine/sql_analyzer.py:175-211 | Every collected node becomes a `filter` predicate with the node's left side as column. A comparison gets its own operator among `=`, `>`, `<`, `>=`, `<=`, `<>` and its right side as value. BETWEEN's value is `low AND high`, or `Unknown` when a bound is missing. IN's value is the parenthesised, comma-separated list. |
| WhereFlattening.Flatten | engine/sql_analyzer.py:166-211 | Every predicate is a `filter` with a known operator. As a multiset, and in length, the list equals the depth-first reading of the tree: one predicate per comparison, IN and BETWEEN node. |
| WhereFlattening.LevelOrderSamePredicates | engine/sql_analyzer.py:174 | The breadth-first walk collects the same predicates as the depth-first reference, each as often. |
| WhereFlattening.LevelOrder | engine/sql_analyzer.py:174 | The walk lists the forest's own nodes first, and visits exactly as many nodes as the trees hold. |
| WhereFlattening.SinglePredicate | engine/sql_analyzer.py:174-211 | A WHERE clause that is one predicate flattens to exactly that predicate. |
| WhereFlattening.OrLikeAnd | engine/sql_analyzer.py:171-174 | `l OR r` flattens to the same list as `l AND r`. |
| WhereFlattening.ConnectivesDiscarded | engine/sql_analyzer.py:171-174 | `NOT x` and a parenthesised `x` flatten to the same list as `x`. |
| WhereFlattening.LeftDeepConjunction | engine/sql_analyzer.py:174 | `a AND b AND c` flattens to `c, a, b`: the order is breadth-first. |
| JoinTier.Classify | engine/sql_analyzer.py:223-239 | `unitA` exactly when no join counts, `unitB` exactly when one does, `unitC` exactly when two or more do. |
| JoinTier.Counts | engine/sql_analyzer.py:229 | A join whose type text mentions `LEFT`, `RIGHT` or `OUTER` does not count. A join whose upper-cased type text has none of the three words does count. |
| JoinTier.CountsIgnoresCase | engine/sql_analyzer.py:229 | Whether a join counts does not depend on the letter case of its type text. |
| JoinTier.CountedTables | engine/sql_analyzer.py:229 | The counted tables number as many as the counting joins; a table is listed exactly when some counting join targets it. |
| JoinTier.CountedTablesConcat | engine/sql_analyzer.py:229 | The counted tables of two runs of joins are those of the first run followed by those of the second, so the tables keep join order. |
| JoinTier.CountedTablesOne | engine/sql_analyzer.py:229 | A single join contributes its table exactly when it counts. |
| JoinTier.CountedJoinsPermutation | engine/sql_analyzer.py:229-232 | The number of counting joins depends only on the multiset of joins. |
| JoinTier.TierPermutationInvariant | engine/sql_analyzer.py:229-239 | Reordering the joins never changes the tier. |
| JoinTier.TierInsertion | engine/sql_analyzer.py:229-239 | Inserting a join anywhere never lowers the tier; inserting a LEFT, RIGHT or OUTER join leaves it unchanged. |
| JoinTier.InnerCounts | engine/sql_analyzer.py:229 | An `INNER` join counts. |
| JoinTier.FullCounts | engine/sql_analyzer.py:229 | A `FULL` join counts. |
| JoinTier.CrossCounts | engine/sql_analyzer.py:229 | A `CROSS` join counts. |
| JoinTier.EmptyTypeCounts | engine/sql_analyzer.py:229 | A join with an empty type text counts. |
| JoinTier.LeftDoesNotCount | engine/sql_analyzer.py:229 | A `LEFT` join does not count. |
| JoinTier.TierExamples | engine/sql_analyzer.py:229-239 | Two inner joins give `unitC`; one LEFT join gives `unitA`. |
| TemplateStore.Archive | engine/load_json_data.py:130-157 | After archiving, the id is inactive and every other asset is unchanged. The old history is a prefix of the new one. |
| TemplateStore.Put | engine/load_json_data.py:159-261 | An import commits exactly when no statement fails; a failure leaves the store as it was. After a commit, the id's asset is the template's, with the next row id, and no other asset moves. If the id was active, the history gains its `UPDATE` record and the id's rows are replaced by the template's. Otherwise the history is unchanged and the template's rows are appended. |
| TemplateStore.PutPreservesWellFormed | engine/load_json_data.py:171-261 | From a well-formed store, any import leaves it well formed: every asset is keyed by its own id and has a distinct row id, and no dependent row is orphaned. |
| TemplateStore.PutAssetsWellFormed | engine/load_json_data.py:175-207 | After an import, assets keep their ids and carry distinct row ids below the next one. |
| TemplateStore.PutRows | engine/load_json_data.py:209-252 | After an import into a well-formed store, the imported id owns exactly the template's select, join and WHERE rows, in order; every other id owns what it did. |
| TemplateStore.Replace | engine/load_json_data.py:150-153 | Removing an id's rows and appending new ones gives that id exactly the new rows and leaves other ids' rows alone. |
| TemplateStore.WithoutUnowned | engine/load_json_data.py:139-157 | In a store without orphans, an inactive id owns no rows, so the delete has nothing to remove. |
| TemplateStore.SelectRowsOf | engine/load_json_data.py:211-232 | With presets present, the rows are the presets' columns, preset by preset and in order: at each preset's offset sit that preset's columns tagged with its own category, and there are no other rows. Without presets, there is one row per select entry, in order, tagged `all`. |
| TemplateStore.PresetBlock | engine/load_json_data.py:211-224 | The rows from the offset of preset `p` on are that preset's columns, each tagged with that preset's category. |
| TemplateStore.HistoryAppendOnly | engine/load_json_data.py:139-145 | Any import, committed or not, keeps the old history as a prefix and adds at most one record. |
| TemplateStore.PutHistory | engine/load_json_data.py:136-145 | After one import the id's asset has the template's question. The history gains a record exactly when the id was active. |
| TemplateStore.RepeatedPut | engine/load_json_data.py:130-207 | N imports of one id that was not active leave it active with the last template's question, and add N−1 history records on top of the old history. |
| TemplateStore.RepeatedPutActive | engine/load_json_data.py:130-207 | N imports of an id that was active add N history records. |
| Regeneration.DerivedId | mcp_server/query_mcp_server.py:325 | The derived id is `<parent>_modified_` followed by the decimal text of the count plus one. |
| Regeneration.DerivedIdInjective | mcp_server/query_mcp_server.py:325 | Different counts give different ids for the same parent. |
| Text.IntToStringInjective | mcp_server/query_mcp_server.py:325 | Different integers have different decimal texts. |
| Regeneration.ChosenSelects | mcp_server/query_mcp_server.py:329-333 | The parent's rows of the requested category when it has any, else its rows of category `all`. |
| Regeneration.MissingRenderKey | mcp_server/llm_query_rebuilder.py:55-57 | No key is missing exactly when every condition has an operator and a value. Otherwise the reported key belongs to the first condition that lacks one: `operator` if it has none, else `value`. |
| Regeneration.GenWhereRows | mcp_server/query_mcp_server.py:373-377 | One generated WHERE row per condition, in order, with the condition's column, operator and value. Its type defaults to `filter`. |
| Regeneration.GenQueryOf | mcp_server/query_mcp_server.py:357-370 | The generated query has the derived id, the parent, the parent's tags, and the caller's question or else `RE: ` before the parent's question. |
| Regeneration.ModifyWhere | mcp_server/query_mcp_server.py:309-410 | An unknown parent and malformed JSON are errors with no writes. Every other error except a failed master commit writes nothing. On success: the new id is the derived one and was free; the master changes only by the count bump; the generated store gains exactly the new query and its WHERE rows. |
| Regeneration.RegenerationSucceeds | mcp_server/query_mcp_server.py:310-377 | With no store failure, a regeneration succeeds exactly when three things hold: the parent exists, every predicate has its column, operator and value, and the derived id is not yet taken in the generated store. |
| Regeneration.Write | mcp_server/query_mcp_server.py:357-407 | A failing update or generated commit writes nothing. A failing master commit keeps the generated rows and leaves the master alone. Success does both. |
| Regeneration.Bump | mcp_server/query_mcp_server.py:380 | The bump raises the parent's count by exactly one. Nothing else in the parent's asset changes, no asset appears or disappears, other assets keep their values, and the rows and history stay as they were. |
| Regeneration.ParentRowsUntouched | mcp_server/query_mcp_server.py:329-380 | On success, the master's rows and history are unchanged, no asset appears or disappears, and only the parent's count moves, by exactly one. |
| Regeneration.BumpPreservesWellFormed | mcp_server/query_mcp_server.py:380 | The count bump keeps the master store well formed. |
| Regeneration.RegeneratedQuery | mcp_server/query_mcp_server.py:346-370 | The generated SQL is rebuilt from the chosen select rows, the parent's joins, FROM, GROUP BY and ORDER BY, and the new predicates. Its text up to the join lines is the parent's. |
| Regeneration.DerivedIdNotAnalyzerId | mcp_server/query_mcp_server.py:325 | A derived id is never an id the analyzer takes from a file name. |
| Regeneration.FailedMasterCommitBlocksRetry | mcp_server/query_mcp_server.py:379-383 | After a failed master commit, the generated query stays and the count is not bumped. The next regeneration of that parent is refused as a duplicate id. |
| Regeneration.ReimportBlocksRegeneration | mcp_server/query_mcp_server.py:325 | Re-importing the parent resets its count to the template's. The next regeneration then derives the id just used and is refused. |
| Details.SortByCategory | mcp_server/query_mcp_server.py:222 | Ordering the select rows keeps them as a multiset. |
| Details.SortSorted | mcp_server/query_mcp_server.py:222 | The ordered rows are sorted by category. |
| Details.SortStable | mcp_server/query_mcp_server.py:222 | Within each category the rows keep their insertion order. |
| Details.LookupAsWritten | mcp_server/query_mcp_server.py:193-233 | As written, every lookup fails. An unknown id is reported exactly when the id is in neither store; any found row fails on a dictionary-style read the row type lacks. |
| Details.LookupRowReadsAsWritten | mcp_server/query_mcp_server.py:238 | With only the default reads repaired, a master query is reported as the corrected lookup reports it. A query found only in the generated store still fails, on its FROM table, although the corrected lookup finds it. |
| Details.Lookup | mcp_server/query_mcp_server.py:193-222 | A lookup fails exactly when the id is in neither store. The master store is tried first. A generated query is described by its parent's joins and select rows and by its own WHERE rows. Select rows are sorted by category, keep their multiset, and keep their order within each category. |
| Details.LookupRegenerated | mcp_server/query_mcp_server.py:195-222 | A freshly regenerated query is found in the generated store. It is described by its parent's joins and by the new WHERE rows. |

## Left out

- Parsing and SQL rendering: the parser and `.sql()` are external. Leaves of the abstract statement are opaque text.
- Predicates nested inside operands or subqueries: the search would collect them, but the abstract statement's leaves are opaque.
- The md5 identity hash: it is unused and a foreign call.
- JSON serialisation of the template, file reads and writes, inbox/success/failed moves, error logs, directory creation and the batch loops: these are I/O.
- Schema DDL: tables are maps and sequences.
- Timestamps: they are parameters.
- The other server tools (search, list, status, execute), the transport, the catalog generator, the verification scripts and configuration loading: they are outside the core.
- Concurrency and multiple writers.
- The text formatting of the details lookup and of the regeneration summary: only which rows describe a query is modelled.
- Details.Lookup: does not report the FROM table, entities, presentation type, dates or modification count. For a generated query the code reads some of these from columns its row lacks; the corrected lookup assumes those reads are repaired too.
- Text.Upper: upper-cases ASCII letters only, whereas Python also maps some non-ASCII letters to ASCII ones (`'ſ'.upper()` is `S`). This has two consequences. First, a join type text whose non-ASCII letters upper-case to `LEFT`, `RIGHT` or `OUTER` would be classified differently. Second, the rebuild engine's ` AS ` test on a select expression (mcp_server/llm_query_rebuilder.py:32) differs: for the expression `x aſ y` with alias `b`, the code keeps the expression unchanged, while `Rebuilder.RenderItem` appends ` AS 'b'`.
- Analyzer.AnalyzeFile: `list(set(...))` has no defined order. The model lists each entity at its first occurrence; the contract states which tables the entity list holds and that none repeats, but not their order.
- Regeneration.ModifyWhere: condition text that is valid JSON but not a list of objects is not modelled, nor are explicit JSON `null` values inside a condition. Missing keys are modelled.
- Rebuilder.Item: a select row whose alias is NULL is modelled as the empty alias, which the code treats alike. A row whose expression is NULL is not modelled.
- Analyzer.JoinRecords: the join kind is taken as the text the parser gives. Which parser argument holds LEFT or RIGHT is not modelled.

## Findings

| source | as written | input that shows it | evidently intended | confidence | as-written member | corrected member |
|---|---|---|---|---|---|---|
| engine/sql_analyzer.py:247 | The template's `entities` and `tags` are read from the name `entities`, which `_analyze_ast` never binds. Every parsed file therefore fails with a NameError and is moved to the failed folder. | Any non-blank file whose text parses, for example `SELECT a FROM T`. | `entities` is the main table plus the tables of the joins that count. | not executed | Analyzer.AnalyzeFileAsWritten | Analyzer.AnalyzeFile |
| mcp_server/query_mcp_server.py:233 | The found row is a `sqlite3.Row`, which has no `get` method, so `query.get('unit_type', ...)` raises. Every lookup of an existing query returns the failure message. | Any query id present in either store. | The unit type is read from the row, with `Generated` for a generated query that has none. | not executed | Details.LookupAsWritten | Details.Lookup |
| mcp_server/query_mcp_server.py:238 | A generated query's row comes from `generated_queries`, which has no `from_table`, `presentation_type` or `modified_at` column (mcp_server/query_mcp_server.py:57-67). Reading them by name at lines 238, 267 and 276 raises even once the default reads work. | The id of any regenerated query, for example `q1_modified_1`. | A generated query is reported without these fields, or with defaults for them. | not executed | Details.LookupRowReadsAsWritten | Details.Lookup |
