/** The template record the analyzer produces and the store imports: the
    structure of one SELECT statement plus its metadata. */
module Templates {
  import opened Common

  /** A select entry: alias, expression text, table, column, and the
      aggregate call inside it, if any. */
  datatype SelectColumn = SelectColumn(
    alias: string, expression: string, table: string, column: string, aggregation: Option<string>)

  /** A join: its type text, target table, ON text, and the relationship
      label (the ON text again). */
  datatype JoinRecord = JoinRecord(joinType: string, table: string, onCondition: string, relationship: string)

  /** A flattened WHERE predicate. */
  datatype WherePredicate = WherePredicate(column: string, operator: string, value: string, kind: string)

  datatype Structure = Structure(
    selectColumns: seq<SelectColumn>,
    fromTable: string,
    joins: seq<JoinRecord>,
    whereConditions: seq<WherePredicate>,
    groupBy: seq<string>,
    orderBy: seq<string>)

  /** A named list of select entries offered as a presentation level. */
  datatype Preset = Preset(category: string, columns: seq<SelectColumn>)

  /** The template file. Keys the importer reads with a default are
      optional here: `description`, `modified_at`, `modification_count`,
      `estimated_rows` and `presentation_presets`. */
  datatype Template = Template(
    queryId: string,
    question: string,
    description: Option<string>,
    unitType: string,
    unitDescription: string,
    entities: seq<string>,
    presentationType: string,
    presentationConfig: string,
    presets: Option<seq<Preset>>,
    originalSql: string,
    normalizedSql: string,
    structure: Structure,
    createdAt: string,
    modifiedAt: Option<string>,
    modificationCount: Option<int>,
    tags: seq<string>,
    complexity: string,
    estimatedRows: Option<string>)
}
