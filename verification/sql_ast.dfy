/** The parsed statement the analyzer walks, reduced to the node kinds it
    looks at. Parsing and the parser's own rendering of a node back to text
    are external: every leaf below is that rendered text, kept opaque. */
module SqlAst {
  import opened Common

  /** The binary comparisons the WHERE walk recognises. */
  datatype Comparison = Eq | Gt | Lt | Gte | Lte | Neq

  /** A node of the WHERE subtree. `Paren` is a parenthesised condition;
      `Other` is any node kind the walk does not look into (a function
      call, `LIKE`, `IS NULL`, ...). A `Between` bound may be missing. */
  datatype Cond =
    | And(left: Cond, right: Cond)
    | Or(left: Cond, right: Cond)
    | Not(operand: Cond)
    | Paren(operand: Cond)
    | Compare(op: Comparison, lhs: string, rhs: string)
    | InList(lhs: string, values: seq<string>)
    | Between(lhs: string, low: Option<string>, high: Option<string>)
    | Other(text: string)

  /** An entry of the outermost SELECT list: an aliased expression (with
      the text of the first aggregate call inside it, if any), a bare
      column reference (its name, its table qualifier or `""`, and its
      full text), or anything else. */
  datatype SelectExpr =
    | Aliased(alias: string, inner: string, aggregate: Option<string>)
    | ColumnRef(name: string, table: string, text: string)
    | OtherExpr(text: string)

  /** A JOIN node: its kind text if the parser recorded one, its target
      table, and its ON condition if any. */
  datatype JoinNode = JoinNode(kind: Option<string>, table: string, on: Option<string>)

  /** A single SELECT statement. `from` holds the tables found under the
      FROM clause, in the parser's traversal order; `groupBy` and `orderBy`
      hold the rendered expressions of those clauses when present. */
  datatype Statement = Statement(
    projections: seq<SelectExpr>,
    from: Option<seq<string>>,
    joins: seq<JoinNode>,
    where: Option<Cond>,
    groupBy: Option<seq<string>>,
    orderBy: Option<seq<string>>)
}
