/** Step 5 of the analyzer: the WHERE subtree is flattened into a list of
    predicates. The parser's search visits the subtree level by level
    (breadth first, the root included), and every comparison, `IN` and
    `BETWEEN` node met on the way becomes one predicate; connectives and
    parentheses are dropped. */
module WhereFlattening {
  import opened Common
  import opened Text
  import opened SqlAst
  import opened Templates

  /** The operators a flattened predicate can carry. */
  const Operators: set<string> := {"=", ">", "<", ">=", "<=", "<>", "IN", "BETWEEN"}

  function OperatorText(op: Comparison): (r: string)
    ensures r in Operators && r != "IN" && r != "BETWEEN"
  {
    match op
    case Eq => "="
    case Gt => ">"
    case Lt => "<"
    case Gte => ">="
    case Lte => "<="
    case Neq => "<>"
  }

  /** The node kinds the search collects. */
  predicate IsPredicate(c: Cond) {
    c.Compare? || c.InList? || c.Between?
  }

  /** The predicate record of one collected node. A `BETWEEN` with a
      missing bound gets the value `Unknown`. */
  function ToPredicate(c: Cond): (p: WherePredicate)
    requires IsPredicate(c)
    ensures p.kind == "filter" && p.operator in Operators
    ensures p.column == c.lhs
    ensures c.Compare? ==> p.operator == OperatorText(c.op) && p.value == c.rhs
    ensures c.InList? ==> p.operator == "IN" && p.value == "(" + Join(", ", c.values) + ")"
    ensures c.Between? ==>
      && p.operator == "BETWEEN"
      && p.value == (if c.low.Some? && c.high.Some? then c.low.value + " AND " + c.high.value else "Unknown")
  {
    match c
    case Compare(op, lhs, rhs) => WherePredicate(lhs, OperatorText(op), rhs, "filter")
    case InList(lhs, values) => WherePredicate(lhs, "IN", "(" + Join(", ", values) + ")", "filter")
    case Between(lhs, low, high) =>
      var v := if low.Some? && high.Some? then low.value + " AND " + high.value else "Unknown";
      WherePredicate(lhs, "BETWEEN", v, "filter")
  }

  /** The children the search descends into, left to right. */
  function Children(c: Cond): seq<Cond> {
    match c
    case And(l, r) => [l, r]
    case Or(l, r) => [l, r]
    case Not(x) => [x]
    case Paren(x) => [x]
    case _ => []
  }

  function Size(c: Cond): nat {
    match c
    case And(l, r) => 1 + Size(l) + Size(r)
    case Or(l, r) => 1 + Size(l) + Size(r)
    case Not(x) => 1 + Size(x)
    case Paren(x) => 1 + Size(x)
    case _ => 1
  }

  function ForestSize(f: seq<Cond>): nat {
    if f == [] then 0 else Size(f[0]) + ForestSize(f[1..])
  }

  lemma {:induction false} ForestSizeConcat(a: seq<Cond>, b: seq<Cond>)
    ensures ForestSize(a + b) == ForestSize(a) + ForestSize(b)
  {
    if a == [] {
      assert a + b == b;
    } else {
      assert (a + b)[0] == a[0];
      assert (a + b)[1..] == a[1..] + b;
      ForestSizeConcat(a[1..], b);
    }
  }

  lemma SizeOne(c: Cond)
    ensures ForestSize([c]) == Size(c)
  {
    assert [c][1..] == [];
  }

  lemma ChildrenSize(c: Cond)
    ensures ForestSize(Children(c)) == Size(c) - 1
  {
    match c
    case And(l, r) => assert [l, r][1..] == [r]; SizeOne(r);
    case Or(l, r) => assert [l, r][1..] == [r]; SizeOne(r);
    case Not(x) => SizeOne(x);
    case Paren(x) => SizeOne(x);
    case _ =>
  }

  /** The next level of a level of nodes: all their children, in order. */
  function NextLevel(f: seq<Cond>): seq<Cond> {
    if f == [] then [] else Children(f[0]) + NextLevel(f[1..])
  }

  /** Every node of a level has size at least one, so the next level is
      strictly smaller. */
  lemma {:induction false} NextLevelSize(f: seq<Cond>)
    ensures ForestSize(NextLevel(f)) + |f| == ForestSize(f)
  {
    if f != [] {
      NextLevelSize(f[1..]);
      ChildrenSize(f[0]);
      ForestSizeConcat(Children(f[0]), NextLevel(f[1..]));
    }
  }

  /** The nodes of a forest in breadth-first order: the forest's own
      nodes first, and every node of every tree exactly once overall. */
  function LevelOrder(f: seq<Cond>): (r: seq<Cond>)
    ensures IsPrefix(f, r)
    ensures |r| == ForestSize(f)
    decreases ForestSize(f)
  {
    if f == [] then []
    else
      NextLevelSize(f);
      f + LevelOrder(NextLevel(f))
  }

  /** The predicates among a list of nodes, in order. */
  function Collect(nodes: seq<Cond>): seq<WherePredicate> {
    if nodes == [] then []
    else Own(nodes[0]) + Collect(nodes[1..])
  }

  /** The predicate of one node alone, if it is one. */
  function Own(c: Cond): seq<WherePredicate> {
    if IsPredicate(c) then [ToPredicate(c)] else []
  }

  lemma {:induction false} CollectConcat(a: seq<Cond>, b: seq<Cond>)
    ensures Collect(a + b) == Collect(a) + Collect(b)
  {
    if a == [] {
      assert a + b == b;
    } else {
      assert (a + b)[0] == a[0];
      assert (a + b)[1..] == a[1..] + b;
      CollectConcat(a[1..], b);
      ConcatAssoc(Own(a[0]), Collect(a[1..]), Collect(b));
    }
  }

  /** The reference reading of the walk: the predicates of the tree, read
      depth first from left to right. */
  function DepthFirst(c: Cond): seq<WherePredicate> {
    match c
    case And(l, r) => DepthFirst(l) + DepthFirst(r)
    case Or(l, r) => DepthFirst(l) + DepthFirst(r)
    case Not(x) => DepthFirst(x)
    case Paren(x) => DepthFirst(x)
    case Other(_) => []
    case _ => [ToPredicate(c)]
  }

  function DepthFirstForest(f: seq<Cond>): seq<WherePredicate> {
    if f == [] then [] else DepthFirst(f[0]) + DepthFirstForest(f[1..])
  }

  lemma {:induction false} DepthFirstForestConcat(a: seq<Cond>, b: seq<Cond>)
    ensures DepthFirstForest(a + b) == DepthFirstForest(a) + DepthFirstForest(b)
  {
    if a == [] {
      assert a + b == b;
    } else {
      assert (a + b)[0] == a[0];
      assert (a + b)[1..] == a[1..] + b;
      DepthFirstForestConcat(a[1..], b);
      ConcatAssoc(DepthFirst(a[0]), DepthFirstForest(a[1..]), DepthFirstForest(b));
    }
  }

  lemma CollectOne(c: Cond)
    ensures Collect([c]) == Own(c)
  {
    assert [c][1..] == [];
  }

  lemma ForestOne(c: Cond)
    ensures DepthFirstForest([c]) == DepthFirst(c)
  {
    assert [c][1..] == [];
  }

  lemma ForestTwo(l: Cond, r: Cond)
    ensures DepthFirstForest([l, r]) == DepthFirst(l) + DepthFirst(r)
  {
    assert [l, r][1..] == [r];
    ForestOne(r);
  }

  /** A node's depth-first predicates are its own (if it is one) followed
      by those of its children. */
  lemma DepthFirstNode(c: Cond)
    ensures DepthFirst(c) == Collect([c]) + DepthFirstForest(Children(c))
  {
    CollectOne(c);
    match c
    case And(l, r) => ForestTwo(l, r);
    case Or(l, r) => ForestTwo(l, r);
    case Not(x) => ForestOne(x);
    case Paren(x) => ForestOne(x);
    case _ =>
  }

  /** Reading a level depth first gives the level's own predicates and
      then, up to order, those below it. */
  lemma {:induction false} DepthFirstLevel(f: seq<Cond>)
    ensures multiset(DepthFirstForest(f)) == multiset(Collect(f)) + multiset(DepthFirstForest(NextLevel(f)))
  {
    if f != [] {
      DepthFirstLevel(f[1..]);
      DepthFirstNode(f[0]);
      DepthFirstForestConcat(Children(f[0]), NextLevel(f[1..]));
      assert f == [f[0]] + f[1..];
      CollectConcat([f[0]], f[1..]);
    }
  }

  /** The breadth-first walk and the depth-first reading collect the same
      predicates, each as often. */
  lemma {:induction false} LevelOrderSamePredicates(f: seq<Cond>)
    ensures multiset(Collect(LevelOrder(f))) == multiset(DepthFirstForest(f))
    decreases ForestSize(f)
  {
    if f != [] {
      NextLevelSize(f);
      LevelOrderSamePredicates(NextLevel(f));
      CollectConcat(f, LevelOrder(NextLevel(f)));
      DepthFirstLevel(f);
    }
  }

  /** The flattened predicate list of a WHERE condition. Every entry is a
      filter with one of the eight operators, and the list holds exactly
      the comparison, `IN` and `BETWEEN` nodes of the tree: the same
      predicates as the depth-first reading, each as often. */
  function Flatten(where: Cond): (r: seq<WherePredicate>)
    ensures forall i :: 0 <= i < |r| ==> r[i].kind == "filter" && r[i].operator in Operators
    ensures multiset(r) == multiset(DepthFirst(where))
    ensures |r| == |DepthFirst(where)|
  {
    var r := Collect(LevelOrder([where]));
    LevelOrderSamePredicates([where]);
    assert [where][1..] == [];
    assert multiset(r) == multiset(DepthFirst(where));
    CollectFilters(LevelOrder([where]));
    r
  }

  lemma {:induction false} CollectFilters(nodes: seq<Cond>)
    ensures forall i :: 0 <= i < |Collect(nodes)| ==>
      Collect(nodes)[i].kind == "filter" && Collect(nodes)[i].operator in Operators
  {
    if nodes != [] {
      CollectFilters(nodes[1..]);
    }
  }

  lemma NextLevelOne(x: Cond)
    ensures NextLevel([x]) == Children(x)
  {
    assert [x][1..] == [];
  }

  lemma NextLevelPair(x: Cond, y: Cond)
    ensures NextLevel([x, y]) == Children(x) + Children(y)
  {
    assert [x, y][1..] == [y];
    NextLevelOne(y);
  }

  /** Flattening one node: its own predicate, if it is one, then the
      level-order predicates of its children. */
  lemma FlattenNode(c: Cond)
    ensures Flatten(c) == Own(c) + Collect(LevelOrder(Children(c)))
  {
    NextLevelOne(c);
    assert LevelOrder([c]) == [c] + LevelOrder(Children(c));
    CollectConcat([c], LevelOrder(Children(c)));
    CollectOne(c);
  }

  /** A WHERE clause that is a single predicate flattens to that predicate. */
  lemma SinglePredicate(c: Cond)
    requires IsPredicate(c)
    ensures Flatten(c) == [ToPredicate(c)]
  {
    FlattenNode(c);
  }

  /** Flattening forgets the connectives: `l OR r` gives the same list as
      `l AND r`. */
  lemma OrLikeAnd(l: Cond, r: Cond)
    ensures Flatten(Or(l, r)) == Flatten(And(l, r))
  {
    FlattenNode(Or(l, r));
    FlattenNode(And(l, r));
    assert Own(Or(l, r)) == [] == Own(And(l, r));
    assert Children(Or(l, r)) == [l, r] == Children(And(l, r));
  }

  /** `NOT x` and `(x)` flatten to the same list as `x`: negation is
      dropped. */
  lemma ConnectivesDiscarded(x: Cond)
    ensures Flatten(Not(x)) == Flatten(x)
    ensures Flatten(Paren(x)) == Flatten(x)
  {
    UnaryDiscarded(Not(x));
    UnaryDiscarded(Paren(x));
  }

  /** A unary connective contributes no predicate of its own. */
  lemma UnaryDiscarded(c: Cond)
    requires c.Not? || c.Paren?
    ensures Flatten(c) == Flatten(c.operand)
  {
    FlattenNode(c);
    var rest := Collect(LevelOrder(Children(c)));
    assert Own(c) == [];
    assert Children(c) == [c.operand];
    assert Flatten(c.operand) == Collect(LevelOrder([c.operand]));
    assert [] + rest == rest;
  }

  /** One step of the walk: a non-empty level, then the walk of the next. */
  lemma LevelStep(f: seq<Cond>)
    requires f != []
    ensures LevelOrder(f) == f + LevelOrder(NextLevel(f))
  {
  }

  /** The predicates of two nodes side by side. */
  lemma CollectPair(x: Cond, y: Cond)
    ensures Collect([x, y]) == Own(x) + Own(y)
  {
    assert [x, y] == [x] + [y];
    CollectConcat([x], [y]);
    CollectOne(x);
    CollectOne(y);
  }

  /** Two predicates side by side form the last level of the walk. */
  lemma LeafPair(a: Cond, b: Cond)
    requires IsPredicate(a) && IsPredicate(b)
    ensures Collect(LevelOrder([a, b])) == [ToPredicate(a), ToPredicate(b)]
  {
    NextLevelPair(a, b);
    assert NextLevel([a, b]) == [];
    LevelStep([a, b]);
    assert LevelOrder([a, b]) == [a, b];
    CollectPair(a, b);
  }

  /** The walk is level by level, not left to right: in `a AND b AND c`,
      which parses as `(a AND b) AND c`, the shallower `c` comes first. */
  lemma LeftDeepConjunction(a: Cond, b: Cond, c: Cond)
    requires IsPredicate(a) && IsPredicate(b) && IsPredicate(c)
    ensures Flatten(And(And(a, b), c)) == [ToPredicate(c), ToPredicate(a), ToPredicate(b)]
  {
    var ab := And(a, b);
    FlattenNode(And(ab, c));
    assert Own(And(ab, c)) == [];
    assert Children(And(ab, c)) == [ab, c];
    NextLevelPair(ab, c);
    assert NextLevel([ab, c]) == [a, b];
    LevelStep([ab, c]);
    var rest := LevelOrder([a, b]);
    assert LevelOrder([ab, c]) == [ab, c] + rest;
    CollectConcat([ab, c], rest);
    CollectPair(ab, c);
    LeafPair(a, b);
    assert Own(ab) == [];
    assert Collect(LevelOrder([ab, c])) == Collect([ab, c]) + Collect(rest);
    ConsPair(ToPredicate(c), ToPredicate(a), ToPredicate(b));
  }

  lemma ConsPair<T>(x: T, y: T, z: T)
    ensures [x] + [y, z] == [x, y, z]
  {
  }
}
