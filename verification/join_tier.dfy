/** Step 8 of the analyzer: the unit tier. The main table counts as one
    entity and every join whose type text, upper-cased, mentions none of
    `LEFT`, `RIGHT` and `OUTER` adds one more; three or more entities make
    the query `unitC`, two make it `unitB`, one makes it `unitA`. */
module JoinTier {
  import opened Text
  import opened Templates

  datatype Unit = UnitA | UnitB | UnitC {
    /** The tier's name as written into the template. */
    function Name(): string {
      match this
      case UnitA => "unitA"
      case UnitB => "unitB"
      case UnitC => "unitC"
    }

    /** The tiers' order: A below B below C. */
    function Rank(): nat {
      match this
      case UnitA => 0
      case UnitB => 1
      case UnitC => 2
    }
  }

  /** A join counts as an entity unless it is an outer join by its text:
      whatever the case of its letters, a type text that mentions `LEFT`,
      `RIGHT` or `OUTER` does not count, and every other text counts,
      including `FULL`, `CROSS` and the empty text. */
  function Counts(joinType: string): (r: bool)
    ensures r ==> !Contains(joinType, "LEFT") && !Contains(joinType, "RIGHT") && !Contains(joinType, "OUTER")
    ensures (forall i ::
               && !OccursAt(Upper(joinType), "LEFT", i)
               && !OccursAt(Upper(joinType), "RIGHT", i)
               && !OccursAt(Upper(joinType), "OUTER", i)) ==> r
  {
    var u := Upper(joinType);
    ContainsUpper(joinType, "LEFT");
    ContainsUpper(joinType, "RIGHT");
    ContainsUpper(joinType, "OUTER");
    !Contains(u, "LEFT") && !Contains(u, "RIGHT") && !Contains(u, "OUTER")
  }

  /** Case does not matter: a type text counts exactly when its
      upper-cased form does. */
  lemma CountsIgnoresCase(joinType: string)
    ensures Counts(Upper(joinType)) == Counts(joinType)
  {
    assert Upper(Upper(joinType)) == Upper(joinType);
  }

  /** The joins that count. */
  function CountedJoins(joins: seq<JoinRecord>): (r: nat)
    ensures r <= |joins|
  {
    if joins == [] then 0
    else (if Counts(joins[0].joinType) then 1 else 0) + CountedJoins(joins[1..])
  }

  /** The target tables of the joins that count, in join order. */
  function CountedTables(joins: seq<JoinRecord>): (r: seq<string>)
    ensures |r| == CountedJoins(joins)
    ensures forall t :: t in r <==> exists j :: j in joins && Counts(j.joinType) && j.table == t
  {
    if joins == [] then []
    else (if Counts(joins[0].joinType) then [joins[0].table] else []) + CountedTables(joins[1..])
  }

  /** Only the three words keep a join from counting: a full join
      counts. */
  lemma FullCounts(t: string)
    requires t == "FULL"
    ensures Counts(t)
  {
    UpperNoLower(t);
    NoOccurrence(t, "LEFT");
    NoOccurrence(t, "RIGHT");
    NoOccurrence(t, "OUTER");
  }

  /** A cross join counts. */
  lemma CrossCounts(t: string)
    requires t == "CROSS"
    ensures Counts(t)
  {
    UpperNoLower(t);
    NoOccurrence(t, "LEFT");
    NoOccurrence(t, "RIGHT");
    NoOccurrence(t, "OUTER");
  }

  /** A join with an empty type text counts. */
  lemma EmptyTypeCounts(t: string)
    requires t == ""
    ensures Counts(t)
  {
    assert Upper(t) == t;
  }

  /** The counted tables of two runs of joins are those of the first run
      followed by those of the second: the tables keep join order. */
  lemma {:induction false} CountedTablesConcat(a: seq<JoinRecord>, b: seq<JoinRecord>)
    ensures CountedTables(a + b) == CountedTables(a) + CountedTables(b)
  {
    if a == [] {
      assert a + b == b;
    } else {
      var head := if Counts(a[0].joinType) then [a[0].table] else [];
      assert (a + b)[0] == a[0];
      assert (a + b)[1..] == a[1..] + b;
      assert CountedTables(a + b) == head + CountedTables(a[1..] + b);
      CountedTablesConcat(a[1..], b);
      assert CountedTables(a) == head + CountedTables(a[1..]);
    }
  }

  /** One join contributes its table exactly when it counts. */
  lemma CountedTablesOne(j: JoinRecord)
    ensures CountedTables([j]) == if Counts(j.joinType) then [j.table] else []
  {
    assert [j][1..] == [];
  }

  /** The tier of a statement with the given joins: by the number of
      entities, the main table plus the joins that count. */
  function Classify(joins: seq<JoinRecord>): (u: Unit)
    ensures u == UnitA <==> CountedJoins(joins) == 0
    ensures u == UnitB <==> CountedJoins(joins) == 1
    ensures u == UnitC <==> CountedJoins(joins) >= 2
  {
    var entities := 1 + CountedJoins(joins);
    if entities >= 3 then UnitC
    else if entities == 2 then UnitB
    else UnitA
  }

  lemma {:induction false} CountedJoinsConcat(a: seq<JoinRecord>, b: seq<JoinRecord>)
    ensures CountedJoins(a + b) == CountedJoins(a) + CountedJoins(b)
  {
    if a == [] {
      assert a + b == b;
    } else {
      assert (a + b)[0] == a[0];
      assert (a + b)[1..] == a[1..] + b;
      CountedJoinsConcat(a[1..], b);
    }
  }

  lemma CountedJoinsOne(j: JoinRecord)
    ensures CountedJoins([j]) == if Counts(j.joinType) then 1 else 0
  {
    assert [j][1..] == [];
  }

  /** The number of joins that count depends only on which joins there are,
      not on their order. */
  lemma {:induction false} CountedJoinsPermutation(a: seq<JoinRecord>, b: seq<JoinRecord>)
    requires multiset(a) == multiset(b)
    ensures CountedJoins(a) == CountedJoins(b)
    decreases |a|
  {
    if a != [] {
      var j := a[0];
      assert j in multiset(b);
      var k :| 0 <= k < |b| && b[k] == j;
      assert b == b[..k] + [j] + b[k + 1..];
      var rest := b[..k] + b[k + 1..];
      assert a == [j] + a[1..];
      assert multiset(b) == multiset(b[..k]) + multiset([j]) + multiset(b[k + 1..]);
      assert multiset(a) == multiset([j]) + multiset(a[1..]);
      assert multiset(rest) == multiset(b[..k]) + multiset(b[k + 1..]);
      assert multiset(a[1..]) == multiset(a) - multiset{j};
      assert multiset(rest) == multiset(b) - multiset{j};
      CountedJoinsPermutation(a[1..], rest);
      CountedJoinsConcat(b[..k] + [j], b[k + 1..]);
      CountedJoinsConcat(b[..k], [j]);
      CountedJoinsConcat(b[..k], b[k + 1..]);
      CountedJoinsOne(j);
    }
  }

  /** Reordering the joins never changes the tier. */
  lemma TierPermutationInvariant(a: seq<JoinRecord>, b: seq<JoinRecord>)
    requires multiset(a) == multiset(b)
    ensures Classify(a) == Classify(b)
  {
    CountedJoinsPermutation(a, b);
  }

  /** Inserting a join anywhere never lowers the tier, and inserting an
      outer join leaves it as it was. */
  lemma TierInsertion(joins: seq<JoinRecord>, i: nat, j: JoinRecord)
    requires i <= |joins|
    ensures Classify(joins).Rank() <= Classify(joins[..i] + [j] + joins[i..]).Rank()
    ensures !Counts(j.joinType) ==> Classify(joins[..i] + [j] + joins[i..]) == Classify(joins)
  {
    CountedJoinsConcat(joins[..i] + [j], joins[i..]);
    CountedJoinsConcat(joins[..i], [j]);
    CountedJoinsOne(j);
    assert joins == joins[..i] + joins[i..];
    CountedJoinsConcat(joins[..i], joins[i..]);
  }

  /** A type text without the letters of `LEFT`, `RIGHT` and `OUTER` at any
      position where they could start counts. */
  lemma NoOccurrence(s: string, p: string)
    requires |p| > 0
    requires forall i :: 0 <= i && i + |p| <= |s| ==> s[i] != p[0]
    ensures !Contains(s, p)
  {
  }

  /** The default join type counts. */
  lemma InnerCounts(t: string)
    requires t == "INNER"
    ensures Counts(t)
  {
    UpperNoLower(t);
    NoOccurrence(t, "LEFT");
    NoOccurrence(t, "RIGHT");
    NoOccurrence(t, "OUTER");
  }

  /** A join typed `LEFT` does not. */
  lemma LeftDoesNotCount(t: string)
    requires t == "LEFT"
    ensures !Counts(t)
  {
    UpperNoLower(t);
    assert OccursAt(t, "LEFT", 0);
  }

  /** Two inner joins make three entities, hence `unitC`; a single `LEFT`
      join adds nothing, hence `unitA`. */
  lemma TierExamples(x: JoinRecord, y: JoinRecord, l: JoinRecord)
    requires x.joinType == "INNER" && y.joinType == "INNER" && l.joinType == "LEFT"
    ensures Classify([x, y]) == UnitC
    ensures Classify([l]) == UnitA
  {
    InnerCounts(x.joinType);
    InnerCounts(y.joinType);
    LeftDoesNotCount(l.joinType);
    CountedJoinsConcat([x], [y]);
    assert [x] + [y] == [x, y];
    CountedJoinsOne(x);
    CountedJoinsOne(y);
    CountedJoinsOne(l);
  }
}
