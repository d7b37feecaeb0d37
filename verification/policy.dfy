/**
 * The policy: the index from table name to owning schema, built once from the
 * `schema -> [tables]` configuration, and the foreign-key decision rule over it.
 */
module Policy {
  import opened Wrappers

  /** A table together with the schema it was listed under. */
  datatype TableWithSchema = TableWithSchema(table: string, schema: string)

  /** The configuration: each schema name with the tables listed under it. */
  type Config = map<string, seq<string>>

  /** The checker owns the index `table -> (table, schema)`; it is never changed after construction. */
  datatype Checker = Checker(byTable: map<string, TableWithSchema>)

  /** Construction fails naming a table that was listed a second time. */
  datatype ConfigError = TableAlreadyExists(table: string)

  /** `(schema, i)` is a position of the configuration: the i-th table listed under `schema`. */
  ghost predicate Listed(config: Config, schema: string, i: int)
  {
    schema in config && 0 <= i < |config[schema]|
  }

  /** Every table name listed anywhere in the configuration. */
  ghost function Tables(config: Config): set<string>
  {
    set schema, i | schema in config && 0 <= i < |config[schema]| :: config[schema][i]
  }

  /** `table` occupies two different positions: under two schemas, or twice under one. */
  ghost predicate IsDuplicated(config: Config, table: string)
  {
    exists s1, i, s2, j ::
      && Listed(config, s1, i) && Listed(config, s2, j)
      && (s1 != s2 || i != j)
      && config[s1][i] == table && config[s2][j] == table
  }

  /** Some table name occurs more than once across the whole configuration. */
  ghost predicate HasDuplicate(config: Config)
  {
    exists table :: IsDuplicated(config, table)
  }

  /**
   * `byTable` is exactly the index of `config`: its keys are the listed tables and
   * every listed table maps to itself and the schema it was listed under.
   */
  ghost predicate IndexesConfig(config: Config, byTable: map<string, TableWithSchema>)
  {
    && byTable.Keys == Tables(config)
    && forall schema, i :: Listed(config, schema, i) ==>
         config[schema][i] in byTable && byTable[config[schema][i]] == TableWithSchema(config[schema][i], schema)
  }

  /**
   * `order` is an order in which a Go `range` over the configuration map may visit
   * its schemas: every schema exactly once. The order itself is unspecified.
   */
  ghost predicate IsIterationOrder(config: Config, order: seq<string>)
  {
    && (forall k :: 0 <= k < |order| ==> order[k] in config)
    && (forall schema :: schema in config ==> schema in order)
    && (forall k, l :: 0 <= k < l < |order| ==> order[k] != order[l])
  }

  /** The schema owning `table`, or None when the table is outside the policy. */
  function OwningSchema(c: Checker, table: string): Option<string>
  {
    if table in c.byTable then Some(c.byTable[table].schema) else None
  }

  /** Position `(schema, i)` has been visited once `k` schemas are done and `j` tables of the k-th. */
  ghost predicate Visited(order: seq<string>, k: int, j: int, schema: string, i: int)
    requires 0 <= k <= |order|
  {
    schema in order[..k] || (k < |order| && schema == order[k] && i < j)
  }

  /** Every key of the partial index comes from a visited position holding that key. */
  ghost predicate KeysVisited(config: Config, order: seq<string>, k: int, j: int,
                              byTable: map<string, TableWithSchema>, pos: map<string, int>)
    requires 0 <= k <= |order|
  {
    forall table :: table in byTable ==>
      && table in pos
      && byTable[table].table == table
      && Listed(config, byTable[table].schema, pos[table])
      && config[byTable[table].schema][pos[table]] == table
      && Visited(order, k, j, byTable[table].schema, pos[table])
  }

  /** Every visited position has been entered into the partial index, at that very position. */
  ghost predicate VisitedIndexed(config: Config, order: seq<string>, k: int, j: int,
                                 byTable: map<string, TableWithSchema>, pos: map<string, int>)
    requires 0 <= k <= |order|
  {
    forall schema, i :: Listed(config, schema, i) && Visited(order, k, j, schema, i) ==>
      && config[schema][i] in byTable
      && config[schema][i] in pos
      && byTable[config[schema][i]].schema == schema
      && pos[config[schema][i]] == i
  }

  lemma NextSchemaVisited(config: Config, order: seq<string>, k: int, schema: string, i: int)
    requires IsIterationOrder(config, order)
    requires 0 <= k < |order| && Listed(config, schema, i)
    ensures Visited(order, k, |config[order[k]]|, schema, i) <==> Visited(order, k + 1, 0, schema, i)
  {
    assert order[..k + 1] == order[..k] + [order[k]];
  }

  /** A table found already in the partial index is listed at a second, earlier position. */
  lemma RepeatIsDuplicate(config: Config, order: seq<string>, k: int, j: int,
                          byTable: map<string, TableWithSchema>, pos: map<string, int>)
    requires IsIterationOrder(config, order)
    requires 0 <= k < |order| && 0 <= j < |config[order[k]]|
    requires KeysVisited(config, order, k, j, byTable, pos)
    requires config[order[k]][j] in byTable
    ensures IsDuplicated(config, config[order[k]][j])
  {
    var table := config[order[k]][j];
    var s1, i := byTable[table].schema, pos[table];
    assert Visited(order, k, j, s1, i);
    if s1 in order[..k] {
      var m :| 0 <= m < k && order[m] == s1;
      assert s1 != order[k];
    }
    assert Listed(config, s1, i) && Listed(config, order[k], j);
  }

  /** Once every schema is visited, the partial index is the index and no table repeats. */
  lemma AllVisited(config: Config, order: seq<string>,
                   byTable: map<string, TableWithSchema>, pos: map<string, int>)
    requires IsIterationOrder(config, order)
    requires KeysVisited(config, order, |order|, 0, byTable, pos)
    requires VisitedIndexed(config, order, |order|, 0, byTable, pos)
    ensures IndexesConfig(config, byTable)
    ensures !HasDuplicate(config)
  {
    assert order[..|order|] == order;
    forall schema, i | Listed(config, schema, i)
      ensures Visited(order, |order|, 0, schema, i)
    {
    }
    forall table | table in byTable
      ensures table in Tables(config)
    {
      var schema, i := byTable[table].schema, pos[table];
      assert Listed(config, schema, i) && config[schema][i] == table;
    }
    forall s1, i, s2, j | Listed(config, s1, i) && Listed(config, s2, j) && config[s1][i] == config[s2][j]
      ensures s1 == s2 && i == j
    {
      assert Visited(order, |order|, 0, s1, i) && Visited(order, |order|, 0, s2, j);
    }
  }

  /**
   * Builds the index from the configuration, visiting schemas in `order` and each
   * schema's tables in list order, and fails as soon as a table is seen a second time.
   */
  method NewChecker(config: Config, order: seq<string>) returns (r: Result<Checker, ConfigError>)
    requires IsIterationOrder(config, order)
    ensures r.Failure? <==> HasDuplicate(config)
    ensures r.Failure? ==> IsDuplicated(config, r.error.table)
    ensures r.Success? ==> IndexesConfig(config, r.value.byTable)
  {
    var byTable: map<string, TableWithSchema> := map[];
    ghost var pos: map<string, int> := map[];
    var k := 0;
    while k < |order|
      invariant 0 <= k <= |order|
      invariant KeysVisited(config, order, k, 0, byTable, pos)
      invariant VisitedIndexed(config, order, k, 0, byTable, pos)
    {
      var schema := order[k];
      var tables := config[schema];
      var j := 0;
      while j < |tables|
        invariant 0 <= j <= |tables|
        invariant KeysVisited(config, order, k, j, byTable, pos)
        invariant VisitedIndexed(config, order, k, j, byTable, pos)
      {
        var table := tables[j];
        if table in byTable {
          RepeatIsDuplicate(config, order, k, j, byTable, pos);
          return Failure(TableAlreadyExists(table));
        }
        byTable := byTable[table := TableWithSchema(table, schema)];
        pos := pos[table := j];
        j := j + 1;
      }
      forall s, i | Listed(config, s, i)
        ensures Visited(order, k, j, s, i) <==> Visited(order, k + 1, 0, s, i)
      {
        NextSchemaVisited(config, order, k, s, i);
      }
      k := k + 1;
    }
    AllVisited(config, order, byTable, pos);
    return Success(Checker(byTable));
  }

  /**
   * The index is determined by the configuration alone, so a successful construction
   * yields the same checker whatever order the schemas were visited in.
   */
  lemma IndexDeterminedByConfig(config: Config, a: map<string, TableWithSchema>, b: map<string, TableWithSchema>)
    requires IndexesConfig(config, a) && IndexesConfig(config, b)
    ensures a == b
  {
    forall table | table in a
      ensures a[table] == b[table]
    {
      var schema, i :| schema in config && 0 <= i < |config[schema]| && config[schema][i] == table;
      assert Listed(config, schema, i);
    }
  }

  /**
   * The decision rule. Unknown source and unknown target: allowed; known source and
   * unknown target: allowed; unknown source and known target: denied; both known:
   * allowed iff they share a schema.
   */
  function IsAllowedReference(c: Checker, source: string, target: string): (allowed: bool)
    ensures allowed <==> (target in c.byTable ==> OwningSchema(c, source) == OwningSchema(c, target))
  {
    var sourceExists := source in c.byTable;
    var targetExists := target in c.byTable;
    if !sourceExists && !targetExists then true
    else if sourceExists && !targetExists then true
    else if !sourceExists && targetExists then false
    else c.byTable[source].schema == c.byTable[target].schema
  }

  /** A listed table is owned by the schema it is listed under; any other table has no owner. */
  lemma OwningSchemaOfConfig(config: Config, c: Checker, table: string)
    requires IndexesConfig(config, c.byTable)
    ensures table !in Tables(config) ==> OwningSchema(c, table) == None
    ensures forall schema, i :: Listed(config, schema, i) && config[schema][i] == table ==>
              OwningSchema(c, table) == Some(schema)
  {
  }

  /** A reference to a table outside the configuration is allowed whatever its source. */
  lemma UnknownTargetAllowed(config: Config, c: Checker, source: string, target: string)
    requires IndexesConfig(config, c.byTable)
    requires target !in Tables(config)
    ensures IsAllowedReference(c, source, target)
  {
  }

  /** A table outside the configuration may not reference a configured table. */
  lemma UnknownSourceKnownTargetDenied(config: Config, c: Checker, source: string, target: string)
    requires IndexesConfig(config, c.byTable)
    requires source !in Tables(config) && target in Tables(config)
    ensures !IsAllowedReference(c, source, target)
  {
  }

  /** Two tables listed under the same schema may reference each other in either direction. */
  lemma SameSchemaAllowedBothWays(config: Config, c: Checker, schema: string, i: int, j: int)
    requires IndexesConfig(config, c.byTable)
    requires Listed(config, schema, i) && Listed(config, schema, j)
    ensures IsAllowedReference(c, config[schema][i], config[schema][j])
    ensures IsAllowedReference(c, config[schema][j], config[schema][i])
  {
  }

  /** A table listed under one schema may not reference a table listed under another. */
  lemma CrossSchemaDenied(config: Config, c: Checker, s1: string, i: int, s2: string, j: int)
    requires IndexesConfig(config, c.byTable)
    requires Listed(config, s1, i) && Listed(config, s2, j) && s1 != s2
    ensures !IsAllowedReference(c, config[s1][i], config[s2][j])
  {
  }

  /** The rule is not symmetric: a known table may reference an unknown one, not the reverse. */
  lemma RuleIsAsymmetric()
    ensures var c := Checker(map["users" := TableWithSchema("users", "schema1")]);
            IsAllowedReference(c, "users", "abs") && !IsAllowedReference(c, "abs", "users")
  {
  }
}
