/**
 * One checking pass over the statements of one SQL text: every statement is
 * visited in order, with no early exit, and all violations are collected.
 */
module RuleChecker {
  import opened Wrappers
  import opened Ast
  import opened Policy
  import opened ForeignKeyVisitor

  /** A check fails only when the SQL text did not parse. */
  datatype CheckError = FailedToParse(cause: ParseError)

  /** The violations of the statements, statement after statement. */
  function AllViolations(c: Checker, stmts: seq<Stmt>): seq<Violation>
  {
    if stmts == [] then []
    else StatementViolations(c, stmts[0]) + AllViolations(c, stmts[1..])
  }

  /** Checking a sequence of statements is checking each part and concatenating. */
  lemma {:induction false} AllViolationsAppend(c: Checker, a: seq<Stmt>, b: seq<Stmt>)
    ensures AllViolations(c, a + b) == AllViolations(c, a) + AllViolations(c, b)
  {
    if a == [] {
      assert a + b == b;
    } else {
      assert (a + b)[0] == a[0] && (a + b)[1..] == a[1..] + b;
      AllViolationsAppend(c, a[1..], b);
    }
  }

  /** A violation is reported exactly when some statement of the input reports it. */
  lemma {:induction false} AllViolationsMembership(c: Checker, stmts: seq<Stmt>, v: Violation)
    ensures v in AllViolations(c, stmts) <==>
      exists k :: 0 <= k < |stmts| && v in StatementViolations(c, stmts[k])
  {
    if stmts != [] {
      AllViolationsMembership(c, stmts[1..], v);
      if v in AllViolations(c, stmts[1..]) {
        var k :| 0 <= k < |stmts[1..]| && v in StatementViolations(c, stmts[1..][k]);
        assert stmts[k + 1] == stmts[1..][k];
      }
      if exists k :: 0 <= k < |stmts| && v in StatementViolations(c, stmts[k]) {
        var k :| 0 <= k < |stmts| && v in StatementViolations(c, stmts[k]);
        if k > 0 {
          assert stmts[1..][k - 1] == stmts[k];
        }
      }
    }
  }

  /**
   * Every reported violation is a denied pair, sits at row 0 and column 0, and is
   * tagged with one of the two statement labels.
   */
  lemma AllViolationsDenied(c: Checker, stmts: seq<Stmt>, v: Violation)
    requires v in AllViolations(c, stmts)
    ensures !IsAllowedReference(c, v.sourceTable, v.targetTable)
    ensures v.row == 0 && v.column == 0
    ensures v.stmt == CreateTableLabel || v.stmt == AlterTableLabel
  {
    AllViolationsMembership(c, stmts, v);
    var k :| 0 <= k < |stmts| && v in StatementViolations(c, stmts[k]);
    match stmts[k]
    case CreateTable(node) => CreateTableViolationsExact(c, node, v);
    case AlterTable(node) => AlterTableViolationsExact(c, node, v);
  }

  /** A statement of any other kind, wherever it stands, changes nothing in the result. */
  lemma OtherStatementIgnored(c: Checker, a: seq<Stmt>, b: seq<Stmt>)
    ensures AllViolations(c, a + [OtherStmt] + b) == AllViolations(c, a + b)
  {
    var withOther := a + [OtherStmt];
    AllViolationsAppend(c, withOther, b);
    AllViolationsAppend(c, a, [OtherStmt]);
    AllViolationsAppend(c, a, b);
    assert [OtherStmt][1..] == [];
    assert AllViolations(c, [OtherStmt]) == [];
    assert AllViolations(c, withOther) == AllViolations(c, a);
  }

  /**
   * Checks the parser's outcome for one SQL text: a parse failure is reported as an
   * error and nothing is checked; otherwise every statement goes through the visitor
   * in order and the collected violations are returned.
   */
  method Check(c: Checker, parsed: Result<seq<Stmt>, ParseError>) returns (r: Result<seq<Violation>, CheckError>)
    ensures parsed.Failure? ==> r == Failure(FailedToParse(parsed.error))
    ensures parsed.Success? ==> r == Success(AllViolations(c, parsed.value))
  {
    if parsed.Failure? {
      return Failure(FailedToParse(parsed.error));
    }
    var stmtNodes := parsed.value;
    var results: seq<Violation> := [];
    var i := 0;
    while i < |stmtNodes|
      invariant 0 <= i <= |stmtNodes|
      invariant results == AllViolations(c, stmtNodes[..i])
    {
      assert stmtNodes[..i + 1] == stmtNodes[..i] + [stmtNodes[i]];
      AllViolationsAppend(c, stmtNodes[..i], [stmtNodes[i]]);
      results := Enter(c, results, stmtNodes[i]);
      i := i + 1;
    }
    assert stmtNodes[..i] == stmtNodes;

    var violations: seq<Violation> := [];
    var j := 0;
    while j < |results|
      invariant 0 <= j <= |results|
      invariant violations == results[..j]
    {
      violations := violations + [results[j]];
      j := j + 1;
    }
    assert results[..j] == results;
    return Success(violations);
  }

  /** The configuration of the repository's end-to-end test. */
  const FixtureConfig: Config := map[
    "schema1" := ["table1", "table2", "users"],
    "schema2" := ["table3", "table4", "addresses"]
  ]

  /** The test configuration lists no table twice, so building the checker from it succeeds. */
  lemma FixtureConfigBuilds()
    ensures !HasDuplicate(FixtureConfig)
  {
    forall s1, i, s2, j | Listed(FixtureConfig, s1, i) && Listed(FixtureConfig, s2, j)
                          && FixtureConfig[s1][i] == FixtureConfig[s2][j]
      ensures s1 == s2 && i == j
    {
      assert s1 == "schema1" || s1 == "schema2";
      assert s2 == "schema1" || s2 == "schema2";
    }
  }

  /** How the rule decides the pairs of the end-to-end test under its configuration. */
  lemma FixtureDecisions(c: Checker)
    requires IndexesConfig(FixtureConfig, c.byTable)
    ensures !IsAllowedReference(c, "users", "addresses") && !IsAllowedReference(c, "addresses", "users")
    ensures IsAllowedReference(c, "table1", "table2") && IsAllowedReference(c, "table1", "abs")
    ensures !IsAllowedReference(c, "abs", "users")
  {
    assert Listed(FixtureConfig, "schema1", 0) && Listed(FixtureConfig, "schema1", 1);
    assert Listed(FixtureConfig, "schema1", 2) && Listed(FixtureConfig, "schema2", 2);
    assert FixtureConfig["schema1"][0] == "table1" && FixtureConfig["schema1"][1] == "table2";
    assert FixtureConfig["schema1"][2] == "users" && FixtureConfig["schema2"][2] == "addresses";
    forall s, i | s in FixtureConfig && 0 <= i < |FixtureConfig[s]|
      ensures FixtureConfig[s][i] != "abs"
    {
      assert s == "schema1" || s == "schema2";
    }
    assert "abs" !in Tables(FixtureConfig);
  }

  /**
   * Statements reconstructed to yield the test's expected pairs; the test's own SQL
   * files are not part of this model.
   */
  const CreateUsers: Stmt := CreateTable(CreateTableStmt("users", [PrimaryKey, ForeignKey("addresses")]))
  const AlterAddresses: Stmt := AlterTable(AlterTableStmt("addresses", [AddConstraint(ForeignKey("users"))]))
  const CreateTable1: Stmt := CreateTable(CreateTableStmt("table1", [ForeignKey("table2"), ForeignKey("abs")]))
  const CreateAbs: Stmt := CreateTable(CreateTableStmt("abs", [ForeignKey("users")]))

  lemma CreateUsersReported(c: Checker)
    requires !IsAllowedReference(c, "users", "addresses")
    ensures StatementViolations(c, CreateUsers) == [Violation(CreateTableLabel, "users", "addresses", 0, 0)]
  {
    assert ForeignKeyTargets([PrimaryKey, ForeignKey("addresses")]) == ["addresses"];
    assert Denied(c, "users", ["addresses"]) == ["addresses"];
  }

  lemma AlterAddressesReported(c: Checker)
    requires !IsAllowedReference(c, "addresses", "users")
    ensures StatementViolations(c, AlterAddresses) == [Violation(AlterTableLabel, "addresses", "users", 0, 0)]
  {
    assert AddedConstraints([AddConstraint(ForeignKey("users"))]) == [ForeignKey("users")];
    assert ForeignKeyTargets([ForeignKey("users")]) == ["users"];
    assert Denied(c, "addresses", ["users"]) == ["users"];
  }

  lemma CreateTable1NotReported(c: Checker)
    requires IsAllowedReference(c, "table1", "table2") && IsAllowedReference(c, "table1", "abs")
    ensures StatementViolations(c, CreateTable1) == []
  {
    assert ForeignKeyTargets([ForeignKey("table2"), ForeignKey("abs")]) == ["table2", "abs"];
    assert ["table2", "abs"][1..] == ["abs"];
    assert Denied(c, "table1", ["abs"]) == [];
  }

  lemma CreateAbsReported(c: Checker)
    requires !IsAllowedReference(c, "abs", "users")
    ensures StatementViolations(c, CreateAbs) == [Violation(CreateTableLabel, "abs", "users", 0, 0)]
  {
    assert ForeignKeyTargets([ForeignKey("users")]) == ["users"];
    assert Denied(c, "abs", ["users"]) == ["users"];
  }

  /**
   * The end-to-end scenario. The test configuration builds. Over statements written to
   * produce the test's expected pairs, `users -> addresses` and `addresses -> users`
   * cross schemas and are reported; `table1 -> table2` stays in one schema and
   * `table1 -> abs` leaves the policy, so neither is; and, from a second file,
   * `abs -> users`, an unknown table referencing a known one, is reported.
   */
  lemma FixtureScenario(c: Checker)
    requires IndexesConfig(FixtureConfig, c.byTable)
    ensures !HasDuplicate(FixtureConfig)
    ensures AllViolations(c, [CreateUsers, AlterAddresses, CreateTable1, OtherStmt]) == [
              Violation(CreateTableLabel, "users", "addresses", 0, 0),
              Violation(AlterTableLabel, "addresses", "users", 0, 0)
            ]
    ensures AllViolations(c, [CreateAbs]) == [Violation(CreateTableLabel, "abs", "users", 0, 0)]
  {
    FixtureConfigBuilds();
    FixtureDecisions(c);
    CreateUsersReported(c);
    AlterAddressesReported(c);
    CreateTable1NotReported(c);
    CreateAbsReported(c);
    var file := [CreateUsers, AlterAddresses, CreateTable1, OtherStmt];
    assert AllViolations(c, file[3..]) == [];
    assert AllViolations(c, file[2..]) == StatementViolations(c, CreateTable1) + AllViolations(c, file[3..]);
    assert AllViolations(c, file[1..]) == StatementViolations(c, AlterAddresses) + AllViolations(c, file[2..]);
    assert AllViolations(c, [CreateAbs]) == StatementViolations(c, CreateAbs) + AllViolations(c, []);
  }
}
