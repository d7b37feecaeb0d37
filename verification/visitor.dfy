/**
 * The foreign-key visitor: for one CREATE TABLE or ALTER TABLE statement, every
 * foreign key whose (statement table, referenced table) pair the policy denies
 * becomes a violation, in constraint order.
 */
module ForeignKeyVisitor {
  import opened Ast
  import opened Policy

  /** One denied foreign key. The source location is never filled in and stays 0, 0. */
  datatype Violation = Violation(stmt: string, sourceTable: string, targetTable: string, row: int, column: int)

  const CreateTableLabel: string := "Create Table"
  const AlterTableLabel: string := "Alter Table"

  /** The referenced tables of the foreign-key constraints among `constraints`, in order. */
  function ForeignKeyTargets(constraints: seq<Constraint>): seq<string>
  {
    if constraints == [] then []
    else
      (if constraints[0].ForeignKey? then [constraints[0].referTable] else [])
      + ForeignKeyTargets(constraints[1..])
  }

  /** The constraints that ADD CONSTRAINT clauses add, in clause order; other clauses add none. */
  function AddedConstraints(specs: seq<AlterTableSpec>): seq<Constraint>
  {
    if specs == [] then []
    else
      (if specs[0].AddConstraint? then [specs[0].constraint] else [])
      + AddedConstraints(specs[1..])
  }

  /** The targets, in order, that `source` may not reference under the policy. */
  function Denied(c: Checker, source: string, targets: seq<string>): seq<string>
  {
    if targets == [] then []
    else
      (if !IsAllowedReference(c, source, targets[0]) then [targets[0]] else [])
      + Denied(c, source, targets[1..])
  }

  /** One violation per target, tagged with the statement tag and the source table. */
  function Report(tag: string, source: string, targets: seq<string>): seq<Violation>
  {
    seq(|targets|, i requires 0 <= i < |targets| => Violation(tag, source, targets[i], 0, 0))
  }

  /** What one CREATE TABLE statement reports. */
  function CreateTableViolations(c: Checker, node: CreateTableStmt): seq<Violation>
  {
    Report(CreateTableLabel, node.table, Denied(c, node.table, ForeignKeyTargets(node.constraints)))
  }

  /** What one ALTER TABLE statement reports: the same rule over the constraints it adds. */
  function AlterTableViolations(c: Checker, node: AlterTableStmt): seq<Violation>
  {
    Report(AlterTableLabel, node.table, Denied(c, node.table, ForeignKeyTargets(AddedConstraints(node.specs))))
  }

  /** What one statement reports; statements of any other kind report nothing. */
  function StatementViolations(c: Checker, stmt: Stmt): seq<Violation>
  {
    match stmt
    case CreateTable(node) => CreateTableViolations(c, node)
    case AlterTable(node) => AlterTableViolations(c, node)
    case OtherStmt => []
  }

  lemma {:induction false} ForeignKeyTargetsAppend(a: seq<Constraint>, b: seq<Constraint>)
    ensures ForeignKeyTargets(a + b) == ForeignKeyTargets(a) + ForeignKeyTargets(b)
  {
    if a == [] {
      assert a + b == b;
    } else {
      assert (a + b)[1..] == a[1..] + b;
      ForeignKeyTargetsAppend(a[1..], b);
    }
  }

  lemma {:induction false} AddedConstraintsAppend(a: seq<AlterTableSpec>, b: seq<AlterTableSpec>)
    ensures AddedConstraints(a + b) == AddedConstraints(a) + AddedConstraints(b)
  {
    if a == [] {
      assert a + b == b;
    } else {
      assert (a + b)[0] == a[0] && (a + b)[1..] == a[1..] + b;
      AddedConstraintsAppend(a[1..], b);
    }
  }

  lemma {:induction false} DeniedAppend(c: Checker, source: string, a: seq<string>, b: seq<string>)
    ensures Denied(c, source, a + b) == Denied(c, source, a) + Denied(c, source, b)
  {
    if a == [] {
      assert a + b == b;
    } else {
      assert (a + b)[1..] == a[1..] + b;
      DeniedAppend(c, source, a[1..], b);
    }
  }

  lemma ReportAppend(tag: string, source: string, a: seq<string>, b: seq<string>)
    ensures Report(tag, source, a + b) == Report(tag, source, a) + Report(tag, source, b)
  {
  }

  /** A report holds exactly the violations tagged `tag`, from `source`, at 0, 0, to one of the targets. */
  lemma ReportMembership(tag: string, source: string, targets: seq<string>, v: Violation)
    ensures v in Report(tag, source, targets) <==>
      v == Violation(tag, source, v.targetTable, 0, 0) && v.targetTable in targets
  {
    var r := Report(tag, source, targets);
    if v.targetTable in targets && v == Violation(tag, source, v.targetTable, 0, 0) {
      var i :| 0 <= i < |targets| && targets[i] == v.targetTable;
      assert r[i] == v;
    }
  }

  /** A table is a foreign-key target of the list exactly when a foreign key to it is in the list. */
  lemma {:induction false} ForeignKeyTargetsMembership(constraints: seq<Constraint>, table: string)
    ensures table in ForeignKeyTargets(constraints) <==> ForeignKey(table) in constraints
  {
    if constraints != [] {
      assert constraints == [constraints[0]] + constraints[1..];
      ForeignKeyTargetsMembership(constraints[1..], table);
    }
  }

  /** A constraint is added by the clauses exactly when an ADD CONSTRAINT clause carries it. */
  lemma {:induction false} AddedConstraintsMembership(specs: seq<AlterTableSpec>, constraint: Constraint)
    ensures constraint in AddedConstraints(specs) <==> AddConstraint(constraint) in specs
  {
    if specs != [] {
      assert specs == [specs[0]] + specs[1..];
      AddedConstraintsMembership(specs[1..], constraint);
    }
  }

  /** `Denied` keeps exactly the targets the policy rejects. */
  lemma {:induction false} DeniedMembership(c: Checker, source: string, targets: seq<string>, table: string)
    ensures table in Denied(c, source, targets) <==> table in targets && !IsAllowedReference(c, source, table)
  {
    if targets != [] {
      assert targets == [targets[0]] + targets[1..];
      DeniedMembership(c, source, targets[1..], table);
    }
  }

  /** A list without foreign keys yields no targets, so it can never be reported. */
  lemma {:induction false} NonForeignKeysIgnored(c: Checker, node: CreateTableStmt)
    requires forall i :: 0 <= i < |node.constraints| ==> !node.constraints[i].ForeignKey?
    ensures CreateTableViolations(c, node) == []
  {
    var targets := ForeignKeyTargets(node.constraints);
    if targets != [] {
      ForeignKeyTargetsMembership(node.constraints, targets[0]);
    }
  }

  /**
   * A CREATE TABLE statement reports a violation exactly for each foreign key whose
   * (statement table, referenced table) pair is denied, tagged "Create Table" at 0, 0.
   */
  lemma CreateTableViolationsExact(c: Checker, node: CreateTableStmt, v: Violation)
    ensures v in CreateTableViolations(c, node) <==>
      && v == Violation(CreateTableLabel, node.table, v.targetTable, 0, 0)
      && ForeignKey(v.targetTable) in node.constraints
      && !IsAllowedReference(c, node.table, v.targetTable)
  {
    var targets := ForeignKeyTargets(node.constraints);
    ReportMembership(CreateTableLabel, node.table, Denied(c, node.table, targets), v);
    DeniedMembership(c, node.table, targets, v.targetTable);
    ForeignKeyTargetsMembership(node.constraints, v.targetTable);
  }

  /**
   * An ALTER TABLE statement reports a violation exactly for each ADD CONSTRAINT clause
   * adding a foreign key whose pair is denied, tagged "Alter Table" at 0, 0.
   */
  lemma AlterTableViolationsExact(c: Checker, node: AlterTableStmt, v: Violation)
    ensures v in AlterTableViolations(c, node) <==>
      && v == Violation(AlterTableLabel, node.table, v.targetTable, 0, 0)
      && AddConstraint(ForeignKey(v.targetTable)) in node.specs
      && !IsAllowedReference(c, node.table, v.targetTable)
  {
    var added := AddedConstraints(node.specs);
    ReportMembership(AlterTableLabel, node.table, Denied(c, node.table, ForeignKeyTargets(added)), v);
    DeniedMembership(c, node.table, ForeignKeyTargets(added), v.targetTable);
    ForeignKeyTargetsMembership(added, v.targetTable);
    AddedConstraintsMembership(node.specs, ForeignKey(v.targetTable));
  }

  /** Walks the table-level constraints of a CREATE TABLE, appending each denied foreign key. */
  method ProcessCreateTable(c: Checker, results: seq<Violation>, node: CreateTableStmt)
    returns (results': seq<Violation>)
    ensures results' == results + CreateTableViolations(c, node)
  {
    var sourceTable := node.table;
    results' := results;
    var i := 0;
    while i < |node.constraints|
      invariant 0 <= i <= |node.constraints|
      invariant results' == results + Report(CreateTableLabel, sourceTable,
                                             Denied(c, sourceTable, ForeignKeyTargets(node.constraints[..i])))
    {
      var constraint := node.constraints[i];
      ghost var before := ForeignKeyTargets(node.constraints[..i]);
      ghost var step := ForeignKeyTargets([constraint]);
      assert node.constraints[..i + 1] == node.constraints[..i] + [constraint];
      ForeignKeyTargetsAppend(node.constraints[..i], [constraint]);
      DeniedAppend(c, sourceTable, before, step);
      ReportAppend(CreateTableLabel, sourceTable, Denied(c, sourceTable, before), Denied(c, sourceTable, step));
      if constraint.ForeignKey? {
        var targetTable := constraint.referTable;
        if !IsAllowedReference(c, sourceTable, targetTable) {
          results' := results' + [Violation(CreateTableLabel, sourceTable, targetTable, 0, 0)];
        }
      }
      i := i + 1;
    }
    assert node.constraints[..i] == node.constraints;
  }

  /** Walks the clauses of an ALTER TABLE, appending each denied foreign key it adds. */
  method ProcessAlterTable(c: Checker, results: seq<Violation>, node: AlterTableStmt)
    returns (results': seq<Violation>)
    ensures results' == results + AlterTableViolations(c, node)
  {
    var sourceTable := node.table;
    results' := results;
    var i := 0;
    while i < |node.specs|
      invariant 0 <= i <= |node.specs|
      invariant results' == results + Report(AlterTableLabel, sourceTable,
                                             Denied(c, sourceTable, ForeignKeyTargets(AddedConstraints(node.specs[..i]))))
    {
      var spec := node.specs[i];
      ghost var before := ForeignKeyTargets(AddedConstraints(node.specs[..i]));
      ghost var step := ForeignKeyTargets(AddedConstraints([spec]));
      assert node.specs[..i + 1] == node.specs[..i] + [spec];
      AddedConstraintsAppend(node.specs[..i], [spec]);
      ForeignKeyTargetsAppend(AddedConstraints(node.specs[..i]), AddedConstraints([spec]));
      DeniedAppend(c, sourceTable, before, step);
      ReportAppend(AlterTableLabel, sourceTable, Denied(c, sourceTable, before), Denied(c, sourceTable, step));
      if spec.AddConstraint? && spec.constraint.ForeignKey? {
        var targetTable := spec.constraint.referTable;
        if !IsAllowedReference(c, sourceTable, targetTable) {
          results' := results' + [Violation(AlterTableLabel, sourceTable, targetTable, 0, 0)];
        }
      }
      i := i + 1;
    }
    assert node.specs[..i] == node.specs;
  }

  /** The visitor's entry hook: dispatches on the statement kind and ignores every other kind. */
  method Enter(c: Checker, results: seq<Violation>, stmt: Stmt) returns (results': seq<Violation>)
    ensures results' == results + StatementViolations(c, stmt)
  {
    match stmt {
      case CreateTable(node) =>
        results' := ProcessCreateTable(c, results, node);
      case AlterTable(node) =>
        results' := ProcessAlterTable(c, results, node);
      case OtherStmt =>
        results' := results;
    }
  }
}
