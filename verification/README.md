# Cross-schema foreign-key policy checker, modelled in Dafny

The checker lints SQL migration files against a foreign-key policy. A
configuration lists the tables of each schema. A foreign key declared on a
table of schema A may only reference a table of the same schema A. There are
two exceptions for tables the configuration does not list:

- a reference to an unlisted table is always allowed;
- a reference from an unlisted table to a listed one is denied.

This project models the policy engine of `check.go`:

- `Policy` (`policy.dfy`) builds the index `table -> (table, schema)` from the
  `schema -> [tables]` configuration (`newChecker`). It also holds the
  decision rule `isAllowedReference`.
- `Ast` (`ast.dfy`) replaces the SQL parser's statement tree with an
  algebraic datatype. A statement is CREATE TABLE with its table-level
  constraints, ALTER TABLE with its clauses, or any other statement.
- `ForeignKeyVisitor` (`visitor.dfy`) models the visitor. `ProcessCreateTable`
  and `ProcessAlterTable` walk one statement. `Enter` dispatches on the
  statement kind.
- `RuleChecker` (`checker.dfy`) models `check`. It visits every statement in
  order and returns every violation. It also states the repository's
  end-to-end test scenario.
- `Wrappers` (`wrappers.dfy`) holds `Option` and `Result`.

The specification of each operation is independent of the code that computes
it:

- Construction fails exactly when a table name occurs at two positions of the
  configuration (`HasDuplicate`).
- On success the index is exactly `IndexesConfig`. That predicate mentions
  only the configuration, so the result does not depend on the order in which
  Go's `range` visits the schemas.
- The decision rule is characterised as: the target is unlisted, or both
  tables have the same owning schema.
- A statement's violations are specified as a pipeline: take the
  foreign-key targets, keep those the rule denies, and turn each into a
  violation. The loops are proved to compute exactly that. Membership lemmas
  turn the pipeline into an if-and-only-if on single violations.

## Model

| member | source | states |
|---|---|---|
| `Policy.NewChecker` | check.go:21-37 | Construction fails exactly when some table name is listed twice, under two schemas or twice under one. The error names a table that really is listed twice. On success the index keys are exactly the listed tables, and each maps to itself and the schema it was listed under. This holds for every order of visiting the schemas. |
| `Policy.IndexDeterminedByConfig` | check.go:22-36 | Two indexes that both index the same configuration are equal. So a successful construction yields the same checker whatever the map iteration order. |
| `Policy.OwningSchemaOfConfig` | check.go:29-32 | Under a built index, a listed table is owned by the schema it is listed under, and an unlisted table has no owner. |
| `Policy.IsAllowedReference` | check.go:59-73 | A reference is allowed exactly when the target is not in the index, or the source and target have the same owning schema. An unknown source therefore never reaches a known target. |
| `Policy.UnknownTargetAllowed` | check.go:63-68 | A reference to a table outside the configuration is allowed for every source, listed or not. |
| `Policy.UnknownSourceKnownTargetDenied` | check.go:69-71 | A table outside the configuration may not reference a listed table. |
| `Policy.SameSchemaAllowedBothWays` | check.go:72 | Two tables listed under the same schema may reference each other in both directions. |
| `Policy.CrossSchemaDenied` | check.go:72 | A table listed under one schema may not reference a table listed under a different schema. |
| `Policy.RuleIsAsymmetric` | check.go:66-71 | The rule is not symmetric. With only `users` listed, `users -> abs` is allowed and `abs -> users` is denied. |
| `ForeignKeyVisitor.ProcessCreateTable` | check.go:115-131 | Appends to the results, in constraint order, one violation tagged "Create Table" at 0, 0 for each foreign-key constraint whose (statement table, referenced table) pair is denied. Nothing else is appended. |
| `ForeignKeyVisitor.ProcessAlterTable` | check.go:133-149 | Appends, in clause order, one violation tagged "Alter Table" at 0, 0 for each ADD CONSTRAINT clause that adds a foreign key whose pair is denied. Every other clause is ignored. |
| `ForeignKeyVisitor.Enter` | check.go:101-109 | CREATE TABLE and ALTER TABLE statements append their violations. Every other statement kind appends nothing. |
| `ForeignKeyVisitor.CreateTableViolationsExact` | check.go:117-129 | A violation is reported for a CREATE TABLE exactly when it is tagged "Create Table" from the statement's table at 0, 0, a foreign key to its target is among the constraints, and the pair is denied. |
| `ForeignKeyVisitor.AlterTableViolationsExact` | check.go:135-147 | A violation is reported for an ALTER TABLE exactly when it is tagged "Alter Table" from the statement's table at 0, 0, an ADD CONSTRAINT clause adds a foreign key to its target, and the pair is denied. |
| `ForeignKeyVisitor.NonForeignKeysIgnored` | check.go:118 | A CREATE TABLE whose constraints include no foreign key reports nothing. |
| `ForeignKeyVisitor.ForeignKeyTargetsMembership` | check.go:117-119 | A table is a foreign-key target of a constraint list exactly when the list holds a foreign key to that table. |
| `ForeignKeyVisitor.AddedConstraintsMembership` | check.go:135-136 | A constraint is considered for an ALTER TABLE exactly when an ADD CONSTRAINT clause carries it. |
| `ForeignKeyVisitor.DeniedMembership` | check.go:120 | Filtering keeps exactly the targets the rule denies for the source. |
| `ForeignKeyVisitor.ReportMembership` | check.go:121-127 | A report holds exactly the violations with the statement tag, the source table, a target from the list, and row and column 0. |
| `RuleChecker.Check` | check.go:39-57 | A parse failure is returned as an error and nothing is checked. Otherwise the result is the concatenation of every statement's violations, in input order. |
| `RuleChecker.AllViolationsAppend` | check.go:47-49 | Checking a concatenation of statement lists gives the concatenation of their results. There is no early exit and no interaction between statements. |
| `RuleChecker.AllViolationsMembership` | check.go:47-55 | A violation is in the result exactly when some statement of the input reports it. |
| `RuleChecker.AllViolationsDenied` | check.go:115-149 | Every returned violation has a (source, target) pair the rule denies. It is at row 0, column 0, and is tagged "Create Table" or "Alter Table". |
| `RuleChecker.OtherStatementIgnored` | check.go:101-108 | Inserting a statement of any other kind anywhere in the input leaves the result unchanged. |
| `RuleChecker.FixtureConfigBuilds` | main_test.go:22-31 | The test configuration lists no table twice. By the contract of `NewChecker`, building the checker from it succeeds, as the test expects (no error). |
| `RuleChecker.FixtureScenario` | main_test.go:22-30 | Under the test configuration, which builds, the test's three expected `source -> target` pairs are reported: `users -> addresses` and `addresses -> users` from one file, and `abs -> users` from a second. `abs -> users` is an unlisted source referencing a listed target. The statements are a reconstruction written to yield those pairs. Same-schema and unlisted-target references in them are not reported. |

## Left out

- The SQL parser (`parser.New`, `ParseSQL`, check.go:40-44) is a foreign library. `Check` takes the parser's outcome as input: a parse failure, or the statement sequence.
- The visitor's descent below statement level (`Accept` walking child nodes, `Leave`). CREATE TABLE and ALTER TABLE nodes never occur inside other nodes, so the model dispatches once per statement.
- Inline column-level `REFERENCES` clauses are not table-level constraints. The code never looks at them, and neither does the model.
- A foreign-key constraint always carries its referenced table, and an ADD CONSTRAINT clause always carries its constraint. The parser always supplies both. The nil dereference Go would hit otherwise is not modelled.
- Table names are the parser's bare original-case names, without any schema qualifier, compared as exact strings. `REFERENCES schema2.users` is compared as `users`. No case folding is modelled.
- `Policy.NewChecker`: Go's map iteration order is unspecified, so it is a parameter (`order`) that visits each schema exactly once. The contract says only that the error names some duplicated table, not which one. Which table is named depends on the order.
- The visitor's `Lines` field (check.go:90) and the `context.Context` argument affect no decision.
- `violation.String` (check.go:83-85) is string formatting that the core does not use.
- All of main.go: flag parsing, JSON config loading, `filepath.Walk` file discovery, file reading, printing, exit codes, and the report line format at main.go:74. These are I/O glue.
- main_test.go drives that I/O path against SQL test files that are not part of this model. `FixtureScenario` restates its configuration and its three expected `source -> target` pairs. The test compares those pairs as an unordered set and without statement tags. The statements the lemma checks are a reconstruction, not the files' contents.
