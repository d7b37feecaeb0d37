/**
 * The few shapes of a parsed SQL statement that the foreign-key rule looks at.
 * Everything else a statement may hold (columns, options, inline column-level
 * references) is absent, because the rule never inspects it.
 */
module Ast {

  /**
   * A table-level constraint of CREATE TABLE or ALTER TABLE ... ADD CONSTRAINT.
   * Only a foreign key names a referenced table, which the parser always supplies; it is
   * the bare original-case name, so `REFERENCES schema2.users` refers to `users`.
   */
  datatype Constraint =
    | NoConstraint
    | PrimaryKey
    | Key
    | Index
    | Uniq
    | UniqKey
    | UniqIndex
    | Fulltext
    | CheckConstraint
    | ForeignKey(referTable: string)

  /**
   * Kinds of ALTER TABLE clause other than ADD CONSTRAINT, for example; `OtherClause`
   * stands for every remaining kind (rename column, alter column, lock, algorithm,
   * partitioning, ...). The rule ignores all of them alike.
   */
  datatype AlterTableType =
    | AddColumns
    | DropColumn
    | DropPrimaryKey
    | DropIndex
    | DropForeignKey
    | ModifyColumn
    | ChangeColumn
    | RenameTable
    | TableOption
    | OtherClause

  /** One clause of an ALTER TABLE statement. */
  datatype AlterTableSpec = AddConstraint(constraint: Constraint) | OtherSpec(tp: AlterTableType)

  /**
   * CREATE TABLE: the table's bare name in its original case, without any schema
   * qualifier, and its table-level constraints, in order.
   */
  datatype CreateTableStmt = CreateTableStmt(table: string, constraints: seq<Constraint>)

  /** ALTER TABLE: the table's bare, unqualified, original-case name and its clauses, in order. */
  datatype AlterTableStmt = AlterTableStmt(table: string, specs: seq<AlterTableSpec>)

  /** A statement: the two kinds the rule inspects, and every other kind (SELECT, INSERT, ...). */
  datatype Stmt = CreateTable(create: CreateTableStmt) | AlterTable(alter: AlterTableStmt) | OtherStmt

  /** The parser's failure, with its message. */
  datatype ParseError = ParseError(message: string)
}
