/** The part of the SQL syntax tree that comparison translation produces. */
module SqlAst {

  /** A SQL operator or function: its name and whether it is written between its operands. */
  datatype Function = Function(functionName: string, isInfix: bool)
}
