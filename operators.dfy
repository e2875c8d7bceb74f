/**
 * Translation of a protocol binary comparison operator into the SQL operator
 * to apply and the scalar type its right-hand operand must have.
 */
module Operators {
  import opened Wrappers
  import opened Metadata
  import N = NdcModels
  import SqlAst

  /** A translation error; only its message is observable here. */
  datatype Error = Error(message: string)

  /**
   * The translation environment, reduced to the one service comparison
   * translation uses: the catalog lookup of a comparison operator by the
   * scalar type of its left operand and the operator's protocol name.
   */
  datatype Env = Env(lookupComparison: (ScalarType, string) -> Result<ComparisonOperator, Error>)

  /**
   * `translate_comparison`: `equals` is the SQL equality operator. Equality
   * needs no lookup and requires a right-hand operand of the left operand's
   * type; any other operator is looked up, and a failed lookup is the result.
   */
  function TranslateComparison(equals: SqlAst.Function, env: Env, leftType: ScalarType, operator: N.BinaryComparisonOperator)
    : (r: Result<(SqlAst.Function, ScalarType), Error>)
    ensures operator.Equal? ==> r == Success((equals, leftType))
    ensures operator.Other? ==>
      (r.Failure? <==> env.lookupComparison(leftType, operator.name).Failure?)
    ensures operator.Other? && r.Failure? ==>
      r.error == env.lookupComparison(leftType, operator.name).error
    ensures operator.Other? && r.Success? ==>
      var op := env.lookupComparison(leftType, operator.name).value;
      r.value == (SqlAst.Function(op.operatorName, op.isInfix), op.argumentType)
  {
    match operator
    case Equal => Success((equals, leftType))
    case Other(name) =>
      var op :- env.lookupComparison(leftType, name);
      Success((SqlAst.Function(op.operatorName, op.isInfix), op.argumentType))
  }

  /** Equality never consults the catalog: every environment gives the same translation. */
  lemma EqualIgnoresCatalog(equals: SqlAst.Function, env1: Env, env2: Env, leftType: ScalarType)
    ensures TranslateComparison(equals, env1, leftType, N.Equal) == TranslateComparison(equals, env2, leftType, N.Equal)
    ensures TranslateComparison(equals, env1, leftType, N.Equal).Success?
  {
  }

  /**
   * The translation of any operator depends on the environment only through
   * the one lookup it makes: environments that agree there translate alike.
   */
  lemma TranslationDependsOnlyOnLookup(equals: SqlAst.Function, env1: Env, env2: Env, leftType: ScalarType, name: string)
    requires env1.lookupComparison(leftType, name) == env2.lookupComparison(leftType, name)
    ensures TranslateComparison(equals, env1, leftType, N.Other(name)) == TranslateComparison(equals, env2, leftType, N.Other(name))
  {
  }
}
