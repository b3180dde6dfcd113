/**
 * What the crate root and the function lowering provide to the module
 * lowering: the error type, the rule check and the lowered function.
 */
module Ast {
  import opened Wrappers
  import opened ParseTree

  /**
   * Lowering errors. `InvalidState` carries a fixed message, `InvalidRule`
   * the context and the offending rule; `RuleMismatch` is what the rule check
   * reports when a node is not tagged as expected.
   */
  datatype AstError =
    | InvalidState(msg: string)
    | InvalidRule(context: string, rule: Rule)
    | RuleMismatch(expected: Rule, actual: Rule)

  type AstResult<T> = Result<T, AstError>

  /** A lowered function declaration: its name and the declaration it came from. */
  datatype SourceFunction = SourceFunction(name: string, decl: Node)

  /** The function lowering, a collaborator whose result is taken as given. */
  type FunctionLowering = Node -> AstResult<SourceFunction>

  /** The rule check: succeeds exactly when `node` is tagged `expected`. */
  function ExpectRule(node: Node, expected: Rule): (r: AstResult<()>)
    ensures r.Ok? <==> node.rule == expected
    ensures r.Err? ==> r.error == RuleMismatch(expected, node.rule)
  {
    if node.rule == expected then Ok(()) else Err(RuleMismatch(expected, node.rule))
  }
}
