/**
 * The parts of the Babel AST that the fbt node classes consult, kept abstract.
 *
 * A Babel node is a value of the type parameter `E`. The predicates that
 * `@babel/types` and `FbtUtil` provide are fields of a `Babel<E>` record, so
 * every property proved about the node model holds for every choice of them.
 */
module BabelTypes {
  import opened Wrappers

  datatype Babel<!E> = Babel(
    /** `isStringLiteral(node)` of `@babel/types`. */
    isStringLiteral: E -> bool,
    /** `isJSXText(node)` of `@babel/types`. */
    isJSXText: E -> bool,
    /** `node.value` of a string literal or a JSX text node. */
    literalValue: E -> string,
    /** `node.type`, which the invariant message of `fbt.name` reports. */
    nodeType: E -> string,
    /** Whether `enforceBabelNodeCallExpressionArg` accepts an argument, which may be absent. */
    isCallExpressionArg: Option<E> -> bool)

  /**
   * The `i`-th call argument of a destructuring `let [a, b, c] = args`:
   * `None` (JavaScript `undefined`) when the call has fewer arguments.
   */
  function Arg<E>(args: seq<E>, i: nat): (r: Option<E>)
    ensures r.Some? <==> i < |args|
    ensures r.Some? ==> r.value == args[i]
  {
    if i < |args| then Some(args[i]) else None
  }
}
