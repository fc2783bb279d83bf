/**
 * The node, argument and error values shared by the fbt leaf node kinds.
 *
 * `FbtTextNode` and `FbtNameNode` are two variants of one datatype. A node is
 * identified by its `id`, which is what the string-variation args map is
 * keyed by.
 */
module FbtNodeTypes {
  import opened Wrappers
  import opened IntlVariations

  type NodeId = nat

  /** `StringVariationArgsMap`: the variation value chosen for each node of one signature. */
  type ArgsMap = map<NodeId, VariationValue>

  /** The `options` of a name node: the token name and the Babel nodes of its value and gender. */
  datatype NameOptions<E> = NameOptions(name: string, value: Option<E>, gender: Option<E>)

  datatype FbtNode<E> =
    | /** A literal fragment of a phrase; `node` is a string literal or JSX text. */
      TextNode(id: NodeId, moduleName: string, node: E)
    | /** An `fbt.name(name, value, gender)` call (or `<fbt:name>`). */
      NameNode(id: NodeId, moduleName: string, node: E, options: NameOptions<E>)

  /**
   * A variation argument a node declares: `GenderStringVariationArg(fbtNode,
   * value, candidates)` owned by the node `owner`.
   */
  datatype StringVariationArg<E> =
    GenderStringVariationArg(owner: NodeId, value: Option<E>, candidates: seq<VariationValue>)

  /** An argument of a generated runtime call: a fresh string literal or a Babel node passed through. */
  datatype CallArg<E> = StringLiteralArg(literal: string) | ExprArg(expr: E)

  /** The call `createFbtRuntimeArgCallExpression(fbtNode, args)` builds. */
  datatype FbtRuntimeArg<E> = FbtRuntimeArg(owner: NodeId, moduleName: string, args: seq<CallArg<E>>)

  datatype ErrorReason =
    | /** The first argument of `<moduleName>.name` is not a string literal; `got` is its type, if it is present. */
      NameNotStringLiteral(moduleName: string, got: Option<string>)
    | /** `enforceBabelNodeCallExpressionArg` rejected the argument described by `argName` */
      NotCallExpressionArg(argName: string)
    | /** `argsMap.mustHave(node)` found no entry for the node */
      MissingVariationArg(owner: NodeId)

  /** `errorAt(node, error)`: an error located at a Babel node. */
  datatype FbtError<E> = ErrorAt(node: E, reason: ErrorReason)
}
