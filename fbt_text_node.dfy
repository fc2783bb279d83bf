/** `FbtTextNode`: the text literals of an `fbt()` call or `<fbt>` element. */
module FbtTextNode {
  import opened Wrappers
  import opened BabelTypes
  import opened FbtNodeTypes

  /** A text node for `node` when it is JSX text or a string literal, and `null` otherwise. */
  function FromBabelNode<E>(b: Babel<E>, id: NodeId, moduleName: string, node: E): (r: Option<FbtNode<E>>)
    ensures r.Some? <==> b.isJSXText(node) || b.isStringLiteral(node)
    ensures r.Some? ==> r.value.TextNode? && r.value.id == id && r.value.node == node
    ensures r.Some? ==> r.value.moduleName == moduleName
  {
    if b.isJSXText(node) || b.isStringLiteral(node) then Some(TextNode(id, moduleName, node)) else None
  }

  /** A text node declares no variation argument. */
  function GetArgsForStringVariationCalc<E>(n: FbtNode<E>): (r: seq<StringVariationArg<E>>)
    requires n.TextNode?
    ensures |r| == 0
  {
    []
  }

  /** The literal value of the node; the args map is not consulted. */
  function GetText<E>(b: Babel<E>, n: FbtNode<E>, argsMap: ArgsMap): (r: string)
    requires n.TextNode?
    ensures r == b.literalValue(n.node)
  {
    b.literalValue(n.node)
  }

  /** A text node has no runtime argument. */
  function GetFbtRuntimeArg<E>(n: FbtNode<E>): (r: Option<FbtRuntimeArg<E>>)
    requires n.TextNode?
    ensures r.None?
  {
    None
  }
}
