/** `FbtNameNode`: an `fbt.name(name, value, gender)` call or an `<fbt:name>` element. */
module FbtNameNode {
  import opened Wrappers
  import opened BabelTypes
  import opened IntlVariations
  import opened FbtNodeTypes

  /** The first call argument is present and a string literal. */
  predicate IsNameLiteral<E>(b: Babel<E>, arg: Option<E>)
  {
    arg.Some? && b.isStringLiteral(arg.value)
  }

  /** The `got` part of the invariant message: the type of the argument, if there is one. */
  function TypeOf<E>(b: Babel<E>, arg: Option<E>): Option<string>
  {
    if arg.Some? then Some(b.nodeType(arg.value)) else None
  }

  /**
   * `getOptions`: validates the call arguments `[name, value, gender]`.
   * It fails, located at `node`, with the first violated condition: the name
   * is not a string literal, then the value, then the gender is not an
   * acceptable call argument. Only when all three hold does it yield options.
   */
  function GetOptions<E>(b: Babel<E>, moduleName: string, node: E, callArgs: seq<E>)
    : (r: Result<NameOptions<E>, FbtError<E>>)
    ensures r.Success? <==>
      && IsNameLiteral(b, Arg(callArgs, 0))
      && b.isCallExpressionArg(Arg(callArgs, 1))
      && b.isCallExpressionArg(Arg(callArgs, 2))
    ensures r.Success? ==>
      && r.value.name == b.literalValue(callArgs[0])
      && r.value.value == Arg(callArgs, 1)
      && r.value.gender == Arg(callArgs, 2)
    ensures r.Failure? ==> r.error.node == node
    ensures !IsNameLiteral(b, Arg(callArgs, 0)) ==>
      r.Failure? && r.error.reason == NameNotStringLiteral(moduleName, TypeOf(b, Arg(callArgs, 0)))
    ensures IsNameLiteral(b, Arg(callArgs, 0)) && !b.isCallExpressionArg(Arg(callArgs, 1)) ==>
      r.Failure? && r.error.reason == NotCallExpressionArg("Second argument of " + moduleName + ".name")
    ensures (IsNameLiteral(b, Arg(callArgs, 0)) && b.isCallExpressionArg(Arg(callArgs, 1))
             && !b.isCallExpressionArg(Arg(callArgs, 2))) ==>
      r.Failure? && r.error.reason == NotCallExpressionArg("Third argument of " + moduleName + ".name")
  {
    var name, value, gender := Arg(callArgs, 0), Arg(callArgs, 1), Arg(callArgs, 2);
    if !IsNameLiteral(b, name) then
      Failure(ErrorAt(node, NameNotStringLiteral(moduleName, TypeOf(b, name))))
    else if !b.isCallExpressionArg(value) then
      Failure(ErrorAt(node, NotCallExpressionArg("Second argument of " + moduleName + ".name")))
    else if !b.isCallExpressionArg(gender) then
      Failure(ErrorAt(node, NotCallExpressionArg("Third argument of " + moduleName + ".name")))
    else
      Success(NameOptions(b.literalValue(name.value), value, gender))
  }

  /**
   * A name node for the call `node` with arguments `callArgs`: its options are
   * those `getOptions` computes, and an invalid call yields the error instead.
   */
  function Create<E>(b: Babel<E>, id: NodeId, moduleName: string, node: E, callArgs: seq<E>)
    : (r: Result<FbtNode<E>, FbtError<E>>)
    ensures r.Success? <==> GetOptions(b, moduleName, node, callArgs).Success?
    ensures r.Success? ==>
      && r.value.NameNode?
      && r.value.id == id && r.value.moduleName == moduleName && r.value.node == node
      && r.value.options == GetOptions(b, moduleName, node, callArgs).value
    ensures r.Failure? ==> r.error == GetOptions(b, moduleName, node, callArgs).error
  {
    match GetOptions(b, moduleName, node, callArgs)
    case Success(options) => Success(NameNode(id, moduleName, node, options))
    case Failure(e) => Failure(e)
  }

  /** One gender axis owned by this node, driven by its gender, with `GENDER_ANY` as its only candidate. */
  function GetArgsForStringVariationCalc<E>(n: FbtNode<E>): (r: seq<StringVariationArg<E>>)
    requires n.NameNode?
    ensures |r| == 1
    ensures r[0].owner == n.id && r[0].value == n.options.gender
    ensures r[0].candidates == [GenderAny]
  {
    [GenderStringVariationArg(n.id, n.options.gender, [GenderAny])]
  }

  /** The declared name; the args map is not consulted. */
  function GetTokenName<E>(n: FbtNode<E>, argsMap: ArgsMap): (r: string)
    requires n.NameNode?
    ensures r == n.options.name
  {
    n.options.name
  }

  /** `tokenNameToTextPattern`: the token name between braces, `{name}`. */
  function TokenNameToTextPattern(name: string): (r: string)
    ensures |r| == |name| + 2
    ensures r[0] == '{' && r[|r| - 1] == '}' && r[1..|r| - 1] == name
  {
    "{" + name + "}"
  }

  /**
   * `getText`: the token pattern of the name, provided the args map holds an
   * entry for this node; otherwise `mustHave` fails and the error is located
   * at the node.
   */
  function GetText<E>(n: FbtNode<E>, argsMap: ArgsMap): (r: Result<string, FbtError<E>>)
    requires n.NameNode?
    ensures r.Success? <==> n.id in argsMap
    ensures r.Success? ==> r.value == TokenNameToTextPattern(GetTokenName(n, argsMap))
    ensures r.Failure? ==> r.error == ErrorAt(n.node, MissingVariationArg(n.id))
  {
    if n.id in argsMap then Success(TokenNameToTextPattern(n.options.name))
    else Failure(ErrorAt(n.node, MissingVariationArg(n.id)))
  }

  /** The runtime argument at position 1 or 2 of `[name, value, gender]`, if present. */
  function Present<E>(arg: Option<E>): seq<CallArg<E>>
  {
    if arg.Some? then [ExprArg(arg.value)] else []
  }

  /**
   * `getFbtRuntimeArg`: the runtime call for this node, whose arguments are
   * the name as a string literal, then the value, then the gender, leaving
   * out only the absent ones.
   */
  function GetFbtRuntimeArg<E>(n: FbtNode<E>): (r: FbtRuntimeArg<E>)
    requires n.NameNode?
    ensures r.owner == n.id && r.moduleName == n.moduleName
    ensures |r.args| == 1 + |Present(n.options.value)| + |Present(n.options.gender)|
    ensures r.args[0] == StringLiteralArg(n.options.name)
    ensures n.options.value.Some? ==> r.args[1] == ExprArg(n.options.value.value)
    ensures n.options.gender.Some? ==> r.args[|r.args| - 1] == ExprArg(n.options.gender.value)
    ensures forall i :: 1 <= i < |r.args| ==> r.args[i].ExprArg?
  {
    FbtRuntimeArg(n.id, n.moduleName,
      [StringLiteralArg(n.options.name)] + Present(n.options.value) + Present(n.options.gender))
  }

  /** Distinct names render to distinct token patterns, so a rendered token identifies its name. */
  lemma TokenPatternInjective(a: string, c: string)
    requires TokenNameToTextPattern(a) == TokenNameToTextPattern(c)
    ensures a == c
  {
    var p := TokenNameToTextPattern(a);
    assert a == p[1..|p| - 1];
  }

  /**
   * A node built from a complete call `fbt.name(name, value, gender)` emits a
   * runtime call that passes the same three arguments back, in order, with
   * the name rebuilt as a string literal of the same value.
   */
  lemma RuntimeArgRepeatsCall<E>(b: Babel<E>, id: NodeId, moduleName: string, node: E, name: E, value: E, gender: E)
    requires Create(b, id, moduleName, node, [name, value, gender]).Success?
    ensures var n := Create(b, id, moduleName, node, [name, value, gender]).value;
      GetFbtRuntimeArg(n).args == [StringLiteralArg(b.literalValue(name)), ExprArg(value), ExprArg(gender)]
  {
  }

  /** A node's text and its token name agree whatever the args map, as long as it has the node's entry. */
  lemma TextNamesToken<E>(n: FbtNode<E>, m1: ArgsMap, m2: ArgsMap)
    requires n.NameNode? && n.id in m1
    ensures GetText(n, m1) == Success(TokenNameToTextPattern(GetTokenName(n, m2)))
  {
  }
}
