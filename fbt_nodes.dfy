/**
 * Dispatch over the leaf node kinds, and the phrase-level view of a sequence
 * of leaf nodes: its variation arguments, its rendering for one signature and
 * its runtime arguments, each the concatenation of the nodes' own in document
 * order.
 */
module FbtNodes {
  import opened Wrappers
  import opened BabelTypes
  import opened IntlVariations
  import opened FbtNodeTypes
  import FbtTextNode
  import FbtNameNode

  function GetArgsForStringVariationCalc<E>(n: FbtNode<E>): seq<StringVariationArg<E>>
  {
    match n
    case TextNode(_, _, _) => FbtTextNode.GetArgsForStringVariationCalc(n)
    case NameNode(_, _, _, _) => FbtNameNode.GetArgsForStringVariationCalc(n)
  }

  function GetText<E>(b: Babel<E>, n: FbtNode<E>, argsMap: ArgsMap): Result<string, FbtError<E>>
  {
    match n
    case TextNode(_, _, _) => Success(FbtTextNode.GetText(b, n, argsMap))
    case NameNode(_, _, _, _) => FbtNameNode.GetText(n, argsMap)
  }

  function GetFbtRuntimeArg<E>(n: FbtNode<E>): Option<FbtRuntimeArg<E>>
  {
    match n
    case TextNode(_, _, _) => FbtTextNode.GetFbtRuntimeArg(n)
    case NameNode(_, _, _, _) => Some(FbtNameNode.GetFbtRuntimeArg(n))
  }

  /** The variation arguments of a phrase, node by node. */
  function PhraseVariationArgs<E>(nodes: seq<FbtNode<E>>): seq<StringVariationArg<E>>
  {
    if nodes == [] then [] else GetArgsForStringVariationCalc(nodes[0]) + PhraseVariationArgs(nodes[1..])
  }

  /** The rendered text of a phrase for one signature; the first failing node's error otherwise. */
  function PhraseText<E>(b: Babel<E>, nodes: seq<FbtNode<E>>, argsMap: ArgsMap): Result<string, FbtError<E>>
  {
    if nodes == [] then Success("")
    else
      match GetText(b, nodes[0], argsMap)
      case Failure(e) => Failure(e)
      case Success(head) =>
        match PhraseText(b, nodes[1..], argsMap)
        case Failure(e) => Failure(e)
        case Success(tail) => Success(head + tail)
  }

  /** The runtime arguments of a phrase: the non-null ones, in node order. */
  function PhraseRuntimeArgs<E>(nodes: seq<FbtNode<E>>): seq<FbtRuntimeArg<E>>
  {
    if nodes == [] then []
    else
      match GetFbtRuntimeArg(nodes[0])
      case None => PhraseRuntimeArgs(nodes[1..])
      case Some(a) => [a] + PhraseRuntimeArgs(nodes[1..])
  }

  /** The number of branches a set of axes creates: the product of their candidate counts. */
  function BranchCount<E>(args: seq<StringVariationArg<E>>): nat
  {
    if args == [] then 1 else |args[0].candidates| * BranchCount(args[1..])
  }

  /** The flat leaf text: the literal values of the nodes, concatenated. */
  function LeafText<E>(b: Babel<E>, nodes: seq<FbtNode<E>>): string
  {
    if nodes == [] then "" else b.literalValue(nodes[0].node) + LeafText(b, nodes[1..])
  }

  /** Every node is a text node. */
  predicate AllText<E>(nodes: seq<FbtNode<E>>)
  {
    forall i :: 0 <= i < |nodes| ==> nodes[i].TextNode?
  }

  /** The count of name nodes of a phrase. */
  function NameNodeCount<E>(nodes: seq<FbtNode<E>>): nat
  {
    if nodes == [] then 0 else (if nodes[0].NameNode? then 1 else 0) + NameNodeCount(nodes[1..])
  }

  /** The signature gives every declared axis one of that axis's candidates. */
  predicate Covers<E>(args: seq<StringVariationArg<E>>, argsMap: ArgsMap)
  {
    forall i :: 0 <= i < |args| ==> args[i].owner in argsMap && argsMap[args[i].owner] in args[i].candidates
  }

  lemma {:induction false} VariationArgsAppend<E>(p: seq<FbtNode<E>>, q: seq<FbtNode<E>>)
    ensures PhraseVariationArgs(p + q) == PhraseVariationArgs(p) + PhraseVariationArgs(q)
  {
    if p == [] {
      assert p + q == q;
    } else {
      assert (p + q)[0] == p[0];
      assert (p + q)[1..] == p[1..] + q;
      VariationArgsAppend(p[1..], q);
      var h := GetArgsForStringVariationCalc(p[0]);
      assert h + (PhraseVariationArgs(p[1..]) + PhraseVariationArgs(q))
          == (h + PhraseVariationArgs(p[1..])) + PhraseVariationArgs(q);
    }
  }

  lemma {:induction false} RuntimeArgsAppend<E>(p: seq<FbtNode<E>>, q: seq<FbtNode<E>>)
    ensures PhraseRuntimeArgs(p + q) == PhraseRuntimeArgs(p) + PhraseRuntimeArgs(q)
  {
    if p == [] {
      assert p + q == q;
    } else {
      assert (p + q)[0] == p[0];
      assert (p + q)[1..] == p[1..] + q;
      RuntimeArgsAppend(p[1..], q);
      match GetFbtRuntimeArg(p[0])
      case None =>
      case Some(a) =>
        assert [a] + (PhraseRuntimeArgs(p[1..]) + PhraseRuntimeArgs(q))
            == ([a] + PhraseRuntimeArgs(p[1..])) + PhraseRuntimeArgs(q);
    }
  }

  /** Inserting a text node anywhere in a phrase adds no variation axis and no runtime argument. */
  lemma TextNodeAddsNothing<E>(pre: seq<FbtNode<E>>, t: FbtNode<E>, post: seq<FbtNode<E>>)
    requires t.TextNode?
    ensures PhraseVariationArgs(pre + [t] + post) == PhraseVariationArgs(pre + post)
    ensures PhraseRuntimeArgs(pre + [t] + post) == PhraseRuntimeArgs(pre + post)
    ensures BranchCount(PhraseVariationArgs(pre + [t] + post)) == BranchCount(PhraseVariationArgs(pre + post))
  {
    TextNodeAddsNoAxis(pre, t, post);
    TextNodeAddsNoRuntimeArg(pre, t, post);
  }

  lemma TextNodeAddsNoAxis<E>(pre: seq<FbtNode<E>>, t: FbtNode<E>, post: seq<FbtNode<E>>)
    requires t.TextNode?
    ensures PhraseVariationArgs(pre + [t] + post) == PhraseVariationArgs(pre + post)
  {
    SingleTextNode(t);
    VariationArgsAppend(pre + [t], post);
    VariationArgsAppend(pre, [t]);
    VariationArgsAppend(pre, post);
    assert PhraseVariationArgs(pre) + [] == PhraseVariationArgs(pre);
  }

  lemma TextNodeAddsNoRuntimeArg<E>(pre: seq<FbtNode<E>>, t: FbtNode<E>, post: seq<FbtNode<E>>)
    requires t.TextNode?
    ensures PhraseRuntimeArgs(pre + [t] + post) == PhraseRuntimeArgs(pre + post)
  {
    SingleTextNode(t);
    RuntimeArgsAppend(pre + [t], post);
    RuntimeArgsAppend(pre, [t]);
    RuntimeArgsAppend(pre, post);
    assert PhraseRuntimeArgs(pre) + [] == PhraseRuntimeArgs(pre);
  }

  lemma SingleTextNode<E>(t: FbtNode<E>)
    requires t.TextNode?
    ensures PhraseVariationArgs([t]) == [] && PhraseRuntimeArgs([t]) == []
  {
    assert [t][1..] == [];
  }

  /** A text node renders its literal value under every args map, and never fails. */
  lemma TextNodeTextIgnoresArgs<E>(b: Babel<E>, t: FbtNode<E>, m1: ArgsMap, m2: ArgsMap)
    requires t.TextNode?
    ensures GetText(b, t, m1) == GetText(b, t, m2) == Success(b.literalValue(t.node))
  {
  }

  /**
   * A phrase made only of text nodes has no axes, so one flat leaf, whose
   * text is the concatenation of the literals, and no runtime arguments.
   */
  lemma {:induction false} AllTextPhrase<E>(b: Babel<E>, nodes: seq<FbtNode<E>>, argsMap: ArgsMap)
    requires AllText(nodes)
    ensures PhraseText(b, nodes, argsMap) == Success(LeafText(b, nodes))
    ensures PhraseVariationArgs(nodes) == []
    ensures PhraseRuntimeArgs(nodes) == []
    ensures BranchCount(PhraseVariationArgs(nodes)) == 1
  {
    if nodes != [] {
      assert AllText(nodes[1..]) by {
        forall i | 0 <= i < |nodes[1..]| ensures nodes[1..][i].TextNode? {
          assert nodes[1..][i] == nodes[i + 1];
        }
      }
      AllTextPhrase(b, nodes[1..], argsMap);
    }
  }

  /** A phrase declares exactly one axis per name node, each with the single candidate `GENDER_ANY`, so it has one branch. */
  lemma {:induction false} OneAxisPerName<E>(nodes: seq<FbtNode<E>>)
    ensures |PhraseVariationArgs(nodes)| == NameNodeCount(nodes)
    ensures forall i :: 0 <= i < |PhraseVariationArgs(nodes)| ==> PhraseVariationArgs(nodes)[i].candidates == [GenderAny]
    ensures BranchCount(PhraseVariationArgs(nodes)) == 1
  {
    if nodes != [] {
      OneAxisPerName(nodes[1..]);
      var head: seq<StringVariationArg<E>>, tail: seq<StringVariationArg<E>> := GetArgsForStringVariationCalc(nodes[0]), PhraseVariationArgs(nodes[1..]);
      assert PhraseVariationArgs(nodes) == head + tail;
      if nodes[0].NameNode? {
        assert (head + tail)[1..] == tail;
      } else {
        assert head + tail == tail;
      }
    }
  }

  /** Every declared axis has an entry in the args map. */
  predicate HasEveryAxis<E>(args: seq<StringVariationArg<E>>, argsMap: ArgsMap)
  {
    forall i :: 0 <= i < |args| ==> args[i].owner in argsMap
  }

  /** A phrase renders without error under every args map that has an entry for every declared axis. */
  lemma {:induction false} PresentPhraseRenders<E>(b: Babel<E>, nodes: seq<FbtNode<E>>, argsMap: ArgsMap)
    requires HasEveryAxis(PhraseVariationArgs(nodes), argsMap)
    ensures PhraseText(b, nodes, argsMap).Success?
  {
    if nodes != [] {
      var head: seq<StringVariationArg<E>>, tail: seq<StringVariationArg<E>> := GetArgsForStringVariationCalc(nodes[0]), PhraseVariationArgs(nodes[1..]);
      assert PhraseVariationArgs(nodes) == head + tail;
      assert HasEveryAxis(tail, argsMap) by {
        forall i | 0 <= i < |tail| ensures tail[i].owner in argsMap {
          assert tail[i] == (head + tail)[|head| + i];
        }
      }
      if nodes[0].NameNode? {
        assert head[0] == (head + tail)[0];
      }
      PresentPhraseRenders(b, nodes[1..], argsMap);
    }
  }

  /** In particular, every signature that gives each declared axis one of its candidates renders the phrase. */
  lemma CoveredPhraseRenders<E>(b: Babel<E>, nodes: seq<FbtNode<E>>, argsMap: ArgsMap)
    requires Covers(PhraseVariationArgs(nodes), argsMap)
    ensures PhraseText(b, nodes, argsMap).Success?
  {
    PresentPhraseRenders(b, nodes, argsMap);
  }

  /** Conversely, a phrase renders only under an args map that has an entry for every declared axis. */
  lemma {:induction false} RenderedPhraseHasEveryAxis<E>(b: Babel<E>, nodes: seq<FbtNode<E>>, argsMap: ArgsMap)
    requires PhraseText(b, nodes, argsMap).Success?
    ensures HasEveryAxis(PhraseVariationArgs(nodes), argsMap)
  {
    if nodes != [] {
      var head: seq<StringVariationArg<E>>, tail: seq<StringVariationArg<E>> := GetArgsForStringVariationCalc(nodes[0]), PhraseVariationArgs(nodes[1..]);
      assert PhraseVariationArgs(nodes) == head + tail;
      RenderedPhraseHasEveryAxis(b, nodes[1..], argsMap);
      forall i | 0 <= i < |head + tail| ensures (head + tail)[i].owner in argsMap {
        if i >= |head| {
          assert (head + tail)[i] == tail[i - |head|];
        }
      }
    }
  }

  /** A phrase renders under an args map exactly when the map has an entry for every declared axis. */
  lemma PhraseRendersIffEveryAxis<E>(b: Babel<E>, nodes: seq<FbtNode<E>>, argsMap: ArgsMap)
    ensures PhraseText(b, nodes, argsMap).Success? <==> HasEveryAxis(PhraseVariationArgs(nodes), argsMap)
  {
    if PhraseText(b, nodes, argsMap).Success? {
      RenderedPhraseHasEveryAxis(b, nodes, argsMap);
    }
    if HasEveryAxis(PhraseVariationArgs(nodes), argsMap) {
      PresentPhraseRenders(b, nodes, argsMap);
    }
  }

  /**
   * `'You just friended ' + fbt.name('name', personname, gender)` with
   * description `'names'`: one `GENDER_ANY` branch rendering
   * `You just friended {name}` and the single runtime call
   * `_name('name', personname, gender)`.
   */
  lemma NamesExample<E>(b: Babel<E>, lit: E, call: E, nameLit: E, personname: E, gender: E)
    requires b.isStringLiteral(lit) && b.literalValue(lit) == "You just friended "
    requires b.isStringLiteral(nameLit) && b.literalValue(nameLit) == "name"
    requires b.isCallExpressionArg(Some(personname)) && b.isCallExpressionArg(Some(gender))
    ensures var t := FbtTextNode.FromBabelNode(b, 0, "fbt", lit);
      var n := FbtNameNode.Create(b, 1, "fbt", call, [nameLit, personname, gender]);
      && t.Some? && n.Success?
      && var phrase := [t.value, n.value];
      && PhraseVariationArgs(phrase) == [GenderStringVariationArg(1, Some(gender), [GenderAny])]
      && BranchCount(PhraseVariationArgs(phrase)) == 1
      && PhraseText(b, phrase, map[1 := GenderAny]) == Success("You just friended {name}")
      && PhraseRuntimeArgs(phrase) == [FbtRuntimeArg(1, "fbt", [StringLiteralArg("name"), ExprArg(personname), ExprArg(gender)])]
  {
    var t := FbtTextNode.FromBabelNode(b, 0, "fbt", lit).value;
    var n := FbtNameNode.Create(b, 1, "fbt", call, [nameLit, personname, gender]).value;
    var phrase := [t, n];
    assert phrase[1..] == [n] && [n][1..] == [];
    assert n.options == NameOptions("name", Some(personname), Some(gender));
    assert PhraseVariationArgs([n]) == [GenderStringVariationArg(1, Some(gender), [GenderAny])];
    assert FbtNameNode.GetFbtRuntimeArg(n).args == [StringLiteralArg("name"), ExprArg(personname), ExprArg(gender)];
    assert GetFbtRuntimeArg(n) == Some(FbtNameNode.GetFbtRuntimeArg(n));
    assert PhraseRuntimeArgs([n]) == [FbtRuntimeArg(1, "fbt", [StringLiteralArg("name"), ExprArg(personname), ExprArg(gender)])];
    assert "{" + "name" + "}" == "{name}";
    assert FbtNameNode.TokenNameToTextPattern("name") == "{name}";
    assert FbtNameNode.GetText(n, map[1 := GenderAny]) == Success("{name}");
    assert GetText(b, n, map[1 := GenderAny]) == Success("{name}");
    assert PhraseText(b, [n][1..], map[1 := GenderAny]) == Success("");
    assert "{name}" + "" == "{name}";
    assert PhraseText(b, [n], map[1 := GenderAny]) == Success("{name}");
    assert "You just friended " + "{name}" == "You just friended {name}";
  }
}
