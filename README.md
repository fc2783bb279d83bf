# fbt leaf phrase nodes and CLDR number tables, in Dafny

This project models two parts of fbt, the internationalisation framework:

- The two leaf node kinds of the Babel plugin's phrase tree:
  - `FbtTextNode` is a literal fragment of a phrase.
  - `FbtNameNode` is an `fbt.name(name, value, gender)` placeholder.
- Three generated CLDR plural tables:
  - `IntlCLDRNumberType21` is the runtime classifier of an integer into `one`, `two`, `few` or `other`.
  - `IntlCLDRNumberType23` and `IntlCLDRNumberType46` are compile-time lists of covered number-variation codes, each with a fallback code.

All five source files are pure, so the model is made of datatypes, functions and lemmas.

Modules:

- `Wrappers`: `Option` (JavaScript `null`/`undefined`) and `Result` (a thrown error).
- `BabelTypes`: a Babel node is the type parameter `E`. The Babel predicates the node classes call are fields of a `Babel<E>` record:
  - `isStringLiteral`, `isJSXText`;
  - a node's `value` and `type`;
  - whether `enforceBabelNodeCallExpressionArg` accepts an argument.

  Every lemma therefore holds for every choice of these predicates.
- `IntlVariations`: variation values and the six CLDR plural categories. They are abstract, because the numeric `IntlVariations` codes are not part of this model.
- `FbtNodeTypes`: the node datatype (the text and name variants), the args map `map<NodeId, VariationValue>`, variation arguments, runtime-call arguments and errors located at a Babel node.
- `FbtTextNode`, `FbtNameNode`: the methods of the two classes.
- `FbtNodes`: dispatch over the two kinds, plus a reference definition of a phrase made of leaf nodes. A phrase's variation arguments, its text under one signature and its runtime arguments are each the node-by-node concatenation of the nodes' own.
- `PluralRules`: integer plural rule sets in the form of section 5 (Language Plural Rules) of UTS #35 Part 3 (Numbers), with first-match selection. The rule operand is the signed integer that the generated code tests, not the standard's absolute value `n`. So `-1` is `other` here, where the standard would treat it like `1`.
- `IntlCLDRNumberType21`, `IntlCLDRNumberType23`, `IntlCLDRNumberType46`, `CLDRNumberTables`: the three tables and what they share.

The runtime table `IntlCLDRNumberType21` offers only `getVariation`. The compile-time tables `IntlCLDRNumberType23` and `IntlCLDRNumberType46` offer only `getNumberVariations` and `getFallback`.

## Model

| member | source | states |
|---|---|---|
| `FbtTextNode.FromBabelNode` | packages/babel-plugin-fbt/src/fbt-nodes/FbtTextNode.js:40-50 | yields a text node holding the given Babel node exactly when that node is JSX text or a string literal, and `null` otherwise; it never fails |
| `FbtTextNode.GetArgsForStringVariationCalc` | packages/babel-plugin-fbt/src/fbt-nodes/FbtTextNode.js:52-54 | a text node declares no variation argument |
| `FbtTextNode.GetFbtRuntimeArg` | packages/babel-plugin-fbt/src/fbt-nodes/FbtTextNode.js:60-62 | a text node has no runtime argument |
| `FbtTextNode.GetText` | packages/babel-plugin-fbt/src/fbt-nodes/FbtTextNode.js:56-58 | the text is the node's literal value; the args map is not consulted |
| `FbtNodes.TextNodeTextIgnoresArgs` | packages/babel-plugin-fbt/src/fbt-nodes/FbtTextNode.js:56-58 | a text node renders its literal value unchanged under every args map, and never fails |
| `FbtNodes.TextNodeAddsNothing` | packages/babel-plugin-fbt/src/fbt-nodes/FbtTextNode.js:52-62 | inserting a text node anywhere in a phrase leaves its variation arguments, its branch count and its runtime arguments unchanged |
| `FbtNodes.AllTextPhrase` | packages/babel-plugin-fbt/src/__tests__/fbtFunctional-test.js:1988-1999 | a phrase of text nodes only has no axes and one branch; under any args map its text is the concatenation of the literals; its runtime-argument list is empty |
| `FbtNameNode.GetOptions` | packages/babel-plugin-fbt/src/fbt-nodes/FbtNameNode.js:58-84 | succeeds iff the first argument is a string literal and the second and third are accepted call arguments; on success the name is the literal's value and value and gender are the second and third arguments; every failure is located at the call node and names the first violated condition, the second or third argument being named with the module name |
| `FbtNameNode.Create` | packages/babel-plugin-fbt/src/fbt-nodes/FbtNameNode.js:56-84 | a name node exists iff its options validate; its options are then exactly what `getOptions` computes, and otherwise the error is `getOptions`'s, with no partial node |
| `FbtNameNode.GetArgsForStringVariationCalc` | packages/babel-plugin-fbt/src/fbt-nodes/FbtNameNode.js:97-101 | exactly one variation argument: a gender axis owned by the node, driven by its gender, whose only candidate is `GENDER_ANY` |
| `FbtNodes.OneAxisPerName` | packages/babel-plugin-fbt/src/fbt-nodes/FbtNameNode.js:97-101 | a phrase declares exactly one axis per name node, each with the single candidate `GENDER_ANY`, so the phrase has exactly one branch |
| `FbtNameNode.GetTokenName` | packages/babel-plugin-fbt/src/fbt-nodes/FbtNameNode.js:103-105 | the token name is the declared name, whatever the args map |
| `FbtNameNode.GetText` | packages/babel-plugin-fbt/src/fbt-nodes/FbtNameNode.js:107-114 | succeeds iff the args map has an entry for the node; the text is then the token pattern `{name}` of the token name; otherwise the error is a missing-entry error located at the node |
| `FbtNameNode.TextNamesToken` | packages/babel-plugin-fbt/src/fbt-nodes/FbtNameNode.js:103-114 | once the node's entry is present, the rendered text is the pattern of the token name computed under any other args map |
| `FbtNameNode.TokenNameToTextPattern` | packages/babel-plugin-fbt/src/__tests__/fbtFunctional-test.js:1779 | the pattern is the name between `{` and `}` |
| `FbtNameNode.TokenPatternInjective` | packages/babel-plugin-fbt/src/fbt-nodes/FbtNameNode.js:110 | two names with the same token pattern are equal, so the rendered text identifies the token |
| `FbtNameNode.GetFbtRuntimeArg` | packages/babel-plugin-fbt/src/fbt-nodes/FbtNameNode.js:116-122 | the runtime call is owned by the node and lists the name as a string literal first, then the value, then the gender, dropping only absent ones |
| `FbtNameNode.RuntimeArgRepeatsCall` | packages/babel-plugin-fbt/src/fbt-nodes/FbtNameNode.js:58-122 | a node built from a valid three-argument call emits a runtime call with the same three arguments in the same order, the name rebuilt as a string literal of the same value |
| `FbtNodes.PresentPhraseRenders` | packages/babel-plugin-fbt/src/fbt-nodes/FbtNameNode.js:107-114 | every args map with an entry for every declared axis renders the whole phrase without error |
| `FbtNodes.CoveredPhraseRenders` | packages/babel-plugin-fbt/src/fbt-nodes/FbtNameNode.js:97-114 | every signature that gives each declared axis one of its candidates renders the whole phrase without error |
| `FbtNodes.RenderedPhraseHasEveryAxis` | packages/babel-plugin-fbt/src/fbt-nodes/FbtNameNode.js:107-114 | a phrase renders only under an args map with an entry for every declared axis |
| `FbtNodes.PhraseRendersIffEveryAxis` | packages/babel-plugin-fbt/src/fbt-nodes/FbtNameNode.js:107-114 | a phrase renders under an args map if and only if the map has an entry for every declared axis |
| `FbtNodes.NamesExample` | packages/babel-plugin-fbt/src/__tests__/fbtFunctional-test.js:1755-1794 | `'You just friended ' + fbt.name('name', personname, gender)` has one gender axis with one `GENDER_ANY` branch, renders `You just friended {name}` and has the single runtime call `('name', personname, gender)` |
| `IntlCLDRNumberType21.GetVariation` | runtime/shared/FbtNumber/IntlCLDRNumberType21.js:16-26 | `one` iff n is 1 or 11, `two` iff 2 or 12, `few` iff in 3..10 or 13..19, `other` iff outside 1..19 (including 0, 20 and negatives); never `zero` or `many` |
| `IntlCLDRNumberType21.RulesDisjoint` | runtime/shared/FbtNumber/IntlCLDRNumberType21.js:17-22 | the three branch conditions, as a UTS #35 rule set, are pairwise disjoint |
| `IntlCLDRNumberType21.GetVariationFollowsRules` | runtime/shared/FbtNumber/IntlCLDRNumberType21.js:16-26 | for every integer, `getVariation` agrees with first-match selection over the rule set `one: 1,11; two: 2,12; few: 3..10,13..19` |
| `IntlCLDRNumberType21.GetVariationOrderFree` | runtime/shared/FbtNumber/IntlCLDRNumberType21.js:16-26 | every reordering of the rule set classifies every integer as `getVariation` does, so the order of the branches does not matter |
| `PluralRules.SelectCharacterized` | runtime/shared/FbtNumber/IntlCLDRNumberType21.js:16-26 | for a disjoint rule set, a number gets the category of any rule it meets, and `other` when it meets none |
| `PluralRules.SelectOrderFree` | runtime/shared/FbtNumber/IntlCLDRNumberType21.js:16-26 | two disjoint rule sets holding the same rules select the same category for every number |
| `IntlCLDRNumberType23.GetNumberVariations` | packages/babel-plugin-fbt/src/translate/CLDR/IntlCLDRNumberType23.js:15-17 | the list is exactly 4, 8, 20, 24 and is strictly increasing |
| `IntlCLDRNumberType23.GetFallback` | packages/babel-plugin-fbt/src/translate/CLDR/IntlCLDRNumberType23.js:19-21 | the fallback is a member of the variation list, its last element and its largest code |
| `IntlCLDRNumberType23.VariationsWellFormed` | packages/babel-plugin-fbt/src/translate/CLDR/IntlCLDRNumberType23.js:15-21 | the variation list has no duplicates and contains the fallback |
| `IntlCLDRNumberType46.GetNumberVariations` | packages/babel-plugin-fbt/src/translate/CLDR/IntlCLDRNumberType46.js:15-17 | the list is exactly 4, 20, 24 and is strictly increasing |
| `IntlCLDRNumberType46.GetFallback` | packages/babel-plugin-fbt/src/translate/CLDR/IntlCLDRNumberType46.js:19-21 | the fallback is a member of the variation list, its last element and its largest code |
| `IntlCLDRNumberType46.VariationsWellFormed` | packages/babel-plugin-fbt/src/translate/CLDR/IntlCLDRNumberType46.js:15-21 | the variation list has no duplicates and contains the fallback |
| `IntlCLDRNumberType46.SubsetOfType23` | packages/babel-plugin-fbt/src/translate/CLDR/IntlCLDRNumberType46.js:15-21 | every type 46 code is a type 23 code: type 23's list is type 46's with 8 inserted after 4, and both fall back to the same code |

## Left out

- Babel AST internals are parameters of the model, not definitions: `isStringLiteral`, `isJSXText`, node `value` and `type`, and `enforceBabelNodeCallExpressionArg`. The model does not decide whether an absent value or gender argument is accepted; the `Babel` record decides. An accepted argument is taken to be returned unchanged by `enforceBabelNodeCallExpressionArg`, which `FbtNameNode.GetOptions` and `FbtNameNode.RuntimeArgRepeatsCall` rely on.
- `FbtNameNode.TokenNameToTextPattern`: `tokenNameToTextPattern` is defined in FbtNodeUtil.js, which is not part of this model. Its `{name}` form is taken from the expected output of the functional tests.
- `createFbtRuntimeArgCallExpression` is represented by the list of arguments it receives, owned by the node. The callee it generates relies on files that are not part of this model.
- `errorAt` and the formatted messages are represented by a structured `ErrorAt(node, reason)`. The reason names the module name, the argument or the missing node. `mustHave`'s own message is not part of this model.
- `FbtNameNode.fromBabelNode` delegates to `createInstanceFromFbtConstructCallsite` in FbtNodeUtil.js, which is not part of this model. `FbtNameNode.Create` instead starts from an already-recognised call and its arguments.
- The FbtNode base class is not part of this model. `FbtNameNode.Create` takes a node's `options` to be `getOptions()` computed once when the node is built.
- `this.getCallNodeArguments() || []` is modelled by passing the call arguments as a sequence, the missing-arguments case being the empty sequence.
- The phrase-level functions of `FbtNodes` are a reference definition for stating properties of leaf nodes in context. The real phrase tree, the axis collector, enum-axis merging, the cartesian enumerator, token-collision checks and hoisting validation live in files that are not part of this model.
- `IntlCLDRNumberType21.GetVariation`: modelled over integers only. The JavaScript range tests on floating-point numbers (3.5 counts as `few`) are not modelled.
- The numeric values of the `IntlVariations` codes (`GENDER_ANY`, `NUMBER_ONE`, ...) are replaced by named categories. The codes of the compile-time tables are kept as the integers the source lists.
- Collection of phrases to files, test utilities and the test harness are I/O and glue, not logic of the modelled files.
