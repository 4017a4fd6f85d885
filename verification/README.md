# JSX extraction in vscode-glean, modelled in Dafny

This project models `src/modules/jsx.ts` of vscode-glean, the editor extension that pulls a
selected piece of JSX out into a new React component. It covers the following pieces:

- **Range containment.** `pathContains`, `findContainerPath` and
  `isRangeContainedInJSXExpression` decide whether an editor selection lies inside a JSX
  expression. This is module `Ranges`.
- **JSX detection.** `isJSX` and `isJSXExpression` parse a snippet with `@babel/template`, and
  `isJSX` retries with a `<>…</>` wrapper. This is module `Template`.
- **Fragment analysis.** The `wrapWithComponent` visitor collects the four binding sets
  (`argumentProps`, `memberProps`, `state`, `componentMembers`) and rewrites `this.state.x` to
  `this.props.x` and `this.x` to `this.props.x`. This is module `References`. Module
  `InsertionOrder` shows that each set lists its names in the order of their first occurrence
  in a pre-order walk, which is the order the instance tag writes them in.
- **Wrapping.** `wrapWithComponent` itself strips the printed code's last `;` and derives the
  component name from the file name. These are modules `Extract` and `Names`, with the string
  utilities in `Strings`.
- **Instances.** `createComponentInstance` writes the tag that replaces the selection. This is
  module `Instance`.
- **Component shapes.** `isStatelessComp` and `isStatefulComp` recognise a function component
  or a class component. This is module `Shapes`.

Babel's parser, printer and traversal cannot be seen from here. They enter as follows:

- **Parsing.** A parser is a function parameter that answers `None` where parsing throws.
- **Template results.** `template.ast` unwraps a single statement to the node itself. Zero or
  several statements give a value that is not a node (`Template.Unwrap`).
- **Traversal.** Traversal is a pre-order walk of the program body. It does not visit the root.
  A `MemberExpression` that the visitor has handled carries the `wasVisited` marker
  (`Member(…, visited := true)`). A `this.x` rewrite skips its new subtree. The inner
  `this.props` created by the rewrite carries no marker.
- **Exit order.** `findContainerPath` uses Babel's exit order, modelled as the post-order of the
  root's children (`Ranges.ExitOrder`).

Calls that can throw are modelled with explicit outcomes:

- `Shapes.Answer` is `Returns(bool) | Throws` and follows JavaScript `||` short-circuiting.
  `isStatelessComp` and `isStatefulComp` catch nothing, so their throwing cases are part of the
  contract.
- `Option` stands in for a call that can throw. Each member's comment says whether the caller
  catches it: `Extract.WrapWithComponent` is `None` for a `jsxToAst` throw that
  `wrapWithComponent` lets escape.

## Model

| member | source | states |
|---|---|---|
| Ranges.PathContains | src/modules/jsx.ts:67-72 | A node contains a selection exactly when its start is strictly before the selection's start and its end strictly after the selection's end. Both comparisons are lexicographic on (line, column). |
| Ranges.BeforeIsStrictTotalOrder | src/modules/jsx.ts:70-71 | The position comparison used by the containment test is irreflexive, transitive and total. |
| Ranges.ExactSpanNotContained | src/modules/jsx.ts:67-72 | A selection that covers exactly a node's span is not contained in that node, because both comparisons are strict. |
| Ranges.NarrowerSelectionContained | src/modules/jsx.ts:67-72 | Narrowing a selection keeps it contained in any node that contained it. |
| Ranges.EnclosingNodeContains | src/modules/jsx.ts:67-72 | A node whose span encloses a containing node also contains the selection. |
| Ranges.FirstContainingAppend | src/modules/jsx.ts:56-59 | The first match in a concatenated exit sequence is the first match of the first part, or of the second part when the first has none. |
| Ranges.FindInForest | src/modules/jsx.ts:53-65 | The node found contains the selection and occurs in the traversal. No node below it contains the selection. When nothing is found, no visited node contains it. |
| Ranges.FindInTree | src/modules/jsx.ts:53-65 | The search over one subtree: a node is exited after its children. The result contains the selection and none of its descendants does. |
| Ranges.FindIsFirstInExitOrder | src/modules/jsx.ts:53-65 | The recursive search returns exactly the first node in exit order that contains the selection, which is the node `foundPath` keeps. |
| Ranges.FindContainerPath | src/modules/jsx.ts:53-65 | The container is the first containing node in exit (post-)order over the program's nodes. The root is never visited. |
| Ranges.IsRangeContainedInJsxExpression | src/modules/jsx.ts:43-51 | The result is true exactly when the code parses and the first containing node is both JSX and an expression. It is false when the parse throws. |
| Ranges.DeclarationWithJsxSelections | src/modules/jsx.ts:43-72 | In `const x = <div>{y}</div>;`, selecting `y` answers false, because the innermost container is the JSX expression container. Selecting `{y}` answers true (the element). Selecting `x` answers false. |
| Template.Unwrap | src/modules/jsx.ts:22 | `template.ast` yields a node exactly when the code is one statement, and then yields that statement. |
| Template.FragmentWrap | src/modules/jsx.ts:25 | The retry text starts with `<>`, ends with `</>`, and holds the original code between the two tags. |
| Template.IsJsxStatement | src/modules/jsx.ts:31 | `ast && ast.expression && t.isJSX(ast.expression)` holds exactly for a node that is an expression statement around a JSX node. |
| Template.IsJsxExpression | src/modules/jsx.ts:34-41 | True only for code that parses. Then it is true exactly when the single statement is an expression statement whose expression is JSX. |
| Template.IsJsx | src/modules/jsx.ts:19-32 | Code that parses is judged as `isJSXExpression` judges it, with no retry. Otherwise the fragment-wrapped code is judged. It is false when both parses throw. |
| Template.JsxExpressionIsJsx | src/modules/jsx.ts:19-41 | Whatever `isJSXExpression` accepts, `isJSX` accepts too. |
| Template.NoRetryAfterSuccessfulParse | src/modules/jsx.ts:19-32 | Code that parses to a non-JSX statement is rejected even when its wrapped form would be JSX. |
| Shapes.IsStatelessComp | src/modules/jsx.ts:151-158 | The result is true exactly when the single statement is a function, an export of a function, or a declaration whose first initialiser is a function. It throws exactly when parsing throws or the declaration has no declarator. |
| Shapes.IsFunction | src/modules/jsx.ts:154-156 | `t.isFunction` holds exactly for a present function node. It is false for a missing value. |
| Shapes.IsSupportedComponent | src/modules/jsx.ts:163-169 | It answers only for a class node with a superclass, and otherwise throws. The answer is true exactly when the superclass is `Component`, `PureComponent`, `React.Component` or `React.PureComponent`. |
| Shapes.IsStatefulComp | src/modules/jsx.ts:160-176 | The result is true exactly for a recognised class, possibly exported. It is false exactly for a bare class with an unrecognised superclass. Every other input throws. |
| Shapes.StatelessIsNotStateful | src/modules/jsx.ts:151-176 | Code accepted as a function component makes the class test throw. Code accepted as a class component is rejected as a function component. |
| Shapes.ExportedArrowConstNotStateless | src/modules/jsx.ts:154-155 | An exported `const` holding a function is not a function component, because the export's declaration is a variable declaration and not a function. |
| Shapes.UnrecognisedBaseIsNeither | src/modules/jsx.ts:163-174 | A class extending an unrecognised base is no function component. The class test answers false for the bare class and throws for the exported form. |
| References.Add | src/modules/jsx.ts:96 | `Set.add` keeps earlier entries in order, adds the name exactly once, and keeps the set duplicate-free. |
| References.Visit | src/modules/jsx.ts:92-121 | Visiting only appends to the four sets and keeps each duplicate-free. A `this` stays `this`. The tree it returns is pinned by `VisitRewrites`. |
| References.VisitAll | src/modules/jsx.ts:92-121 | The sets only grow and the number of siblings is kept. The order names are added in is pinned by the `InsertionOrder` rows. |
| References.ArgumentPropsOfVisit | src/modules/jsx.ts:93-98 | A name is added to argumentProps exactly when it is an identifier with no member-expression or arrow-function ancestor. |
| References.ArgumentPropsOfVisitAll | src/modules/jsx.ts:93-98 | The same characterisation over a sequence of siblings. |
| References.CarrierPropsOfVisit | src/modules/jsx.ts:100-108 | A name is added to memberProps (or state) exactly when an unmarked `this.props.name` (or `this.state.name`) is read. |
| References.CarrierPropsOfVisitAll | src/modules/jsx.ts:100-108 | The same characterisation over a sequence of siblings. |
| References.ComponentMembersOfVisit | src/modules/jsx.ts:109-111 | A name is added to componentMembers exactly when an unmarked `this.name` is read other than as `this.props.y` or `this.state.y`. |
| References.ComponentMembersOfVisitAll | src/modules/jsx.ts:109-111 | The same characterisation over a sequence of siblings. |
| References.VisitLeavesOnlyProps | src/modules/jsx.ts:100-117 | On an unmarked tree, every member access on `this` left after the visit reads `props`. |
| References.VisitAllLeavesOnlyProps | src/modules/jsx.ts:100-117 | The same over a sequence of unmarked siblings. |
| References.VisitRewrites | src/modules/jsx.ts:99-117 | On an unmarked tree, the visitor's output equals `Rewritten` up to markers. A `this.props` or `this.state` that a property is read from becomes `this.props`. Any other `this.x` becomes `this.props.x`. Every other node keeps its shape. |
| References.VisitAllRewrites | src/modules/jsx.ts:99-117 | The same over a sequence of unmarked siblings. |
| References.Erase | src/modules/jsx.ts:112 | Clearing the markers gives a tree in which no node is marked. |
| References.SecondPass | src/modules/jsx.ts:100-117 | Visiting the rewritten tree again changes only markers. It moves the first run's componentMembers into memberProps, in the same order, and adds nothing to state or componentMembers. |
| References.SecondPassAll | src/modules/jsx.ts:100-117 | The same over a sequence of siblings. |
| References.ChangedIffRewrites | src/modules/jsx.ts:100-115 | Markers aside, a node changes exactly when it holds an access the visitor rewrites. Without one, state and componentMembers are unchanged. |
| References.ChangedIffRewritesAll | src/modules/jsx.ts:100-115 | The same over a sequence of siblings. |
| References.Analyze | src/modules/jsx.ts:85-125 | The traversal from four empty sets gives four duplicate-free sequences, each holding exactly the names the fragment uses in that role. On a parser-fresh tree, the output program is `Rewritten` up to markers, and only `this.props` accesses remain. |
| InsertionOrder.AddAll | src/modules/jsx.ts:96 | Adding names one by one to a `Set` keeps the earlier entries as a prefix, holds exactly the old names and the added ones, and stays duplicate-free. |
| InsertionOrder.AddAllAppend | src/modules/jsx.ts:96 | Adding two lists of names in turn is adding their concatenation. |
| InsertionOrder.FirstIndex | src/modules/jsx.ts:96 | The index found holds the name, and no earlier index does. |
| InsertionOrder.AddAllInOrder | src/modules/jsx.ts:96 | The names appended past the old entries are new, and they come in the order of their first occurrence in the added list. |
| InsertionOrder.FirstOccurrences | src/modules/jsx.ts:85-90 | A `Set` filled from a list holds each name of the list exactly once, in the order of first occurrence. |
| InsertionOrder.ArgumentOrderOfVisit | src/modules/jsx.ts:93-98 | Visiting a node adds its free identifiers to argumentProps in pre-order. A shielded node adds none. |
| InsertionOrder.ArgumentOrderOfVisitAll | src/modules/jsx.ts:93-98 | Siblings add their free identifiers left to right. |
| InsertionOrder.CarrierOrderOfVisit | src/modules/jsx.ts:100-108 | Visiting a node adds the `x` of each unmarked `this.props.x` (or `this.state.x`) to memberProps (or state) in pre-order. |
| InsertionOrder.CarrierOrderOfVisitAll | src/modules/jsx.ts:100-108 | Siblings add those names left to right. |
| InsertionOrder.MemberOrderOfVisit | src/modules/jsx.ts:109-111 | Visiting a node adds the `x` of each unmarked `this.x` (other than a `this.props` or `this.state` read through) to componentMembers in pre-order. |
| InsertionOrder.MemberOrderOfVisitAll | src/modules/jsx.ts:109-111 | Siblings add those names left to right. |
| InsertionOrder.AnalyzeOrder | src/modules/jsx.ts:85-125 | Each of the four sequences holds the names of its role once each, in the order of their first occurrence in a pre-order walk of the fragment. This is the attribute order `createComponentInstance` writes. |
| References.AnalyzeTwice | src/modules/jsx.ts:100-125 | Analysing the output again gives the same tree up to markers and the same argumentProps. The first run's componentMembers become memberProps, and state and componentMembers are empty. |
| References.NoThisLeavesFragment | src/modules/jsx.ts:92-125 | A fragment with no `this` access is left unchanged and contributes only argumentProps. |
| Names.UpperAscii | src/modules/jsx.ts:75 | `toUpperCase` on one character maps `a`-`z` to `A`-`Z` and leaves the others alone. |
| Names.Capitalize | src/modules/jsx.ts:74-76 | Only the first character is changed, to its upper case. The length and the rest are kept. |
| Names.CapitalizeAll | src/modules/jsx.ts:80 | Each segment is capitalised in place. |
| Names.CapitalizeAllMeasure | src/modules/jsx.ts:80 | Capitalising keeps the total length of the segments. |
| Names.ComponentName | src/modules/jsx.ts:78-81 | The name contains no `-`. Its length is the base name's minus the number of dashes. |
| Names.ComponentNameOfSegments | src/modules/jsx.ts:80 | A base name joined from dash-free segments becomes the concatenation of those segments, capitalised. |
| Names.ComponentNameOfSource | src/modules/jsx.ts:78-81 | `source` becomes `Source`, the name the tests expect for `/source.js`. |
| Names.ComponentNameOfUserCard | src/modules/jsx.ts:78-81 | `user-card` becomes `UserCard`. |
| Names.SliceTo | src/modules/jsx.ts:129 | `slice(0, end)` gives a prefix. Its length is `end` for an in-range end. A negative end counts from the back, bottoming out at the empty string. An end past the length gives the whole string. |
| Names.SliceFrom | src/modules/jsx.ts:129 | `slice(start)` gives a suffix. It drops `start` characters for an in-range start. A negative start keeps that many characters from the end, at most all. A start past the length gives the empty string. |
| Names.LastIndexOf | src/modules/jsx.ts:128 | The result is -1 exactly when the character is absent. Otherwise it is an index holding it with no later occurrence. |
| Names.StripLastSemicolon | src/modules/jsx.ts:127-129 | With a `;` present, exactly the last `;` is removed. Without one, the two slices give the code minus its last character, followed by the whole code. |
| Names.RemovedAt | src/modules/jsx.ts:129 | Cutting out a `;` at one index removes one character and one `;`, and keeps both sides. |
| Strings.Join | src/modules/jsx.ts:80 | `join` of no parts is empty. `join('')` has the total length of the parts, and a one-character separator adds one character between each pair of parts. |
| Strings.Split | src/modules/jsx.ts:80 | `split` gives at least one part. No part holds the separator, and joining the parts back gives the input. |
| Strings.SplitJoin | src/modules/jsx.ts:80 | Splitting a join of separator-free parts gives the parts back. |
| Strings.SplitAround | src/modules/jsx.ts:80 | Splitting at a separator splits each side independently. |
| Strings.JoinMeasure | src/modules/jsx.ts:80 | A join has the total length plus one separator between each pair of parts. |
| Strings.ConcatMeasure | src/modules/jsx.ts:80 | `join('')` has the total length and holds no character absent from every part. |
| Strings.CountAppend | src/modules/jsx.ts:129 | Character counts add over concatenation. |
| Strings.CountAbsent | src/modules/jsx.ts:128 | A character is absent exactly when its count is zero. |
| Strings.WordsOfJoin | src/modules/jsx.ts:143-148 | Reading back a space-joined list of non-empty, space-free words gives the list. |
| Strings.WordsAround | src/modules/jsx.ts:148 | The words of two texts joined by a space are the words of each in turn. |
| Instance.Access | src/modules/jsx.ts:143-146 | A state name passes `this.state.p`, an argument passes `p` itself, a member prop passes `this.props.p`, and a component member passes `this.p`. Each ends with the prop's name. |
| Instance.Attribute | src/modules/jsx.ts:143-146 | Each attribute is `p={<access>}` for its source's access expression. It starts with the prop's name, is non-empty, and is space-free when the name is. |
| Instance.Attributes | src/modules/jsx.ts:143-146 | One attribute per name, in the set's order. |
| Instance.CreateComponentInstance | src/modules/jsx.ts:142-149 | The tag opens with `<` and the name and closes with `/>`. Two spaces follow the name. Between them and `/>` sit the four attribute groups, separated by single spaces. The exact text is pinned by `OneOfEachInstance`, `LoneMemberPropInstance` and `TwoArgumentsInstance`, and the single space inside a group by `GroupCons`. |
| Instance.InstanceAttributes | src/modules/jsx.ts:142-149 | For space-free names, the words between the tag name and `/>` are all the attributes. The order is state, arguments, member props, then component members, each in insertion order. |
| Instance.BodyWords | src/modules/jsx.ts:143-148 | The words of the four space-separated groups are the attributes of the four groups in turn. |
| Instance.GroupWords | src/modules/jsx.ts:143-146 | The words of one group are its attributes. |
| Instance.OneOfEachInstance | src/modules/jsx.ts:142-149 | With one name in each set, the tag is exactly `<Source  s={this.state.s} a={a} m={this.props.m} c={this.c}/>`: two spaces after the name, the groups in the order state, argument, member prop, component member, and no space before `/>`. |
| Instance.LoneMemberPropInstance | src/modules/jsx.ts:142-149 | Empty groups keep their separating spaces: a lone member prop gives `<Source    m={this.props.m} />`. |
| Instance.GroupCons | src/modules/jsx.ts:143-146 | Inside one group, an attribute and the rest of the group are separated by exactly one space, for every group of two or more names. |
| Instance.TwoArgumentsInstance | src/modules/jsx.ts:142-149 | Two arguments give exactly `<Source   a={a} b={b}  />`: one space between the two attributes of a group. |
| Instance.EmptyInstance | src/modules/jsx.ts:148 | With all four sets empty, the instance is the name followed by five spaces and `/>`. |
| Extract.WrapWithComponent | src/modules/jsx.ts:83-140 | There is a result exactly when the fragment parses. The metadata marks it JSX, carries the analysis's duplicate-free sets and a dash-free component name, and the text is built from the stripped, printed, rewritten tree. |
| Extract.DivAroundVisit | src/test/jsx.test.ts:46-77 | Analysing `<div>{e}</div>` is analysing `e` inside the expression container. The `div` tags add nothing. |
| Extract.ComponentMemberFragment | src/modules/jsx.ts:109-114 | `<div>{this.foo}</div>` records `foo` as a component member. The access becomes `this.props.foo`, marked on the outer node only. |
| Extract.PropsFragment | src/test/jsx.test.ts:46-54 | `<div>{this.props.foo}</div>` records `foo` as a member prop and only marks the access. |
| Extract.FreeIdentifierFragment | src/test/jsx.test.ts:56-64 | `<div>{foo}</div>` records `foo` as the only argument and leaves the tree as it is. |
| Extract.StateFragment | src/test/jsx.test.ts:67-77 | `<div>{this.state.foo}</div>` records `foo` as state, and the output reads `this.props.foo` with no `this.state.foo` left. |
| Extract.WrapperFragment | src/test/jsx.test.ts:79-87 | `<Wrapper bar={bar}>{this.props.foo}</Wrapper>` records `bar` as an argument and `foo` as a member prop. The tag and attribute names are recorded nowhere. |
| Extract.WrapperOpeningVisit | src/test/jsx.test.ts:81 | The opening tag records `bar` from the attribute value only. |
| Extract.WrapperAccessVisit | src/test/jsx.test.ts:81 | `{this.props.foo}` records `foo` as a member prop and marks the `this.props` access. |

## Left out

- The parsers (`codeToAst`, `jsxToAst`, `template.ast`) are function parameters. The printer (`transformFromAst`) is too, and so is the component builder (`buildComponent`). Their internals are not part of this model. The component builder's source (`component-builder`) is not part of this model.
- `path.basename(fullPath, path.extname(fullPath))` is not modelled. `Names.ComponentName` starts from the base name without its extension.
- Names.UpperAscii: upper-cases ASCII letters only. JavaScript's `toUpperCase` also maps other letters and can lengthen a string (`ß` becomes `SS`).
- Babel node kinds are reduced to the ones the core tests. In `References.Node`, any other node is `Other` and holds its children in traversal order. In `Template.TNode`, the other statements collapse into `Other`. Source locations are kept only in `Ranges.SyntaxNode`.
- Computed member accesses (`this[x]`, `items[i]`) and optional ones (`this?.x`) are left out, because `References.Node` has no form for them. In the source, a computed `this[x]` with an identifier `x` adds `x` to componentMembers and becomes the non-computed `this.props.x`. The identifiers inside any computed access are shielded from argumentProps, because their parent is a `MemberExpression`. An optional access is an `OptionalMemberExpression`: the `MemberExpression` visitor never fires on it, and it does not shield the identifiers below it.
- Babel re-queues replaced nodes. Because `path.skip()` follows every replacement in the visitor, the model visits each node once, in pre-order.
- TypeScript-specific export forms such as `export = …` are not distinguished from other statements.
- The editor commands, the file system, and the mocha test setup around these functions are left out. The tests enter only as the fragment lemmas in `Extract`.
- For `<div>{y}</div>` with `y` selected, one might expect `isRangeContainedInJSXExpression` to answer true. The code answers false, because the first node exited that contains the selection is the `JSXExpressionContainer`, which is JSX but not an expression. The model follows the code (`Ranges.DeclarationWithJsxSelections`).
