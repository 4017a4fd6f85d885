/** The node `template.ast` returns for a piece of code, as far as `isJSX`,
    `isJSXExpression`, `isStatelessComp` and `isStatefulComp`
    (src/modules/jsx.ts:19-41, 151-175) look into it, and the two JSX
    classifiers. The parser itself is a parameter. */
module Template {
  import opened Options

  /** A parsed node. `FunctionNode` is every node the parser's `isFunction`
      accepts (declaration, expression, arrow); `ClassNode` is a class
      declaration or expression with its possibly absent superclass. */
  datatype TNode =
    | ExpressionStatement(expression: TNode)
    | VariableDeclaration(declarations: seq<Declarator>)
    | FunctionNode
    | ClassNode(superClass: Option<TNode>)
    | ExportNamed(declaration: Option<TNode>)
    | ExportDefault(exported: TNode)
    | ExportAll
    | Identifier(name: string)
    | Member(obj: TNode, property: TNode)
    | Jsx
    | Other

  datatype Declarator = Declarator(init: Option<TNode>)

  /** The parser's parameter type: the program body, or None where parsing throws. */
  type Parser = string -> Option<seq<TNode>>

  /** `template.ast` hands back the only statement of the body; with none it
      gives `undefined` and with several an array, neither of which is a node. */
  function Unwrap(body: seq<TNode>): (r: Option<TNode>)
    ensures r.Some? <==> |body| == 1
    ensures r.Some? ==> r.value == body[0]
  {
    if |body| == 1 then Some(body[0]) else None
  }

  /** `ast && ast.expression && t.isJSX(ast.expression)`. */
  function IsJsxStatement(ast: Option<TNode>): (b: bool)
    ensures b <==> ast == Some(ExpressionStatement(Jsx))
  {
    ast.Some? && ast.value.ExpressionStatement? && ast.value.expression.Jsx?
  }

  /** The text re-parsed when the direct parse fails: the code inside an
      empty-tag fragment. */
  function FragmentWrap(code: string): (r: string)
    ensures |r| == |code| + 5
    ensures r[..2] == "<>" && r[|r| - 3..] == "</>"
    ensures r[2..|r| - 3] == code
  {
    "<>" + code + "</>"
  }

  /** `isJSXExpression`: one parse; a parse that throws answers false. */
  function IsJsxExpression(parse: Parser, code: string): (r: bool)
    ensures r ==> parse(code).Some?
    ensures parse(code).Some? ==> (r <==> IsJsxStatement(Unwrap(parse(code).value)))
  {
    match parse(code)
    case None => false
    case Some(body) => IsJsxStatement(Unwrap(body))
  }

  /** `isJSX`: the fragment wrapper is tried only when the direct parse
      throws; both parses throwing answers false. */
  function IsJsx(parse: Parser, code: string): (r: bool)
    ensures parse(code).Some? ==> r == IsJsxExpression(parse, code)
    ensures parse(code).None? && parse(FragmentWrap(code)).None? ==> !r
    ensures parse(code).None? ==> r == IsJsxExpression(parse, FragmentWrap(code))
  {
    var ast :=
      match parse(code)
      case Some(body) => Unwrap(body)
      case None =>
        match parse(FragmentWrap(code))
        case Some(body) => Unwrap(body)
        case None => None;
    IsJsxStatement(ast)
  }

  /** Whatever `isJSXExpression` accepts, `isJSX` accepts too. */
  lemma JsxExpressionIsJsx(parse: Parser, code: string)
    ensures IsJsxExpression(parse, code) ==> IsJsx(parse, code)
  {
  }

  /** A direct parse into something other than JSX is final: no retry. */
  lemma NoRetryAfterSuccessfulParse(parse: Parser, code: string)
    requires parse(code).Some? && !IsJsxStatement(Unwrap(parse(code).value))
    ensures !IsJsx(parse, code)
  {
  }

}
