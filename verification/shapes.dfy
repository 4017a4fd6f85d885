/** Shape detection: `isStatelessComp` and `isStatefulComp`
    (src/modules/jsx.ts:151-175). Neither catches errors: a parse that throws,
    or a property read on a missing node, surfaces as a thrown error. */
module Shapes {
  import opened Options
  import opened Template

  /** The outcome of a call that either returns a boolean or throws. */
  datatype Answer = Returns(value: bool) | Throws

  /** JavaScript `a || b`: `b` is evaluated only when `a` returned false. */
  function Or(a: Answer, b: Answer): Answer
  {
    match a
    case Throws => Throws
    case Returns(true) => a
    case Returns(false) => b
  }

  /** `t.isFunction(x)`, which is false for null and undefined. */
  function IsFunction(x: Option<TNode>): (b: bool)
    ensures b <==> x == Some(FunctionNode)
  {
    x.Some? && x.value.FunctionNode?
  }

  /** The three shapes taken for a function component: a variable declaration
      whose first initialiser is a function, an export whose declaration is a
      function, or a function itself. */
  predicate StatelessShape(n: TNode)
  {
    match n
    case VariableDeclaration(ds) => |ds| > 0 && ds[0].init == Some(FunctionNode)
    case ExportNamed(d) => d == Some(FunctionNode)
    case ExportDefault(e) => e == FunctionNode
    case FunctionNode => true
    case _ => false
  }

  /** `isStatelessComp`: reading `declarations[0].init` of a declaration with
      no declarator throws. */
  function IsStatelessComp(parse: Parser, code: string): (r: Answer)
    ensures r == Returns(true) <==>
      parse(code).Some? && var ast := Unwrap(parse(code).value); ast.Some? && StatelessShape(ast.value)
    ensures r == Throws <==>
      parse(code).None? || Unwrap(parse(code).value) == Some(VariableDeclaration([]))
  {
    match parse(code)
    case None => Throws
    case Some(body) =>
      var ast := Unwrap(body);
      var declared :=
        if ast.Some? && ast.value.VariableDeclaration? then
          if |ast.value.declarations| == 0 then Throws
          else Returns(IsFunction(ast.value.declarations[0].init))
        else Returns(false);
      var exported :=
        if ast.Some? && ast.value.ExportNamed? then Returns(IsFunction(ast.value.declaration))
        else if ast.Some? && ast.value.ExportDefault? then Returns(IsFunction(Some(ast.value.exported)))
        else Returns(false);
      Or(Or(declared, exported), Returns(IsFunction(ast)))
  }

  const SupportedComponents: seq<string> := ["Component", "PureComponent"]

  /** The recognised base classes: `Component` or `PureComponent`, bare or
      qualified by `React`. */
  predicate RecognisedBase(superClass: TNode)
  {
    superClass in {
      Identifier("Component"), Identifier("PureComponent"),
      Member(Identifier("React"), Identifier("Component")),
      Member(Identifier("React"), Identifier("PureComponent"))
    }
  }

  /** `isSupportedComponent(classPath)`: reading `superClass` of a missing node,
      or `object` of a missing superclass, throws; a node other than a class
      has no superclass. */
  function IsSupportedComponent(classNode: Option<TNode>): (r: Answer)
    ensures r.Returns? <==> classNode.Some? && classNode.value.ClassNode? && classNode.value.superClass.Some?
    ensures r == Returns(true) <==>
      classNode.Some? && classNode.value.ClassNode? && classNode.value.superClass.Some? &&
      RecognisedBase(classNode.value.superClass.value)
  {
    match classNode
    case Some(ClassNode(Some(sc))) =>
      Returns(
        (sc.Member? && sc.obj.Identifier? && sc.obj.name == "React" &&
         sc.property.Identifier? && sc.property.name in SupportedComponents)
        || (sc.Identifier? && sc.name in SupportedComponents))
    case _ => Throws
  }

  /** A class with a recognised base, bare or as the declaration of an export. */
  predicate StatefulShape(n: TNode)
  {
    match n
    case ClassNode(Some(sc)) => RecognisedBase(sc)
    case ExportNamed(Some(ClassNode(Some(sc)))) => RecognisedBase(sc)
    case ExportDefault(ClassNode(Some(sc))) => RecognisedBase(sc)
    case _ => false
  }

  /** `isStatefulComp`. It answers false only for a bare class whose
      superclass is present but not recognised; every other non-match throws,
      including an exported class with an unrecognised base, for which the
      last test reads the superclass of the export node itself. */
  function IsStatefulComp(parse: Parser, code: string): (r: Answer)
    ensures r == Returns(true) <==>
      parse(code).Some? && var ast := Unwrap(parse(code).value); ast.Some? && StatefulShape(ast.value)
    ensures r == Returns(false) <==>
      parse(code).Some? && var ast := Unwrap(parse(code).value);
      ast.Some? && ast.value.ClassNode? && ast.value.superClass.Some? && !RecognisedBase(ast.value.superClass.value)
  {
    match parse(code)
    case None => Throws
    case Some(body) =>
      var ast := Unwrap(body);
      var named := if ast.Some? && ast.value.ExportNamed? then IsSupportedComponent(ast.value.declaration) else Returns(false);
      var byDefault := if ast.Some? && ast.value.ExportDefault? then IsSupportedComponent(Some(ast.value.exported)) else Returns(false);
      Or(Or(named, byDefault), IsSupportedComponent(ast))
  }

  /** The two detectors never both accept: code taken for a function
      component makes the class test throw. */
  lemma StatelessIsNotStateful(parse: Parser, code: string)
    ensures IsStatelessComp(parse, code) == Returns(true) ==> IsStatefulComp(parse, code) == Throws
    ensures IsStatefulComp(parse, code) == Returns(true) ==> IsStatelessComp(parse, code) == Returns(false)
  {
  }

  /** `export const X = () => ...` is not taken for a function component. */
  lemma ExportedArrowConstNotStateless(parse: Parser, code: string, ds: seq<Declarator>)
    requires parse(code) == Some([ExportNamed(Some(VariableDeclaration(ds)))])
    ensures IsStatelessComp(parse, code) == Returns(false)
  {
  }

  /** A class extending an unrecognised base is neither shape; exported, the
      class test throws. */
  lemma UnrecognisedBaseIsNeither(parse: Parser, code: string, superClass: TNode)
    requires !RecognisedBase(superClass)
    requires parse(code) == Some([ClassNode(Some(superClass))]) || parse(code) == Some([ExportNamed(Some(ClassNode(Some(superClass))))])
    ensures IsStatelessComp(parse, code) == Returns(false)
    ensures IsStatefulComp(parse, code) == (if parse(code) == Some([ClassNode(Some(superClass))]) then Returns(false) else Throws)
  {
  }

}
