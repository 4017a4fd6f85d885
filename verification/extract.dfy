/** `wrapWithComponent` (src/modules/jsx.ts:83-140): analyse and rewrite the
    selected fragment, print it, strip the statement's semicolon, and name the
    component after the target file. */
module Extract {
  import opened Options
  import opened Names
  import opened References

  datatype Metadata = Metadata(isJsx: bool, componentProperties: ComponentProperties, name: string)

  datatype ProcessedSelection = ProcessedSelection(text: string, metadata: Metadata)

  /** The parser (`jsxToAst`, None where it throws), the printer
      (`transformFromAst(...).code`) and the component builder
      (`buildComponent`) are parameters; the target path is given by its base
      name without extension. A parse that throws is not caught here, so the
      result is None exactly then. */
  function WrapWithComponent(parse: string -> Option<Program>, printer: Program -> string,
                             build: (string, string, ComponentProperties) -> string,
                             baseName: string, jsx: string): (r: Option<ProcessedSelection>)
    ensures r.Some? <==> parse(jsx).Some?
    ensures r.Some? ==>
      var analysis := Analyze(parse(jsx).value);
      var m := r.value.metadata;
      && m.isJsx
      && m.componentProperties == analysis.props
      && AllNoDup(m.componentProperties)
      && m.name == ComponentName(baseName) && '-' !in m.name
      && (';' in printer(analysis.program) ==> |StripLastSemicolon(printer(analysis.program))| == |printer(analysis.program)| - 1)
      && r.value.text == build(m.name, StripLastSemicolon(printer(analysis.program)), analysis.props)
  {
    match parse(jsx)
    case None => None
    case Some(ast) =>
      var analysis := Analyze(ast);
      var code := StripLastSemicolon(printer(analysis.program));
      var name := ComponentName(baseName);
      Some(ProcessedSelection(build(name, code, analysis.props), Metadata(true, analysis.props, name)))
  }

  // ---------------------------------------------------------------------------
  // The fragments of src/test/jsx.test.ts, as parsed trees (each an
  // expression statement around one element).

  function InContainer(e: Node): Node
  {
    Jsx(ExpressionContainer, [e])
  }

  function DivAround(e: Node): Program
  {
    Program([Other([Jsx(Element, [Jsx(OpeningTag, [JsxName("div")]), InContainer(e), Jsx(ClosingTag, [JsxName("div")])])])])
  }

  // Steps of the visitor on literal trees, one rule at a time.

  lemma StepJsx(k: JsxKind, cs: seq<Node>, cs': seq<Node>, shielded: bool, pp: Option<string>,
                p: ComponentProperties, q: ComponentProperties)
    requires VisitAll(cs, shielded, p) == VisitedAll(cs', q)
    ensures Visit(Jsx(k, cs), shielded, pp, p) == Visited(Jsx(k, cs'), q)
  {
  }

  lemma StepOther(cs: seq<Node>, cs': seq<Node>, shielded: bool, p: ComponentProperties, q: ComponentProperties)
    requires VisitAll(cs, shielded, p) == VisitedAll(cs', q)
    ensures Visit(Other(cs), shielded, None, p) == Visited(Other(cs'), q)
  {
  }

  lemma StepCons(n: Node, rest: seq<Node>, n': Node, rest': seq<Node>, shielded: bool,
                 p: ComponentProperties, q: ComponentProperties, r: ComponentProperties)
    requires Visit(n, shielded, None, p) == Visited(n', q)
    requires VisitAll(rest, shielded, q) == VisitedAll(rest', r)
    ensures VisitAll([n] + rest, shielded, p) == VisitedAll([n'] + rest', r)
  {
    assert ([n] + rest)[1..] == rest;
  }

  lemma StepOne(n: Node, n': Node, shielded: bool, p: ComponentProperties, q: ComponentProperties)
    requires Visit(n, shielded, None, p) == Visited(n', q)
    ensures VisitAll([n], shielded, p) == VisitedAll([n'], q)
  {
    StepCons(n, [], n', [], shielded, p, q, q);
    assert [n] + [] == [n];
  }

  lemma StepNames(name: string, shielded: bool, p: ComponentProperties)
    ensures VisitAll([JsxName(name)], shielded, p) == VisitedAll([JsxName(name)], p)
  {
    StepOne(JsxName(name), JsxName(name), shielded, p, p);
  }

  /** A tag holding only its name leaves the properties as they are. */
  lemma StepTag(k: JsxKind, name: string, p: ComponentProperties)
    ensures Visit(Jsx(k, [JsxName(name)]), false, None, p) == Visited(Jsx(k, [JsxName(name)]), p)
  {
    StepNames(name, false, p);
    StepJsx(k, [JsxName(name)], [JsxName(name)], false, None, p, p);
  }

  /** Two siblings, visited left to right. */
  lemma StepTwo(a: Node, b: Node, a': Node, b': Node, shielded: bool,
                p0: ComponentProperties, p1: ComponentProperties, p2: ComponentProperties)
    requires Visit(a, shielded, None, p0) == Visited(a', p1)
    requires Visit(b, shielded, None, p1) == Visited(b', p2)
    ensures VisitAll([a, b], shielded, p0) == VisitedAll([a', b'], p2)
  {
    StepOne(b, b', shielded, p1, p2);
    StepCons(a, [b], a', [b'], shielded, p0, p1, p2);
    assert [a] + [b] == [a, b];
    assert [a'] + [b'] == [a', b'];
  }

  /** Three siblings, visited left to right. */
  lemma StepThree(a: Node, b: Node, c: Node, a': Node, b': Node, c': Node, shielded: bool,
                  p0: ComponentProperties, p1: ComponentProperties, p2: ComponentProperties, p3: ComponentProperties)
    requires Visit(a, shielded, None, p0) == Visited(a', p1)
    requires Visit(b, shielded, None, p1) == Visited(b', p2)
    requires Visit(c, shielded, None, p2) == Visited(c', p3)
    ensures VisitAll([a, b, c], shielded, p0) == VisitedAll([a', b', c'], p3)
  {
    StepTwo(b, c, b', c', shielded, p1, p2, p3);
    StepCons(a, [b, c], a', [b', c'], shielded, p0, p1, p3);
    assert [a] + [b, c] == [a, b, c];
    assert [a'] + [b', c'] == [a', b', c'];
  }

  /** A program of one expression statement around one element. */
  lemma StepStatement(element: Node, element': Node, q: ComponentProperties)
    requires Visit(element, false, None, NoProperties) == Visited(element', q)
    ensures Analyze(Program([Other([element])])) == Analysis(Program([Other([element'])]), q)
  {
    StepOne(element, element', false, NoProperties, q);
    StepOther([element], [element'], false, NoProperties, q);
    StepOne(Other([element]), Other([element']), false, NoProperties, q);
  }

  /** Visiting `<div>{e}</div>` is visiting `e` inside the container. */
  lemma DivAroundVisit(e: Node, e': Node, q: ComponentProperties)
    requires Visit(e, false, None, NoProperties) == Visited(e', q)
    ensures Analyze(DivAround(e)) == Analysis(DivAround(e'), q)
  {
    var p := NoProperties;
    var opening, closing := Jsx(OpeningTag, [JsxName("div")]), Jsx(ClosingTag, [JsxName("div")]);
    StepTag(OpeningTag, "div", p);
    StepTag(ClosingTag, "div", q);
    StepOne(e, e', false, p, q);
    StepJsx(ExpressionContainer, [e], [e'], false, None, p, q);
    StepThree(opening, InContainer(e), closing, opening, InContainer(e'), closing, false, p, p, q, q);
    StepJsx(Element, [opening, InContainer(e), closing], [opening, InContainer(e'), closing], false, None, p, q);
    StepStatement(Jsx(Element, [opening, InContainer(e), closing]), Jsx(Element, [opening, InContainer(e'), closing]), q);
  }

  /** `<div>{this.props.foo}</div>`: `foo` is a member prop and only the `this.props` marker changes. */
  lemma PropsFragment()
    ensures Analyze(DivAround(Member(Member(This, "props", false), "foo", false))) ==
      Analysis(DivAround(Member(Member(This, "props", true), "foo", false)), ComponentProperties([], ["foo"], [], []))
  {
    var q := ComponentProperties([], ["foo"], [], []);
    assert Visit(Member(This, "props", false), true, Some("foo"), NoProperties) == Visited(Member(This, "props", true), q);
    DivAroundVisit(Member(Member(This, "props", false), "foo", false), Member(Member(This, "props", true), "foo", false), q);
  }

  /** `<div>{this.foo}</div>`: `foo` is a component member and the access now
      reads `this.props.foo`, marked on the outer node only. */
  lemma ComponentMemberFragment()
    ensures Analyze(DivAround(Member(This, "foo", false))) ==
      Analysis(DivAround(Member(Member(This, "props", false), "foo", true)), ComponentProperties([], [], [], ["foo"]))
  {
    var q := ComponentProperties([], [], [], ["foo"]);
    assert Visit(Member(This, "foo", false), false, None, NoProperties) == Visited(Member(Member(This, "props", false), "foo", true), q);
    DivAroundVisit(Member(This, "foo", false), Member(Member(This, "props", false), "foo", true), q);
  }

  /** `<div>{foo}</div>`: one argument and nothing else, so the tree is left as it is. */
  lemma FreeIdentifierFragment()
    ensures Analyze(DivAround(Identifier("foo"))) == Analysis(DivAround(Identifier("foo")), ComponentProperties(["foo"], [], [], []))
  {
    DivAroundVisit(Identifier("foo"), Identifier("foo"), ComponentProperties(["foo"], [], [], []));
  }

  /** `<div>{this.state.foo}</div>`: `foo` is state and the access now reads `this.props.foo`. */
  lemma StateFragment()
    ensures Analyze(DivAround(Member(Member(This, "state", false), "foo", false))) ==
      Analysis(DivAround(Member(Member(This, "props", true), "foo", false)), ComponentProperties([], [], ["foo"], []))
  {
    var q := ComponentProperties([], [], ["foo"], []);
    assert Visit(Member(This, "state", false), true, Some("foo"), NoProperties) == Visited(Member(This, "props", true), q);
    DivAroundVisit(Member(Member(This, "state", false), "foo", false), Member(Member(This, "props", true), "foo", false), q);
  }

  function WrapperOpening(): Node
  {
    Jsx(OpeningTag, [JsxName("Wrapper"), Jsx(Attribute, [JsxName("bar"), InContainer(Identifier("bar"))])])
  }

  /** The opening tag records `bar` from the attribute value, not the tag or attribute name. */
  lemma WrapperOpeningVisit()
    ensures Visit(WrapperOpening(), false, None, NoProperties) == Visited(WrapperOpening(), ComponentProperties(["bar"], [], [], []))
  {
    var p0, p1 := NoProperties, ComponentProperties(["bar"], [], [], []);
    var value := InContainer(Identifier("bar"));
    StepOne(Identifier("bar"), Identifier("bar"), false, p0, p1);
    StepJsx(ExpressionContainer, [Identifier("bar")], [Identifier("bar")], false, None, p0, p1);
    StepOne(value, value, false, p0, p1);
    StepCons(JsxName("bar"), [value], JsxName("bar"), [value], false, p0, p0, p1);
    assert [JsxName("bar")] + [value] == [JsxName("bar"), value];
    var attribute := Jsx(Attribute, [JsxName("bar"), value]);
    StepJsx(Attribute, [JsxName("bar"), value], [JsxName("bar"), value], false, None, p0, p1);
    StepOne(attribute, attribute, false, p0, p1);
    StepCons(JsxName("Wrapper"), [attribute], JsxName("Wrapper"), [attribute], false, p0, p0, p1);
    assert [JsxName("Wrapper")] + [attribute] == [JsxName("Wrapper"), attribute];
    StepJsx(OpeningTag, [JsxName("Wrapper"), attribute], [JsxName("Wrapper"), attribute], false, None, p0, p1);
  }

  /** `this.props.foo` in a container records `foo` as a member prop and marks the `this.props` access. */
  lemma WrapperAccessVisit()
    ensures
      var access := Member(Member(This, "props", false), "foo", false);
      var access' := Member(Member(This, "props", true), "foo", false);
      Visit(InContainer(access), false, None, ComponentProperties(["bar"], [], [], [])) ==
        Visited(InContainer(access'), ComponentProperties(["bar"], ["foo"], [], []))
  {
    var p1, p2 := ComponentProperties(["bar"], [], [], []), ComponentProperties(["bar"], ["foo"], [], []);
    var access := Member(Member(This, "props", false), "foo", false);
    var access' := Member(Member(This, "props", true), "foo", false);
    assert Visit(Member(This, "props", false), true, Some("foo"), p1) == Visited(Member(This, "props", true), p2);
    assert Visit(access, false, None, p1) == Visited(access', p2);
    StepOne(access, access', false, p1, p2);
    StepJsx(ExpressionContainer, [access], [access'], false, None, p1, p2);
  }

  /** `<Wrapper bar={bar}>{this.props.foo}</Wrapper>`: `bar` is an argument,
      `foo` a member prop, and the tag name `Wrapper` is neither. */
  lemma WrapperFragment()
    ensures
      var closing := Jsx(ClosingTag, [JsxName("Wrapper")]);
      var element := Jsx(Element, [WrapperOpening(), InContainer(Member(Member(This, "props", false), "foo", false)), closing]);
      var rewritten := Jsx(Element, [WrapperOpening(), InContainer(Member(Member(This, "props", true), "foo", false)), closing]);
      Analyze(Program([Other([element])])) ==
        Analysis(Program([Other([rewritten])]), ComponentProperties(["bar"], ["foo"], [], []))
  {
    var p0, p1, p2 := NoProperties, ComponentProperties(["bar"], [], [], []), ComponentProperties(["bar"], ["foo"], [], []);
    var closing := Jsx(ClosingTag, [JsxName("Wrapper")]);
    var container := InContainer(Member(Member(This, "props", false), "foo", false));
    var container' := InContainer(Member(Member(This, "props", true), "foo", false));
    WrapperOpeningVisit();
    WrapperAccessVisit();
    StepTag(ClosingTag, "Wrapper", p2);
    StepThree(WrapperOpening(), container, closing, WrapperOpening(), container', closing, false, p0, p1, p2, p2);
    StepJsx(Element, [WrapperOpening(), container, closing], [WrapperOpening(), container', closing], false, None, p0, p2);
    StepStatement(Jsx(Element, [WrapperOpening(), container, closing]), Jsx(Element, [WrapperOpening(), container', closing]), p2);
  }

}
