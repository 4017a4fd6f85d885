/** Range containment: `pathContains`, `findContainerPath` and
    `isRangeContainedInJSXExpression` (src/modules/jsx.ts:43-72). */
module Ranges {
  import opened Options

  /** A position as the parser records it in a node's location. */
  datatype Position = Position(line: int, column: int)

  /** A position as the editor reports the ends of a selection. */
  datatype EditorPosition = EditorPosition(line: int, character: int)

  datatype Location = Location(start: Position, end: Position)

  /** A parsed node: its location, whether the parser's type predicates class
      it as JSX and as an Expression, and its children in traversal order. */
  datatype SyntaxNode = SyntaxNode(isJsx: bool, isExpression: bool, loc: Location, children: seq<SyntaxNode>)

  /** Strict lexicographic order on (line, column) pairs. */
  predicate Before(a: (int, int), b: (int, int))
  {
    a.0 < b.0 || (a.0 == b.0 && a.1 < b.1)
  }

  lemma BeforeIsStrictTotalOrder(a: (int, int), b: (int, int), c: (int, int))
    ensures !Before(a, a)
    ensures Before(a, b) && Before(b, c) ==> Before(a, c)
    ensures a == b || Before(a, b) || Before(b, a)
  {
  }

  /** `pathContains`: the node starts strictly before the selection starts and
      ends strictly after the selection ends. */
  function PathContains(n: SyntaxNode, start: EditorPosition, end: EditorPosition): (r: bool)
    ensures r <==>
      Before((n.loc.start.line, n.loc.start.column), (start.line, start.character)) &&
      Before((end.line, end.character), (n.loc.end.line, n.loc.end.column))
  {
    ((n.loc.start.line < start.line) || (n.loc.start.line == start.line && n.loc.start.column < start.character))
    && ((n.loc.end.line > end.line) || (n.loc.end.line == end.line && n.loc.end.column > end.character))
  }

  /** Containment is strict: a node spanning exactly the selection does not contain it. */
  lemma ExactSpanNotContained(n: SyntaxNode, start: EditorPosition, end: EditorPosition)
    requires n.loc.start == Position(start.line, start.character)
    requires n.loc.end == Position(end.line, end.character)
    ensures !PathContains(n, start, end)
  {
  }

  /** A node containing a selection contains every narrower selection. */
  lemma NarrowerSelectionContained(n: SyntaxNode, start: EditorPosition, end: EditorPosition,
                                   start': EditorPosition, end': EditorPosition)
    requires PathContains(n, start, end)
    requires !Before((start'.line, start'.character), (start.line, start.character))
    requires !Before((end.line, end.character), (end'.line, end'.character))
    ensures PathContains(n, start', end')
  {
  }

  /** A node whose span encloses a containing node's span contains the selection too. */
  lemma EnclosingNodeContains(outer: SyntaxNode, inner: SyntaxNode, start: EditorPosition, end: EditorPosition)
    requires PathContains(inner, start, end)
    requires !Before((inner.loc.start.line, inner.loc.start.column), (outer.loc.start.line, outer.loc.start.column))
    requires !Before((outer.loc.end.line, outer.loc.end.column), (inner.loc.end.line, inner.loc.end.column))
    ensures PathContains(outer, start, end)
  {
  }

  /** The order in which a depth-first traversal of `ns` exits nodes: every
      node after all its descendants, siblings left to right. */
  function ExitOrder(ns: seq<SyntaxNode>): seq<SyntaxNode>
  {
    if |ns| == 0 then [] else ExitOrder(ns[0].children) + [ns[0]] + ExitOrder(ns[1..])
  }

  /** Reference definition: the first node of `xs` containing the selection. */
  function FirstContaining(xs: seq<SyntaxNode>, start: EditorPosition, end: EditorPosition): (r: Option<SyntaxNode>)
    ensures r.Some? ==> r.value in xs && PathContains(r.value, start, end)
    ensures r.None? <==> forall i :: 0 <= i < |xs| ==> !PathContains(xs[i], start, end)
  {
    if |xs| == 0 then None
    else if PathContains(xs[0], start, end) then Some(xs[0])
    else FirstContaining(xs[1..], start, end)
  }

  lemma {:induction false} FirstContainingAppend(a: seq<SyntaxNode>, b: seq<SyntaxNode>, start: EditorPosition, end: EditorPosition)
    ensures FirstContaining(a + b, start, end) ==
      if FirstContaining(a, start, end).Some? then FirstContaining(a, start, end) else FirstContaining(b, start, end)
    decreases |a|
  {
    if |a| == 0 {
      assert a + b == b;
    } else {
      assert (a + b)[1..] == a[1..] + b;
      FirstContainingAppend(a[1..], b, start, end);
    }
  }

  /** The `exit` visitor of `findContainerPath` run over `ns`: the first node,
      in exit order, containing the selection. Since a node is exited after
      its descendants, none of the found node's descendants contains it. */
  function FindInForest(ns: seq<SyntaxNode>, start: EditorPosition, end: EditorPosition): (r: Option<SyntaxNode>)
    ensures r.Some? ==> PathContains(r.value, start, end) && r.value in ExitOrder(ns)
    ensures r.Some? ==> forall d :: d in ExitOrder(r.value.children) ==> !PathContains(d, start, end)
    ensures r.None? ==> forall d :: d in ExitOrder(ns) ==> !PathContains(d, start, end)
  {
    if |ns| == 0 then None
    else
      var inFirst := FindInTree(ns[0], start, end);
      if inFirst.Some? then inFirst else FindInForest(ns[1..], start, end)
  }

  function FindInTree(n: SyntaxNode, start: EditorPosition, end: EditorPosition): (r: Option<SyntaxNode>)
    ensures r.Some? ==> PathContains(r.value, start, end) && r.value in ExitOrder(n.children) + [n]
    ensures r.Some? ==> forall d :: d in ExitOrder(r.value.children) ==> !PathContains(d, start, end)
    ensures r.None? ==> forall d :: d in ExitOrder(n.children) + [n] ==> !PathContains(d, start, end)
  {
    var below := FindInForest(n.children, start, end);
    if below.Some? then below
    else if PathContains(n, start, end) then Some(n)
    else None
  }

  /** The search is exactly "first in exit order". */
  lemma {:induction false} FindIsFirstInExitOrder(ns: seq<SyntaxNode>, start: EditorPosition, end: EditorPosition)
    ensures FindInForest(ns, start, end) == FirstContaining(ExitOrder(ns), start, end)
    decreases ns
  {
    if |ns| > 0 {
      var n := ns[0];
      FindIsFirstInExitOrder(n.children, start, end);
      FindIsFirstInExitOrder(ns[1..], start, end);
      FirstContainingAppend(ExitOrder(n.children), [n], start, end);
      FirstContainingAppend(ExitOrder(n.children) + [n], ExitOrder(ns[1..]), start, end);
    }
  }

  /** `findContainerPath`: the traversal visits the root's descendants but not
      the root itself. */
  function FindContainerPath(root: SyntaxNode, start: EditorPosition, end: EditorPosition): (r: Option<SyntaxNode>)
    ensures r == FirstContaining(ExitOrder(root.children), start, end)
  {
    FindIsFirstInExitOrder(root.children, start, end);
    FindInForest(root.children, start, end)
  }

  /** `isRangeContainedInJSXExpression`, with the parser as a parameter that
      answers None where parsing throws. */
  function IsRangeContainedInJsxExpression(parse: string -> Option<SyntaxNode>, code: string,
                                           start: EditorPosition, end: EditorPosition): (r: bool)
    ensures parse(code).None? ==> !r
    ensures r <==>
      parse(code).Some? &&
      var first := FirstContaining(ExitOrder(parse(code).value.children), start, end);
      first.Some? && first.value.isJsx && first.value.isExpression
  {
    match parse(code)
    case None => false
    case Some(ast) =>
      var found := FindContainerPath(ast, start, end);
      found.Some? && found.value.isJsx && found.value.isExpression
  }

  function Leaf(isJsx: bool, isExpression: bool, line: int, from: int, to: int): SyntaxNode
  {
    SyntaxNode(isJsx, isExpression, Location(Position(line, from), Position(line, to)), [])
  }

  /** The parse of `const x = <div>{y}</div>;` on line 1, from the file node
      down; every node carries the parser's JSX and Expression classes. */
  function DeclarationWithJsx(): SyntaxNode
  {
    var ident := Leaf(false, true, 1, 16, 17);
    var container := SyntaxNode(true, false, Location(Position(1, 15), Position(1, 18)), [ident]);
    var opening := SyntaxNode(true, false, Location(Position(1, 10), Position(1, 15)), [Leaf(true, false, 1, 11, 14)]);
    var closing := SyntaxNode(true, false, Location(Position(1, 18), Position(1, 24)), [Leaf(true, false, 1, 20, 23)]);
    var element := SyntaxNode(true, true, Location(Position(1, 10), Position(1, 24)), [opening, container, closing]);
    var declarator := SyntaxNode(false, false, Location(Position(1, 6), Position(1, 24)), [Leaf(false, true, 1, 6, 7), element]);
    var declaration := SyntaxNode(false, false, Location(Position(1, 0), Position(1, 25)), [declarator]);
    var program := SyntaxNode(false, false, Location(Position(1, 0), Position(1, 25)), [declaration]);
    SyntaxNode(false, false, Location(Position(1, 0), Position(1, 25)), [program])
  }

  /** Selecting `y` keeps the expression container `{y}`, the innermost node
      strictly around it, which is JSX but not an Expression; selecting `{y}`
      keeps the element, which is both; selecting `x` keeps the declaration. */
  lemma DeclarationWithJsxSelections(parse: string -> Option<SyntaxNode>)
    requires parse("const x = <div>{y}</div>;") == Some(DeclarationWithJsx())
    ensures !IsRangeContainedInJsxExpression(parse, "const x = <div>{y}</div>;", EditorPosition(1, 16), EditorPosition(1, 17))
    ensures IsRangeContainedInJsxExpression(parse, "const x = <div>{y}</div>;", EditorPosition(1, 15), EditorPosition(1, 18))
    ensures !IsRangeContainedInJsxExpression(parse, "const x = <div>{y}</div>;", EditorPosition(1, 6), EditorPosition(1, 7))
  {
    var file := DeclarationWithJsx();
    var declaration := file.children[0].children[0];
    var declarator := declaration.children[0];
    var element := declarator.children[1];
    var container := element.children[1];
    var opening := element.children[0];
    // Selecting y: nothing before the container in exit order contains it.
    var y0, y1 := EditorPosition(1, 16), EditorPosition(1, 17);
    assert FindInForest(declarator.children[0..1], y0, y1).None?;
    assert FindInTree(opening, y0, y1).None?;
    assert FindInTree(container, y0, y1) == Some(container);
    assert FindInTree(element, y0, y1) == Some(container);
    assert FindInTree(declarator, y0, y1) == Some(container);
    assert FindContainerPath(file, y0, y1) == Some(container);
    // Selecting {y}: the element is the first container.
    var c0, c1 := EditorPosition(1, 15), EditorPosition(1, 18);
    assert FindInTree(opening, c0, c1).None?;
    assert FindInTree(container, c0, c1).None?;
    assert FindInTree(element.children[2], c0, c1).None?;
    assert FindInTree(element, c0, c1) == Some(element);
    assert FindInTree(declarator, c0, c1) == Some(element);
    assert FindContainerPath(file, c0, c1) == Some(element);
    // Selecting x: only the declaration and its ancestors contain it.
    var x0, x1 := EditorPosition(1, 6), EditorPosition(1, 7);
    assert FindInTree(element, x0, x1).None?;
    assert FindInTree(declarator, x0, x1).None?;
    assert FindInTree(declaration, x0, x1) == Some(declaration);
    assert FindContainerPath(file, x0, x1) == Some(declaration);
  }

}
