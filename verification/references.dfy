/** Reference analysis and rewrite: the visitor `wrapWithComponent` runs over
    the parsed fragment (src/modules/jsx.ts:85-121), as one pre-order pass
    that returns the rewritten tree and the four binding sequences. */
module References {
  import opened Options

  datatype JsxKind = Element | Fragment | OpeningTag | ClosingTag | Attribute | ExpressionContainer | Text

  /** A fragment's syntax tree. `Member` is a non-computed member access whose
      property is a name; its `visited` flag is the `wasVisited` marker the
      visitor stamps on nodes it has handled. `JsxName` is a tag or attribute
      name, a node kind distinct from `Identifier`. `Other` is any remaining
      node with its children in traversal order. */
  datatype Node =
    | Identifier(name: string)
    | This
    | Member(obj: Node, property: string, visited: bool)
    | Arrow(params: seq<Node>, body: Node)
    | JsxName(name: string)
    | Jsx(kind: JsxKind, children: seq<Node>)
    | Other(children: seq<Node>)

  /** The parsed fragment: the program body, whose root the traversal does
      not visit. */
  datatype Program = Program(body: seq<Node>)

  /** The four insertion-ordered sets the visitor fills, as sequences. */
  datatype ComponentProperties = ComponentProperties(
    argumentProps: seq<string>,
    memberProps: seq<string>,
    state: seq<string>,
    componentMembers: seq<string>)

  const NoProperties := ComponentProperties([], [], [], [])

  predicate NoDup(s: seq<string>)
  {
    forall i, j :: 0 <= i < j < |s| ==> s[i] != s[j]
  }

  predicate AllNoDup(p: ComponentProperties)
  {
    NoDup(p.argumentProps) && NoDup(p.memberProps) && NoDup(p.state) && NoDup(p.componentMembers)
  }

  /** `Set.prototype.add`: append unless already present. */
  function Add(s: seq<string>, x: string): (r: seq<string>)
    ensures s <= r && x in r
    ensures forall y :: y in r <==> y in s || y == x
    ensures NoDup(s) ==> NoDup(r)
  {
    if x in s then s else s + [x]
  }

  /** `b` is `a` with names appended, and stays duplicate-free if `a` was. */
  predicate Extends(a: seq<string>, b: seq<string>)
  {
    a <= b && (NoDup(a) ==> NoDup(b))
  }

  predicate Grows(p: ComponentProperties, q: ComponentProperties)
  {
    Extends(p.argumentProps, q.argumentProps) && Extends(p.memberProps, q.memberProps) &&
    Extends(p.state, q.state) && Extends(p.componentMembers, q.componentMembers)
  }

  datatype Visited = Visited(node: Node, props: ComponentProperties)
  datatype VisitedAll = VisitedAll(nodes: seq<Node>, props: ComponentProperties)

  /** The visitor on one node. `shielded` says some ancestor is a member access
      or an arrow function (the `findParent` test of the Identifier rule);
      `parentProperty` is the property name of the member access whose object
      this node is, if any (`path.parent.property`). A handled access on
      `this` is marked visited; `this.x` is replaced by `this.props.x` and its
      subtree is skipped. */
  function Visit(n: Node, shielded: bool, parentProperty: Option<string>, p: ComponentProperties): (r: Visited)
    ensures Grows(p, r.props)
    ensures r.node.This? <==> n.This?
    decreases n
  {
    match n
    case Identifier(x) =>
      Visited(n, if shielded then p else p.(argumentProps := Add(p.argumentProps, x)))
    case This => Visited(n, p)
    case JsxName(_) => Visited(n, p)
    case Member(o, q, v) =>
      if !v && o.This? then
        if parentProperty.Some? && (q == "props" || q == "state") then
          if q == "props" then
            Visited(Member(o, q, true), p.(memberProps := Add(p.memberProps, parentProperty.value)))
          else
            Visited(Member(o, "props", true), p.(state := Add(p.state, parentProperty.value)))
        else
          Visited(Member(Member(o, "props", false), q, true), p.(componentMembers := Add(p.componentMembers, q)))
      else
        var inner := Visit(o, true, Some(q), p);
        Visited(Member(inner.node, q, v), inner.props)
    case Arrow(ps, b) =>
      var params := VisitAll(ps, true, p);
      var body := Visit(b, true, None, params.props);
      Visited(Arrow(params.nodes, body.node), body.props)
    case Jsx(k, cs) =>
      var children := VisitAll(cs, shielded, p);
      Visited(Jsx(k, children.nodes), children.props)
    case Other(cs) =>
      var children := VisitAll(cs, shielded, p);
      Visited(Other(children.nodes), children.props)
  }

  /** The visitor on a sequence of siblings, left to right. */
  function VisitAll(ns: seq<Node>, shielded: bool, p: ComponentProperties): (r: VisitedAll)
    ensures Grows(p, r.props)
    ensures |r.nodes| == |ns|
    decreases ns
  {
    if |ns| == 0 then VisitedAll([], p)
    else
      var first := Visit(ns[0], shielded, None, p);
      var rest := VisitAll(ns[1..], shielded, first.props);
      VisitedAll([first.node] + rest.nodes, rest.props)
  }

  // ---------------------------------------------------------------------------
  // Where each name comes from, stated over the input tree.

  /** An identifier reached from the root through JSX and other nodes only,
      never from inside a member access or an arrow function. */
  predicate FreeIdentifier(n: Node, x: string)
  {
    match n
    case Identifier(y) => y == x
    case Jsx(_, cs) => exists i :: 0 <= i < |cs| && FreeIdentifier(cs[i], x)
    case Other(cs) => exists i :: 0 <= i < |cs| && FreeIdentifier(cs[i], x)
    case _ => false
  }

  /** An unmarked `this.<carrier>` followed by the property `x` occurs in `n`. */
  predicate ReadThrough(n: Node, carrier: string, x: string)
  {
    match n
    case Member(o, q, _) => (o == Member(This, carrier, false) && q == x) || ReadThrough(o, carrier, x)
    case Arrow(ps, b) => (exists i :: 0 <= i < |ps| && ReadThrough(ps[i], carrier, x)) || ReadThrough(b, carrier, x)
    case Jsx(_, cs) => exists i :: 0 <= i < |cs| && ReadThrough(cs[i], carrier, x)
    case Other(cs) => exists i :: 0 <= i < |cs| && ReadThrough(cs[i], carrier, x)
    case _ => false
  }

  /** `n` itself is an unmarked `this.<carrier>` whose parent reads `x` from it. */
  predicate ReadAt(n: Node, parentProperty: Option<string>, carrier: string, x: string)
  {
    n == Member(This, carrier, false) && parentProperty == Some(x)
  }

  /** An unmarked `this.x` occurs in `n` other than a `this.props` or
      `this.state` that a further property is read from. */
  predicate MemberRead(n: Node, parentProperty: Option<string>, x: string)
  {
    match n
    case Member(o, q, v) =>
      if o.This? && !v then q == x && !(parentProperty.Some? && (q == "props" || q == "state"))
      else MemberRead(o, Some(q), x)
    case Arrow(ps, b) => (exists i :: 0 <= i < |ps| && MemberRead(ps[i], None, x)) || MemberRead(b, None, x)
    case Jsx(_, cs) => exists i :: 0 <= i < |cs| && MemberRead(cs[i], None, x)
    case Other(cs) => exists i :: 0 <= i < |cs| && MemberRead(cs[i], None, x)
    case _ => false
  }

  /** An identifier lands in argumentProps exactly when it is free. */
  lemma {:induction false} ArgumentPropsOfVisit(n: Node, shielded: bool, pp: Option<string>, p: ComponentProperties, x: string)
    ensures x in Visit(n, shielded, pp, p).props.argumentProps <==> x in p.argumentProps || (!shielded && FreeIdentifier(n, x))
    decreases n
  {
    match n
    case Member(o, q, v) =>
      if !(!v && o.This?) {
        ArgumentPropsOfVisit(o, true, Some(q), p, x);
      }
    case Arrow(ps, b) =>
      ArgumentPropsOfVisitAll(ps, true, p, x);
      ArgumentPropsOfVisit(b, true, None, VisitAll(ps, true, p).props, x);
    case Jsx(_, cs) => ArgumentPropsOfVisitAll(cs, shielded, p, x);
    case Other(cs) => ArgumentPropsOfVisitAll(cs, shielded, p, x);
    case _ =>
  }

  lemma {:induction false} ArgumentPropsOfVisitAll(ns: seq<Node>, shielded: bool, p: ComponentProperties, x: string)
    ensures x in VisitAll(ns, shielded, p).props.argumentProps <==>
      x in p.argumentProps || (!shielded && exists i :: 0 <= i < |ns| && FreeIdentifier(ns[i], x))
    decreases ns
  {
    if |ns| > 0 {
      ArgumentPropsOfVisit(ns[0], shielded, None, p, x);
      ArgumentPropsOfVisitAll(ns[1..], shielded, Visit(ns[0], shielded, None, p).props, x);
      assert forall j :: 0 <= j < |ns| - 1 ==> ns[1..][j] == ns[j + 1];
      if !shielded && FreeIdentifier(ns[0], x) {
      } else if exists i :: 0 <= i < |ns| && FreeIdentifier(ns[i], x) {
        var i :| 0 <= i < |ns| && FreeIdentifier(ns[i], x);
        assert i > 0 ==> FreeIdentifier(ns[1..][i - 1], x);
      }
    }
  }

  /** The sequence a `this.<carrier>.x` read is recorded in. */
  function Collected(p: ComponentProperties, carrier: string): seq<string>
  {
    if carrier == "props" then p.memberProps else p.state
  }

  /** A name lands in memberProps (carrier `props`) or state (carrier `state`)
      exactly when `this.<carrier>.<name>` is read somewhere in the tree. */
  lemma {:induction false} CarrierPropsOfVisit(n: Node, shielded: bool, pp: Option<string>, p: ComponentProperties,
                                               carrier: string, x: string)
    requires carrier == "props" || carrier == "state"
    ensures x in Collected(Visit(n, shielded, pp, p).props, carrier) <==>
      x in Collected(p, carrier) || ReadAt(n, pp, carrier, x) || ReadThrough(n, carrier, x)
    decreases n, 1
  {
    match n
    case Member(o, q, v) => CarrierPropsOfMember(o, q, v, shielded, pp, p, carrier, x);
    case Arrow(ps, b) => CarrierPropsOfArrow(ps, b, shielded, pp, p, carrier, x);
    case Jsx(_, cs) => CarrierPropsOfVisitAll(cs, shielded, p, carrier, x);
    case Other(cs) => CarrierPropsOfVisitAll(cs, shielded, p, carrier, x);
    case _ =>
  }

  lemma {:induction false} CarrierPropsOfMember(o: Node, q: string, v: bool, shielded: bool, pp: Option<string>,
                                                p: ComponentProperties, carrier: string, x: string)
    requires carrier == "props" || carrier == "state"
    ensures x in Collected(Visit(Member(o, q, v), shielded, pp, p).props, carrier) <==>
      x in Collected(p, carrier) || ReadAt(Member(o, q, v), pp, carrier, x) || ReadThrough(Member(o, q, v), carrier, x)
    decreases Member(o, q, v), 0
  {
    if !(!v && o.This?) {
      CarrierPropsOfVisit(o, true, Some(q), p, carrier, x);
    }
  }

  lemma {:induction false} CarrierPropsOfArrow(ps: seq<Node>, b: Node, shielded: bool, pp: Option<string>,
                                               p: ComponentProperties, carrier: string, x: string)
    requires carrier == "props" || carrier == "state"
    ensures x in Collected(Visit(Arrow(ps, b), shielded, pp, p).props, carrier) <==>
      x in Collected(p, carrier) || ReadAt(Arrow(ps, b), pp, carrier, x) || ReadThrough(Arrow(ps, b), carrier, x)
    decreases Arrow(ps, b), 0
  {
    CarrierPropsOfVisitAll(ps, true, p, carrier, x);
    CarrierPropsOfVisit(b, true, None, VisitAll(ps, true, p).props, carrier, x);
  }

  lemma {:induction false} CarrierPropsOfVisitAll(ns: seq<Node>, shielded: bool, p: ComponentProperties, carrier: string, x: string)
    requires carrier == "props" || carrier == "state"
    ensures x in Collected(VisitAll(ns, shielded, p).props, carrier) <==>
      x in Collected(p, carrier) || exists i :: 0 <= i < |ns| && ReadThrough(ns[i], carrier, x)
    decreases ns, 2
  {
    if |ns| > 0 {
      CarrierPropsOfVisit(ns[0], shielded, None, p, carrier, x);
      CarrierPropsOfVisitAll(ns[1..], shielded, Visit(ns[0], shielded, None, p).props, carrier, x);
      assert forall j :: 0 <= j < |ns| - 1 ==> ns[1..][j] == ns[j + 1];
      if exists i :: 0 <= i < |ns| && ReadThrough(ns[i], carrier, x) {
        var i :| 0 <= i < |ns| && ReadThrough(ns[i], carrier, x);
        assert i > 0 ==> ReadThrough(ns[1..][i - 1], carrier, x);
      }
    }
  }

  /** A name lands in componentMembers exactly when `this.<name>` is read
      other than as `this.props.y` or `this.state.y`. */
  lemma {:induction false} ComponentMembersOfVisit(n: Node, shielded: bool, pp: Option<string>, p: ComponentProperties, x: string)
    ensures x in Visit(n, shielded, pp, p).props.componentMembers <==> x in p.componentMembers || MemberRead(n, pp, x)
    decreases n
  {
    match n
    case Member(o, q, v) =>
      if !(!v && o.This?) {
        ComponentMembersOfVisit(o, true, Some(q), p, x);
      }
    case Arrow(ps, b) =>
      ComponentMembersOfVisitAll(ps, true, p, x);
      ComponentMembersOfVisit(b, true, None, VisitAll(ps, true, p).props, x);
    case Jsx(_, cs) => ComponentMembersOfVisitAll(cs, shielded, p, x);
    case Other(cs) => ComponentMembersOfVisitAll(cs, shielded, p, x);
    case _ =>
  }

  lemma {:induction false} ComponentMembersOfVisitAll(ns: seq<Node>, shielded: bool, p: ComponentProperties, x: string)
    ensures x in VisitAll(ns, shielded, p).props.componentMembers <==>
      x in p.componentMembers || exists i :: 0 <= i < |ns| && MemberRead(ns[i], None, x)
    decreases ns
  {
    if |ns| > 0 {
      ComponentMembersOfVisit(ns[0], shielded, None, p, x);
      ComponentMembersOfVisitAll(ns[1..], shielded, Visit(ns[0], shielded, None, p).props, x);
      assert forall j :: 0 <= j < |ns| - 1 ==> ns[1..][j] == ns[j + 1];
      if exists i :: 0 <= i < |ns| && MemberRead(ns[i], None, x) {
        var i :| 0 <= i < |ns| && MemberRead(ns[i], None, x);
        assert i > 0 ==> MemberRead(ns[1..][i - 1], None, x);
      }
    }
  }

  // ---------------------------------------------------------------------------
  // The shape of the rewritten tree.

  /** No node carries the visited marker, as in a tree fresh from the parser. */
  predicate Fresh(n: Node)
  {
    match n
    case Member(o, _, v) => !v && Fresh(o)
    case Arrow(ps, b) => (forall i :: 0 <= i < |ps| ==> Fresh(ps[i])) && Fresh(b)
    case Jsx(_, cs) => forall i :: 0 <= i < |cs| ==> Fresh(cs[i])
    case Other(cs) => forall i :: 0 <= i < |cs| ==> Fresh(cs[i])
    case _ => true
  }

  /** Every member access on `this` reads `props`: no `this.state` and no
      direct `this.x` is left. */
  predicate ThisOnlyProps(n: Node)
  {
    match n
    case Member(o, q, _) => (o.This? ==> q == "props") && ThisOnlyProps(o)
    case Arrow(ps, b) => (forall i :: 0 <= i < |ps| ==> ThisOnlyProps(ps[i])) && ThisOnlyProps(b)
    case Jsx(_, cs) => forall i :: 0 <= i < |cs| ==> ThisOnlyProps(cs[i])
    case Other(cs) => forall i :: 0 <= i < |cs| ==> ThisOnlyProps(cs[i])
    case _ => true
  }

  lemma {:induction false} VisitLeavesOnlyProps(n: Node, shielded: bool, pp: Option<string>, p: ComponentProperties)
    requires Fresh(n)
    ensures ThisOnlyProps(Visit(n, shielded, pp, p).node)
    decreases n
  {
    match n
    case Member(o, q, v) =>
      if !o.This? {
        VisitLeavesOnlyProps(o, true, Some(q), p);
      }
    case Arrow(ps, b) =>
      VisitAllLeavesOnlyProps(ps, true, p);
      VisitLeavesOnlyProps(b, true, None, VisitAll(ps, true, p).props);
    case Jsx(_, cs) => VisitAllLeavesOnlyProps(cs, shielded, p);
    case Other(cs) => VisitAllLeavesOnlyProps(cs, shielded, p);
    case _ =>
  }

  lemma {:induction false} VisitAllLeavesOnlyProps(ns: seq<Node>, shielded: bool, p: ComponentProperties)
    ensures (forall i :: 0 <= i < |ns| ==> Fresh(ns[i])) ==>
      forall i :: 0 <= i < |VisitAll(ns, shielded, p).nodes| ==> ThisOnlyProps(VisitAll(ns, shielded, p).nodes[i])
    decreases ns
  {
    if |ns| > 0 && forall i :: 0 <= i < |ns| ==> Fresh(ns[i]) {
      VisitLeavesOnlyProps(ns[0], shielded, None, p);
      VisitAllLeavesOnlyProps(ns[1..], shielded, Visit(ns[0], shielded, None, p).props);
    }
  }

  /** The tree with every visited marker cleared. */
  function Erase(n: Node): (r: Node)
    ensures Fresh(r)
  {
    match n
    case Member(o, q, _) => Member(Erase(o), q, false)
    case Arrow(ps, b) => Arrow(EraseAll(ps), Erase(b))
    case Jsx(k, cs) => Jsx(k, EraseAll(cs))
    case Other(cs) => Other(EraseAll(cs))
    case _ => n
  }

  function EraseAll(ns: seq<Node>): (r: seq<Node>)
    ensures |r| == |ns|
    ensures forall i :: 0 <= i < |ns| ==> r[i] == Erase(ns[i])
  {
    if |ns| == 0 then [] else [Erase(ns[0])] + EraseAll(ns[1..])
  }

  /** The tree the visitor leaves, markers aside, for a tree fresh from the
      parser: a `this.props` or `this.state` that a property is read from
      reads `this.props`; any other `this.x` reads `this.props.x`; every other
      node keeps its shape. */
  function Rewritten(n: Node, parentProperty: Option<string>): Node
    decreases n
  {
    match n
    case Member(o, q, _) =>
      if o.This? then
        if parentProperty.Some? && (q == "props" || q == "state") then Member(This, "props", false)
        else Member(Member(This, "props", false), q, false)
      else Member(Rewritten(o, Some(q)), q, false)
    case Arrow(ps, b) => Arrow(RewrittenAll(ps), Rewritten(b, None))
    case Jsx(k, cs) => Jsx(k, RewrittenAll(cs))
    case Other(cs) => Other(RewrittenAll(cs))
    case _ => n
  }

  function RewrittenAll(ns: seq<Node>): (r: seq<Node>)
    ensures |r| == |ns|
    ensures forall i :: 0 <= i < |ns| ==> r[i] == Rewritten(ns[i], None)
    decreases ns
  {
    if |ns| == 0 then [] else [Rewritten(ns[0], None)] + RewrittenAll(ns[1..])
  }

  /** On a tree fresh from the parser, the visitor's output is the rewritten
      tree up to markers. */
  lemma {:induction false} VisitRewrites(n: Node, shielded: bool, pp: Option<string>, p: ComponentProperties)
    requires Fresh(n)
    ensures Erase(Visit(n, shielded, pp, p).node) == Rewritten(n, pp)
    decreases n, 1
  {
    match n
    case Member(o, q, v) => VisitRewritesMember(o, q, v, shielded, pp, p);
    case Arrow(ps, b) =>
      VisitAllRewrites(ps, true, p);
      VisitRewrites(b, true, None, VisitAll(ps, true, p).props);
    case Jsx(_, cs) => VisitAllRewrites(cs, shielded, p);
    case Other(cs) => VisitAllRewrites(cs, shielded, p);
    case _ =>
  }

  lemma {:induction false} VisitRewritesMember(o: Node, q: string, v: bool, shielded: bool, pp: Option<string>,
                                               p: ComponentProperties)
    requires Fresh(Member(o, q, v))
    ensures Erase(Visit(Member(o, q, v), shielded, pp, p).node) == Rewritten(Member(o, q, v), pp)
    decreases Member(o, q, v), 0
  {
    if !o.This? {
      VisitRewrites(o, true, Some(q), p);
    }
  }

  lemma {:induction false} VisitAllRewrites(ns: seq<Node>, shielded: bool, p: ComponentProperties)
    ensures (forall i :: 0 <= i < |ns| ==> Fresh(ns[i])) ==>
      EraseAll(VisitAll(ns, shielded, p).nodes) == RewrittenAll(ns)
    decreases ns, 2
  {
    if |ns| > 0 && forall i :: 0 <= i < |ns| ==> Fresh(ns[i]) {
      var first := Visit(ns[0], shielded, None, p);
      VisitRewrites(ns[0], shielded, None, p);
      VisitAllRewrites(ns[1..], shielded, first.props);
      var rest := VisitAll(ns[1..], shielded, first.props);
      assert VisitAll(ns, shielded, p).nodes == [first.node] + rest.nodes;
      assert EraseAll([first.node] + rest.nodes) == [Erase(first.node)] + EraseAll(rest.nodes);
    }
  }

  /** Running the visitor again over its own output changes nothing but
      markers: the created `this.props` of each `this.x` rewrite is not marked,
      so the second run records `x` in memberProps, in the order the first
      run recorded it in componentMembers; argumentProps evolve identically and
      nothing reaches state or componentMembers. */
  lemma {:induction false} SecondPass(n: Node, shielded: bool, pp: Option<string>, p: ComponentProperties, q: ComponentProperties)
    requires q.argumentProps == p.argumentProps && q.memberProps == p.componentMembers
    ensures
      var a := Visit(n, shielded, pp, p);
      var b := Visit(a.node, shielded, pp, q);
      Erase(b.node) == Erase(a.node) &&
      b.props == ComponentProperties(a.props.argumentProps, a.props.componentMembers, q.state, q.componentMembers)
    decreases n, 1
  {
    match n
    case Member(o, k, v) => SecondPassMember(o, k, v, shielded, pp, p, q);
    case Arrow(ps, b) => SecondPassArrow(ps, b, shielded, pp, p, q);
    case Jsx(_, cs) => SecondPassAll(cs, shielded, p, q);
    case Other(cs) => SecondPassAll(cs, shielded, p, q);
    case _ =>
  }

  lemma {:induction false} SecondPassMember(o: Node, k: string, v: bool, shielded: bool, pp: Option<string>,
                                            p: ComponentProperties, q: ComponentProperties)
    requires q.argumentProps == p.argumentProps && q.memberProps == p.componentMembers
    ensures
      var a := Visit(Member(o, k, v), shielded, pp, p);
      var b := Visit(a.node, shielded, pp, q);
      Erase(b.node) == Erase(a.node) &&
      b.props == ComponentProperties(a.props.argumentProps, a.props.componentMembers, q.state, q.componentMembers)
    decreases Member(o, k, v), 0
  {
    if !(!v && o.This?) {
      SecondPass(o, true, Some(k), p, q);
    }
  }

  lemma {:induction false} SecondPassArrow(ps: seq<Node>, body: Node, shielded: bool, pp: Option<string>,
                                           p: ComponentProperties, q: ComponentProperties)
    requires q.argumentProps == p.argumentProps && q.memberProps == p.componentMembers
    ensures
      var a := Visit(Arrow(ps, body), shielded, pp, p);
      var b := Visit(a.node, shielded, pp, q);
      Erase(b.node) == Erase(a.node) &&
      b.props == ComponentProperties(a.props.argumentProps, a.props.componentMembers, q.state, q.componentMembers)
    decreases Arrow(ps, body), 0
  {
    SecondPassAll(ps, true, p, q);
    var a := VisitAll(ps, true, p);
    SecondPass(body, true, None, a.props, VisitAll(a.nodes, true, q).props);
  }

  lemma {:induction false} SecondPassAll(ns: seq<Node>, shielded: bool, p: ComponentProperties, q: ComponentProperties)
    requires q.argumentProps == p.argumentProps && q.memberProps == p.componentMembers
    ensures
      var a := VisitAll(ns, shielded, p);
      var b := VisitAll(a.nodes, shielded, q);
      EraseAll(b.nodes) == EraseAll(a.nodes) &&
      b.props == ComponentProperties(a.props.argumentProps, a.props.componentMembers, q.state, q.componentMembers)
    decreases ns, 2
  {
    if |ns| > 0 {
      var a0 := Visit(ns[0], shielded, None, p);
      SecondPass(ns[0], shielded, None, p, q);
      var b0 := Visit(a0.node, shielded, None, q);
      SecondPassAll(ns[1..], shielded, a0.props, b0.props);
      var a := VisitAll(ns, shielded, p);
      assert a.nodes[0] == a0.node;
      assert a.nodes[1..] == VisitAll(ns[1..], shielded, a0.props).nodes;
    }
  }

  /** `n` holds an unmarked access on `this` that the visitor rewrites: a
      `this.state` that a property is read from, or a `this.x` other than
      `this.props.y`. */
  predicate Rewrites(n: Node, parentProperty: Option<string>)
  {
    match n
    case Member(o, q, v) =>
      if o.This? && !v then !(parentProperty.Some? && q == "props")
      else Rewrites(o, Some(q))
    case Arrow(ps, b) => (exists i :: 0 <= i < |ps| && Rewrites(ps[i], None)) || Rewrites(b, None)
    case Jsx(_, cs) => exists i :: 0 <= i < |cs| && Rewrites(cs[i], None)
    case Other(cs) => exists i :: 0 <= i < |cs| && Rewrites(cs[i], None)
    case _ => false
  }

  /** The tree changes, markers aside, exactly when it holds an access the
      visitor rewrites; without one, state and componentMembers stay as they were. */
  lemma {:induction false} ChangedIffRewrites(n: Node, shielded: bool, pp: Option<string>, p: ComponentProperties)
    ensures Erase(Visit(n, shielded, pp, p).node) != Erase(n) <==> Rewrites(n, pp)
    ensures !Rewrites(n, pp) ==>
      Visit(n, shielded, pp, p).props.state == p.state &&
      Visit(n, shielded, pp, p).props.componentMembers == p.componentMembers
    decreases n, 1
  {
    match n
    case Member(o, q, v) => ChangedIffRewritesMember(o, q, v, shielded, pp, p);
    case Arrow(ps, b) => ChangedIffRewritesArrow(ps, b, shielded, pp, p);
    case Jsx(_, cs) => ChangedIffRewritesAll(cs, shielded, p);
    case Other(cs) => ChangedIffRewritesAll(cs, shielded, p);
    case _ =>
  }

  lemma {:induction false} ChangedIffRewritesMember(o: Node, q: string, v: bool, shielded: bool, pp: Option<string>,
                                                    p: ComponentProperties)
    ensures Erase(Visit(Member(o, q, v), shielded, pp, p).node) != Erase(Member(o, q, v)) <==> Rewrites(Member(o, q, v), pp)
    ensures !Rewrites(Member(o, q, v), pp) ==>
      Visit(Member(o, q, v), shielded, pp, p).props.state == p.state &&
      Visit(Member(o, q, v), shielded, pp, p).props.componentMembers == p.componentMembers
    decreases Member(o, q, v), 0
  {
    if !(!v && o.This?) {
      ChangedIffRewrites(o, true, Some(q), p);
    }
  }

  lemma {:induction false} ChangedIffRewritesArrow(ps: seq<Node>, b: Node, shielded: bool, pp: Option<string>,
                                                   p: ComponentProperties)
    ensures Erase(Visit(Arrow(ps, b), shielded, pp, p).node) != Erase(Arrow(ps, b)) <==> Rewrites(Arrow(ps, b), pp)
    ensures !Rewrites(Arrow(ps, b), pp) ==>
      Visit(Arrow(ps, b), shielded, pp, p).props.state == p.state &&
      Visit(Arrow(ps, b), shielded, pp, p).props.componentMembers == p.componentMembers
    decreases Arrow(ps, b), 0
  {
    ChangedIffRewritesAll(ps, true, p);
    ChangedIffRewrites(b, true, None, VisitAll(ps, true, p).props);
  }

  lemma {:induction false} ChangedIffRewritesAll(ns: seq<Node>, shielded: bool, p: ComponentProperties)
    ensures EraseAll(VisitAll(ns, shielded, p).nodes) != EraseAll(ns) <==> exists i :: 0 <= i < |ns| && Rewrites(ns[i], None)
    ensures (forall i :: 0 <= i < |ns| ==> !Rewrites(ns[i], None)) ==>
      VisitAll(ns, shielded, p).props.state == p.state &&
      VisitAll(ns, shielded, p).props.componentMembers == p.componentMembers
    decreases ns, 2
  {
    if |ns| > 0 {
      var first := Visit(ns[0], shielded, None, p);
      var rest := VisitAll(ns[1..], shielded, first.props);
      ChangedIffRewrites(ns[0], shielded, None, p);
      ChangedIffRewritesAll(ns[1..], shielded, first.props);
      assert EraseAll(VisitAll(ns, shielded, p).nodes) == [Erase(first.node)] + EraseAll(rest.nodes) by {
        assert VisitAll(ns, shielded, p).nodes == [first.node] + rest.nodes;
      }
      ConsDiffers(Erase(first.node), EraseAll(rest.nodes), Erase(ns[0]), EraseAll(ns[1..]));
      RewritesInCons(ns);
    }
  }

  lemma ConsDiffers(a: Node, xs: seq<Node>, b: Node, ys: seq<Node>)
    ensures [a] + xs != [b] + ys <==> a != b || xs != ys
  {
    if [a] + xs == [b] + ys {
      assert ([a] + xs)[0] == a && ([b] + ys)[0] == b;
      assert ([a] + xs)[1..] == xs && ([b] + ys)[1..] == ys;
    }
  }

  lemma RewritesInCons(ns: seq<Node>)
    requires |ns| > 0
    ensures (exists i :: 0 <= i < |ns| && Rewrites(ns[i], None)) <==>
      Rewrites(ns[0], None) || exists i :: 0 <= i < |ns[1..]| && Rewrites(ns[1..][i], None)
  {
    if exists i :: 0 <= i < |ns| && Rewrites(ns[i], None) {
      var i :| 0 <= i < |ns| && Rewrites(ns[i], None);
      assert i > 0 ==> Rewrites(ns[1..][i - 1], None);
    }
    if exists i :: 0 <= i < |ns[1..]| && Rewrites(ns[1..][i], None) {
      var i :| 0 <= i < |ns[1..]| && Rewrites(ns[1..][i], None);
      assert Rewrites(ns[i + 1], None);
    }
  }

  // ---------------------------------------------------------------------------
  // The whole traversal.

  datatype Analysis = Analysis(program: Program, props: ComponentProperties)

  predicate FreeIn(program: Program, x: string)
  {
    exists i :: 0 <= i < |program.body| && FreeIdentifier(program.body[i], x)
  }

  predicate ReadThroughIn(program: Program, carrier: string, x: string)
  {
    exists i :: 0 <= i < |program.body| && ReadThrough(program.body[i], carrier, x)
  }

  predicate MemberReadIn(program: Program, x: string)
  {
    exists i :: 0 <= i < |program.body| && MemberRead(program.body[i], None, x)
  }

  /** `traverse(ast, visitor)` over a parsed fragment, starting from four
      empty sets. Each name is recorded once, and each sequence holds exactly
      the names the fragment uses that way (their order is the subject of
      `InsertionOrder.AnalyzeOrder`). On a tree fresh from the parser, the
      output is `Rewritten` up to markers, so no access on `this` other than
      through `props` survives. */
  function Analyze(program: Program): (r: Analysis)
    ensures AllNoDup(r.props)
    ensures forall x :: x in r.props.argumentProps <==> FreeIn(program, x)
    ensures forall x :: x in r.props.memberProps <==> ReadThroughIn(program, "props", x)
    ensures forall x :: x in r.props.state <==> ReadThroughIn(program, "state", x)
    ensures forall x :: x in r.props.componentMembers <==> MemberReadIn(program, x)
    ensures (forall i :: 0 <= i < |program.body| ==> Fresh(program.body[i])) ==>
      forall i :: 0 <= i < |r.program.body| ==> ThisOnlyProps(r.program.body[i])
    ensures (forall i :: 0 <= i < |program.body| ==> Fresh(program.body[i])) ==>
      EraseAll(r.program.body) == RewrittenAll(program.body)
  {
    var visited := VisitAll(program.body, false, NoProperties);
    forall x
      ensures x in visited.props.argumentProps <==> FreeIn(program, x)
      ensures x in visited.props.memberProps <==> ReadThroughIn(program, "props", x)
      ensures x in visited.props.state <==> ReadThroughIn(program, "state", x)
      ensures x in visited.props.componentMembers <==> MemberReadIn(program, x)
    {
      ArgumentPropsOfVisitAll(program.body, false, NoProperties, x);
      CarrierPropsOfVisitAll(program.body, false, NoProperties, "props", x);
      CarrierPropsOfVisitAll(program.body, false, NoProperties, "state", x);
      ComponentMembersOfVisitAll(program.body, false, NoProperties, x);
    }
    VisitAllLeavesOnlyProps(program.body, false, NoProperties);
    VisitAllRewrites(program.body, false, NoProperties);
    Analysis(Program(visited.nodes), visited.props)
  }

  /** Analysing the rewritten fragment again: the same tree up to markers, the
      same argumentProps, the first run's componentMembers as memberProps, and
      nothing in state or componentMembers. */
  lemma AnalyzeTwice(program: Program)
    ensures
      var a := Analyze(program);
      var b := Analyze(a.program);
      EraseAll(b.program.body) == EraseAll(a.program.body) &&
      b.props == ComponentProperties(a.props.argumentProps, a.props.componentMembers, [], [])
  {
    SecondPassAll(program.body, false, NoProperties, NoProperties);
  }

  /** A fragment without `this` is left as it is and yields only argumentProps. */
  lemma NoThisLeavesFragment(program: Program)
    requires forall i :: 0 <= i < |program.body| ==> !Rewrites(program.body[i], None)
    requires forall x :: !ReadThroughIn(program, "props", x)
    ensures EraseAll(Analyze(program).program.body) == EraseAll(program.body)
    ensures Analyze(program).props.memberProps == []
    ensures Analyze(program).props.state == []
    ensures Analyze(program).props.componentMembers == []
  {
    ChangedIffRewritesAll(program.body, false, NoProperties);
    EmptyWithoutMembers(Analyze(program).props.memberProps);
  }

  lemma EmptyWithoutMembers(s: seq<string>)
    ensures (forall x :: x !in s) ==> s == []
  {
    if |s| > 0 {
      assert s[0] in s;
    }
  }

}
