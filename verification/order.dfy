/** The order of the four sequences the visitor fills
    (src/modules/jsx.ts:85-121). A JavaScript `Set` iterates in insertion
    order, so each sequence holds the names the fragment uses in that role,
    each once, in the order the pre-order traversal first meets them. */
module InsertionOrder {
  import opened Options
  import opened References

  /** `Set.add` of each name in turn. */
  function AddAll(s: seq<string>, xs: seq<string>): (r: seq<string>)
    ensures s <= r
    ensures forall y :: y in r <==> y in s || y in xs
    ensures NoDup(s) ==> NoDup(r)
    decreases |xs|
  {
    if |xs| == 0 then s
    else
      assert forall y :: y in xs <==> y == xs[0] || y in xs[1..] by {
        assert xs == [xs[0]] + xs[1..];
      }
      AddAll(Add(s, xs[0]), xs[1..])
  }

  lemma {:induction false} AddAllAppend(s: seq<string>, xs: seq<string>, ys: seq<string>)
    ensures AddAll(s, xs + ys) == AddAll(AddAll(s, xs), ys)
    decreases |xs|
  {
    if |xs| == 0 {
      assert xs + ys == ys;
    } else {
      assert (xs + ys)[0] == xs[0] && (xs + ys)[1..] == xs[1..] + ys;
      AddAllAppend(Add(s, xs[0]), xs[1..], ys);
    }
  }

  lemma AddAllOne(s: seq<string>, x: string)
    ensures AddAll(s, [x]) == Add(s, x)
  {
    assert [x][1..] == [];
  }

  /** The index of the first occurrence of `y` in `xs`. */
  function FirstIndex(xs: seq<string>, y: string): (k: nat)
    requires y in xs
    ensures k < |xs| && xs[k] == y && y !in xs[..k]
  {
    if xs[0] == y then 0
    else
      assert xs == [xs[0]] + xs[1..];
      var k := FirstIndex(xs[1..], y);
      assert xs[..k + 1] == [xs[0]] + xs[1..][..k];
      k + 1
  }

  /** Past the prefix `s`, `r` holds names of `xs` absent from `s`, in the
      order of their first occurrence in `xs`. */
  predicate AppendsInOrder(s: seq<string>, xs: seq<string>, r: seq<string>)
  {
    (forall i :: |s| <= i < |r| ==> r[i] !in s && r[i] in xs) &&
    (forall i, j :: |s| <= i < j < |r| && r[i] in xs && r[j] in xs ==> FirstIndex(xs, r[i]) < FirstIndex(xs, r[j]))
  }

  lemma {:induction false} AddAllInOrder(s: seq<string>, xs: seq<string>)
    ensures AppendsInOrder(s, xs, AddAll(s, xs))
    decreases |xs|
  {
    if |xs| > 0 {
      var x, s' := xs[0], Add(s, xs[0]);
      var r := AddAll(s', xs[1..]);
      AddAllInOrder(s', xs[1..]);
      assert r == AddAll(s, xs);
      assert xs == [x] + xs[1..];
      forall i | |s'| <= i < |r|
        ensures r[i] != x && FirstIndex(xs, r[i]) == FirstIndex(xs[1..], r[i]) + 1
      {
        assert r[i] !in s' && x in s';
      }
      if x !in s {
        assert s' == s + [x] && r[|s|] == x;
      }
    }
  }

  /** The distinct names of `xs`, in the order of their first occurrence. */
  function FirstOccurrences(xs: seq<string>): (r: seq<string>)
    ensures NoDup(r)
    ensures forall y :: y in r <==> y in xs
    ensures forall i, j :: 0 <= i < j < |r| ==>
      r[i] in xs && r[j] in xs && FirstIndex(xs, r[i]) < FirstIndex(xs, r[j])
  {
    AddAllInOrder([], xs);
    AddAll([], xs)
  }

  // ---------------------------------------------------------------------------
  // The names a fragment uses in each role, in pre-order, repeats kept.

  /** Identifiers reached through JSX and other nodes only. */
  function FreeNames(n: Node): seq<string>
    decreases n
  {
    match n
    case Identifier(y) => [y]
    case Jsx(_, cs) => FreeNamesAll(cs)
    case Other(cs) => FreeNamesAll(cs)
    case _ => []
  }

  function FreeNamesAll(ns: seq<Node>): seq<string>
    decreases ns
  {
    if |ns| == 0 then [] else FreeNames(ns[0]) + FreeNamesAll(ns[1..])
  }

  /** The `x` of every unmarked `this.<carrier>.x` below `n`. */
  function CarrierReads(n: Node, carrier: string): seq<string>
    decreases n
  {
    match n
    case Member(o, q, _) => (if o == Member(This, carrier, false) then [q] else []) + CarrierReads(o, carrier)
    case Arrow(ps, b) => CarrierReadsAll(ps, carrier) + CarrierReads(b, carrier)
    case Jsx(_, cs) => CarrierReadsAll(cs, carrier)
    case Other(cs) => CarrierReadsAll(cs, carrier)
    case _ => []
  }

  function CarrierReadsAll(ns: seq<Node>, carrier: string): seq<string>
    decreases ns
  {
    if |ns| == 0 then [] else CarrierReads(ns[0], carrier) + CarrierReadsAll(ns[1..], carrier)
  }

  /** The name a parent reads from `n` when `n` itself is `this.<carrier>`. */
  function ReadAtName(n: Node, pp: Option<string>, carrier: string): seq<string>
  {
    if n == Member(This, carrier, false) && pp.Some? then [pp.value] else []
  }

  /** The `x` of every unmarked `this.x` that is not a `this.props` or
      `this.state` read through. */
  function MemberReads(n: Node, pp: Option<string>): seq<string>
    decreases n
  {
    match n
    case Member(o, q, v) =>
      if o.This? && !v then (if pp.Some? && (q == "props" || q == "state") then [] else [q])
      else MemberReads(o, Some(q))
    case Arrow(ps, b) => MemberReadsAll(ps) + MemberReads(b, None)
    case Jsx(_, cs) => MemberReadsAll(cs)
    case Other(cs) => MemberReadsAll(cs)
    case _ => []
  }

  function MemberReadsAll(ns: seq<Node>): seq<string>
    decreases ns
  {
    if |ns| == 0 then [] else MemberReads(ns[0], None) + MemberReadsAll(ns[1..])
  }

  // ---------------------------------------------------------------------------
  // The visitor adds exactly those names, in that order.

  lemma {:induction false} ArgumentOrderOfVisit(n: Node, shielded: bool, pp: Option<string>, p: ComponentProperties)
    ensures Visit(n, shielded, pp, p).props.argumentProps == AddAll(p.argumentProps, if shielded then [] else FreeNames(n))
    decreases n
  {
    match n
    case Member(o, q, v) =>
      if !(!v && o.This?) {
        ArgumentOrderOfVisit(o, true, Some(q), p);
      }
    case Arrow(ps, b) =>
      ArgumentOrderOfVisitAll(ps, true, p);
      ArgumentOrderOfVisit(b, true, None, VisitAll(ps, true, p).props);
    case Jsx(_, cs) => ArgumentOrderOfVisitAll(cs, shielded, p);
    case Other(cs) => ArgumentOrderOfVisitAll(cs, shielded, p);
    case Identifier(y) =>
      if !shielded {
        AddAllOne(p.argumentProps, y);
      }
    case _ =>
  }

  lemma {:induction false} ArgumentOrderOfVisitAll(ns: seq<Node>, shielded: bool, p: ComponentProperties)
    ensures VisitAll(ns, shielded, p).props.argumentProps == AddAll(p.argumentProps, if shielded then [] else FreeNamesAll(ns))
    decreases ns
  {
    if |ns| > 0 {
      var first := Visit(ns[0], shielded, None, p);
      ArgumentOrderOfVisit(ns[0], shielded, None, p);
      ArgumentOrderOfVisitAll(ns[1..], shielded, first.props);
      AddAllAppend(p.argumentProps, FreeNames(ns[0]), FreeNamesAll(ns[1..]));
    }
  }

  lemma {:induction false} CarrierOrderOfVisit(n: Node, shielded: bool, pp: Option<string>, p: ComponentProperties, carrier: string)
    requires carrier == "props" || carrier == "state"
    ensures Collected(Visit(n, shielded, pp, p).props, carrier) ==
      AddAll(Collected(p, carrier), ReadAtName(n, pp, carrier) + CarrierReads(n, carrier))
    decreases n, 1
  {
    match n
    case Member(o, q, v) => CarrierOrderOfMember(o, q, v, shielded, pp, p, carrier);
    case Arrow(ps, b) => CarrierOrderOfArrow(ps, b, shielded, pp, p, carrier);
    case Jsx(_, cs) =>
      CarrierOrderOfVisitAll(cs, shielded, p, carrier);
      assert ReadAtName(n, pp, carrier) + CarrierReads(n, carrier) == CarrierReadsAll(cs, carrier);
    case Other(cs) =>
      CarrierOrderOfVisitAll(cs, shielded, p, carrier);
      assert ReadAtName(n, pp, carrier) + CarrierReads(n, carrier) == CarrierReadsAll(cs, carrier);
    case _ =>
  }

  lemma {:induction false} CarrierOrderOfMember(o: Node, q: string, v: bool, shielded: bool, pp: Option<string>,
                                                p: ComponentProperties, carrier: string)
    requires carrier == "props" || carrier == "state"
    ensures Collected(Visit(Member(o, q, v), shielded, pp, p).props, carrier) ==
      AddAll(Collected(p, carrier), ReadAtName(Member(o, q, v), pp, carrier) + CarrierReads(Member(o, q, v), carrier))
    decreases Member(o, q, v), 0
  {
    var n := Member(o, q, v);
    if !v && o.This? {
      CarrierOrderOfThisMember(q, shielded, pp, p, carrier);
    } else {
      CarrierOrderOfVisit(o, true, Some(q), p, carrier);
      assert ReadAtName(n, pp, carrier) + CarrierReads(n, carrier) == ReadAtName(o, Some(q), carrier) + CarrierReads(o, carrier);
    }
  }

  /** An unmarked access on `this` itself records at most its parent's name. */
  lemma CarrierOrderOfThisMember(q: string, shielded: bool, pp: Option<string>,
                                 p: ComponentProperties, carrier: string)
    requires carrier == "props" || carrier == "state"
    ensures Collected(Visit(Member(This, q, false), shielded, pp, p).props, carrier) ==
      AddAll(Collected(p, carrier), ReadAtName(Member(This, q, false), pp, carrier) + CarrierReads(Member(This, q, false), carrier))
  {
    if ReadAtName(Member(This, q, false), pp, carrier) != [] {
      AddAllOne(Collected(p, carrier), pp.value);
    }
  }

  lemma {:induction false} CarrierOrderOfArrow(ps: seq<Node>, b: Node, shielded: bool, pp: Option<string>,
                                               p: ComponentProperties, carrier: string)
    requires carrier == "props" || carrier == "state"
    ensures Collected(Visit(Arrow(ps, b), shielded, pp, p).props, carrier) ==
      AddAll(Collected(p, carrier), ReadAtName(Arrow(ps, b), pp, carrier) + CarrierReads(Arrow(ps, b), carrier))
    decreases Arrow(ps, b), 0
  {
    var params := VisitAll(ps, true, p);
    var after := Visit(b, true, None, params.props).props;
    var c0 := Collected(p, carrier);
    var inParams, inBody := CarrierReadsAll(ps, carrier), CarrierReads(b, carrier);
    assert Collected(after, carrier) == AddAll(AddAll(c0, inParams), inBody) by {
      CarrierOrderOfVisitAll(ps, true, p, carrier);
      CarrierOrderOfVisit(b, true, None, params.props, carrier);
      assert ReadAtName(b, None, carrier) + inBody == inBody;
    }
    assert Collected(after, carrier) == AddAll(c0, inParams + inBody) by {
      AddAllAppend(c0, inParams, inBody);
    }
    ArrowSteps(ps, b, shielded, pp, p, carrier);
  }

  /** An arrow function's properties come from its body after its parameters,
      and it reads what its parameters and body read. */
  lemma ArrowSteps(ps: seq<Node>, b: Node, shielded: bool, pp: Option<string>, p: ComponentProperties, carrier: string)
    ensures Visit(Arrow(ps, b), shielded, pp, p).props == Visit(b, true, None, VisitAll(ps, true, p).props).props
    ensures ReadAtName(Arrow(ps, b), pp, carrier) + CarrierReads(Arrow(ps, b), carrier) ==
      CarrierReadsAll(ps, carrier) + CarrierReads(b, carrier)
  {
  }

  lemma {:induction false} CarrierOrderOfVisitAll(ns: seq<Node>, shielded: bool, p: ComponentProperties, carrier: string)
    requires carrier == "props" || carrier == "state"
    ensures Collected(VisitAll(ns, shielded, p).props, carrier) == AddAll(Collected(p, carrier), CarrierReadsAll(ns, carrier))
    decreases ns, 2
  {
    if |ns| > 0 {
      var first := Visit(ns[0], shielded, None, p);
      CarrierOrderOfVisit(ns[0], shielded, None, p, carrier);
      assert ReadAtName(ns[0], None, carrier) + CarrierReads(ns[0], carrier) == CarrierReads(ns[0], carrier);
      CarrierOrderOfVisitAll(ns[1..], shielded, first.props, carrier);
      AddAllAppend(Collected(p, carrier), CarrierReads(ns[0], carrier), CarrierReadsAll(ns[1..], carrier));
    }
  }

  lemma {:induction false} MemberOrderOfVisit(n: Node, shielded: bool, pp: Option<string>, p: ComponentProperties)
    ensures Visit(n, shielded, pp, p).props.componentMembers == AddAll(p.componentMembers, MemberReads(n, pp))
    decreases n
  {
    match n
    case Member(o, q, v) =>
      if !v && o.This? {
        if !(pp.Some? && (q == "props" || q == "state")) {
          AddAllOne(p.componentMembers, q);
        }
      } else {
        MemberOrderOfVisit(o, true, Some(q), p);
      }
    case Arrow(ps, b) =>
      MemberOrderOfVisitAll(ps, true, p);
      MemberOrderOfVisit(b, true, None, VisitAll(ps, true, p).props);
      AddAllAppend(p.componentMembers, MemberReadsAll(ps), MemberReads(b, None));
    case Jsx(_, cs) => MemberOrderOfVisitAll(cs, shielded, p);
    case Other(cs) => MemberOrderOfVisitAll(cs, shielded, p);
    case _ =>
  }

  lemma {:induction false} MemberOrderOfVisitAll(ns: seq<Node>, shielded: bool, p: ComponentProperties)
    ensures VisitAll(ns, shielded, p).props.componentMembers == AddAll(p.componentMembers, MemberReadsAll(ns))
    decreases ns
  {
    if |ns| > 0 {
      var first := Visit(ns[0], shielded, None, p);
      MemberOrderOfVisit(ns[0], shielded, None, p);
      MemberOrderOfVisitAll(ns[1..], shielded, first.props);
      AddAllAppend(p.componentMembers, MemberReads(ns[0], None), MemberReadsAll(ns[1..]));
    }
  }

  /** Each of the four sequences `Analyze` returns is the first occurrences,
      in pre-order, of the names the fragment uses in that role. */
  lemma AnalyzeOrder(program: Program)
    ensures Analyze(program).props.argumentProps == FirstOccurrences(FreeNamesAll(program.body))
    ensures Analyze(program).props.memberProps == FirstOccurrences(CarrierReadsAll(program.body, "props"))
    ensures Analyze(program).props.state == FirstOccurrences(CarrierReadsAll(program.body, "state"))
    ensures Analyze(program).props.componentMembers == FirstOccurrences(MemberReadsAll(program.body))
  {
    ArgumentOrderOfVisitAll(program.body, false, NoProperties);
    CarrierOrderOfVisitAll(program.body, false, NoProperties, "props");
    CarrierOrderOfVisitAll(program.body, false, NoProperties, "state");
    MemberOrderOfVisitAll(program.body, false, NoProperties);
  }

}
