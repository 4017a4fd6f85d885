/** `createComponentInstance` (src/modules/jsx.ts:142-149): the self-closing
    tag that replaces the extracted selection. */
module Instance {
  import opened Strings
  import opened References

  /** Where an attribute's value comes from at the extraction site. */
  datatype Source = FromState | FromArgument | FromMemberProps | FromComponentMember

  /** The expression an attribute of each source passes: a state name is read
      from `this.state`, an argument is passed as itself, a member prop is
      forwarded from `this.props` and a component member from `this`. */
  function Access(source: Source, prop: string): (e: string)
    ensures |e| >= |prop|
    ensures e[|e| - |prop|..] == prop
    ensures source == FromState ==> e == "this.state." + prop
    ensures source == FromArgument ==> e == prop
    ensures source == FromMemberProps ==> e == "this.props." + prop
    ensures source == FromComponentMember ==> e == "this." + prop
  {
    match source
    case FromState => "this.state." + prop
    case FromArgument => prop
    case FromMemberProps => "this.props." + prop
    case FromComponentMember => "this." + prop
  }

  /** `${prop}={<access>}` */
  function Attribute(source: Source, prop: string): (a: string)
    ensures |a| > |prop| && a[..|prop|] == prop
    ensures (' ' !in prop) ==> ' ' !in a
    ensures a != ""
    ensures a == prop + "={" + Access(source, prop) + "}"
  {
    var a := prop + "={" + Access(source, prop) + "}";
    assert a[..|prop|] == prop;
    a
  }

  /** `Array.from(set).map(...)`: one attribute per name, in insertion order. */
  function Attributes(source: Source, props: seq<string>): (r: seq<string>)
    ensures |r| == |props|
    ensures forall i :: 0 <= i < |props| ==> r[i] == Attribute(source, props[i])
  {
    if |props| == 0 then [] else [Attribute(source, props[0])] + Attributes(source, props[1..])
  }

  /** Every attribute of the tag, in the order the tag lists them: state,
      then argument, then member-prop, then component-member attributes. */
  function AllAttributes(props: ComponentProperties): seq<string>
  {
    Attributes(FromState, props.state) + Attributes(FromArgument, props.argumentProps) +
    Attributes(FromMemberProps, props.memberProps) + Attributes(FromComponentMember, props.componentMembers)
  }

  /** One `.join(' ')` of src/modules/jsx.ts:143-146: a group's attributes
      separated by single spaces. */
  function Group(source: Source, props: seq<string>): string
  {
    Join(Attributes(source, props), " ")
  }

  /** What the template of src/modules/jsx.ts:148 puts between the tag's name
      and `/>`: two spaces, then the state, argument, member-prop and
      component-member groups separated by single spaces. */
  function Body(props: ComponentProperties): string
  {
    "  " + Group(FromState, props.state) + " " + Group(FromArgument, props.argumentProps) + " " +
    Group(FromMemberProps, props.memberProps) + " " + Group(FromComponentMember, props.componentMembers)
  }

  /** The body opens with the two spaces after the tag's name. */
  lemma BodyOpens(props: ComponentProperties)
    ensures |Body(props)| >= 5 && Body(props)[..2] == "  "
  {
    var x := "  " + Group(FromState, props.state);
    assert x[..2] == "  ";
    var y := x + " " + Group(FromArgument, props.argumentProps);
    assert y[..2] == "  ";
    var z := y + " " + Group(FromMemberProps, props.memberProps);
    assert z[..2] == "  ";
    assert Body(props) == z + " " + Group(FromComponentMember, props.componentMembers);
  }

  /** The tag: `<`, the name, two spaces, the four groups separated by single
      spaces, `/>`. */
  function CreateComponentInstance(name: string, props: ComponentProperties): (r: string)
    ensures |r| >= |name| + 8
    ensures r[..|name| + 1] == "<" + name
    ensures r[|name| + 1..|name| + 3] == "  "
    ensures r[|name| + 1..|r| - 2] == Body(props)
    ensures r[|r| - 2..] == "/>"
  {
    var b := Body(props);
    BodyOpens(props);
    var r := "<" + name + b + "/>";
    assert r[..|name| + 1] == "<" + name;
    assert r[|name| + 1..|r| - 2] == b;
    assert r[|name| + 1..|name| + 3] == b[..2];
    r
  }

  predicate PlainName(prop: string)
  {
    prop != "" && ' ' !in prop
  }

  /** With names free of spaces, reading the space-separated words between the
      tag's name and `/>` gives every attribute exactly in the documented
      order: state, argument, member-prop, component-member; each group in
      its own insertion order. */
  lemma InstanceAttributes(name: string, props: ComponentProperties)
    requires forall i :: 0 <= i < |props.state| ==> PlainName(props.state[i])
    requires forall i :: 0 <= i < |props.argumentProps| ==> PlainName(props.argumentProps[i])
    requires forall i :: 0 <= i < |props.memberProps| ==> PlainName(props.memberProps[i])
    requires forall i :: 0 <= i < |props.componentMembers| ==> PlainName(props.componentMembers[i])
    ensures var r := CreateComponentInstance(name, props);
      Words(r[|name| + 1..|r| - 2]) == AllAttributes(props)
  {
    BodyWords(props);
  }

  lemma BodyWords(props: ComponentProperties)
    requires forall i :: 0 <= i < |props.state| ==> PlainName(props.state[i])
    requires forall i :: 0 <= i < |props.argumentProps| ==> PlainName(props.argumentProps[i])
    requires forall i :: 0 <= i < |props.memberProps| ==> PlainName(props.memberProps[i])
    requires forall i :: 0 <= i < |props.componentMembers| ==> PlainName(props.componentMembers[i])
    ensures Words(Body(props)) == AllAttributes(props)
  {
    var s, a, m, c :=
      Group(FromState, props.state), Group(FromArgument, props.argumentProps),
      Group(FromMemberProps, props.memberProps), Group(FromComponentMember, props.componentMembers);
    var x1 := "  " + s;
    LeadingSpaces(s);
    var x2 := x1 + " " + a;
    var x3 := x2 + " " + m;
    assert Body(props) == x3 + " " + c;
    WordsAround(x1, a);
    WordsAround(x2, m);
    WordsAround(x3, c);
    GroupWords(FromState, props.state);
    GroupWords(FromArgument, props.argumentProps);
    GroupWords(FromMemberProps, props.memberProps);
    GroupWords(FromComponentMember, props.componentMembers);
  }

  /** Leading spaces add no words. */
  lemma LeadingSpaces(s: string)
    ensures Words("  " + s) == Words(s)
  {
    assert Words("") == [] by { assert Split("", ' ') == [""]; }
    WordsAround("", "");
    assert "" + " " + "" == " ";
    WordsAround(" ", s);
    assert " " + " " + s == "  " + s;
  }

  lemma GroupWords(source: Source, props: seq<string>)
    requires forall i :: 0 <= i < |props| ==> PlainName(props[i])
    ensures Words(Group(source, props)) == Attributes(source, props)
  {
    WordsOfJoin(Attributes(source, props));
  }

  /** A one-name group is that name's attribute. */
  lemma GroupOne(source: Source, prop: string)
    ensures Group(source, [prop]) == Attribute(source, prop)
  {
    assert Attributes(source, [prop]) == [Attribute(source, prop)];
  }

  /** One name in each set: the four groups in the template's order, each
      attribute passing the expression its set calls for. */
  lemma OneOfEachInstance()
    ensures CreateComponentInstance("Source", ComponentProperties(["a"], ["m"], ["s"], ["c"]))
         == "<Source  s={this.state.s} a={a} m={this.props.m} c={this.c}/>"
  {
    StateGroupText();
    ArgumentGroupText();
    MemberPropGroupText();
    ComponentMemberGroupText();
    OneOfEachText();
  }

  lemma StateGroupText()
    ensures Group(FromState, ["s"]) == "s={this.state.s}"
  {
    GroupOne(FromState, "s");
  }

  lemma ArgumentGroupText()
    ensures Group(FromArgument, ["a"]) == "a={a}"
  {
    GroupOne(FromArgument, "a");
  }

  lemma MemberPropGroupText()
    ensures Group(FromMemberProps, ["m"]) == "m={this.props.m}"
  {
    GroupOne(FromMemberProps, "m");
  }

  lemma ComponentMemberGroupText()
    ensures Group(FromComponentMember, ["c"]) == "c={this.c}"
  {
    GroupOne(FromComponentMember, "c");
  }

  /** The literal pieces of `OneOfEachInstance`, grouped as the template
      groups them. */
  lemma OneOfEachText()
    ensures "<" + "Source" + ("  " + "s={this.state.s}" + " " + "a={a}" + " " + "m={this.props.m}" + " " + "c={this.c}") + "/>"
         == "<Source  s={this.state.s} a={a} m={this.props.m} c={this.c}/>"
  {
    Regroup("Source", "s={this.state.s}", "a={a}", "m={this.props.m}", "c={this.c}");
    OneOfEachHead();
    OneOfEachTail();
  }

  /** The tag text regrouped from the left, so that it can be read off piece
      by piece. */
  lemma Regroup(name: string, s: string, a: string, m: string, c: string)
    ensures "<" + name + ("  " + s + " " + a + " " + m + " " + c) + "/>"
         == ("<" + name + "  " + s + " " + a) + " " + m + " " + c + "/>"
  {
  }

  lemma OneOfEachHead()
    ensures "<" + "Source" + "  " + "s={this.state.s}" + " " + "a={a}" == "<Source  s={this.state.s} a={a}"
  {
    assert "<" + "Source" + "  " + "s={this.state.s}" == "<Source  s={this.state.s}";
  }

  lemma OneOfEachTail()
    ensures "<Source  s={this.state.s} a={a}" + " " + "m={this.props.m}" + " " + "c={this.c}" + "/>"
         == "<Source  s={this.state.s} a={a} m={this.props.m} c={this.c}/>"
  {
    assert "<Source  s={this.state.s} a={a}" + " " + "m={this.props.m}" == "<Source  s={this.state.s} a={a} m={this.props.m}";
  }

  /** Empty groups still leave their separating spaces: a lone member prop
      sits after four spaces and before one. */
  lemma LoneMemberPropInstance()
    ensures CreateComponentInstance("Source", ComponentProperties([], ["m"], [], []))
         == "<Source    m={this.props.m} />"
  {
    MemberPropGroupText();
    assert Attributes(FromState, []) == [];
    LoneMemberPropText();
  }

  lemma LoneMemberPropText()
    ensures "<" + "Source" + ("  " + "" + " " + "" + " " + "m={this.props.m}" + " " + "") + "/>"
         == "<Source    m={this.props.m} />"
  {
  }

  /** Within a group, each attribute is followed by exactly one space before
      the next one. */
  lemma GroupCons(source: Source, prop: string, rest: seq<string>)
    requires |rest| > 0
    ensures Group(source, [prop] + rest) == Attribute(source, prop) + " " + Group(source, rest)
  {
    assert ([prop] + rest)[1..] == rest;
  }

  /** Two names in one group sit one space apart. */
  lemma TwoArgumentsInstance()
    ensures CreateComponentInstance("Source", ComponentProperties(["a", "b"], [], [], []))
         == "<Source   a={a} b={b}  />"
  {
    ArgumentPairGroupText();
    assert Attributes(FromState, []) == [];
    TwoArgumentsText();
  }

  lemma ArgumentPairGroupText()
    ensures Group(FromArgument, ["a", "b"]) == "a={a} b={b}"
  {
    GroupCons(FromArgument, "a", ["b"]);
    assert ["a"] + ["b"] == ["a", "b"];
    GroupOne(FromArgument, "b");
  }

  lemma TwoArgumentsText()
    ensures "<" + "Source" + ("  " + "" + " " + "a={a} b={b}" + " " + "" + " " + "") + "/>"
         == "<Source   a={a} b={b}  />"
  {
  }

  /** With all four sets empty the tag is the name followed by five spaces. */
  lemma EmptyInstance(name: string)
    ensures CreateComponentInstance(name, NoProperties) == "<" + name + "     />"
  {
  }

}
