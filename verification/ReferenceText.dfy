/** The textual form of input assignments: "${flow.x}", "${node.section.property}" and literals. */
module ReferenceText {
  import opened FlowContracts

  const FLOW_PREFIX := "flow."
  const INPUTS_PREFIX := "inputs."

  function Serialize(a: InputAssignment): Value {
    match a
    case FlowInput(name, _) => Text("${" + FLOW_PREFIX + name + "}")
    case NodeReference(node, section, property) => Text("${" + ReferencePath(node, section, property) + "}")
    case Literal(value) => value
  }

  function ReferencePath(node: string, section: string, property: string): string {
    if property != "" then node + "." + section + "." + property else node + "." + section
  }

  function Deserialize(value: Value): InputAssignment {
    if value.Text? && LooksLikeReference(value.text) then DeserializeReference(value.text[2..|value.text| - 1])
    else Literal(value)
  }

  predicate LooksLikeReference(text: string) {
    |text| > 2 && text[0] == '$' && text[1] == '{' && text[|text| - 1] == '}'
  }

  function DeserializeReference(path: string): InputAssignment {
    if FLOW_PREFIX <= path then FlowInput(path[|FLOW_PREFIX|..], FLOW_PREFIX)
    else if INPUTS_PREFIX <= path then FlowInput(path[|INPUTS_PREFIX|..], INPUTS_PREFIX)
    else DeserializeNodeReference(path)
  }

  function DeserializeNodeReference(path: string): InputAssignment {
    if '.' !in path then NodeReference(path, "output", "")
    else
      var d := FirstDot(path);
      var node, port := path[..d], path[d + 1..];
      if '.' !in port then NodeReference(node, port, "")
      else NodeReference(node, port[..FirstDot(port)], port[FirstDot(port) + 1..])
  }

  function FirstDot(s: string): (d: nat)
    requires '.' in s
    ensures d < |s| && s[d] == '.' && '.' !in s[..d]
  {
    if s[0] == '.' then 0
    else
      assert s == [s[0]] + s[1..];
      var d := 1 + FirstDot(s[1..]);
      assert s[..d] == [s[0]] + s[1..][..d - 1];
      d
  }

  lemma {:induction false} FirstDotUnique(a: string, b: string)
    requires '.' !in a
    ensures '.' in a + "." + b && FirstDot(a + "." + b) == |a|
  {
    if a != "" {
      assert (a + "." + b)[1..] == a[1..] + "." + b;
      FirstDotUnique(a[1..], b);
    }
  }

  // ---------- spellings ----------

  /** A text is read as a reference if and only if it is "${path}" for some path. */
  lemma {:induction false} LooksLikeReferenceMeans(text: string)
    ensures LooksLikeReference(text) <==> exists path :: text == "${" + path + "}"
  {
    if LooksLikeReference(text) {
      var path := text[2..|text| - 1];
      assert text == "${" + path + "}";
    }
  }

  /** How flow inputs are spelled, and how they may be. */
  lemma {:induction false} FlowInputSpelling(name: string, prefix: string)
    ensures Serialize(FlowInput(name, prefix)) == Text("${" + ("flow." + name) + "}")
    ensures Deserialize(Text("${" + ("flow." + name) + "}")) == FlowInput(name, "flow.")
    ensures Deserialize(Text("${" + ("inputs." + name) + "}")) == FlowInput(name, "inputs.")
  {
    var flow, inputs := "flow." + name, "inputs." + name;
    Unwrap(flow);
    Unwrap(inputs);
    assert flow[|FLOW_PREFIX|..] == name && inputs[|INPUTS_PREFIX|..] == name;
    assert inputs[0] == 'i' && FLOW_PREFIX[0] == 'f';
  }

  /** A reference to a node is spelled with dots between its parts; a text without any is the output of
      the node of that name. */
  lemma {:induction false} NodeSpelling(node: string, section: string, property: string)
    ensures Serialize(NodeReference(node, section, "")) == Text("${" + (node + "." + section) + "}")
    ensures property != "" ==>
              Serialize(NodeReference(node, section, property)) ==
                  Text("${" + (node + "." + section + "." + property) + "}")
    ensures '.' !in node ==> Deserialize(Text("${" + node + "}")) == NodeReference(node, "output", "")
  {
    Unwrap(node);
    if '.' !in node {
      NoPrefix(node, FLOW_PREFIX, 4);
      NoPrefix(node, INPUTS_PREFIX, 6);
    }
  }

  lemma {:induction false} NoPrefix(text: string, prefix: string, dot: nat)
    requires '.' !in text && dot < |prefix| && prefix[dot] == '.'
    ensures !(prefix <= text)
  {
  }

  // ---------- round trips ----------

  // A node name that can be mistaken for the prefix of a flow input.
  predicate Reserved(node: string) {
    node == "flow" || node == "inputs"
  }

  lemma {:induction false} Unwrap(path: string)
    ensures LooksLikeReference("${" + path + "}")
    ensures ("${" + path + "}")[2..|"${" + path + "}"| - 1] == path
  {
  }

  /** A flow input keeps its name; its prefix is spelled "flow." from then on. */
  lemma {:induction false} FlowInputRoundTrip(name: string, prefix: string)
    ensures Deserialize(Serialize(FlowInput(name, prefix))) == FlowInput(name, FLOW_PREFIX)
  {
    Unwrap(FLOW_PREFIX + name);
  }

  /** A literal is read back as itself unless it is a text of the form of a reference. */
  lemma {:induction false} LiteralRoundTrip(value: Value)
    ensures Deserialize(Serialize(Literal(value))) == Literal(value) <==>
        !(value.Text? && LooksLikeReference(value.text))
  {
  }

  // A path that starts with "name." where name has no dot splits at that dot.
  lemma {:induction false} PrefixIsNode(node: string, rest: string, prefix: string)
    requires '.' !in node && '.' !in prefix
    ensures prefix + "." <= node + "." + rest <==> node == prefix
  {
    var path := node + "." + rest;
    FirstDotUnique(node, rest);
    if prefix + "." <= path {
      var tail := path[|prefix| + 1..];
      assert path == prefix + "." + tail by {
        assert path == path[..|prefix| + 1] + tail;
      }
      FirstDotUnique(prefix, tail);
      assert node == path[..|node|] && prefix == path[..|prefix|];
    }
  }

  // The part of a path behind the node name.
  function Port(section: string, property: string): string {
    if property != "" then section + "." + property else section
  }

  lemma {:induction false} PathParts(node: string, section: string, property: string)
    ensures ReferencePath(node, section, property) == node + "." + Port(section, property)
  {
    if property != "" {
      assert node + "." + (section + "." + property) == node + "." + section + "." + property;
    }
  }

  lemma {:induction false} NodeMeaning(node: string, port: string)
    requires '.' !in node
    ensures DeserializeNodeReference(node + "." + port) == PortMeaning(node, port)
  {
    FirstDotUnique(node, port);
    assert (node + "." + port)[..|node|] == node && (node + "." + port)[|node| + 1..] == port;
  }

  function PortMeaning(node: string, port: string): InputAssignment {
    if '.' !in port then NodeReference(node, port, "")
    else NodeReference(node, port[..FirstDot(port)], port[FirstDot(port) + 1..])
  }

  lemma {:induction false} PortIsRead(node: string, section: string, property: string)
    ensures PortMeaning(node, Port(section, property)).node == node
    ensures '.' !in section <==> PortMeaning(node, Port(section, property)) == NodeReference(node, section, property)
  {
    var port := Port(section, property);
    if '.' in section {
      assert '.' in port;
    } else if property != "" {
      FirstDotUnique(section, property);
      assert port[..|section|] == section && port[|section| + 1..] == property;
    }
  }

  // A name and a dot are a prefix of a path exactly if the name is that of the node.
  lemma {:induction false} PrefixesAreNodes(node: string, port: string)
    requires '.' !in node
    ensures FLOW_PREFIX <= node + "." + port <==> node == "flow"
    ensures INPUTS_PREFIX <= node + "." + port <==> node == "inputs"
  {
    PrefixIsNode(node, port, "flow");
    PrefixIsNode(node, port, "inputs");
    assert "flow" + "." == FLOW_PREFIX && "inputs" + "." == INPUTS_PREFIX;
  }

  // What the path of a node reference is read as.
  lemma {:induction false} PathMeaning(node: string, section: string, property: string)
    requires '.' !in node
    ensures var read := DeserializeReference(ReferencePath(node, section, property));
      if Reserved(node) then read.FlowInput?
      else
        && read.NodeReference? && read.node == node
        && ('.' !in section <==> read == NodeReference(node, section, property))
  {
    PathParts(node, section, property);
    PrefixesAreNodes(node, Port(section, property));
    if !Reserved(node) {
      NodeMeaning(node, Port(section, property));
      PortIsRead(node, section, property);
    }
  }

  /** A node reference is read back as itself if and only if its node name has no dot and is not
      reserved, and its section has no dot. */
  lemma {:induction false} NodeReferenceRoundTrip(node: string, section: string, property: string)
    ensures var a := NodeReference(node, section, property);
      Deserialize(Serialize(a)) == a <==> '.' !in node && !Reserved(node) && '.' !in section
  {
    var path := ReferencePath(node, section, property);
    Unwrap(path);
    if '.' !in node {
      PathMeaning(node, section, property);
    } else {
      DeserializedHasNoDot(path);
    }
  }

  // Neither the node nor the section of a reference that was read has a dot.
  lemma {:induction false} DeserializedHasNoDot(path: string)
    ensures DeserializeReference(path).NodeReference? ==>
      '.' !in DeserializeReference(path).node && '.' !in DeserializeReference(path).section
  {
  }

  /** A reference that was read from text survives writing and reading again, except one to a node
      named "flow" or "inputs". */
  lemma {:induction false} ReadReferenceRoundTrip(value: Value)
    requires Deserialize(value).NodeReference?
    ensures Deserialize(Serialize(Deserialize(value))) == Deserialize(value) <==> !Reserved(Deserialize(value).node)
  {
    var a := Deserialize(value);
    DeserializedHasNoDot(value.text[2..|value.text| - 1]);
    NodeReferenceRoundTrip(a.node, a.section, a.property);
  }

  /** Such a reference exists: "${flow}" reads as a reference to a node, but is written "${flow.output}",
      which reads as a flow input. */
  lemma {:induction false} ReservedNodeIsLost()
    ensures Deserialize(Text("${flow}")) == NodeReference("flow", "output", "")
    ensures Deserialize(Serialize(Deserialize(Text("${flow}")))) == FlowInput("output", FLOW_PREFIX)
  {
    assert "${flow}"[2..6] == "flow";
    var path := ReferencePath("flow", "output", "");
    assert path == FLOW_PREFIX + "output";
    Unwrap(path);
  }

  // An assignment that is read back as itself.
  ghost predicate Faithful(a: InputAssignment) {
    a.NodeReference? && '.' !in a.node && !Reserved(a.node) && '.' !in a.section
  }

  /** Faithful references with the same text are the same. */
  lemma {:induction false} SerializeInjective(a: InputAssignment, b: InputAssignment)
    requires Faithful(a) && Faithful(b) && Serialize(a) == Serialize(b)
    ensures a == b
  {
    NodeReferenceRoundTrip(a.node, a.section, a.property);
    NodeReferenceRoundTrip(b.node, b.section, b.property);
  }
}
