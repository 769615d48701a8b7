/**
  Printing and parsing tool schemas (tools/jsonschema.go) over ordered JSON trees, where the order
  of an object's keys and the difference between an absent list and an empty one both matter.
*/
module SchemaCodec {
  import opened Outcomes
  import opened Decimals

  /** A JSON document after its bytes are read: objects keep their keys in written order, repeats included. */
  datatype Json =
    | JNull
    | JBool(value: bool)
    | JNumber(raw: string)
    | JString(text: string)
    | JArray(items: seq<Json>)
    | JObject(fields: seq<Field>)

  datatype Field = Field(name: string, value: Json)

  /** The branches of oneOf; absent is not the same as none. */
  datatype Branches = NoBranches | OneOf(nodes: seq<Node>)

  /** The property table, in written order; absent is not the same as empty. */
  datatype Properties = NoProperties | Properties(list: seq<Property>)

  datatype Property = Property(name: string, schema: Node)

  /** A schema node; an empty type, description or title means the keyword is absent. */
  datatype Node = Node(
    schemaType: string,
    description: string,
    title: string,
    enumeration: Option<seq<Json>>,
    constant: Option<Json>,
    items: Option<Node>,
    properties: Properties,
    required: Option<seq<string>>,
    additionalProperties: Option<bool>,
    oneOf: Branches,
    default: Option<Json>,
    examples: Option<seq<Json>>)

  const EMPTY_NODE := Node("", "", "", None, None, None, NoProperties, None, None, NoBranches, None, None)

  // ---------------------------------------------------------------------------------------------
  // Printing

  function Strings(names: seq<string>): (items: seq<Json>)
    ensures |items| == |names| && forall i :: 0 <= i < |names| ==> items[i] == JString(names[i])
  {
    seq(|names|, i requires 0 <= i < |names| => JString(names[i]))
  }

  function PutText(key: string, text: string): seq<Field> {
    if text == "" then [] else [Field(key, JString(text))]
  }

  function PutList(key: string, list: Option<seq<Json>>): seq<Field> {
    if list.None? then [] else [Field(key, JArray(list.value))]
  }

  function PutJson(key: string, json: Option<Json>): seq<Field> {
    if json.None? then [] else [Field(key, json.value)]
  }

  function PutItems(node: Node): seq<Field>
    decreases node, 3
  {
    if node.items.None? then [] else [Field("items", Marshal(node.items.value))]
  }

  function PutProperties(node: Node): seq<Field>
    decreases node, 3
  {
    if node.properties.NoProperties? then []
    else [Field("properties", JObject(MarshalProperties(node, |node.properties.list|)))]
  }

  function PutRequired(node: Node): seq<Field> {
    if node.required.None? then [] else [Field("required", JArray(Strings(node.required.value)))]
  }

  function PutAdditional(node: Node): seq<Field> {
    if node.additionalProperties.None? then []
    else [Field("additionalProperties", JBool(node.additionalProperties.value))]
  }

  function PutOneOf(node: Node): seq<Field>
    decreases node, 3
  {
    if node.oneOf.NoBranches? then [] else [Field("oneOf", JArray(MarshalBranches(node, |node.oneOf.nodes|)))]
  }

  /** The first k properties, in order. */
  function MarshalProperties(node: Node, k: nat): (fields: seq<Field>)
    requires node.properties.Properties? && k <= |node.properties.list|
    ensures |fields| == k
    decreases node, 2, k
  {
    if k == 0 then []
    else
      var property := node.properties.list[k - 1];
      MarshalProperties(node, k - 1) + [Field(property.name, Marshal(property.schema))]
  }

  function MarshalBranches(node: Node, k: nat): (items: seq<Json>)
    requires node.oneOf.OneOf? && k <= |node.oneOf.nodes|
    ensures |items| == k
    decreases node, 2, k
  {
    if k == 0 then [] else MarshalBranches(node, k - 1) + [Marshal(node.oneOf.nodes[k - 1])]
  }

  /** MarshalJSON: the keywords that are present, always in the same order. */
  function MarshalFields(node: Node): seq<Field>
    decreases node, 4
  {
    PutText("type", node.schemaType) + PutText("description", node.description) + PutText("title", node.title)
    + PutList("enum", node.enumeration) + PutJson("const", node.constant)
    + PutItems(node) + PutProperties(node)
    + PutRequired(node) + PutAdditional(node) + PutOneOf(node)
    + PutJson("default", node.default) + PutList("examples", node.examples)
  }

  function Marshal(node: Node): Json
    decreases node, 5
  {
    JObject(MarshalFields(node))
  }

  // ---------------------------------------------------------------------------------------------
  // Parsing

  datatype Fault =
    | NotASchemaObject | NotAType | TypeArray | NotSchemas | NotStrings | NotABoolean | NotText | NotLossless
    | NotAKeyword(name: string)

  datatype Violation = Violation(path: string, fault: Fault)

  /** The decoder's running result: the node so far and the violations, in traversal order. */
  datatype Decoding = Decoding(node: Node, violations: seq<Violation>) {
    function Blame(path: string, fault: Fault): Decoding {
      Decoding(node, violations + [Violation(path, fault)])
    }

    function With(node': Node): Decoding {
      Decoding(node', violations)
    }
  }

  /** A string read the lenient way: null leaves what was there. */
  predicate IsText(json: Json) {
    json.JString? || json.JNull?
  }

  /** An array of strings read the lenient way: null elements read as empty strings. */
  predicate IsStrings(json: Json) {
    json.JArray? && forall i :: 0 <= i < |json.items| ==> IsText(json.items[i])
  }

  function TextOf(json: Json): string {
    if json.JString? then json.text else ""
  }

  function TextsOf(json: Json): (texts: seq<string>)
    requires json.JArray?
    ensures |texts| == |json.items|
  {
    seq(|json.items|, i requires 0 <= i < |json.items| => TextOf(json.items[i]))
  }

  function DecodeNode(json: Json, path: string): Decoding
    decreases json, 1, 0
  {
    if !json.JObject? then Decoding(EMPTY_NODE, [Violation(path, NotASchemaObject)])
    else DecodeFields(json, |json.fields|, path)
  }

  /** The node after the first k keywords. */
  function DecodeFields(json: Json, k: nat, path: string): Decoding
    requires json.JObject? && k <= |json.fields|
    decreases json, 0, k
  {
    if k == 0 then Decoding(EMPTY_NODE, [])
    else DecodeField(json.fields[k - 1], DecodeFields(json, k - 1, path), path)
  }

  function DecodeField(field: Field, d: Decoding, path: string): Decoding
    decreases field.value, 2, 0
  {
    var value := field.value;
    var node := d.node;
    match field.name
    case "type" =>
      if value.JArray? then d.Blame(path, TypeArray)
      else if !IsText(value) then d.Blame(path, NotAType)
      else d.With(node.(schemaType := TextOf(value)))
    case "oneOf" =>
      if !value.JArray? then d.With(node.(oneOf := OneOf([])))
      else
        var branches := DecodeBranches(value, |value.items|, path);
        Decoding(node.(oneOf := OneOf(branches.0)), d.violations + branches.1)
    case "properties" =>
      if !value.JObject? then d.With(node.(properties := Properties([]))).Blame(path, NotSchemas)
      else
        var properties := DecodeProperties(value, |value.fields|, path);
        Decoding(node.(properties := Properties(properties.0)), d.violations + properties.1)
    case "required" =>
      if value.JNull? then d.With(node.(required := None))
      else if !IsStrings(value) then d.Blame(path, NotStrings)
      else d.With(node.(required := Some(TextsOf(value))))
    case "additionalProperties" =>
      if value.JNull? then d.With(node.(additionalProperties := Some(false)))
      else if !value.JBool? then d.Blame(path, NotABoolean)
      else d.With(node.(additionalProperties := Some(value.value)))
    case "items" =>
      var items := DecodeNode(value, path + ".items");
      Decoding(node.(items := Some(items.node)), d.violations + items.violations)
    case "enum" => d.With(node.(enumeration := ListOf(value)))
    case "const" => d.With(node.(constant := Some(value)))
    case "description" =>
      if !IsText(value) then d.Blame(path, NotText)
      else if value.JNull? then d else d.With(node.(description := value.text))
    case "title" =>
      if !IsText(value) then d.Blame(path, NotText)
      else if value.JNull? then d else d.With(node.(title := value.text))
    case "default" => d.With(node.(default := Some(value)))
    case "examples" =>
      if !value.JArray? && !value.JNull? then d.With(node.(examples := Some([]))).Blame(path, NotLossless)
      else d.With(node.(examples := ListOf(value)))
    case _ => d.Blame(path, NotAKeyword(field.name))
  }

  /** A list read the lenient way: null is absent, anything else that is not an array is empty. */
  function ListOf(json: Json): Option<seq<Json>> {
    if json.JNull? then None else if json.JArray? then Some(json.items) else Some([])
  }

  function DecodeBranches(json: Json, k: nat, path: string): (r: (seq<Node>, seq<Violation>))
    requires json.JArray? && k <= |json.items|
    ensures |r.0| == k
    decreases json, 0, k
  {
    if k == 0 then ([], [])
    else
      var before := DecodeBranches(json, k - 1, path);
      var branch := DecodeNode(json.items[k - 1], path + ".oneOf[" + Decimal(k - 1) + "]");
      (before.0 + [branch.node], before.1 + branch.violations)
  }

  function DecodeProperties(json: Json, k: nat, path: string): (r: (seq<Property>, seq<Violation>))
    requires json.JObject? && k <= |json.fields|
    ensures |r.0| == k
    decreases json, 0, k
  {
    if k == 0 then ([], [])
    else
      var before := DecodeProperties(json, k - 1, path);
      var field := json.fields[k - 1];
      var schema := DecodeNode(field.value, path + ".properties." + field.name);
      (before.0 + [Property(field.name, schema.node)], before.1 + schema.violations)
  }

  /** ParseSchema. */
  function Parse(json: Json): Result<Node, seq<Violation>> {
    var d := DecodeNode(json, "schema");
    if d.violations != [] then Err(d.violations) else Ok(d.node)
  }

  // ---------------------------------------------------------------------------------------------
  // Parsing undoes printing

  /** The keywords decode to this node without a violation. */
  ghost predicate Reads(fields: seq<Field>, path: string, node: Node) {
    DecodeNode(JObject(fields), path) == Decoding(node, [])
  }

  lemma {:induction false} DecodeFieldsPrefix(a: seq<Field>, b: seq<Field>, k: nat, path: string)
    requires k <= |a| && k <= |b| && a[..k] == b[..k]
    ensures DecodeFields(JObject(a), k, path) == DecodeFields(JObject(b), k, path)
    decreases k
  {
    if k > 0 {
      assert a[..k - 1] == a[..k][..k - 1] && b[..k - 1] == b[..k][..k - 1];
      DecodeFieldsPrefix(a, b, k - 1, path);
      assert a[k - 1] == a[..k][k - 1] && b[k - 1] == b[..k][k - 1];
    }
  }

  /** One more group of at most one keyword. */
  lemma ReadsMore(fields: seq<Field>, group: seq<Field>, path: string, node: Node, node': Node)
    requires Reads(fields, path, node) && |group| <= 1
    requires group == [] ==> node' == node
    requires group != [] ==> DecodeField(group[0], Decoding(node, []), path) == Decoding(node', [])
    ensures Reads(fields + group, path, node')
  {
    hide DecodeField;
    if group == [] {
      assert fields + group == fields;
    } else {
      var all := fields + group;
      assert all[..|fields|] == fields[..|fields|] && all[|fields|] == group[0];
      DecodeFieldsPrefix(fields, all, |fields|, path);
      assert DecodeFields(JObject(fields), |fields|, path) == Decoding(node, []);
      assert |all| == |fields| + 1;
      assert DecodeFields(JObject(all), |fields| + 1, path)
          == DecodeField(all[|fields|], DecodeFields(JObject(all), |fields|, path), path);
    }
  }

  lemma ReadsText(fields: seq<Field>, path: string, node: Node, key: string, text: string, node': Node)
    requires Reads(fields, path, node)
    requires (key == "type" && node.schemaType == "" && node' == node.(schemaType := text))
          || (key == "description" && node.description == "" && node' == node.(description := text))
          || (key == "title" && node.title == "" && node' == node.(title := text))
    ensures Reads(fields + PutText(key, text), path, node')
  {
    hide Reads, DecodeNode;
    ReadsMore(fields, PutText(key, text), path, node, node');
  }

  lemma ReadsList(fields: seq<Field>, path: string, node: Node, key: string, list: Option<seq<Json>>, node': Node)
    requires Reads(fields, path, node)
    requires (key == "enum" && node.enumeration == None && node' == node.(enumeration := list))
          || (key == "examples" && node.examples == None && node' == node.(examples := list))
    ensures Reads(fields + PutList(key, list), path, node')
  {
    hide Reads, DecodeNode;
    ReadsMore(fields, PutList(key, list), path, node, node');
  }

  lemma ReadsJson(fields: seq<Field>, path: string, node: Node, key: string, json: Option<Json>, node': Node)
    requires Reads(fields, path, node)
    requires (key == "const" && node.constant == None && node' == node.(constant := json))
          || (key == "default" && node.default == None && node' == node.(default := json))
    ensures Reads(fields + PutJson(key, json), path, node')
  {
    hide Reads, DecodeNode;
    ReadsMore(fields, PutJson(key, json), path, node, node');
  }

  lemma ReadsRequired(fields: seq<Field>, path: string, node: Node, from: Node)
    requires Reads(fields, path, node) && node.required == None
    ensures Reads(fields + PutRequired(from), path, node.(required := from.required))
  {
    hide Reads, DecodeNode;
    if from.required.Some? {
      assert TextsOf(JArray(Strings(from.required.value))) == from.required.value;
    }
    ReadsMore(fields, PutRequired(from), path, node, node.(required := from.required));
  }

  lemma ReadsAdditional(fields: seq<Field>, path: string, node: Node, from: Node)
    requires Reads(fields, path, node) && node.additionalProperties == None
    ensures Reads(fields + PutAdditional(from), path, node.(additionalProperties := from.additionalProperties))
  {
    hide Reads, DecodeNode;
    ReadsMore(fields, PutAdditional(from), path, node, node.(additionalProperties := from.additionalProperties));
  }

  lemma ReadsItems(fields: seq<Field>, path: string, node: Node, from: Node)
    requires Reads(fields, path, node) && node.items == None
    requires from.items.Some? ==> DecodeNode(Marshal(from.items.value), path + ".items") == Decoding(from.items.value, [])
    ensures Reads(fields + PutItems(from), path, node.(items := from.items))
  {
    hide Reads, DecodeNode, Marshal;
    ReadsMore(fields, PutItems(from), path, node, node.(items := from.items));
  }

  lemma ReadsProperties(fields: seq<Field>, path: string, node: Node, from: Node)
    requires Reads(fields, path, node) && node.properties == NoProperties
    requires from.properties.Properties? ==>
      var printed := JObject(MarshalProperties(from, |from.properties.list|));
      DecodeProperties(printed, |from.properties.list|, path) == (from.properties.list, [])
    ensures Reads(fields + PutProperties(from), path, node.(properties := from.properties))
  {
    hide Reads, DecodeNode, DecodeProperties, MarshalProperties;
    ReadsMore(fields, PutProperties(from), path, node, node.(properties := from.properties));
  }

  lemma ReadsOneOf(fields: seq<Field>, path: string, node: Node, from: Node)
    requires Reads(fields, path, node) && node.oneOf.NoBranches?
    requires from.oneOf.OneOf? ==>
      DecodeBranches(JArray(MarshalBranches(from, |from.oneOf.nodes|)), |from.oneOf.nodes|, path) == (from.oneOf.nodes, [])
    ensures Reads(fields + PutOneOf(from), path, node.(oneOf := from.oneOf))
  {
    hide Reads, DecodeNode, DecodeBranches, MarshalBranches;
    ReadsMore(fields, PutOneOf(from), path, node, node.(oneOf := from.oneOf));
  }

  lemma {:induction false} PropertiesRoundTrip(node: Node, k: nat, path: string)
    requires node.properties.Properties? && k <= |node.properties.list|
    ensures DecodeProperties(JObject(MarshalProperties(node, k)), k, path) == (node.properties.list[..k], [])
    decreases node, 0, k
  {
    hide DecodeNode, Marshal, DecodeProperties;
    if k == 0 {
      NoPropertiesRead(MarshalProperties(node, 0), path);
    } else {
      var before, fields := MarshalProperties(node, k - 1), MarshalProperties(node, k);
      PropertiesRoundTrip(node, k - 1, path);
      var property := node.properties.list[k - 1];
      NodeRoundTrip(property.schema, path + ".properties." + property.name);
      assert fields == before + [Field(property.name, Marshal(property.schema))];
      assert fields[..k - 1] == before[..k - 1];
      PropertiesPrefix(before, fields, k - 1, path);
      PropertiesStep(fields, k, path);
      assert DecodeNode(fields[k - 1].value, path + ".properties." + fields[k - 1].name) == Decoding(property.schema, []);
      var r := DecodeProperties(JObject(fields), k, path);
      assert r.0 == node.properties.list[..k] && r.1 == [];
      assert r == (r.0, r.1);
      assert node.properties.list[..k] == node.properties.list[..k - 1] + [property];
    }
  }

  lemma NoPropertiesRead(fields: seq<Field>, path: string)
    ensures DecodeProperties(JObject(fields), 0, path) == ([], [])
  {
  }

  lemma PropertiesStep(fields: seq<Field>, k: nat, path: string)
    requires 0 < k <= |fields|
    ensures var before := DecodeProperties(JObject(fields), k - 1, path);
            var schema := DecodeNode(fields[k - 1].value, path + ".properties." + fields[k - 1].name);
            DecodeProperties(JObject(fields), k, path)
              == (before.0 + [Property(fields[k - 1].name, schema.node)], before.1 + schema.violations)
  {
  }

  lemma {:induction false} PropertiesPrefix(a: seq<Field>, b: seq<Field>, k: nat, path: string)
    requires k <= |a| && k <= |b| && a[..k] == b[..k]
    ensures DecodeProperties(JObject(a), k, path) == DecodeProperties(JObject(b), k, path)
    decreases k
  {
    if k > 0 {
      assert a[..k - 1] == a[..k][..k - 1] && b[..k - 1] == b[..k][..k - 1];
      PropertiesPrefix(a, b, k - 1, path);
      assert a[k - 1] == a[..k][k - 1] && b[k - 1] == b[..k][k - 1];
    }
  }

  lemma {:induction false} BranchesRoundTrip(node: Node, k: nat, path: string)
    requires node.oneOf.OneOf? && k <= |node.oneOf.nodes|
    ensures DecodeBranches(JArray(MarshalBranches(node, k)), k, path) == (node.oneOf.nodes[..k], [])
    decreases node, 0, k
  {
    hide DecodeNode, Marshal, Decimal, DecodeBranches;
    if k == 0 {
      NoBranchesRead(MarshalBranches(node, 0), path);
    } else {
      var before, items := MarshalBranches(node, k - 1), MarshalBranches(node, k);
      var branch := node.oneOf.nodes[k - 1];
      BranchesRoundTrip(node, k - 1, path);
      NodeRoundTrip(branch, path + ".oneOf[" + Decimal(k - 1) + "]");
      assert items == before + [Marshal(branch)];
      assert items[..k - 1] == before[..k - 1];
      BranchesPrefix(before, items, k - 1, path);
      BranchesStep(items, k, path);
      assert node.oneOf.nodes[..k] == node.oneOf.nodes[..k - 1] + [branch];
      assert DecodeNode(items[k - 1], path + ".oneOf[" + Decimal(k - 1) + "]") == Decoding(branch, []);
      var r := DecodeBranches(JArray(items), k, path);
      assert r.0 == node.oneOf.nodes[..k] && r.1 == [];
      assert r == (r.0, r.1);
    }
  }

  lemma NoBranchesRead(items: seq<Json>, path: string)
    ensures DecodeBranches(JArray(items), 0, path) == ([], [])
  {
  }

  lemma BranchesStep(items: seq<Json>, k: nat, path: string)
    requires 0 < k <= |items|
    ensures var before := DecodeBranches(JArray(items), k - 1, path);
            var branch := DecodeNode(items[k - 1], path + ".oneOf[" + Decimal(k - 1) + "]");
            DecodeBranches(JArray(items), k, path) == (before.0 + [branch.node], before.1 + branch.violations)
  {
  }

  lemma {:induction false} BranchesPrefix(a: seq<Json>, b: seq<Json>, k: nat, path: string)
    requires k <= |a| && k <= |b| && a[..k] == b[..k]
    ensures DecodeBranches(JArray(a), k, path) == DecodeBranches(JArray(b), k, path)
    decreases k
  {
    if k > 0 {
      assert a[..k - 1] == a[..k][..k - 1] && b[..k - 1] == b[..k][..k - 1];
      BranchesPrefix(a, b, k - 1, path);
      assert a[k - 1] == a[..k][k - 1] && b[k - 1] == b[..k][k - 1];
    }
  }

  /** Every node reads back as itself, wherever in a schema it is printed. */
  lemma {:induction false} NodeRoundTrip(node: Node, path: string)
    ensures DecodeNode(Marshal(node), path) == Decoding(node, [])
    decreases node, 1
  {
    if node.items.Some? {
      NodeRoundTrip(node.items.value, path + ".items");
    }
    if node.properties.Properties? {
      var properties := node.properties.list;
      PropertiesRoundTrip(node, |properties|, path);
      assert properties[..|properties|] == properties;
    }
    if node.oneOf.OneOf? {
      var nodes := node.oneOf.nodes;
      BranchesRoundTrip(node, |nodes|, path);
      assert nodes[..|nodes|] == nodes;
    }
    KeywordsRoundTrip(node, path);
  }

  lemma KeywordsRoundTrip(node: Node, path: string)
    requires node.items.Some? ==> DecodeNode(Marshal(node.items.value), path + ".items") == Decoding(node.items.value, [])
    requires node.properties.Properties? ==>
      var printed := JObject(MarshalProperties(node, |node.properties.list|));
      DecodeProperties(printed, |node.properties.list|, path) == (node.properties.list, [])
    requires node.oneOf.OneOf? ==>
      DecodeBranches(JArray(MarshalBranches(node, |node.oneOf.nodes|)), |node.oneOf.nodes|, path) == (node.oneOf.nodes, [])
    ensures DecodeNode(Marshal(node), path) == Decoding(node, [])
  {
    assert Reads([], path, EMPTY_NODE);
    hide Reads, DecodeNode, DecodeProperties, DecodeBranches, PutText, PutList, PutJson, PutItems, PutProperties,
      PutRequired, PutAdditional, PutOneOf, MarshalProperties, MarshalBranches;
    var f0: seq<Field> := [];
    var n1 := EMPTY_NODE.(schemaType := node.schemaType);
    ReadsText(f0, path, EMPTY_NODE, "type", node.schemaType, n1);
    var f1 := f0 + PutText("type", node.schemaType);
    assert f1 == PutText("type", node.schemaType);
    var n2 := n1.(description := node.description);
    ReadsText(f1, path, n1, "description", node.description, n2);
    var f2 := f1 + PutText("description", node.description);
    var n3 := n2.(title := node.title);
    ReadsText(f2, path, n2, "title", node.title, n3);
    var f3 := f2 + PutText("title", node.title);
    var n4 := n3.(enumeration := node.enumeration);
    ReadsList(f3, path, n3, "enum", node.enumeration, n4);
    var f4 := f3 + PutList("enum", node.enumeration);
    var n5 := n4.(constant := node.constant);
    ReadsJson(f4, path, n4, "const", node.constant, n5);
    var f5 := f4 + PutJson("const", node.constant);
    LaterKeywords(node, path, f5, n5);
  }

  lemma LaterKeywords(node: Node, path: string, f5: seq<Field>, n5: Node)
    requires f5 == PutText("type", node.schemaType) + PutText("description", node.description) + PutText("title", node.title)
                   + PutList("enum", node.enumeration) + PutJson("const", node.constant)
    requires n5 == Node(node.schemaType, node.description, node.title, node.enumeration, node.constant,
                        None, NoProperties, None, None, NoBranches, None, None)
    requires Reads(f5, path, n5)
    requires node.items.Some? ==> DecodeNode(Marshal(node.items.value), path + ".items") == Decoding(node.items.value, [])
    requires node.properties.Properties? ==>
      var printed := JObject(MarshalProperties(node, |node.properties.list|));
      DecodeProperties(printed, |node.properties.list|, path) == (node.properties.list, [])
    requires node.oneOf.OneOf? ==>
      DecodeBranches(JArray(MarshalBranches(node, |node.oneOf.nodes|)), |node.oneOf.nodes|, path) == (node.oneOf.nodes, [])
    ensures DecodeNode(Marshal(node), path) == Decoding(node, [])
  {
    hide DecodeNode, DecodeProperties, DecodeBranches, PutText, PutList, PutJson, PutItems, PutProperties,
      PutRequired, PutAdditional, PutOneOf, MarshalProperties, MarshalBranches, DecodeField;
    ReadsItems(f5, path, n5, node);
    var f6, n6 := f5 + PutItems(node), n5.(items := node.items);
    ReadsProperties(f6, path, n6, node);
    var f7, n7 := f6 + PutProperties(node), n6.(properties := node.properties);
    ReadsRequired(f7, path, n7, node);
    var f8, n8 := f7 + PutRequired(node), n7.(required := node.required);
    ReadsAdditional(f8, path, n8, node);
    var f9, n9 := f8 + PutAdditional(node), n8.(additionalProperties := node.additionalProperties);
    ReadsOneOf(f9, path, n9, node);
    var f10, n10 := f9 + PutOneOf(node), n9.(oneOf := node.oneOf);
    ReadsJson(f10, path, n10, "default", node.default, n10.(default := node.default));
    var f11, n11 := f10 + PutJson("default", node.default), n10.(default := node.default);
    ReadsList(f11, path, n11, "examples", node.examples, n11.(examples := node.examples));
    assert MarshalFields(node) == f11 + PutList("examples", node.examples);
    assert n11.(examples := node.examples) == node;
  }

  /**
    Parsing what was printed gives the node back: property order, repeated names, and the
    difference between an absent and an empty list included.
  */
  lemma ParseUndoesMarshal(node: Node)
    ensures Parse(Marshal(node)) == Ok(node)
  {
    NodeRoundTrip(node, "schema");
  }

  /** Hence printing loses nothing: different nodes print differently. */
  lemma MarshalIsInjective(a: Node, b: Node)
    requires Marshal(a) == Marshal(b)
    ensures a == b
  {
    ParseUndoesMarshal(a);
    ParseUndoesMarshal(b);
  }
}
