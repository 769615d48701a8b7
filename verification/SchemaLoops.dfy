/** The statements and loops of tools/jsonschema.go. */
module SchemaLoops {
  import opened Outcomes
  import opened Decimals
  import opened SchemaCodec

  /** MarshalJSON: keywords put one after another, nested nodes printed on the way. */
  method MarshalJSON(node: Node) returns (json: Json)
    ensures json == Marshal(node)
    decreases node, 1
  {
    hide MarshalProperties, MarshalBranches;
    var out: seq<Field> := PutText("type", node.schemaType);
    out := out + PutText("description", node.description);
    out := out + PutText("title", node.title);
    out := out + PutList("enum", node.enumeration);
    out := out + PutJson("const", node.constant);
    var nested: seq<Field> := [];
    if node.items.Some? {
      var items := MarshalJSON(node.items.value);
      nested := [Field("items", items)];
    }
    assert nested == PutItems(node);
    out := out + nested;
    nested := [];
    if node.properties.Properties? {
      var fields := PrintProperties(node);
      nested := [Field("properties", JObject(fields))];
    }
    assert nested == PutProperties(node);
    out := out + nested;
    out := out + PutRequired(node);
    out := out + PutAdditional(node);
    nested := [];
    if node.oneOf.OneOf? {
      var branches := PrintBranches(node);
      nested := [Field("oneOf", JArray(branches))];
    }
    assert nested == PutOneOf(node);
    out := out + nested;
    out := out + PutJson("default", node.default);
    out := out + PutList("examples", node.examples);
    return JObject(out);
  }

  method PrintProperties(node: Node) returns (fields: seq<Field>)
    requires node.properties.Properties?
    ensures fields == MarshalProperties(node, |node.properties.list|)
    decreases node, 0
  {
    hide Marshal;
    fields := [];
    for i := 0 to |node.properties.list|
      invariant fields == MarshalProperties(node, i)
    {
      var schema := MarshalJSON(node.properties.list[i].schema);
      fields := fields + [Field(node.properties.list[i].name, schema)];
    }
  }

  method PrintBranches(node: Node) returns (items: seq<Json>)
    requires node.oneOf.OneOf?
    ensures items == MarshalBranches(node, |node.oneOf.nodes|)
    decreases node, 0
  {
    hide Marshal;
    items := [];
    for i := 0 to |node.oneOf.nodes|
      invariant items == MarshalBranches(node, i)
    {
      var branch := MarshalJSON(node.oneOf.nodes[i]);
      items := items + [branch];
    }
  }

  /** decodeSchemaNode: one keyword after another into the node, faults appended as they are met. */
  method DecodeSchemaNode(json: Json, path: string, violations: seq<Violation>) returns (node: Node, all: seq<Violation>)
    ensures node == DecodeNode(json, path).node
    ensures all == violations + DecodeNode(json, path).violations
    decreases json, 1
  {
    hide DecodeField;
    if !json.JObject? {
      return EMPTY_NODE, violations + [Violation(path, NotASchemaObject)];
    }
    node := EMPTY_NODE;
    var found: seq<Violation> := [];
    for i := 0 to |json.fields|
      invariant Decoding(node, found) == DecodeFields(json, i, path)
    {
      node, found := DecodeSchemaField(json.fields[i], node, found, path);
    }
    all := violations + found;
  }

  method DecodeSchemaField(field: Field, node: Node, violations: seq<Violation>, path: string)
    returns (node': Node, all: seq<Violation>)
    ensures Decoding(node', all) == DecodeField(field, Decoding(node, violations), path)
    decreases field.value, 2
  {
    hide DecodeBranches, DecodeProperties, DecodeNode;
    var value := field.value;
    node', all := node, violations;
    match field.name {
      case "type" =>
        if IsText(value) {
          node' := node'.(schemaType := TextOf(value));
        } else {
          var fault := if value.JArray? then TypeArray else NotAType;
          all := all + [Violation(path, fault)];
        }
      case "oneOf" =>
        node' := node'.(oneOf := OneOf([]));
        if value.JArray? {
          var branches, more := DecodeOneOf(value, violations, path);
          node', all := node'.(oneOf := OneOf(branches)), more;
        }
      case "properties" =>
        node' := node'.(properties := Properties([]));
        if value.JObject? {
          var properties, more := DecodePropertyTable(value, violations, path);
          node', all := node'.(properties := Properties(properties)), more;
        } else {
          all := all + [Violation(path, NotSchemas)];
        }
      case "required" =>
        if value.JNull? {
          node' := node'.(required := None);
        } else {
          var names := DecodeStrings(value);
          if names.Some? {
            node' := node'.(required := names);
          } else {
            all := all + [Violation(path, NotStrings)];
          }
        }
      case "additionalProperties" =>
        if value.JNull? || value.JBool? {
          node' := node'.(additionalProperties := Some(value.JBool? && value.value));
        } else {
          all := all + [Violation(path, NotABoolean)];
        }
      case "items" =>
        var items, more := DecodeSchemaNode(value, path + ".items", violations);
        node', all := node'.(items := Some(items)), more;
      case "enum" =>
        node' := node'.(enumeration := Some([]));
        if value.JArray? || value.JNull? {
          node' := node'.(enumeration := if value.JArray? then Some(value.items) else None);
        }
      case "const" =>
        node' := node'.(constant := Some(value));
      case "description" =>
        if value.JString? {
          node' := node'.(description := value.text);
        } else if !value.JNull? {
          all := all + [Violation(path, NotText)];
        }
      case "title" =>
        if value.JString? {
          node' := node'.(title := value.text);
        } else if !value.JNull? {
          all := all + [Violation(path, NotText)];
        }
      case "default" =>
        node' := node'.(default := Some(value));
      case "examples" =>
        node' := node'.(examples := Some([]));
        if value.JArray? || value.JNull? {
          node' := node'.(examples := if value.JArray? then Some(value.items) else None);
        } else {
          all := all + [Violation(path, NotLossless)];
        }
      case _ =>
        all := all + [Violation(path, NotAKeyword(field.name))];
    }
  }

  /** An array of strings, read element by element; none if it is not one. */
  method DecodeStrings(value: Json) returns (names: Option<seq<string>>)
    ensures names == if IsStrings(value) then Some(TextsOf(value)) else None
  {
    if !value.JArray? {
      return None;
    }
    var texts: seq<string> := [];
    for i := 0 to |value.items|
      invariant texts == TextsOf(value)[..i] && forall j :: 0 <= j < i ==> IsText(value.items[j])
    {
      if !IsText(value.items[i]) {
        return None;
      }
      texts := texts + [TextOf(value.items[i])];
    }
    assert TextsOf(value)[..|value.items|] == TextsOf(value);
    return Some(texts);
  }

  method DecodeOneOf(json: Json, violations: seq<Violation>, path: string) returns (nodes: seq<Node>, all: seq<Violation>)
    requires json.JArray?
    ensures nodes == DecodeBranches(json, |json.items|, path).0
    ensures all == violations + DecodeBranches(json, |json.items|, path).1
    decreases json, 0
  {
    hide DecodeNode, Decimal;
    nodes, all := [], violations;
    for i := 0 to |json.items|
      invariant nodes == DecodeBranches(json, i, path).0 && all == violations + DecodeBranches(json, i, path).1
    {
      var branch, more := DecodeSchemaNode(json.items[i], path + ".oneOf[" + Decimal(i) + "]", all);
      nodes, all := nodes + [branch], more;
    }
  }

  method DecodePropertyTable(json: Json, violations: seq<Violation>, path: string)
    returns (properties: seq<Property>, all: seq<Violation>)
    requires json.JObject?
    ensures properties == DecodeProperties(json, |json.fields|, path).0
    ensures all == violations + DecodeProperties(json, |json.fields|, path).1
    decreases json, 0
  {
    hide DecodeNode;
    properties, all := [], violations;
    for i := 0 to |json.fields|
      invariant properties == DecodeProperties(json, i, path).0 && all == violations + DecodeProperties(json, i, path).1
    {
      var schema, more := DecodeSchemaNode(json.fields[i].value, path + ".properties." + json.fields[i].name, all);
      properties, all := properties + [Property(json.fields[i].name, schema)], more;
    }
  }
}
