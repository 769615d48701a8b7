/** Exactly which documents the schema parser accepts. */
module SchemaAcceptance {
  import opened Outcomes
  import opened Decimals
  import opened SchemaCodec

  /** The lenient shape of one keyword's value. */
  predicate FieldAccepted(field: Field)
    decreases field.value, 2, 0
  {
    var value := field.value;
    match field.name
    case "type" => value.JString? || value.JNull?
    case "oneOf" => value.JArray? ==> BranchesAccepted(value, |value.items|)
    case "properties" => value.JObject? && PropertiesAccepted(value, |value.fields|)
    case "required" =>
      value.JNull? || (value.JArray? && forall i :: 0 <= i < |value.items| ==> value.items[i].JString? || value.items[i].JNull?)
    case "additionalProperties" => value.JNull? || value.JBool?
    case "items" => Accepted(value)
    case "enum" => true
    case "const" => true
    case "description" => value.JString? || value.JNull?
    case "title" => value.JString? || value.JNull?
    case "default" => true
    case "examples" => value.JNull? || value.JArray?
    case _ => false
  }

  predicate BranchesAccepted(json: Json, k: nat)
    requires json.JArray? && k <= |json.items|
    decreases json, 0, k
  {
    forall i :: 0 <= i < k ==> Accepted(json.items[i])
  }

  predicate PropertiesAccepted(json: Json, k: nat)
    requires json.JObject? && k <= |json.fields|
    decreases json, 0, k
  {
    forall i :: 0 <= i < k ==> Accepted(json.fields[i].value)
  }

  /** An object whose every keyword is known and has an acceptable value. */
  predicate Accepted(json: Json)
    decreases json, 1, 0
  {
    json.JObject? && forall i :: 0 <= i < |json.fields| ==> FieldAccepted(json.fields[i])
  }

  lemma {:induction false} FieldFaults(field: Field, d: Decoding, path: string)
    ensures d.violations <= DecodeField(field, d, path).violations
    ensures DecodeField(field, d, path).violations == d.violations <==> FieldAccepted(field)
    decreases field.value, 2, 0
  {
    var value := field.value;
    hide BranchesAccepted, PropertiesAccepted, Accepted, DecodeBranches, DecodeProperties, DecodeNode;
    if field.name == "oneOf" && value.JArray? {
      BranchFaults(value, |value.items|, path);
    } else if field.name == "properties" && value.JObject? {
      PropertyFaults(value, |value.fields|, path);
    } else if field.name == "items" {
      NodeFaults(value, path + ".items");
    }
  }

  lemma {:induction false} BranchFaults(json: Json, k: nat, path: string)
    requires json.JArray? && k <= |json.items|
    ensures DecodeBranches(json, k, path).1 == [] <==> BranchesAccepted(json, k)
    decreases json, 0, k
  {
    hide Accepted, DecodeNode, Decimal;
    if k > 0 {
      BranchFaults(json, k - 1, path);
      NodeFaults(json.items[k - 1], path + ".oneOf[" + Decimal(k - 1) + "]");
    }
  }

  lemma {:induction false} PropertyFaults(json: Json, k: nat, path: string)
    requires json.JObject? && k <= |json.fields|
    ensures DecodeProperties(json, k, path).1 == [] <==> PropertiesAccepted(json, k)
    decreases json, 0, k
  {
    hide Accepted, DecodeNode;
    if k > 0 {
      PropertyFaults(json, k - 1, path);
      NodeFaults(json.fields[k - 1].value, path + ".properties." + json.fields[k - 1].name);
    }
  }

  lemma {:induction false} FieldsFault(json: Json, k: nat, path: string)
    requires json.JObject? && k <= |json.fields|
    ensures DecodeFields(json, k, path).violations == [] <==> forall i :: 0 <= i < k ==> FieldAccepted(json.fields[i])
    decreases json, 0, k
  {
    hide FieldAccepted, DecodeField;
    if k > 0 {
      FieldsFault(json, k - 1, path);
      FieldFaults(json.fields[k - 1], DecodeFields(json, k - 1, path), path);
    }
  }

  lemma {:induction false} NodeFaults(json: Json, path: string)
    ensures DecodeNode(json, path).violations == [] <==> Accepted(json)
    decreases json, 1, 0
  {
    hide FieldAccepted, DecodeFields;
    if json.JObject? {
      FieldsFault(json, |json.fields|, path);
    }
  }

  /** Parsing succeeds exactly on objects of known keywords with values of the lenient shapes. */
  lemma ParseAcceptsExactly(json: Json)
    ensures Parse(json).Ok? <==> Accepted(json)
  {
    NodeFaults(json, "schema");
  }

  /** Printing a parsed schema makes it canonical: parsing and printing it again changes nothing. */
  lemma PrintingIsCanonical(json: Json)
    requires Accepted(json)
    ensures Parse(json).Ok? && Parse(Marshal(Parse(json).value)) == Parse(json)
  {
    ParseAcceptsExactly(json);
    ParseUndoesMarshal(Parse(json).value);
  }

  /** Where the parser takes null for a value: a null additionalProperties forbids, a null list vanishes. */
  lemma NullIsTakenLeniently()
    ensures Parse(JObject([Field("additionalProperties", JNull)])) == Ok(EMPTY_NODE.(additionalProperties := Some(false)))
    ensures Parse(JObject([Field("required", JNull)])) == Ok(EMPTY_NODE)
    ensures Parse(JObject([Field("type", JNull)])) == Ok(EMPTY_NODE)
    ensures Parse(JObject([Field("enum", JString("x"))])) == Ok(EMPTY_NODE.(enumeration := Some([])))
  {
    hide DecodeNode;
    OneKeyword(Field("additionalProperties", JNull), EMPTY_NODE.(additionalProperties := Some(false)));
    OneKeyword(Field("required", JNull), EMPTY_NODE);
    OneKeyword(Field("type", JNull), EMPTY_NODE);
    OneKeyword(Field("enum", JString("x")), EMPTY_NODE.(enumeration := Some([])));
  }

  lemma OneKeyword(field: Field, node: Node)
    requires DecodeField(field, Decoding(EMPTY_NODE, []), "schema") == Decoding(node, [])
    ensures Parse(JObject([field])) == Ok(node)
  {
    assert Reads([], "schema", EMPTY_NODE);
    ReadsMore([], [field], "schema", EMPTY_NODE, node);
    assert [] + [field] == [field];
  }
}
