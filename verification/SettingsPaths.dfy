/**
  Editing and layering settings sections (settings/json.go, settings/provider.go). What an edit does
  is stated through what every path reads before and after it.
*/
module SettingsPaths {
  import opened Outcomes

  datatype Json =
    | JNull
    | JScalar(raw: string)
    | JArray(items: seq<Json>)
    | JObject(fields: map<string, Json>)

  type Section = map<string, Json>
  type Path = seq<string>

  /** The value at a path, if every step on the way is an object that has the key. */
  function Read(value: Json, path: Path): Option<Json> {
    if path == [] then Some(value)
    else if !value.JObject? || path[0] !in value.fields then None
    else Read(value.fields[path[0]], path[1..])
  }

  function ReadIn(section: Section, path: Path): Option<Json> {
    Read(JObject(section), path)
  }

  lemma {:induction false} ReadThrough(value: Json, path: Path, more: Path)
    ensures Read(value, path + more) == if Read(value, path).None? then None else Read(Read(value, path).value, more)
    decreases |path|
  {
    if path == [] {
      assert path + more == more;
    } else {
      assert (path + more)[1..] == path[1..] + more;
      if value.JObject? && path[0] in value.fields {
        ReadThrough(value.fields[path[0]], path[1..], more);
      }
    }
  }

  // ---------------------------------------------------------------------------------------------
  // Path edits

  datatype PathOp = Set(path: Path, value: Json) | Unset(path: Path)

  datatype SettingsError = MalformedSection

  function ApplyPathOp(section: Section, op: PathOp): Result<Section, SettingsError>
    decreases |op.path|
  {
    if op.path == [] then
      if op.Unset? then Ok(map[])
      else if !op.value.JObject? then Err(MalformedSection)
      else Ok(op.value.fields)
    else
      var head := op.path[0];
      var rest := op.path[1..];
      if rest == [] then
        Ok(if op.Set? then section[head := op.value] else section - {head})
      else
        var childIsObject := head in section && section[head].JObject?;
        if !childIsObject && op.Unset? then Ok(section)
        else
          var child := if childIsObject then section[head].fields else map[];
          var grown :- ApplyPathOp(child, if op.Set? then Set(rest, op.value) else Unset(rest));
          Ok(section[head := JObject(grown)])
  }

  function ApplyAll(section: Section, ops: seq<PathOp>): Result<Section, SettingsError>
    decreases |ops|
  {
    if ops == [] then Ok(section)
    else
      var next :- ApplyPathOp(section, ops[0]);
      ApplyAll(next, ops[1..])
  }

  /** One path is the other or lies below it. */
  predicate Comparable(a: Path, b: Path) {
    a <= b || b <= a
  }

  predicate Refused(op: PathOp) {
    op.Set? && op.path == [] && !op.value.JObject?
  }

  /** The only edit that fails is writing something other than an object over the whole section. */
  lemma {:induction false} FailsExactlyAtTheRoot(section: Section, op: PathOp)
    ensures ApplyPathOp(section, op).Err? <==> Refused(op)
    decreases |op.path|
  {
    if |op.path| > 1 {
      var head, rest := op.path[0], op.path[1..];
      var childIsObject := head in section && section[head].JObject?;
      var child := if childIsObject then section[head].fields else map[];
      FailsExactlyAtTheRoot(child, if op.Set? then Set(rest, op.value) else Unset(rest));
    }
  }

  /** An edit leaves every incomparable path reading as before. */
  lemma {:induction false} EditHasAFrame(section: Section, op: PathOp, path: Path)
    requires ApplyPathOp(section, op).Ok? && !Comparable(op.path, path)
    ensures ReadIn(ApplyPathOp(section, op).value, path) == ReadIn(section, path)
    decreases |op.path|
  {
    var head := op.path[0];
    if path[0] == head && |op.path| > 1 {
      var childIsObject := head in section && section[head].JObject?;
      var child := if childIsObject then section[head].fields else map[];
      if childIsObject || op.Set? {
        var inner := if op.Set? then Set(op.path[1..], op.value) else Unset(op.path[1..]);
        EditHasAFrame(child, inner, path[1..]);
        HeadChild(section, path);
      }
    } else if path[0] != head {
    }
  }

  /** Below a key, an absent child and one that is not an object read like an empty one. */
  lemma HeadChild(section: Section, path: Path)
    requires |path| > 1
    ensures var head := path[0];
            var childIsObject := head in section && section[head].JObject?;
            ReadIn(section, path) == ReadIn(if childIsObject then section[head].fields else map[], path[1..])
  {
    var head, rest := path[0], path[1..];
    assert rest != [];
    assert ReadIn(section, path) == if head in section then Read(section[head], rest) else None;
    assert ReadIn(map[], rest) == None;
    if head in section && section[head].JObject? {
      assert section[head] == JObject(section[head].fields);
    }
  }

  /** What an edit leaves at and below its own path. The section itself is an object even once unset. */
  function Written(op: PathOp, below: Path): Option<Json> {
    if op.Set? then Read(op.value, below)
    else if op.path == [] && below == [] then Some(JObject(map[]))
    else None
  }

  /** At and below its path, a set reads the value it wrote and an unset reads nothing. */
  lemma {:induction false} EditReadsBack(section: Section, op: PathOp, below: Path)
    requires ApplyPathOp(section, op).Ok?
    ensures ReadIn(ApplyPathOp(section, op).value, op.path + below) == Written(op, below)
    decreases |op.path|
  {
    if op.path == [] {
      assert op.path + below == below;
      return;
    }
    var head := op.path[0];
    assert (op.path + below)[1..] == op.path[1..] + below;
    if |op.path| == 1 {
      assert op.path[1..] + below == below;
    } else {
      var childIsObject := head in section && section[head].JObject?;
      var child := if childIsObject then section[head].fields else map[];
      if childIsObject || op.Set? {
        EditReadsBack(child, if op.Set? then Set(op.path[1..], op.value) else Unset(op.path[1..]), below);
      } else {
        HeadChild(section, op.path + below);
      }
    }
  }

  /** An unset that finds nothing to remove, or no object to remove it from, is the identity. */
  lemma {:induction false} UnsetOfNothingIsIdentity(section: Section, path: Path)
    requires path != [] && ReadIn(section, path).None?
    ensures ApplyPathOp(section, Unset(path)) == Ok(section)
    decreases |path|
  {
    if |path| == 1 {
      var rest := path[1..];
      assert rest == [];
      assert ReadIn(section, path) == if path[0] in section then Read(section[path[0]], rest) else None;
      assert section - {path[0]} == section;
    } else {
      var head := path[0];
      if head in section && section[head].JObject? {
        UnsetOfNothingIsIdentity(section[head].fields, path[1..]);
        assert section[head := section[head]] == section;
      }
    }
  }

  /** Edits one after another have the frame of all of them together. */
  lemma {:induction false} EditsHaveAFrame(section: Section, ops: seq<PathOp>, path: Path)
    requires ApplyAll(section, ops).Ok?
    requires forall i :: 0 <= i < |ops| ==> !Comparable(ops[i].path, path)
    ensures ReadIn(ApplyAll(section, ops).value, path) == ReadIn(section, path)
    decreases |ops|
  {
    if ops != [] {
      assert ApplyPathOp(section, ops[0]).Ok?;
      EditHasAFrame(section, ops[0], path);
      var next := ApplyPathOp(section, ops[0]).value;
      assert forall i :: 0 <= i < |ops[1..]| ==> ops[1..][i] == ops[i + 1];
      EditsHaveAFrame(next, ops[1..], path);
    }
  }

  lemma {:induction false} ApplyAllConcat(section: Section, a: seq<PathOp>, b: seq<PathOp>)
    ensures ApplyAll(section, a + b) ==
      if ApplyAll(section, a).Err? then ApplyAll(section, a) else ApplyAll(ApplyAll(section, a).value, b)
    decreases |a|
  {
    if a == [] {
      assert a + b == b;
    } else {
      assert (a + b)[1..] == a[1..] + b;
      if ApplyPathOp(section, a[0]).Ok? {
        ApplyAllConcat(ApplyPathOp(section, a[0]).value, a[1..], b);
      }
    }
  }

  /** What the k-th edit left at or below its path reads back after all of them, unless a later edit is comparable with it. */
  lemma SetReadsUntilComparable(section: Section, ops: seq<PathOp>, k: nat, below: Path)
    requires k < |ops| && ApplyAll(section, ops).Ok?
    requires forall i :: k < i < |ops| ==> !Comparable(ops[i].path, ops[k].path + below)
    ensures ReadIn(ApplyAll(section, ops).value, ops[k].path + below) == Written(ops[k], below)
  {
    hide ApplyPathOp, ReadIn, Comparable, Written;
    var before, after := ops[..k], ops[k + 1..];
    assert ops == before + ([ops[k]] + after);
    ApplyAllConcat(section, before, [ops[k]] + after);
    var at := ApplyAll(section, before).value;
    assert ([ops[k]] + after)[1..] == after;
    assert ApplyPathOp(at, ops[k]).Ok?;
    var next := ApplyPathOp(at, ops[k]).value;
    EditReadsBack(at, ops[k], below);
    assert forall i :: 0 <= i < |after| ==> after[i] == ops[k + 1 + i];
    EditsHaveAFrame(next, after, ops[k].path + below);
  }

  /** A list of edits goes through exactly when none of them is refused. */
  lemma {:induction false} EditsFailExactly(section: Section, ops: seq<PathOp>)
    ensures ApplyAll(section, ops).Err? <==> exists i :: 0 <= i < |ops| && Refused(ops[i])
    decreases |ops|
  {
    if ops != [] {
      FailsExactlyAtTheRoot(section, ops[0]);
      if !Refused(ops[0]) {
        EditsFailExactly(ApplyPathOp(section, ops[0]).value, ops[1..]);
        if exists i :: 0 <= i < |ops[1..]| && Refused(ops[1..][i]) {
          var i :| 0 <= i < |ops[1..]| && Refused(ops[1..][i]);
          assert Refused(ops[i + 1]);
        }
        assert forall i :: 0 < i < |ops| ==> ops[i] == ops[1..][i - 1];
      }
    }
  }

  /** Mutate: the edits in order, each on the section the one before left. */
  method Mutate(current: Section, ops: seq<PathOp>) returns (r: Result<Section, SettingsError>)
    ensures r == ApplyAll(current, ops)
  {
    var section := current;
    for i := 0 to |ops|
      invariant ApplyAll(current, ops) == ApplyAll(section, ops[i..])
    {
      assert ops[i..][1..] == ops[i + 1..];
      section :- ApplyPathOp(section, ops[i]);
    }
    return Ok(section);
  }

  // ---------------------------------------------------------------------------------------------
  // Layers

  /** mergeLayers: two objects merge key by key, anything else is replaced whole. */
  function Merge(under: Json, over: Json): Json
    decreases under
  {
    if !under.JObject? || !over.JObject? then over
    else
      JObject(map key | key in under.fields.Keys + over.fields.Keys ::
        if key !in over.fields then under.fields[key]
        else if key !in under.fields then over.fields[key]
        else Merge(under.fields[key], over.fields[key]))
  }

  /** On the way to the path, the upper layer has a value that is not an object. */
  predicate Blocks(over: Json, path: Path) {
    path != [] && (!over.JObject? || (path[0] in over.fields && Blocks(over.fields[path[0]], path[1..])))
  }

  /**
    What a merged value reads at any path: the upper layer where it speaks, merged with the lower
    one where both do, the lower one where the upper is silent, and nothing below an upper value
    that is not an object.
  */
  lemma {:induction false} MergeReads(under: Json, over: Json, path: Path)
    ensures Read(Merge(under, over), path) ==
      var u := Read(under, path);
      var o := Read(over, path);
      if o.Some? then Some(if u.Some? then Merge(u.value, o.value) else o.value)
      else if Blocks(over, path) then None
      else u
    decreases |path|
  {
    if path != [] && under.JObject? && over.JObject? {
      var key := path[0];
      if key in under.fields && key in over.fields {
        MergeReads(under.fields[key], over.fields[key], path[1..]);
      } else if key in over.fields {
      }
    } else if path != [] {
    }
  }

  /** Merging the same patch again changes nothing. */
  lemma {:induction false} MergeIsIdempotent(under: Json, over: Json)
    ensures Merge(Merge(under, over), over) == Merge(under, over)
    decreases under, 1
  {
    if under.JObject? && over.JObject? {
      var once := Merge(under, over);
      forall key <- once.fields ensures Merge(once, over).fields[key] == once.fields[key] {
        if key in under.fields && key in over.fields {
          MergeIsIdempotent(under.fields[key], over.fields[key]);
        } else if key in over.fields {
          MergeWithItself(over.fields[key]);
        }
      }
      assert Merge(once, over).fields == once.fields;
    } else {
      MergeWithItself(over);
    }
  }

  lemma {:induction false} MergeWithItself(value: Json)
    ensures Merge(value, value) == value
  {
    if value.JObject? {
      forall key <- value.fields ensures Merge(value, value).fields[key] == value.fields[key] {
        MergeWithItself(value.fields[key]);
      }
      assert Merge(value, value).fields == value.fields;
    }
  }

  /** The loops of mergeLayers, over any order of the keys. */
  method MergeLayers(under: Json, over: Json) returns (merged: Json)
    ensures merged == Merge(under, over)
    decreases under
  {
    if !under.JObject? || !over.JObject? {
      return over;
    }
    var fields: map<string, Json> := under.fields;
    var left := over.fields.Keys;
    while left != {}
      invariant left <= over.fields.Keys
      invariant fields.Keys == under.fields.Keys + (over.fields.Keys - left)
      invariant forall key <- fields :: key in left || key !in over.fields ==> fields[key] == under.fields[key]
      invariant forall key <- fields :: key !in left && key in over.fields ==>
        fields[key] == Merge(JObject(under.fields), over).fields[key]
    {
      var key :| key in left;
      if key in fields {
        var value := MergeLayers(under.fields[key], over.fields[key]);
        fields := fields[key := value];
      } else {
        fields := fields[key := over.fields[key]];
      }
      left := left - {key};
    }
    assert fields == Merge(under, over).fields;
    return JObject(fields);
  }
}
