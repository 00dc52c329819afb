/** `processNode`: wraps a raw REST record into a graph-node envelope. The host's node-id
    generator, its digest function and `JSON.stringify` are passed in as functions. */
module NodeWrapper {
  import opened Js
  import FieldNames

  /** The keys that `processNode` sets on the node, over whatever the record carried. */
  const EnvelopeKeys: set<string> := {"id", "wordpress_id", "parent", "children", "internal"}

  /** A raw record from the REST API: a plain object, from which `processNode` deletes a key. */
  class RawRecord {
    var fields: map<string, Value>

    constructor (fields: map<string, Value>)
      ensures this.fields == fields
    {
      this.fields := fields;
    }
  }

  /** The seed `woocommerce-${fieldName}-${node.id}` handed to the node-id generator. */
  function NodeSeed(fieldName: Value, id: Value): string {
    "woocommerce-" + Text(fieldName) + "-" + Text(id)
  }

  /** `wc${capitalize(fieldName)}`. `capitalize` reads `fieldName[0]`, which is `undefined`
      unless `fieldName` is a non-empty string, and then throws. */
  function NodeType(fieldName: Value): (r: Result<string>)
    ensures r.Ok? <==> fieldName.Str? && fieldName.s != ""
    ensures r.Ok? ==> r.value == "wc" + FieldNames.Capitalize(fieldName.s).value
  {
    if fieldName.Str? then
      match FieldNames.Capitalize(fieldName.s)
      case Ok(c) => Ok("wc" + c)
      case TypeError => TypeError
    else TypeError
  }

  /** The node that `processNode` returns for a record whose keys were `fields`: the record
      without `fieldName`, with the five envelope keys set over it. */
  function Wrap(createNodeId: string -> string, createContentDigest: string -> string,
                stringify: map<string, Value> -> string, fields: map<string, Value>)
    : (r: Result<map<string, Value>>)
    ensures r.Ok? <==> Get(fields, "fieldName").Str? && Get(fields, "fieldName").s != ""
    ensures r.Ok? ==> r.value.Keys == (fields.Keys - {"fieldName"}) + EnvelopeKeys
    ensures r.Ok? ==> forall k :: k in fields && k != "fieldName" && k !in EnvelopeKeys ==> r.value[k] == fields[k]
  {
    var fieldName := Get(fields, "fieldName");
    var record := fields - {"fieldName"};
    var content := stringify(record);
    match NodeType(fieldName)
    case TypeError => TypeError
    case Ok(t) =>
      Ok(record + map[
           "id" := Str(createNodeId(NodeSeed(fieldName, Get(record, "id")))),
           "wordpress_id" := Get(record, "id"),
           "parent" := Null,
           "children" := Arr([]),
           "internal" := Obj(map[
             "type" := Str(t),
             "content" := Str(content),
             "contentDigest" := Str(createContentDigest(content))])])
  }

  /** `processNode(createNodeId, createContentDigest, node)`: deletes `fieldName` from the record
      itself, then builds the node from what is left. */
  method ProcessNode(createNodeId: string -> string, createContentDigest: string -> string,
                     stringify: map<string, Value> -> string, node: RawRecord)
    returns (r: Result<map<string, Value>>)
    modifies node
    ensures node.fields == old(node.fields) - {"fieldName"}
    ensures r == Wrap(createNodeId, createContentDigest, stringify, old(node.fields))
  {
    var fieldName := Get(node.fields, "fieldName");
    node.fields := node.fields - {"fieldName"};
    var nodeContent := stringify(node.fields);
    var id := createNodeId(NodeSeed(fieldName, Get(node.fields, "id")));
    var typeName := NodeType(fieldName);
    if typeName.TypeError? {
      return TypeError;
    }
    var internal := map[
      "type" := Str(typeName.value),
      "content" := Str(nodeContent),
      "contentDigest" := Str(createContentDigest(nodeContent))];
    r := Ok(node.fields + map[
      "id" := Str(id),
      "wordpress_id" := Get(node.fields, "id"),
      "parent" := Null,
      "children" := Arr([]),
      "internal" := Obj(internal)]);
  }

  /** The envelope: the node id is generated from the namespaced seed, `wordpress_id` keeps the
      source id, there is no parent and no child, the type is "wc" + the capitalised field name,
      and the content is the serialisation of the record without `fieldName`, with its digest. */
  lemma WrapEnvelope(createNodeId: string -> string, createContentDigest: string -> string,
                     stringify: map<string, Value> -> string, fields: map<string, Value>, name: string)
    requires Get(fields, "fieldName") == Str(name) && name != ""
    ensures var r := Wrap(createNodeId, createContentDigest, stringify, fields);
      var content := stringify(fields - {"fieldName"});
      r.Ok? &&
      r.value["id"] == Str(createNodeId("woocommerce-" + name + "-" + Text(Get(fields, "id")))) &&
      r.value["wordpress_id"] == Get(fields, "id") &&
      r.value["parent"] == Null &&
      r.value["children"] == Arr([]) &&
      r.value["internal"] == Obj(map[
        "type" := Str("wc" + [Upper(name[0])] + name[1..]),
        "content" := Str(content),
        "contentDigest" := Str(createContentDigest(content))])
  {
    assert Get(fields - {"fieldName"}, "id") == Get(fields, "id");
    assert "wc" + ([Upper(name[0])] + name[1..]) == "wc" + [Upper(name[0])] + name[1..];
  }

  /** The routing tag never reaches the node: it is neither a key of the node nor a key of the
      record that is serialised into `internal.content`. */
  lemma WrapStripsFieldName(createNodeId: string -> string, createContentDigest: string -> string,
                            stringify: map<string, Value> -> string, fields: map<string, Value>)
    ensures var r := Wrap(createNodeId, createContentDigest, stringify, fields);
      r.Ok? ==> "fieldName" !in r.value &&
                r.value["internal"].Obj? &&
                r.value["internal"].fields["content"] == Str(stringify(fields - {"fieldName"})) &&
                "fieldName" !in fields - {"fieldName"}
  {
  }

  /** `processNode` deletes `fieldName` from its argument, so processing the same record object
      a second time throws. */
  lemma ProcessingTwiceThrows(createNodeId: string -> string, createContentDigest: string -> string,
                              stringify: map<string, Value> -> string, fields: map<string, Value>)
    ensures Wrap(createNodeId, createContentDigest, stringify, fields - {"fieldName"}) == TypeError
  {
  }

  /** Node seeds are namespaced: for field names without '-', different (field name, numeric id)
      pairs give different seeds, so the node id only repeats when the record does. */
  lemma NodeSeedInjective(a: string, x: int, b: string, y: int)
    requires '-' !in a && '-' !in b
    ensures NodeSeed(Str(a), Num(x)) == NodeSeed(Str(b), Num(y)) ==> a == b && x == y
  {
    var prefix := "woocommerce-";
    var dx, dy := Decimal(x), Decimal(y);
    var u := a + "-" + dx;
    var v := b + "-" + dy;
    assert Text(Str(a)) == a && Text(Num(x)) == dx;
    assert Text(Str(b)) == b && Text(Num(y)) == dy;
    assert NodeSeed(Str(a), Num(x)) == prefix + u;
    assert NodeSeed(Str(b), Num(y)) == prefix + v;
    if prefix + u == prefix + v {
      assert u == (prefix + u)[|prefix|..];
      assert v == (prefix + v)[|prefix|..];
      FirstDashSplits(a, dx, b, dy);
      DecimalInjective(x, y);
    }
  }

  /** The text before the first '-' determines both halves of `a-s`. */
  lemma FirstDashSplits(a: string, s: string, b: string, t: string)
    requires '-' !in a && '-' !in b
    requires a + "-" + s == b + "-" + t
    ensures a == b && s == t
  {
    FirstDashAt(a, s);
    FirstDashAt(b, t);
    assert |a| == |b|;
    var u := a + "-" + s;
    assert a == u[..|a|] && b == u[..|b|];
    assert s == u[|a| + 1..] && t == u[|b| + 1..];
  }

  /** In `a-s`, with no '-' in `a`, the first '-' is at index |a|. */
  lemma FirstDashAt(a: string, s: string)
    requires '-' !in a
    ensures (a + "-" + s)[|a|] == '-'
    ensures forall i :: 0 <= i < |a| ==> (a + "-" + s)[i] != '-'
  {
    forall i | 0 <= i < |a|
      ensures (a + "-" + s)[i] != '-'
    {
      assert (a + "-" + s)[i] == a[i];
    }
  }
}
