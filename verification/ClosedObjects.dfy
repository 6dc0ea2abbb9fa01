/**
 What the object schemas of the builders accept: the listed fields and no others, each with a value that its own
 schema accepts (objectSchema in scripts/organization-graph-contracts).
 */
module ClosedObjects {
  import opened Wrappers
  import opened JsonValues
  import opened SchemaEmbedding
  import opened SchemaMeaning
  import opened SchemaAcceptance
  import opened SourceSchema

  ghost predicate Accepted(holds: (string, Json, Json) -> bool, root: Json, schema: Json, instance: Json) {
    Decides(Standard(holds), root, schema, instance, Accept)
  }

  /** The schema that a list of properties gives a name. */
  function PropertySchemas(properties: seq<Property>): map<string, Json> {
    Object(BuiltProperties(properties))
  }

  /******* Everything has to accept *******/

  lemma AllAccept(verdicts: map<string, Verdict>)
    ensures All(verdicts) == Accept <==> forall k :: k in verdicts ==> verdicts[k] == Accept
  {
  }

  lemma {:induction false} CountIff(verdicts: seq<Verdict>, v: Verdict)
    ensures Count(verdicts, v) == 0 <==> forall i :: 0 <= i < |verdicts| ==> verdicts[i] != v
  {
    if verdicts != [] {
      CountIff(verdicts[1..], v);
      assert forall i :: 1 <= i < |verdicts| ==> verdicts[i] == verdicts[1..][i - 1];
    }
  }

  lemma EachAccepts(verdicts: seq<Verdict>)
    ensures Combine(EachOf, verdicts) == Accept <==> forall i :: 0 <= i < |verdicts| ==> verdicts[i] == Accept
  {
    CountIff(verdicts, Stuck);
    CountIff(verdicts, Reject);
  }

  /******* The keywords of a closed object *******/

  lemma KeywordsDiffer()
    ensures "type" != "additionalProperties" && "type" != "required" && "type" != "properties" && "type" != "allOf"
    ensures "additionalProperties" != "required" && "additionalProperties" != "properties"
    ensures "additionalProperties" != "allOf" && "required" != "properties" && "required" != "allOf"
    ensures "properties" != "allOf"
  {
    assert "type"[0] == 't' && "required"[0] == 'r' && "properties"[0] == 'p';
    assert "allOf"[1] == 'l' && "additionalProperties"[1] == 'd' && "additionalProperties"[0] == "allOf"[0] == 'a';
  }

  lemma ObjectSnoc(fields: Fields, key: string, value: Json)
    ensures Object(fields + [(key, value)]) == Object(fields)[key := value]
  {
    assert (fields + [(key, value)])[..|fields|] == fields;
  }

  /** The schema as a map, with its rules if it has any. */
  lemma ClosedMap(properties: seq<Property>, required: seq<string>, rules: seq<Shape>)
    ensures Built(Closed(properties, required, rules)) ==
            Obj(map["type" := Str("object"), "additionalProperties" := Bool(false), "required" := Texts(required),
                    "properties" := Obj(PropertySchemas(properties))]
                + if rules == [] then map[] else map["allOf" := Arr(BuiltAll(rules))])
  {
    var members := Obj(PropertySchemas(properties));
    KeywordsDiffer();
    ClosedFields(properties, required, rules);
    ObjectSnoc([], "type", Str("object"));
    ObjectSnoc([("type", Str("object"))], "additionalProperties", Bool(false));
    ObjectSnoc([("type", Str("object")), ("additionalProperties", Bool(false))], "required", Texts(required));
    var head := [("type", Str("object")), ("additionalProperties", Bool(false)), ("required", Texts(required))];
    assert [("type", Str("object"))] + [("additionalProperties", Bool(false))] + [("required", Texts(required))] == head;
    assert [] + [("type", Str("object"))] == [("type", Str("object"))];
    ObjectSnoc(head, "properties", members);
    if rules != [] {
      ObjectSnoc(head + [("properties", members)], "allOf", Arr(BuiltAll(rules)));
    } else {
      assert head + [("properties", members)] + [] == head + [("properties", members)];
    }
  }

  /** What the keywords ask of an object, at some depth. */
  ghost predicate Conforms(depth: nat, holds: (string, Json, Json) -> bool, root: Json, properties: seq<Property>,
                           required: seq<string>, rules: seq<Shape>, instance: map<string, Json>)
  {
    && holds("type", Str("object"), Obj(instance)) && holds("required", Texts(required), Obj(instance))
    && (forall name :: name in instance ==>
          && name in PropertySchemas(properties)
          && Eval(depth, Standard(holds), root, PropertySchemas(properties)[name], instance[name]) == Accept)
    && RulesAccept(depth, holds, root, rules, Obj(instance))
  }

  lemma DataVerdicts(depth: nat, holds: (string, Json, Json) -> bool, root: Json, fields: map<string, Json>, key: string,
                     instance: Json)
    requires key in fields && DataStart(key)
    ensures Keyword(depth, Standard(holds), root, fields, key, instance) == Accept <==> holds(key, fields[key], instance)
  {
    DataKeyword(key);
  }

  lemma FalseRejects(depth: nat, d: Dialect, root: Json, instance: Json)
    requires depth > 0
    ensures Eval(depth, d, root, Bool(false), instance) == Reject
  {
  }

  /** No field but the listed ones; this takes one step down. */
  lemma AdditionalVerdict(depth: nat, holds: (string, Json, Json) -> bool, root: Json, fields: map<string, Json>,
                          schemas: map<string, Json>, instance: map<string, Json>)
    requires depth > 0 && "properties" in fields && fields["properties"] == Obj(schemas)
    requires "additionalProperties" in fields && fields["additionalProperties"] == Bool(false)
    ensures Keyword(depth, Standard(holds), root, fields, "additionalProperties", Obj(instance)) == Accept <==>
            forall name :: name in instance ==> name in schemas
  {
    CollectionKeywords();
    var verdicts := AdditionalVerdicts(depth, Standard(holds), root, fields, Bool(false), instance);
    AllAccept(verdicts);
    forall name | name in verdicts ensures verdicts[name] == Reject {
      FalseRejects(depth, Standard(holds), root, instance[name]);
    }
    assert forall name :: name in verdicts <==> name in instance && name !in schemas;
  }

  lemma PropertiesVerdict(depth: nat, holds: (string, Json, Json) -> bool, root: Json, fields: map<string, Json>,
                          schemas: map<string, Json>, instance: map<string, Json>)
    requires "properties" in fields && fields["properties"] == Obj(schemas)
    ensures Keyword(depth, Standard(holds), root, fields, "properties", Obj(instance)) == Accept <==>
            forall name :: name in instance && name in schemas ==>
              Eval(depth, Standard(holds), root, schemas[name], instance[name]) == Accept
  {
    PropertiesKeyword();
    var verdicts := PropertyVerdicts(depth, Standard(holds), root, schemas, instance);
    AllAccept(verdicts);
    assert forall name :: name in verdicts <==> name in instance && name in schemas;
  }

  lemma EachSchemaAccepts(depth: nat, d: Dialect, root: Json, schemas: seq<Json>, instance: Json)
    ensures Combine(EachOf, ListVerdicts(depth, d, root, schemas, instance)) == Accept <==>
            forall i :: 0 <= i < |schemas| ==> Eval(depth, d, root, schemas[i], instance) == Accept
  {
    var verdicts := ListVerdicts(depth, d, root, schemas, instance);
    EachAccepts(verdicts);
    assert forall i :: 0 <= i < |schemas| ==> verdicts[i] == Eval(depth, d, root, schemas[i], instance);
  }

  lemma AllOfIsCombine(depth: nat, holds: (string, Json, Json) -> bool, root: Json, fields: map<string, Json>,
                       schemas: seq<Json>, instance: Json)
    requires "allOf" in fields && fields["allOf"] == Arr(schemas)
    ensures Keyword(depth, Standard(holds), root, fields, "allOf", instance) ==
            Combine(EachOf, ListVerdicts(depth, Standard(holds), root, schemas, instance))
  {
    CollectionKeywords();
  }

  lemma AllOfVerdict(depth: nat, holds: (string, Json, Json) -> bool, root: Json, fields: map<string, Json>,
                     schemas: seq<Json>, instance: Json)
    requires "allOf" in fields && fields["allOf"] == Arr(schemas)
    ensures Keyword(depth, Standard(holds), root, fields, "allOf", instance) == Accept <==>
            forall i :: 0 <= i < |schemas| ==> Eval(depth, Standard(holds), root, schemas[i], instance) == Accept
  {
    AllOfIsCombine(depth, holds, root, fields, schemas, instance);
    EachSchemaAccepts(depth, Standard(holds), root, schemas, instance);
  }

  ghost predicate RulesAccept(depth: nat, holds: (string, Json, Json) -> bool, root: Json, rules: seq<Shape>,
                              instance: Json)
  {
    forall i :: 0 <= i < |rules| ==> Eval(depth, Standard(holds), root, Built(rules[i]), instance) == Accept
  }

  lemma RulesVerdict(depth: nat, holds: (string, Json, Json) -> bool, root: Json, fields: map<string, Json>,
                     rules: seq<Shape>, instance: Json)
    requires "allOf" in fields && fields["allOf"] == Arr(BuiltAll(rules))
    ensures Keyword(depth, Standard(holds), root, fields, "allOf", instance) == Accept <==>
            RulesAccept(depth, holds, root, rules, instance)
  {
    var schemas := BuiltAll(rules);
    AllOfVerdict(depth, holds, root, fields, schemas, instance);
    forall i | 0 <= i < |rules|
      ensures Eval(depth, Standard(holds), root, Built(rules[i]), instance) ==
              Eval(depth, Standard(holds), root, schemas[i], instance)
    {
    }
  }

  lemma ObjectAccepts(depth: nat, d: Dialect, root: Json, fields: map<string, Json>, instance: Json)
    ensures Eval(depth + 1, d, root, Obj(fields), instance) == Accept <==>
            forall key :: key in fields ==> Keyword(depth, d, root, fields, key, instance) == Accept
  {
    var verdicts := KeywordVerdicts(depth, d, root, fields, instance);
    AllAccept(verdicts);
    assert forall key :: key in verdicts <==> key in fields;
    assert forall key :: key in fields ==> verdicts[key] == Keyword(depth, d, root, fields, key, instance);
  }

  /** The map has the four keywords of a closed object, and one more if there are rules. */
  ghost predicate ClosedKeys(fields: map<string, Json>, schemas: map<string, Json>, required: seq<string>,
                             rules: seq<Shape>)
  {
    && "type" in fields && fields["type"] == Str("object")
    && "additionalProperties" in fields && fields["additionalProperties"] == Bool(false)
    && "required" in fields && fields["required"] == Texts(required)
    && "properties" in fields && fields["properties"] == Obj(schemas)
    && (rules != [] ==> "allOf" in fields && fields["allOf"] == Arr(BuiltAll(rules)))
    && forall key :: key in fields ==>
         || key == "type" || key == "additionalProperties" || key == "required" || key == "properties"
         || (rules != [] && key == "allOf")
  }

  lemma ClosedHasKeys(properties: seq<Property>, required: seq<string>, rules: seq<Shape>)
    ensures var schema := Built(Closed(properties, required, rules));
            schema.Obj? && ClosedKeys(schema.fields, PropertySchemas(properties), required, rules)
  {
    ClosedMap(properties, required, rules);
    KeywordsDiffer();
  }

  lemma KeysAccept(depth: nat, holds: (string, Json, Json) -> bool, root: Json, fields: map<string, Json>,
                   schemas: map<string, Json>, required: seq<string>, rules: seq<Shape>, instance: map<string, Json>)
    requires depth > 0 && ClosedKeys(fields, schemas, required, rules)
    ensures (forall key :: key in fields ==> Keyword(depth, Standard(holds), root, fields, key, Obj(instance)) == Accept)
            <==>
            && holds("type", Str("object"), Obj(instance)) && holds("required", Texts(required), Obj(instance))
            && (forall name :: name in instance ==>
                  name in schemas && Eval(depth, Standard(holds), root, schemas[name], instance[name]) == Accept)
            && RulesAccept(depth, holds, root, rules, Obj(instance))
  {
    DataStarts();
    DataVerdicts(depth, holds, root, fields, "type", Obj(instance));
    DataVerdicts(depth, holds, root, fields, "required", Obj(instance));
    AdditionalVerdict(depth, holds, root, fields, schemas, instance);
    PropertiesVerdict(depth, holds, root, fields, schemas, instance);
    if rules != [] {
      RulesVerdict(depth, holds, root, fields, rules, Obj(instance));
    }
  }

  /** At every depth past the first two the schema accepts exactly the conforming objects. */
  lemma ClosedEvalIff(depth: nat, holds: (string, Json, Json) -> bool, root: Json, properties: seq<Property>,
                      required: seq<string>, rules: seq<Shape>, instance: map<string, Json>)
    requires depth > 0
    ensures Eval(depth + 1, Standard(holds), root, Built(Closed(properties, required, rules)), Obj(instance)) == Accept
            <==> Conforms(depth, holds, root, properties, required, rules, instance)
  {
    ClosedHasKeys(properties, required, rules);
    var fields := Built(Closed(properties, required, rules)).fields;
    ObjectAccepts(depth, Standard(holds), root, fields, Obj(instance));
    KeysAccept(depth, holds, root, fields, PropertySchemas(properties), required, rules, instance);
  }

  /******* Without a depth *******/

  lemma Deeper(m: nat, n: nat, holds: (string, Json, Json) -> bool, root: Json, schema: Json, instance: Json)
    requires m <= n && Eval(m, Standard(holds), root, schema, instance) == Accept
    ensures Eval(n, Standard(holds), root, schema, instance) == Accept
  {
    StableUpTo(m, n, Standard(holds), root, schema, instance);
  }

  /** One depth at which all fields are accepted. */
  lemma {:induction false} FieldsDepth(holds: (string, Json, Json) -> bool, root: Json, schemas: map<string, Json>,
                                       instance: map<string, Json>, names: set<string>) returns (depth: nat)
    requires forall name :: name in names ==>
               name in instance && name in schemas && Accepted(holds, root, schemas[name], instance[name])
    ensures forall name :: name in names ==>
              Eval(depth, Standard(holds), root, schemas[name], instance[name]) == Accept
    decreases names
  {
    if names == {} {
      depth := 0;
    } else {
      var name :| name in names;
      var m: nat :| Eval(m, Standard(holds), root, schemas[name], instance[name]) == Accept;
      var n := FieldsDepth(holds, root, schemas, instance, names - {name});
      depth := if m < n then n else m;
      Deeper(m, depth, holds, root, schemas[name], instance[name]);
      forall other | other in names - {name}
        ensures Eval(depth, Standard(holds), root, schemas[other], instance[other]) == Accept
      {
        Deeper(n, depth, holds, root, schemas[other], instance[other]);
      }
    }
  }

  lemma {:induction false} RulesDepth(holds: (string, Json, Json) -> bool, root: Json, rules: seq<Shape>, instance: Json)
    returns (depth: nat)
    requires forall i :: 0 <= i < |rules| ==> Accepted(holds, root, Built(rules[i]), instance)
    ensures forall i :: 0 <= i < |rules| ==> Eval(depth, Standard(holds), root, Built(rules[i]), instance) == Accept
  {
    if rules == [] {
      depth := 0;
    } else {
      var k := |rules| - 1;
      var m: nat :| Eval(m, Standard(holds), root, Built(rules[k]), instance) == Accept;
      var n := RulesDepth(holds, root, rules[..k], instance);
      depth := if m < n then n else m;
      Deeper(m, depth, holds, root, Built(rules[k]), instance);
      forall i | 0 <= i < k ensures Eval(depth, Standard(holds), root, Built(rules[i]), instance) == Accept {
        assert rules[..k][i] == rules[i];
        Deeper(n, depth, holds, root, Built(rules[i]), instance);
      }
    }
  }

  /** What a closed object schema asks of an object, told from the acceptance of its parts. */
  ghost predicate Meets(holds: (string, Json, Json) -> bool, root: Json, properties: seq<Property>, required: seq<string>,
                        rules: seq<Shape>, instance: map<string, Json>)
  {
    && holds("type", Str("object"), Obj(instance)) && holds("required", Texts(required), Obj(instance))
    && (forall name :: name in instance ==>
          name in PropertySchemas(properties) && Accepted(holds, root, PropertySchemas(properties)[name], instance[name]))
    && forall i :: 0 <= i < |rules| ==> Accepted(holds, root, Built(rules[i]), Obj(instance))
  }

  lemma ConformsMeets(depth: nat, holds: (string, Json, Json) -> bool, root: Json, properties: seq<Property>,
                      required: seq<string>, rules: seq<Shape>, instance: map<string, Json>)
    requires Conforms(depth, holds, root, properties, required, rules, instance)
    ensures Meets(holds, root, properties, required, rules, instance)
  {
  }

  lemma MeetsConforms(holds: (string, Json, Json) -> bool, root: Json, properties: seq<Property>, required: seq<string>,
                      rules: seq<Shape>, instance: map<string, Json>) returns (depth: nat)
    requires Meets(holds, root, properties, required, rules, instance)
    ensures depth > 0 && Conforms(depth, holds, root, properties, required, rules, instance)
  {
    var schemas := PropertySchemas(properties);
    var m := FieldsDepth(holds, root, schemas, instance, instance.Keys);
    var n := RulesDepth(holds, root, rules, Obj(instance));
    depth := m + n + 1;
    forall name | name in instance
      ensures Eval(depth, Standard(holds), root, schemas[name], instance[name]) == Accept
    {
      Deeper(m, depth, holds, root, schemas[name], instance[name]);
    }
    forall i | 0 <= i < |rules| ensures Eval(depth, Standard(holds), root, Built(rules[i]), Obj(instance)) == Accept {
      Deeper(n, depth, holds, root, Built(rules[i]), Obj(instance));
    }
  }

  /**
   A built object schema accepts an object exactly when it has the type and the required fields, every field is a
   listed one that its own schema accepts, and every rule accepts the object.
   */
  lemma ClosedAcceptsIff(holds: (string, Json, Json) -> bool, root: Json, properties: seq<Property>, required: seq<string>,
                         rules: seq<Shape>, instance: map<string, Json>)
    ensures Accepted(holds, root, Built(Closed(properties, required, rules)), Obj(instance)) <==>
            Meets(holds, root, properties, required, rules, instance)
  {
    var schema := Built(Closed(properties, required, rules));
    if Accepted(holds, root, schema, Obj(instance)) {
      var n: nat :| Eval(n, Standard(holds), root, schema, Obj(instance)) == Accept;
      AcceptedMeets(n, holds, root, properties, required, rules, instance);
    }
    if Meets(holds, root, properties, required, rules, instance) {
      var depth := MeetsConforms(holds, root, properties, required, rules, instance);
      ClosedEvalIff(depth, holds, root, properties, required, rules, instance);
    }
  }

  lemma AcceptedMeets(depth: nat, holds: (string, Json, Json) -> bool, root: Json, properties: seq<Property>,
                      required: seq<string>, rules: seq<Shape>, instance: map<string, Json>)
    requires Eval(depth, Standard(holds), root, Built(Closed(properties, required, rules)), Obj(instance)) == Accept
    ensures Meets(holds, root, properties, required, rules, instance)
  {
    Deeper(depth, depth + 2, holds, root, Built(Closed(properties, required, rules)), Obj(instance));
    ClosedEvalIff(depth + 1, holds, root, properties, required, rules, instance);
    ConformsMeets(depth + 1, holds, root, properties, required, rules, instance);
  }

  /** Property i is the last of its name, and has this schema. */
  ghost predicate LastNamed(properties: seq<Property>, name: string, schema: Json, i: nat)
    requires i < |properties|
  {
    && properties[i].name == name && Built(properties[i].shape) == schema
    && forall j :: i < j < |properties| ==> properties[j].name != name
  }

  lemma SchemasSnoc(properties: seq<Property>)
    requires properties != []
    ensures var n := |properties| - 1;
            PropertySchemas(properties) ==
            PropertySchemas(properties[..n])[properties[n].name := Built(properties[n].shape)]
  {
    var n := |properties| - 1;
    assert BuiltProperties(properties)[..n] == BuiltProperties(properties[..n]);
  }

  /** A listed name has the schema of its property; of two properties of one name the later counts. */
  lemma {:induction false} PropertySchemaIff(properties: seq<Property>, name: string, schema: Json)
    ensures name in PropertySchemas(properties) && PropertySchemas(properties)[name] == schema <==>
            exists i: nat :: i < |properties| && LastNamed(properties, name, schema, i)
  {
    if properties != [] {
      var n := |properties| - 1;
      SchemasSnoc(properties);
      PropertySchemaIff(properties[..n], name, schema);
      if properties[n].name != name {
        forall i: nat | i < n
          ensures LastNamed(properties, name, schema, i) <==> LastNamed(properties[..n], name, schema, i)
        {
          SameBefore(properties, name, schema, i);
        }
      } else if Built(properties[n].shape) == schema {
        assert LastNamed(properties, name, schema, n);
      }
    }
  }

  lemma SameBefore(properties: seq<Property>, name: string, schema: Json, i: nat)
    requires i < |properties| - 1 && properties[|properties| - 1].name != name
    ensures LastNamed(properties, name, schema, i) <==> LastNamed(properties[..|properties| - 1], name, schema, i)
  {
    var n := |properties| - 1;
    assert forall j :: i < j < n ==> properties[..n][j] == properties[j];
  }
}
