/**
 What the embedded schema accepts: an evaluator for JSON Schema with references (section 8.2.3.1
 of JSON Schema Core, draft 2020-12), and the proof that moving a schema keeps its meaning.

 Keywords that apply no subschema (type, const, enum, required, pattern, ...) are one arbitrary
 function of keyword, keyword value and instance, so the theorems hold for any such vocabulary.
 */
module SchemaMeaning {
  import opened Wrappers
  import opened JsonValues
  import opened Splitting
  import opened PointerDecoding
  import opened SchemaEmbedding

  /** Stuck: a reference leads nowhere, a subschema is malformed, or the depth bound is reached. */
  datatype Verdict = Accept | Reject | Stuck

  datatype Mode = EachOf | SomeOf | ExactlyOne

  /** The part a keyword plays in a schema object. */
  datatype Kind =
    | Identifier | Annotation | Definitions | Branch
    | Reference | Negation | Condition | List(mode: Mode) | Properties | Additional | Items
    | Data

  function KindOf(key: string): Kind {
    if Dropped(key) then Identifier
    else if key == "title" || key == "description" || key == "$comment" then Annotation
    else if key == "$defs" then Definitions
    else if key == "then" || key == "else" then Branch
    else if key == "$ref" then Reference
    else if key == "not" then Negation
    else if key == "if" then Condition
    else if key == "allOf" then List(EachOf)
    else if key == "anyOf" then List(SomeOf)
    else if key == "oneOf" then List(ExactlyOne)
    else if key == "properties" then Properties
    else if key == "additionalProperties" then Additional
    else if key == "items" then Items
    else Data
  }

  /** How keywords are understood, and what the data keywords assert of an instance. */
  datatype Dialect = Dialect(kindOf: string -> Kind, holds: (string, Json, Json) -> bool)

  /** All that the theorems need of a dialect. */
  ghost predicate Proper(d: Dialect) {
    && (forall key :: Dropped(key) ==> d.kindOf(key) == Identifier)
    && d.kindOf("then") == d.kindOf("else") == Branch
    && d.kindOf("properties") == Properties
  }

  lemma StandardDialectIsProper(holds: (string, Json, Json) -> bool)
    ensures Proper(Dialect(KindOf, holds))
  {
    assert "properties"[0] == 'p' && "then"[0] == 't' && "else"[0] == 'e';
  }

  /** Keywords that only identify, annotate or hold other schemas. */
  predicate Ignored(kind: Kind) {
    kind == Identifier || kind == Annotation || kind == Definitions || kind == Branch
  }

  /** Keywords that apply one schema, or a condition, to the instance itself. */
  predicate InPlace(kind: Kind) {
    kind == Reference || kind == Negation || kind == Condition
  }

  predicate OneSchema(kind: Kind) {
    kind == Negation || kind == Condition || kind == Branch || kind == Additional || kind == Items
  }

  predicate SchemaMap(kind: Kind) {
    kind == Properties || kind == Definitions
  }

  /******* Combining verdicts *******/

  ghost function All(verdicts: map<string, Verdict>): Verdict {
    if exists k :: k in verdicts && verdicts[k] == Stuck then Stuck
    else if exists k :: k in verdicts && verdicts[k] == Reject then Reject
    else Accept
  }

  ghost function Count(verdicts: seq<Verdict>, v: Verdict): nat {
    if verdicts == [] then 0 else (if verdicts[0] == v then 1 else 0) + Count(verdicts[1..], v)
  }

  ghost function Combine(mode: Mode, verdicts: seq<Verdict>): Verdict {
    if Count(verdicts, Stuck) > 0 then Stuck
    else match mode
      case EachOf => if Count(verdicts, Reject) == 0 then Accept else Reject
      case SomeOf => if Count(verdicts, Accept) > 0 then Accept else Reject
      case ExactlyOne => if Count(verdicts, Accept) == 1 then Accept else Reject
  }

  /******* The evaluator, to a given depth *******/

  /** A reference is a pointer into the root schema; anything else is unknown here. */
  ghost function Target(root: Json, reference: Json): Option<Json> {
    if reference.Str? && |reference.s| >= 2 && reference.s[..2] == "#/" then Resolve(root, Tokens(reference.s))
    else if reference == Str("#") then Some(root)
    else None
  }

  ghost function Eval(depth: nat, d: Dialect, root: Json, schema: Json, instance: Json): Verdict
    decreases depth, 0
  {
    if depth == 0 then Stuck
    else
      match schema
      case Bool(b) => if b then Accept else Reject
      case Obj(fields) => All(KeywordVerdicts(depth - 1, d, root, fields, instance))
      case _ => Stuck
  }

  ghost function KeywordVerdicts(depth: nat, d: Dialect, root: Json, fields: map<string, Json>, instance: Json)
    : map<string, Verdict>
    decreases depth, 4
  {
    map key | key in fields :: Keyword(depth, d, root, fields, key, instance)
  }

  ghost function Keyword(depth: nat, d: Dialect, root: Json, fields: map<string, Json>, key: string, instance: Json)
    : Verdict
    requires key in fields
    decreases depth, 3
  {
    var kind := d.kindOf(key);
    if Ignored(kind) then Accept
    else if InPlace(kind) then InPlaceVerdict(depth, d, root, fields, key, instance)
    else if kind == Data then if d.holds(key, fields[key], instance) then Accept else Reject
    else ApplicatorVerdict(depth, d, root, fields, key, instance)
  }

  ghost function InPlaceVerdict(depth: nat, d: Dialect, root: Json, fields: map<string, Json>, key: string, instance: Json)
    : Verdict
    requires key in fields && InPlace(d.kindOf(key))
    decreases depth, 2
  {
    var value := fields[key];
    match d.kindOf(key)
    case Reference =>
      (match Target(root, value)
       case Some(target) => Eval(depth, d, root, target, instance)
       case None => Stuck)
    case Negation =>
      (match Eval(depth, d, root, value, instance)
       case Accept => Reject
       case Reject => Accept
       case Stuck => Stuck)
    case Condition =>
      (match Eval(depth, d, root, value, instance)
       case Accept => BranchVerdict(depth, d, root, fields, "then", instance)
       case Reject => BranchVerdict(depth, d, root, fields, "else", instance)
       case Stuck => Stuck)
  }

  /** A keyword that applies several schemas, or one schema to several values. */
  ghost function ApplicatorVerdict(depth: nat, d: Dialect, root: Json, fields: map<string, Json>, key: string,
                                   instance: Json): Verdict
    requires key in fields
    requires !Ignored(d.kindOf(key)) && !InPlace(d.kindOf(key)) && d.kindOf(key) != Data
    decreases depth, 2
  {
    var value := fields[key];
    match d.kindOf(key)
    case List(mode) =>
      if value.Arr? then Combine(mode, ListVerdicts(depth, d, root, value.items, instance)) else Stuck
    case Properties =>
      if !value.Obj? then Stuck
      else if !instance.Obj? then Accept
      else All(PropertyVerdicts(depth, d, root, value.fields, instance.fields))
    case Additional =>
      if !instance.Obj? then Accept else All(AdditionalVerdicts(depth, d, root, fields, value, instance.fields))
    case Items =>
      if !instance.Arr? then Accept else Combine(EachOf, ItemVerdicts(depth, d, root, value, instance.items))
  }

  ghost function BranchVerdict(depth: nat, d: Dialect, root: Json, fields: map<string, Json>, key: string,
                               instance: Json): Verdict
    decreases depth, 1
  {
    if key in fields then Eval(depth, d, root, fields[key], instance) else Accept
  }

  ghost function ListVerdicts(depth: nat, d: Dialect, root: Json, schemas: seq<Json>, instance: Json): seq<Verdict>
    decreases depth, 1
  {
    seq(|schemas|, i requires 0 <= i < |schemas| => Eval(depth, d, root, schemas[i], instance))
  }

  ghost function ItemVerdicts(depth: nat, d: Dialect, root: Json, schema: Json, items: seq<Json>): seq<Verdict>
    decreases depth, 1
  {
    seq(|items|, i requires 0 <= i < |items| => Eval(depth, d, root, schema, items[i]))
  }

  ghost function PropertyVerdicts(depth: nat, d: Dialect, root: Json, properties: map<string, Json>,
                                  instance: map<string, Json>): map<string, Verdict>
    decreases depth, 1
  {
    map name | name in properties && name in instance :: Eval(depth, d, root, properties[name], instance[name])
  }

  ghost function AdditionalVerdicts(depth: nat, d: Dialect, root: Json, fields: map<string, Json>, schema: Json,
                                    instance: map<string, Json>): map<string, Verdict>
    decreases depth, 1
  {
    map name | name in instance && !Listed(fields, name) :: Eval(depth, d, root, schema, instance[name])
  }

  /** The name is one of the sibling "properties". */
  predicate Listed(fields: map<string, Json>, name: string) {
    "properties" in fields && fields["properties"].Obj? && name in fields["properties"].fields
  }

  /******* Schemas that can be moved *******/

  /** A decoded path that leads from schema to subschema at every step. */
  predicate SchemaPath(d: Dialect, tokens: seq<string>) {
    tokens == []
    || (OneSchema(d.kindOf(tokens[0])) && SchemaPath(d, tokens[1..]))
    || ((d.kindOf(tokens[0]).List? || SchemaMap(d.kindOf(tokens[0]))) && |tokens| >= 2 && SchemaPath(d, tokens[2..]))
  }

  /** Nothing the transformation drops or rewrites stands anywhere but in a reference to a subschema. */
  predicate Movable(d: Dialect, v: Json)
    decreases v, 0
  {
    match v
    case Bool(_) => true
    case Obj(fields) => forall key :: key in fields ==> MovableKeyword(d, key, fields[key])
    case _ => false
  }

  predicate MovableKeyword(d: Dialect, key: string, value: Json)
    decreases value, 1
  {
    match d.kindOf(key)
    case Identifier => false
    case Annotation => true
    case Reference => LocalReference(value) && SchemaPath(d, Tokens(value.s))
    case Negation | Condition | Branch | Additional | Items => Movable(d, value)
    case List(_) => value.Arr? && forall i :: 0 <= i < |value.items| ==> Movable(d, value.items[i])
    case Properties | Definitions =>
      value.Obj? && forall name :: name in value.fields ==> !Dropped(name) && Movable(d, value.fields[name])
    case Data => InertItem(value)
  }

  /** The root may carry the identifiers that the transformation drops. */
  function WithoutIdentifiers(schema: Json): Json {
    if schema.Obj? then Obj(map key | key in schema.fields && !Dropped(key) :: schema.fields[key]) else schema
  }

  predicate MovableRoot(d: Dialect, schema: Json) {
    schema.Obj? && Movable(d, WithoutIdentifiers(schema))
  }

  /******* References of a movable schema *******/

  /** From a movable schema, schema paths lead to movable schemas and never through a dropped key. */
  lemma {:induction false} SchemaPathStaysMovable(d: Dialect, v: Json, tokens: seq<string>)
    requires Proper(d) && Movable(d, v) && SchemaPath(d, tokens) && Resolve(v, tokens).Some?
    ensures Movable(d, Resolve(v, tokens).value) && !ThroughDropped(v, tokens)
    decreases |tokens|
  {
    if tokens != [] {
      var key := tokens[0];
      var value := v.fields[key];
      assert MovableKeyword(d, key, value);
      if OneSchema(d.kindOf(key)) {
        SchemaPathStaysMovable(d, value, tokens[1..]);
      } else {
        assert tokens[1..] != [] && tokens[1..][1..] == tokens[2..];
        var next := if value.Obj? then value.fields[tokens[1]] else Element(value.items, tokens[1]).value;
        SchemaPathStaysMovable(d, next, tokens[2..]);
      }
    }
  }

  lemma RootPath(d: Dialect, schema: Json, tokens: seq<string>)
    requires Proper(d) && MovableRoot(d, schema) && tokens != [] && SchemaPath(d, tokens)
    ensures Resolve(schema, tokens) == Resolve(WithoutIdentifiers(schema), tokens)
    ensures ThroughDropped(schema, tokens) == ThroughDropped(WithoutIdentifiers(schema), tokens)
  {
  }

  /** The composite schema resolves a rewritten reference to the rewritten target. */
  lemma TargetMoves(d: Dialect, outer: map<string, Json>, definitions: map<string, Json>, schema: Json, reference: Json)
    requires Proper(d) && MovableRoot(d, schema) && LocalReference(reference) && SchemaPath(d, Tokens(reference.s))
    ensures var target := Target(schema, reference);
            && (target.Some? ==> Movable(d, target.value))
            && Target(Embed(outer, definitions, schema), RewriteItem(reference)) ==
               if target.Some? then Some(Rewrite(target.value)) else None
  {
    var tokens := Tokens(reference.s);
    RootPath(d, schema, tokens);
    if Resolve(schema, tokens).Some? {
      SchemaPathStaysMovable(d, WithoutIdentifiers(schema), tokens);
    }
    EmbeddedReference(outer, definitions, schema, reference);
    PointerPrefix(reference);
  }

  lemma PointerPrefix(reference: Json)
    requires LocalReference(reference)
    ensures reference.s[..2] == "#/" && RewriteItem(reference).s[..2] == "#/"
  {
    assert reference.s[..2] == LOCAL[..2];
    assert RewriteItem(reference).s[..2] == NESTED[..2];
  }

  /******* Meaning is preserved *******/

  /** Every movable schema means the same in its new place, to this depth. */
  ghost predicate Moves(depth: nat, d: Dialect, root: Json, schema: Json) {
    forall sub, instance :: Movable(d, sub) ==>
      Eval(depth, d, root, Rewrite(sub), instance) == Eval(depth, d, schema, sub, instance)
  }

  lemma SubschemaFields(d: Dialect, fields: map<string, Json>, key: string)
    requires Proper(d) && Movable(d, Obj(fields)) && key in fields
    ensures key in Rewrite(Obj(fields)).fields && Rewrite(Obj(fields)).fields[key] == RewriteItem(fields[key])
    ensures OneSchema(d.kindOf(key)) ==> Movable(d, fields[key]) && RewriteItem(fields[key]) == Rewrite(fields[key])
  {
    assert MovableKeyword(d, key, fields[key]);
  }

  lemma ListMoves(depth: nat, d: Dialect, root: Json, schema: Json, schemas: seq<Json>, instance: Json)
    requires Moves(depth, d, root, schema)
    requires forall i :: 0 <= i < |schemas| ==> Movable(d, schemas[i])
    ensures ListVerdicts(depth, d, root, Rewrite(Arr(schemas)).items, instance) ==
            ListVerdicts(depth, d, schema, schemas, instance)
  {
  }

  lemma PropertiesMove(depth: nat, d: Dialect, root: Json, schema: Json, properties: map<string, Json>,
                       instance: map<string, Json>)
    requires Moves(depth, d, root, schema)
    requires forall name :: name in properties ==> !Dropped(name) && Movable(d, properties[name])
    ensures PropertyVerdicts(depth, d, root, Rewrite(Obj(properties)).fields, instance) ==
            PropertyVerdicts(depth, d, schema, properties, instance)
  {
  }

  lemma ListedMoves(d: Dialect, fields: map<string, Json>, name: string)
    requires Proper(d) && Movable(d, Obj(fields))
    ensures Listed(Rewrite(Obj(fields)).fields, name) <==> Listed(fields, name)
  {
    if "properties" in fields {
      SubschemaFields(d, fields, "properties");
      assert MovableKeyword(d, "properties", fields["properties"]);
    }
  }

  lemma AdditionalMove(depth: nat, d: Dialect, root: Json, schema: Json, fields: map<string, Json>, sub: Json,
                       instance: map<string, Json>)
    requires Moves(depth, d, root, schema)
    requires Proper(d) && Movable(d, Obj(fields)) && Movable(d, sub)
    ensures AdditionalVerdicts(depth, d, root, Rewrite(Obj(fields)).fields, Rewrite(sub), instance) ==
            AdditionalVerdicts(depth, d, schema, fields, sub, instance)
  {
    forall name ensures Listed(Rewrite(Obj(fields)).fields, name) <==> Listed(fields, name) {
      ListedMoves(d, fields, name);
    }
  }

  lemma ItemsMove(depth: nat, d: Dialect, root: Json, schema: Json, sub: Json, items: seq<Json>)
    requires Moves(depth, d, root, schema) && Movable(d, sub)
    ensures ItemVerdicts(depth, d, root, Rewrite(sub), items) == ItemVerdicts(depth, d, schema, sub, items)
  {
  }

  lemma BranchMoves(depth: nat, d: Dialect, root: Json, schema: Json, fields: map<string, Json>, key: string,
                    instance: Json)
    requires Moves(depth, d, root, schema)
    requires Proper(d) && Movable(d, Obj(fields)) && d.kindOf(key) == Branch
    ensures BranchVerdict(depth, d, root, Rewrite(Obj(fields)).fields, key, instance) ==
            BranchVerdict(depth, d, schema, fields, key, instance)
  {
    if key in fields {
      SubschemaFields(d, fields, key);
    }
  }

  lemma ReferenceMoves(depth: nat, d: Dialect, outer: map<string, Json>, definitions: map<string, Json>,
                       schema: Json, value: Json, instance: Json)
    requires Proper(d) && MovableRoot(d, schema) && LocalReference(value) && SchemaPath(d, Tokens(value.s))
    requires Moves(depth, d, Embed(outer, definitions, schema), schema)
    ensures var before, after := Target(schema, value), Target(Embed(outer, definitions, schema), RewriteItem(value));
            && before.Some? == after.Some?
            && (before.Some? ==> Eval(depth, d, Embed(outer, definitions, schema), after.value, instance) ==
                                 Eval(depth, d, schema, before.value, instance))
  {
    TargetMoves(d, outer, definitions, schema, value);
  }

  lemma ArrayKeywordMoves(depth: nat, d: Dialect, root: Json, schema: Json, fields: map<string, Json>, key: string,
                          instance: Json)
    requires Proper(d) && Movable(d, Obj(fields)) && key in fields && Moves(depth, d, root, schema)
    requires d.kindOf(key).List? || d.kindOf(key).Items?
    ensures key in Rewrite(Obj(fields)).fields
    ensures ApplicatorVerdict(depth, d, root, Rewrite(Obj(fields)).fields, key, instance) ==
            ApplicatorVerdict(depth, d, schema, fields, key, instance)
  {
    var value := fields[key];
    SubschemaFields(d, fields, key);
    assert MovableKeyword(d, key, value);
    if d.kindOf(key).List? {
      ListMoves(depth, d, root, schema, value.items, instance);
    } else if instance.Arr? {
      ItemsMove(depth, d, root, schema, value, instance.items);
    }
  }

  lemma ObjectKeywordMoves(depth: nat, d: Dialect, root: Json, schema: Json, fields: map<string, Json>, key: string,
                           instance: Json)
    requires Proper(d) && Movable(d, Obj(fields)) && key in fields && Moves(depth, d, root, schema)
    requires d.kindOf(key).Properties? || d.kindOf(key).Additional?
    ensures key in Rewrite(Obj(fields)).fields
    ensures ApplicatorVerdict(depth, d, root, Rewrite(Obj(fields)).fields, key, instance) ==
            ApplicatorVerdict(depth, d, schema, fields, key, instance)
  {
    var value := fields[key];
    SubschemaFields(d, fields, key);
    assert MovableKeyword(d, key, value);
    if instance.Obj? {
      if d.kindOf(key).Properties? {
        PropertiesMove(depth, d, root, schema, value.fields, instance.fields);
      } else {
        AdditionalMove(depth, d, root, schema, fields, value, instance.fields);
      }
    }
  }

  lemma ReferenceKeywordMoves(depth: nat, d: Dialect, outer: map<string, Json>, definitions: map<string, Json>,
                              schema: Json, fields: map<string, Json>, key: string, instance: Json)
    requires Proper(d) && MovableRoot(d, schema) && Movable(d, Obj(fields)) && key in fields && d.kindOf(key).Reference?
    requires Moves(depth, d, Embed(outer, definitions, schema), schema)
    ensures key in Rewrite(Obj(fields)).fields
    ensures InPlaceVerdict(depth, d, Embed(outer, definitions, schema), Rewrite(Obj(fields)).fields, key, instance) ==
            InPlaceVerdict(depth, d, schema, fields, key, instance)
  {
    SubschemaFields(d, fields, key);
    assert MovableKeyword(d, key, fields[key]);
    ReferenceMoves(depth, d, outer, definitions, schema, fields[key], instance);
  }

  lemma ConditionMoves(depth: nat, d: Dialect, root: Json, schema: Json, fields: map<string, Json>, key: string,
                       instance: Json)
    requires Proper(d) && Movable(d, Obj(fields)) && key in fields && Moves(depth, d, root, schema)
    requires d.kindOf(key).Condition? || d.kindOf(key).Negation?
    ensures key in Rewrite(Obj(fields)).fields
    ensures InPlaceVerdict(depth, d, root, Rewrite(Obj(fields)).fields, key, instance) ==
            InPlaceVerdict(depth, d, schema, fields, key, instance)
  {
    SubschemaFields(d, fields, key);
    if d.kindOf(key).Condition? {
      BranchMoves(depth, d, root, schema, fields, "then", instance);
      BranchMoves(depth, d, root, schema, fields, "else", instance);
    }
  }

  lemma DataMoves(d: Dialect, fields: map<string, Json>, key: string)
    requires Proper(d) && Movable(d, Obj(fields)) && key in fields && d.kindOf(key) == Data
    ensures key in Rewrite(Obj(fields)).fields && Rewrite(Obj(fields)).fields[key] == fields[key]
  {
    SubschemaFields(d, fields, key);
    assert MovableKeyword(d, key, fields[key]);
    RewriteItemUnchangedIff(fields[key]);
  }

  lemma InPlaceMoves(depth: nat, d: Dialect, outer: map<string, Json>, definitions: map<string, Json>,
                     schema: Json, fields: map<string, Json>, key: string, instance: Json)
    requires Proper(d) && MovableRoot(d, schema) && Movable(d, Obj(fields)) && key in fields && InPlace(d.kindOf(key))
    requires Moves(depth, d, Embed(outer, definitions, schema), schema)
    ensures key in Rewrite(Obj(fields)).fields
    ensures InPlaceVerdict(depth, d, Embed(outer, definitions, schema), Rewrite(Obj(fields)).fields, key, instance) ==
            InPlaceVerdict(depth, d, schema, fields, key, instance)
  {
    if d.kindOf(key).Reference? {
      ReferenceKeywordMoves(depth, d, outer, definitions, schema, fields, key, instance);
    } else {
      ConditionMoves(depth, d, Embed(outer, definitions, schema), schema, fields, key, instance);
    }
  }

  lemma ApplicatorMoves(depth: nat, d: Dialect, root: Json, schema: Json, fields: map<string, Json>, key: string,
                        instance: Json)
    requires Proper(d) && Movable(d, Obj(fields)) && key in fields && Moves(depth, d, root, schema)
    requires !Ignored(d.kindOf(key)) && !InPlace(d.kindOf(key)) && d.kindOf(key) != Data
    ensures key in Rewrite(Obj(fields)).fields
    ensures ApplicatorVerdict(depth, d, root, Rewrite(Obj(fields)).fields, key, instance) ==
            ApplicatorVerdict(depth, d, schema, fields, key, instance)
  {
    if d.kindOf(key).List? || d.kindOf(key).Items? {
      ArrayKeywordMoves(depth, d, root, schema, fields, key, instance);
    } else {
      ObjectKeywordMoves(depth, d, root, schema, fields, key, instance);
    }
  }

  lemma KeywordMoves(depth: nat, d: Dialect, outer: map<string, Json>, definitions: map<string, Json>,
                     schema: Json, fields: map<string, Json>, key: string, instance: Json)
    requires Proper(d) && MovableRoot(d, schema) && Movable(d, Obj(fields)) && key in fields
    requires Moves(depth, d, Embed(outer, definitions, schema), schema)
    ensures key in Rewrite(Obj(fields)).fields
    ensures Keyword(depth, d, Embed(outer, definitions, schema), Rewrite(Obj(fields)).fields, key, instance) ==
            Keyword(depth, d, schema, fields, key, instance)
  {
    var kind := d.kindOf(key);
    if Ignored(kind) {
      SubschemaFields(d, fields, key);
    } else if InPlace(kind) {
      InPlaceMoves(depth, d, outer, definitions, schema, fields, key, instance);
    } else if kind == Data {
      DataMoves(d, fields, key);
    } else {
      ApplicatorMoves(depth, d, Embed(outer, definitions, schema), schema, fields, key, instance);
    }
  }

  lemma ObjectMoves(depth: nat, d: Dialect, outer: map<string, Json>, definitions: map<string, Json>,
                    schema: Json, fields: map<string, Json>, instance: Json)
    requires Proper(d) && MovableRoot(d, schema) && Movable(d, Obj(fields))
    requires Moves(depth, d, Embed(outer, definitions, schema), schema)
    ensures KeywordVerdicts(depth, d, Embed(outer, definitions, schema), Rewrite(Obj(fields)).fields, instance) ==
            KeywordVerdicts(depth, d, schema, fields, instance)
  {
    var root, moved := Embed(outer, definitions, schema), Rewrite(Obj(fields)).fields;
    forall key | key in fields
      ensures key in moved
      ensures Keyword(depth, d, root, moved, key, instance) == Keyword(depth, d, schema, fields, key, instance)
    {
      KeywordMoves(depth, d, outer, definitions, schema, fields, key, instance);
    }
  }

  lemma SubschemaMoves(depth: nat, d: Dialect, outer: map<string, Json>, definitions: map<string, Json>,
                       schema: Json, sub: Json, instance: Json)
    requires Proper(d) && MovableRoot(d, schema) && Movable(d, sub)
    requires Moves(depth, d, Embed(outer, definitions, schema), schema)
    ensures Eval(depth + 1, d, Embed(outer, definitions, schema), Rewrite(sub), instance) ==
            Eval(depth + 1, d, schema, sub, instance)
  {
    if sub.Obj? {
      ObjectMoves(depth, d, outer, definitions, schema, sub.fields, instance);
    }
  }

  /** Embedding preserves the meaning of every movable subschema, at every depth and for every vocabulary. */
  lemma {:induction false} EmbeddingPreservesMeaning(depth: nat, d: Dialect, outer: map<string, Json>,
                                                     definitions: map<string, Json>, schema: Json)
    requires Proper(d) && MovableRoot(d, schema)
    ensures Moves(depth, d, Embed(outer, definitions, schema), schema)
  {
    if depth > 0 {
      EmbeddingPreservesMeaning(depth - 1, d, outer, definitions, schema);
      forall sub, instance | Movable(d, sub)
        ensures Eval(depth, d, Embed(outer, definitions, schema), Rewrite(sub), instance) ==
                Eval(depth, d, schema, sub, instance)
      {
        SubschemaMoves(depth - 1, d, outer, definitions, schema, sub, instance);
      }
    }
  }

  lemma ObjectVerdict(depth: nat, d: Dialect, root: Json, fields: map<string, Json>, instance: Json)
    ensures Eval(depth + 1, d, root, Obj(fields), instance) == All(KeywordVerdicts(depth, d, root, fields, instance))
  {
  }

  /** Identifiers at the root take no part in evaluation. */
  lemma IdentifiersIgnored(depth: nat, d: Dialect, root: Json, schema: Json, instance: Json)
    requires Proper(d) && schema.Obj?
    ensures Eval(depth, d, root, schema, instance) == Eval(depth, d, root, WithoutIdentifiers(schema), instance)
  {
    if depth > 0 {
      RootKeeps(d, schema);
      ObjectsAgree(depth - 1, d, root, schema.fields, WithoutIdentifiers(schema).fields, instance);
    }
  }

  lemma ObjectsAgree(depth: nat, d: Dialect, root: Json, fields: map<string, Json>, kept: map<string, Json>,
                     instance: Json)
    requires Proper(d) && Keeps(d, fields, kept)
    ensures Eval(depth + 1, d, root, Obj(fields), instance) == Eval(depth + 1, d, root, Obj(kept), instance)
  {
    ObjectVerdict(depth, d, root, fields, instance);
    ObjectVerdict(depth, d, root, kept, instance);
    KeptVerdicts(depth, d, root, fields, kept, instance);
  }

  lemma KeptVerdicts(depth: nat, d: Dialect, root: Json, fields: map<string, Json>, kept: map<string, Json>,
                     instance: Json)
    requires Proper(d) && Keeps(d, fields, kept)
    ensures All(KeywordVerdicts(depth, d, root, fields, instance)) == All(KeywordVerdicts(depth, d, root, kept, instance))
  {
    var before, after := KeywordVerdicts(depth, d, root, fields, instance), KeywordVerdicts(depth, d, root, kept, instance);
    forall key | key in after ensures key in before && before[key] == after[key] {
      KeptKeyword(depth, d, root, fields, kept, key, instance);
    }
    forall key | key in before && key !in after ensures before[key] == Accept {
      IdentifierAccepted(depth, d, root, fields, key, instance);
    }
    AllIgnoresAccepted(before, after);
  }

  lemma IdentifierAccepted(depth: nat, d: Dialect, root: Json, fields: map<string, Json>, key: string, instance: Json)
    requires key in fields && d.kindOf(key) == Identifier
    ensures Keyword(depth, d, root, fields, key, instance) == Accept
  {
  }

  /** kept is fields without some identifiers. */
  ghost predicate Keeps(d: Dialect, fields: map<string, Json>, kept: map<string, Json>) {
    forall name :: if name in fields then (name in kept && kept[name] == fields[name]) || (name !in kept && d.kindOf(name) == Identifier)
                   else name !in kept
  }

  lemma RootKeeps(d: Dialect, schema: Json)
    requires Proper(d) && schema.Obj?
    ensures Keeps(d, schema.fields, WithoutIdentifiers(schema).fields)
  {
  }

  lemma SameCondition(depth: nat, d: Dialect, root: Json, fields: map<string, Json>, kept: map<string, Json>,
                      key: string, instance: Json)
    requires key in fields && key in kept && fields[key] == kept[key] && d.kindOf(key).Condition?
    requires BranchVerdict(depth, d, root, fields, "then", instance) == BranchVerdict(depth, d, root, kept, "then", instance)
    requires BranchVerdict(depth, d, root, fields, "else", instance) == BranchVerdict(depth, d, root, kept, "else", instance)
    ensures InPlaceVerdict(depth, d, root, fields, key, instance) == InPlaceVerdict(depth, d, root, kept, key, instance)
  {
  }

  lemma SameReference(depth: nat, d: Dialect, root: Json, fields: map<string, Json>, kept: map<string, Json>,
                      key: string, instance: Json)
    requires key in fields && key in kept && fields[key] == kept[key]
    requires d.kindOf(key).Reference? || d.kindOf(key).Negation?
    ensures InPlaceVerdict(depth, d, root, fields, key, instance) == InPlaceVerdict(depth, d, root, kept, key, instance)
  {
  }

  lemma KeptInPlace(depth: nat, d: Dialect, root: Json, fields: map<string, Json>, kept: map<string, Json>,
                    key: string, instance: Json)
    requires Proper(d) && Keeps(d, fields, kept) && key in kept && key in fields && kept[key] == fields[key]
    requires InPlace(d.kindOf(key))
    ensures InPlaceVerdict(depth, d, root, fields, key, instance) == InPlaceVerdict(depth, d, root, kept, key, instance)
  {
    if d.kindOf(key).Condition? {
      SameBranch(depth, d, root, fields, kept, "then", instance);
      SameBranch(depth, d, root, fields, kept, "else", instance);
      SameCondition(depth, d, root, fields, kept, key, instance);
    } else {
      SameReference(depth, d, root, fields, kept, key, instance);
    }
  }

  lemma SameApplicator(depth: nat, d: Dialect, root: Json, fields: map<string, Json>, kept: map<string, Json>,
                       key: string, instance: Json)
    requires key in fields && key in kept && fields[key] == kept[key]
    requires !Ignored(d.kindOf(key)) && !InPlace(d.kindOf(key)) && d.kindOf(key) != Data
    requires instance.Obj? ==> AdditionalVerdicts(depth, d, root, fields, fields[key], instance.fields) ==
                               AdditionalVerdicts(depth, d, root, kept, fields[key], instance.fields)
    ensures ApplicatorVerdict(depth, d, root, fields, key, instance) ==
            ApplicatorVerdict(depth, d, root, kept, key, instance)
  {
  }

  lemma KeptKeyword(depth: nat, d: Dialect, root: Json, fields: map<string, Json>, kept: map<string, Json>,
                    key: string, instance: Json)
    requires Proper(d) && Keeps(d, fields, kept) && key in kept && key in fields && kept[key] == fields[key]
    ensures Keyword(depth, d, root, fields, key, instance) == Keyword(depth, d, root, kept, key, instance)
  {
    var kind := d.kindOf(key);
    if InPlace(kind) {
      KeptInPlace(depth, d, root, fields, kept, key, instance);
    } else if !Ignored(kind) && kind != Data {
      if instance.Obj? {
        SameAdditional(depth, d, root, fields, kept, fields[key], instance.fields);
      }
      SameApplicator(depth, d, root, fields, kept, key, instance);
    }
  }

  lemma SameBranch(depth: nat, d: Dialect, root: Json, fields: map<string, Json>, kept: map<string, Json>, key: string,
                   instance: Json)
    requires Keeps(d, fields, kept) && d.kindOf(key) == Branch
    ensures BranchVerdict(depth, d, root, fields, key, instance) == BranchVerdict(depth, d, root, kept, key, instance)
  {
  }

  lemma SameAdditional(depth: nat, d: Dialect, root: Json, fields: map<string, Json>, kept: map<string, Json>,
                       sub: Json, instance: map<string, Json>)
    requires Proper(d) && Keeps(d, fields, kept)
    ensures AdditionalVerdicts(depth, d, root, fields, sub, instance) ==
            AdditionalVerdicts(depth, d, root, kept, sub, instance)
  {
    assert forall name :: Listed(fields, name) <==> Listed(kept, name);
  }

  lemma AllIgnoresAccepted(before: map<string, Verdict>, after: map<string, Verdict>)
    requires forall key :: key in after ==> key in before && before[key] == after[key]
    requires forall key :: key in before && key !in after ==> before[key] == Accept
    ensures All(before) == All(after)
  {
    forall key | key in before && before[key] != Accept ensures key in after && after[key] == before[key] {
    }
  }

  /** The composite schema's reference to the definition. */
  const DEFINITION := LOCAL + "softwareDelivery"

  /** An object that only refers means what it refers to, one level up. */
  lemma LinkVerdict(depth: nat, d: Dialect, root: Json, reference: Json, target: Json, instance: Json)
    requires d.kindOf("$ref") == Reference && Target(root, reference) == Some(target)
    ensures Eval(depth + 1, d, root, Obj(map["$ref" := reference]), instance) == Eval(depth, d, root, target, instance)
  {
    OnlyKeyword(depth, d, root, "$ref", reference, instance);
  }

  /** The identifiers that the transformation drops are the ones evaluation ignores. */
  lemma RootEvaluates(depth: nat, d: Dialect, outer: map<string, Json>, definitions: map<string, Json>, schema: Json,
                      instance: Json)
    requires Proper(d) && MovableRoot(d, schema)
    ensures Eval(depth, d, Embed(outer, definitions, schema), Rewrite(schema), instance) ==
            Eval(depth, d, schema, schema, instance)
  {
    EmbeddingPreservesMeaning(depth, d, outer, definitions, schema);
    IdentifiersIgnored(depth, d, schema, schema, instance);
    assert Rewrite(schema) == Rewrite(WithoutIdentifiers(schema));
  }

  /** A reference to the new definition accepts exactly what the original schema accepts at its own root. */
  lemma EmbeddedSchemaAcceptsTheSame(depth: nat, d: Dialect, outer: map<string, Json>,
                                     definitions: map<string, Json>, schema: Json, instance: Json)
    requires Proper(d) && d.kindOf("$ref") == Reference && MovableRoot(d, schema)
    ensures Eval(depth + 1, d, Embed(outer, definitions, schema),
                 Obj(map["$ref" := Str(DEFINITION)]), instance) ==
            Eval(depth, d, schema, schema, instance)
  {
    DefinitionTarget(outer, definitions, schema);
    LinkVerdict(depth, d, Embed(outer, definitions, schema), Str(DEFINITION), Rewrite(schema), instance);
    RootEvaluates(depth, d, outer, definitions, schema, instance);
  }

  /** An object with one keyword means what the keyword means. */
  lemma OnlyKeyword(depth: nat, d: Dialect, root: Json, key: string, value: Json, instance: Json)
    ensures Eval(depth + 1, d, root, Obj(map[key := value]), instance) ==
            Keyword(depth, d, root, map[key := value], key, instance)
  {
    var v := Keyword(depth, d, root, map[key := value], key, instance);
    ObjectVerdict(depth, d, root, map[key := value], instance);
    assert KeywordVerdicts(depth, d, root, map[key := value], instance) == map[key := v];
    SingleVerdict(key, v);
  }

  lemma SingleVerdict(key: string, v: Verdict)
    ensures All(map[key := v]) == v
  {
    var verdicts := map[key := v];
    assert key in verdicts && verdicts[key] == v;
  }

  lemma DefinitionTokens(name: string)
    requires '/' !in name && '~' !in name
    ensures Tokens(LOCAL + name) == ["$defs", name]
  {
    assert (LOCAL + name)[2..] == "$defs" + ['/'] + name;
    TokenStep("$defs", name);
    SplitLastPart(name, '/');
    PlainToken(name);
  }

  lemma DefinitionTarget(outer: map<string, Json>, definitions: map<string, Json>, schema: Json)
    ensures Target(Embed(outer, definitions, schema), Str(DEFINITION)) == Some(Rewrite(schema))
  {
    DefinitionTokens("softwareDelivery");
    EnterEmbedded(outer, definitions, schema, []);
    assert ["$defs", "softwareDelivery"] + [] == ["$defs", "softwareDelivery"];
  }

  /******* The conditions are needed *******/

  ghost predicate KeepsMeaning(kindOf: string -> Kind, sub: Json) {
    forall depth: nat, holds: (string, Json, Json) -> bool, root: Json, instance: Json ::
      Eval(depth, Dialect(kindOf, holds), root, Rewrite(sub), instance) ==
      Eval(depth, Dialect(kindOf, holds), root, sub, instance)
  }

  lemma RewriteOneField(key: string, value: Json)
    requires !Dropped(key)
    ensures Rewrite(Obj(map[key := value])) == Obj(map[key := RewriteItem(value)])
  {
    assert Rewrite(Obj(map[key := value])).fields == map[key := RewriteItem(value)];
  }

  lemma KeptAt(kindOf: string -> Kind, sub: Json, depth: nat, holds: (string, Json, Json) -> bool, root: Json,
               instance: Json)
    requires KeepsMeaning(kindOf, sub)
    ensures Eval(depth, Dialect(kindOf, holds), root, Rewrite(sub), instance) ==
            Eval(depth, Dialect(kindOf, holds), root, sub, instance)
  {
  }

  /** A vocabulary that compares values tells any change of the value. */
  lemma ChangeIsSeen(d: Dialect, root: Json, key: string, value: Json, changed: Json)
    requires d.kindOf(key) == Data && d.holds(key, value, value) && (d.holds(key, changed, value) <==> changed == value)
    ensures Eval(1, d, root, Obj(map[key := changed]), value) == Eval(1, d, root, Obj(map[key := value]), value) <==>
            changed == value
  {
    DataVerdict(d, root, key, value, value);
    DataVerdict(d, root, key, changed, value);
  }

  lemma KeptIsUnchanged(kindOf: string -> Kind, key: string, value: Json)
    requires kindOf(key) == Data && !Dropped(key) && KeepsMeaning(kindOf, Obj(map[key := value]))
    ensures RewriteItem(value) == value
  {
    var same := (_: string, expected: Json, actual: Json) => expected == actual;
    RewriteOneField(key, value);
    ChangeIsSeen(Dialect(kindOf, same), Obj(map[key := value]), key, value, RewriteItem(value));
    KeptAt(kindOf, Obj(map[key := value]), 1, same, Obj(map[key := value]), value);
  }

  /** A data keyword keeps its meaning for every vocabulary exactly when the transformation leaves its value alone. */
  lemma DataKeywordMovesIff(kindOf: string -> Kind, key: string, value: Json)
    requires kindOf(key) == Data && !Dropped(key)
    ensures KeepsMeaning(kindOf, Obj(map[key := value])) <==> InertItem(value)
  {
    RewriteItemUnchangedIff(value);
    RewriteOneField(key, value);
    if KeepsMeaning(kindOf, Obj(map[key := value])) {
      KeptIsUnchanged(kindOf, key, value);
    }
  }

  lemma DataVerdict(d: Dialect, root: Json, key: string, value: Json, instance: Json)
    requires d.kindOf(key) == Data
    ensures Eval(1, d, root, Obj(map[key := value]), instance) ==
            if d.holds(key, value, instance) then Accept else Reject
  {
    OnlyKeyword(0, d, root, key, value, instance);
  }

  lemma ForbiddenProperty(depth: nat, d: Dialect, root: Json, key: string, name: string, value: Json)
    requires depth > 0 && d.kindOf(key) == Properties
    ensures Eval(depth + 1, d, root, Obj(map[key := Obj(map[name := Bool(false)])]), Obj(map[name := value])) == Reject
  {
    PropertiesVerdict(depth, d, root, key, map[name := Bool(false)], map[name := value]);
    assert PropertyVerdicts(depth, d, root, map[name := Bool(false)], map[name := value]) == map[name := Reject];
    SingleVerdict(name, Reject);
  }

  lemma NoProperties(depth: nat, d: Dialect, root: Json, key: string, instance: map<string, Json>)
    requires d.kindOf(key) == Properties
    ensures Eval(depth + 1, d, root, Obj(map[key := Obj(map[])]), Obj(instance)) == Accept
  {
    PropertiesVerdict(depth, d, root, key, map[], instance);
    assert PropertyVerdicts(depth, d, root, map[], instance) == map[];
  }

  /** A property that bears a dropped name loses its schema: the moved schema accepts what the original rejects. */
  lemma DroppedPropertyLosesItsSchema(depth: nat, d: Dialect, root: Json, key: string, name: string)
    requires depth > 0 && d.kindOf(key) == Properties && !Dropped(key) && Dropped(name)
    ensures var sub, instance := Obj(map[key := Obj(map[name := Bool(false)])]), Obj(map[name := Null]);
            Eval(depth + 1, d, root, sub, instance) == Reject && Eval(depth + 1, d, root, Rewrite(sub), instance) == Accept
  {
    ForbiddenProperty(depth, d, root, key, name, Null);
    NoProperties(depth, d, root, key, map[name := Null]);
    RewriteOneField(key, Obj(map[name := Bool(false)]));
    assert Rewrite(Obj(map[name := Bool(false)])).fields == map[];
  }

  lemma PropertiesVerdict(depth: nat, d: Dialect, root: Json, key: string, properties: map<string, Json>,
                          instance: map<string, Json>)
    requires d.kindOf(key) == Properties
    ensures Eval(depth + 1, d, root, Obj(map[key := Obj(properties)]), Obj(instance)) ==
            All(PropertyVerdicts(depth, d, root, properties, instance))
  {
    OnlyKeyword(depth, d, root, key, Obj(properties), Obj(instance));
  }
}
