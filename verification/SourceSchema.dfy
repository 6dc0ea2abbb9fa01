/**
 The software-delivery source schema (objectSchema and buildSourceSchema in
 scripts/organization-graph-contracts/software-delivery.ts): its builders, the schema they build, and the
 proof that this schema can be moved.
 */
module SourceSchema {
  import opened Wrappers
  import opened JsonValues
  import opened Splitting
  import opened PointerDecoding
  import opened SchemaEmbedding
  import opened SchemaMeaning
  import opened SchemaAcceptance

  /** Property names, names of definitions, and strings that are not references. */
  type PropertyName = s: string | s != [] && s[0] != '$' witness "a"
  type DefinitionName = s: string | '/' !in s witness ""
  type PlainText = s: string | s == [] || s[0] != '#' witness ""

  /******* The shapes that the builders compose *******/

  datatype Property = Property(name: PropertyName, shape: Shape)

  datatype Shape =
    | Anything
    | Text(minLength: int, maxLength: int, pattern: Option<PlainText>)
    | Enumeration(values: seq<string>)
    | Constant(text: PlainText)
    | ConstantFlag(flag: bool)
    | ConstantNumber(n: int)
    | Whole(minimum: int, maximum: int)
    | Flag
    | NoItems
    | ArrayOf(maxItems: int, items: Shape)
    | References(maxItems: int, minItems: Option<int>, items: Shape)
    | Definition(name: DefinitionName)
    | Closed(properties: seq<Property>, required: seq<string>, rules: seq<Shape>)
    | Has(properties: seq<Property>, required: seq<string>)
    | Constrains(properties: seq<Property>)
    | Refuses(shape: Shape)
    | Every(shapes: seq<Shape>)
    | One(shapes: seq<Shape>)
    | When(condition: Shape, consequence: Shape, alternative: Option<Shape>)

  /******* What they build *******/

  type Fields = seq<(string, Json)>

  /** An object literal: of two fields with one name the later counts. */
  function Object(fields: Fields): map<string, Json> {
    if fields == [] then map[] else Object(fields[..|fields| - 1])[fields[|fields| - 1].0 := fields[|fields| - 1].1]
  }

  function Texts(ss: seq<string>): Json {
    Arr(seq(|ss|, i requires 0 <= i < |ss| => Str(ss[i])))
  }

  function Built(shape: Shape): Json
    decreases shape, 1
  {
    if shape.Anything? then Bool(true) else Obj(Object(BuiltFields(shape)))
  }

  function BuiltFields(shape: Shape): Fields
    decreases shape, 0
  {
    match shape
    case Anything => []
    case Text(minLength, maxLength, pattern) =>
      [("type", Str("string")), ("minLength", Num(minLength)), ("maxLength", Num(maxLength))]
      + (if pattern.Some? then [("pattern", Str(pattern.value))] else [])
    case Enumeration(values) => [("enum", Texts(values))]
    case Constant(text) => [("const", Str(text))]
    case ConstantFlag(flag) => [("const", Bool(flag))]
    case ConstantNumber(n) => [("const", Num(n))]
    case Whole(minimum, maximum) => [("type", Str("integer")), ("minimum", Num(minimum)), ("maximum", Num(maximum))]
    case Flag => [("type", Str("boolean"))]
    case NoItems => [("type", Str("array")), ("maxItems", Num(0))]
    case ArrayOf(maxItems, items) => [("type", Str("array")), ("maxItems", Num(maxItems)), ("items", Built(items))]
    case References(maxItems, minItems, items) =>
      [("type", Str("array")), ("maxItems", Num(maxItems)), ("uniqueItems", Bool(true)), ("items", Built(items))]
      + (if minItems.Some? then [("minItems", Num(minItems.value))] else [])
    case Definition(name) => [("$ref", Str(LOCAL + name))]
    case Closed(properties, required, rules) =>
      [("type", Str("object")), ("additionalProperties", Bool(false)), ("required", Texts(required)),
       ("properties", Obj(Object(BuiltProperties(properties))))]
      + (if rules == [] then [] else [("allOf", Arr(BuiltAll(rules)))])
    case Has(properties, required) =>
      [("properties", Obj(Object(BuiltProperties(properties)))), ("required", Texts(required))]
    case Constrains(properties) => [("properties", Obj(Object(BuiltProperties(properties))))]
    case Refuses(refused) => [("not", Built(refused))]
    case Every(shapes) => [("allOf", Arr(BuiltAll(shapes)))]
    case One(shapes) => [("oneOf", Arr(BuiltAll(shapes)))]
    case When(condition, consequence, alternative) =>
      [("if", Built(condition)), ("then", Built(consequence))]
      + (if alternative.Some? then [("else", Built(alternative.value))] else [])
  }

  function BuiltAll(shapes: seq<Shape>): seq<Json>
    decreases shapes, 2
  {
    seq(|shapes|, i requires 0 <= i < |shapes| => Built(shapes[i]))
  }

  function BuiltProperties(properties: seq<Property>): Fields
    decreases properties, 2
  {
    seq(|properties|, i requires 0 <= i < |properties| => (properties[i].name, Built(properties[i].shape)))
  }

  /******* Keywords *******/

  /** The first two letters of the keywords that only assert something of data. */
  predicate DataStart(key: string) {
    |key| >= 2 &&
    var (a, b) := (key[0], key[1]);
    || (a == 't' && b == 'y') || (a == 'e' && b == 'n') || (a == 'c' && b == 'o') || (a == 'r' && b == 'e')
    || (a == 'm' && (b == 'i' || b == 'a')) || (a == 'p' && b == 'a') || (a == 'u' && b == 'n')
  }

  lemma DollarKeywords(key: string)
    requires DataStart(key)
    ensures key != "$schema" && key != "$id" && key != "$comment" && key != "$defs" && key != "$ref"
  {
    assert "$schema"[0] == "$id"[0] == "$comment"[0] == "$defs"[0] == "$ref"[0] == '$';
  }

  lemma BranchKeywords(key: string)
    requires DataStart(key)
    ensures key != "title" && key != "then" && key != "else" && key != "if" && key != "items" && key != "description"
  {
    assert "title"[1] == 'i' && "then"[1] == 'h' && "else"[1] == 'l';
    assert "if"[0] == "items"[0] == 'i' && "description"[0] == 'd';
  }

  lemma ApplicatorKeywords(key: string)
    requires DataStart(key)
    ensures key != "not" && key != "allOf" && key != "anyOf" && key != "oneOf"
    ensures key != "properties" && key != "additionalProperties"
  {
    assert "not"[0] == 'n' && "allOf"[0] == "anyOf"[0] == "additionalProperties"[0] == 'a';
    assert "oneOf"[0] == 'o' && "properties"[1] == 'r';
  }

  lemma DataKeyword(key: string)
    requires DataStart(key)
    ensures KindOf(key) == Data
  {
    DollarKeywords(key);
    BranchKeywords(key);
    ApplicatorKeywords(key);
  }

  lemma SchemaKeywords()
    ensures KindOf("items") == Items && KindOf("not") == Negation && KindOf("if") == Condition
    ensures KindOf("then") == KindOf("else") == Branch && KindOf("$ref") == Reference
  {
  }

  lemma PropertiesKeyword()
    ensures KindOf("properties") == Properties
  {
  }

  lemma CollectionKeywords()
    ensures KindOf("additionalProperties") == Additional
    ensures KindOf("allOf") == List(EachOf) && KindOf("oneOf") == List(ExactlyOne) && KindOf("$defs") == Definitions
  {
  }

  lemma Annotations()
    ensures KindOf("title") == KindOf("description") == Annotation
  {
  }

  lemma DataStarts()
    ensures DataStart("type") && DataStart("enum") && DataStart("const") && DataStart("required")
    ensures DataStart("minLength") && DataStart("maxLength") && DataStart("pattern")
    ensures DataStart("minItems") && DataStart("maxItems") && DataStart("uniqueItems")
    ensures DataStart("minimum") && DataStart("maximum")
  {
  }

  /******* Objects of movable keywords *******/

  function Standard(holds: (string, Json, Json) -> bool): Dialect {
    Dialect(KindOf, holds)
  }

  ghost predicate Fits(d: Dialect, fields: Fields) {
    forall i :: 0 <= i < |fields| ==> MovableKeyword(d, fields[i].0, fields[i].1)
  }

  lemma {:induction false} ObjectField(fields: Fields, key: string) returns (i: nat)
    requires key in Object(fields)
    ensures i < |fields| && fields[i].0 == key && fields[i].1 == Object(fields)[key]
  {
    var n := |fields| - 1;
    if fields[n].0 == key {
      i := n;
    } else {
      i := ObjectField(fields[..n], key);
    }
  }

  lemma ObjectIsMovable(d: Dialect, fields: Fields)
    requires Fits(d, fields)
    ensures Movable(d, Obj(Object(fields)))
  {
    forall key | key in Object(fields) ensures MovableKeyword(d, key, Object(fields)[key]) {
      var i := ObjectField(fields, key);
    }
  }

  lemma FitsConcat(d: Dialect, a: Fields, b: Fields)
    requires Fits(d, a) && Fits(d, b)
    ensures Fits(d, a + b)
  {
  }

  /******* Fields *******/

  lemma DataField(holds: (string, Json, Json) -> bool, key: string, value: Json)
    requires DataStart(key) && InertItem(value)
    ensures MovableKeyword(Standard(holds), key, value)
  {
    DataKeyword(key);
  }

  lemma PlainTextIsInert(s: PlainText)
    ensures InertItem(Str(s))
  {
    assert LOCAL[0] == '#';
  }

  lemma TextsAreInert(ss: seq<string>)
    ensures InertItem(Texts(ss))
  {
  }

  lemma TypeField(holds: (string, Json, Json) -> bool, name: PlainText)
    ensures MovableKeyword(Standard(holds), "type", Str(name))
  {
    DataStarts();
    PlainTextIsInert(name);
    DataField(holds, "type", Str(name));
  }

  lemma NumberField(holds: (string, Json, Json) -> bool, key: string, n: int)
    requires DataStart(key)
    ensures MovableKeyword(Standard(holds), key, Num(n))
  {
    DataField(holds, key, Num(n));
  }

  lemma ItemsField(holds: (string, Json, Json) -> bool, items: Json)
    requires Movable(Standard(holds), items)
    ensures MovableKeyword(Standard(holds), "items", items)
  {
    SchemaKeywords();
  }

  lemma ClosedField(holds: (string, Json, Json) -> bool)
    ensures MovableKeyword(Standard(holds), "additionalProperties", Bool(false))
  {
    CollectionKeywords();
  }

  lemma RulesField(holds: (string, Json, Json) -> bool, rules: seq<Shape>)
    requires forall i :: 0 <= i < |rules| ==> Movable(Standard(holds), Built(rules[i]))
    ensures MovableKeyword(Standard(holds), "allOf", Arr(BuiltAll(rules)))
  {
    CollectionKeywords();
    ListField(Standard(holds), "allOf", rules);
  }

  lemma MembersField(holds: (string, Json, Json) -> bool, properties: seq<Property>)
    requires forall i :: 0 <= i < |properties| ==> Movable(Standard(holds), Built(properties[i].shape))
    ensures MovableKeyword(Standard(holds), "properties", Obj(Object(BuiltProperties(properties))))
  {
    PropertiesKeyword();
    PropertiesField(Standard(holds), "properties", properties);
  }

  lemma FlagField(holds: (string, Json, Json) -> bool)
    ensures MovableKeyword(Standard(holds), "uniqueItems", Bool(true))
  {
    DataStarts();
    DataField(holds, "uniqueItems", Bool(true));
  }

  lemma BoundField(holds: (string, Json, Json) -> bool, n: int)
    ensures MovableKeyword(Standard(holds), "maxItems", Num(n)) && MovableKeyword(Standard(holds), "minItems", Num(n))
  {
    DataStarts();
    NumberField(holds, "maxItems", n);
    NumberField(holds, "minItems", n);
  }

  lemma RequiredField(holds: (string, Json, Json) -> bool, required: seq<string>)
    ensures MovableKeyword(Standard(holds), "required", Texts(required))
  {
    DataStarts();
    TextsAreInert(required);
    DataField(holds, "required", Texts(required));
  }

  lemma ListField(d: Dialect, key: string, shapes: seq<Shape>)
    requires d.kindOf(key).List? && forall i :: 0 <= i < |shapes| ==> Movable(d, Built(shapes[i]))
    ensures MovableKeyword(d, key, Arr(BuiltAll(shapes)))
  {
  }

  lemma PropertiesField(d: Dialect, key: string, properties: seq<Property>)
    requires SchemaMap(d.kindOf(key))
    requires forall i :: 0 <= i < |properties| ==> Movable(d, Built(properties[i].shape))
    ensures MovableKeyword(d, key, Obj(Object(BuiltProperties(properties))))
  {
    var fields := BuiltProperties(properties);
    forall name | name in Object(fields) ensures !Dropped(name) && Movable(d, Object(fields)[name]) {
      var i := ObjectField(fields, name);
      NamesAreKept(properties[i].name);
    }
  }

  lemma NamesAreKept(name: PropertyName)
    ensures !Dropped(name)
  {
    assert "$schema"[0] == "$id"[0] == '$';
  }

  lemma DefinitionField(d: Dialect, name: DefinitionName)
    requires d.kindOf("$ref") == Reference && d.kindOf("$defs") == Definitions
    ensures MovableKeyword(d, "$ref", Str(LOCAL + name))
  {
    assert (LOCAL + name)[2..] == "$defs" + ['/'] + name;
    TokenStep("$defs", name);
    SplitLastPart(name, '/');
    assert Tokens(LOCAL + name) == ["$defs", TwoPass(name)];
    assert ["$defs", TwoPass(name)][2..] == [];
    assert (LOCAL + name)[..|LOCAL|] == LOCAL;
  }

  /******* Every built schema is movable *******/

  lemma TextMoves(holds: (string, Json, Json) -> bool, shape: Shape)
    requires shape.Text?
    ensures Fits(Standard(holds), BuiltFields(shape))
  {
    DataStarts();
    TypeField(holds, "string");
    NumberField(holds, "minLength", shape.minLength);
    NumberField(holds, "maxLength", shape.maxLength);
    if shape.pattern.Some? {
      PlainTextIsInert(shape.pattern.value);
      DataField(holds, "pattern", Str(shape.pattern.value));
    }
  }

  lemma LeafMoves(holds: (string, Json, Json) -> bool, shape: Shape)
    requires shape.Whole? || shape.NoItems? || shape.Flag?
    ensures Fits(Standard(holds), BuiltFields(shape))
  {
    DataStarts();
    match shape
    case Whole(minimum, maximum) =>
      TypeField(holds, "integer");
      NumberField(holds, "minimum", minimum);
      NumberField(holds, "maximum", maximum);
    case NoItems =>
      TypeField(holds, "array");
      NumberField(holds, "maxItems", 0);
    case Flag =>
      TypeField(holds, "boolean");
  }

  lemma ConstantMoves(holds: (string, Json, Json) -> bool, shape: Shape)
    requires shape.Enumeration? || shape.Constant? || shape.ConstantFlag? || shape.ConstantNumber?
    ensures Fits(Standard(holds), BuiltFields(shape))
  {
    DataStarts();
    match shape
    case Enumeration(values) =>
      TextsAreInert(values);
      DataField(holds, "enum", Texts(values));
    case Constant(text) =>
      PlainTextIsInert(text);
      DataField(holds, "const", Str(text));
    case ConstantFlag(flag) =>
      DataField(holds, "const", Bool(flag));
    case ConstantNumber(n) =>
      DataField(holds, "const", Num(n));
  }

  lemma ArrayMoves(holds: (string, Json, Json) -> bool, maxItems: int, items: Json)
    requires Movable(Standard(holds), items)
    ensures Fits(Standard(holds), [("type", Str("array")), ("maxItems", Num(maxItems)), ("items", items)])
  {
    TypeField(holds, "array");
    BoundField(holds, maxItems);
    ItemsField(holds, items);
    ThreeFit(Standard(holds), ("type", Str("array")), ("maxItems", Num(maxItems)), ("items", items));
  }

  lemma ThreeFit(d: Dialect, a: (string, Json), b: (string, Json), c: (string, Json))
    requires MovableKeyword(d, a.0, a.1) && MovableKeyword(d, b.0, b.1) && MovableKeyword(d, c.0, c.1)
    ensures Fits(d, [a, b, c])
  {
  }

  lemma OneFits(d: Dialect, a: (string, Json))
    requires MovableKeyword(d, a.0, a.1)
    ensures Fits(d, [a])
  {
  }

  lemma ReferencesMove(holds: (string, Json, Json) -> bool, maxItems: int, minItems: Option<int>, items: Json)
    requires Movable(Standard(holds), items)
    ensures Fits(Standard(holds),
                 [("type", Str("array")), ("maxItems", Num(maxItems)), ("uniqueItems", Bool(true)), ("items", items)]
                 + (if minItems.Some? then [("minItems", Num(minItems.value))] else []))
  {
    var first := [("type", Str("array")), ("maxItems", Num(maxItems)), ("uniqueItems", Bool(true))];
    TypeField(holds, "array");
    BoundField(holds, maxItems);
    FlagField(holds);
    ThreeFit(Standard(holds), first[0], first[1], first[2]);
    ItemsField(holds, items);
    OneFits(Standard(holds), ("items", items));
    FitsConcat(Standard(holds), first, [("items", items)]);
    if minItems.Some? {
      BoundField(holds, minItems.value);
      OneFits(Standard(holds), ("minItems", Num(minItems.value)));
      FitsConcat(Standard(holds), first + [("items", items)], [("minItems", Num(minItems.value))]);
    }
  }

  lemma ClosedHead(holds: (string, Json, Json) -> bool, required: seq<string>)
    ensures Fits(Standard(holds),
                 [("type", Str("object")), ("additionalProperties", Bool(false)), ("required", Texts(required))])
  {
    TypeField(holds, "object");
    ClosedField(holds);
    RequiredField(holds, required);
    ThreeFit(Standard(holds), ("type", Str("object")), ("additionalProperties", Bool(false)), ("required", Texts(required)));
  }

  lemma TailFits(d: Dialect, head: Fields, members: (string, Json), rules: Fields)
    requires Fits(d, head) && MovableKeyword(d, members.0, members.1) && Fits(d, rules)
    ensures Fits(d, head + [members] + rules)
  {
    OneFits(d, members);
    FitsConcat(d, head, [members]);
    FitsConcat(d, head + [members], rules);
  }

  function RuleFields(rules: seq<Shape>): Fields {
    if rules == [] then [] else [("allOf", Arr(BuiltAll(rules)))]
  }

  lemma RulesMove(holds: (string, Json, Json) -> bool, rules: seq<Shape>)
    requires forall i :: 0 <= i < |rules| ==> Movable(Standard(holds), Built(rules[i]))
    ensures Fits(Standard(holds), RuleFields(rules))
  {
    if rules != [] {
      RulesField(holds, rules);
      OneFits(Standard(holds), ("allOf", Arr(BuiltAll(rules))));
    }
  }

  lemma ClosedFields(properties: seq<Property>, required: seq<string>, rules: seq<Shape>)
    ensures BuiltFields(Closed(properties, required, rules)) ==
            [("type", Str("object")), ("additionalProperties", Bool(false)), ("required", Texts(required))]
            + [("properties", Obj(Object(BuiltProperties(properties))))] + RuleFields(rules)
  {
  }

  lemma ClosedMoves(holds: (string, Json, Json) -> bool, properties: seq<Property>, required: seq<string>,
                    rules: seq<Shape>)
    requires forall i :: 0 <= i < |properties| ==> Movable(Standard(holds), Built(properties[i].shape))
    requires forall i :: 0 <= i < |rules| ==> Movable(Standard(holds), Built(rules[i]))
    ensures Fits(Standard(holds), BuiltFields(Closed(properties, required, rules)))
  {
    ClosedHead(holds, required);
    MembersField(holds, properties);
    RulesMove(holds, rules);
    ClosedFields(properties, required, rules);
    TailFits(Standard(holds),
             [("type", Str("object")), ("additionalProperties", Bool(false)), ("required", Texts(required))],
             ("properties", Obj(Object(BuiltProperties(properties)))), RuleFields(rules));
  }

  lemma HasMoves(holds: (string, Json, Json) -> bool, shape: Shape)
    requires shape.Has? || shape.Constrains?
    requires forall i :: 0 <= i < |shape.properties| ==> Movable(Standard(holds), Built(shape.properties[i].shape))
    ensures Fits(Standard(holds), BuiltFields(shape))
  {
    MembersField(holds, shape.properties);
    if shape.Has? {
      RequiredField(holds, shape.required);
    }
  }

  lemma WhenMoves(holds: (string, Json, Json) -> bool, shape: Shape)
    requires shape.When? && Movable(Standard(holds), Built(shape.condition))
    requires Movable(Standard(holds), Built(shape.consequence))
    requires shape.alternative.Some? ==> Movable(Standard(holds), Built(shape.alternative.value))
    ensures Fits(Standard(holds), BuiltFields(shape))
  {
    SchemaKeywords();
  }

  lemma CombinationMoves(holds: (string, Json, Json) -> bool, shape: Shape)
    requires shape.Every? || shape.One?
    requires forall i :: 0 <= i < |shape.shapes| ==> Movable(Standard(holds), Built(shape.shapes[i]))
    ensures Fits(Standard(holds), BuiltFields(shape))
  {
    CollectionKeywords();
    ListField(Standard(holds), if shape.Every? then "allOf" else "oneOf", shape.shapes);
  }

  lemma DefinitionMoves(holds: (string, Json, Json) -> bool, name: DefinitionName)
    ensures Fits(Standard(holds), [("$ref", Str(LOCAL + name))])
  {
    SchemaKeywords();
    CollectionKeywords();
    DefinitionField(Standard(holds), name);
  }

  /** Whatever the builders compose can be moved. */
  lemma {:induction false} BuiltMoves(holds: (string, Json, Json) -> bool, shape: Shape)
    ensures Movable(Standard(holds), Built(shape))
    decreases shape
  {
    if !shape.Anything? {
      FieldsMove(holds, shape);
      ObjectIsMovable(Standard(holds), BuiltFields(shape));
    }
  }

  lemma {:induction false} FieldsMove(holds: (string, Json, Json) -> bool, shape: Shape)
    requires !shape.Anything?
    ensures Fits(Standard(holds), BuiltFields(shape))
    decreases shape, 0
  {
    match shape
    case Text(_, _, _) =>
      TextMoves(holds, shape);
    case Whole(_, _) | NoItems | Flag =>
      LeafMoves(holds, shape);
    case Enumeration(_) | Constant(_) | ConstantFlag(_) | ConstantNumber(_) =>
      ConstantMoves(holds, shape);
    case ArrayOf(maxItems, items) =>
      BuiltMoves(holds, items);
      ArrayMoves(holds, maxItems, Built(items));
    case References(maxItems, minItems, items) =>
      BuiltMoves(holds, items);
      ReferencesMove(holds, maxItems, minItems, Built(items));
    case Definition(name) =>
      DefinitionMoves(holds, name);
    case Closed(properties, required, rules) =>
      forall i | 0 <= i < |properties| ensures Movable(Standard(holds), Built(properties[i].shape)) {
        BuiltMoves(holds, properties[i].shape);
      }
      forall i | 0 <= i < |rules| ensures Movable(Standard(holds), Built(rules[i])) {
        BuiltMoves(holds, rules[i]);
      }
      ClosedMoves(holds, properties, required, rules);
    case Has(properties, _) =>
      forall i | 0 <= i < |properties| ensures Movable(Standard(holds), Built(properties[i].shape)) {
        BuiltMoves(holds, properties[i].shape);
      }
      HasMoves(holds, shape);
    case Constrains(properties) =>
      forall i | 0 <= i < |properties| ensures Movable(Standard(holds), Built(properties[i].shape)) {
        BuiltMoves(holds, properties[i].shape);
      }
      HasMoves(holds, shape);
    case Refuses(refused) =>
      BuiltMoves(holds, refused);
      SchemaKeywords();
    case Every(shapes) =>
      forall i | 0 <= i < |shapes| ensures Movable(Standard(holds), Built(shapes[i])) {
        BuiltMoves(holds, shapes[i]);
      }
      CombinationMoves(holds, shape);
    case One(shapes) =>
      forall i | 0 <= i < |shapes| ensures Movable(Standard(holds), Built(shapes[i])) {
        BuiltMoves(holds, shapes[i]);
      }
      CombinationMoves(holds, shape);
    case When(condition, consequence, alternative) =>
      BuiltMoves(holds, condition);
      BuiltMoves(holds, consequence);
      if alternative.Some? {
        BuiltMoves(holds, alternative.value);
      }
      WhenMoves(holds, shape);
  }

  /******* The source schema *******/

  const MAX_SAFE_INTEGER := 0x1F_FFFF_FFFF_FFFF
  const TEXT_BYTES := 2_048
  const LABELS_PER_ISSUE := 50
  const RELATIONS := 100
  const COMPLETENESS_ENTRIES := 50

  /** Patterns, identifiers and titles, on which nothing here depends. */
  datatype Wording = Wording(identifierPattern: PlainText, dateTimePattern: PlainText, schema: PlainText,
                             projector: PlainText, metaSchema: string, id: string, title: string, description: string)

  function Identifier(w: Wording): Shape {
    Text(1, 2_048, Some(w.identifierPattern))
  }

  function FreeText(): Shape {
    Text(1, TEXT_BYTES, None)
  }

  function DateTime(w: Wording): Shape {
    Text(1, 64, Some(w.dateTimePattern))
  }

  function ReferenceArray(w: Wording, maxItems: int): Shape {
    References(maxItems, None, Identifier(w))
  }

  function Identified(w: Wording, name: PropertyName): Property {
    Property(name, Identifier(w))
  }

  function Dated(w: Wording, name: PropertyName): Property {
    Property(name, DateTime(w))
  }

  function Chosen(name: PropertyName, values: seq<string>): Property {
    Property(name, Enumeration(values))
  }

  function EvidenceProperties(w: Wording): seq<Property> {
    [Identified(w, "id"), Identified(w, "authorityVersion"),
     Chosen("observationKind", ["live", "local_store", "cache", "synthetic"]), Dated(w, "observedAt"),
     Property("sourceEventIds", ReferenceArray(w, 50)), Property("evidenceRefs", ReferenceArray(w, 50))]
  }

  function Observation(w: Wording, properties: seq<Property>, required: seq<string>, rules: seq<Shape>): Shape {
    Closed(EvidenceProperties(w) + properties,
           ["id", "authorityVersion", "observationKind", "observedAt", "sourceEventIds", "evidenceRefs"] + required, rules)
  }

  /** The named property is there, and constrained no further. */
  function Present(name: PropertyName): Shape {
    Has([Property(name, Anything)], [name])
  }

  function Is(name: PropertyName, shape: Shape): Shape {
    Has([Property(name, shape)], [name])
  }

  function TerminalStatusRules(terminal: seq<string>): seq<Shape> {
    [When(Is("status", Enumeration(terminal)), Present("completedAt"), Some(Refuses(Present("completedAt"))))]
  }

  function RepositoryObservation(w: Wording): Shape {
    Observation(w, [Identified(w, "repositoryId"), Identified(w, "fullName"), Identified(w, "defaultBranch")],
                ["repositoryId", "fullName", "defaultBranch"], [])
  }

  function ActorObservation(w: Wording): Shape {
    Observation(w,
      [Chosen("authorityProvider", ["github", "openslack"]),
       Property("actor", Closed([Identified(w, "id"), Chosen("kind", ["human", "agent", "system"]),
                                 Property("displayName", Text(1, 512, None))], ["id", "kind"], []))],
      ["authorityProvider", "actor"], [])
  }

  function IssueLabels(): Property {
    Property("labels",
             ArrayOf(LABELS_PER_ISSUE,
                     Closed([Property("name", Text(1, 256, None)),
                             Chosen("category", ["state", "risk", "capability", "other"])], ["name", "category"], [])))
  }

  function IssueRules(): seq<Shape> {
    [When(Is("state", Constant("open")), Refuses(Present("closedAt")), None),
     When(Has([Property("state", Constant("closed")), Property("closureComplete", ConstantFlag(true))],
              ["state", "closureComplete"]),
          Present("closedAt"), None)]
  }

  function IssueObservation(w: Wording): Shape {
    Observation(w,
      [Identified(w, "repositoryId"), Property("number", Whole(1, MAX_SAFE_INTEGER)), Property("title", FreeText()),
       Chosen("state", ["open", "closed"]), IssueLabels(), Property("assigneeIds", ReferenceArray(w, 50)),
       Property("assigneesComplete", Flag), Property("closureComplete", Flag), Dated(w, "createdAt"), Dated(w, "updatedAt"),
       Dated(w, "closedAt")],
      ["repositoryId", "number", "title", "state", "labels", "assigneeIds", "assigneesComplete", "closureComplete",
       "createdAt", "updatedAt"],
      IssueRules())
  }

  function ClaimObservation(w: Wording): Shape {
    Observation(w,
      [Identified(w, "issueId"), Identified(w, "claimRef"), Identified(w, "targetSha"),
       Chosen("status", ["active", "expired", "released"]), Identified(w, "agentActorId"), Dated(w, "claimedAt"),
       Dated(w, "expiresAt")],
      ["issueId", "claimRef", "status", "agentActorId", "claimedAt", "expiresAt"], [])
  }

  function WorktreeRules(): seq<Shape> {
    [When(Is("status", Constant("cleaned")), Present("closedAt"), None),
     When(Is("status", Constant("active")), Refuses(Present("closedAt")), None)]
  }

  function WorktreeObservation(w: Wording): Shape {
    Observation(w,
      [Identified(w, "issueId"), Identified(w, "claimId"), Identified(w, "agentRunId"), Identified(w, "worktreeId"),
       Identified(w, "baseSha"), Identified(w, "branchName"), Chosen("status", ["active", "preserved", "cleaned"]),
       Dated(w, "createdAt"), Dated(w, "closedAt")],
      ["issueId", "worktreeId", "branchName", "status", "createdAt"], WorktreeRules())
  }

  function CommitObservation(w: Wording): Shape {
    Observation(w,
      [Identified(w, "repositoryId"), Identified(w, "sha"), Property("issueIds", ReferenceArray(w, RELATIONS)),
       Identified(w, "worktreeId"), Dated(w, "authoredAt")],
      ["repositoryId", "sha", "issueIds", "authoredAt"], [])
  }

  function PullRequestObservation(w: Wording): Shape {
    Observation(w,
      [Identified(w, "repositoryId"), Property("number", Whole(1, MAX_SAFE_INTEGER)), Property("title", FreeText()),
       Identified(w, "authorActorId"), Chosen("state", ["open", "closed", "merged"]), Property("draft", Flag),
       Identified(w, "baseSha"), Identified(w, "headSha"), Property("issueIds", ReferenceArray(w, RELATIONS)),
       Property("commitShas", ReferenceArray(w, RELATIONS)), Dated(w, "openedAt"), Dated(w, "updatedAt")],
      ["repositoryId", "number", "title", "authorActorId", "state", "draft", "issueIds", "commitShas", "openedAt",
       "updatedAt"], [])
  }

  function CheckRules(): seq<Shape> {
    [When(Is("status", Constant("completed")),
          Has([Property("conclusion", Anything), Property("completedAt", Anything)], ["conclusion", "completedAt"]),
          Some(Every([Refuses(Present("conclusion")), Refuses(Present("completedAt"))])))]
  }

  function CheckObservation(w: Wording): Shape {
    Observation(w,
      [Identified(w, "pullRequestId"), Property("name", Text(1, 512, None)),
       Chosen("status", ["queued", "in_progress", "completed"]),
       Chosen("conclusion", ["success", "failure", "neutral", "cancelled", "skipped", "timed_out", "action_required",
                             "stale", "startup_failure"]),
       Identified(w, "headSha"), Dated(w, "startedAt"), Dated(w, "completedAt")],
      ["pullRequestId", "name", "status", "startedAt"], CheckRules())
  }

  function ReviewObservation(w: Wording): Shape {
    Observation(w,
      [Identified(w, "pullRequestId"), Identified(w, "actorId"), Chosen("actorKind", ["human", "agent", "system"]),
       Chosen("state", ["APPROVED", "CHANGES_REQUESTED", "COMMENTED", "DISMISSED"]), Identified(w, "commitOid"),
       Dated(w, "submittedAt")],
      ["pullRequestId", "actorId", "actorKind", "state", "submittedAt"], [])
  }

  function MergeObservation(w: Wording): Shape {
    Observation(w,
      [Identified(w, "pullRequestId"), Identified(w, "headSha"), Identified(w, "mergeCommitSha"), Identified(w, "actorId"),
       Dated(w, "mergedAt")],
      ["pullRequestId", "actorId", "mergedAt"], [])
  }

  function WorkflowRunObservation(w: Wording): Shape {
    Observation(w,
      [Identified(w, "workflowId"),
       Chosen("status", ["created", "previewed", "confirmed", "pending", "running", "paused", "paused_waiting_approval",
                         "resuming", "completed", "failed", "cancelled"]),
       Property("issueIds", ReferenceArray(w, RELATIONS)), Property("pullRequestIds", ReferenceArray(w, RELATIONS)),
       Dated(w, "startedAt"), Dated(w, "completedAt")],
      ["workflowId", "status", "issueIds", "pullRequestIds", "startedAt"],
      TerminalStatusRules(["completed", "failed", "cancelled"]))
  }

  function AgentRunObservation(w: Wording): Shape {
    Observation(w,
      [Identified(w, "workflowRunId"), Identified(w, "agentActorId"),
       Chosen("status", ["pending", "running", "paused", "completed", "failed", "cancelled"]), Identified(w, "worktreeId"),
       Dated(w, "startedAt"), Dated(w, "completedAt")],
      ["agentActorId", "status", "startedAt"], TerminalStatusRules(["completed", "failed", "cancelled"]))
  }

  function PrmsReportObservation(w: Wording): Shape {
    Observation(w,
      [Identified(w, "pullRequestId"), Identified(w, "baseSha"), Identified(w, "headSha"),
       Chosen("status", ["ready", "blocked", "needs_human_approval", "failed"]),
       Property("blockerCount", Whole(0, MAX_SAFE_INTEGER))],
      ["pullRequestId", "status", "blockerCount"],
      [When(Is("status", Constant("ready")), Constrains([Property("blockerCount", ConstantNumber(0))]), None)])
  }

  function HandoffObservation(w: Wording): Shape {
    Observation(w,
      [Chosen("status", ["open", "accepted", "closed"]), Identified(w, "fromActorId"), Identified(w, "toActorId"),
       Identified(w, "issueId"), Identified(w, "pullRequestId"), Identified(w, "workflowRunId"), Dated(w, "createdAt"),
       Dated(w, "closedAt")],
      ["status", "fromActorId", "toActorId", "createdAt"],
      [When(Is("status", Constant("closed")), Present("closedAt"), Some(Refuses(Present("closedAt"))))])
  }

  function DecisionObservation(w: Wording): Shape {
    Observation(w,
      [Property("topic", FreeText()), Chosen("status", ["active", "superseded"]), Identified(w, "decidedByActorId"),
       Identified(w, "issueId"), Identified(w, "pullRequestId"), Identified(w, "workflowRunId"), Dated(w, "createdAt"),
       Dated(w, "supersededAt")],
      ["topic", "status", "decidedByActorId", "createdAt"],
      [When(Is("status", Constant("superseded")), Present("supersededAt"), Some(Refuses(Present("supersededAt"))))])
  }

  /** The name of the definition of one kind of observation. */
  function ObservationName(kind: DefinitionName): DefinitionName {
    kind + "Observation"
  }

  type ObservedKind = s: string | s != [] && s[0] != '$' && '/' !in s witness "a"

  function Defined(kind: ObservedKind, shape: Shape): Property {
    Property(ObservationName(kind), shape)
  }

  function WorkDefinitions(w: Wording): seq<Property> {
    [Defined("repository", RepositoryObservation(w)),
     Defined("actor", ActorObservation(w)),
     Defined("issue", IssueObservation(w)),
     Defined("claim", ClaimObservation(w)),
     Defined("worktree", WorktreeObservation(w))]
  }

  function ChangeDefinitions(w: Wording): seq<Property> {
    [Defined("commit", CommitObservation(w)),
     Defined("pullRequest", PullRequestObservation(w)),
     Defined("check", CheckObservation(w)),
     Defined("review", ReviewObservation(w)),
     Defined("merge", MergeObservation(w))]
  }

  function RunDefinitions(w: Wording): seq<Property> {
    [Defined("workflowRun", WorkflowRunObservation(w)), Defined("agentRun", AgentRunObservation(w))]
  }

  function ReportDefinitions(w: Wording): seq<Property> {
    [Defined("prmsReport", PrmsReportObservation(w)), Defined("handoff", HandoffObservation(w)),
     Defined("decision", DecisionObservation(w))]
  }

  function SourceDefinitions(w: Wording): seq<Property> {
    WorkDefinitions(w) + ChangeDefinitions(w) + RunDefinitions(w) + ReportDefinitions(w)
  }

  function WarningCodes(w: Wording, minItems: Option<int>): Property {
    Property("warningCodes", References(COMPLETENESS_ENTRIES, minItems, Identifier(w)))
  }

  function BatchSchema(w: Wording, kind: DefinitionName, maxItems: int): Shape {
    var items := Property("items", ArrayOf(maxItems, Definition(ObservationName(kind))));
    One([Closed([Property("status", Constant("observed")), Identified(w, "batchVersion"), Dated(w, "observedAt"), items,
                 WarningCodes(w, None)],
                ["status", "batchVersion", "observedAt", "items", "warningCodes"], []),
         Closed([Property("status", Constant("incomplete")), Identified(w, "batchVersion"), Dated(w, "observedAt"), items,
                 WarningCodes(w, Some(1))],
                ["status", "batchVersion", "observedAt", "items", "warningCodes"], []),
         Closed([Property("status", Constant("incomplete")), items, WarningCodes(w, Some(1))],
                ["status", "items", "warningCodes"], []),
         Closed([Property("status", Constant("missing")), Property("items", NoItems), Identified(w, "reasonCode")],
                ["status", "items", "reasonCode"], [])])
  }

  function Batches(w: Wording): seq<Property> {
    [Property("repository", BatchSchema(w, "repository", 1)),
     Property("actors", BatchSchema(w, "actor", 500)),
     Property("issues", BatchSchema(w, "issue", 500)),
     Property("claims", BatchSchema(w, "claim", 500)),
     Property("worktrees", BatchSchema(w, "worktree", 500)),
     Property("commits", BatchSchema(w, "commit", 500)),
     Property("pullRequests", BatchSchema(w, "pullRequest", 500)),
     Property("checks", BatchSchema(w, "check", 500))]
  }

  function MoreBatches(w: Wording): seq<Property> {
    [Property("reviews", BatchSchema(w, "review", 500)),
     Property("merges", BatchSchema(w, "merge", 500)),
     Property("workflowRuns", BatchSchema(w, "workflowRun", 500)),
     Property("agentRuns", BatchSchema(w, "agentRun", 500)),
     Property("prmsReports", BatchSchema(w, "prmsReport", 500)),
     Property("handoffs", BatchSchema(w, "handoff", 500)),
     Property("decisions", BatchSchema(w, "decision", 500))]
  }

  function Sources(w: Wording): Shape {
    Closed(Batches(w) + MoreBatches(w),
           ["repository", "actors", "issues", "claims", "worktrees", "commits", "pullRequests", "checks", "reviews",
            "merges", "workflowRuns", "agentRuns", "prmsReports", "handoffs", "decisions"], [])
  }

  function Root(w: Wording): (root: Shape)
    ensures root.Closed?
  {
    Closed([Property("schema", Constant(w.schema)),
            Identified(w, "scenarioDefinitionId"), Identified(w, "scenarioInstanceId"), Identified(w, "cursor"),
            Dated(w, "generatedAt"), Property("projectorVersion", Constant(w.projector)),
            Property("sources", Sources(w))],
           ["schema", "scenarioDefinitionId", "scenarioInstanceId", "cursor", "generatedAt", "projectorVersion",
            "sources"], [])
  }

  function RootIdentifiers(w: Wording): Fields {
    [("$schema", Str(w.metaSchema)), ("$id", Str(w.id))]
  }

  function RootAnnotations(w: Wording): Fields {
    [("title", Str(w.title)), ("description", Str(w.description))]
  }

  function Assembled(w: Wording, root: Shape, definitions: seq<Property>): Json {
    Obj(Object(RootIdentifiers(w) + (RootAnnotations(w) + BuiltFields(root) + DefinitionFields(definitions))))
  }

  /** The schema that the composite schema embeds. */
  function SoftwareDelivery(w: Wording): Json {
    Assembled(w, Root(w), SourceDefinitions(w))
  }

  function DefinitionFields(definitions: seq<Property>): Fields {
    [("$defs", Obj(Object(BuiltProperties(definitions))))]
  }

  /******* It can be moved *******/

  lemma IdentifiedRootIsMovable(d: Dialect, identifiers: Fields, fields: Fields)
    requires (forall i :: 0 <= i < |identifiers| ==> Dropped(identifiers[i].0)) && Fits(d, fields)
    ensures MovableRoot(d, Obj(Object(identifiers + fields)))
  {
    var whole := identifiers + fields;
    var kept := WithoutIdentifiers(Obj(Object(whole))).fields;
    forall key | key in kept ensures MovableKeyword(d, key, kept[key]) {
      var i := ObjectField(whole, key);
      assert i >= |identifiers|;
      assert whole[i] == fields[i - |identifiers|];
    }
  }

  lemma AnnotationsMove(holds: (string, Json, Json) -> bool, w: Wording)
    ensures Fits(Standard(holds), RootAnnotations(w))
  {
    Annotations();
  }

  lemma DefinitionsMove(holds: (string, Json, Json) -> bool, definitions: seq<Property>)
    ensures Fits(Standard(holds), DefinitionFields(definitions))
  {
    CollectionKeywords();
    forall i | 0 <= i < |definitions| ensures Movable(Standard(holds), Built(definitions[i].shape)) {
      BuiltMoves(holds, definitions[i].shape);
    }
    PropertiesField(Standard(holds), "$defs", definitions);
  }

  /** Any identified root over any shapes and definitions, however their data keywords are understood. */
  lemma RootMoves(holds: (string, Json, Json) -> bool, w: Wording, root: Shape, definitions: seq<Property>)
    requires !root.Anything?
    ensures Fits(Standard(holds), RootAnnotations(w) + BuiltFields(root) + DefinitionFields(definitions))
  {
    AnnotationsMove(holds, w);
    FieldsMove(holds, root);
    DefinitionsMove(holds, definitions);
    FitsConcat(Standard(holds), RootAnnotations(w), BuiltFields(root));
    FitsConcat(Standard(holds), RootAnnotations(w) + BuiltFields(root), DefinitionFields(definitions));
  }

  lemma AssembledIsMovable(holds: (string, Json, Json) -> bool, w: Wording, root: Shape, definitions: seq<Property>)
    requires !root.Anything?
    ensures MovableRoot(Standard(holds), Assembled(w, root, definitions))
  {
    RootMoves(holds, w, root, definitions);
    assert RootIdentifiers(w)[0].0 == "$schema" && RootIdentifiers(w)[1].0 == "$id";
    IdentifiedRootIsMovable(Standard(holds), RootIdentifiers(w),
                            RootAnnotations(w) + BuiltFields(root) + DefinitionFields(definitions));
  }

  /** The one schema that the source embeds meets the condition for being moved. */
  lemma SoftwareDeliveryIsMovable(holds: (string, Json, Json) -> bool, w: Wording)
    ensures MovableRoot(Standard(holds), SoftwareDelivery(w))
  {
    var root, definitions := Root(w), SourceDefinitions(w);
    AssembledIsMovable(holds, w, root, definitions);
  }

  /**
   Embedded, the source schema accepts and rejects exactly what it does on its own: for any vocabulary of data
   keywords, any composite schema around it and any instance.
   */
  lemma EmbeddedSoftwareDelivery(holds: (string, Json, Json) -> bool, w: Wording, outer: map<string, Json>,
                                 definitions: map<string, Json>, instance: Json, verdict: Verdict)
    ensures Decides(Standard(holds), Embed(outer, definitions, SoftwareDelivery(w)),
                    Obj(map["$ref" := Str(DEFINITION)]), instance, verdict) <==>
            Decides(Standard(holds), SoftwareDelivery(w), SoftwareDelivery(w), instance, verdict)
  {
    StandardDialectIsProper(holds);
    SchemaKeywords();
    SoftwareDeliveryIsMovable(holds, w);
    EmbeddedSchemaDecidesTheSame(Standard(holds), outer, definitions, SoftwareDelivery(w), instance, verdict);
  }
}
