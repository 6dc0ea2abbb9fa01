/**
 Acceptance without a depth: a verdict once reached never changes, so a schema accepts a value, rejects it,
 or decides nothing about it; and the embedded schema decides as the original does.
 */
module SchemaAcceptance {
  import opened Wrappers
  import opened JsonValues
  import opened SchemaEmbedding
  import opened SchemaMeaning

  /******* Verdicts are stable *******/

  /** What is decided at this depth is decided alike one deeper. */
  ghost predicate Settles(depth: nat, d: Dialect, root: Json) {
    forall schema, instance :: Eval(depth, d, root, schema, instance) != Stuck ==>
      Eval(depth + 1, d, root, schema, instance) == Eval(depth, d, root, schema, instance)
  }

  lemma {:induction false} NoneStuck(verdicts: seq<Verdict>)
    requires Count(verdicts, Stuck) == 0
    ensures forall i :: 0 <= i < |verdicts| ==> verdicts[i] != Stuck
  {
    if verdicts != [] {
      NoneStuck(verdicts[1..]);
      assert forall i :: 1 <= i < |verdicts| ==> verdicts[i] == verdicts[1..][i - 1];
    }
  }

  lemma ListSettles(depth: nat, d: Dialect, root: Json, schemas: seq<Json>, instance: Json)
    requires Settles(depth, d, root) && Count(ListVerdicts(depth, d, root, schemas, instance), Stuck) == 0
    ensures ListVerdicts(depth + 1, d, root, schemas, instance) == ListVerdicts(depth, d, root, schemas, instance)
  {
    var verdicts := ListVerdicts(depth, d, root, schemas, instance);
    NoneStuck(verdicts);
    forall i | 0 <= i < |schemas|
      ensures Eval(depth + 1, d, root, schemas[i], instance) == Eval(depth, d, root, schemas[i], instance)
    {
      assert verdicts[i] != Stuck;
    }
  }

  lemma ItemsSettle(depth: nat, d: Dialect, root: Json, schema: Json, items: seq<Json>)
    requires Settles(depth, d, root) && Count(ItemVerdicts(depth, d, root, schema, items), Stuck) == 0
    ensures ItemVerdicts(depth + 1, d, root, schema, items) == ItemVerdicts(depth, d, root, schema, items)
  {
    var verdicts := ItemVerdicts(depth, d, root, schema, items);
    NoneStuck(verdicts);
    forall i | 0 <= i < |items|
      ensures Eval(depth + 1, d, root, schema, items[i]) == Eval(depth, d, root, schema, items[i])
    {
      assert verdicts[i] != Stuck;
    }
  }

  lemma PropertiesSettle(depth: nat, d: Dialect, root: Json, properties: map<string, Json>, instance: map<string, Json>)
    requires Settles(depth, d, root) && All(PropertyVerdicts(depth, d, root, properties, instance)) != Stuck
    ensures PropertyVerdicts(depth + 1, d, root, properties, instance) ==
            PropertyVerdicts(depth, d, root, properties, instance)
  {
    var verdicts := PropertyVerdicts(depth, d, root, properties, instance);
    forall name | name in properties && name in instance
      ensures Eval(depth + 1, d, root, properties[name], instance[name]) ==
              Eval(depth, d, root, properties[name], instance[name])
    {
      assert name in verdicts && verdicts[name] != Stuck;
    }
  }

  lemma AdditionalSettles(depth: nat, d: Dialect, root: Json, fields: map<string, Json>, schema: Json,
                          instance: map<string, Json>)
    requires Settles(depth, d, root) && All(AdditionalVerdicts(depth, d, root, fields, schema, instance)) != Stuck
    ensures AdditionalVerdicts(depth + 1, d, root, fields, schema, instance) ==
            AdditionalVerdicts(depth, d, root, fields, schema, instance)
  {
    var verdicts := AdditionalVerdicts(depth, d, root, fields, schema, instance);
    forall name | name in instance && !Listed(fields, name)
      ensures Eval(depth + 1, d, root, schema, instance[name]) == Eval(depth, d, root, schema, instance[name])
    {
      assert name in verdicts && verdicts[name] != Stuck;
    }
  }

  lemma ArrayKeywordSettles(depth: nat, d: Dialect, root: Json, fields: map<string, Json>, key: string, instance: Json)
    requires Settles(depth, d, root) && key in fields
    requires d.kindOf(key).List? || d.kindOf(key).Items?
    requires ApplicatorVerdict(depth, d, root, fields, key, instance) != Stuck
    ensures ApplicatorVerdict(depth + 1, d, root, fields, key, instance) ==
            ApplicatorVerdict(depth, d, root, fields, key, instance)
  {
    var value := fields[key];
    if d.kindOf(key).List? {
      ListSettles(depth, d, root, value.items, instance);
    } else if instance.Arr? {
      ItemsSettle(depth, d, root, value, instance.items);
    }
  }

  lemma ObjectKeywordSettles(depth: nat, d: Dialect, root: Json, fields: map<string, Json>, key: string, instance: Json)
    requires Settles(depth, d, root) && key in fields
    requires d.kindOf(key).Properties? || d.kindOf(key).Additional?
    requires ApplicatorVerdict(depth, d, root, fields, key, instance) != Stuck
    ensures ApplicatorVerdict(depth + 1, d, root, fields, key, instance) ==
            ApplicatorVerdict(depth, d, root, fields, key, instance)
  {
    var value := fields[key];
    if instance.Obj? {
      if d.kindOf(key).Properties? {
        PropertiesSettle(depth, d, root, value.fields, instance.fields);
      } else {
        AdditionalSettles(depth, d, root, fields, value, instance.fields);
      }
    }
  }

  lemma BranchSettles(depth: nat, d: Dialect, root: Json, fields: map<string, Json>, key: string, instance: Json)
    requires Settles(depth, d, root) && BranchVerdict(depth, d, root, fields, key, instance) != Stuck
    ensures BranchVerdict(depth + 1, d, root, fields, key, instance) == BranchVerdict(depth, d, root, fields, key, instance)
  {
  }

  lemma ConditionSettles(depth: nat, d: Dialect, root: Json, fields: map<string, Json>, key: string, instance: Json)
    requires Settles(depth, d, root) && key in fields && d.kindOf(key).Condition?
    requires InPlaceVerdict(depth, d, root, fields, key, instance) != Stuck
    ensures InPlaceVerdict(depth + 1, d, root, fields, key, instance) ==
            InPlaceVerdict(depth, d, root, fields, key, instance)
  {
    var verdict := Eval(depth, d, root, fields[key], instance);
    assert Eval(depth + 1, d, root, fields[key], instance) == verdict;
    BranchSettles(depth, d, root, fields, if verdict == Accept then "then" else "else", instance);
  }

  lemma InPlaceSettles(depth: nat, d: Dialect, root: Json, fields: map<string, Json>, key: string, instance: Json)
    requires Settles(depth, d, root) && key in fields && InPlace(d.kindOf(key))
    requires InPlaceVerdict(depth, d, root, fields, key, instance) != Stuck
    ensures InPlaceVerdict(depth + 1, d, root, fields, key, instance) ==
            InPlaceVerdict(depth, d, root, fields, key, instance)
  {
    if d.kindOf(key).Condition? {
      ConditionSettles(depth, d, root, fields, key, instance);
    }
  }

  lemma KeywordSettles(depth: nat, d: Dialect, root: Json, fields: map<string, Json>, key: string, instance: Json)
    requires Settles(depth, d, root) && key in fields
    requires Keyword(depth, d, root, fields, key, instance) != Stuck
    ensures Keyword(depth + 1, d, root, fields, key, instance) == Keyword(depth, d, root, fields, key, instance)
  {
    match d.kindOf(key)
    case List(_) | Items =>
      ArrayKeywordSettles(depth, d, root, fields, key, instance);
    case Properties | Additional =>
      ObjectKeywordSettles(depth, d, root, fields, key, instance);
    case Reference | Negation | Condition =>
      InPlaceSettles(depth, d, root, fields, key, instance);
    case _ =>
  }

  lemma ObjectSettles(depth: nat, d: Dialect, root: Json, fields: map<string, Json>, instance: Json)
    requires Settles(depth, d, root) && All(KeywordVerdicts(depth, d, root, fields, instance)) != Stuck
    ensures KeywordVerdicts(depth + 1, d, root, fields, instance) == KeywordVerdicts(depth, d, root, fields, instance)
  {
    var verdicts := KeywordVerdicts(depth, d, root, fields, instance);
    forall key | key in fields
      ensures Keyword(depth + 1, d, root, fields, key, instance) == Keyword(depth, d, root, fields, key, instance)
    {
      assert key in verdicts && verdicts[key] != Stuck;
      KeywordSettles(depth, d, root, fields, key, instance);
    }
  }

  lemma SchemaSettles(depth: nat, d: Dialect, root: Json, schema: Json, instance: Json)
    requires Settles(depth, d, root) && Eval(depth + 1, d, root, schema, instance) != Stuck
    ensures Eval(depth + 2, d, root, schema, instance) == Eval(depth + 1, d, root, schema, instance)
  {
    if schema.Obj? {
      ObjectVerdict(depth, d, root, schema.fields, instance);
      ObjectVerdict(depth + 1, d, root, schema.fields, instance);
      ObjectSettles(depth, d, root, schema.fields, instance);
    }
  }

  /** Whatever is decided at some depth stays decided. */
  lemma {:induction false} VerdictsAreStable(depth: nat, d: Dialect, root: Json)
    ensures Settles(depth, d, root)
  {
    if depth > 0 {
      VerdictsAreStable(depth - 1, d, root);
      forall schema, instance | Eval(depth, d, root, schema, instance) != Stuck
        ensures Eval(depth + 1, d, root, schema, instance) == Eval(depth, d, root, schema, instance)
      {
        SchemaSettles(depth - 1, d, root, schema, instance);
      }
    }
  }

  lemma {:induction false} StableUpTo(depth: nat, deeper: nat, d: Dialect, root: Json, schema: Json, instance: Json)
    requires depth <= deeper && Eval(depth, d, root, schema, instance) != Stuck
    ensures Eval(deeper, d, root, schema, instance) == Eval(depth, d, root, schema, instance)
    decreases deeper - depth
  {
    if depth < deeper {
      VerdictsAreStable(depth, d, root);
      StableUpTo(depth + 1, deeper, d, root, schema, instance);
    }
  }

  /******* Acceptance *******/

  /** The schema accepts the instance, or rejects it. */
  ghost predicate Decides(d: Dialect, root: Json, schema: Json, instance: Json, verdict: Verdict) {
    verdict != Stuck && exists depth: nat :: Eval(depth, d, root, schema, instance) == verdict
  }

  /** No value is both accepted and rejected. */
  lemma DecidesOnce(d: Dialect, root: Json, schema: Json, instance: Json, verdict: Verdict, other: Verdict)
    requires Decides(d, root, schema, instance, verdict) && Decides(d, root, schema, instance, other)
    ensures verdict == other
  {
    var m: nat :| Eval(m, d, root, schema, instance) == verdict;
    var n: nat :| Eval(n, d, root, schema, instance) == other;
    if m <= n {
      StableUpTo(m, n, d, root, schema, instance);
    } else {
      StableUpTo(n, m, d, root, schema, instance);
    }
  }

  /** A reference to the new definition decides exactly as the original schema does at its own root. */
  lemma EmbeddedSchemaDecidesTheSame(d: Dialect, outer: map<string, Json>, definitions: map<string, Json>, schema: Json,
                                     instance: Json, verdict: Verdict)
    requires Proper(d) && d.kindOf("$ref") == Reference && MovableRoot(d, schema)
    ensures Decides(d, Embed(outer, definitions, schema), Obj(map["$ref" := Str(DEFINITION)]), instance, verdict) <==>
            Decides(d, schema, schema, instance, verdict)
  {
    var root, link := Embed(outer, definitions, schema), Obj(map["$ref" := Str(DEFINITION)]);
    if Decides(d, root, link, instance, verdict) {
      var n: nat :| Eval(n, d, root, link, instance) == verdict;
      EmbeddedSchemaAcceptsTheSame(n - 1, d, outer, definitions, schema, instance);
    }
    if Decides(d, schema, schema, instance, verdict) {
      var n: nat :| Eval(n, d, schema, schema, instance) == verdict;
      EmbeddedSchemaAcceptsTheSame(n, d, outer, definitions, schema, instance);
      assert Eval(n + 1, d, root, link, instance) == verdict;
    }
  }
}
