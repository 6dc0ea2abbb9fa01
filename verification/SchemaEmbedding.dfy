/**
 Moving the software-delivery schema under $defs.softwareDelivery of the composite schema
 (scripts/organization-graph-contracts/contract-to-delivery.ts) and what the move preserves:
 reference targets, and the values each schema accepts.
 */
module SchemaEmbedding {
  import opened Wrappers
  import opened JsonValues
  import opened Splitting
  import opened PointerDecoding

  const LOCAL := "#/$defs/"
  const NESTED := "#/$defs/softwareDelivery/$defs/"

  predicate Dropped(key: string) {
    key == "$schema" || key == "$id"
  }

  predicate LocalReference(v: Json) {
    v.Str? && LOCAL <= v.s
  }

  /** The transformation. */
  function Rewrite(v: Json): Json
    decreases v, 0
  {
    match v
    case Arr(items) => Arr(seq(|items|, i requires 0 <= i < |items| => Rewrite(items[i])))
    case Obj(fields) => Obj(map key | key in fields && !Dropped(key) :: RewriteItem(fields[key]))
    case _ => v
  }

  /** A field's value; only here is a local reference recognised. */
  function RewriteItem(item: Json): Json
    decreases item, 1
  {
    if LocalReference(item) then Str(NESTED + item.s[|LOCAL|..]) else Rewrite(item)
  }

  /** The composite schema with the rewritten one in its place among the definitions. */
  function Embed(outer: map<string, Json>, definitions: map<string, Json>, schema: Json): Json {
    Obj(outer["$defs" := Obj(definitions["softwareDelivery" := Rewrite(schema)])])
  }

  /******* When rewriting a value changes nothing *******/

  /** No object in v has a dropped key, and none has a local reference as a field. */
  predicate Inert(v: Json)
    decreases v, 0
  {
    match v
    case Arr(items) => forall i :: 0 <= i < |items| ==> Inert(items[i])
    case Obj(fields) => forall key :: key in fields ==> !Dropped(key) && InertItem(fields[key])
    case _ => true
  }

  predicate InertItem(item: Json)
    decreases item, 1
  {
    !LocalReference(item) && Inert(item)
  }

  lemma {:induction false} RewriteUnchangedIff(v: Json)
    ensures Inert(v) <==> Rewrite(v) == v
    decreases v, 0
  {
    match v
    case Arr(items) =>
      forall i | 0 <= i < |items| ensures Inert(items[i]) <==> Rewrite(items[i]) == items[i] {
        RewriteUnchangedIff(items[i]);
      }
      var rewritten := seq(|items|, i requires 0 <= i < |items| => Rewrite(items[i]));
      assert Rewrite(v) == Arr(rewritten);
      assert (forall i :: 0 <= i < |items| ==> Rewrite(items[i]) == items[i]) ==> rewritten == items;
      if rewritten == items {
        forall i | 0 <= i < |items| ensures Rewrite(items[i]) == items[i] {
          assert rewritten[i] == items[i];
        }
      }
    case Obj(fields) =>
      forall key | key in fields ensures InertItem(fields[key]) <==> RewriteItem(fields[key]) == fields[key] {
        RewriteItemUnchangedIff(fields[key]);
      }
      var rewritten := map key | key in fields && !Dropped(key) :: RewriteItem(fields[key]);
      assert Rewrite(v) == Obj(rewritten);
      if Inert(v) {
        assert rewritten == fields;
      }
      if rewritten == fields {
        forall key | key in fields ensures !Dropped(key) && RewriteItem(fields[key]) == fields[key] {
          assert key in rewritten && rewritten[key] == fields[key];
        }
      }
    case _ =>
  }

  /** Exactly the inert items keep their value under the transformation. */
  lemma {:induction false} RewriteItemUnchangedIff(item: Json)
    ensures InertItem(item) <==> RewriteItem(item) == item
    decreases item, 1
  {
    if LocalReference(item) {
      assert |RewriteItem(item).s| > |item.s|;
    } else {
      RewriteUnchangedIff(item);
    }
  }

  /******* References *******/

  /** The value a decoded pointer reaches. */
  function Resolve(v: Json, tokens: seq<string>): Option<Json>
    decreases tokens
  {
    if tokens == [] then Some(v)
    else
      match v
      case Obj(fields) => if tokens[0] in fields then Resolve(fields[tokens[0]], tokens[1..]) else None
      case Arr(items) =>
        (match Element(items, tokens[0])
         case Some(item) => Resolve(item, tokens[1..])
         case None => None)
      case _ => None
  }

  function Tokens(reference: string): seq<string>
    requires |reference| >= 2
  {
    Decoded(Split(reference[2..], '/'))
  }

  /** The path enters some object of v through a key the transformation drops. */
  predicate ThroughDropped(v: Json, tokens: seq<string>)
    decreases tokens
  {
    tokens != [] &&
    match v
    case Obj(fields) =>
      tokens[0] in fields && (Dropped(tokens[0]) || ThroughDropped(fields[tokens[0]], tokens[1..]))
    case Arr(items) =>
      Element(items, tokens[0]).Some? && ThroughDropped(Element(items, tokens[0]).value, tokens[1..])
    case _ => false
  }

  /** Following a path commutes with the transformation exactly when it avoids the dropped keys. */
  lemma {:induction false} ResolveCommutesIff(v: Json, tokens: seq<string>)
    requires Resolve(v, tokens).Some? ==> !Resolve(v, tokens).value.Str?
    ensures Resolve(Rewrite(v), tokens) ==
            if Resolve(v, tokens).None? || ThroughDropped(v, tokens) then None
            else Some(Rewrite(Resolve(v, tokens).value))
    decreases tokens
  {
    if tokens != [] {
      match v
      case Obj(fields) =>
        if tokens[0] in fields && !Dropped(tokens[0]) {
          var item := fields[tokens[0]];
          assert Rewrite(v).fields[tokens[0]] == RewriteItem(item);
          if item.Str? {
            assert Resolve(item, tokens[1..]).Some? <==> tokens[1..] == [];
            assert Resolve(RewriteItem(item), tokens[1..]).Some? <==> tokens[1..] == [];
          } else {
            ResolveCommutesIff(item, tokens[1..]);
          }
        }
      case Arr(items) =>
        assert |Rewrite(v).items| == |items|;
        if Element(items, tokens[0]).Some? {
          var item := Element(items, tokens[0]).value;
          assert Element(Rewrite(v).items, tokens[0]) == Some(Rewrite(item));
          ResolveCommutesIff(item, tokens[1..]);
        }
      case _ =>
    }
  }

  lemma TokenStep(part: string, rest: string)
    requires '/' !in part && '~' !in part
    ensures Decoded(Split(part + ['/'] + rest, '/')) == [part] + Decoded(Split(rest, '/'))
  {
    SplitAfterPart(part, rest, '/');
    PlainToken(part);
  }

  lemma NestedPointer(rest: string)
    ensures (NESTED + rest)[2..] == "$defs" + ['/'] + ("softwareDelivery" + ['/'] + ("$defs" + ['/'] + rest))
  {
  }

  /** A rewritten reference takes the old path below the new definition. */
  lemma RewrittenTokens(item: Json)
    requires LocalReference(item)
    ensures Tokens(RewriteItem(item).s) == ["$defs", "softwareDelivery"] + Tokens(item.s)
  {
    var rest := item.s[|LOCAL|..];
    var inner := "$defs" + ['/'] + rest;
    assert item.s[2..] == inner;
    var middle := "softwareDelivery" + ['/'] + inner;
    NestedPointer(rest);
    TokenStep("$defs", middle);
    TokenStep("softwareDelivery", inner);
    assert ["$defs"] + (["softwareDelivery"] + Tokens(item.s)) == ["$defs", "softwareDelivery"] + Tokens(item.s);
  }

  lemma {:induction false} PlainToken(token: string)
    requires '~' !in token
    ensures TwoPass(token) == token
  {
    TwoPassIsOnePass(token);
    if token != [] {
      PlainToken(token[1..]);
      TwoPassIsOnePass(token[1..]);
      assert [token[0]] + token[1..] == token;
    }
  }

  /** In the composite schema a rewritten reference reaches the rewritten target, or nothing as before. */
  lemma EmbeddedReference(outer: map<string, Json>, definitions: map<string, Json>, schema: Json, item: Json)
    requires LocalReference(item)
    requires Resolve(schema, Tokens(item.s)).Some? ==> !Resolve(schema, Tokens(item.s)).value.Str?
    ensures Resolve(Embed(outer, definitions, schema), Tokens(RewriteItem(item).s)) ==
            if Resolve(schema, Tokens(item.s)).None? || ThroughDropped(schema, Tokens(item.s)) then None
            else Some(Rewrite(Resolve(schema, Tokens(item.s)).value))
  {
    RewrittenTokens(item);
    EnterEmbedded(outer, definitions, schema, Tokens(item.s));
    ResolveCommutesIff(schema, Tokens(item.s));
  }

  lemma EnterEmbedded(outer: map<string, Json>, definitions: map<string, Json>, schema: Json, tokens: seq<string>)
    ensures Resolve(Embed(outer, definitions, schema), ["$defs", "softwareDelivery"] + tokens) ==
            Resolve(Rewrite(schema), tokens)
  {
    var path := ["$defs", "softwareDelivery"] + tokens;
    assert path[0] == "$defs" && path[1..] == ["softwareDelivery"] + tokens;
    assert path[1..][0] == "softwareDelivery" && path[1..][1..] == tokens;
  }
}
