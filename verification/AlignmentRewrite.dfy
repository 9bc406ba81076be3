/** The recursive rewrite of legacy caption alignments (internal/editmigration/journal.go).
    Each legacy object is reshaped before the walk descends into it, so the document
    grows on the way down; the walk ends because legacy objects nest finitely deep. */
module AlignmentRewrite {
  import opened Json

  const LEGACY_TYPE := "put-caption-alignment"
  const UNIFIED_TYPE := "put-alignment"
  const CAPTION_KEYS: set<string> := {"captionId", "captionRevision", "captionLocalRange"}

  datatype RewriteError = PayloadMissing | TargetIncomplete

  predicate IsLegacy(v: Json) {
    HasType(v, LEGACY_TYPE)
  }

  predicate HasPayload(v: Json) {
    Field(v, "alignment").Obj?
  }

  predicate Promotable(v: Json) {
    HasPayload(v) && CAPTION_KEYS <= v.fields["alignment"].fields.Keys
  }

  /** The single caption target that replaces the three caption keys. */
  function CaptionTarget(id: Json, revision: Json, range: Json): (r: Json) {
    Arr([Obj(map[
      "type" := Str("caption"),
      "caption" := Obj(map["captionId" := id, "captionRevision" := revision, "localRange" := range])])])
  }

  function PromoteAlignment(a: map<string, Json>): (r: map<string, Json>)
    requires CAPTION_KEYS <= a.Keys
  {
    a["targets" := CaptionTarget(a["captionId"], a["captionRevision"], a["captionLocalRange"])] - CAPTION_KEYS
  }

  function Promote(v: Json): (r: Json)
    requires IsLegacy(v) && Promotable(v)
  {
    Obj(v.fields["alignment" := Obj(PromoteAlignment(v.fields["alignment"].fields))]["type" := Str(UNIFIED_TYPE)])
  }

  /** The document whose children the walk visits. */
  function Opened(v: Json): (r: Json)
    ensures r.Obj? <==> v.Obj?
  {
    if IsLegacy(v) && Promotable(v) then Promote(v) else v
  }

  // ----- Termination: nesting of legacy objects -----

  /** At most n legacy objects lie on any path into v. */
  ghost predicate Nested(v: Json, n: nat)
    decreases v
  {
    match v
    case Arr(items) => forall i :: 0 <= i < |items| ==> Nested(items[i], n)
    case Obj(m) =>
      if IsLegacy(v) then n > 0 && forall k :: k in m ==> Nested(m[k], n - 1)
      else forall k :: k in m ==> Nested(m[k], n)
    case _ => true
  }

  lemma {:induction false} NestedMonotone(v: Json, n: nat, m: nat)
    requires Nested(v, n) && n <= m
    ensures Nested(v, m)
    decreases v
  {
    match v
    case Arr(items) =>
      forall i | 0 <= i < |items| ensures Nested(items[i], m) { NestedMonotone(items[i], n, m); }
    case Obj(f) =>
      forall k | k in f ensures if IsLegacy(v) then Nested(f[k], m - 1) else Nested(f[k], m) {
        if IsLegacy(v) { NestedMonotone(f[k], n - 1, m - 1); } else { NestedMonotone(f[k], n, m); }
      }
    case _ =>
  }

  lemma {:induction false} ItemsNested(v: Json, count: nat) returns (n: nat)
    requires v.Arr? && count <= |v.items|
    ensures forall i :: 0 <= i < count ==> Nested(v.items[i], n)
    decreases v, 0, count
  {
    n := 0;
    if count > 0 {
      var rest := ItemsNested(v, count - 1);
      var last := NestingExists(v.items[count - 1]);
      n := if rest < last then last else rest;
      forall i | 0 <= i < count ensures Nested(v.items[i], n) {
        NestedMonotone(v.items[i], if i == count - 1 then last else rest, n);
      }
    }
  }

  lemma {:induction false} FieldsNested(v: Json, keys: set<string>) returns (n: nat)
    requires v.Obj? && keys <= v.fields.Keys
    ensures forall k :: k in keys ==> Nested(v.fields[k], n)
    decreases v, 0, |keys|
  {
    n := 0;
    if keys != {} {
      var key :| key in keys;
      var rest := FieldsNested(v, keys - {key});
      var last := NestingExists(v.fields[key]);
      n := if rest < last then last else rest;
      forall k | k in keys ensures Nested(v.fields[k], n) {
        NestedMonotone(v.fields[k], if k == key then last else rest, n);
      }
    }
  }

  lemma {:induction false} NestingExists(v: Json) returns (n: nat)
    ensures Nested(v, n)
    decreases v, 1
  {
    n := 0;
    if v.Arr? {
      n := ItemsNested(v, |v.items|);
    } else if v.Obj? {
      n := FieldsNested(v, v.fields.Keys);
      if IsLegacy(v) { n := n + 1; }
    }
  }

  ghost predicate Deepest(v: Json, n: nat) {
    Nested(v, n) && forall m: nat :: Nested(v, m) ==> n <= m
  }

  lemma {:induction false} DeepestBelow(v: Json, n: nat) returns (least: nat)
    requires Nested(v, n)
    ensures Deepest(v, least)
  {
    if m: nat :| m < n && Nested(v, m) {
      least := DeepestBelow(v, m);
    } else {
      least := n;
    }
  }

  /** The deepest nesting of legacy objects in v. */
  ghost function Nesting(v: Json): (n: nat)
    ensures Deepest(v, n)
  {
    assert exists n: nat :: Deepest(v, n) by {
      var bound := NestingExists(v);
      var least := DeepestBelow(v, bound);
    }
    var n: nat :| Deepest(v, n);
    n
  }

  /** v is visited by the walk below parent. */
  ghost predicate Child(v: Json, parent: Json) {
    match parent
    case Arr(items) => v in items
    case Obj(m) => exists k :: k in m && v == m[k]
    case _ => false
  }

  lemma NestedTarget(a: map<string, Json>, n: nat)
    requires CAPTION_KEYS <= a.Keys
    requires forall k :: k in a ==> Nested(a[k], n)
    ensures Nested(CaptionTarget(a["captionId"], a["captionRevision"], a["captionLocalRange"]), n)
  {
    var caption := Obj(map["captionId" := a["captionId"], "captionRevision" := a["captionRevision"],
                           "localRange" := a["captionLocalRange"]]);
    assert !IsLegacy(caption) && Nested(caption, n);
    var target := Obj(map["type" := Str("caption"), "caption" := caption]);
    assert !IsLegacy(target) && Nested(target, n);
  }

  /** Promoting removes one level of legacy nesting although it adds levels of objects. */
  lemma PromoteLowers(v: Json, n: nat)
    requires IsLegacy(v) && Promotable(v) && Nested(v, n)
    ensures n > 0 && Nested(Promote(v), n - 1)
  {
    var alignment := v.fields["alignment"];
    var promoted := Obj(PromoteAlignment(alignment.fields));
    assert Nested(alignment, n - 1);
    assert IsLegacy(alignment) == IsLegacy(promoted);
    forall k | k in promoted.fields
      ensures Nested(promoted.fields[k], if IsLegacy(alignment) then n - 2 else n - 1)
    {
      if k == "targets" { NestedTarget(alignment.fields, if IsLegacy(alignment) then n - 2 else n - 1); }
    }
    assert Nested(promoted, n - 1);
    assert !IsLegacy(Promote(v));
  }

  /** The measure of the walk: it falls at a legacy object and never rises. */
  lemma NestingFalls(v: Json, child: Json)
    requires Child(child, Opened(v))
    ensures IsLegacy(v) && Promotable(v) ==> Nesting(child) < Nesting(v)
    ensures Nesting(child) <= Nesting(v)
    ensures !(IsLegacy(v) && Promotable(v)) ==> child < v
  {
    var n := Nesting(v);
    if IsLegacy(v) && Promotable(v) {
      PromoteLowers(v, n);
      assert Nested(child, n - 1);
    } else if IsLegacy(v) {
      NestedMonotone(child, n - 1, n);
    } else {
      assert Nested(child, n);
    }
  }

  // ----- The rewrite as a function -----

  predicate Rewritable(v: Json)
    decreases Nesting(v), v
  {
    && (IsLegacy(v) ==> Promotable(v))
    && match Opened(v)
       case Arr(items) => forall i :: 0 <= i < |items| ==> (NestingFalls(v, items[i]); Rewritable(items[i]))
       case Obj(m) => forall k :: k in m ==> (NestingFalls(v, m[k]); Rewritable(m[k]))
       case _ => true
  }

  /** Every legacy object promoted, top down. */
  function Rewritten(v: Json): (r: Json)
    requires Rewritable(v)
    decreases Nesting(v), v
  {
    match Opened(v)
    case Arr(items) =>
      Arr(seq(|items|, i requires 0 <= i < |items| => NestingFalls(v, items[i]); Rewritten(items[i])))
    case Obj(m) => Obj(map k | k in m :: NestingFalls(v, m[k]); Rewritten(m[k]))
    case other => other
  }

  /** Some order of visiting the keys makes the walk over v stop with this error. */
  ghost predicate Raises(v: Json, e: RewriteError)
    decreases Nesting(v), v
  {
    if IsLegacy(v) && !Promotable(v) then
      e == if HasPayload(v) then TargetIncomplete else PayloadMissing
    else match Opened(v)
      case Arr(items) =>
        exists i :: 0 <= i < |items| && (NestingFalls(v, items[i]); Raises(items[i], e)) &&
                    forall j :: 0 <= j < i ==> Rewritable(items[j])
      case Obj(m) => exists k :: k in m && (NestingFalls(v, m[k]); Raises(m[k], e))
      case _ => false
  }

  // ----- The rewrite as the source runs it -----

  /** Success and the rewritten document do not depend on the order in which keys are
      visited; only the choice among the errors does. */
  method RewriteAlignmentValue(v: Json) returns (r: Result<Json, RewriteError>)
    ensures r.Ok? <==> Rewritable(v)
    ensures r.Ok? ==> r.value == Rewritten(v)
    ensures r.Err? ==> Raises(v, r.error)
    decreases Nesting(v), v, 1
  {
    if v.Arr? {
      r := RewriteItems(v);
    } else if v.Obj? {
      var current := v;
      if IsLegacy(v) {
        var promoted := PromoteInPlace(v);
        if promoted.Err? { return promoted; }
        current := promoted.value;
      }
      r := RewriteFields(v, current);
    } else {
      r := Ok(v);
    }
  }

  /** The reshaping of one legacy object, key by key. */
  method PromoteInPlace(v: Json) returns (r: Result<Json, RewriteError>)
    requires IsLegacy(v)
    ensures r.Ok? <==> Promotable(v)
    ensures r.Ok? ==> r.value == Promote(v)
    ensures r.Err? ==> Raises(v, r.error)
  {
    if !HasPayload(v) { return Err(PayloadMissing); }
    var current := v.fields;
    var alignment := current["alignment"].fields;
    if "captionId" !in alignment || "captionRevision" !in alignment || "captionLocalRange" !in alignment {
      return Err(TargetIncomplete);
    }
    alignment := alignment["targets" := CaptionTarget(
      alignment["captionId"], alignment["captionRevision"], alignment["captionLocalRange"])];
    alignment := alignment - {"captionId"};
    alignment := alignment - {"captionRevision"};
    alignment := alignment - {"captionLocalRange"};
    assert alignment == PromoteAlignment(current["alignment"].fields);
    current := current["alignment" := Obj(alignment)];
    current := current["type" := Str(UNIFIED_TYPE)];
    r := Ok(Obj(current));
  }

  method RewriteItems(v: Json) returns (r: Result<Json, RewriteError>)
    requires v.Arr?
    ensures r.Ok? <==> Rewritable(v)
    ensures r.Ok? ==> r.value == Rewritten(v)
    ensures r.Err? ==> Raises(v, r.error)
    decreases Nesting(v), v, 0
  {
    var done: seq<Json> := [];
    for index := 0 to |v.items|
      invariant |done| == index
      invariant forall i :: 0 <= i < index ==> Rewritable(v.items[i]) && done[i] == Rewritten(v.items[i])
    {
      NestingFalls(v, v.items[index]);
      var item := RewriteAlignmentValue(v.items[index]);
      if item.Err? { return item; }
      done := done + [item.value];
    }
    r := Ok(Arr(done));
  }

  lemma FieldsDone(v: Json, done: map<string, Json>)
    requires v.Obj? && (IsLegacy(v) ==> Promotable(v)) && done.Keys == Opened(v).fields.Keys
    requires forall k :: k in done ==>
                           Rewritable(Opened(v).fields[k]) && done[k] == Rewritten(Opened(v).fields[k])
    ensures Rewritable(v) && Rewritten(v) == Obj(done)
  {
    hide Opened, IsLegacy, Promotable;
  }

  lemma FieldFails(v: Json, key: string, e: RewriteError)
    requires v.Obj? && (IsLegacy(v) ==> Promotable(v)) && key in Opened(v).fields
    requires !Rewritable(Opened(v).fields[key]) && Raises(Opened(v).fields[key], e)
    ensures !Rewritable(v) && Raises(v, e)
  {
    hide Opened, IsLegacy, Promotable;
  }

  /** Go ranges over a map in no fixed order: each round takes any key still pending. */
  method RewriteFields(v: Json, visited: Json) returns (r: Result<Json, RewriteError>)
    requires v.Obj? && (IsLegacy(v) ==> Promotable(v)) && visited == Opened(v)
    ensures r.Ok? <==> Rewritable(v)
    ensures r.Ok? ==> r.value == Rewritten(v)
    ensures r.Err? ==> Raises(v, r.error)
    decreases Nesting(v), v, 0
  {
    var current := visited.fields;
    var pending := current.Keys;
    while pending != {}
      invariant pending <= visited.fields.Keys == current.Keys
      invariant forall k :: k in pending ==> current[k] == visited.fields[k]
      invariant forall k :: k in visited.fields && k !in pending ==>
                              Rewritable(visited.fields[k]) && current[k] == Rewritten(visited.fields[k])
      decreases |pending|
    {
      var key :| key in pending;
      NestingFalls(v, visited.fields[key]);
      var item := RewriteAlignmentValue(current[key]);
      if item.Err? {
        FieldFails(v, key, item.error);
        return item;
      }
      current := current[key := item.value];
      pending := pending - {key};
    }
    FieldsDone(v, current);
    r := Ok(Obj(current));
  }

  // ----- What the rewrite guarantees -----

  /** No object at any depth still carries the legacy type. */
  ghost predicate FreeOf(v: Json, name: string)
    decreases v
  {
    && !HasType(v, name)
    && match v
       case Arr(items) => forall i :: 0 <= i < |items| ==> FreeOf(items[i], name)
       case Obj(m) => forall k :: k in m ==> FreeOf(m[k], name)
       case _ => true
  }

  lemma {:induction false} FreeOfIff(v: Json, name: string)
    ensures FreeOf(v, name) <==> forall w :: Occurs(w, v) ==> !HasType(w, name)
    decreases v
  {
    if v.Arr? {
      forall i | 0 <= i < |v.items| { FreeOfIff(v.items[i], name); }
    } else if v.Obj? {
      forall k | k in v.fields { FreeOfIff(v.fields[k], name); }
    }
  }

  lemma {:induction false} RewrittenHasNoLegacy(v: Json)
    requires Rewritable(v)
    ensures FreeOf(Rewritten(v), LEGACY_TYPE)
    decreases Nesting(v), v
  {
    match Opened(v)
    case Arr(items) =>
      forall i | 0 <= i < |items| ensures FreeOf(Rewritten(items[i]), LEGACY_TYPE) {
        NestingFalls(v, items[i]);
        RewrittenHasNoLegacy(items[i]);
      }
    case Obj(m) =>
      forall k | k in m ensures FreeOf(Rewritten(m[k]), LEGACY_TYPE) {
        NestingFalls(v, m[k]);
        RewrittenHasNoLegacy(m[k]);
      }
    case _ =>
  }

  lemma {:induction false} RewriteKeepsModern(v: Json)
    requires FreeOf(v, LEGACY_TYPE)
    ensures Rewritable(v) && Rewritten(v) == v
    decreases v
  {
    match v
    case Arr(items) =>
      forall i | 0 <= i < |items| ensures Rewritable(items[i]) && Rewritten(items[i]) == items[i] {
        RewriteKeepsModern(items[i]);
      }
    case Obj(m) =>
      forall k | k in m ensures Rewritable(m[k]) && Rewritten(m[k]) == m[k] {
        RewriteKeepsModern(m[k]);
      }
    case _ =>
  }

  lemma RewriteIdempotent(v: Json)
    requires Rewritable(v)
    ensures Rewritable(Rewritten(v)) && Rewritten(Rewritten(v)) == Rewritten(v)
  {
    RewrittenHasNoLegacy(v);
    RewriteKeepsModern(Rewritten(v));
  }

  /** Rewriting a payload and then reading one of its columns is rewriting the column. */
  lemma RewriteCommutesWithField(payload: Json, key: string)
    requires payload.Obj? && key in payload.fields && key != "type" && key != "alignment"
    requires Rewritable(payload)
    ensures Rewritable(payload.fields[key])
    ensures Field(Rewritten(payload), key) == Rewritten(payload.fields[key])
  {
    var o := Opened(payload);
    assert o.fields[key] == payload.fields[key];
    NestingFalls(payload, o.fields[key]);
  }

  // ----- The shapes themselves -----

  /** Which objects are legacy, and which of them are refused and how. */
  lemma LegacyShape(v: Json)
    ensures IsLegacy(v) <==> v.Obj? && "type" in v.fields && v.fields["type"] == Str("put-caption-alignment")
    ensures IsLegacy(v) ==>
              var payload := "alignment" in v.fields && v.fields["alignment"].Obj?;
              && (Raises(v, PayloadMissing) && !Rewritable(v) <== !payload)
              && (payload && !({"captionId", "captionRevision", "captionLocalRange"} <= v.fields["alignment"].fields.Keys) ==>
                    Raises(v, TargetIncomplete) && !Rewritable(v) && !Raises(v, PayloadMissing))
    ensures v.Obj? && "alignment" in v.fields && v.fields["alignment"].Obj? ==>
              (Promotable(v) <==> {"captionId", "captionRevision", "captionLocalRange"} <= v.fields["alignment"].fields.Keys)
  {
  }

  /** The object that takes a legacy object's place, key by key. */
  lemma PromotedShape(v: Json)
    requires IsLegacy(v) && Promotable(v)
    ensures var w, before := Promote(v), v.fields["alignment"].fields;
      && w.Obj? && w.fields.Keys == v.fields.Keys && w.fields["type"] == Str("put-alignment") && w.fields["alignment"].Obj?
      && (forall k :: k in v.fields && k != "type" && k != "alignment" ==> w.fields[k] == v.fields[k])
      && var after := w.fields["alignment"].fields;
         && after.Keys == before.Keys - {"captionId", "captionRevision", "captionLocalRange"} + {"targets"}
         && (forall k :: k in after && k != "targets" ==> after[k] == before[k])
         && after["targets"] == Arr([Obj(map[
              "type" := Str("caption"),
              "caption" := Obj(map[
                "captionId" := before["captionId"],
                "captionRevision" := before["captionRevision"],
                "localRange" := before["captionLocalRange"]])])])
  {
  }

  // ----- Nothing is lost -----

  predicate Demotable(v: Json) {
    && HasType(v, UNIFIED_TYPE)
    && HasPayload(v)
    && Field(v.fields["alignment"], "targets").Arr?
    && |Field(v.fields["alignment"], "targets").items| == 1
    && var caption := Field(Field(v.fields["alignment"], "targets").items[0], "caption");
       caption.Obj? && {"captionId", "captionRevision", "localRange"} <= caption.fields.Keys
  }

  function Demote(v: Json): (r: Json)
    requires Demotable(v)
  {
    var alignment := v.fields["alignment"].fields;
    var caption := Field(alignment["targets"].items[0], "caption").fields;
    Obj(v.fields[
      "alignment" := Obj((alignment - {"targets"})[
        "captionId" := caption["captionId"]][
        "captionRevision" := caption["captionRevision"]][
        "captionLocalRange" := caption["localRange"]])][
      "type" := Str(LEGACY_TYPE)])
  }

  /** Restores every unified alignment to its legacy shape, bottom up. */
  function Restored(v: Json): (r: Json)
    decreases v
  {
    match v
    case Arr(items) => Arr(seq(|items|, i requires 0 <= i < |items| => Restored(items[i])))
    case Obj(m) =>
      var inner := Obj(map k | k in m :: Restored(m[k]));
      if Demotable(inner) then Demote(inner) else inner
    case _ => v
  }

  /** A document free of the new type, whose legacy payloads lack the key the rewrite adds. */
  ghost predicate PreUnified(v: Json)
    decreases v
  {
    && !HasType(v, UNIFIED_TYPE)
    && (IsLegacy(v) && HasPayload(v) ==> "targets" !in v.fields["alignment"].fields)
    && match v
       case Arr(items) => forall i :: 0 <= i < |items| ==> PreUnified(items[i])
       case Obj(m) => forall k :: k in m ==> PreUnified(m[k])
       case _ => true
  }

  lemma DemoteUndoesPromote(v: Json)
    requires IsLegacy(v) && Promotable(v) && "targets" !in v.fields["alignment"].fields
    ensures Demotable(Promote(v)) && Demote(Promote(v)) == v
  {
    var a := v.fields["alignment"].fields;
    var p := Promote(v);
    assert p.fields["alignment"].fields == PromoteAlignment(a);
    assert Demote(p).fields["alignment"].fields == a;
    assert Demote(p).fields == v.fields;
  }

  lemma TargetPreUnified(id: Json, revision: Json, range: Json)
    requires PreUnified(id) && PreUnified(revision) && PreUnified(range)
    ensures PreUnified(CaptionTarget(id, revision, range))
  {
    var caption := Obj(map["captionId" := id, "captionRevision" := revision, "localRange" := range]);
    assert PreUnified(caption);
    var target := Obj(map["type" := Str("caption"), "caption" := caption]);
    assert PreUnified(target);
  }

  lemma PromotedChildPreUnified(v: Json, key: string)
    requires IsLegacy(v) && Promotable(v) && PreUnified(v) && key in Promote(v).fields
    ensures PreUnified(Promote(v).fields[key])
  {
    if key == "alignment" {
      var a := v.fields["alignment"];
      assert PreUnified(a);
      TargetPreUnified(a.fields["captionId"], a.fields["captionRevision"], a.fields["captionLocalRange"]);
      var promoted := Obj(PromoteAlignment(a.fields));
      assert Field(promoted, "alignment") == Field(a, "alignment");
      assert PreUnified(promoted);
    }
  }

  lemma {:induction false} RestoredUndoesRewritten(v: Json)
    requires Rewritable(v) && PreUnified(v)
    ensures Restored(Rewritten(v)) == v
    decreases Nesting(v), v
  {
    match Opened(v)
    case Arr(items) =>
      forall i | 0 <= i < |items| ensures Restored(Rewritten(items[i])) == items[i] {
        NestingFalls(v, items[i]);
        RestoredUndoesRewritten(items[i]);
      }
    case Obj(m) =>
      forall k | k in m ensures Restored(Rewritten(m[k])) == m[k] {
        NestingFalls(v, m[k]);
        if IsLegacy(v) { PromotedChildPreUnified(v, k); }
        RestoredUndoesRewritten(m[k]);
      }
      FieldsRestored(v, m);
    case _ =>
  }

  lemma FieldsRestored(v: Json, m: map<string, Json>)
    requires Rewritable(v) && PreUnified(v) && Opened(v) == Obj(m)
    requires forall k :: k in m ==> Rewritable(m[k]) && Restored(Rewritten(m[k])) == m[k]
    ensures Restored(Rewritten(v)) == v
  {
    var done := map k | k in m :: Rewritten(m[k]);
    assert Rewritten(v) == Obj(done);
    hide Rewritten, Rewritable, Restored, Demote, Demotable, Promote, Opened;
    RestoredFields(done, m);
    if IsLegacy(v) {
      LegacyIsPromoted(v);
      DemoteUndoesPromote(v);
    } else {
      ModernStays(v);
    }
  }

  lemma RestoredFields(done: map<string, Json>, m: map<string, Json>)
    requires done.Keys == m.Keys && forall k :: k in m ==> Restored(done[k]) == m[k]
    ensures Restored(Obj(done)) == if Demotable(Obj(m)) then Demote(Obj(m)) else Obj(m)
  {
    hide Demote, Demotable;
    var inner := map k | k in done :: Restored(done[k]);
    assert inner == m;
  }

  lemma LegacyIsPromoted(v: Json)
    requires IsLegacy(v) && Rewritable(v) && PreUnified(v)
    ensures Promotable(v) && Opened(v) == Promote(v) && "targets" !in v.fields["alignment"].fields
  {
  }

  lemma ModernStays(v: Json)
    requires !IsLegacy(v) && PreUnified(v)
    ensures Opened(v) == v && !Demotable(v)
  {
  }

  /** The condition on the added key is needed: whatever a legacy payload already held there
      is overwritten, so documents that differ only there have one image. */
  lemma TargetsKeyIsOverwritten(v: Json, lost: Json)
    requires IsLegacy(v) && Promotable(v) && Rewritable(v)
    ensures var payload := v.fields["alignment"].fields["targets" := lost];
            var w := Obj(v.fields["alignment" := Obj(payload)]);
            Rewritable(w) && Rewritten(w) == Rewritten(v)
  {
    var payload := v.fields["alignment"].fields["targets" := lost];
    var w := Obj(v.fields["alignment" := Obj(payload)]);
    assert PromoteAlignment(payload) == PromoteAlignment(v.fields["alignment"].fields);
    assert Promote(w).fields == Promote(v).fields;
  }
}
