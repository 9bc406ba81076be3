/** The v4 to v5 rewrite of Narrative leaf operations (internal/editmigration/schema_v5.go). */
module NarrativeRewrite {
  import opened Json

  const AUTHORED_TYPE := "put-authored-text"
  const EXCERPT_TYPE := "put-source-excerpt"
  const NODE_TYPE := "put-narrative-node"

  datatype NarrativeError = NotAnObject | AuthoredTextInvalid | SourceExcerptInvalid | UnexpectedNode

  /** The operations the rewrite reshapes. */
  predicate IsLeaf(op: Json) {
    HasType(op, AUTHORED_TYPE) || HasType(op, EXCERPT_TYPE)
  }

  function Refusal(op: Json): (r: Option<NarrativeError>) {
    if !op.Obj? then Some(NotAnObject)
    else if HasType(op, AUTHORED_TYPE) && !Field(op, "authoredText").Obj? then Some(AuthoredTextInvalid)
    else if HasType(op, EXCERPT_TYPE) && !Field(op, "sourceExcerpt").Obj? then Some(SourceExcerptInvalid)
    else if HasType(op, NODE_TYPE) then Some(UnexpectedNode)
    else None
  }

  predicate Accepted(ops: seq<Json>) {
    forall i :: 0 <= i < |ops| ==> Refusal(ops[i]) == None
  }

  /** One leaf operation as a typed node; every other operation as it is. */
  function Wrapped(op: Json): (r: Json)
    requires Refusal(op) == None
  {
    if HasType(op, AUTHORED_TYPE) then
      var value := op.fields["authoredText"].fields["purpose" := Str("spoken")]["language" := Str("und")];
      Obj((op.fields - {"authoredText"})["type" := Str(NODE_TYPE)][
        "narrativeNode" := Obj(map["kind" := Str("authored-text"), "authoredText" := Obj(value)])])
    else if HasType(op, EXCERPT_TYPE) then
      Obj((op.fields - {"sourceExcerpt"})["type" := Str(NODE_TYPE)][
        "narrativeNode" := Obj(map["kind" := Str("source-excerpt"), "sourceExcerpt" := op.fields["sourceExcerpt"]])])
    else op
  }

  function WrappedAll(ops: seq<Json>): (r: seq<Json>)
    requires Accepted(ops)
  {
    seq(|ops|, i requires 0 <= i < |ops| => Wrapped(ops[i]))
  }

  /** The loop over the operation list: it stops at the first operation it refuses. */
  method RewriteNarrativeOperations(ops: seq<Json>) returns (r: Result<seq<Json>, NarrativeError>)
    ensures r.Ok? <==> Accepted(ops)
    ensures r.Ok? ==> r.value == WrappedAll(ops)
    ensures r.Err? ==> exists i :: 0 <= i < |ops| && Accepted(ops[..i]) && Refusal(ops[i]) == Some(r.error)
  {
    var done: seq<Json> := [];
    for index := 0 to |ops|
      invariant |done| == index && Accepted(ops[..index])
      invariant forall i :: 0 <= i < index ==> done[i] == Wrapped(ops[i])
    {
      var raw := ops[index];
      if !raw.Obj? { return Err(NotAnObject); }
      var operation := raw.fields;
      if HasType(raw, AUTHORED_TYPE) {
        if !Field(raw, "authoredText").Obj? { return Err(AuthoredTextInvalid); }
        var value := operation["authoredText"].fields;
        value := value["purpose" := Str("spoken")];
        value := value["language" := Str("und")];
        operation := operation - {"authoredText"};
        operation := operation["type" := Str(NODE_TYPE)];
        operation := operation["narrativeNode" :=
          Obj(map["kind" := Str("authored-text"), "authoredText" := Obj(value)])];
      } else if HasType(raw, EXCERPT_TYPE) {
        if !Field(raw, "sourceExcerpt").Obj? { return Err(SourceExcerptInvalid); }
        var value := operation["sourceExcerpt"];
        operation := operation - {"sourceExcerpt"};
        operation := operation["type" := Str(NODE_TYPE)];
        operation := operation["narrativeNode" :=
          Obj(map["kind" := Str("source-excerpt"), "sourceExcerpt" := value])];
      } else if HasType(raw, NODE_TYPE) {
        return Err(UnexpectedNode);
      }
      done := done + [Obj(operation)];
      assert ops[..index + 1] == ops[..index] + [raw];
    }
    assert ops[..|ops|] == ops;
    r := Ok(done);
  }

  // ----- The shapes themselves -----

  /** Which operations are refused, and how. */
  lemma RefusalShape(op: Json)
    ensures Refusal(op) == Some(NotAnObject) <==> !op.Obj?
    ensures Refusal(op) == Some(AuthoredTextInvalid) <==>
              op.Obj? && Field(op, "type") == Str("put-authored-text") && !Field(op, "authoredText").Obj?
    ensures Refusal(op) == Some(SourceExcerptInvalid) <==>
              op.Obj? && Field(op, "type") == Str("put-source-excerpt") && !Field(op, "sourceExcerpt").Obj?
    ensures Refusal(op) == Some(UnexpectedNode) <==> op.Obj? && Field(op, "type") == Str("put-narrative-node")
  {
  }

  /** What takes an operation's place, key by key. */
  lemma WrappedShape(op: Json)
    requires Refusal(op) == None
    ensures Field(op, "type") == Str("put-authored-text") ==>
              var text, w := op.fields["authoredText"].fields, Wrapped(op);
              && w.Obj? && w.fields.Keys == op.fields.Keys - {"authoredText"} + {"narrativeNode"}
              && w.fields["type"] == Str("put-narrative-node")
              && w.fields["narrativeNode"] ==
                   Obj(map["kind" := Str("authored-text"),
                           "authoredText" := Obj(text["purpose" := Str("spoken")]["language" := Str("und")])])
              && forall k :: k in w.fields && k != "type" && k != "narrativeNode" ==> w.fields[k] == op.fields[k]
    ensures Field(op, "type") == Str("put-source-excerpt") ==>
              var w := Wrapped(op);
              && w.Obj? && w.fields.Keys == op.fields.Keys - {"sourceExcerpt"} + {"narrativeNode"}
              && w.fields["type"] == Str("put-narrative-node")
              && w.fields["narrativeNode"] ==
                   Obj(map["kind" := Str("source-excerpt"), "sourceExcerpt" := op.fields["sourceExcerpt"]])
              && forall k :: k in w.fields && k != "type" && k != "narrativeNode" ==> w.fields[k] == op.fields[k]
    ensures Field(op, "type") != Str("put-authored-text") && Field(op, "type") != Str("put-source-excerpt") ==> Wrapped(op) == op
  {
  }

  // ----- Running it twice -----

  lemma WrappedLeafIsRefused(op: Json)
    requires Refusal(op) == None
    ensures IsLeaf(op) <==> Refusal(Wrapped(op)) == Some(UnexpectedNode)
    ensures !IsLeaf(op) <==> Refusal(Wrapped(op)) == None
    ensures IsLeaf(op) <==> Wrapped(op) != op
  {
    if IsLeaf(op) {
      assert HasType(Wrapped(op), NODE_TYPE) && !HasType(op, NODE_TYPE);
    }
  }

  /** A second run fails exactly when the first changed some operation. */
  lemma SecondRunFailsIffChanged(ops: seq<Json>)
    requires Accepted(ops)
    ensures !Accepted(WrappedAll(ops)) <==> WrappedAll(ops) != ops
    ensures !Accepted(WrappedAll(ops)) <==> exists i :: 0 <= i < |ops| && IsLeaf(ops[i])
  {
    var done := WrappedAll(ops);
    forall i | 0 <= i < |ops| ensures (Refusal(done[i]) != None <==> IsLeaf(ops[i])) && (done[i] != ops[i] <==> IsLeaf(ops[i])) {
      WrappedLeafIsRefused(ops[i]);
    }
    if done != ops {
      var i :| 0 <= i < |ops| && done[i] != ops[i];
    }
  }

  // ----- Nothing is lost -----

  function Unwrapped(op: Json): (r: Json) {
    var node := Field(op, "narrativeNode");
    if HasType(op, NODE_TYPE) && Field(node, "kind") == Str("authored-text") && Field(node, "authoredText").Obj? then
      Obj((op.fields - {"narrativeNode"})["type" := Str(AUTHORED_TYPE)][
        "authoredText" := Obj(Field(node, "authoredText").fields - {"purpose", "language"})])
    else if HasType(op, NODE_TYPE) && Field(node, "kind") == Str("source-excerpt") then
      Obj((op.fields - {"narrativeNode"})["type" := Str(EXCERPT_TYPE)]["sourceExcerpt" := Field(node, "sourceExcerpt")])
    else op
  }

  /** The keys the rewrite sets are not there beforehand. */
  predicate AddedKeysFree(op: Json)
    requires Refusal(op) == None
  {
    && (IsLeaf(op) ==> "narrativeNode" !in op.fields)
    && (HasType(op, AUTHORED_TYPE) ==> {"purpose", "language"} !! op.fields["authoredText"].fields.Keys)
  }

  /** The rewrite of one operation can be undone exactly when no key it sets was in use. */
  lemma UnwrappedUndoesWrappedIff(op: Json)
    requires Refusal(op) == None
    ensures Unwrapped(Wrapped(op)) == op <==> AddedKeysFree(op)
  {
    var w := Wrapped(op);
    if HasType(op, AUTHORED_TYPE) {
      var before := op.fields["authoredText"].fields;
      var value := before["purpose" := Str("spoken")]["language" := Str("und")];
      assert w.fields["narrativeNode"].fields["authoredText"] == Obj(value);
      var back := Unwrapped(w);
      assert back.fields["authoredText"] == Obj(value - {"purpose", "language"});
      if AddedKeysFree(op) {
        assert value - {"purpose", "language"} == before;
        assert back.fields == op.fields;
      } else if "narrativeNode" in op.fields {
        assert "narrativeNode" !in back.fields;
      } else {
        var key :| key in {"purpose", "language"} && key in before.Keys;
        assert key !in (value - {"purpose", "language"}).Keys;
      }
    } else if HasType(op, EXCERPT_TYPE) {
      var back := Unwrapped(w);
      if AddedKeysFree(op) {
        assert back.fields == op.fields;
      } else {
        assert "narrativeNode" !in back.fields;
      }
    }
  }
}
