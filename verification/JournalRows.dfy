/** What one migration step does to each row, said of the stored documents themselves. Every relation
    here is between the row before and the row after; the step functions meet it exactly. */
module JournalRows {
  import opened Json
  import opened EditJournal
  import AlignmentRewrite
  import Decimal
  import NarrativeRewrite

  // ----- Columns and payloads -----

  /** Item by item the narrative rewrite of the list. */
  ghost predicate ListWrapped(before: Json, after: Json) {
    && before.Arr? && after.Arr? && |after.items| == |before.items|
    && NarrativeRewrite.Accepted(before.items)
    && forall i :: 0 <= i < |before.items| ==> after.items[i] == NarrativeRewrite.Wrapped(before.items[i])
  }

  /** v1 to v2 rewrites alignments, v4 to v5 wraps narrative operations, and the steps between leave
      the text as it is. */
  ghost predicate ColumnMoves(step: Step, before: Text, after: Text) {
    if step == 1 then
      && before.Encoded? && after.Encoded?
      && AlignmentRewrite.Rewritable(before.document) && after.document == AlignmentRewrite.Rewritten(before.document)
    else if step == 4 then before.Encoded? && after.Encoded? && ListWrapped(before.document, after.document)
    else after == before
  }

  ghost predicate PayloadMoves(step: Step, before: Json, after: Json) {
    if step == 1 then AlignmentRewrite.Rewritable(before) && after == AlignmentRewrite.Rewritten(before)
    else if step == 4 then
      && before.Obj? && after.Obj? && after.fields.Keys == before.fields.Keys
      && {"operations", "inverse"} <= before.fields.Keys
      && ListWrapped(before.fields["operations"], after.fields["operations"])
      && ListWrapped(before.fields["inverse"], after.fields["inverse"])
      && forall k :: k in before.fields && k != "operations" && k != "inverse" ==> after.fields[k] == before.fields[k]
    else after == before
  }

  lemma ListWrappedIff(before: Json, after: Json)
    ensures RewrittenList(4, before) == Some(after) <==> ListWrapped(before, after)
  {
    if before.Arr? && NarrativeRewrite.Accepted(before.items) {
      var all := NarrativeRewrite.WrappedAll(before.items);
      if ListWrapped(before, after) {
        assert after.items == all;
      }
    }
  }

  lemma ColumnMovesIff(step: Step, before: Text, after: Text)
    ensures RewrittenColumn(step, before) == Some(after) <==> ColumnMoves(step, before, after)
  {
    if step == 4 && before.Encoded? && after.Encoded? {
      ListWrappedIff(before.document, after.document);
    }
  }

  lemma PayloadMovesIff(step: Step, before: Json, after: Json)
    ensures RewrittenPayload(step, before) == Some(after) <==> PayloadMoves(step, before, after)
  {
    if step == 4 {
      NarrativePayloadMovesIff(before, after);
    }
  }

  lemma NarrativePayloadMovesIff(before: Json, after: Json)
    ensures RewrittenPayload(4, before) == Some(after) <==> PayloadMoves(4, before, after)
  {
    hide RewrittenList, ListWrapped;
    var operations, inverse := RewrittenList(4, Field(before, "operations")), RewrittenList(4, Field(before, "inverse"));
    assert ListWrapped(Null, Null) == false by { ListsAreLists(Null, Null); }
    if RewrittenPayload(4, before) == Some(after) {
      ListWrappedIff(Field(before, "operations"), operations.value);
      ListWrappedIff(Field(before, "inverse"), inverse.value);
      ListsAreLists(Field(before, "operations"), operations.value);
      ListsAreLists(Field(before, "inverse"), inverse.value);
    }
    if PayloadMoves(4, before, after) {
      ListWrappedIff(before.fields["operations"], after.fields["operations"]);
      ListWrappedIff(before.fields["inverse"], after.fields["inverse"]);
      assert before.fields["operations" := operations.value]["inverse" := inverse.value] == after.fields;
    }
  }

  lemma ListsAreLists(before: Json, after: Json)
    ensures ListWrapped(before, after) ==> before.Arr? && after.Arr?
  {
  }

  // ----- Proposals -----

  /** The envelope of a payload, by its fields. */
  ghost predicate EnvelopeOf(v: Json, domain: string, schema: string, payload: Json) {
    v.Obj? && v.fields == map["domain" := Str(domain), "schema" := Str(schema), "payload" := payload]
  }

  ghost predicate ProposalMoves(d: Domain, step: Step, before: Proposal, after: Proposal) {
    && before.canonical.Encoded? && before.canonical.document.Obj?
    && Field(before.canonical.document, "domain") == Str("open-cut/edit-proposal")
    && "payload" in before.canonical.document.fields
    && after.canonical.Encoded? && after.canonical.document.Obj? && "payload" in after.canonical.document.fields
    && PayloadMoves(step, before.canonical.document.fields["payload"], after.canonical.document.fields["payload"])
    && EnvelopeOf(after.canonical.document, "open-cut/edit-proposal", after.schema, after.canonical.document.fields["payload"])
    && after.schema == ProposalSchema(step + 1)
    && Canonicalizable(after.canonical.document)
    && after.digest == d.hash(after.canonical.document)
    && ColumnMoves(step, before.operations, after.operations)
    && ColumnMoves(step, before.inverse, after.inverse)
  }

  /** A proposal is moved to a row exactly when the row is what the step should make of it. */
  lemma ProposalMovesIff(d: Domain, step: Step, before: Proposal, after: Proposal)
    ensures MigratedProposal(d, step, before) == Some(after) <==> ProposalMoves(d, step, before, after)
  {
    hide RewrittenPayload, RewrittenColumn, PayloadMoves, ColumnMoves, ProposalSchema, Canonicalizable;
    ColumnMovesIff(step, before.operations, after.operations);
    ColumnMovesIff(step, before.inverse, after.inverse);
    if MigratedProposal(d, step, before) == Some(after) {
      PayloadMovesIff(step, before.canonical.document.fields["payload"], after.canonical.document.fields["payload"]);
    }
    if ProposalMoves(d, step, before, after) {
      var payload := after.canonical.document.fields["payload"];
      PayloadMovesIff(step, before.canonical.document.fields["payload"], payload);
      assert after.canonical.document == Envelope("open-cut/edit-proposal", after.schema, payload);
    }
  }

  // ----- Transactions -----

  const RECORD_KEYS: set<string> := {
    "actor", "changes", "committedProjectRevision", "intent", "inverse", "operations", "projectId", "proposalDigest"}

  /** The record a transaction digest covers, field by field. */
  ghost predicate RecordOf(d: Domain, t: Transaction, proposalDigest: string, record: Json) {
    && record.Obj?
    && record.fields.Keys == RECORD_KEYS + (if t.undoes.Some? then {"undoesTransactionId"} else {})
    && d.actor(t.actorKind, t.actorId) == Some(record.fields["actor"])
    && t.changes.Encoded? && d.typedChanges(t.changes.document) == Some(record.fields["changes"])
    && d.revision(t.projectRevision) == Some(record.fields["committedProjectRevision"])
    && record.fields["intent"] == Str(t.intent)
    && t.inverse.Encoded? && d.typedOperations(t.inverse.document) == Some(record.fields["inverse"])
    && t.operations.Encoded? && d.typedOperations(t.operations.document) == Some(record.fields["operations"])
    && d.projectId(t.projectId) == Some(record.fields["projectId"])
    && d.digestParses(proposalDigest) && record.fields["proposalDigest"] == Str(proposalDigest)
    && (t.undoes.Some? ==> d.transactionId(t.undoes.value) == Some(record.fields["undoesTransactionId"]))
  }

  lemma RecordOfIff(d: Domain, t: Transaction, proposalDigest: string, record: Json)
    ensures TransactionPayload(d, t, proposalDigest) == Some(record) <==> RecordOf(d, t, proposalDigest, record)
  {
    if RecordOf(d, t, proposalDigest, record) {
      assert record.fields == TransactionPayload(d, t, proposalDigest).value.fields;
    }
  }

  /** The record is enveloped, canonical and digested under the row's own schema. */
  ghost predicate DigestCovers(d: Domain, t: Transaction, record: Json, envelope: Json) {
    && EnvelopeOf(envelope, "open-cut/edit-transaction", t.schema, record)
    && Canonicalizable(envelope) && t.digest == d.hash(envelope)
  }

  /** Both operation columns move each to its own place, every other column stays, and the new digest
      covers the record of the new row over the proposal's digest. */
  ghost predicate TransactionMoves(d: Domain, step: Step, proposals: map<string, Proposal>, before: Transaction, after: Transaction) {
    && ColumnMoves(step, before.operations, after.operations)
    && ColumnMoves(step, before.inverse, after.inverse)
    && after.schema == TransactionSchema(step + 1)
    && after.proposalId == before.proposalId && after.projectId == before.projectId
    && after.actorKind == before.actorKind && after.actorId == before.actorId && after.intent == before.intent
    && after.changes == before.changes && after.projectRevision == before.projectRevision && after.undoes == before.undoes
    && after.proposalId in proposals
    && exists record, envelope :: RecordOf(d, after, proposals[after.proposalId].digest, record) && DigestCovers(d, after, record, envelope)
  }

  lemma SameRecord(d: Domain, t: Transaction, u: Transaction, proposalDigest: string)
    requires u == t.(schema := u.schema, digest := u.digest)
    ensures TransactionPayload(d, t, proposalDigest) == TransactionPayload(d, u, proposalDigest)
  {
  }

  /** A transaction is moved to a row exactly when the row is what the step should make of it. */
  lemma TransactionMovesIff(d: Domain, step: Step, proposals: map<string, Proposal>, before: Transaction, after: Transaction)
    ensures MigratedTransaction(d, step, proposals, before) == Some(after) <==> TransactionMoves(d, step, proposals, before, after)
  {
    hide RewrittenColumn, ColumnMoves, TransactionPayload, RecordOf, TransactionSchema, Canonicalizable;
    ColumnMovesIff(step, before.operations, after.operations);
    ColumnMovesIff(step, before.inverse, after.inverse);
    var row := before.(operations := after.operations, inverse := after.inverse);
    if MigratedTransaction(d, step, proposals, before) == Some(after) {
      var digest := proposals[before.proposalId].digest;
      var record := TransactionPayload(d, row, digest).value;
      SameRecord(d, row, after, digest);
      RecordOfIff(d, after, digest, record);
      assert DigestCovers(d, after, record, Envelope(TRANSACTION_DOMAIN, after.schema, record));
    }
    if TransactionMoves(d, step, proposals, before, after) {
      var digest := proposals[before.proposalId].digest;
      var record, envelope :| RecordOf(d, after, digest, record) && DigestCovers(d, after, record, envelope);
      SameRecord(d, row, after, digest);
      RecordOfIff(d, after, digest, record);
      assert envelope == Envelope(TRANSACTION_DOMAIN, after.schema, record);
    }
  }

  // ----- The outbox -----

  /** A row that announces a moved proposal gains its new digest and keeps everything else; any other
      row stays. */
  ghost predicate OutboxRowMoves(step: Step, before: Tables, after: Tables, row: OutboxRow, next: OutboxRow) {
    if row.kind == "edit.proposed" && row.outcomeKind == "proposal" && row.outcomeId in before.proposals
       && before.proposals[row.outcomeId].schema == ProposalSchema(step)
    then
      && next.kind == row.kind && next.outcomeKind == row.outcomeKind && next.outcomeId == row.outcomeId
      && row.outcomeId in after.proposals
      && row.payload.Encoded? && next.payload.Encoded?
      && if row.payload.document.Obj?
         then next.payload.document == Obj(row.payload.document.fields["proposalDigest" := Str(after.proposals[row.outcomeId].digest)])
         else next.payload == row.payload
    else next == row
  }

  // ----- The whole step -----

  ghost predicate ProposalRow(d: Domain, step: Step, before: Tables, after: Tables, id: string)
    requires id in before.proposals && id in after.proposals
  {
    if before.proposals[id].schema == ProposalSchema(step)
    then ProposalMoves(d, step, before.proposals[id], after.proposals[id])
    else after.proposals[id] == before.proposals[id]
  }

  ghost predicate TransactionRow(d: Domain, step: Step, before: Tables, after: Tables, id: string)
    requires id in before.transactions && id in after.transactions
  {
    if before.transactions[id].schema == TransactionSchema(step)
    then TransactionMoves(d, step, after.proposals, before.transactions[id], after.transactions[id])
    else after.transactions[id] == before.transactions[id]
  }

  /** Row by row, what a step should make of the tables. */
  ghost predicate StepMoves(d: Domain, step: Step, before: Tables, after: Tables) {
    && after.proposals.Keys == before.proposals.Keys
    && after.transactions.Keys == before.transactions.Keys
    && |after.outbox| == |before.outbox|
    && (forall id :: id in before.proposals ==> ProposalRow(d, step, before, after, id))
    && (forall id :: id in before.transactions ==> TransactionRow(d, step, before, after, id))
    && (forall i :: 0 <= i < |before.outbox| ==> OutboxRowMoves(step, before, after, before.outbox[i], after.outbox[i]))
    && after.groups == before.groups && after.clips == before.clips
  }

  lemma AppliedMoves(d: Domain, step: Step, t: Tables)
    requires Applies(d, step, t)
    ensures StepMoves(d, step, t, Applied(d, step, t))
  {
    hide MigratedProposal, MigratedTransaction, ProposalMoves, TransactionMoves, ProposalSchema, TransactionSchema, ClosedLinkGroups;
    var u := Applied(d, step, t);
    forall id | id in t.proposals ensures ProposalRow(d, step, t, u, id) {
      ProposalMovesIff(d, step, t.proposals[id], u.proposals[id]);
    }
    forall id | id in t.transactions ensures TransactionRow(d, step, t, u, id) {
      TransactionMovesIff(d, step, u.proposals, t.transactions[id], u.transactions[id]);
    }
    forall i | 0 <= i < |t.outbox| ensures OutboxRowMoves(step, t, u, t.outbox[i], u.outbox[i]) {
      assert Reannounced(step, t.proposals, t.outbox[i]) ==> t.outbox[i].payload.Encoded?;
    }
  }

  /** A step leads to these tables exactly when they are, row by row, what it should make of them. */
  lemma StepMovesIff(d: Domain, step: Step, t: Tables, u: Tables)
    ensures Applies(d, step, t) && Applied(d, step, t) == u <==> StepMoves(d, step, t, u) && (step == 2 ==> ClosedLinkGroups(t))
  {
    hide MigratedProposal, MigratedTransaction, ProposalMoves, TransactionMoves, ProposalSchema, TransactionSchema, ClosedLinkGroups;
    if Applies(d, step, t) && Applied(d, step, t) == u {
      AppliedMoves(d, step, t);
    }
    if StepMoves(d, step, t, u) && (step == 2 ==> ClosedLinkGroups(t)) {
      MovesApply(d, step, t, u);
    }
  }

  lemma MovesApply(d: Domain, step: Step, t: Tables, u: Tables)
    requires StepMoves(d, step, t, u) && (step == 2 ==> ClosedLinkGroups(t))
    ensures Applies(d, step, t) && Applied(d, step, t) == u
  {
    hide MigratedProposal, MigratedTransaction, ProposalMoves, TransactionMoves, ProposalSchema, TransactionSchema, ClosedLinkGroups;
    forall id | id in t.proposals && t.proposals[id].schema == ProposalSchema(step)
      ensures MigratedProposal(d, step, t.proposals[id]) == Some(u.proposals[id])
    {
      assert ProposalRow(d, step, t, u, id);
      ProposalMovesIff(d, step, t.proposals[id], u.proposals[id]);
    }
    assert MigratedProposals(d, step, t.proposals) == u.proposals by {
      assert forall id :: id in t.proposals ==> ProposalRow(d, step, t, u, id);
    }
    forall id | id in t.transactions && t.transactions[id].schema == TransactionSchema(step)
      ensures MigratedTransaction(d, step, u.proposals, t.transactions[id]) == Some(u.transactions[id])
    {
      assert TransactionRow(d, step, t, u, id);
      TransactionMovesIff(d, step, u.proposals, t.transactions[id], u.transactions[id]);
    }
    assert MigratedTransactions(d, step, u.proposals, t.transactions) == u.transactions by {
      assert forall id :: id in t.transactions ==> TransactionRow(d, step, t, u, id);
    }
    OutboxFollows(d, step, t, u);
  }

  lemma OutboxFollows(d: Domain, step: Step, t: Tables, u: Tables)
    requires ProposalsMigrate(d, step, t.proposals) && MigratedProposals(d, step, t.proposals) == u.proposals
    requires |u.outbox| == |t.outbox|
    requires forall i :: 0 <= i < |t.outbox| ==> OutboxRowMoves(step, t, u, t.outbox[i], u.outbox[i])
    ensures OutboxMigrates(step, t.proposals, t.outbox) && MigratedOutbox(d, step, t.proposals, t.outbox) == u.outbox
  {
    hide MigratedProposal, ProposalSchema;
    forall i | 0 <= i < |t.outbox| && Reannounced(step, t.proposals, t.outbox[i]) ensures t.outbox[i].payload.Encoded? {
      assert OutboxRowMoves(step, t, u, t.outbox[i], u.outbox[i]);
    }
    var moved := MigratedOutbox(d, step, t.proposals, t.outbox);
    forall i | 0 <= i < |t.outbox| ensures moved[i] == u.outbox[i] {
      assert OutboxRowMoves(step, t, u, t.outbox[i], u.outbox[i]);
    }
  }

  // ----- Names, numbers and link groups -----

  lemma SchemaNames()
    ensures ProposalSchema(1) == "open-cut/edit-proposal/v1" && TransactionSchema(1) == "open-cut/edit-transaction/v1"
    ensures ProposalSchema(2) == "open-cut/edit-proposal/v2" && TransactionSchema(2) == "open-cut/edit-transaction/v2"
    ensures ProposalSchema(3) == "open-cut/edit-proposal/v3" && TransactionSchema(3) == "open-cut/edit-transaction/v3"
    ensures ProposalSchema(4) == "open-cut/edit-proposal/v4" && TransactionSchema(4) == "open-cut/edit-transaction/v4"
    ensures ProposalSchema(5) == "open-cut/edit-proposal/v5" && TransactionSchema(5) == "open-cut/edit-transaction/v5"
  {
  }

  ghost predicate LiveIn(t: Tables, clip: string, group: string) {
    clip in t.clips && t.clips[clip] == Clip(Some(group), false)
  }

  /** The guard of the second step: a group that is gone has no live clip, any other at least two and
      not more than sixty-four. */
  lemma ClosedLinkGroupsIff(t: Tables)
    ensures ClosedLinkGroups(t) <==>
              forall g :: g in t.groups ==>
                && (t.groups[g] ==> forall c :: !LiveIn(t, c, g))
                && (!t.groups[g] ==>
                      && (exists a, b :: a != b && LiveIn(t, a, g) && LiveIn(t, b, g))
                      && |set c | c in t.clips && LiveIn(t, c, g)| <= 64)
  {
    forall g | g in t.groups
      ensures |LiveMembers(t, g)| == 0 <==> forall c :: !LiveIn(t, c, g)
      ensures |LiveMembers(t, g)| >= 2 <==> exists a, b :: a != b && LiveIn(t, a, g) && LiveIn(t, b, g)
      ensures LiveMembers(t, g) == set c | c in t.clips && LiveIn(t, c, g)
    {
      LiveMembersAre(t, g);
      TwoMembers(LiveMembers(t, g));
    }
  }

  lemma LiveMembersAre(t: Tables, g: string)
    ensures forall c :: c in LiveMembers(t, g) <==> LiveIn(t, c, g)
  {
  }

  lemma TwoMembers(s: set<string>)
    ensures |s| == 0 <==> s == {}
    ensures |s| >= 2 <==> exists a, b :: a != b && a in s && b in s
  {
    if |s| >= 2 {
      var a :| a in s;
      assert |s - {a}| >= 1;
      var b :| b in s - {a};
    }
    if a, b :| a != b && a in s && b in s {
      assert {a, b} <= s;
      SubsetSize({a, b}, s);
    }
  }

  lemma SubsetSize(small: set<string>, s: set<string>)
    requires small <= s
    ensures |small| <= |s|
  {
    assert s == small + (s - small);
  }

  /** A document has a canonical encoding exactly when every number anywhere in it is an integer in
      plain decimal. */
  lemma {:induction false} CanonicalizableIff(v: Json)
    ensures Canonicalizable(v) <==>
              forall digits :: Occurs(Number(digits), v) ==> exists n: int :: Decimal.Format(n) == digits
    decreases v
  {
    hide CanonicalDecimal;
    match v
    case Number(digits) => CanonicalDecimalIff(digits);
    case Arr(items) => forall i | 0 <= i < |items| { CanonicalizableIff(items[i]); }
    case Obj(m) => forall k | k in m { CanonicalizableIff(m[k]); }
    case _ =>
  }

  /** The numbers that canonical encoding accepts are the integers in plain decimal. */
  lemma CanonicalDecimalIff(s: string)
    ensures CanonicalDecimal(s) <==> exists n: int :: Decimal.Format(n) == s
  {
    if CanonicalDecimal(s) {
      var digits := if s[0] == '-' then s[1..] else s;
      assert Decimal.Plain(digits);
      Decimal.FormatOfValue(digits);
      if s[0] == '-' {
        Decimal.PlainIsPositive(digits);
        var n: int := Decimal.Value(digits);
        assert s == "-" + digits && Decimal.Format(-n) == s;
      } else {
        assert Decimal.Format(Decimal.Value(digits)) == s;
      }
    }
    if n: int :| Decimal.Format(n) == s {
      Decimal.FormatIsPlain(if n < 0 then -n else n);
    }
  }
}
