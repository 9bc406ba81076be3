/** What every migration step keeps, and what the chain from v1 to v5 establishes. */
module JournalInvariants {
  import opened Json
  import opened EditJournal
  import AlignmentRewrite

  // ----- Bindings -----

  /** The stored digest is the digest of the stored canonical envelope at this level. */
  ghost predicate ProposalBound(d: Domain, level: Level, p: Proposal) {
    && p.schema == ProposalSchema(level)
    && p.canonical.Encoded?
    && Field(p.canonical.document, "domain") == Str(PROPOSAL_DOMAIN)
    && Field(p.canonical.document, "schema") == Str(p.schema)
    && p.digest == d.hash(p.canonical.document)
  }

  /** The transaction digest covers the current digest of its proposal. */
  ghost predicate TransactionBound(d: Domain, level: Level, t: Transaction, proposals: map<string, Proposal>) {
    && t.schema == TransactionSchema(level)
    && t.proposalId in proposals
    && var payload := TransactionPayload(d, t, proposals[t.proposalId].digest);
       && payload.Some?
       && t.digest == d.hash(Envelope(TRANSACTION_DOMAIN, t.schema, payload.value))
  }

  /** Every object payload that announces the proposal carries its digest. */
  ghost predicate OutboxAgrees(outbox: seq<OutboxRow>, id: string, digest: string) {
    forall i :: 0 <= i < |outbox| && Announces(outbox[i], id) && outbox[i].payload.Encoded?
                && outbox[i].payload.document.Obj? ==>
                  Field(outbox[i].payload.document, "proposalDigest") == Str(digest)
  }

  ghost predicate ProposalRowConsistent(d: Domain, t: Tables, id: string, level: Level) {
    id in t.proposals && t.proposals[id].schema == ProposalSchema(level) && level >= 2 ==>
      ProposalBound(d, level, t.proposals[id]) && OutboxAgrees(t.outbox, id, t.proposals[id].digest)
  }

  ghost predicate TransactionRowConsistent(d: Domain, t: Tables, id: string, level: Level) {
    id in t.transactions && t.transactions[id].schema == TransactionSchema(level) ==>
      && t.transactions[id].proposalId in t.proposals
      && t.proposals[t.transactions[id].proposalId].schema == ProposalSchema(level)
      && (level >= 2 ==> TransactionBound(d, level, t.transactions[id], t.proposals))
  }

  /** Rows at v2 or later are bound, and no transaction is ahead of or behind its proposal. */
  ghost predicate Consistent(d: Domain, t: Tables) {
    forall id, level: Level :: ProposalRowConsistent(d, t, id, level) && TransactionRowConsistent(d, t, id, level)
  }

  // ----- One step -----

  lemma ProposalMigrates(d: Domain, step: Step, t: Tables, id: string)
    requires Applies(d, step, t) && id in t.proposals && t.proposals[id].schema == ProposalSchema(step)
    ensures ProposalBound(d, step + 1, Applied(d, step, t).proposals[id])
    ensures t.proposals[id].canonical.Encoded?
    ensures RewrittenPayload(step, Field(t.proposals[id].canonical.document, "payload"))
         == Some(Field(Applied(d, step, t).proposals[id].canonical.document, "payload"))
    ensures OutboxAgrees(Applied(d, step, t).outbox, id, Applied(d, step, t).proposals[id].digest)
  {
    var next := Applied(d, step, t);
    forall i | 0 <= i < |next.outbox| && Announces(next.outbox[i], id) && next.outbox[i].payload.Encoded?
               && next.outbox[i].payload.document.Obj?
      ensures Field(next.outbox[i].payload.document, "proposalDigest") == Str(next.proposals[id].digest)
    {
      assert Announces(t.outbox[i], id);
      assert Reannounced(step, t.proposals, t.outbox[i]);
    }
  }

  lemma TransactionMigrates(d: Domain, step: Step, t: Tables, id: string)
    requires Applies(d, step, t) && id in t.transactions && t.transactions[id].schema == TransactionSchema(step)
    ensures TransactionBound(d, step + 1, Applied(d, step, t).transactions[id], Applied(d, step, t).proposals)
    ensures Applied(d, step, t).transactions[id].proposalId == t.transactions[id].proposalId
  {
  }

  /** Ids stay, rows at other levels stay, and the old level is empty afterwards. */
  lemma StepMovesExactlyItsLevel(d: Domain, step: Step, t: Tables)
    requires Applies(d, step, t)
    ensures var next := Applied(d, step, t);
      && next.proposals.Keys == t.proposals.Keys
      && next.transactions.Keys == t.transactions.Keys
      && |next.outbox| == |t.outbox|
      && (forall id :: id in t.proposals ==>
            if t.proposals[id].schema == ProposalSchema(step)
            then next.proposals[id].schema == ProposalSchema(step + 1)
            else next.proposals[id] == t.proposals[id])
      && (forall id :: id in t.transactions ==>
            if t.transactions[id].schema == TransactionSchema(step)
            then next.transactions[id].schema == TransactionSchema(step + 1)
            else next.transactions[id] == t.transactions[id])
      && (forall id :: id in next.proposals ==> next.proposals[id].schema != ProposalSchema(step))
      && (forall id :: id in next.transactions ==> next.transactions[id].schema != TransactionSchema(step))
  {
    SchemasDistinct(step, step + 1);
    hide ProposalSchema, TransactionSchema, RewrittenPayload, RewrittenColumn, TransactionPayload, Canonicalizable;
  }

  lemma UntouchedOutboxAgrees(d: Domain, step: Step, t: Tables, id: string)
    requires Applies(d, step, t) && id in t.proposals && t.proposals[id].schema != ProposalSchema(step)
    requires OutboxAgrees(t.outbox, id, t.proposals[id].digest)
    ensures OutboxAgrees(Applied(d, step, t).outbox, id, t.proposals[id].digest)
  {
    var next := Applied(d, step, t);
    forall i | 0 <= i < |next.outbox| && Announces(next.outbox[i], id)
      ensures next.outbox[i] == t.outbox[i]
    {
      assert Announces(t.outbox[i], id) && !Reannounced(step, t.proposals, t.outbox[i]);
    }
  }

  lemma StepKeepsProposalRow(d: Domain, step: Step, t: Tables, id: string, level: Level)
    requires Consistent(d, t) && Applies(d, step, t)
    ensures ProposalRowConsistent(d, Applied(d, step, t), id, level)
  {
    hide Applied, Applies, ProposalSchema, TransactionSchema, ProposalBound, OutboxAgrees;
    StepMovesExactlyItsLevel(d, step, t);
    assert ProposalRowConsistent(d, t, id, level);
    if id in t.proposals && level >= 2 {
      SchemasDistinct(level, step + 1);
      if t.proposals[id].schema == ProposalSchema(step) {
        ProposalMigrates(d, step, t, id);
      } else if t.proposals[id].schema == ProposalSchema(level) {
        UntouchedOutboxAgrees(d, step, t, id);
      }
    }
  }

  lemma BindingCarriesOver(
    d: Domain, level: Level, t: Transaction, before: map<string, Proposal>, after: map<string, Proposal>)
    requires TransactionBound(d, level, t, before) && t.proposalId in after && after[t.proposalId] == before[t.proposalId]
    ensures TransactionBound(d, level, t, after)
  {
  }

  lemma StepKeepsTransactionRow(d: Domain, step: Step, t: Tables, id: string, level: Level)
    requires Consistent(d, t) && Applies(d, step, t)
    ensures TransactionRowConsistent(d, Applied(d, step, t), id, level)
  {
    hide Applied, Applies, ProposalSchema, TransactionSchema, TransactionBound;
    StepMovesExactlyItsLevel(d, step, t);
    SchemasDistinct(level, step + 1);
    SchemasDistinct(level, step);
    assert TransactionRowConsistent(d, t, id, level) && TransactionRowConsistent(d, t, id, step);
    if id in t.transactions {
      var row := t.transactions[id];
      if row.schema == TransactionSchema(step) {
        TransactionMigrates(d, step, t, id);
      } else if row.schema == TransactionSchema(level) && level >= 2 {
        BindingCarriesOver(d, level, row, t.proposals, Applied(d, step, t).proposals);
      }
    }
  }

  /** Every step keeps the journal consistent: proposals, outbox and transactions move together. */
  lemma StepKeepsConsistent(d: Domain, step: Step, t: Tables)
    requires Consistent(d, t) && Applies(d, step, t)
    ensures Consistent(d, Applied(d, step, t))
  {
    var next := Applied(d, step, t);
    forall id, level: Level
      ensures ProposalRowConsistent(d, next, id, level) && TransactionRowConsistent(d, next, id, level)
    {
      StepKeepsProposalRow(d, step, t, id, level);
      StepKeepsTransactionRow(d, step, t, id, level);
    }
  }

  /** A second run of a step finds no row and changes nothing. */
  lemma StepTwiceIsStepOnce(d: Domain, step: Step, t: Tables)
    requires Applies(d, step, t)
    ensures Applies(d, step, Applied(d, step, t))
    ensures Applied(d, step, Applied(d, step, t)) == Applied(d, step, t)
  {
    StepMovesExactlyItsLevel(d, step, t);
    var next := Applied(d, step, t);
    LinkGroupsKept(t, next);
    EmptyLevelIsFixed(d, step, next);
  }

  lemma LinkGroupsKept(t: Tables, u: Tables)
    requires t.groups == u.groups && t.clips == u.clips
    ensures ClosedLinkGroups(t) <==> ClosedLinkGroups(u)
  {
    assert forall g :: LiveMembers(t, g) == LiveMembers(u, g);
  }

  lemma EmptyLevelIsFixed(d: Domain, step: Step, t: Tables)
    requires step == 2 ==> ClosedLinkGroups(t)
    requires forall id :: id in t.proposals ==> t.proposals[id].schema != ProposalSchema(step)
    requires forall id :: id in t.transactions ==> t.transactions[id].schema != TransactionSchema(step)
    ensures Applies(d, step, t) && Applied(d, step, t) == t
  {
    hide ProposalSchema, TransactionSchema, MigratedProposal, MigratedTransaction, ClosedLinkGroups;
    assert MigratedProposals(d, step, t.proposals) == t.proposals;
    assert MigratedOutbox(d, step, t.proposals, t.outbox) == t.outbox;
    assert MigratedTransactions(d, step, t.proposals, t.transactions) == t.transactions;
  }

  // ----- The chain -----

  /** The steps from level n up to 5 all apply, one after the other. */
  ghost predicate Chains(d: Domain, n: Level, t: Tables)
    decreases 5 - n
  {
    n == 5 || (Applies(d, n, t) && Chains(d, n + 1, Applied(d, n, t)))
  }

  ghost function Chained(d: Domain, n: Level, t: Tables): (r: Tables)
    requires Chains(d, n, t)
    ensures r.proposals.Keys == t.proposals.Keys && r.transactions.Keys == t.transactions.Keys
    decreases 5 - n
  {
    if n == 5 then t else Chained(d, n + 1, Applied(d, n, t))
  }

  /** From a consistent journal the chain reaches a consistent journal. */
  lemma {:induction false} ChainKeepsConsistent(d: Domain, n: Level, t: Tables)
    requires Chains(d, n, t) && Consistent(d, t)
    ensures Consistent(d, Chained(d, n, t))
    decreases 5 - n
  {
    hide Consistent, Applied, Applies;
    if n < 5 {
      StepKeepsConsistent(d, n, t);
      ChainKeepsConsistent(d, n + 1, Applied(d, n, t));
    }
  }

  /** Every proposal that starts at level n or above ends at v5, and no id is lost. */
  lemma {:induction false} ChainLiftsProposals(d: Domain, n: Level, t: Tables, id: string, level: Level)
    requires Chains(d, n, t) && id in t.proposals && n <= level
    requires t.proposals[id].schema == ProposalSchema(level)
    ensures id in Chained(d, n, t).proposals
    ensures Chained(d, n, t).proposals[id].schema == ProposalSchema(5)
    decreases 5 - n
  {
    hide Applied, Applies, ProposalSchema, TransactionSchema;
    if n < 5 {
      StepMovesExactlyItsLevel(d, n, t);
      SchemasDistinct(level, n);
      ChainLiftsProposals(d, n + 1, Applied(d, n, t), id, if level == n then n + 1 else level);
    }
  }

  /** Whatever level its proposal is at, a transaction below v5 ends at v5 and bound to the
      final digest of that proposal: its last rewrite follows the proposal's last rewrite. */
  lemma {:induction false} ChainBindsTransactions(d: Domain, n: Level, t: Tables, id: string, level: Level)
    requires Chains(d, n, t) && id in t.transactions && n <= level < 5
    requires t.transactions[id].schema == TransactionSchema(level)
    ensures id in Chained(d, n, t).transactions
    ensures TransactionBound(d, 5, Chained(d, n, t).transactions[id], Chained(d, n, t).proposals)
    decreases 5 - n
  {
    hide Applied, Applies, ProposalSchema, TransactionSchema, TransactionBound;
    StepMovesExactlyItsLevel(d, n, t);
    SchemasDistinct(level, n);
    if n == 4 {
      TransactionMigrates(d, 4, t, id);
    } else {
      ChainBindsTransactions(d, n + 1, Applied(d, n, t), id, if level == n then n + 1 else level);
    }
  }

  /** The whole chain from a consistent journal: every row of a known level ends at v5, each
      proposal digest is the digest of its canonical envelope, the outbox announces it, and each
      transaction digest covers it. */
  lemma JournalReachesTop(d: Domain, t: Tables)
    requires Chains(d, 1, t) && Consistent(d, t)
    ensures var final := Chained(d, 1, t);
      && (forall id, level: Level :: id in t.proposals && t.proposals[id].schema == ProposalSchema(level) ==>
            && id in final.proposals
            && ProposalBound(d, 5, final.proposals[id])
            && OutboxAgrees(final.outbox, id, final.proposals[id].digest))
      && (forall id, level: Level :: id in t.transactions && t.transactions[id].schema == TransactionSchema(level) ==>
            && id in final.transactions
            && TransactionBound(d, 5, final.transactions[id], final.proposals))
  {
    var final := Chained(d, 1, t);
    ChainKeepsConsistent(d, 1, t);
    forall id, level: Level | id in t.proposals && t.proposals[id].schema == ProposalSchema(level)
      ensures && id in final.proposals
              && ProposalBound(d, 5, final.proposals[id])
              && OutboxAgrees(final.outbox, id, final.proposals[id].digest)
    {
      ChainLiftsProposals(d, 1, t, id, level);
      assert ProposalRowConsistent(d, final, id, 5);
    }
    forall id, level: Level | id in t.transactions && t.transactions[id].schema == TransactionSchema(level)
      ensures id in final.transactions && TransactionBound(d, 5, final.transactions[id], final.proposals)
    {
      if level < 5 {
        ChainBindsTransactions(d, 1, t, id, level);
      } else {
        ChainKeepsTopTransaction(d, 1, t, id);
        assert TransactionRowConsistent(d, final, id, 5);
      }
    }
  }

  /** A transaction already at v5 is never rewritten, so a bound one stays bound exactly when the
      chain leaves the digest of its proposal alone. */
  lemma {:induction false} ChainKeepsTopTransaction(d: Domain, n: Level, t: Tables, id: string)
    requires Chains(d, n, t) && id in t.transactions && t.transactions[id].schema == TransactionSchema(5)
    ensures id in Chained(d, n, t).transactions && Chained(d, n, t).transactions[id] == t.transactions[id]
    ensures Chained(d, n, t).proposals.Keys == t.proposals.Keys
    decreases 5 - n
  {
    hide Applied, Applies, ProposalSchema, TransactionSchema;
    if n < 5 {
      StepMovesExactlyItsLevel(d, n, t);
      SchemasDistinct(5, n);
      ChainKeepsTopTransaction(d, n + 1, Applied(d, n, t), id);
    }
  }

  ghost predicate TellsApart(hash: Json -> string, a: Json, b: Json) {
    hash(a) == hash(b) ==> a == b
  }

  /** The hash has no collision between the transaction's envelopes over two proposal digests. */
  ghost predicate TellsDigestsApart(d: Domain, t: Transaction, x: string, y: string) {
    forall p, q :: TransactionPayload(d, t, x) == Some(p) && TransactionPayload(d, t, y) == Some(q) ==>
      TellsApart(d.hash, Envelope(TRANSACTION_DOMAIN, t.schema, p), Envelope(TRANSACTION_DOMAIN, t.schema, q))
  }

  lemma TopTransactionBoundIff(d: Domain, n: Level, t: Tables, id: string)
    requires Chains(d, n, t) && id in t.transactions && TransactionBound(d, 5, t.transactions[id], t.proposals)
    requires var proposal := t.transactions[id].proposalId;
      TellsDigestsApart(d, t.transactions[id], t.proposals[proposal].digest, Chained(d, n, t).proposals[proposal].digest)
    requires d.digestParses(Chained(d, n, t).proposals[t.transactions[id].proposalId].digest)
    ensures var final := Chained(d, n, t);
      TransactionBound(d, 5, final.transactions[id], final.proposals) <==>
      final.proposals[t.transactions[id].proposalId].digest == t.proposals[t.transactions[id].proposalId].digest
  {
    hide TransactionPayload, TellsDigestsApart, ProposalSchema, TransactionSchema;
    ChainKeepsTopTransaction(d, n, t, id);
    var row := t.transactions[id];
    CoversOneDigest(d, row, t.proposals[row.proposalId].digest, Chained(d, n, t).proposals[row.proposalId].digest);
  }

  /** A transaction's digest covers one of two proposal digests and, without a collision, not the other. */
  lemma CoversOneDigest(d: Domain, t: Transaction, x: string, y: string)
    requires TransactionPayload(d, t, x).Some? && d.digestParses(y) && TellsDigestsApart(d, t, x, y)
    ensures TransactionPayload(d, t, y).Some?
    ensures x == y <==>
              d.hash(Envelope(TRANSACTION_DOMAIN, t.schema, TransactionPayload(d, t, x).value)) ==
              d.hash(Envelope(TRANSACTION_DOMAIN, t.schema, TransactionPayload(d, t, y).value))
  {
    var p, q := TransactionPayload(d, t, x).value, TransactionPayload(d, t, y).value;
    assert Envelope(TRANSACTION_DOMAIN, t.schema, p).fields["payload"] == p;
    assert Envelope(TRANSACTION_DOMAIN, t.schema, q).fields["payload"] == q;
    assert p.fields["proposalDigest"] == Str(x) && q.fields["proposalDigest"] == Str(y);
  }

  lemma {:induction false} ChainBindsProposal(d: Domain, n: Level, t: Tables, id: string, level: Level)
    requires Chains(d, n, t) && id in t.proposals && n <= level && t.proposals[id].schema == ProposalSchema(level)
    ensures id in Chained(d, n, t).proposals
    ensures level == 5 ==> Chained(d, n, t).proposals[id] == t.proposals[id]
    ensures level < 5 ==> ProposalBound(d, 5, Chained(d, n, t).proposals[id])
    decreases 5 - n
  {
    hide Applied, Applies, ProposalSchema, TransactionSchema, ProposalBound;
    if n < 5 {
      StepMovesExactlyItsLevel(d, n, t);
      SchemasDistinct(level, n);
      var next := if level == n then n + 1 else level;
      ChainBindsProposal(d, n + 1, Applied(d, n, t), id, next);
      if level == 4 == n {
        ProposalMigrates(d, 4, t, id);
      }
    }
  }

  lemma BoundAtDifferentLevels(d: Domain, a: Level, b: Level, p: Proposal, q: Proposal)
    requires a != b && ProposalBound(d, a, p) && ProposalBound(d, b, q)
    requires TellsApart(d.hash, p.canonical.document, q.canonical.document)
    ensures p.digest != q.digest
  {
    SchemasDistinct(a, b);
  }

  /** Without collisions that is so exactly when the proposal is at v5 as well. */
  lemma TopTransactionNeedsTopProposal(d: Domain, n: Level, t: Tables, id: string, level: Level)
    requires Chains(d, n, t) && n <= level
    requires id in t.transactions && TransactionBound(d, 5, t.transactions[id], t.proposals)
    requires ProposalBound(d, level, t.proposals[t.transactions[id].proposalId])
    requires var before, after := t.proposals[t.transactions[id].proposalId], Chained(d, n, t).proposals[t.transactions[id].proposalId];
      && TellsDigestsApart(d, t.transactions[id], before.digest, after.digest)
      && (after.canonical.Encoded? ==> TellsApart(d.hash, before.canonical.document, after.canonical.document))
    requires d.digestParses(Chained(d, n, t).proposals[t.transactions[id].proposalId].digest)
    ensures TransactionBound(d, 5, Chained(d, n, t).transactions[id], Chained(d, n, t).proposals) <==> level == 5
  {
    var proposal := t.transactions[id].proposalId;
    TopTransactionBoundIff(d, n, t, id);
    ChainBindsProposal(d, n, t, proposal, level);
    hide Chained, Chains, TransactionBound;
    if level < 5 {
      BoundAtDifferentLevels(d, level, 5, t.proposals[proposal], Chained(d, n, t).proposals[proposal]);
    }
  }

  // ----- Columns and canonical payload -----

  /** The operation columns hold what the canonical payload holds. */
  ghost predicate ColumnsAgree(p: Proposal) {
    && p.canonical.Encoded? && p.operations.Encoded? && p.inverse.Encoded?
    && var payload := Field(p.canonical.document, "payload");
       && payload.Obj? && "operations" in payload.fields && "inverse" in payload.fields
       && payload.fields["operations"] == p.operations.document
       && payload.fields["inverse"] == p.inverse.document
  }

  lemma StepKeepsColumnsAgreeing(d: Domain, step: Step, p: Proposal)
    requires ColumnsAgree(p) && MigratedProposal(d, step, p).Some?
    ensures ColumnsAgree(MigratedProposal(d, step, p).value)
  {
    var payload := Field(p.canonical.document, "payload");
    if step == 1 {
      AlignmentRewrite.RewriteCommutesWithField(payload, "operations");
      AlignmentRewrite.RewriteCommutesWithField(payload, "inverse");
    }
  }
}
