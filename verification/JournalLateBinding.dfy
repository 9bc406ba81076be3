/** A journal in which a transaction at v5 loses its binding because its proposal is at v4. */
module JournalLateBinding {
  import opened Json
  import opened EditJournal
  import opened JournalInvariants
  import NarrativeRewrite

  /** A digest that tells the last proposal level from the others, and transactions by the proposal
      digest they cover. */
  function Digest(v: Json): (r: string) {
    if Field(v, "domain") == Str(PROPOSAL_DOMAIN) then
      if Field(v, "schema") == Str(ProposalSchema(5)) then "new" else "old"
    else if Field(Field(v, "payload"), "proposalDigest").Str? then Field(Field(v, "payload"), "proposalDigest").text
    else ""
  }

  const DOMAIN := Domain(
    Digest, _ => true, v => Some(v), v => Some(v), (_, _) => Some(Null), id => Some(Str(id)), _ => Some(Null), id => Some(Str(id)))

  const NO_OPERATIONS := Encoded(Arr([]))

  function Payload(): (v: Json) {
    Obj(map["operations" := Arr([]), "inverse" := Arr([])])
  }

  function ProposalAt(level: Level, digest: string): (p: Proposal) {
    Proposal(ProposalSchema(level), digest, Encoded(Envelope(PROPOSAL_DOMAIN, ProposalSchema(level), Payload())), NO_OPERATIONS, NO_OPERATIONS)
  }

  function LateTransaction(): (t: Transaction) {
    Transaction(TransactionSchema(5), "old", "p", "project", "kind", "actor", "", NO_OPERATIONS, NO_OPERATIONS, NO_OPERATIONS, 1, None)
  }

  function Journal(p: Proposal): (t: Tables) {
    Tables(map["p" := p], map["t" := LateTransaction()], [], map[], map[])
  }

  lemma EnvelopeFields(domain: string, schema: string, payload: Json)
    ensures Field(Envelope(domain, schema, payload), "domain") == Str(domain)
    ensures Field(Envelope(domain, schema, payload), "schema") == Str(schema)
    ensures Envelope(domain, schema, payload).Obj? && "payload" in Envelope(domain, schema, payload).fields
    ensures Field(Envelope(domain, schema, payload), "payload") == payload
  {
  }

  lemma ProposalDigests(level: Level)
    ensures Digest(Envelope(PROPOSAL_DOMAIN, ProposalSchema(level), Payload())) == if level == 5 then "new" else "old"
  {
    hide ProposalSchema, Envelope;
    EnvelopeFields(PROPOSAL_DOMAIN, ProposalSchema(level), Payload());
    SchemasDistinct(level, 5);
  }

  /** The transaction covers whatever digest it is built over. */
  lemma TransactionDigests(digest: string)
    ensures TransactionPayload(DOMAIN, LateTransaction(), digest).Some?
    ensures Digest(Envelope(TRANSACTION_DOMAIN, TransactionSchema(5), TransactionPayload(DOMAIN, LateTransaction(), digest).value)) == digest
  {
    hide TransactionSchema, Envelope, ProposalSchema;
    var payload := TransactionPayload(DOMAIN, LateTransaction(), digest).value;
    assert Field(payload, "proposalDigest") == Str(digest);
    EnvelopeFields(TRANSACTION_DOMAIN, TransactionSchema(5), payload);
    assert TRANSACTION_DOMAIN[14] != PROPOSAL_DOMAIN[14];
  }

  lemma EmptyListsStay()
    ensures RewrittenList(4, Arr([])) == Some(Arr([])) && RewrittenPayload(4, Payload()) == Some(Payload())
    ensures Canonicalizable(Payload())
  {
    assert NarrativeRewrite.WrappedAll([]) == [];
    assert RewrittenList(4, Arr([])) == Some(Arr([]));
    hide RewrittenList;
    var payload := Payload();
    assert payload.fields["operations" := Arr([])]["inverse" := Arr([])] == payload.fields;
  }

  lemma EnvelopeEncodes(domain: string, schema: string, payload: Json)
    requires Canonicalizable(payload)
    ensures Canonicalizable(Envelope(domain, schema, payload))
  {
  }

  /** The last step gives the proposal a new digest. */
  lemma LastStep()
    ensures MigratedProposal(DOMAIN, 4, ProposalAt(4, "old")) == Some(ProposalAt(5, "new"))
  {
    EmptyListsStay();
    ProposalDigests(5);
    EnvelopeEncodes(PROPOSAL_DOMAIN, ProposalSchema(5), Payload());
    hide ProposalSchema, Digest, Payload, Envelope, RewrittenList, RewrittenPayload, Canonicalizable;
    EnvelopeFields(PROPOSAL_DOMAIN, ProposalSchema(4), Payload());
  }

  lemma OneProposalStep(d: Domain, step: Step, p: Proposal, q: Proposal)
    requires p.schema == ProposalSchema(step) && MigratedProposal(d, step, p) == Some(q) && step != 2
    requires LateTransaction().schema != TransactionSchema(step)
    ensures Applies(d, step, Journal(p)) && Applied(d, step, Journal(p)) == Journal(q)
  {
    hide ProposalSchema, TransactionSchema, MigratedProposal, MigratedTransaction, LateTransaction;
    var t := Journal(p);
    assert t.proposals["p"] == p && t.transactions["t"] == LateTransaction();
    assert Applies(d, step, t);
    assert MigratedProposals(d, step, t.proposals) == map["p" := q];
    assert MigratedTransactions(d, step, map["p" := q], t.transactions) == t.transactions;
  }

  /** The steps below the proposal's level change nothing. */
  lemma JournalChains()
    ensures Chains(DOMAIN, 1, Journal(ProposalAt(4, "old")))
    ensures Chained(DOMAIN, 1, Journal(ProposalAt(4, "old"))) == Journal(ProposalAt(5, "new"))
  {
    var t := Journal(ProposalAt(4, "old"));
    LevelsBelow(1, t);
    LevelsBelow(2, t);
    LevelsBelow(3, t);
    SchemasDistinct(4, 5);
    LastStep();
    hide ProposalSchema, TransactionSchema, Envelope, Digest, MigratedProposal, MigratedTransaction, Applies, Applied;
    OneProposalStep(DOMAIN, 4, ProposalAt(4, "old"), ProposalAt(5, "new"));
    assert Chains(DOMAIN, 4, t) && Chains(DOMAIN, 3, t) && Chains(DOMAIN, 2, t);
  }

  lemma LevelsBelow(step: Step, t: Tables)
    requires step < 4 && t == Journal(ProposalAt(4, "old"))
    ensures Applies(DOMAIN, step, t) && Applied(DOMAIN, step, t) == t
  {
    hide ProposalSchema, TransactionSchema, Envelope, Digest;
    SchemasDistinct(step, 4);
    SchemasDistinct(step, 5);
    hide Applies, Applied;
    EmptyLevelIsFixed(DOMAIN, step, t);
  }

  lemma ProposalIsBound(level: Level)
    ensures ProposalBound(DOMAIN, level, ProposalAt(level, if level == 5 then "new" else "old"))
  {
    ProposalDigests(level);
    hide Digest, Envelope, ProposalSchema;
    EnvelopeFields(PROPOSAL_DOMAIN, ProposalSchema(level), Payload());
  }

  /** The transaction is bound exactly while its proposal has the digest it was built over. */
  lemma TransactionIsBoundIff(p: Proposal)
    ensures TransactionBound(DOMAIN, 5, LateTransaction(), Journal(p).proposals) <==> p.digest == "old"
  {
    TransactionDigests(p.digest);
    hide Digest, Envelope, TransactionSchema, TransactionPayload;
    assert Journal(p).proposals["p"] == p;
  }

  /** Both rows are bound and the chain applies, and after it the transaction is not bound. */
  lemma LateBindingIsLost()
    ensures var t := Journal(ProposalAt(4, "old"));
      && ProposalBound(DOMAIN, 4, t.proposals["p"])
      && TransactionBound(DOMAIN, 5, t.transactions["t"], t.proposals)
      && Chains(DOMAIN, 1, t)
      && ProposalBound(DOMAIN, 5, Chained(DOMAIN, 1, t).proposals["p"])
      && !TransactionBound(DOMAIN, 5, Chained(DOMAIN, 1, t).transactions["t"], Chained(DOMAIN, 1, t).proposals)
  {
    JournalChains();
    ProposalIsBound(4);
    ProposalIsBound(5);
    TransactionIsBoundIff(ProposalAt(4, "old"));
    TransactionIsBoundIff(ProposalAt(5, "new"));
    hide Digest, Envelope, ProposalSchema, TransactionSchema, TransactionBound, ProposalBound, Chains, Chained;
  }

  /** The digest has no collision here: the hypotheses of the general condition can be met. */
  lemma NoCollision()
    ensures TellsDigestsApart(DOMAIN, LateTransaction(), "old", "new")
    ensures TellsApart(DOMAIN.hash, ProposalAt(4, "old").canonical.document, ProposalAt(5, "new").canonical.document)
    ensures DOMAIN.digestParses("new")
  {
    TransactionDigests("old");
    TransactionDigests("new");
    ProposalDigests(4);
    ProposalDigests(5);
    hide Digest, Envelope, ProposalSchema, TransactionSchema, TransactionPayload;
  }
}
