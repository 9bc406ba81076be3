/** The edit-journal tables and the four forward-only schema steps over them
    (internal/editmigration). Every step rewrites the proposals at its old level, announces
    the new digests in the outbox, then rewrites the transactions at its old level. */
module EditJournal {
  import opened Json
  import AlignmentRewrite
  import Decimal
  import NarrativeRewrite

  const PROPOSAL_DOMAIN := "open-cut/edit-proposal"
  const TRANSACTION_DOMAIN := "open-cut/edit-transaction"

  /** Schema levels v1 to v5; the step at level n goes from n to n + 1. */
  type Level = n: nat | 1 <= n <= 5 witness 1
  type Step = n: nat | 1 <= n <= 4 witness 1

  function Suffix(level: Level): (r: string) {
    ["/v1", "/v2", "/v3", "/v4", "/v5"][level - 1]
  }

  function ProposalSchema(level: Level): (r: string) {
    PROPOSAL_DOMAIN + Suffix(level)
  }

  function TransactionSchema(level: Level): (r: string) {
    TRANSACTION_DOMAIN + Suffix(level)
  }

  lemma SchemasDistinct(a: Level, b: Level)
    ensures ProposalSchema(a) == ProposalSchema(b) <==> a == b
    ensures TransactionSchema(a) == TransactionSchema(b) <==> a == b
  {
    assert ProposalSchema(a)[|PROPOSAL_DOMAIN|..] == Suffix(a) && ProposalSchema(b)[|PROPOSAL_DOMAIN|..] == Suffix(b);
    assert TransactionSchema(a)[|TRANSACTION_DOMAIN|..] == Suffix(a);
    assert TransactionSchema(b)[|TRANSACTION_DOMAIN|..] == Suffix(b);
    assert Suffix(a)[2] == Suffix(b)[2] ==> a == b;
  }

  // ----- Rows and tables -----

  datatype Proposal = Proposal(schema: string, digest: string, canonical: Text, operations: Text, inverse: Text)

  datatype Transaction = Transaction(
    schema: string, digest: string, proposalId: string, projectId: string, actorKind: string, actorId: string,
    intent: string, operations: Text, inverse: Text, changes: Text, projectRevision: nat, undoes: Option<string>)

  datatype OutboxRow = OutboxRow(kind: string, outcomeKind: string, outcomeId: string, payload: Text)

  datatype Clip = Clip(group: Option<string>, tombstoned: bool)

  datatype Tables = Tables(
    proposals: map<string, Proposal>, transactions: map<string, Transaction>, outbox: seq<OutboxRow>,
    groups: map<string, bool>, clips: map<string, Clip>)

  /** The parts of product/domain the steps call: the digest of a canonical envelope and the
      typed decoders. Each is some function; nothing else is assumed of them. */
  datatype Domain = Domain(
    hash: Json -> string,
    digestParses: string -> bool,
    typedOperations: Json -> Option<Json>,
    typedChanges: Json -> Option<Json>,
    actor: (string, string) -> Option<Json>,
    projectId: string -> Option<Json>,
    revision: nat -> Option<Json>,
    transactionId: string -> Option<Json>)

  // ----- Canonical envelopes -----

  function Envelope(domain: string, schema: string, payload: Json): (r: Json) {
    Obj(map["domain" := Str(domain), "payload" := payload, "schema" := Str(schema)])
  }

  predicate CanonicalDecimal(s: string) {
    || s == "0"
    || (&& |s| > 0
        && s[0] != '0'
        && (s[0] == '-' ==> |s| > 1 && s[1] != '0')
        && forall i :: (if s[0] == '-' then 1 else 0) <= i < |s| ==> Decimal.IsDigit(s[i]))
  }

  /** Canonical encoding succeeds: every number in the document is a canonical decimal. */
  predicate Canonicalizable(v: Json)
    decreases v
  {
    match v
    case Number(digits) => CanonicalDecimal(digits)
    case Arr(items) => forall i :: 0 <= i < |items| ==> Canonicalizable(items[i])
    case Obj(m) => forall k :: k in m ==> Canonicalizable(m[k])
    case _ => true
  }

  // ----- Rewriting one payload or column -----

  function Decoded(t: Text): (r: Option<Json>) {
    match t
    case Encoded(v) => Some(v)
    case Malformed(_) => None
  }

  /** A document at the place of an operation list: whole payload for step 1, list for step 4. */
  function RewrittenList(step: Step, v: Json): (r: Option<Json>) {
    if step == 1 then
      if AlignmentRewrite.Rewritable(v) then Some(AlignmentRewrite.Rewritten(v)) else None
    else if step == 4 then
      if v.Arr? && NarrativeRewrite.Accepted(v.items) then Some(Arr(NarrativeRewrite.WrappedAll(v.items))) else None
    else Some(v)
  }

  function RewrittenPayload(step: Step, payload: Json): (r: Option<Json>) {
    if step == 4 then
      if !payload.Obj? then None
      else
        var operations := RewrittenList(4, Field(payload, "operations"));
        var inverse := RewrittenList(4, Field(payload, "inverse"));
        if operations.None? || inverse.None? then None
        else Some(Obj(payload.fields["operations" := operations.value]["inverse" := inverse.value]))
    else RewrittenList(step, payload)
  }

  /** Steps 2 and 3 leave the columns alone and do not decode them. */
  function RewrittenColumn(step: Step, t: Text): (r: Option<Text>) {
    if step == 2 || step == 3 then Some(t)
    else match Decoded(t)
      case None => None
      case Some(v) =>
        match RewrittenList(step, v)
        case None => None
        case Some(w) => Some(Encoded(w))
  }

  // ----- One row -----

  function MigratedProposal(d: Domain, step: Step, p: Proposal): (r: Option<Proposal>) {
    match Decoded(p.canonical)
    case None => None
    case Some(record) =>
      if !record.Obj? || Field(record, "domain") != Str(PROPOSAL_DOMAIN) || "payload" !in record.fields then None
      else
        var payload := RewrittenPayload(step, record.fields["payload"]);
        var operations := RewrittenColumn(step, p.operations);
        var inverse := RewrittenColumn(step, p.inverse);
        if payload.None? || operations.None? || inverse.None? then None
        else
          var envelope := Envelope(PROPOSAL_DOMAIN, ProposalSchema(step + 1), payload.value);
          if !Canonicalizable(envelope) then None
          else Some(Proposal(ProposalSchema(step + 1), d.hash(envelope), Encoded(envelope), operations.value, inverse.value))
  }

  function Typed(decode: Json -> Option<Json>, t: Text): (r: Option<Json>) {
    match Decoded(t)
    case None => None
    case Some(v) => decode(v)
  }

  /** The record a transaction digest covers, built from the stored columns and the digest of
      the proposal. */
  function TransactionPayload(d: Domain, t: Transaction, proposalDigest: string): (r: Option<Json>) {
    var operations := Typed(d.typedOperations, t.operations);
    var inverse := Typed(d.typedOperations, t.inverse);
    var changes := Typed(d.typedChanges, t.changes);
    var actor := d.actor(t.actorKind, t.actorId);
    var project := d.projectId(t.projectId);
    var revision := d.revision(t.projectRevision);
    var undoes := if t.undoes.Some? then d.transactionId(t.undoes.value) else Some(Null);
    if operations.None? || inverse.None? || changes.None? || actor.None? || project.None? || revision.None?
       || undoes.None? || !d.digestParses(proposalDigest) then None
    else
      var fields := map[
        "actor" := actor.value, "changes" := changes.value, "committedProjectRevision" := revision.value,
        "intent" := Str(t.intent), "inverse" := inverse.value, "operations" := operations.value,
        "projectId" := project.value, "proposalDigest" := Str(proposalDigest)];
      Some(Obj(if t.undoes.Some? then fields["undoesTransactionId" := undoes.value] else fields))
  }

  function MigratedTransaction(d: Domain, step: Step, proposals: map<string, Proposal>, t: Transaction)
    : (r: Option<Transaction>)
  {
    var operations := RewrittenColumn(step, t.operations);
    var inverse := RewrittenColumn(step, t.inverse);
    if operations.None? || inverse.None? || t.proposalId !in proposals then None
    else
      var row := t.(operations := operations.value, inverse := inverse.value);
      match TransactionPayload(d, row, proposals[t.proposalId].digest)
      case None => None
      case Some(payload) =>
        var envelope := Envelope(TRANSACTION_DOMAIN, TransactionSchema(step + 1), payload);
        if !Canonicalizable(envelope) then None
        else Some(row.(schema := TransactionSchema(step + 1), digest := d.hash(envelope)))
  }

  predicate Announces(row: OutboxRow, id: string) {
    row.kind == "edit.proposed" && row.outcomeKind == "proposal" && row.outcomeId == id
  }

  /** SQLite's json_set at '$.proposalDigest': only an object gains the key. */
  function WithDigest(t: Text, digest: string): (r: Option<Text>) {
    match t
    case Malformed(_) => None
    case Encoded(v) => Some(if v.Obj? then Encoded(Obj(v.fields["proposalDigest" := Str(digest)])) else t)
  }

  // ----- One step over the tables -----

  function LiveMembers(t: Tables, group: string): (r: set<string>) {
    set c | c in t.clips && t.clips[c].group == Some(group) && !t.clips[c].tombstoned
  }

  predicate ClosedLinkGroups(t: Tables) {
    forall g :: g in t.groups ==>
      if t.groups[g] then |LiveMembers(t, g)| == 0 else 2 <= |LiveMembers(t, g)| <= 64
  }

  predicate ProposalsMigrate(d: Domain, step: Step, proposals: map<string, Proposal>) {
    forall id :: id in proposals && proposals[id].schema == ProposalSchema(step) ==>
                   MigratedProposal(d, step, proposals[id]).Some?
  }

  function MigratedProposals(d: Domain, step: Step, proposals: map<string, Proposal>): (r: map<string, Proposal>)
    requires ProposalsMigrate(d, step, proposals)
  {
    map id | id in proposals ::
      if proposals[id].schema == ProposalSchema(step) then MigratedProposal(d, step, proposals[id]).value
      else proposals[id]
  }

  /** The digest announced for this outbox row changes in this step. */
  predicate Reannounced(step: Step, proposals: map<string, Proposal>, row: OutboxRow) {
    && row.outcomeId in proposals
    && Announces(row, row.outcomeId)
    && proposals[row.outcomeId].schema == ProposalSchema(step)
  }

  predicate OutboxMigrates(step: Step, proposals: map<string, Proposal>, outbox: seq<OutboxRow>) {
    forall i :: 0 <= i < |outbox| && Reannounced(step, proposals, outbox[i]) ==> outbox[i].payload.Encoded?
  }

  function MigratedOutbox(d: Domain, step: Step, proposals: map<string, Proposal>, outbox: seq<OutboxRow>)
    : (r: seq<OutboxRow>)
    requires ProposalsMigrate(d, step, proposals) && OutboxMigrates(step, proposals, outbox)
  {
    seq(|outbox|, i requires 0 <= i < |outbox| =>
      if Reannounced(step, proposals, outbox[i]) then
        var digest := MigratedProposals(d, step, proposals)[outbox[i].outcomeId].digest;
        outbox[i].(payload := WithDigest(outbox[i].payload, digest).value)
      else outbox[i])
  }

  predicate TransactionsMigrate(d: Domain, step: Step, proposals: map<string, Proposal>, rows: map<string, Transaction>) {
    forall id :: id in rows && rows[id].schema == TransactionSchema(step) ==>
                   MigratedTransaction(d, step, proposals, rows[id]).Some?
  }

  function MigratedTransactions(d: Domain, step: Step, proposals: map<string, Proposal>, rows: map<string, Transaction>)
    : (r: map<string, Transaction>)
    requires TransactionsMigrate(d, step, proposals, rows)
  {
    map id | id in rows ::
      if rows[id].schema == TransactionSchema(step) then MigratedTransaction(d, step, proposals, rows[id]).value
      else rows[id]
  }

  /** The step applies: no row at its level is refused. */
  predicate Applies(d: Domain, step: Step, t: Tables) {
    && (step == 2 ==> ClosedLinkGroups(t))
    && ProposalsMigrate(d, step, t.proposals)
    && OutboxMigrates(step, t.proposals, t.outbox)
    && TransactionsMigrate(d, step, MigratedProposals(d, step, t.proposals), t.transactions)
  }

  function Applied(d: Domain, step: Step, t: Tables): (r: Tables)
    requires Applies(d, step, t)
  {
    var proposals := MigratedProposals(d, step, t.proposals);
    t.(proposals := proposals,
       outbox := MigratedOutbox(d, step, t.proposals, t.outbox),
       transactions := MigratedTransactions(d, step, proposals, t.transactions))
  }
}
