/** The migration steps as the source runs them: rows are selected first, then each row is
    rewritten and stored in turn. */
module JournalMigration {
  import opened Json
  import opened EditJournal

  /** UPDATE activity_outbox for one proposal: fails when a matching payload is not JSON. */
  function Announced(outbox: seq<OutboxRow>, id: string, digest: string): (r: Option<seq<OutboxRow>>) {
    if exists i :: 0 <= i < |outbox| && Announces(outbox[i], id) && outbox[i].payload.Malformed? then None
    else Some(seq(|outbox|, i requires 0 <= i < |outbox| =>
      if Announces(outbox[i], id) then outbox[i].(payload := WithDigest(outbox[i].payload, digest).value) else outbox[i]))
  }

  class Journal {
    const d: Domain
    var proposals: map<string, Proposal>
    var transactions: map<string, Transaction>
    var outbox: seq<OutboxRow>
    var groups: map<string, bool>
    var clips: map<string, Clip>

    constructor (d: Domain, t: Tables)
      ensures this.d == d && Contents() == t
    {
      this.d := d;
      proposals, transactions, outbox, groups, clips := t.proposals, t.transactions, t.outbox, t.groups, t.clips;
    }

    function Contents(): (t: Tables)
      reads this
    {
      Tables(proposals, transactions, outbox, groups, clips)
    }

    /** Any order of the selected ids: the result does not depend on it. */
    method SelectProposals(schema: string) returns (ids: seq<string>)
      ensures forall id :: id in ids <==> id in proposals && proposals[id].schema == schema
      ensures forall i, j :: 0 <= i < j < |ids| ==> ids[i] != ids[j]
    {
      ids := [];
      var rest := set id | id in proposals && proposals[id].schema == schema;
      while rest != {}
        invariant forall id :: id in ids ==> id !in rest
        invariant forall id :: id in ids || id in rest <==> id in proposals && proposals[id].schema == schema
        invariant forall i, j :: 0 <= i < j < |ids| ==> ids[i] != ids[j]
        decreases |rest|
      {
        var id :| id in rest;
        ids := ids + [id];
        rest := rest - {id};
      }
    }

    method SelectTransactions(schema: string) returns (ids: seq<string>)
      ensures forall id :: id in ids <==> id in transactions && transactions[id].schema == schema
      ensures forall i, j :: 0 <= i < j < |ids| ==> ids[i] != ids[j]
    {
      ids := [];
      var rest := set id | id in transactions && transactions[id].schema == schema;
      while rest != {}
        invariant forall id :: id in ids ==> id !in rest
        invariant forall id :: id in ids || id in rest <==> id in transactions && transactions[id].schema == schema
        invariant forall i, j :: 0 <= i < j < |ids| ==> ids[i] != ids[j]
        decreases |rest|
      {
        var id :| id in rest;
        ids := ids + [id];
        rest := rest - {id};
      }
    }

    method RewriteProposals(step: Step) returns (ok: bool)
      modifies this`proposals, this`outbox
      ensures ok <==> && ProposalsMigrate(d, step, old(proposals))
                      && OutboxMigrates(step, old(proposals), old(outbox))
      ensures ok ==> && proposals == MigratedProposals(d, step, old(proposals))
                     && outbox == MigratedOutbox(d, step, old(proposals), old(outbox))
    {
      var ids := SelectProposals(ProposalSchema(step));
      ghost var rows, sent := proposals, outbox;
      for index := 0 to |ids|
        invariant proposals.Keys == rows.Keys && |outbox| == |sent|
        invariant forall id :: id in rows && id !in ids[..index] ==> proposals[id] == rows[id]
        invariant forall id :: id in ids[..index] ==> MigratedProposal(d, step, rows[id]) == Some(proposals[id])
        invariant forall i :: 0 <= i < |sent| ==>
          if Reannounced(step, rows, sent[i]) && sent[i].outcomeId in ids[..index]
          then sent[i].payload.Encoded? &&
               outbox[i] == sent[i].(payload := WithDigest(sent[i].payload, proposals[sent[i].outcomeId].digest).value)
          else outbox[i] == sent[i]
      {
        var id := ids[index];
        assert id !in ids[..index];
        assert ids[..index + 1] == ids[..index] + [id];
        var next := MigratedProposal(d, step, proposals[id]);
        if next.None? { return false; }
        var announced := Announced(outbox, id, next.value.digest);
        if announced.None? {
          var i :| 0 <= i < |outbox| && Announces(outbox[i], id) && outbox[i].payload.Malformed?;
          assert sent[i].outcomeId == id && Reannounced(step, rows, sent[i]);
          return false;
        }
        proposals := proposals[id := next.value];
        outbox := announced.value;
      }
      assert ids[..|ids|] == ids;
      ok := true;
    }

    method RewriteTransactions(step: Step) returns (ok: bool)
      modifies this`transactions
      ensures ok <==> TransactionsMigrate(d, step, proposals, old(transactions))
      ensures ok ==> transactions == MigratedTransactions(d, step, proposals, old(transactions))
    {
      var ids := SelectTransactions(TransactionSchema(step));
      ghost var rows := transactions;
      for index := 0 to |ids|
        invariant transactions.Keys == rows.Keys
        invariant forall id :: id in rows && id !in ids[..index] ==> transactions[id] == rows[id]
        invariant forall id :: id in ids[..index] ==>
                                 MigratedTransaction(d, step, proposals, rows[id]) == Some(transactions[id])
      {
        var id := ids[index];
        assert id !in ids[..index];
        assert ids[..index + 1] == ids[..index] + [id];
        var next := MigratedTransaction(d, step, proposals, transactions[id]);
        if next.None? { return false; }
        transactions := transactions[id := next.value];
      }
      assert ids[..|ids|] == ids;
      ok := true;
    }

    /** One whole step. On failure the caller rolls the SQL transaction back. */
    method RewriteEditJournal(step: Step) returns (ok: bool)
      modifies this
      ensures ok <==> Applies(d, step, old(Contents()))
      ensures ok ==> Contents() == Applied(d, step, old(Contents()))
    {
      if step == 2 && !ClosedLinkGroups(Contents()) { return false; }
      ok := RewriteProposals(step);
      if ok { ok := RewriteTransactions(step); }
    }
  }
}
