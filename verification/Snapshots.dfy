/** What readers are promised, over runs of the whole kernel rather than of the ledger alone. */
module Snapshots {
  import opened Basics
  import opened Ledger
  import opened Vault
  import Reads
  import Disputes

  /** The ledger's part of one transaction. */
  lemma OpIsSteps(v: Vault, op: Op) returns (steps: seq<Step>)
    requires VaultInv(v)
    ensures ApplyOp(v, op).book == Run(v.book, steps)
    ensures forall s | s in steps :: s.Forget? ==> op.ForgetThread? && op.thread == s.threadId
  {
    hide VaultInv, Apply, CanAccept, CanPropose, CanForget, CanForgetProposal, AdmitOf, ForgetScope, ActiveMembers, Unused;
    steps := [];
    if CanDo(v, op) {
      match op
      case Accept(_, _, _, _) => steps := [AdmitOf(v, op)]; AdmissionIsAdmit(v, op);
      case Propose(_, _, _, _, _, _) => steps := [Tick];
      case Purge(_, _) => steps := [Tick];
      case ExpireVersion(id, now) => steps := [Expire(id, now)];
      case Spend => steps := [Tick];
      case ResolveConflicts(_, _) =>
      case ForgetThread(threadId, _) => steps := [Forget(threadId)];
      case ForgetProposal(_, _) => steps := [Tick];
      case SaveFeedback(_, _) => steps := [Tick];
      case SaveRecall(_, _) =>
    }
    RunOne(v.book, steps);
  }

  lemma AdmissionIsAdmit(v: Vault, op: Op)
    requires op.Accept?
    ensures AdmitOf(v, op).Admit?
  {
  }

  lemma RunOne(b: Book, steps: seq<Step>)
    requires |steps| <= 1
    ensures Run(b, steps) == if steps == [] then b else Apply(b, steps[0])
  {
  }

  predicate Forgets(ops: seq<Op>, threadId: Id) {
    exists op | op in ops :: op.ForgetThread? && op.thread == threadId
  }

  /** A run of transactions is a run of the ledger. */
  lemma {:induction false} RunIsSteps(v: Vault, ops: seq<Op>) returns (steps: seq<Step>)
    requires VaultInv(v)
    ensures RunOps(v, ops).book == Run(v.book, steps)
    ensures forall s | s in steps && s.Forget? :: Forgets(ops, s.threadId)
    decreases |ops|
  {
    hide VaultInv, ApplyOp, Apply;
    steps := [];
    if ops != [] {
      OpKeepsVault(v, ops[0]);
      var first := OpIsSteps(v, ops[0]);
      var rest := RunIsSteps(ApplyOp(v, ops[0]), ops[1..]);
      RunConcat(v.book, first, rest);
      steps := first + rest;
      forall s | s in steps && s.Forget? ensures Forgets(ops, s.threadId) {
        if s in first {
          assert ops[0] in ops;
        } else {
          var op :| op in ops[1..] && op.ForgetThread? && op.thread == s.threadId;
          assert op in ops;
        }
      }
    }
  }

  /** Accepts, corrections, expiries, sweeps, proposals, purges, feedback and draft forgets, in any
      run: a read pinned at a recorded sequence keeps its rows, in the state they had. */
  lemma SnapshotsAreStable(v: Vault, ops: seq<Op>, e: Reads.Eligibility)
    requires VaultInv(v) && e.recorded <= v.book.sequence && forall t :: !Forgets(ops, t)
    ensures Reads.Snapshot(RunOps(v, ops).book, e) == Reads.Snapshot(v.book, e)
  {
    hide RunOps, Reads.Snapshot, Forgets;
    var steps := RunIsSteps(v, ops);
    assert Reads.ForgetFree(steps);
    Reads.SnapshotIsStable(v.book, steps, e);
  }

  /** And what it says about a thread's disputes stands until that thread is forgotten. */
  lemma DisputesAreStable(v: Vault, ops: seq<Op>, e: Reads.Eligibility, threadId: Id, verdict: Disputes.Verdict)
    requires VaultInv(v) && e.recorded <= v.book.sequence && !Forgets(ops, threadId)
    ensures Disputes.Judged(Disputes.ThreadRows(Reads.Rows(v.book, e), threadId), verdict)
       <==> Disputes.Judged(Disputes.ThreadRows(Reads.Rows(RunOps(v, ops).book, e), threadId), verdict)
  {
    hide RunOps, Reads.Rows, Disputes.ThreadRows, Disputes.Judged, Forgets;
    var steps := RunIsSteps(v, ops);
    Disputes.JudgementIsStable(v.book, steps, e, threadId, verdict);
  }

  /** The provenance that a detail view shows with an eligible version never meets the missing-timeline error
      either: it was recorded when the version was ingested, and the reader was told of that. */
  lemma ProvenanceHasSequences(v: Vault, e: Reads.Eligibility, p: Id)
    requires VaultInv(v) && Reads.Reader(v.book, e)
    requires p in v.provenance && Reads.Eligible(v.book, e, v.provenance[p].target)
    ensures var shown := Reads.VisibleSequence(v.book, e, v.provenance[p].created);
            shown.Some? && 1 <= shown.value <= Reads.Watermark(v.book, e)
  {
    var id := v.provenance[p].target;
    ActivityIsDated(v, p);
    EligibleIsStored(v.book, e, id);
    hide *;
    VaultHasInv(v);
    Reads.CardsHaveSequences(v.book, e, id);
    ShownIngest(v.book.versions[id], e.recorded);
  }

  lemma ActivityIsDated(v: Vault, p: Id)
    requires VaultInv(v) && p in v.provenance && v.provenance[p].target in v.book.versions
    ensures v.provenance[p].created == v.book.versions[v.provenance[p].target].ingest
  {
    assert IngestColumn(v.book)[v.provenance[p].target] == v.book.versions[v.provenance[p].target].ingest;
    hide Inv, ForeignKeysHold, EvidenceBacked, IndexMatches, UniqueThreads, ProposalsOk, CorrectionsInThread;
  }

  lemma EligibleIsStored(b: Book, e: Reads.Eligibility, id: Id)
    requires Reads.Eligible(b, e, id)
    ensures id in b.versions
  {
  }

  lemma VaultHasInv(v: Vault)
    requires VaultInv(v)
    ensures Inv(v.book)
  {
  }

  lemma ShownIngest(row: Version, recorded: nat)
    ensures Reads.AtSnapshot(row, recorded).ingest == row.ingest
  {
  }
}
