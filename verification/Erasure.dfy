/** The statements of a forget, table by table, and what they add up to. */
module Erasure {
  import opened Basics
  import opened Ledger
  import opened Vault
  import opened Forgetting

  // ---------------------------------------------------------------- purging several proposals

  /** Provenance of one of the proposals `gone`. */
  predicate IsPurged(a: Activity, gone: map<Id, Proposal>) {
    a.target in gone && a.project == gone[a.target].content.project
  }

  function KeptProvenance(provenance: map<Id, Activity>, gone: map<Id, Proposal>): map<Id, Activity> {
    map a | a in provenance && !IsPurged(provenance[a], gone) :: provenance[a]
  }

  function Purged(v: Vault, gone: map<Id, Proposal>, sequence: nat, disposition: Disposition): Vault
    requires UniqueDeliveries(gone)
  {
    v.(tombstones := Suppress(v.tombstones, gone, sequence, disposition),
       provenance := KeptProvenance(v.provenance, gone),
       proposals := v.proposals - gone.Keys,
       reviews := RowsElsewhere(v.reviews, gone.Keys))
  }

  lemma PurgedNone(v: Vault, sequence: nat, disposition: Disposition)
    ensures Purged(v, map[], sequence, disposition) == v
  {
    hide Suppress, KeptProvenance, RowsElsewhere;
    SuppressNone(v.tombstones, sequence, disposition);
    KeptAll(v.provenance, v.reviews);
    var none: map<Id, Proposal> := map[];
    assert none.Keys == {} && v.proposals - {} == v.proposals;
  }

  lemma SuppressNone(tombstones: map<Delivery, Tombstone>, sequence: nat, disposition: Disposition)
    ensures Suppress(tombstones, map[], sequence, disposition) == tombstones
  {
  }

  lemma KeptAll(provenance: map<Id, Activity>, reviews: map<Id, Id>)
    ensures KeptProvenance(provenance, map[]) == provenance && RowsElsewhere(reviews, {}) == reviews
  {
  }

  lemma GraveOf(gone: map<Id, Proposal>, p: Id, sequence: nat, disposition: Disposition)
    requires UniqueDeliveries(gone) && p in gone
    ensures var graves := Graves(gone, sequence, disposition);
            DeliveryOf(gone[p]) in graves && graves[DeliveryOf(gone[p])] == Tombstone(p, disposition, sequence)
  {
  }

  lemma GraveFrom(gone: map<Id, Proposal>, k: Delivery, sequence: nat, disposition: Disposition) returns (p: Id)
    requires UniqueDeliveries(gone) && k in Graves(gone, sequence, disposition)
    ensures p in gone && DeliveryOf(gone[p]) == k
  {
    p :| p in gone && DeliveryOf(gone[p]) == k;
  }

  lemma FewerDeliveries(gone: map<Id, Proposal>, id: Id, p: Proposal)
    requires id !in gone && UniqueDeliveries(gone[id := p])
    ensures UniqueDeliveries(gone)
    ensures forall q | q in gone :: DeliveryOf(gone[q]) != DeliveryOf(p)
  {
    var more := gone[id := p];
    forall i, j | i in gone && j in gone && DeliveryOf(gone[i]) == DeliveryOf(gone[j]) ensures i == j {
      assert more[i] == gone[i] && more[j] == gone[j];
    }
    forall q | q in gone ensures DeliveryOf(gone[q]) != DeliveryOf(p) {
      assert more[q] == gone[q] && more[id] == p;
    }
  }

  lemma GravesOneMore(gone: map<Id, Proposal>, id: Id, p: Proposal, sequence: nat, disposition: Disposition)
    requires id !in gone && UniqueDeliveries(gone[id := p])
    ensures UniqueDeliveries(gone)
    ensures DeliveryOf(p) !in Graves(gone, sequence, disposition)
    ensures Graves(gone[id := p], sequence, disposition)
         == Graves(gone, sequence, disposition)[DeliveryOf(p) := Tombstone(id, disposition, sequence)]
  {
    hide UniqueDeliveries, Graves;
    FewerDeliveries(gone, id, p);
    var more := gone[id := p];
    var before, after := Graves(gone, sequence, disposition), Graves(more, sequence, disposition);
    if DeliveryOf(p) in before {
      var q := GraveFrom(gone, DeliveryOf(p), sequence, disposition);
      assert false;
    }
    var target := before[DeliveryOf(p) := Tombstone(id, disposition, sequence)];
    forall k | k in after ensures k in target {
      var q := GraveFrom(more, k, sequence, disposition);
      if q != id { GraveOf(gone, q, sequence, disposition); }
    }
    forall k | k in target ensures k in after && after[k] == target[k] {
      if k == DeliveryOf(p) {
        GraveOf(more, id, sequence, disposition);
      } else {
        var q := GraveFrom(gone, k, sequence, disposition);
        GraveOf(gone, q, sequence, disposition);
        GraveOf(more, q, sequence, disposition);
      }
    }
    assert after == target;
  }

  lemma PurgedOneMore(v: Vault, gone: map<Id, Proposal>, id: Id, sequence: nat, disposition: Disposition)
    requires id in v.proposals && id !in gone && UniqueDeliveries(gone[id := v.proposals[id]])
    ensures UniqueDeliveries(gone)
    ensures id in Purged(v, gone, sequence, disposition).proposals
    ensures PurgeOne(Purged(v, gone, sequence, disposition), id, sequence, disposition)
         == Purged(v, gone[id := v.proposals[id]], sequence, disposition)
  {
    hide UniqueDeliveries, Graves;
    GravesOneMore(gone, id, v.proposals[id], sequence, disposition);
    PurgedTablesOneMore(v, gone, id, v.proposals[id]);
    SuppressOneMore(v.tombstones, gone, id, v.proposals[id], sequence, disposition);
    hide KeptProvenance, RowsElsewhere, Suppress;
    var w := PurgeOne(Purged(v, gone, sequence, disposition), id, sequence, disposition);
    assert w.tombstones == Suppress(v.tombstones, gone[id := v.proposals[id]], sequence, disposition);
  }

  lemma SuppressOneMore(tombstones: map<Delivery, Tombstone>, gone: map<Id, Proposal>, id: Id, p: Proposal, sequence: nat,
                        disposition: Disposition)
    requires id !in gone && UniqueDeliveries(gone[id := p])
    ensures UniqueDeliveries(gone)
    ensures var t := Suppress(tombstones, gone, sequence, disposition);
            Suppress(tombstones, gone[id := p], sequence, disposition)
              == if DeliveryOf(p) in t then t else t[DeliveryOf(p) := Tombstone(id, disposition, sequence)]
  {
    hide UniqueDeliveries, Graves;
    GravesOneMore(gone, id, p, sequence, disposition);
  }

  lemma PurgedTablesOneMore(v: Vault, gone: map<Id, Proposal>, id: Id, p: Proposal)
    requires id !in gone
    ensures v.proposals - gone.Keys - {id} == v.proposals - gone[id := p].Keys
    ensures var reviews := RowsElsewhere(v.reviews, gone.Keys);
            RowsElsewhere(reviews, {id}) == RowsElsewhere(v.reviews, gone[id := p].Keys)
    ensures var provenance := KeptProvenance(v.provenance, gone);
            (map a | a in provenance && !(provenance[a].project == p.content.project && provenance[a].target == id)
               :: provenance[a]) == KeptProvenance(v.provenance, gone[id := p])
  {
  }

  // ---------------------------------------------------------------- evidence nobody references

  function Unreferenced(v: Vault, ids: set<Id>): set<Id> {
    set e | e in ids && !Referenced(v, e)
  }

  predicate Referenced(v: Vault, e: Id) {
    exists r | r in v.evidenceRefs :: r.0 == e
  }

  // ---------------------------------------------------------------- the stages of a forget

  function KeptFeedback(feedback: map<Id, Feedback>, gone: set<Id>): map<Id, Feedback> {
    map r | r in feedback && feedback[r].assertion !in gone :: feedback[r]
  }

  function KeptTargets(provenance: map<Id, Activity>, project: Project, gone: set<Id>): map<Id, Activity> {
    map a | a in provenance && !(provenance[a].project == project && provenance[a].target in gone) :: provenance[a]
  }

  /** The recalls of the project among `ids` lose the forgotten results. */
  function PrunedRecalls(recalls: map<Id, Recall>, ids: set<Id>, gone: set<Id>): map<Id, Recall> {
    map r | r in recalls ::
      if r in ids then recalls[r].(results := Without(recalls[r].results, gone)) else recalls[r]
  }

  function RecallsOf(recalls: map<Id, Recall>, project: Project): set<Id> {
    set r | r in recalls && recalls[r].project == project
  }

  function ToldOfForget(b: Book, threadId: Id): Book
    requires threadId in b.threads
  {
    var project := b.threads[threadId].project;
    b.(sequence := b.sequence + 1, audience :=
         Announce(b.audience, project, b.sequence + 1, Audience(b, project, VersionsOf(b, threadId))))
  }

  /** The state just before `DELETE FROM claim_threads`. */
  function Staged(v: Vault, threadId: Id): Vault
    requires CanForget(v, threadId)
  {
    var thread := v.book.threads[threadId];
    var gone := VersionsOf(v.book, threadId);
    Purged(v.(book := ToldOfForget(v.book, threadId),
              feedback := KeptFeedback(v.feedback, gone),
              recalls := PrunedRecalls(v.recalls, RecallsOf(v.recalls, thread.project), gone),
              fts := RowsElsewhere(v.fts, gone),
              provenance := KeptTargets(v.provenance, thread.project, gone)),
           ProposalsOn(v, thread), v.book.sequence + 1, WasForgotten)
  }

  function Finished(v: Vault, threadId: Id, deleted: Vault, receipt: Id): Vault
    requires threadId in v.book.threads
  {
    deleted.(evidence := deleted.evidence - Unreferenced(deleted, ReferencedBy(v, VersionsOf(v.book, threadId))),
             receipts := deleted.receipts[receipt := Receipt(v.book.threads[threadId].project, threadId, v.book.sequence + 1)])
  }

  /** No proposal that is left blocks the deletion of the thread. */
  lemma DeletionIsNotBlocked(v: Vault, threadId: Id)
    requires VaultInv(v) && threadId in v.book.threads
    ensures DeleteThread(Staged(v, threadId), threadId).Some?
  {
  }

  // Each table: deleting what refers to the forgotten ids is deleting what the scope lists.

  lemma RowsSplit(rows: map<Id, Id>, ids: set<Id>)
    ensures RowsElsewhere(rows, ids) == rows - RowsInto(rows, ids).Keys
  {
  }

  lemma RefsSplit(refs: set<(Id, Id)>, ids: set<Id>)
    ensures RefsElsewhere(refs, ids) == refs - RefsOf(refs, ids)
  {
  }

  lemma RelationsSplit(relations: map<Id, Relation>, ids: set<Id>)
    ensures RelationsElsewhere(relations, ids) == relations - RelationsOf(relations, ids).Keys
  {
  }

  lemma MembersSplit(members: set<(Id, Id)>, conflicts: set<Id>, ids: set<Id>)
    ensures MembersElsewhere(members, conflicts, ids) == members - MembersOf(members, conflicts, ids)
  {
  }

  lemma FeedbackSplit(feedback: map<Id, Feedback>, ids: set<Id>)
    ensures KeptFeedback(feedback, ids) == feedback - FeedbackOn(feedback, ids).Keys
  {
  }

  lemma ProvenanceSplit(provenance: map<Id, Activity>, project: Project, gone: set<Id>, proposals: map<Id, Proposal>)
    requires forall p | p in proposals :: proposals[p].content.project == project
    ensures KeptProvenance(KeptTargets(provenance, project, gone), proposals)
         == provenance - ProvenanceOf(provenance, project, gone + proposals.Keys).Keys
  {
  }

  /** Pruning every recall of the project changes exactly the recalls that mention a forgotten id. */
  lemma RecallsSplit(v: Vault, project: Project, gone: set<Id>)
    ensures PrunedRecalls(v.recalls, RecallsOf(v.recalls, project), gone)
         == PrunedRecalls(v.recalls, Mentioning(v.recalls, project, gone), gone)
  {
    forall r | r in v.recalls && !Mentions(v.recalls[r], gone) ensures Without(v.recalls[r].results, gone) == v.recalls[r].results {
      WithoutChanges(v.recalls[r].results, gone);
    }
  }

  lemma StagesMeetOnRows(v: Vault, threadId: Id, receipt: Id)
    requires CanForget(v, threadId) && DeleteThread(Staged(v, threadId), threadId).Some?
    ensures var w := DeleteThread(Staged(v, threadId), threadId).value;
            var z := ForgetThreadOp(v, threadId, receipt);
            && w.evidenceRefs == z.evidenceRefs && w.attestations == z.attestations && w.consents == z.consents
            && w.fts == z.fts && w.feedback == z.feedback
  {
    var gone := VersionsOf(v.book, threadId);
    assert VersionsOf(Staged(v, threadId).book, threadId) == gone;
    hide VersionsOf, Suppress, Apply, SharedOutside, ReferencedBy, ProposalsOn, RowsElsewhere, RowsInto, RefsElsewhere, RefsOf,
      RelationsElsewhere, RelationsOf, MembersElsewhere, MembersOf, KeptFeedback, FeedbackOn, UniqueDeliveries,
      KeptProvenance, KeptTargets, ProvenanceOf, ConflictsOn, ToldOfForget, Without, Mentions, PrunedRecalls, RecallsOf;
    RowsSplit(v.attestations, gone);
    RowsSplit(v.consents, gone);
    RowsSplit(v.fts, gone);
    RefsSplit(v.evidenceRefs, gone);
    FeedbackSplit(v.feedback, gone);
  }

  /** What the statements leave of the tables that link rows. */
  lemma StagedLinks(v: Vault, threadId: Id)
    requires CanForget(v, threadId) && DeleteThread(Staged(v, threadId), threadId).Some?
    ensures var w := DeleteThread(Staged(v, threadId), threadId).value;
            var gone := VersionsOf(v.book, threadId);
            var conflicts := ConflictsOn(v.conflicts, threadId).Keys;
            && w.relations == RelationsElsewhere(v.relations, gone)
            && w.conflicts == v.conflicts - conflicts
            && w.conflictMembers == MembersElsewhere(v.conflictMembers, conflicts, gone)
  {
  }

  lemma StagedDrafts(v: Vault, threadId: Id)
    requires CanForget(v, threadId) && DeleteThread(Staged(v, threadId), threadId).Some?
    ensures var w := DeleteThread(Staged(v, threadId), threadId).value;
            var thread := v.book.threads[threadId];
            var gone := ProposalsOn(v, thread);
            && w.proposals == v.proposals - gone.Keys
            && w.reviews == RowsElsewhere(v.reviews, gone.Keys)
            && w.provenance == KeptProvenance(KeptTargets(v.provenance, thread.project, VersionsOf(v.book, threadId)), gone)
            && w.tombstones == Suppress(v.tombstones, gone, v.book.sequence + 1, WasForgotten)
  {
    hide VersionsOf, Suppress, Apply, SharedOutside, ReferencedBy, ProposalsOn, RowsElsewhere, RowsInto, RefsElsewhere, RefsOf,
      RelationsElsewhere, RelationsOf, MembersElsewhere, MembersOf, KeptFeedback, FeedbackOn, UniqueDeliveries,
      KeptProvenance, KeptTargets, ProvenanceOf, ConflictsOn, ToldOfForget, Without, Mentions, PrunedRecalls, RecallsOf;
  }

  /** What the scope takes from them. */
  lemma ForgottenLinks(v: Vault, threadId: Id, receipt: Id)
    requires CanForget(v, threadId)
    ensures var z := ForgetThreadOp(v, threadId, receipt);
            var gone := VersionsOf(v.book, threadId);
            && z.relations == v.relations - RelationsOf(v.relations, gone).Keys
            && z.conflicts == v.conflicts - ConflictsOn(v.conflicts, threadId).Keys
            && z.conflictMembers
                 == v.conflictMembers - MembersOf(v.conflictMembers, ConflictsOn(v.conflicts, threadId).Keys, gone)
  {
  }

  lemma ForgottenDrafts(v: Vault, threadId: Id, receipt: Id)
    requires CanForget(v, threadId)
    ensures var z := ForgetThreadOp(v, threadId, receipt);
            var thread := v.book.threads[threadId];
            var gone := ProposalsOn(v, thread);
            && z.reviews == v.reviews - RowsInto(v.reviews, gone.Keys).Keys
            && z.provenance
                 == v.provenance - ProvenanceOf(v.provenance, thread.project, VersionsOf(v.book, threadId) + gone.Keys).Keys
  {
  }

  lemma StagesMeetOnLinks(v: Vault, threadId: Id, receipt: Id)
    requires CanForget(v, threadId) && DeleteThread(Staged(v, threadId), threadId).Some?
    ensures var w := DeleteThread(Staged(v, threadId), threadId).value;
            var z := ForgetThreadOp(v, threadId, receipt);
            w.relations == z.relations && w.conflicts == z.conflicts && w.conflictMembers == z.conflictMembers
  {
    assert threadId in v.book.threads;
    hide *;
    var gone := VersionsOf(v.book, threadId);
    StagedLinks(v, threadId);
    ForgottenLinks(v, threadId, receipt);
    RelationsSplit(v.relations, gone);
    MembersSplit(v.conflictMembers, ConflictsOn(v.conflicts, threadId).Keys, gone);
  }

  lemma StagesMeetOnDrafts(v: Vault, threadId: Id, receipt: Id)
    requires CanForget(v, threadId) && DeleteThread(Staged(v, threadId), threadId).Some?
    ensures var w := DeleteThread(Staged(v, threadId), threadId).value;
            var z := ForgetThreadOp(v, threadId, receipt);
            w.proposals == z.proposals && w.reviews == z.reviews && w.provenance == z.provenance && w.tombstones == z.tombstones
  {
    var thread := v.book.threads[threadId];
    var proposals := ProposalsOn(v, thread);
    assert forall p | p in proposals :: proposals[p].content.project == thread.project;
    hide *;
    StagedDrafts(v, threadId);
    ForgottenDrafts(v, threadId, receipt);
    ForgetTables(v, threadId, receipt);
    RowsSplit(v.reviews, proposals.Keys);
    ProvenanceSplit(v.provenance, thread.project, VersionsOf(v.book, threadId), proposals);
  }

  /** Checking for references after the cascade finds exactly the evidence the scope calls owned. */
  lemma EvidenceSplit(v: Vault, w: Vault, gone: set<Id>)
    requires w.evidence == v.evidence && w.evidenceRefs == RefsElsewhere(v.evidenceRefs, gone)
    ensures var evidence := ReferencedBy(v, gone);
            v.evidence - Unreferenced(w, evidence)
              == v.evidence - (map e | e in v.evidence && e in evidence && !SharedOutside(v, e, gone) :: v.evidence[e]).Keys
  {
  }

  lemma StagesMeetOnEvidence(v: Vault, threadId: Id, receipt: Id)
    requires CanForget(v, threadId) && DeleteThread(Staged(v, threadId), threadId).Some?
    ensures var w := DeleteThread(Staged(v, threadId), threadId).value;
            Finished(v, threadId, w, receipt).evidence == ForgetThreadOp(v, threadId, receipt).evidence
  {
    var gone := VersionsOf(v.book, threadId);
    assert VersionsOf(Staged(v, threadId).book, threadId) == gone;
    hide VersionsOf, Suppress, Apply, SharedOutside, ReferencedBy, ProposalsOn, RowsElsewhere, RowsInto, RefsElsewhere, RefsOf,
      RelationsElsewhere, RelationsOf, MembersElsewhere, MembersOf, KeptFeedback, FeedbackOn, UniqueDeliveries,
      KeptProvenance, KeptTargets, ProvenanceOf, ConflictsOn, ToldOfForget, Without, Mentions, PrunedRecalls, RecallsOf,
      Unreferenced;
    var w := DeleteThread(Staged(v, threadId), threadId).value;
    EvidenceSplit(v, w, gone);
  }

  lemma StagesMeetOnRecalls(v: Vault, threadId: Id, receipt: Id)
    requires CanForget(v, threadId) && DeleteThread(Staged(v, threadId), threadId).Some?
    ensures DeleteThread(Staged(v, threadId), threadId).value.recalls == ForgetThreadOp(v, threadId, receipt).recalls
  {
    var gone := VersionsOf(v.book, threadId);
    var project := v.book.threads[threadId].project;
    RecallsSplit(v, project, gone);
    var s := ForgetScope(v, project, threadId).value;
    assert s.recalls.Keys == Mentioning(v.recalls, project, gone);
    assert s.versions.Keys == gone;
    hide VersionsOf, Suppress, Apply, SharedOutside, ReferencedBy, ProposalsOn, UniqueDeliveries, ToldOfForget, Without,
      Mentioning, RecallsOf, ForgetScope;
  }

  lemma StagesMeetOnRest(v: Vault, threadId: Id, receipt: Id)
    requires CanForget(v, threadId) && DeleteThread(Staged(v, threadId), threadId).Some?
    ensures var w := Finished(v, threadId, DeleteThread(Staged(v, threadId), threadId).value, receipt);
            w.book == ForgetThreadOp(v, threadId, receipt).book && w.receipts == ForgetThreadOp(v, threadId, receipt).receipts
  {
  }

  /** The statements of a forget, run in their order, remove exactly the scope. */
  lemma StagesMeet(v: Vault, threadId: Id, receipt: Id)
    requires CanForget(v, threadId) && DeleteThread(Staged(v, threadId), threadId).Some?
    ensures Finished(v, threadId, DeleteThread(Staged(v, threadId), threadId).value, receipt)
         == ForgetThreadOp(v, threadId, receipt)
  {
    hide Staged, DeleteThread, ForgetThreadOp, CanForget, ReferencedBy, Unreferenced, VersionsOf;
    StagesMeetOnRows(v, threadId, receipt);
    StagesMeetOnLinks(v, threadId, receipt);
    StagesMeetOnDrafts(v, threadId, receipt);
    StagesMeetOnEvidence(v, threadId, receipt);
    StagesMeetOnRecalls(v, threadId, receipt);
    StagesMeetOnRest(v, threadId, receipt);
  }
}
