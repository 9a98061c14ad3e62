/** What a forget takes and what it spares, table by table, said about the rows alone. */
module Survivors {
  import opened Basics
  import opened Ledger
  import opened Vault
  import opened Deliveries
  import Forgetting

  /** A version of the memory. */
  predicate OfMemory(v: Vault, threadId: Id, a: Id) {
    a in v.book.versions && v.book.versions[a].thread == threadId
  }

  /** A draft about the subject of the memory: same project, same subject key. */
  predicate DraftOf(v: Vault, threadId: Id, p: Id) {
    && threadId in v.book.threads && p in v.proposals
    && v.proposals[p].content.project == v.book.threads[threadId].project
    && v.proposals[p].content.key == v.book.threads[threadId].key
  }

  /** Some version of the memory refers to the evidence, and no other version does. */
  ghost predicate OnlyEvidenceOf(v: Vault, threadId: Id, e: Id) {
    && (exists r | r in v.evidenceRefs :: r.0 == e && OfMemory(v, threadId, r.1))
    && (forall r | r in v.evidenceRefs && r.0 == e :: OfMemory(v, threadId, r.1))
  }

  predicate Gone(v: Vault, threadId: Id, id: Id) {
    OfMemory(v, threadId, id) || DraftOf(v, threadId, id)
  }

  /** The ledger keeps every other memory, version and disclosure. */
  ghost predicate LedgerSpares(v: Vault, w: Vault, threadId: Id) {
    && w.book.threads == v.book.threads - {threadId}
    && w.book.versions == v.book.versions - (set a | a in v.book.versions && OfMemory(v, threadId, a))
    && w.book.disclosures == (set d | d in v.book.disclosures && !OfMemory(v, threadId, d.0))
    && w.book.sequence == v.book.sequence + 1 && w.book.providers == v.book.providers
  }

  /** The rows that name one version go with it, and no others. */
  ghost predicate RowsSpare(v: Vault, w: Vault, threadId: Id) {
    && w.attestations == v.attestations - (set r | r in v.attestations && OfMemory(v, threadId, v.attestations[r]))
    && w.consents == v.consents - (set r | r in v.consents && OfMemory(v, threadId, v.consents[r]))
    && w.fts == v.fts - (set r | r in v.fts && OfMemory(v, threadId, v.fts[r]))
    && w.feedback == v.feedback - (set r | r in v.feedback && OfMemory(v, threadId, v.feedback[r].assertion))
    && w.evidenceRefs == (set r | r in v.evidenceRefs && !OfMemory(v, threadId, r.1))
    && w.evidence == v.evidence - (set e | e in v.evidence && OnlyEvidenceOf(v, threadId, e))
  }

  /** So do the rows that link versions, memories and drafts. */
  ghost predicate LinksSpare(v: Vault, w: Vault, threadId: Id)
    requires threadId in v.book.threads
  {
    && w.relations == v.relations - (set r | r in v.relations
                         && (OfMemory(v, threadId, v.relations[r].from) || OfMemory(v, threadId, v.relations[r].to)))
    && w.provenance == v.provenance - (set r | r in v.provenance && v.provenance[r].project == v.book.threads[threadId].project
                           && Gone(v, threadId, v.provenance[r].target))
    && w.conflicts == v.conflicts - (set c | c in v.conflicts && v.conflicts[c].thread == threadId)
    && w.conflictMembers == (set m | m in v.conflictMembers && !OfMemory(v, threadId, m.1)
                               && !(m.0 in v.conflicts && v.conflicts[m.0].thread == threadId))
  }

  /** A tombstone for exactly the deliveries of the drafts that go; older ones stay. */
  ghost predicate BuriesDrafts(v: Vault, w: Vault, threadId: Id) {
    && (forall k | k in v.tombstones :: k in w.tombstones && w.tombstones[k] == v.tombstones[k])
    && (forall k | k in w.tombstones && k !in v.tombstones ::
          && DraftOf(v, threadId, w.tombstones[k].proposal)
          && w.tombstones[k] == Tombstone(w.tombstones[k].proposal, WasForgotten, v.book.sequence + 1)
          && var p := v.proposals[w.tombstones[k].proposal];
             k == Delivery(p.content.project, p.source, p.deliveryKey))
  }

  /** The drafts about the subject go and stay buried; every other draft is as it was, and its delivery live. */
  ghost predicate DraftsSpare(v: Vault, w: Vault, threadId: Id) {
    && w.proposals == v.proposals - (set p | p in v.proposals && DraftOf(v, threadId, p))
    && w.reviews == v.reviews - (set r | r in v.reviews && DraftOf(v, threadId, v.reviews[r]))
    && BuriesDrafts(v, w, threadId)
    && (forall p | p in v.proposals ::
          var k := Delivery(v.proposals[p].content.project, v.proposals[p].source, v.proposals[p].deliveryKey);
          if DraftOf(v, threadId, p) then Fated(w, k, Buried(Tombstone(p, WasForgotten, v.book.sequence + 1)))
          else Fated(w, k, LiveAs(p)))
  }

  /** Recalls stay; in those of the project exactly the positions of the memory's versions are struck out. */
  ghost predicate RecallsSpare(v: Vault, w: Vault, threadId: Id)
    requires threadId in v.book.threads
  {
    && w.recalls.Keys == v.recalls.Keys
    && (forall r | r in v.recalls ::
          && w.recalls[r] == v.recalls[r].(results := w.recalls[r].results)
          && (v.recalls[r].project == v.book.threads[threadId].project ==>
                exists at :: Forgetting.Picks(w.recalls[r].results, v.recalls[r].results, at)
                  && forall i | 0 <= i < |v.recalls[r].results| :: i in at <==> !OfMemory(v, threadId, v.recalls[r].results[i]))
          && (v.recalls[r].project != v.book.threads[threadId].project ==> w.recalls[r] == v.recalls[r]))
  }

  ghost predicate Spares(v: Vault, w: Vault, threadId: Id, receipt: Id)
    requires threadId in v.book.threads
  {
    && LedgerSpares(v, w, threadId) && RowsSpare(v, w, threadId) && LinksSpare(v, w, threadId)
    && DraftsSpare(v, w, threadId) && RecallsSpare(v, w, threadId)
    && w.receipts == v.receipts[receipt := Receipt(v.book.threads[threadId].project, threadId, v.book.sequence + 1)]
  }

  // ---------------------------------------------------------------- one table at a time

  lemma VersionsAre(v: Vault, threadId: Id)
    ensures forall a :: a in VersionsOf(v.book, threadId) <==> OfMemory(v, threadId, a)
  {
  }

  lemma DraftsAre(v: Vault, threadId: Id)
    requires threadId in v.book.threads
    ensures forall p :: p in ProposalsOn(v, v.book.threads[threadId]) <==> p in v.proposals && DraftOf(v, threadId, p)
    ensures forall p | p in ProposalsOn(v, v.book.threads[threadId]) ::
              p in v.proposals && ProposalsOn(v, v.book.threads[threadId])[p] == v.proposals[p]
  {
  }

  lemma LedgerIsSpared(v: Vault, threadId: Id, receipt: Id)
    requires CanForget(v, threadId)
    ensures LedgerSpares(v, ForgetThreadOp(v, threadId, receipt), threadId)
  {
    ForgetTables(v, threadId, receipt);
    hide ForgetThreadOp, Announce, Audience, CanForget, Suppress, ProposalsOn;
  }

  /** The scope of the forget, field by field. */
  lemma ScopeFields(v: Vault, threadId: Id)
    requires threadId in v.book.threads
    ensures var thread := v.book.threads[threadId];
            var gone := VersionsOf(v.book, threadId);
            var scope := ForgetScope(v, thread.project, threadId);
            && scope.Some?
            && var s := scope.value;
            && s.attestations == RowsInto(v.attestations, gone) && s.consents == RowsInto(v.consents, gone)
            && s.fts == RowsInto(v.fts, gone) && s.feedback == FeedbackOn(v.feedback, gone)
            && s.evidenceRefs == RefsOf(v.evidenceRefs, gone)
            && s.ownedEvidence.Keys == (set e | e in v.evidence && e in ReferencedBy(v, gone) && !SharedOutside(v, e, gone))
            && s.proposals == ProposalsOn(v, thread) && s.reviews == RowsInto(v.reviews, ProposalsOn(v, thread).Keys)
            && s.provenance == ProvenanceOf(v.provenance, thread.project, gone + ProposalsOn(v, thread).Keys)
            && s.relations == RelationsOf(v.relations, gone) && s.conflicts == ConflictsOn(v.conflicts, threadId)
            && s.conflictMembers == MembersOf(v.conflictMembers, ConflictsOn(v.conflicts, threadId).Keys, gone)
  {
    hide VersionsOf, RowsInto, FeedbackOn, RefsOf, ReferencedBy, SharedOutside, ProposalsOn, ProvenanceOf, RelationsOf, ConflictsOn,
      MembersOf, Mentioning;
  }

  lemma ForgetFields(v: Vault, threadId: Id, receipt: Id)
    requires CanForget(v, threadId)
    ensures var s := ForgetScope(v, v.book.threads[threadId].project, threadId).value;
            var w := ForgetThreadOp(v, threadId, receipt);
            && w.attestations == v.attestations - s.attestations.Keys && w.consents == v.consents - s.consents.Keys
            && w.fts == v.fts - s.fts.Keys && w.feedback == v.feedback - s.feedback.Keys
            && w.evidenceRefs == v.evidenceRefs - s.evidenceRefs && w.evidence == v.evidence - s.ownedEvidence.Keys
            && w.proposals == v.proposals - s.proposals.Keys && w.reviews == v.reviews - s.reviews.Keys
            && w.provenance == v.provenance - s.provenance.Keys && w.relations == v.relations - s.relations.Keys
            && w.conflicts == v.conflicts - s.conflicts.Keys && w.conflictMembers == v.conflictMembers - s.conflictMembers
  {
    hide Apply, Suppress, UniqueDeliveries, Mentions, Without, SharedOutside, ReferencedBy, VersionsOf, ProposalsOn,
      RowsInto, FeedbackOn, RefsOf, ProvenanceOf, RelationsOf, ConflictsOn, MembersOf, Mentioning;
  }

  /** `ids` are the versions of the memory. */
  ghost predicate AreVersions(v: Vault, threadId: Id, ids: set<Id>) {
    forall a :: a in ids <==> OfMemory(v, threadId, a)
  }

  lemma RowsOfMemory(v: Vault, threadId: Id, rows: map<Id, Id>, ids: set<Id>)
    requires AreVersions(v, threadId, ids)
    ensures RowsInto(rows, ids).Keys == set r | r in rows && OfMemory(v, threadId, rows[r])
  {
    hide OfMemory;
  }

  lemma FeedbackOfMemory(v: Vault, threadId: Id, rows: map<Id, Feedback>, ids: set<Id>)
    requires AreVersions(v, threadId, ids)
    ensures FeedbackOn(rows, ids).Keys == set r | r in rows && OfMemory(v, threadId, rows[r].assertion)
  {
    hide OfMemory;
  }

  lemma RefsOfMemory(v: Vault, threadId: Id, refs: set<(Id, Id)>, ids: set<Id>)
    requires AreVersions(v, threadId, ids)
    ensures refs - RefsOf(refs, ids) == set r | r in refs && !OfMemory(v, threadId, r.1)
  {
    hide OfMemory;
  }

  lemma EvidenceOfMemory(v: Vault, threadId: Id, ids: set<Id>)
    requires AreVersions(v, threadId, ids)
    ensures (set e | e in v.evidence && e in ReferencedBy(v, ids) && !SharedOutside(v, e, ids))
         == (set e | e in v.evidence && OnlyEvidenceOf(v, threadId, e))
  {
    hide OfMemory;
    forall e | e in v.evidence ensures e in ReferencedBy(v, ids) && !SharedOutside(v, e, ids) <==> OnlyEvidenceOf(v, threadId, e) {
      if e in ReferencedBy(v, ids) && !SharedOutside(v, e, ids) {
        var r :| r in RefsOf(v.evidenceRefs, ids) && r.0 == e;
        assert r in v.evidenceRefs && OfMemory(v, threadId, r.1);
      }
      if OnlyEvidenceOf(v, threadId, e) {
        var r :| r in v.evidenceRefs && r.0 == e && OfMemory(v, threadId, r.1);
        assert r in RefsOf(v.evidenceRefs, ids);
      }
    }
  }

  lemma RowsAreSpared(v: Vault, threadId: Id, receipt: Id)
    requires CanForget(v, threadId)
    ensures RowsSpare(v, ForgetThreadOp(v, threadId, receipt), threadId)
  {
    var w, gone := ForgetThreadOp(v, threadId, receipt), VersionsOf(v.book, threadId);
    VersionsAre(v, threadId);
    assert AreVersions(v, threadId, gone);
    CanForgetIsStored(v, threadId);
    hide *;
    ScopeFields(v, threadId);
    ForgetFields(v, threadId, receipt);
    RowsOfMemory(v, threadId, v.attestations, gone);
    RowsOfMemory(v, threadId, v.consents, gone);
    RowsOfMemory(v, threadId, v.fts, gone);
    FeedbackOfMemory(v, threadId, v.feedback, gone);
    RefsOfMemory(v, threadId, v.evidenceRefs, gone);
    EvidenceOfMemory(v, threadId, gone);
    RowsSpareWhen(v, w, threadId);
  }

  lemma CanForgetIsStored(v: Vault, threadId: Id)
    requires CanForget(v, threadId)
    ensures threadId in v.book.threads
  {
  }

  lemma RowsSpareWhen(v: Vault, w: Vault, threadId: Id)
    requires w.attestations == v.attestations - (set r | r in v.attestations && OfMemory(v, threadId, v.attestations[r]))
    requires w.consents == v.consents - (set r | r in v.consents && OfMemory(v, threadId, v.consents[r]))
    requires w.fts == v.fts - (set r | r in v.fts && OfMemory(v, threadId, v.fts[r]))
    requires w.feedback == v.feedback - (set r | r in v.feedback && OfMemory(v, threadId, v.feedback[r].assertion))
    requires w.evidenceRefs == (set r | r in v.evidenceRefs && !OfMemory(v, threadId, r.1))
    requires w.evidence == v.evidence - (set e | e in v.evidence && OnlyEvidenceOf(v, threadId, e))
    ensures RowsSpare(v, w, threadId)
  {
    hide OfMemory, OnlyEvidenceOf;
  }

  lemma RelationsOfMemory(v: Vault, threadId: Id, rows: map<Id, Relation>, ids: set<Id>)
    requires AreVersions(v, threadId, ids)
    ensures RelationsOf(rows, ids).Keys
         == set r | r in rows && (OfMemory(v, threadId, rows[r].from) || OfMemory(v, threadId, rows[r].to))
  {
    hide OfMemory;
  }

  /** `drafts` are the drafts about the memory. */
  ghost predicate AreDrafts(v: Vault, threadId: Id, drafts: set<Id>) {
    forall p :: p in drafts <==> DraftOf(v, threadId, p)
  }

  lemma ProvenanceOfMemory(v: Vault, threadId: Id, project: Project, ids: set<Id>, drafts: set<Id>)
    requires AreVersions(v, threadId, ids) && AreDrafts(v, threadId, drafts)
    ensures ProvenanceOf(v.provenance, project, ids + drafts).Keys
         == set r | r in v.provenance && v.provenance[r].project == project && Gone(v, threadId, v.provenance[r].target)
  {
    hide OfMemory, DraftOf;
  }

  lemma MembersOfMemory(v: Vault, threadId: Id, ids: set<Id>)
    requires AreVersions(v, threadId, ids)
    ensures ConflictsOn(v.conflicts, threadId).Keys == set c | c in v.conflicts && v.conflicts[c].thread == threadId
    ensures v.conflictMembers - MembersOf(v.conflictMembers, ConflictsOn(v.conflicts, threadId).Keys, ids)
         == set m | m in v.conflictMembers && !OfMemory(v, threadId, m.1)
                    && !(m.0 in v.conflicts && v.conflicts[m.0].thread == threadId)
  {
    hide OfMemory;
  }

  lemma LinksAreSpared(v: Vault, threadId: Id, receipt: Id)
    requires CanForget(v, threadId)
    ensures LinksSpare(v, ForgetThreadOp(v, threadId, receipt), threadId)
  {
    var w, gone, thread := ForgetThreadOp(v, threadId, receipt), VersionsOf(v.book, threadId), v.book.threads[threadId];
    var drafts := ProposalsOn(v, thread).Keys;
    VersionsAre(v, threadId);
    DraftsAre(v, threadId);
    assert AreVersions(v, threadId, gone);
    assert AreDrafts(v, threadId, drafts);
    hide *;
    ScopeFields(v, threadId);
    ForgetFields(v, threadId, receipt);
    RelationsOfMemory(v, threadId, v.relations, gone);
    ProvenanceOfMemory(v, threadId, thread.project, gone, drafts);
    MembersOfMemory(v, threadId, gone);
    LinksSpareWhen(v, w, threadId);
  }

  lemma LinksSpareWhen(v: Vault, w: Vault, threadId: Id)
    requires threadId in v.book.threads
    requires w.relations == v.relations - (set r | r in v.relations
                && (OfMemory(v, threadId, v.relations[r].from) || OfMemory(v, threadId, v.relations[r].to)))
    requires w.provenance == v.provenance - (set r | r in v.provenance && v.provenance[r].project == v.book.threads[threadId].project
                && Gone(v, threadId, v.provenance[r].target))
    requires w.conflicts == v.conflicts - (set c | c in v.conflicts && v.conflicts[c].thread == threadId)
    requires w.conflictMembers == (set m | m in v.conflictMembers && !OfMemory(v, threadId, m.1)
                && !(m.0 in v.conflicts && v.conflicts[m.0].thread == threadId))
    ensures LinksSpare(v, w, threadId)
  {
    hide OfMemory, Gone;
  }

  // ---------------------------------------------------------------- drafts and their deliveries

  lemma ReviewsOfDrafts(v: Vault, threadId: Id, drafts: set<Id>)
    requires AreDrafts(v, threadId, drafts)
    ensures RowsInto(v.reviews, drafts).Keys == set r | r in v.reviews && DraftOf(v, threadId, v.reviews[r])
    ensures drafts <= v.proposals.Keys ==> drafts == set p | p in v.proposals && DraftOf(v, threadId, p)
  {
    hide DraftOf;
  }

  lemma DraftIsBuried(v: Vault, threadId: Id, receipt: Id)
    requires VaultInv(v) && CanForget(v, threadId)
    ensures BuriesDrafts(v, ForgetThreadOp(v, threadId, receipt), threadId)
  {
    hide *;
    CanForgetIsStored(v, threadId);
    ForgetTables(v, threadId, receipt);
    DraftsAre(v, threadId);
    InvHasDeliveries(v);
    SuppressBuries(v, ForgetThreadOp(v, threadId, receipt), threadId, ProposalsOn(v, v.book.threads[threadId]));
  }

  lemma SuppressBuries(v: Vault, w: Vault, threadId: Id, drafts: map<Id, Proposal>)
    requires forall p :: p in drafts ==> p in v.proposals && drafts[p] == v.proposals[p] && DraftOf(v, threadId, p)
    requires UniqueDeliveries(v.proposals) && w.tombstones == Suppress(v.tombstones, drafts, v.book.sequence + 1, WasForgotten)
    ensures BuriesDrafts(v, w, threadId)
  {
    hide DraftOf;
  }

  lemma InvHasDeliveries(v: Vault)
    requires VaultInv(v)
    ensures UniqueDeliveries(v.proposals) && NeverRevived(v.proposals, v.tombstones)
  {
  }

  lemma FateAfter(v: Vault, drafts: map<Id, Proposal>, sequence: nat, p: Id)
    requires UniqueDeliveries(v.proposals) && NeverRevived(v.proposals, v.tombstones) && p in v.proposals
    requires forall q | q in drafts :: q in v.proposals && v.proposals[q] == drafts[q]
    ensures HasFate(v.proposals - drafts.Keys, Suppress(v.tombstones, drafts, sequence, WasForgotten), DeliveryOf(v.proposals[p]),
                    if p in drafts then Buried(Tombstone(p, WasForgotten, sequence)) else LiveAs(p))
  {
    var k := DeliveryOf(v.proposals[p]);
    assert Live(v.proposals, k) == {p};
    assert Live(v.proposals - drafts.Keys, k) == {p} - drafts.Keys;
    if p in drafts {
      assert DeliveryOf(drafts[p]) == k;
    }
  }

  lemma DraftsFate(v: Vault, threadId: Id, receipt: Id, p: Id)
    requires VaultInv(v) && CanForget(v, threadId) && p in v.proposals
    ensures var k := Delivery(v.proposals[p].content.project, v.proposals[p].source, v.proposals[p].deliveryKey);
            Fated(ForgetThreadOp(v, threadId, receipt), k,
                  if DraftOf(v, threadId, p) then Buried(Tombstone(p, WasForgotten, v.book.sequence + 1)) else LiveAs(p))
  {
    var k := Delivery(v.proposals[p].content.project, v.proposals[p].source, v.proposals[p].deliveryKey);
    assert k == DeliveryOf(v.proposals[p]);
    CanForgetIsStored(v, threadId);
    hide ForgetThreadOp, VaultInv, CanForget, ProposalsOn, Apply, DraftOf, HasFate, Suppress, DeliveryOf;
    ForgetTables(v, threadId, receipt);
    DraftsAre(v, threadId);
    InvHasDeliveries(v);
    FateAfter(v, ProposalsOn(v, v.book.threads[threadId]), v.book.sequence + 1, p);
  }

  lemma DraftsAreSpared(v: Vault, threadId: Id, receipt: Id)
    requires VaultInv(v) && CanForget(v, threadId)
    ensures DraftsSpare(v, ForgetThreadOp(v, threadId, receipt), threadId)
  {
    var w, drafts := ForgetThreadOp(v, threadId, receipt), ProposalsOn(v, v.book.threads[threadId]).Keys;
    DraftsAre(v, threadId);
    assert AreDrafts(v, threadId, drafts) && drafts <= v.proposals.Keys;
    hide *;
    ScopeFields(v, threadId);
    ForgetFields(v, threadId, receipt);
    ReviewsOfDrafts(v, threadId, drafts);
    DraftIsBuried(v, threadId, receipt);
    forall p | p in v.proposals
      ensures Fated(w, Delivery(v.proposals[p].content.project, v.proposals[p].source, v.proposals[p].deliveryKey),
                    if DraftOf(v, threadId, p) then Buried(Tombstone(p, WasForgotten, v.book.sequence + 1)) else LiveAs(p))
    {
      DraftsFate(v, threadId, receipt, p);
    }
    DraftsSpareWhen(v, w, threadId);
  }

  lemma DraftsSpareWhen(v: Vault, w: Vault, threadId: Id)
    requires w.proposals == v.proposals - (set p | p in v.proposals && DraftOf(v, threadId, p))
    requires w.reviews == v.reviews - (set r | r in v.reviews && DraftOf(v, threadId, v.reviews[r]))
    requires BuriesDrafts(v, w, threadId)
    requires forall p | p in v.proposals ::
               Fated(w, Delivery(v.proposals[p].content.project, v.proposals[p].source, v.proposals[p].deliveryKey),
                     if DraftOf(v, threadId, p) then Buried(Tombstone(p, WasForgotten, v.book.sequence + 1)) else LiveAs(p))
    ensures DraftsSpare(v, w, threadId)
  {
    hide BuriesDrafts, DraftOf, Fated;
  }

  // ---------------------------------------------------------------- recalls

  lemma RecallIsSpared(v: Vault, threadId: Id, receipt: Id, r: Id)
    requires VaultInv(v) && CanForget(v, threadId) && r in v.recalls
    ensures var w := ForgetThreadOp(v, threadId, receipt);
            && w.recalls.Keys == v.recalls.Keys
            && w.recalls[r] == v.recalls[r].(results := w.recalls[r].results)
            && (v.recalls[r].project == v.book.threads[threadId].project ==>
                  exists at :: Forgetting.Picks(w.recalls[r].results, v.recalls[r].results, at)
                    && forall i | 0 <= i < |v.recalls[r].results| :: i in at <==> !OfMemory(v, threadId, v.recalls[r].results[i]))
            && (v.recalls[r].project != v.book.threads[threadId].project ==> w.recalls[r] == v.recalls[r])
  {
    hide *;
    CanForgetIsStored(v, threadId);
    RecallIsPruned(v, threadId, receipt, r);
    if v.recalls[r].project == v.book.threads[threadId].project {
      RecallPicks(v, threadId, v.recalls[r], ForgetThreadOp(v, threadId, receipt).recalls[r]);
    }
  }

  lemma RecallIsPruned(v: Vault, threadId: Id, receipt: Id, r: Id)
    requires VaultInv(v) && CanForget(v, threadId) && r in v.recalls && threadId in v.book.threads
    ensures var w := ForgetThreadOp(v, threadId, receipt);
            var gone := VersionsOf(v.book, threadId);
            && w.recalls.Keys == v.recalls.Keys && r in w.recalls
            && w.recalls[r] == v.recalls[r].(results :=
                 if v.recalls[r].project == v.book.threads[threadId].project then Without(v.recalls[r].results, gone)
                 else v.recalls[r].results)
  {
    hide *;
    ScopeIsFound(v, threadId);
    Forgetting.RecallAfterForget(v, v.book.threads[threadId].project, threadId, receipt, r);
    Forgetting.WithoutChanges(v.recalls[r].results, VersionsOf(v.book, threadId));
  }

  lemma ScopeIsFound(v: Vault, threadId: Id)
    requires threadId in v.book.threads
    ensures ForgetScope(v, v.book.threads[threadId].project, threadId).Some?
  {
  }

  lemma RecallPicks(v: Vault, threadId: Id, before: Recall, after: Recall)
    requires after.results == Without(before.results, VersionsOf(v.book, threadId))
    ensures exists at :: Forgetting.Picks(after.results, before.results, at)
              && forall i | 0 <= i < |before.results| :: i in at <==> !OfMemory(v, threadId, before.results[i])
  {
    hide OfMemory, Without, Forgetting.Picks, VersionsOf;
    VersionsAre(v, threadId);
    var at := Forgetting.KeptPositions(before.results, VersionsOf(v.book, threadId));
  }

  lemma RecallsAreSpared(v: Vault, threadId: Id, receipt: Id)
    requires VaultInv(v) && CanForget(v, threadId)
    ensures RecallsSpare(v, ForgetThreadOp(v, threadId, receipt), threadId)
  {
    hide ForgetThreadOp, VaultInv, OfMemory, Forgetting.Picks;
    forall r | r in v.recalls { RecallIsSpared(v, threadId, receipt, r); }
    RecallKeys(v, threadId, receipt);
  }

  lemma RecallKeys(v: Vault, threadId: Id, receipt: Id)
    requires CanForget(v, threadId)
    ensures ForgetThreadOp(v, threadId, receipt).recalls.Keys == v.recalls.Keys
  {
    hide Apply, Suppress, UniqueDeliveries, Without, ForgetScope;
  }

  /** A forget takes the memory with all that is about it, and spares everything else. */
  lemma ForgetSpares(v: Vault, threadId: Id, receipt: Id)
    requires VaultInv(v) && threadId in v.book.threads
    ensures CanForget(v, threadId) && Spares(v, ForgetThreadOp(v, threadId, receipt), threadId, receipt)
  {
    Forgetting.CanForgetThread(v, threadId);
    LedgerIsSpared(v, threadId, receipt);
    RowsAreSpared(v, threadId, receipt);
    LinksAreSpared(v, threadId, receipt);
    DraftsAreSpared(v, threadId, receipt);
    RecallsAreSpared(v, threadId, receipt);
    ReceiptIsKept(v, threadId, receipt);
    hide VaultInv, LedgerSpares, RowsSpare, LinksSpare, DraftsSpare, RecallsSpare, ForgetThreadOp, CanForget;
  }

  lemma ReceiptIsKept(v: Vault, threadId: Id, receipt: Id)
    requires CanForget(v, threadId)
    ensures ForgetThreadOp(v, threadId, receipt).receipts
         == v.receipts[receipt := Receipt(v.book.threads[threadId].project, threadId, v.book.sequence + 1)]
  {
  }

  // ---------------------------------------------------------------- what the owner is shown

  /** The rows a forget preview is about; its identifiers are shown and all of it is digested, so an approval is
      stale as soon as any of them changed. */
  ghost predicate ShowsMemory(v: Vault, threadId: Id, s: Scope)
    requires threadId in v.book.threads
  {
    && s.thread == v.book.threads[threadId]
    && s.versions == (map a | a in v.book.versions && OfMemory(v, threadId, a) :: v.book.versions[a])
    && s.disclosures == (set d | d in v.book.disclosures && OfMemory(v, threadId, d.0))
    && s.attestations == (map r | r in v.attestations && OfMemory(v, threadId, v.attestations[r]) :: v.attestations[r])
    && s.consents == (map r | r in v.consents && OfMemory(v, threadId, v.consents[r]) :: v.consents[r])
    && s.fts == (map r | r in v.fts && OfMemory(v, threadId, v.fts[r]) :: v.fts[r])
    && s.feedback == (map r | r in v.feedback && OfMemory(v, threadId, v.feedback[r].assertion) :: v.feedback[r])
  }

  /** The evidence of the memory with every reference to it, from inside and from outside. */
  ghost predicate ShowsEvidence(v: Vault, threadId: Id, s: Scope) {
    && s.evidenceRefs == (set r | r in v.evidenceRefs && OfMemory(v, threadId, r.1))
    && s.sharedRefs == (set r | r in v.evidenceRefs && !OfMemory(v, threadId, r.1) && EvidenceOf(v, threadId, r.0))
    && s.ownedEvidence == (map e | e in v.evidence && OnlyEvidenceOf(v, threadId, e) :: v.evidence[e])
    && s.retainedEvidence == (map e | e in v.evidence && EvidenceOf(v, threadId, e) && !OnlyEvidenceOf(v, threadId, e)
                               :: v.evidence[e])
  }

  ghost predicate EvidenceOf(v: Vault, threadId: Id, e: Id) {
    exists r | r in v.evidenceRefs :: r.0 == e && OfMemory(v, threadId, r.1)
  }

  /** The drafts about the subject and everything that links to them or to the memory. */
  ghost predicate ShowsLinks(v: Vault, threadId: Id, s: Scope)
    requires threadId in v.book.threads
  {
    var project := v.book.threads[threadId].project;
    && s.proposals == (map p | p in v.proposals && DraftOf(v, threadId, p) :: v.proposals[p])
    && s.reviews == (map r | r in v.reviews && DraftOf(v, threadId, v.reviews[r]) :: v.reviews[r])
    && s.provenance == (map r | r in v.provenance && v.provenance[r].project == project && Gone(v, threadId, v.provenance[r].target)
                         :: v.provenance[r])
    && s.relations == (map r | r in v.relations
                        && (OfMemory(v, threadId, v.relations[r].from) || OfMemory(v, threadId, v.relations[r].to))
                        :: v.relations[r])
    && s.conflicts == (map c | c in v.conflicts && v.conflicts[c].thread == threadId :: v.conflicts[c])
    && s.conflictMembers == (set m | m in v.conflictMembers
                              && (OfMemory(v, threadId, m.1) || (m.0 in v.conflicts && v.conflicts[m.0].thread == threadId)))
    && s.recalls == (map r | r in v.recalls && v.recalls[r].project == project
                              && (exists id | id in v.recalls[r].results :: OfMemory(v, threadId, id)) :: v.recalls[r])
  }

  lemma RowsShown(v: Vault, threadId: Id, rows: map<Id, Id>, ids: set<Id>)
    requires AreVersions(v, threadId, ids)
    ensures RowsInto(rows, ids) == map r | r in rows && OfMemory(v, threadId, rows[r]) :: rows[r]
  {
    hide OfMemory;
  }

  lemma FeedbackShown(v: Vault, threadId: Id, rows: map<Id, Feedback>, ids: set<Id>)
    requires AreVersions(v, threadId, ids)
    ensures FeedbackOn(rows, ids) == map r | r in rows && OfMemory(v, threadId, rows[r].assertion) :: rows[r]
  {
    hide OfMemory;
  }

  lemma VersionsShown(v: Vault, threadId: Id)
    ensures (map a | a in VersionsOf(v.book, threadId) :: v.book.versions[a])
         == (map a | a in v.book.versions && OfMemory(v, threadId, a) :: v.book.versions[a])
    ensures (set d | d in v.book.disclosures && d.0 in VersionsOf(v.book, threadId))
         == (set d | d in v.book.disclosures && OfMemory(v, threadId, d.0))
  {
  }

  /** The rest of the scope, field by field. */
  lemma ScopeRows(v: Vault, threadId: Id)
    requires threadId in v.book.threads
    ensures var thread := v.book.threads[threadId];
            var gone := VersionsOf(v.book, threadId);
            var scope := ForgetScope(v, thread.project, threadId);
            && scope.Some?
            && var s := scope.value;
            && s.thread == thread && s.versions == (map a | a in gone :: v.book.versions[a])
            && s.disclosures == (set d | d in v.book.disclosures && d.0 in gone)
            && s.recalls == map r | r in Mentioning(v.recalls, thread.project, gone) :: v.recalls[r]
  {
    hide VersionsOf, RowsInto, FeedbackOn, RefsOf, ReferencedBy, SharedOutside, ProposalsOn, ProvenanceOf, RelationsOf, ConflictsOn,
      MembersOf, Mentioning;
  }

  lemma ScopeShowsMemory(v: Vault, threadId: Id)
    requires threadId in v.book.threads
    ensures var scope := ForgetScope(v, v.book.threads[threadId].project, threadId);
            scope.Some? && ShowsMemory(v, threadId, scope.value)
  {
    var gone := VersionsOf(v.book, threadId);
    VersionsAre(v, threadId);
    assert AreVersions(v, threadId, gone);
    hide VersionsOf, OfMemory, ForgetScope, RowsInto, FeedbackOn, AreVersions;
    ScopeFields(v, threadId);
    ScopeRows(v, threadId);
    VersionsShown(v, threadId);
    RowsShown(v, threadId, v.attestations, gone);
    RowsShown(v, threadId, v.consents, gone);
    RowsShown(v, threadId, v.fts, gone);
    FeedbackShown(v, threadId, v.feedback, gone);
  }

  lemma ScopeEvidence(v: Vault, threadId: Id)
    requires threadId in v.book.threads
    ensures var gone := VersionsOf(v.book, threadId);
            var evidence := ReferencedBy(v, gone);
            var scope := ForgetScope(v, v.book.threads[threadId].project, threadId);
            && scope.Some?
            && var s := scope.value;
            && s.evidenceRefs == RefsOf(v.evidenceRefs, gone)
            && s.sharedRefs == (set r | r in v.evidenceRefs && r.0 in evidence && r.1 !in gone)
            && s.ownedEvidence == (map e | e in v.evidence && e in evidence && !SharedOutside(v, e, gone) :: v.evidence[e])
            && s.retainedEvidence == (map e | e in v.evidence && e in evidence && SharedOutside(v, e, gone) :: v.evidence[e])
  {
    hide VersionsOf, RowsInto, FeedbackOn, RefsOf, ReferencedBy, SharedOutside, ProposalsOn, ProvenanceOf, RelationsOf, ConflictsOn,
      MembersOf, Mentioning;
  }

  lemma RefsShown(v: Vault, threadId: Id, ids: set<Id>)
    requires AreVersions(v, threadId, ids)
    ensures RefsOf(v.evidenceRefs, ids) == (set r | r in v.evidenceRefs && OfMemory(v, threadId, r.1))
    ensures (set r | r in v.evidenceRefs && r.0 in ReferencedBy(v, ids) && r.1 !in ids)
         == (set r | r in v.evidenceRefs && !OfMemory(v, threadId, r.1) && EvidenceOf(v, threadId, r.0))
  {
    forall e ensures e in ReferencedBy(v, ids) <==> EvidenceOf(v, threadId, e) {
      EvidenceIs(v, threadId, e, ids);
    }
    hide OfMemory, ReferencedBy, EvidenceOf;
  }

  lemma EvidenceShown(v: Vault, threadId: Id, ids: set<Id>)
    requires AreVersions(v, threadId, ids)
    ensures (map e | e in v.evidence && e in ReferencedBy(v, ids) && !SharedOutside(v, e, ids) :: v.evidence[e])
         == (map e | e in v.evidence && OnlyEvidenceOf(v, threadId, e) :: v.evidence[e])
    ensures (map e | e in v.evidence && e in ReferencedBy(v, ids) && SharedOutside(v, e, ids) :: v.evidence[e])
         == (map e | e in v.evidence && EvidenceOf(v, threadId, e) && !OnlyEvidenceOf(v, threadId, e)
                               :: v.evidence[e])
  {
    forall e ensures (e in ReferencedBy(v, ids) <==> EvidenceOf(v, threadId, e))
      ensures (e in ReferencedBy(v, ids) && !SharedOutside(v, e, ids) <==> OnlyEvidenceOf(v, threadId, e))
    {
      EvidenceIs(v, threadId, e, ids);
    }
    hide OfMemory, ReferencedBy, SharedOutside, EvidenceOf, OnlyEvidenceOf, AreVersions;
  }

  lemma ScopeShowsEvidence(v: Vault, threadId: Id)
    requires threadId in v.book.threads
    ensures var scope := ForgetScope(v, v.book.threads[threadId].project, threadId);
            scope.Some? && ShowsEvidence(v, threadId, scope.value)
  {
    var gone := VersionsOf(v.book, threadId);
    VersionsAre(v, threadId);
    assert AreVersions(v, threadId, gone);
    hide *;
    ScopeEvidence(v, threadId);
    RefsShown(v, threadId, gone);
    EvidenceShown(v, threadId, gone);
    ShowsEvidenceWhen(v, threadId, ForgetScope(v, v.book.threads[threadId].project, threadId).value);
  }

  lemma ShowsEvidenceWhen(v: Vault, threadId: Id, s: Scope)
    requires s.evidenceRefs == (set r | r in v.evidenceRefs && OfMemory(v, threadId, r.1))
    requires s.sharedRefs == (set r | r in v.evidenceRefs && !OfMemory(v, threadId, r.1) && EvidenceOf(v, threadId, r.0))
    requires s.ownedEvidence == (map e | e in v.evidence && OnlyEvidenceOf(v, threadId, e) :: v.evidence[e])
    requires s.retainedEvidence == (map e | e in v.evidence && EvidenceOf(v, threadId, e) && !OnlyEvidenceOf(v, threadId, e)
                               :: v.evidence[e])
    ensures ShowsEvidence(v, threadId, s)
  {
    hide OfMemory, EvidenceOf, OnlyEvidenceOf;
  }

  lemma EvidenceIs(v: Vault, threadId: Id, e: Id, ids: set<Id>)
    requires AreVersions(v, threadId, ids)
    ensures e in ReferencedBy(v, ids) <==> EvidenceOf(v, threadId, e)
    ensures e in ReferencedBy(v, ids) && !SharedOutside(v, e, ids) <==> OnlyEvidenceOf(v, threadId, e)
  {
    hide OfMemory;
    if e in ReferencedBy(v, ids) {
      var r :| r in RefsOf(v.evidenceRefs, ids) && r.0 == e;
      assert r in v.evidenceRefs && OfMemory(v, threadId, r.1);
    }
    if EvidenceOf(v, threadId, e) {
      var r :| r in v.evidenceRefs && r.0 == e && OfMemory(v, threadId, r.1);
      assert r in RefsOf(v.evidenceRefs, ids);
    }
  }

  lemma DraftsShown(v: Vault, threadId: Id, drafts: map<Id, Proposal>)
    requires AreDrafts(v, threadId, drafts.Keys)
    requires forall p | p in drafts :: p in v.proposals && drafts[p] == v.proposals[p]
    ensures drafts == map p | p in v.proposals && DraftOf(v, threadId, p) :: v.proposals[p]
    ensures RowsInto(v.reviews, drafts.Keys) == map r | r in v.reviews && DraftOf(v, threadId, v.reviews[r]) :: v.reviews[r]
  {
    assert forall p | DraftOf(v, threadId, p) :: p in v.proposals;
    hide DraftOf;
  }

  lemma RelationsShown(v: Vault, threadId: Id, ids: set<Id>)
    requires AreVersions(v, threadId, ids)
    ensures RelationsOf(v.relations, ids)
         == map r | r in v.relations && (OfMemory(v, threadId, v.relations[r].from) || OfMemory(v, threadId, v.relations[r].to))
              :: v.relations[r]
  {
    hide OfMemory;
  }

  lemma ProvenanceShown(v: Vault, threadId: Id, project: Project, ids: set<Id>, drafts: set<Id>)
    requires AreVersions(v, threadId, ids) && AreDrafts(v, threadId, drafts)
    ensures ProvenanceOf(v.provenance, project, ids + drafts)
         == map r | r in v.provenance && v.provenance[r].project == project && Gone(v, threadId, v.provenance[r].target)
              :: v.provenance[r]
  {
    hide OfMemory, DraftOf;
  }

  lemma MembersShown(v: Vault, threadId: Id, ids: set<Id>)
    requires AreVersions(v, threadId, ids)
    ensures MembersOf(v.conflictMembers, ConflictsOn(v.conflicts, threadId).Keys, ids)
         == set m | m in v.conflictMembers
                    && (OfMemory(v, threadId, m.1) || (m.0 in v.conflicts && v.conflicts[m.0].thread == threadId))
  {
    hide OfMemory;
  }

  lemma RecallsShown(v: Vault, threadId: Id, project: Project, ids: set<Id>)
    requires AreVersions(v, threadId, ids)
    ensures (map r | r in Mentioning(v.recalls, project, ids) :: v.recalls[r])
         == (map r | r in v.recalls && v.recalls[r].project == project
                     && (exists id | id in v.recalls[r].results :: OfMemory(v, threadId, id)) :: v.recalls[r])
  {
    hide OfMemory;
    forall r | r in v.recalls
      ensures Mentions(v.recalls[r], ids) <==> exists id | id in v.recalls[r].results :: OfMemory(v, threadId, id)
    {
    }
    hide Mentions;
  }

  lemma ScopeShowsLinks(v: Vault, threadId: Id)
    requires threadId in v.book.threads
    ensures var scope := ForgetScope(v, v.book.threads[threadId].project, threadId);
            scope.Some? && ShowsLinks(v, threadId, scope.value)
  {
    var gone, thread := VersionsOf(v.book, threadId), v.book.threads[threadId];
    var drafts := ProposalsOn(v, thread);
    VersionsAre(v, threadId);
    DraftsAre(v, threadId);
    assert AreVersions(v, threadId, gone);
    assert AreDrafts(v, threadId, drafts.Keys);
    hide *;
    ScopeFields(v, threadId);
    ScopeRows(v, threadId);
    DraftsShown(v, threadId, drafts);
    RelationsShown(v, threadId, gone);
    ProvenanceShown(v, threadId, thread.project, gone, drafts.Keys);
    MembersShown(v, threadId, gone);
    RecallsShown(v, threadId, thread.project, gone);
    ShowsLinksWhen(v, threadId, ForgetScope(v, thread.project, threadId).value);
  }

  lemma ShowsLinksWhen(v: Vault, threadId: Id, s: Scope)
    requires threadId in v.book.threads
    requires s.proposals == (map p | p in v.proposals && DraftOf(v, threadId, p) :: v.proposals[p])
    requires s.reviews == (map r | r in v.reviews && DraftOf(v, threadId, v.reviews[r]) :: v.reviews[r])
    requires s.provenance == (map r | r in v.provenance && v.provenance[r].project == v.book.threads[threadId].project
                                       && Gone(v, threadId, v.provenance[r].target) :: v.provenance[r])
    requires s.relations == (map r | r in v.relations
                && (OfMemory(v, threadId, v.relations[r].from) || OfMemory(v, threadId, v.relations[r].to)) :: v.relations[r])
    requires s.conflicts == ConflictsOn(v.conflicts, threadId)
    requires s.conflictMembers == (set m | m in v.conflictMembers
                && (OfMemory(v, threadId, m.1) || (m.0 in v.conflicts && v.conflicts[m.0].thread == threadId)))
    requires s.recalls == (map r | r in v.recalls && v.recalls[r].project == v.book.threads[threadId].project
                && (exists id | id in v.recalls[r].results :: OfMemory(v, threadId, id)) :: v.recalls[r])
    ensures ShowsLinks(v, threadId, s)
  {
    hide OfMemory, DraftOf, Gone;
  }

  /** The preview of a forget holds every row about the memory, and no other; there is one exactly for the
      memories of the project. */
  lemma ScopeIsTheMemory(v: Vault, project: Project, threadId: Id)
    ensures ForgetScope(v, project, threadId).Some? <==> threadId in v.book.threads && v.book.threads[threadId].project == project
    ensures ForgetScope(v, project, threadId).Some? ==>
              var s := ForgetScope(v, project, threadId).value;
              && ShowsMemory(v, threadId, s) && ShowsEvidence(v, threadId, s) && ShowsLinks(v, threadId, s)
  {
    ScopeExists(v, project, threadId);
    hide ForgetScope, ShowsMemory, ShowsEvidence, ShowsLinks;
    if threadId in v.book.threads && v.book.threads[threadId].project == project {
      ScopeShowsMemory(v, threadId);
      ScopeShowsEvidence(v, threadId);
      ScopeShowsLinks(v, threadId);
    }
  }

  lemma ScopeExists(v: Vault, project: Project, threadId: Id)
    ensures ForgetScope(v, project, threadId).Some? <==> threadId in v.book.threads && v.book.threads[threadId].project == project
  {
    hide VersionsOf, ReferencedBy, ProposalsOn, Mentioning, MembersOf;
  }
}
