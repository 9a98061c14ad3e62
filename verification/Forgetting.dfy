/** What an approved forget removes, and what it leaves. */
module Forgetting {
  import opened Basics
  import opened Ledger
  import opened Vault

  /** `after` is `before` without exactly the rows `gone`. */
  ghost predicate Removed<K, V>(before: map<K, V>, after: map<K, V>, gone: map<K, V>) {
    && (forall k | k in gone :: k in before && before[k] == gone[k])
    && after == before - gone.Keys
  }

  ghost predicate Dropped<T>(before: set<T>, after: set<T>, gone: set<T>) {
    gone <= before && after == before - gone
  }

  /** `kept` is what is left of `ids` when the positions outside `at` are struck out. */
  ghost predicate Picks(kept: seq<Id>, ids: seq<Id>, at: seq<nat>) {
    && |at| == |kept|
    && (forall i | 0 <= i < |at| :: at[i] < |ids| && ids[at[i]] == kept[i])
    && (forall i, j | 0 <= i < j < |at| :: at[i] < at[j])
  }

  /** `kept` holds exactly the positions of `ids` whose id is not forgotten, in their order. */
  ghost predicate IsPruned(kept: seq<Id>, ids: seq<Id>, gone: set<Id>) {
    exists at :: Picks(kept, ids, at) && forall k | 0 <= k < |ids| :: k in at <==> ids[k] !in gone
  }

  /** Pruning keeps every position whose id is not forgotten, and no other. */
  lemma WithoutIsExact(ids: seq<Id>, gone: set<Id>)
    ensures IsPruned(Without(ids, gone), ids, gone)
  {
    hide Picks;
    var at := KeptPositions(ids, gone);
  }

  lemma {:induction false} KeptPositions(ids: seq<Id>, gone: set<Id>) returns (at: seq<nat>)
    ensures Picks(Without(ids, gone), ids, at)
    ensures forall k | 0 <= k < |ids| :: k in at <==> ids[k] !in gone
  {
    at := [];
    if ids != [] {
      hide Picks;
      var rest := KeptPositions(ids[1..], gone);
      var moved: seq<nat> := seq(|rest|, i requires 0 <= i < |rest| => rest[i] + 1);
      PicksOneMore(Without(ids[1..], gone), ids[1..], rest, moved, ids[0], ids[0] !in gone);
      assert ids == [ids[0]] + ids[1..];
      at := (if ids[0] !in gone then [0] else []) + moved;
      forall k | 0 <= k < |ids| ensures k in at <==> ids[k] !in gone {
        if k > 0 {
          MovedBack(rest, moved, k - 1);
        }
      }
    }
  }

  lemma PicksOneMore(kept: seq<Id>, ids: seq<Id>, at: seq<nat>, moved: seq<nat>, id: Id, keep: bool)
    requires Picks(kept, ids, at) && |moved| == |at| && forall i | 0 <= i < |at| :: moved[i] == at[i] + 1
    ensures Picks((if keep then [id] else []) + kept, [id] + ids, (if keep then [0] else []) + moved)
  {
  }

  lemma MovedBack(rest: seq<nat>, moved: seq<nat>, k: nat)
    requires |moved| == |rest| && forall i | 0 <= i < |rest| :: moved[i] == rest[i] + 1
    ensures k + 1 in moved <==> k in rest
  {
  }

  /** So a list changes exactly when it mentions a forgotten id. */
  lemma {:induction false} WithoutChanges(ids: seq<Id>, gone: set<Id>)
    ensures forall id :: id in Without(ids, gone) <==> id in ids && id !in gone
    ensures Without(ids, gone) == ids <==> forall id | id in ids :: id !in gone
  {
    if ids != [] {
      WithoutChanges(ids[1..], gone);
      assert ids == [ids[0]] + ids[1..];
      WithoutIsShorter(ids[1..], gone);
    }
  }

  lemma {:induction false} WithoutIsShorter(ids: seq<Id>, gone: set<Id>)
    ensures |Without(ids, gone)| <= |ids|
  {
    if ids != [] {
      WithoutIsShorter(ids[1..], gone);
    }
  }

  lemma ScopeOfBook(v: Vault, project: Project, threadId: Id)
    requires ForgetScope(v, project, threadId).Some?
    ensures var s := ForgetScope(v, project, threadId).value;
            && threadId in v.book.threads && s.thread == v.book.threads[threadId] && s.thread.project == project
            && s.versions.Keys == VersionsOf(v.book, threadId)
            && (forall a | a in s.versions :: a in v.book.versions && s.versions[a] == v.book.versions[a])
            && (forall d :: d in s.disclosures <==> d in v.book.disclosures && d.0 in VersionsOf(v.book, threadId))
  {
  }

  lemma RemovedBy<K, V>(before: map<K, V>, gone: map<K, V>, keys: set<K>)
    requires gone.Keys == keys && forall k | k in gone :: k in before && before[k] == gone[k]
    ensures Removed(before, before - keys, gone)
  {
  }

  lemma ForgetRemovesThreadRow(v: Vault, project: Project, threadId: Id, receipt: Id)
    requires VaultInv(v) && ForgetScope(v, project, threadId).Some?
    ensures CanForget(v, threadId)
    ensures Removed(v.book.threads, ForgetThreadOp(v, threadId, receipt).book.threads,
                    map[threadId := ForgetScope(v, project, threadId).value.thread])
  {
    hide *;
    ScopeOfBook(v, project, threadId);
    CanForgetThread(v, threadId);
    ForgetTables(v, threadId, receipt);
    ForgetRemovesThread(v.book, threadId);
    RemovedBy(v.book.threads, map[threadId := ForgetScope(v, project, threadId).value.thread], {threadId});
  }

  lemma ForgetRemovesVersions(v: Vault, project: Project, threadId: Id, receipt: Id)
    requires VaultInv(v) && ForgetScope(v, project, threadId).Some?
    ensures CanForget(v, threadId)
    ensures Removed(v.book.versions, ForgetThreadOp(v, threadId, receipt).book.versions,
                    ForgetScope(v, project, threadId).value.versions)
  {
    hide *;
    ScopeOfBook(v, project, threadId);
    CanForgetThread(v, threadId);
    ForgetTables(v, threadId, receipt);
    ForgetRemovesThread(v.book, threadId);
    RemovedBy(v.book.versions, ForgetScope(v, project, threadId).value.versions, VersionsOf(v.book, threadId));
  }

  lemma ForgetRemovesDisclosures(v: Vault, project: Project, threadId: Id, receipt: Id)
    requires VaultInv(v) && ForgetScope(v, project, threadId).Some?
    ensures CanForget(v, threadId)
    ensures Dropped(v.book.disclosures, ForgetThreadOp(v, threadId, receipt).book.disclosures,
                    ForgetScope(v, project, threadId).value.disclosures)
  {
  }

  lemma CanForgetThread(v: Vault, threadId: Id)
    requires VaultInv(v) && threadId in v.book.threads
    ensures CanForget(v, threadId)
  {
  }

  lemma ForgetRemovesThread(b: Book, threadId: Id)
    requires threadId in b.threads
    ensures var b1 := Apply(b, Forget(threadId));
            && b1.threads == b.threads - {threadId}
            && b1.versions == b.versions - VersionsOf(b, threadId)
            && (forall d :: d in b1.disclosures <==> d in b.disclosures && d.0 !in VersionsOf(b, threadId))
            && b.audience <= b1.audience
  {
  }

  lemma ForgetRemovesRows(v: Vault, project: Project, threadId: Id, receipt: Id)
    requires VaultInv(v) && ForgetScope(v, project, threadId).Some?
    ensures CanForget(v, threadId)
    ensures var s := ForgetScope(v, project, threadId).value;
            var w := ForgetThreadOp(v, threadId, receipt);
            && Removed(v.evidence, w.evidence, s.ownedEvidence)
            && Dropped(v.evidenceRefs, w.evidenceRefs, s.evidenceRefs)
            && Removed(v.attestations, w.attestations, s.attestations)
            && Removed(v.consents, w.consents, s.consents)
            && Removed(v.fts, w.fts, s.fts)
            && Removed(v.feedback, w.feedback, s.feedback)
  {
  }

  lemma ForgetRemovesProposals(v: Vault, project: Project, threadId: Id, receipt: Id)
    requires VaultInv(v) && ForgetScope(v, project, threadId).Some?
    ensures Removed(v.proposals, ForgetThreadOp(v, threadId, receipt).proposals, ForgetScope(v, project, threadId).value.proposals)
  {
  }

  lemma ForgetRemovesReviews(v: Vault, project: Project, threadId: Id, receipt: Id)
    requires VaultInv(v) && ForgetScope(v, project, threadId).Some?
    ensures Removed(v.reviews, ForgetThreadOp(v, threadId, receipt).reviews, ForgetScope(v, project, threadId).value.reviews)
  {
  }

  lemma ForgetRemovesProvenance(v: Vault, project: Project, threadId: Id, receipt: Id)
    requires VaultInv(v) && ForgetScope(v, project, threadId).Some?
    ensures Removed(v.provenance, ForgetThreadOp(v, threadId, receipt).provenance, ForgetScope(v, project, threadId).value.provenance)
  {
  }

  lemma ForgetRemovesRelations(v: Vault, project: Project, threadId: Id, receipt: Id)
    requires VaultInv(v) && ForgetScope(v, project, threadId).Some?
    ensures Removed(v.relations, ForgetThreadOp(v, threadId, receipt).relations, ForgetScope(v, project, threadId).value.relations)
  {
  }

  lemma ForgetRemovesConflicts(v: Vault, project: Project, threadId: Id, receipt: Id)
    requires VaultInv(v) && ForgetScope(v, project, threadId).Some?
    ensures Removed(v.conflicts, ForgetThreadOp(v, threadId, receipt).conflicts, ForgetScope(v, project, threadId).value.conflicts)
  {
  }

  lemma ForgetRemovesConflictMembers(v: Vault, project: Project, threadId: Id, receipt: Id)
    requires VaultInv(v) && ForgetScope(v, project, threadId).Some?
    ensures Dropped(v.conflictMembers, ForgetThreadOp(v, threadId, receipt).conflictMembers, ForgetScope(v, project, threadId).value.conflictMembers)
  {
  }

  lemma ForgetRemovesLinks(v: Vault, project: Project, threadId: Id, receipt: Id)
    requires VaultInv(v) && ForgetScope(v, project, threadId).Some?
    ensures CanForget(v, threadId)
    ensures var s := ForgetScope(v, project, threadId).value;
            var w := ForgetThreadOp(v, threadId, receipt);
            && Removed(v.proposals, w.proposals, s.proposals)
            && Removed(v.reviews, w.reviews, s.reviews)
            && Removed(v.provenance, w.provenance, s.provenance)
            && Removed(v.relations, w.relations, s.relations)
            && Removed(v.conflicts, w.conflicts, s.conflicts)
            && Dropped(v.conflictMembers, w.conflictMembers, s.conflictMembers)
  {
    hide *;
    ScopeOfBook(v, project, threadId);
    CanForgetThread(v, threadId);
    ForgetRemovesProposals(v, project, threadId, receipt);
    ForgetRemovesReviews(v, project, threadId, receipt);
    ForgetRemovesProvenance(v, project, threadId, receipt);
    ForgetRemovesRelations(v, project, threadId, receipt);
    ForgetRemovesConflicts(v, project, threadId, receipt);
    ForgetRemovesConflictMembers(v, project, threadId, receipt);
  }

  /** Recalls stay, in number and order, and lose exactly the forgotten ids, the others staying where
      they were; the recalls named in the scope are exactly the ones that change. */
  lemma ForgetPrunesRecalls(v: Vault, project: Project, threadId: Id, receipt: Id, r: Id)
    requires VaultInv(v) && ForgetScope(v, project, threadId).Some? && r in v.recalls
    ensures CanForget(v, threadId)
    ensures var s := ForgetScope(v, project, threadId).value;
            var w := ForgetThreadOp(v, threadId, receipt);
            && w.recalls.Keys == v.recalls.Keys
            && w.recalls[r] == v.recalls[r].(results := w.recalls[r].results)
            && (w.recalls[r] != v.recalls[r] <==> r in s.recalls)
            && (v.recalls[r].project == project ==>
                  IsPruned(w.recalls[r].results, v.recalls[r].results, s.versions.Keys))
  {
    hide *;
    ScopeOfBook(v, project, threadId);
    CanForgetThread(v, threadId);
    var gone := VersionsOf(v.book, threadId);
    RecallAfterForget(v, project, threadId, receipt, r);
    WithoutChanges(v.recalls[r].results, gone);
    WithoutIsExact(v.recalls[r].results, gone);
  }

  /** A recall after the forget: pruned if it is one of the project's that mention a forgotten id. */
  lemma RecallAfterForget(v: Vault, project: Project, threadId: Id, receipt: Id, r: Id)
    requires CanForget(v, threadId) && ForgetScope(v, project, threadId).Some? && r in v.recalls
    ensures var w := ForgetThreadOp(v, threadId, receipt);
            var gone := VersionsOf(v.book, threadId);
            var before := v.recalls[r];
            && w.recalls.Keys == v.recalls.Keys
            && (r in ForgetScope(v, project, threadId).value.recalls <==>
                  before.project == project && exists id | id in before.results :: id in gone)
            && w.recalls[r] == (if r in ForgetScope(v, project, threadId).value.recalls
                                then before.(results := Without(before.results, gone)) else before)
  {
    hide Apply, Suppress, UniqueDeliveries, SharedOutside, ReferencedBy, Without, VersionsOf, ProposalsOn;
    assert ForgetScope(v, project, threadId).value.versions.Keys == VersionsOf(v.book, threadId);
  }

  /** Each purged proposal leaves one tombstone; older tombstones stay. */
  lemma SuppressionIsExact(v: Vault, gone: map<Id, Proposal>, sequence: nat, k: Delivery)
    requires UniqueDeliveries(v.proposals) && NeverRevived(v.proposals, v.tombstones)
    requires forall p | p in gone :: p in v.proposals && v.proposals[p] == gone[p]
    ensures var after := Suppress(v.tombstones, gone, sequence, WasForgotten);
            && (k in v.tombstones ==> k in after && after[k] == v.tombstones[k])
            && (k !in v.tombstones && k in after ==>
                  after[k].proposal in gone && DeliveryOf(gone[after[k].proposal]) == k
                  && after[k].disposition == WasForgotten)
            && (forall p | p in gone && DeliveryOf(gone[p]) == k :: k in after && after[k].proposal == p)
  {
  }

  /** The difference a forget makes, over every content table, is the previewed scope; each
      purged proposal leaves one tombstone, older tombstones stay, the audiences' timelines
      only grow, and no reference is left dangling. */
  lemma ForgetIsExact(v: Vault, project: Project, threadId: Id, receipt: Id, k: Delivery)
    requires VaultInv(v) && ForgetScope(v, project, threadId).Some?
    ensures CanForget(v, threadId)
    ensures var s := ForgetScope(v, project, threadId).value;
            var w := ForgetThreadOp(v, threadId, receipt);
            && Removed(v.book.threads, w.book.threads, map[threadId := s.thread])
            && Removed(v.book.versions, w.book.versions, s.versions)
            && Dropped(v.book.disclosures, w.book.disclosures, s.disclosures)
            && Removed(v.evidence, w.evidence, s.ownedEvidence)
            && Removed(v.proposals, w.proposals, s.proposals)
            && (k in v.tombstones ==> k in w.tombstones && w.tombstones[k] == v.tombstones[k])
            && (k !in v.tombstones && k in w.tombstones ==>
                  w.tombstones[k].proposal in s.proposals && DeliveryOf(s.proposals[w.tombstones[k].proposal]) == k)
            && (forall p | p in s.proposals && DeliveryOf(s.proposals[p]) == k :: k in w.tombstones)
            && v.book.audience <= w.book.audience
            && VaultInv(w)
  {
    assert ForgetScope(v, project, threadId).value.proposals == ProposalsOn(v, v.book.threads[threadId]);
    hide ActivitiesDated, CorrectionsInThread, Inv, ForeignKeysHold, EvidenceBacked, IndexMatches, UniqueThreads, AcceptedInThread, ContentProper, ForgetScope,
      ForgetThreadOp, Apply, Removed, Dropped, Suppress, ProposalsOn, NeverRevived;
    ForgetRemovesThreadRow(v, project, threadId, receipt);
    ForgetRemovesVersions(v, project, threadId, receipt);
    ForgetRemovesDisclosures(v, project, threadId, receipt);
    ForgetRemovesRows(v, project, threadId, receipt);
    ForgetRemovesLinks(v, project, threadId, receipt);
    ForgetKeepsVault(v, threadId, receipt);
    ForgetTables(v, threadId, receipt);
    ForgetRemovesThread(v.book, threadId);
    SuppressionIsExact(v, ProposalsOn(v, v.book.threads[threadId]), v.book.sequence + 1, k);
  }

  /** Nothing that is left names a forgotten version. */
  lemma NothingRemains(v: Vault, project: Project, threadId: Id, receipt: Id, a: Id)
    requires VaultInv(v) && ForgetScope(v, project, threadId).Some?
    requires a in ForgetScope(v, project, threadId).value.versions
    ensures CanForget(v, threadId)
    ensures var w := ForgetThreadOp(v, threadId, receipt);
            && a !in w.book.versions && a !in w.attestations.Values && a !in w.consents.Values && a !in w.fts.Values
            && (forall d | d in w.book.disclosures :: d.0 != a)
            && (forall r | r in w.evidenceRefs :: r.1 != a)
            && (forall r | r in w.feedback :: w.feedback[r].assertion != a)
            && (forall r | r in w.relations :: w.relations[r].from != a && w.relations[r].to != a)
            && (forall m | m in w.conflictMembers :: m.1 != a)
            && (forall r | r in w.provenance && w.provenance[r].project == project :: w.provenance[r].target != a)
            && (forall r | r in w.provenance :: Corrected(a) !in w.provenance[r].inputs)
            && (forall p | p in w.proposals :: w.proposals[p].accepted != Some(a))
            && (forall r | r in w.recalls && w.recalls[r].project == project :: a !in w.recalls[r].results)
  {
    hide *;
    ScopeOfBook(v, project, threadId);
    CanForgetThread(v, threadId);
    var w := ForgetThreadOp(v, threadId, receipt);
    ForgetRemovesVersions(v, project, threadId, receipt);
    VersionIsGone(v, project, threadId, receipt, a);
    ForgetKeepsVault(v, threadId, receipt);
    NothingNames(w, a);
    ForgetForgetsFeedback(v, project, threadId, receipt, a);
    forall r | r in w.provenance && w.provenance[r].project == project ensures w.provenance[r].target != a {
      ForgetKeepsOtherTargets(v, threadId, receipt, r);
    }
    forall r | r in w.recalls && w.recalls[r].project == project ensures a !in w.recalls[r].results {
      RecallForgets(v, project, threadId, receipt, r, a);
    }
  }

  lemma VersionIsGone(v: Vault, project: Project, threadId: Id, receipt: Id, a: Id)
    requires CanForget(v, threadId) && ForgetScope(v, project, threadId).Some?
    requires a in ForgetScope(v, project, threadId).value.versions
    requires Removed(v.book.versions, ForgetThreadOp(v, threadId, receipt).book.versions,
                     ForgetScope(v, project, threadId).value.versions)
    ensures a !in ForgetThreadOp(v, threadId, receipt).book.versions
  {
    hide ForgetThreadOp, ForgetScope, CanForget;
  }

  /** In a consistent vault no row that refers to versions names one that is not stored. */
  lemma NothingNames(w: Vault, a: Id)
    requires VaultInv(w) && a !in w.book.versions
    ensures a !in w.attestations.Values && a !in w.consents.Values && a !in w.fts.Values
    ensures forall d | d in w.book.disclosures :: d.0 != a
    ensures forall r | r in w.evidenceRefs :: r.1 != a
    ensures forall r | r in w.relations :: w.relations[r].from != a && w.relations[r].to != a
    ensures forall m | m in w.conflictMembers :: m.1 != a
    ensures forall r | r in w.provenance :: Corrected(a) !in w.provenance[r].inputs
    ensures forall p | p in w.proposals :: w.proposals[p].accepted != Some(a)
  {
    hide TimelinesOk, EventsComplete, RowsOk, IngestUnique, UniqueThreads, EvidenceBacked, UniqueDeliveries, NeverRevived,
      ContentProper;
    forall r, i | r in w.provenance && i in w.provenance[r].inputs && i.Corrected? ensures i.version in w.book.versions {
      assert CorrectedThere(w.provenance[r], i.version, ThreadColumn(w.book), w.book.threads);
    }
    forall p | p in w.proposals && w.proposals[p].accepted.Some? ensures w.proposals[p].accepted.value in w.book.versions {
      assert AcceptedThere(w.proposals[p], ThreadColumn(w.book), w.book.threads);
    }
  }

  lemma ForgetForgetsFeedback(v: Vault, project: Project, threadId: Id, receipt: Id, a: Id)
    requires CanForget(v, threadId) && ForgetScope(v, project, threadId).Some? && a in VersionsOf(v.book, threadId)
    ensures forall r | r in ForgetThreadOp(v, threadId, receipt).feedback ::
              ForgetThreadOp(v, threadId, receipt).feedback[r].assertion != a
  {
  }

  lemma RecallForgets(v: Vault, project: Project, threadId: Id, receipt: Id, r: Id, a: Id)
    requires CanForget(v, threadId) && ForgetScope(v, project, threadId).Some? && a in VersionsOf(v.book, threadId)
    requires r in ForgetThreadOp(v, threadId, receipt).recalls
             && ForgetThreadOp(v, threadId, receipt).recalls[r].project == project
    ensures a !in ForgetThreadOp(v, threadId, receipt).recalls[r].results
  {
    assert ForgetThreadOp(v, threadId, receipt).recalls.Keys == v.recalls.Keys;
    hide *;
    RecallAfterForget(v, project, threadId, receipt, r);
    WithoutChanges(v.recalls[r].results, VersionsOf(v.book, threadId));
  }
}
