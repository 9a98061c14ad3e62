/** The daemon's operations, statement by statement, against the transactions of `Vault`. */
module Kernel {
  import opened Basics
  import opened Ledger
  import opened Ordering
  import opened Timelines
  import opened Vault
  import opened Approvals
  import opened Erasure
  import opened Forgetting
  import opened Deliveries
  import opened Retention
  import opened Admissions
  import opened Survivors
  import opened Outcomes

  method FindThread(b: Book, project: Project, key: string) returns (found: Option<Id>)
    requires UniqueThreads(b.threads)
    ensures found == ThreadFor(b, project, key)
  {
    if id :| id in b.threads && b.threads[id].project == project && b.threads[id].key == key {
      found := Some(id);
    } else {
      found := None;
    }
  }

  /** `active_rows` and the test on them. */
  predicate IsCurrent(b: Book, threadId: Id, c: Content, origin: Origin) {
    if origin.Corrects? then Current(b, origin.target) && b.versions[origin.target].thread == threadId
    else AlreadyCurrent(b, threadId, c.claim)
  }

  /** The rows of one admission in the ledger's tables, as one expression. */
  function WrittenBook(b: Book, id: Id, row: Version, disclosure: set<Provider>, supersedes: Option<Id>, now: Time,
                       sequence: nat): Book
  {
    var more := b.versions[id := row];
    var b1 := b.(versions := if supersedes.Some? && supersedes.value in more
                             then more[supersedes.value := Retire(more[supersedes.value], Superseded, sequence, now)]
                             else more,
                 disclosures := b.disclosures + Shown(id, disclosure));
    var changed := {id} + if supersedes.Some? then {supersedes.value} else {};
    b1.(audience := Announce(b1.audience, row.project, sequence, Audience(b1, row.project, changed)))
  }

  /** What `WriteAdmission` leaves, as one expression. */
  function Written(v: Vault, op: Op, threadId: Id, sequence: nat): Vault
    requires op.Accept?
  {
    var c, d := op.content, op.draw;
    var backed := c.evidence != "";
    var row := RowOf(c, threadId, if backed then Some(d.evidence) else None).(ingest := sequence);
    v.(book := WrittenBook(v.book, d.assertion, row, c.disclosure,
                           if op.origin.Corrects? then Some(op.origin.target) else None, op.now, sequence),
       evidence := if backed then v.evidence[d.evidence := Evidence(c.project, c.evidence, sequence)] else v.evidence,
       evidenceRefs := if backed then v.evidenceRefs + {(d.evidence, d.assertion)} else v.evidenceRefs,
       attestations := v.attestations + Attested(d),
       consents := v.consents[d.consent := d.assertion],
       fts := v.fts[d.indexed := d.assertion],
       provenance := v.provenance[d.activity := ActivityOf(op, sequence)],
       relations := if op.origin.Corrects? then v.relations[d.relation := Relation(d.assertion, op.origin.target, sequence)]
                    else v.relations)
  }

  /** The check on the rows of the thread, made after the thread row was inserted, is the check
      the specification makes before. */
  lemma CurrentIsChecked(v: Vault, b: Book, c: Content, origin: Origin, d: Draw, threadId: Id)
    requires VaultInv(v) && Unused(v, d)
    requires b.versions == v.book.versions
    requires var found := ThreadFor(v.book, c.project, c.key); threadId == if found.Some? then found.value else d.thread
    ensures var found := ThreadFor(v.book, c.project, c.key);
            IsCurrent(b, threadId, c, origin) ==
              (found.Some? && if origin.Corrects? then Current(v.book, origin.target)
                                                       && v.book.versions[origin.target].thread == found.value
                              else AlreadyCurrent(v.book, found.value, c.claim))
    ensures origin.Corrects? && IsCurrent(b, threadId, c, origin) ==> origin.target in b.versions
  {
  }

  /** The ledger with its sequence drawn and the thread row in place. */
  function Prepared(b: Book, step: Step): Book
    requires step.Admit?
  {
    b.(sequence := b.sequence + 1, threads := b.threads[step.row.thread := step.thread])
  }

  lemma WrittenIsStep(b: Book, step: Step)
    requires step.Admit? && Enabled(b, step)
    ensures var row := step.row.(lifecycle := Active, ingest := b.sequence + 1, retired := None, retiredAt := None);
            WrittenBook(Prepared(b, step), step.id, row, step.disclosure, step.supersedes, step.now, b.sequence + 1)
              == AdmitStep(b, step)
  {
  }

  lemma WrittenIsAccepted(v: Vault, op: Op)
    requires VaultInv(v) && op.Accept? && CanAccept(v, op)
    ensures var step := AdmitOf(v, op);
            Written(v.(book := Prepared(v.book, step)), op, step.row.thread, v.book.sequence + 1)
              == AcceptOp(v, op).(proposals := v.proposals, reviews := v.reviews)
  {
    hide VaultInv, CanAccept, AdmitStep, WrittenBook, Attested, ActivityOf;
    AdmitIsEnabled(v, op);
    WrittenIsStep(v.book, AdmitOf(v, op));
  }

  // ---------------------------------------------------------------- the loops of a forget

  lemma FeedbackSplitsOff(feedback: map<Id, Feedback>, done: set<Id>, a: Id)
    requires a !in done
    ensures var rows := FeedbackOn(KeptFeedback(feedback, done), {a});
            && FeedbackOn(feedback, done + {a}).Keys == FeedbackOn(feedback, done).Keys + rows.Keys
            && FeedbackOn(feedback, done).Keys !! rows.Keys
            && KeptFeedback(feedback, done + {a}) == KeptFeedback(feedback, done) - rows.Keys
  {
  }

  lemma DisjointSizes<K, V>(all: map<K, V>, some: map<K, V>, rest: map<K, V>)
    requires all.Keys == some.Keys + rest.Keys && some.Keys !! rest.Keys
    ensures |all| == |some| + |rest|
  {
  }

  lemma FeedbackOneMore(feedback: map<Id, Feedback>, done: set<Id>, a: Id)
    requires a !in done
    ensures var kept := KeptFeedback(feedback, done);
            var rows := FeedbackOn(kept, {a});
            && KeptFeedback(feedback, done + {a}) == kept - rows.Keys
            && |FeedbackOn(feedback, done + {a})| == |FeedbackOn(feedback, done)| + |rows|
  {
    hide *;
    FeedbackSplitsOff(feedback, done, a);
    DisjointSizes(FeedbackOn(feedback, done + {a}), FeedbackOn(feedback, done), FeedbackOn(KeptFeedback(feedback, done), {a}));
  }

  /** One `DELETE FROM feedback WHERE assertion_id=?` per version. */
  method DeleteFeedback(feedback: map<Id, Feedback>, gone: set<Id>) returns (kept: map<Id, Feedback>, deleted: nat)
    ensures kept == KeptFeedback(feedback, gone)
    ensures deleted == |FeedbackOn(feedback, gone)|
  {
    kept, deleted := feedback, 0;
    assert KeptFeedback(feedback, {}) == feedback;
    assert FeedbackOn(feedback, {}) == map[];
    hide KeptFeedback, FeedbackOn;
    var todo := gone;
    assert gone - todo == {};
    while todo != {}
      invariant todo <= gone
      invariant kept == KeptFeedback(feedback, gone - todo)
      invariant deleted == |FeedbackOn(feedback, gone - todo)|
    {
      var a :| a in todo;
      FeedbackOneMore(feedback, gone - todo, a);
      var rows := FeedbackOn(kept, {a});
      deleted := deleted + |rows|;
      kept := kept - rows.Keys;
      assert gone - (todo - {a}) == gone - todo + {a};
      todo := todo - {a};
    }
    assert gone - todo == gone;
  }

  /** The recalls among `ids` that mention a forgotten version. */
  function MentioningIn(recalls: map<Id, Recall>, ids: set<Id>, gone: set<Id>): set<Id> {
    set r | r in ids && r in recalls && Mentions(recalls[r], gone)
  }

  lemma PruneOneMore(recalls: map<Id, Recall>, ids: set<Id>, gone: set<Id>, r: Id)
    requires r in recalls && r !in ids
    ensures var before := PrunedRecalls(recalls, ids, gone);
            var retained := Without(recalls[r].results, gone);
            && r in before
            && PrunedRecalls(recalls, ids + {r}, gone)
                 == if retained != recalls[r].results then before[r := before[r].(results := retained)] else before
  {
  }

  lemma MentionOneMore(recalls: map<Id, Recall>, ids: set<Id>, gone: set<Id>, r: Id)
    requires r in recalls && r !in ids
    ensures |MentioningIn(recalls, ids + {r}, gone)|
         == |MentioningIn(recalls, ids, gone)| + if Without(recalls[r].results, gone) != recalls[r].results then 1 else 0
  {
    hide Without;
    WithoutChanges(recalls[r].results, gone);
    assert MentioningIn(recalls, ids + {r}, gone)
        == MentioningIn(recalls, ids, gone) + if Mentions(recalls[r], gone) then {r} else {};
  }

  lemma NothingPruned(recalls: map<Id, Recall>, project: Project, gone: set<Id>)
    ensures PrunedRecalls(recalls, {}, gone) == recalls && MentioningIn(recalls, {}, gone) == {}
    ensures MentioningIn(recalls, RecallsOf(recalls, project), gone) == Mentioning(recalls, project, gone)
    ensures forall r | r in RecallsOf(recalls, project) :: r in recalls
  {
  }

  /** One pass over the recalls of the project. */
  method PruneRecalls(recalls: map<Id, Recall>, project: Project, gone: set<Id>)
    returns (pruned: map<Id, Recall>, count: nat)
    ensures pruned == PrunedRecalls(recalls, RecallsOf(recalls, project), gone)
    ensures count == |Mentioning(recalls, project, gone)|
  {
    pruned, count := recalls, 0;
    NothingPruned(recalls, project, gone);
    hide *;
    var all := RecallsOf(recalls, project);
    var todo := all;
    assert all - todo == {};
    while todo != {}
      invariant todo <= all
      invariant pruned == PrunedRecalls(recalls, all - todo, gone)
      invariant count == |MentioningIn(recalls, all - todo, gone)|
    {
      var r :| r in todo;
      PruneOneMore(recalls, all - todo, gone, r);
      MentionOneMore(recalls, all - todo, gone, r);
      assert all - (todo - {r}) == all - todo + {r};
      var retained := Without(recalls[r].results, gone);
      if retained != recalls[r].results {
        pruned := pruned[r := pruned[r].(results := retained)];
        count := count + 1;
      }
      todo := todo - {r};
    }
    assert all - todo == all;
  }

  /** `DELETE FROM assertion_fts` and `DELETE FROM provenance_activities`, version by version. */
  method DeleteIndexed(fts: map<Id, Id>, provenance: map<Id, Activity>, project: Project, gone: set<Id>)
    returns (kept: map<Id, Id>, activities: map<Id, Activity>)
    ensures kept == RowsElsewhere(fts, gone) && activities == KeptTargets(provenance, project, gone)
  {
    kept, activities := fts, provenance;
    var todo := gone;
    while todo != {}
      invariant todo <= gone
      invariant kept == RowsElsewhere(fts, gone - todo) && activities == KeptTargets(provenance, project, gone - todo)
    {
      var a :| a in todo;
      kept := map r | r in kept && kept[r] != a :: kept[r];
      activities := map p | p in activities && !(activities[p].project == project && activities[p].target == a)
        :: activities[p];
      todo := todo - {a};
    }
    assert gone - todo == gone;
  }

  lemma StillUnique(rows: map<Id, Proposal>, some: map<Id, Proposal>)
    requires UniqueDeliveries(rows) && forall p | p in some :: p in rows && rows[p] == some[p]
    ensures UniqueDeliveries(some)
  {
  }

  lemma EvidenceOneMore(v: Vault, done: set<Id>, e: Id)
    requires EvidenceBacked(EvidenceColumn(v.book), v.evidenceRefs)
    ensures var w := v.(evidence := v.evidence - Unreferenced(v, done));
            (if Referenced(w, e) then w else DeleteEvidence(w, e))
              == v.(evidence := v.evidence - Unreferenced(v, done + {e}))
  {
  }

  // What the statements of `ForgetApply` need to know, one fact at a time.

  lemma ForgetIsReady(v: Vault, project: Project, threadId: Id)
    requires VaultInv(v) && ForgetScope(v, project, threadId).Some?
    ensures threadId in v.book.threads && v.book.threads[threadId].project == project
    ensures CanForget(v, threadId) && DeleteThread(Staged(v, threadId), threadId).Some?
  {
  }

  lemma ProposalsAreStored(v: Vault, threadId: Id)
    requires CanForget(v, threadId)
    ensures var proposals := ProposalsOn(v, v.book.threads[threadId]);
            forall p | p in proposals :: p in v.proposals && v.proposals[p] == proposals[p]
  {
  }

  lemma StagedIs(v: Vault, threadId: Id)
    requires CanForget(v, threadId)
    ensures UniqueDeliveries(ProposalsOn(v, v.book.threads[threadId]))
    ensures var thread := v.book.threads[threadId];
            var gone := VersionsOf(v.book, threadId);
            var s := v.book.sequence + 1;
            Staged(v, threadId) ==
              Purged(v.(book := v.book.(sequence := s, audience :=
                          Announce(v.book.audience, thread.project, s,
                                   Audience(v.book.(sequence := s), thread.project, gone))),
                        feedback := KeptFeedback(v.feedback, gone),
                        recalls := PrunedRecalls(v.recalls, RecallsOf(v.recalls, thread.project), gone),
                        fts := RowsElsewhere(v.fts, gone),
                        provenance := KeptTargets(v.provenance, thread.project, gone)),
                     ProposalsOn(v, thread), s, WasForgotten)
  {
    hide Announce, Purged, KeptFeedback, PrunedRecalls, RecallsOf, RowsElsewhere, KeptTargets, VersionsOf;
    var gone := VersionsOf(v.book, threadId);
    var project := v.book.threads[threadId].project;
    assert Audience(v.book.(sequence := v.book.sequence + 1), project, gone) == Audience(v.book, project, gone);
  }

  /** The surviving columns are still backed, so nothing is cleared by the evidence deletions. */
  lemma StillBacked(v: Vault, threadId: Id)
    requires VaultInv(v) && CanForget(v, threadId) && DeleteThread(Staged(v, threadId), threadId).Some?
    ensures var w := DeleteThread(Staged(v, threadId), threadId).value;
            EvidenceBacked(EvidenceColumn(w.book), w.evidenceRefs)
  {
    ForgetKeepsEvidence(v, threadId, "");
    StagesMeetOnRows(v, threadId, "");
    StagesMeetOnRest(v, threadId, "");
    hide Staged, DeleteThread, ForgetThreadOp, CanForget, EvidenceBacked, EvidenceColumn, VaultInv, ReferencedBy,
      Unreferenced, VersionsOf;
  }

  lemma FinishedIs(v: Vault, threadId: Id, rest: Vault, receipt: Id)
    requires threadId in v.book.threads
    ensures Finished(v, threadId, rest, receipt) ==
              rest.(evidence := rest.evidence - Unreferenced(rest, ReferencedBy(v, VersionsOf(v.book, threadId))),
                    receipts := rest.receipts[receipt := Receipt(v.book.threads[threadId].project, threadId,
                                                                 v.book.sequence + 1)])
  {
  }

  lemma AnswerOfForget(v: Vault, threadId: Id, receipt: Id)
    requires threadId in v.book.threads
    ensures var gone := VersionsOf(v.book, threadId);
            AnswerOf(v, ForgetThread(threadId, receipt)) ==
              Deleted(receipt, threadId, v.book.sequence + 1, |FeedbackOn(v.feedback, gone)|,
                      |Mentioning(v.recalls, v.book.threads[threadId].project, gone)|)
  {
  }

  /** `purge_proposals`: tombstone, provenance and row of each, one after the other. */
  method PurgeProposals(v: Vault, rows: map<Id, Proposal>, sequence: nat, disposition: Disposition) returns (w: Vault)
    requires UniqueDeliveries(rows)
    requires forall p | p in rows :: p in v.proposals && v.proposals[p] == rows[p]
    ensures w == Purged(v, rows, sequence, disposition)
  {
    hide UniqueDeliveries, Purged, PurgeOne;
    PurgedNone(v, sequence, disposition);
    w := v;
    var todo := rows.Keys;
    ghost var done: map<Id, Proposal> := map[];
    assert rows - todo == map[];
    StillUnique(rows, done);
    while todo != {}
      invariant todo <= rows.Keys && done == rows - todo && UniqueDeliveries(done)
      invariant w == Purged(v, done, sequence, disposition)
    {
      var id :| id in todo;
      ghost var more := done[id := rows[id]];
      assert more == rows - (todo - {id});
      StillUnique(rows, more);
      PurgedOneMore(v, done, id, sequence, disposition);
      w := PurgeOne(w, id, sequence, disposition);
      todo := todo - {id};
      done := more;
    }
    assert rows - todo == rows;
  }

  /** `DELETE FROM evidence ... AND NOT EXISTS (SELECT 1 FROM evidence_refs ...)`, one by one. */
  method DeleteEvidenceOf(v: Vault, evidence: set<Id>) returns (w: Vault)
    requires EvidenceBacked(EvidenceColumn(v.book), v.evidenceRefs)
    ensures w == v.(evidence := v.evidence - Unreferenced(v, evidence))
  {
    w := v;
    var todo := evidence;
    assert evidence - todo == {} && Unreferenced(v, {}) == {};
    hide *;
    while todo != {}
      invariant todo <= evidence
      invariant w == v.(evidence := v.evidence - Unreferenced(v, evidence - todo))
    {
      var e :| e in todo;
      assert evidence - (todo - {e}) == evidence - todo + {e};
      EvidenceOneMore(v, evidence - todo, e);
      if !Referenced(w, e) {
        w := DeleteEvidence(w, e);
      }
      todo := todo - {e};
    }
    assert evidence - todo == evidence;
  }

  /** The statements of `_forget_apply` up to the deletion of the thread row. */
  method StageForget(v: Vault, project: Project, threadId: Id) returns (w: Vault, feedbackRows: nat, pruned: nat)
    requires CanForget(v, threadId) && v.book.threads[threadId].project == project
    ensures w == Staged(v, threadId)
    ensures var gone := VersionsOf(v.book, threadId);
            && feedbackRows == |FeedbackOn(v.feedback, gone)|
            && pruned == |Mentioning(v.recalls, project, gone)|
  {
    StagedIs(v, threadId);
    ProposalsAreStored(v, threadId);
    hide *;
    var assertions := VersionsOf(v.book, threadId);
    var proposals := ProposalsOn(v, v.book.threads[threadId]);
    var sequence := v.book.sequence + 1;
    w := v.(book := v.book.(sequence := sequence));
    var rows := RecordAudienceChange(w.book, project, sequence, assertions);
    w := w.(book := w.book.(audience := rows));
    var feedback, recalls, fts, provenance;
    feedback, feedbackRows := DeleteFeedback(w.feedback, assertions);
    w := w.(feedback := feedback);
    recalls, pruned := PruneRecalls(w.recalls, project, assertions);
    w := w.(recalls := recalls);
    fts, provenance := DeleteIndexed(w.fts, w.provenance, project, assertions);
    w := w.(fts := fts, provenance := provenance);
    w := PurgeProposals(w, proposals, sequence, WasForgotten);
  }

  // What the statements of the other operations need to know.

  lemma RejectDecision(v: Vault, project: Project, id: Id, draft: ProposalScope, m: Moment)
    ensures ScopeOfProposal(v, project, id) == Some(draft) ==>
              id in v.proposals && v.proposals[id] == draft.proposal && draft.proposal.content.project == project
    ensures Decide(v, RejectThis(project, id, draft), m) ==
              if ScopeOfProposal(v, project, id) != Some(draft) || draft.proposal.status != Proposed then Refused(StalePreview)
              else Done(Purge(id, WasRejected))
    ensures AnswerOf(v, Purge(id, WasRejected)) == Rejected(id, v.book.sequence + 1)
  {
  }

  lemma ForgetDraftDecision(v: Vault, project: Project, id: Id, draft: ProposalScope, m: Moment)
    ensures ScopeOfProposal(v, project, id) == Some(draft) ==>
              id in v.proposals && v.proposals[id] == draft.proposal && draft.proposal.content.project == project
    ensures Decide(v, ForgetDraft(project, id, draft), m) ==
              if ScopeOfProposal(v, project, id) != Some(draft) || draft.proposal.status == Accepted || draft.accepted != map[]
              then Refused(StalePreview) else Done(ForgetProposal(id, m.receipt))
    ensures AnswerOf(v, ForgetProposal(id, m.receipt)) == DraftDeleted(m.receipt, id, v.book.sequence + 1)
  {
  }

  lemma PurgeIsPurged(v: Vault, id: Id, disposition: Disposition)
    requires id in v.proposals
    ensures UniqueDeliveries(map[id := v.proposals[id]])
    ensures var s := v.book.sequence + 1;
            PurgeOne(v.(book := Apply(v.book, Tick)), id, s, disposition)
              == Purged(v.(book := v.book.(sequence := s)), map[id := v.proposals[id]], s, disposition)
  {
    var s := v.book.sequence + 1;
    assert Apply(v.book, Tick) == v.book.(sequence := s);
    hide *;
    PurgedAlone(v.(book := v.book.(sequence := s)), id, s, disposition);
  }

  lemma ForgetDraftStatements(v: Vault, project: Project, id: Id, draft: ProposalScope, receipt: Id)
    requires ScopeOfProposal(v, project, id) == Some(draft)
    requires draft.proposal.status != Accepted && draft.accepted == map[]
    ensures id in v.proposals && UniqueDeliveries(map[id := v.proposals[id]])
    ensures var s := v.book.sequence + 1;
            var w := Purged(v.(book := v.book.(sequence := s)), map[id := v.proposals[id]], s, WasForgotten);
            ApplyOp(v, ForgetProposal(id, receipt)) == w.(receipts := w.receipts[receipt := Receipt(project, id, s)])
  {
    hide *;
    DraftIsForgettable(v, project, id, draft);
    ForgetProposalIs(v, id, receipt);
    PurgeIsPurged(v, id, WasForgotten);
    var s := v.book.sequence + 1;
    PurgedKeepsReceipts(v.(book := v.book.(sequence := s)), map[id := v.proposals[id]], s, WasForgotten);
  }

  lemma ForgetProposalIs(v: Vault, id: Id, receipt: Id)
    requires CanForgetProposal(v, id)
    ensures id in v.proposals
    ensures var s := v.book.sequence + 1;
            ApplyOp(v, ForgetProposal(id, receipt))
              == PurgeOne(v.(book := Apply(v.book, Tick)), id, s, WasForgotten)
                   .(receipts := v.receipts[receipt := Receipt(v.proposals[id].content.project, id, s)])
  {
    hide PurgeOne, Apply, AcceptedFrom;
  }

  lemma PurgedKeepsReceipts(v: Vault, gone: map<Id, Proposal>, sequence: nat, disposition: Disposition)
    requires UniqueDeliveries(gone)
    ensures Purged(v, gone, sequence, disposition).receipts == v.receipts
  {
  }

  lemma DraftIsForgettable(v: Vault, project: Project, id: Id, draft: ProposalScope)
    requires ScopeOfProposal(v, project, id) == Some(draft)
    requires draft.proposal.status != Accepted && draft.accepted == map[]
    ensures id in v.proposals && v.proposals[id].content.project == project && CanForgetProposal(v, id)
  {
  }

  lemma PurgeStatements(v: Vault, id: Id, disposition: Disposition)
    requires id in v.proposals
    ensures UniqueDeliveries(map[id := v.proposals[id]])
    ensures var s := v.book.sequence + 1;
            ApplyOp(v, Purge(id, disposition))
              == Purged(v.(book := v.book.(sequence := s)), map[id := v.proposals[id]], s, disposition)
  {
    hide Purged, PurgeOne, UniqueDeliveries, Apply;
    PurgeIsPurged(v, id, disposition);
  }

  function NoDraw(): Draw {
    Draw("", "", "", {}, "", "", "", "", "")
  }

  lemma AcceptDecision(v: Vault, id: Id, c: Content, draft: ProposalScope, m: Moment)
    requires PreviewOk(AcceptThis(id, c, draft))
    ensures var decided := Decide(v, AcceptThis(id, c, draft), m);
            if Lapsed(c.retention, m.now) then decided == Refused(RetentionExpired)
            else if ScopeOfProposal(v, c.project, id) != Some(draft) then decided == Refused(StalePreview)
            else
              && id in v.proposals && v.proposals[id].content == c && ProperContent(c)
              && decided == if v.proposals[id].status != Proposed then Refused(InvalidTransition)
                            else if !IsProvider(v.proposals[id].source) then Refused(InvalidRequest)
                            else Admission(v, c, FromProposal(id), m)
  {
  }

  lemma AdmissionIs(v: Vault, c: Content, origin: Origin, m: Moment)
    ensures Admission(v, c, origin, m) == Admission(v, c, origin, Moment(m.draw, "", m.now, m.admits))
    ensures Admission(v, c, origin, m).Done? ==> Admission(v, c, origin, m).value == Accept(c, origin, m.draw, m.now)
  {
  }

  lemma AnswerOfReview(v: Vault, id: Id, c: Content, m: Moment)
    ensures var op := Accept(c, FromProposal(id), m.draw, m.now);
            && Settles(op)
            && AnswerOf(v, op) == Admitted(AdmitOf(v, op).row.thread, m.draw.assertion, v.book.sequence + 1, None, Some(id))
  {
  }

  lemma AcceptWritesReview(v: Vault, op: Op)
    requires op.Accept? && op.origin.FromProposal? && CanAccept(v, op)
    ensures var id := op.origin.proposal;
            && id in v.proposals
            && AcceptOp(v, op).proposals
                 == v.proposals[id := v.proposals[id].(status := Accepted, accepted := Some(op.draw.assertion))]
            && AcceptOp(v, op).reviews == v.reviews[op.draw.review := id]
  {
  }

  lemma AloneIsUnique(id: Id, p: Proposal)
    ensures UniqueDeliveries(map[id := p])
  {
  }

  lemma PurgedAlone(v: Vault, id: Id, sequence: nat, disposition: Disposition)
    requires id in v.proposals
    ensures UniqueDeliveries(map[id := v.proposals[id]])
    ensures Purged(v, map[id := v.proposals[id]], sequence, disposition) == PurgeOne(v, id, sequence, disposition)
  {
    hide Purged, PurgeOne;
    AloneIsUnique(id, v.proposals[id]);
    assert map[][id := v.proposals[id]] == map[id := v.proposals[id]];
    PurgedNone(v, sequence, disposition);
    PurgedOneMore(v, map[], id, sequence, disposition);
  }

  lemma ListingIsDistinct(ids: seq<Id>, of: set<Id>, at: map<Id, nat>)
    requires Listing(ids, of, at)
    ensures forall i, j | 0 <= i < j < |ids| :: ids[i] != ids[j]
    ensures forall i | 0 <= i < |ids| :: ids[i] in of
  {
    forall i, j | 0 <= i < j < |ids| ensures ids[i] != ids[j] {
      LexTotal(ids[i], ids[j]);
    }
  }

  lemma PurgeRunStep(v: Vault, due: seq<Id>)
    ensures due == [] ==> PurgeRun(v, due) == v
    ensures due != [] && due[0] in v.proposals ==>
              PurgeRun(v, due) == PurgeRun(ApplyOp(v, Purge(due[0], DispositionOf(v.proposals[due[0]]))), due[1..])
  {
  }

  /** The drafts still to be purged are stored, and different from each other. */
  ghost predicate Remaining(due: seq<Id>, i: nat, stored: set<Id>) {
    && (forall j | i <= j < |due| :: due[j] in stored)
    && (forall j, k | 0 <= j < k < |due| :: due[j] != due[k])
  }

  lemma ListingRemains(v: Vault, project: Project, now: Time, due: seq<Id>)
    requires Listing(due, DueProposals(v, project, now), CreatedAt(v))
    ensures Remaining(due, 0, v.proposals.Keys)
  {
    ListingIsDistinct(due, DueProposals(v, project, now), CreatedAt(v));
    hide Listing, CreatedAt, DueProposal;
  }

  lemma PurgeLoopStep(v: Vault, due: seq<Id>, i: nat)
    requires i < |due| && Remaining(due, i, v.proposals.Keys)
    ensures due[i] in v.proposals
    ensures var w := ApplyOp(v, Purge(due[i], DispositionOf(v.proposals[due[i]])));
            Remaining(due, i + 1, w.proposals.Keys) && PurgeRun(w, due[i + 1..]) == PurgeRun(v, due[i..])
  {
    hide ApplyOp, PurgeRun;
    PurgeOneRow(v, due[i], DispositionOf(v.proposals[due[i]]));
    assert due[i..][0] == due[i] && due[i..][1..] == due[i + 1..];
    PurgeRunStep(v, due[i..]);
  }

  lemma PurgeLoopEnds(v: Vault, due: seq<Id>)
    ensures PurgeRun(v, due[|due|..]) == v
  {
  }

  lemma LastExpiredStep(b: Book, project: Project, due: seq<Id>, now: Time)
    requires due != []
    ensures var step := ExpireNext(b, project, due[0], now);
            var rest := LastExpired(Apply(b, step), project, due[1..], now);
            LastExpired(b, project, due, now) == if rest != 0 then rest else if step.Expire? then b.sequence + 1 else 0
  {
  }

  lemma NothingExpires(b: Book, project: Project, now: Time)
    ensures ExpireRun(b, project, [], now) == b && LastExpired(b, project, [], now) == 0
  {
  }

  lemma NothingListed(v: Vault, project: Project, now: Time)
    ensures ExpiredIn(v, project, [], now) == v
  {
  }

  lemma ExpiredRow(b: Book, project: Project, id: Id, now: Time)
    requires id in b.versions && DueVersion(b.versions[id], project, now)
    ensures ExpireNext(b, project, id, now) == Expire(id, now)
    ensures var s := b.sequence + 1;
            var b1 := b.(sequence := s, versions := b.versions[id := Retire(b.versions[id], Lifecycle.Expired, s, now)]);
            Apply(b, Expire(id, now)) == b1.(audience := Announce(b.audience, project, s, Audience(b1, project, {id})))
  {
  }

  lemma SkippedRow(b: Book, project: Project, id: Id, now: Time)
    requires !(id in b.versions && DueVersion(b.versions[id], project, now))
    ensures ExpireNext(b, project, id, now) == Tick && Apply(b, Tick) == b.(sequence := b.sequence + 1)
  {
  }

  lemma SweepKeepsIds(v: Vault, w: Vault, project: Project, now: Time, later: Time)
    requires Swept(v, w, project, now, later)
    ensures w.proposals.Keys <= v.proposals.Keys && w.provenance.Keys <= v.provenance.Keys
    ensures w.book.versions.Keys == v.book.versions.Keys
  {
    hide PurgeRun, ExpireRun, LastExpired, Listing, DueProposals, DueVersions, ActiveMembers, DueVersion;
    SweepIsExact(v, w, project, now, later);
    var drafts, due :| SweptBy(v, w, project, now, later, drafts, due);
    PurgeRunKeepsIds(v, drafts);
  }

  lemma {:induction false} PurgeRunKeepsIds(v: Vault, due: seq<Id>)
    ensures PurgeRun(v, due).provenance.Keys <= v.provenance.Keys
    decreases |due|
  {
    if due != [] {
      if due[0] in v.proposals {
        var op := Purge(due[0], DispositionOf(v.proposals[due[0]]));
        PurgeRunKeepsIds(ApplyOp(v, op), due[1..]);
      } else {
        PurgeRunKeepsIds(v, due[1..]);
      }
    }
  }

  lemma AnswersMeans(v: Vault, c: Content, source: Provider, key: string, id: Id, keyCheck: Result<()>,
                     checks: Result<()>, now: Time)
    requires VaultInv(v)
    ensures var k := Delivery(c.project, source, key);
            && (keyCheck.Refused? ==> Answers(v, c, source, key, id, keyCheck, checks, now, Denied(keyCheck.code)))
            && (keyCheck.Done? && k in v.tombstones ==>
                  Answers(v, c, source, key, id, keyCheck, checks, now, Denied(DeliverySuppressed)))
            && (keyCheck.Done? && k !in v.tombstones && checks.Refused? ==>
                  Answers(v, c, source, key, id, keyCheck, checks, now, Denied(checks.code)))
            && (keyCheck.Done? && k !in v.tombstones && checks.Done? ==>
                  && (forall p | p in Live(v.proposals, k) ::
                        p in v.proposals &&
                        Answers(v, c, source, key, id, keyCheck, checks, now,
                                if v.proposals[p].content == c then Replayed(p, v.proposals[p].status)
                                else Denied(IdempotencyConflict)))
                  && (Live(v.proposals, k) == {} ==>
                        Answers(v, c, source, key, id, keyCheck, checks, now,
                                if Lapsed(c.retention, now) then Denied(RetentionExpired) else Created(id))))
  {
  }

  lemma LiveIsStored(proposals: map<Id, Proposal>, k: Delivery, p: Id)
    requires p in Live(proposals, k)
    ensures p in proposals
  {
  }

  lemma ProposeStatements(v: Vault, op: Op, checkedAt: Time, admits: bool)
    requires op.Propose? && op.id !in v.proposals && op.id !in v.book.versions && op.activity !in v.provenance
    requires var k := Delivery(op.content.project, op.source, op.deliveryKey);
             k !in v.tombstones && forall p :: p !in Live(v.proposals, k)
    requires ContentCheck(op.content, checkedAt, admits).Done? && !Lapsed(op.content.retention, op.now)
    ensures CanPropose(v, op)
    ensures var s := v.book.sequence + 1;
            var c := op.content;
            ApplyOp(v, op) ==
              v.(book := v.book.(sequence := s),
                 proposals := v.proposals[op.id := Proposal(c, op.source, op.deliveryKey, Proposed, s, None)],
                 provenance := v.provenance[op.activity := Activity(c.project, op.id, AgentProposal, [], s)])
  {
  }

  lemma OwnAdmissionKeepsDrafts(v: Vault, op: Op)
    requires op.Accept? && !op.origin.FromProposal? && CanAccept(v, op)
    ensures AcceptOp(v, op).proposals == v.proposals && AcceptOp(v, op).reviews == v.reviews
  {
  }

  function AskedProject(ask: Ask): Project {
    match ask
    case AskRemember(c) => c.project
    case AskReview(project, _, _) => project
    case AskCorrect(project, _, _) => project
    case AskForget(project, _) => project
  }

  /** The sweep before a preview is the sweep of the project that is previewed. */
  lemma SweepsTheProject(v: Vault, ask: Ask, now: Time, admits: bool, p: Preview)
    requires Previews(v, ask, now, admits, Done(p))
    ensures match p
            case RememberThis(c) => c.project == AskedProject(ask)
            case AcceptThis(_, c, _) => c.project == AskedProject(ask)
            case CorrectThis(_, c) => c.project == AskedProject(ask)
            case RejectThis(project, _, _) => project == AskedProject(ask)
            case ForgetMemory(project, _, _) => project == AskedProject(ask)
            case ForgetDraft(project, _, _) => project == AskedProject(ask)
  {
    hide Previews;
    AskedIsShown(v, ask, now, admits, p);
  }

  lemma DeskHasVault(d: Desk)
    requires DeskInv(d)
    ensures VaultInv(d.vault)
  {
  }

  lemma SweptDesk(d: Desk, swept: Vault)
    requires DeskInv(d) && VaultInv(swept)
    ensures DeskInv(d.(vault := swept))
  {
  }

  lemma ChallengedIs(d: Desk, nonce: Id, p: Preview, clock: Time, expires: Time)
    ensures Challenged(d, nonce, p, clock, expires) ==
              d.(challenges := Kept(d.challenges, clock)[nonce := Challenge(OperationOf(p), ProjectOf(p), p, expires, None)])
  {
  }

  /** Previews show only contents that passed the field checks. */
  lemma PreviewsAreOk(v: Vault, ask: Ask, now: Time, admits: bool, r: Result<Preview>)
    requires VaultInv(v) && Previews(v, ask, now, admits, r) && r.Done?
    ensures PreviewOk(r.value)
  {
    hide ActivitiesDated, CorrectionsInThread, Inv, ForeignKeysHold, EvidenceBacked, IndexMatches, UniqueThreads, AcceptedInThread, UniqueDeliveries, NeverRevived,
      ProperContent, ForgetScope, AcceptedFrom;
  }

  /** The sweep only removes rows, so drawn ids stay unused. */
  lemma SweepKeepsUnused(v: Vault, w: Vault, project: Project, now: Time, later: Time, d: Draw)
    requires Swept(v, w, project, now, later) && Unused(v, d)
    ensures Unused(w, d)
  {
    SweepIsExact(v, w, project, now, later);
    SweepKeepsIds(v, w, project, now, later);
    SweepKeepsRows(v, w, project, now, later);
    hide Swept;
  }

  /** The rows drawn ids are compared with are the same, or fewer. */
  ghost predicate NoNewRows(v: Vault, w: Vault) {
    && w.book.threads == v.book.threads && w.evidence == v.evidence && w.attestations == v.attestations
    && w.consents == v.consents && w.fts == v.fts && w.relations == v.relations && w.reviews.Keys <= v.reviews.Keys
    && (forall p | p in w.provenance :: p in v.provenance && w.provenance[p] == v.provenance[p])
  }

  lemma PurgeAddsNoRows(v: Vault, id: Id, disposition: Disposition)
    requires id in v.proposals
    ensures NoNewRows(v, ApplyOp(v, Purge(id, disposition)))
  {
  }

  lemma {:induction false} PurgeRunKeepsRows(v: Vault, due: seq<Id>)
    ensures NoNewRows(v, PurgeRun(v, due))
    decreases |due|
  {
    hide ApplyOp;
    if due != [] {
      if due[0] in v.proposals {
        PurgeAddsNoRows(v, due[0], DispositionOf(v.proposals[due[0]]));
        PurgeRunKeepsRows(ApplyOp(v, Purge(due[0], DispositionOf(v.proposals[due[0]]))), due[1..]);
      } else {
        PurgeRunKeepsRows(v, due[1..]);
      }
    }
  }

  lemma ExpiredInKeepsRows(v: Vault, project: Project, due: seq<Id>, now: Time)
    ensures NoNewRows(v, ExpiredIn(v, project, due, now))
  {
    hide ExpireRun, LastExpired, ResolveConflictsOp;
    ExpireRunKeepsThreads(v.book, project, due, now);
    ResolveAddsNoRows(v.(book := ExpireRun(v.book, project, due, now)), project, LastExpired(v.book, project, due, now));
  }

  lemma ResolveAddsNoRows(v: Vault, project: Project, sequence: nat)
    ensures NoNewRows(v, ResolveConflictsOp(v, project, sequence))
  {
  }

  lemma SweepKeepsRows(v: Vault, w: Vault, project: Project, now: Time, later: Time)
    requires Swept(v, w, project, now, later)
    ensures NoNewRows(v, w)
  {
    hide PurgeRun, ExpiredIn, Listing;
    var drafts, due :| SweptBy(v, w, project, now, later, drafts, due);
    PurgeRunKeepsRows(v, drafts);
    ExpiredInKeepsRows(PurgeRun(v, drafts), project, due, later);
  }

  lemma {:induction false} ExpireRunKeepsThreads(b: Book, project: Project, due: seq<Id>, now: Time)
    ensures ExpireRun(b, project, due, now).threads == b.threads
    decreases |due|
  {
    if due != [] {
      ExpireRunStep(b, project, due, now);
      ExpireRunKeepsThreads(Apply(b, ExpireNext(b, project, due[0], now)), project, due[1..], now);
    }
  }

  class Kernel {
    var vault: Vault
    var challenges: map<Id, Challenge>
    var results: map<Id, Saved>

    method NextSequence() returns (sequence: nat)
      modifies `vault
      ensures sequence == old(vault.book.sequence) + 1
      ensures vault == old(vault).(book := old(vault).book.(sequence := sequence))
    {
      sequence := vault.book.sequence + 1;
      vault := vault.(book := vault.book.(sequence := sequence));
    }

    /** `_accept_preview`: the final write boundary of an admission. A refusal leaves the
        transaction to be rolled back by the caller. */
    method AcceptPreview(c: Content, origin: Origin, d: Draw, now: Time, admits: bool) returns (r: Result<Id>)
      requires VaultInv(vault) && ProperContent(c) && Unused(vault, d)
      requires origin.FromProposal? ==>
                 && origin.proposal in vault.proposals && vault.proposals[origin.proposal].status == Proposed
                 && vault.proposals[origin.proposal].content == c
      modifies `vault
      ensures var op := Accept(c, origin, d, now);
              match Admission(old(vault), c, origin, Moment(d, "", now, admits))
              case Refused(code) => r == Refused(code)
              case Done(_) =>
                && r == Done(AdmitOf(old(vault), op).row.thread) && CanAccept(old(vault), op)
                && vault == AcceptOp(old(vault), op).(proposals := old(vault).proposals, reviews := old(vault).reviews)
                && Stores(old(vault), vault, c, origin, d, now, r.value)
    {
      hide ActivitiesDated, CorrectionsInThread, Inv, ForeignKeysHold, EvidenceBacked, IndexMatches, ProposalsOk, Unused, ProperContent, UniqueThreads, Apply,
        Current, AlreadyCurrent, IsCurrent, AcceptOp, Written, Stores;
      if !admits { return Refused(PolicyDenied); }
      ghost var v0 := vault;
      ghost var op := Accept(c, origin, d, now);
      var found := FindThread(vault.book, c.project, c.key);
      if Lapsed(c.retention, now) { return Refused(RetentionExpired); }
      var sequence := NextSequence();
      var threadId := if found.Some? then found.value else d.thread;
      if found == None {
        vault := vault.(book := vault.book.(threads := vault.book.threads[threadId := Thread(c.project, c.subject, c.key)]));
      }
      CurrentIsChecked(v0, vault.book, c, origin, d, threadId);
      var current := IsCurrent(vault.book, threadId, c, origin);
      if origin.Corrects? && !current { return Refused(InvalidTransition); }
      if !origin.Corrects? && current { return Refused(DuplicateClaim); }
      assert vault.book == Prepared(v0.book, AdmitOf(v0, op));
      WriteAdmission(c, origin, d, now, threadId, sequence);
      WrittenIsAccepted(v0, op);
      StoresWithoutDrafts(v0, op);
      r := Done(threadId);
    }

    /** The rows of one admission, in the order they are inserted. */
    method WriteAdmission(c: Content, origin: Origin, d: Draw, now: Time, threadId: Id, sequence: nat)
      requires origin.Corrects? ==> origin.target in vault.book.versions
      modifies `vault
      ensures vault == Written(old(vault), Accept(c, origin, d, now), threadId, sequence)
    {
      hide Announce, Audience, Shown, Attested;
      var evidence := None;
      if c.evidence != "" {
        evidence := Some(d.evidence);
        vault := vault.(evidence := vault.evidence[d.evidence := Evidence(c.project, c.evidence, sequence)]);
      }
      var row := RowOf(c, threadId, evidence).(ingest := sequence);
      vault := vault.(book := vault.book.(versions := vault.book.versions[d.assertion := row]));
      var shown := Shown(d.assertion, c.disclosure);
      vault := vault.(book := vault.book.(disclosures := vault.book.disclosures + shown));
      if evidence.Some? {
        vault := vault.(evidenceRefs := vault.evidenceRefs + {(evidence.value, d.assertion)});
      }
      vault := vault.(fts := vault.fts[d.indexed := d.assertion]);
      vault := vault.(attestations := vault.attestations + Attested(d));
      vault := vault.(consents := vault.consents[d.consent := d.assertion]);
      var kind := if origin.Corrects? then UserCorrection else if origin.FromProposal? then ProposalAcceptance else UserRemember;
      var inputs := if origin.FromProposal? then [Draft(origin.proposal)] else if origin.Corrects? then [Corrected(origin.target)] else [];
      vault := vault.(provenance := vault.provenance[d.activity := Activity(c.project, d.assertion, kind, inputs, sequence)]);
      var changed := {d.assertion};
      if origin.Corrects? {
        var prior := vault.book.versions[origin.target];
        vault := vault.(book := vault.book.(versions :=
                   vault.book.versions[origin.target := Retire(prior, Superseded, sequence, now)]));
        vault := vault.(relations := vault.relations[d.relation := Relation(d.assertion, origin.target, sequence)]);
        changed := changed + {origin.target};
      }
      assert changed == {d.assertion} + if origin.Corrects? then {origin.target} else {};
      var rows := RecordAudienceChange(vault.book, c.project, sequence, changed);
      vault := vault.(book := vault.book.(audience := rows));
    }

    /** `_forget_apply`: refused as stale exactly when the scope is no longer the approved one;
        otherwise exactly the approved scope goes. */
    method ForgetApply(project: Project, threadId: Id, approved: Scope, receipt: Id) returns (r: Result<Answer>)
      requires VaultInv(vault)
      modifies `vault
      ensures r.Done? <==> ForgetScope(old(vault), project, threadId) == Some(approved)
      ensures r.Refused? ==> r == Refused(StalePreview) && vault == old(vault)
      ensures r.Done? ==>
                && CanForget(old(vault), threadId) && vault == ForgetThreadOp(old(vault), threadId, receipt)
                && threadId in old(vault).book.threads && Spares(old(vault), vault, threadId, receipt)
                && r.value == AnswerOf(old(vault), ForgetThread(threadId, receipt))
    {
      hide *;
      ghost var v0 := vault;
      if ForgetScope(vault, project, threadId) != Some(approved) { return Refused(StalePreview); }
      ForgetIsReady(vault, project, threadId);
      var evidence := ReferencedBy(vault, VersionsOf(vault.book, threadId));
      var sequence := vault.book.sequence + 1;
      var staged, feedbackRows, pruned := StageForget(vault, project, threadId);
      var deleted := DeleteThread(staged, threadId);
      match deleted
      case None =>
        assert false;
        return Refused(IntegrityError);
      case Some(rest) =>
        StillBacked(v0, threadId);
        var erased := DeleteEvidenceOf(rest, evidence);
        vault := erased.(receipts := erased.receipts[receipt := Receipt(project, threadId, sequence)]);
        FinishedIs(v0, threadId, rest, receipt);
        StagesMeet(v0, threadId, receipt);
        AnswerOfForget(v0, threadId, receipt);
        ForgetSpares(v0, threadId, receipt);
        r := Done(Deleted(receipt, threadId, sequence, feedbackRows, pruned));
    }

    /** `_accept_proposal_preview`. */
    method AcceptProposal(id: Id, c: Content, draft: ProposalScope, m: Moment) returns (r: Result<Answer>)
      requires VaultInv(vault) && Unused(vault, m.draw) && PreviewOk(AcceptThis(id, c, draft))
      modifies `vault
      ensures match Decide(old(vault), AcceptThis(id, c, draft), m)
              case Refused(code) => r == Refused(code)
              case Done(op) =>
                op.Accept? && CanAccept(old(vault), op) && vault == AcceptOp(old(vault), op) && r == Done(AnswerOf(old(vault), op))
    {
      hide *;
      ghost var v0 := vault;
      ghost var op := Accept(c, FromProposal(id), m.draw, m.now);
      AcceptDecision(v0, id, c, draft, m);
      AdmissionIs(v0, c, FromProposal(id), m);
      AnswerOfReview(v0, id, c, m);
      if Lapsed(c.retention, m.now) { return Refused(RetentionExpired); }
      if ScopeOfProposal(vault, c.project, id) != Some(draft) { return Refused(StalePreview); }
      if vault.proposals[id].status != Proposed { return Refused(InvalidTransition); }
      if !IsProvider(vault.proposals[id].source) { return Refused(InvalidRequest); }
      var sequence := vault.book.sequence + 1;
      var admitted := AcceptPreview(c, FromProposal(id), m.draw, m.now, m.admits);
      match admitted
      case Refused(code) => return Refused(code);
      case Done(memory) =>
        AcceptWritesReview(v0, op);
        vault := vault.(proposals := vault.proposals[id :=
                   vault.proposals[id].(status := Accepted, accepted := Some(m.draw.assertion))]);
        vault := vault.(reviews := vault.reviews[m.draw.review := id]);
        r := Done(Admitted(memory, m.draw.assertion, sequence, None, Some(id)));
    }

    /** `_reject_proposal_preview`. */
    method RejectProposal(project: Project, id: Id, draft: ProposalScope) returns (r: Result<Answer>)
      requires VaultInv(vault)
      modifies `vault
      ensures match Decide(old(vault), RejectThis(project, id, draft), Moment(NoDraw(), "", 0, true))
              case Refused(code) => r == Refused(code) && vault == old(vault)
              case Done(op) =>
                op == Purge(id, WasRejected) && vault == ApplyOp(old(vault), op) && r == Done(AnswerOf(old(vault), op))
    {
      hide *;
      RejectDecision(vault, project, id, draft, Moment(NoDraw(), "", 0, true));
      if ScopeOfProposal(vault, project, id) != Some(draft) { return Refused(StalePreview); }
      var row := vault.proposals[id];
      if row.status != Proposed { return Refused(StalePreview); }
      PurgeStatements(vault, id, WasRejected);
      var sequence := NextSequence();
      vault := PurgeProposals(vault, map[id := row], sequence, WasRejected);
      r := Done(Rejected(id, sequence));
    }

    /** `_forget_proposal_apply`. */
    method ForgetProposalApply(project: Project, id: Id, draft: ProposalScope, receipt: Id) returns (r: Result<Answer>)
      requires VaultInv(vault)
      modifies `vault
      ensures match Decide(old(vault), ForgetDraft(project, id, draft), Moment(NoDraw(), receipt, 0, true))
              case Refused(code) => r == Refused(code) && vault == old(vault)
              case Done(op) =>
                op == ForgetProposal(id, receipt) && vault == ApplyOp(old(vault), op) && r == Done(AnswerOf(old(vault), op))
    {
      hide *;
      ForgetDraftDecision(vault, project, id, draft, Moment(NoDraw(), receipt, 0, true));
      if ScopeOfProposal(vault, project, id) != Some(draft) { return Refused(StalePreview); }
      var row := vault.proposals[id];
      if row.status == Accepted || draft.accepted != map[] { return Refused(StalePreview); }
      ForgetDraftStatements(vault, project, id, draft, receipt);
      var sequence := NextSequence();
      vault := PurgeProposals(vault, map[id := row], sequence, WasForgotten);
      vault := vault.(receipts := vault.receipts[receipt := Receipt(project, id, sequence)]);
      r := Done(DraftDeleted(receipt, id, sequence));
    }

    /** One row of `_purge_due_proposals`. */
    method PurgeDueProposal(id: Id)
      requires id in vault.proposals
      modifies `vault
      ensures vault == ApplyOp(old(vault), Purge(id, DispositionOf(old(vault).proposals[id])))
    {
      hide *;
      var row := vault.proposals[id];
      var disposition := DispositionOf(row);
      PurgeStatements(vault, id, disposition);
      var sequence := NextSequence();
      vault := PurgeProposals(vault, map[id := row], sequence, disposition);
    }

    /** `_purge_due_proposals`: rechecked under the lock, one sequence number each. */
    method PurgeDueProposals(project: Project, now: Time) returns (ghost drafts: seq<Id>)
      modifies `vault
      ensures Listing(drafts, DueProposals(old(vault), project, now), CreatedAt(old(vault)))
      ensures vault == PurgeRun(old(vault), drafts)
    {
      var due := OrderBySequence(DueProposals(vault, project, now), CreatedAt(vault));
      drafts := due;
      ListingRemains(vault, project, now, due);
      hide *;
      var i := 0;
      assert due[0..] == due;
      while i < |due|
        invariant i <= |due| && Remaining(due, i, vault.proposals.Keys)
        invariant PurgeRun(vault, due[i..]) == PurgeRun(old(vault), due)
      {
        PurgeLoopStep(vault, due, i);
        PurgeDueProposal(due[i]);
        i := i + 1;
      }
      PurgeLoopEnds(vault, due);
    }

    /** The expiry transaction over rows read before the lock: what is no longer due is skipped,
        the rest expires in the order of the list. */
    method ExpireVersions(project: Project, due: seq<Id>, now: Time) returns (expired: nat)
      modifies `vault
      ensures vault == ExpiredIn(old(vault), project, due, now)
    {
      hide DueVersion, ExpireRun, LastExpired, ResolveConflictsOp;
      expired := 0;
      var latest := 0;
      var i := 0;
      assert due[0..] == due;
      while i < |due|
        invariant i <= |due|
        invariant vault == old(vault).(book := vault.book)
        invariant ExpireRun(vault.book, project, due[i..], now) == ExpireRun(old(vault).book, project, due, now)
        invariant var rest := LastExpired(vault.book, project, due[i..], now);
                  (if rest != 0 then rest else latest) == LastExpired(old(vault).book, project, due, now)
      {
        var id := due[i];
        ghost var b := vault.book;
        ExpireRunStep(b, project, due[i..], now);
        LastExpiredStep(b, project, due[i..], now);
        assert due[i..][0] == id && due[i..][1..] == due[i + 1..];
        var sequence := NextSequence();
        if id in vault.book.versions && DueVersion(vault.book.versions[id], project, now) {
          var row := vault.book.versions[id];
          vault := vault.(book := vault.book.(versions := vault.book.versions[id := Retire(row, Lifecycle.Expired, sequence, now)]));
          expired := expired + 1;
          latest := sequence;
          var rows := RecordAudienceChange(vault.book, project, sequence, {id});
          vault := vault.(book := vault.book.(audience := rows));
          ExpiredRow(b, project, id, now);
        } else {
          SkippedRow(b, project, id, now);
        }
        i := i + 1;
      }
      assert due[i..] == [];
      NothingExpires(vault.book, project, now);
      if latest != 0 {
        vault := ResolveConflictsOp(vault, project, latest);
      }
    }

    /** `_expire_due`. */
    method ExpireDue(project: Project, now: Time, later: Time)
      modifies `vault
      ensures Swept(old(vault), vault, project, now, later)
    {
      hide PurgeRun, ExpiredIn, Listing, DueVersion, DueProposal, DueVersions, DueProposals, CreatedAt, IngestOf;
      ghost var v0 := vault;
      ghost var drafts := PurgeDueProposals(project, now);
      var due := OrderBySequence(DueVersions(vault, project, later), IngestOf(vault.book));
      if due == [] {
        NothingListed(vault, project, later);
        assert SweptBy(v0, vault, project, now, later, drafts, due);
        return;
      }
      var expired := ExpireVersions(project, due, later);
      assert SweptBy(v0, vault, project, now, later, drafts, due);
    }

    /** `propose`: sweep, check the key, the delivery and the fields, then decide under the lock. */
    method Propose(c: Content, source: Provider, key: string, id: Id, activity: Id, sweptAt: Time, later: Time,
                   keyAdmits: bool, checkedAt: Time, admits: bool, now: Time)
      returns (reply: Reply, ghost swept: Vault)
      requires VaultInv(vault)
      requires id !in vault.proposals && id !in vault.book.versions && activity !in vault.provenance
      modifies `vault
      ensures Swept(old(vault), swept, c.project, sweptAt, later)
      ensures Answers(swept, c, source, key, id, KeyCheck(key, keyAdmits), ContentCheck(c, checkedAt, admits), now, reply)
      ensures !reply.Created? ==> vault == swept
      ensures reply.Created? ==>
                var op := Op.Propose(id, c, source, key, activity, now);
                CanPropose(swept, op) && vault == ApplyOp(swept, op) && Drafts(swept, vault, id, c, source, key, activity)
    {
      hide *;
      ghost var v0 := vault;
      ExpireDue(c.project, sweptAt, later);
      swept := vault;
      SweepKeepsIds(v0, vault, c.project, sweptAt, later);
      SweepKeepsVault(v0, vault, c.project, sweptAt, later);
      var keyCheck := KeyCheck(key, keyAdmits);
      AnswersMeans(vault, c, source, key, id, keyCheck, ContentCheck(c, checkedAt, admits), now);
      if keyCheck.Refused? { return Denied(keyCheck.code), swept; }
      var k := Delivery(c.project, source, key);
      if k in vault.tombstones { return Denied(DeliverySuppressed), swept; }
      var checks := ContentCheck(c, checkedAt, admits);
      if checks.Refused? { return Denied(checks.code), swept; }
      if k in vault.tombstones { return Denied(DeliverySuppressed), swept; }
      if existing :| existing in Live(vault.proposals, k) {
        LiveIsStored(vault.proposals, k, existing);
        if vault.proposals[existing].content != c { return Denied(IdempotencyConflict), swept; }
        return Replayed(existing, vault.proposals[existing].status), swept;
      }
      if Lapsed(c.retention, now) { return Denied(RetentionExpired), swept; }
      ghost var op := Op.Propose(id, c, source, key, activity, now);
      ProposeStatements(vault, op, checkedAt, admits);
      ProposalIsDrafted(vault, op);
      var sequence := NextSequence();
      vault := vault.(proposals := vault.proposals[id := Proposal(c, source, key, Proposed, sequence, None)]);
      vault := vault.(provenance := vault.provenance[activity := Activity(c.project, id, AgentProposal, [], sequence)]);
      reply := Created(id);
    }

    /** The branch of `admin_apply` on the operation. */
    method Perform(p: Preview, m: Moment) returns (r: Result<Answer>)
      requires VaultInv(vault) && PreviewOk(p) && Unused(vault, m.draw)
      modifies `vault
      ensures match Decide(old(vault), p, m)
              case Refused(code) => r == Refused(code)
              case Done(op) => Settles(op) && r == Done(AnswerOf(old(vault), op)) && vault == ApplyOp(old(vault), op)
    {
      hide VaultInv, Inv, Unused, AcceptOp, AcceptCheck, ProperContent, AcceptedFrom, ForgetScope, ForgetThreadOp, CanForget,
        CanForgetProposal, CanAccept, ScopeOfProposal, Lapsed, PurgeOne;
      match p {
        case RememberThis(c) => r := Admit(c, Remembered, m);
        case CorrectThis(target, c) => r := Admit(c, Corrects(target), m);
        case AcceptThis(id, c, draft) => r := AcceptProposal(id, c, draft, m);
        case RejectThis(project, id, draft) => r := RejectProposal(project, id, draft);
        case ForgetMemory(project, threadId, scope) => r := ForgetApply(project, threadId, scope, m.receipt);
        case ForgetDraft(project, id, draft) => r := ForgetProposalApply(project, id, draft, m.receipt);
      }
    }

    /** The two calls of `_accept_preview` for the owner's own content. */
    method Admit(c: Content, origin: Origin, m: Moment) returns (r: Result<Answer>)
      requires VaultInv(vault) && Unused(vault, m.draw) && ProperContent(c) && !origin.FromProposal?
      modifies `vault
      ensures match Admission(old(vault), c, origin, m)
              case Refused(code) => r == Refused(code)
              case Done(op) =>
                op.Accept? && CanAccept(old(vault), op) && vault == AcceptOp(old(vault), op) && r == Done(AnswerOf(old(vault), op))
    {
      hide VaultInv, Inv, Unused, AcceptOp, AdmitOf, AcceptCheck, ProperContent;
      ghost var v0 := vault;
      var sequence := vault.book.sequence + 1;
      var admitted := AcceptPreview(c, origin, m.draw, m.now, m.admits);
      match admitted
      case Refused(code) => return Refused(code);
      case Done(memory) =>
        OwnAdmissionKeepsDrafts(v0, Accept(c, origin, m.draw, m.now));
        r := Done(Admitted(memory, m.draw.assertion, sequence, if origin.Corrects? then Some(origin.target) else None, None));
    }

    ghost predicate Valid()
      reads this
    {
      DeskInv(Approvals.Desk(vault, challenges, results))
    }

    ghost function Desk(): Desk
      reads this
    {
      Approvals.Desk(vault, challenges, results)
    }

    /** `admin_preview`: sweep, show, and store one challenge for exactly what was shown. */
    method AdminPreview(ask: Ask, nonce: Id, sweptAt: Time, later: Time, now: Time, admits: bool, clock: Time, ttl: nat)
      returns (r: Result<Preview>, ghost swept: Vault)
      requires Valid() && nonce !in challenges && nonce !in results
      modifies this
      ensures Valid()
      ensures Swept(old(vault), swept, AskedProject(ask), sweptAt, later)
      ensures Previews(swept, ask, now, admits, r)
      ensures r.Refused? ==> Desk() == old(Desk()).(vault := swept)
      ensures r.Done? ==>
                Desk() == Challenged(old(Desk()).(vault := swept), nonce, r.value, clock, clock + ttl)
    {
      hide DeskInv, VaultInv, Swept, ApplyCheck, Settle, AnswerOf, Settles, Unused, PreviewOk, Previews, Challenged, Kept;
      ghost var d0 := Desk();
      DeskHasVault(d0);
      ExpireDue(AskedProject(ask), sweptAt, later);
      swept := vault;
      SweepKeepsVault(d0.vault, vault, AskedProject(ask), sweptAt, later);
      SweptDesk(d0, swept);
      r := ShowPreview(ask, now, admits);
      if r.Refused? { return; }
      PreviewsAreOk(vault, ask, now, admits, r);
      ChallengedKeepsDesk(d0.(vault := swept), nonce, r.value, clock, clock + ttl);
      ChallengedIs(d0.(vault := swept), nonce, r.value, clock, clock + ttl);
      challenges := Kept(challenges, clock);
      challenges := challenges[nonce := Challenge(OperationOf(r.value), ProjectOf(r.value), r.value, clock + ttl, None)];
    }

    /** The preview of each operation. */
    method ShowPreview(ask: Ask, now: Time, admits: bool) returns (r: Result<Preview>)
      ensures Previews(vault, ask, now, admits, r)
    {
      hide ContentCheck, ReviewPreview, CorrectPreview, ForgetThreadPreview, ScopeOfProposal, AcceptedFrom;
      match ask {
        case AskRemember(c) =>
          var checks := ContentCheck(c, now, admits);
          r := if checks.Refused? then Refused(checks.code) else Done(RememberThis(c));
        case AskReview(project, id, accept) =>
          r := ReviewPreview(vault, project, id, accept);
          if accept && r.Done? && !admits { r := Refused(PolicyDenied); }
        case AskCorrect(project, target, edit) =>
          r := CorrectPreview(vault, project, target, edit);
          if r.Done? {
            var checks := ContentCheck(r.value.content, now, admits);
            if checks.Refused? { r := Refused(checks.code); }
          }
        case AskForget(project, target) =>
          var named := ThreadNamed(vault.book, project, target);
          if named.Some? { return ForgetThreadPreview(vault, project, named.value); }
          var accepted := AcceptedFrom(vault, project, target);
          if a :| a in accepted { return ForgetThreadPreview(vault, project, accepted[a].thread); }
          assert accepted == map[];
          var draft := ScopeOfProposal(vault, project, target);
          if draft == None { return Refused(NotFound); }
          if draft.value.proposal.status == Accepted { return Refused(IntegrityError); }
          r := Done(ForgetDraft(project, target, draft.value));
      }
    }

    /** `admin_apply`: sweep, then one transaction in which the challenge is checked and spent, the action
        performed and its receipt written. Any refusal, also that of the audit check before the
        commit (`reconcilable`), rolls all of it back. */
    method AdminApply(request: Request, capability: Id, sweptAt: Time, later: Time, clock: Time, m: Moment, reconcilable: bool)
      returns (r: Result<Answer>, ghost swept: Vault)
      requires Valid() && Unused(vault, m.draw)
      modifies this
      ensures Valid()
      ensures request.claimed != request.preview ==> r == Refused(ApprovalMismatch) && Desk() == old(Desk())
      ensures request.claimed == request.preview ==>
                && (if request.nonce in old(challenges)
                    then Swept(old(vault), swept, old(challenges)[request.nonce].project, sweptAt, later)
                    else swept == old(vault))
                && var d := old(Desk()).(vault := swept);
                   match ApplyCheck(d, request, clock, m)
                   case Refused(code) => r == Refused(code) && Desk() == d
                   case Done(op) =>
                     if !reconcilable then r == Refused(AuditRecoveryRefused) && Desk() == d
                     else Settles(op) && r == Done(AnswerOf(swept, op)) && Desk() == Settle(d, request, capability, m, op)
      ensures r.Done? ==> Fulfils(swept, vault, request.preview, m, r.value)
    {
      hide Fulfils, DeskInv, VaultInv, Swept, ApplyCheck, Settle, AnswerOf, Settles, Unused, PreviewOk, Previews, Challenged, Kept;
      ghost var d0 := Desk();
      DeskHasVault(d0);
      swept := vault;
      if request.claimed != request.preview { return Refused(ApprovalMismatch), swept; }
      if request.nonce in challenges {
        var project := challenges[request.nonce].project;
        ExpireDue(project, sweptAt, later);
        swept := vault;
        SweepKeepsVault(d0.vault, vault, project, sweptAt, later);
        SweepKeepsUnused(d0.vault, vault, project, sweptAt, later, m.draw);
      }
      SweptDesk(d0, swept);
      r := ApplyLocked(request, capability, clock, m, reconcilable);
      SettleKeepsDesk(d0.(vault := swept), request, capability, clock, m);
      AppliedFulfils(d0.(vault := swept), request, capability, clock, m);
    }

    /** The transaction of `admin_apply`, under the writer lock. */
    method ApplyLocked(request: Request, capability: Id, clock: Time, m: Moment, reconcilable: bool) returns (r: Result<Answer>)
      requires Valid() && Unused(vault, m.draw)
      modifies this
      ensures match ApplyCheck(old(Desk()), request, clock, m)
              case Refused(code) => r == Refused(code) && Desk() == old(Desk())
              case Done(op) =>
                && Settles(op) && request.nonce in old(challenges)
                && if !reconcilable then r == Refused(AuditRecoveryRefused) && Desk() == old(Desk())
                   else r == Done(AnswerOf(old(vault), op)) && Desk() == Settle(old(Desk()), request, capability, m, op)
    {
      hide VaultInv, Unused, PreviewOk, Decide, AnswerOf, ApplyOp, Settles;
      var savedVault, savedChallenges, savedResults := vault, challenges, results;
      if request.nonce !in challenges { return Refused(ApprovalInvalid); }
      var challenge := challenges[request.nonce];
      if challenge.used.Some? { return Refused(ApprovalReplay); }
      if challenge.expires < clock { return Refused(ApprovalExpired); }
      if challenge.digest != request.preview { return Refused(ApprovalMismatch); }
      if OperationOf(request.preview) != challenge.operation || ProjectOf(request.preview) != challenge.project {
        return Refused(ApprovalMismatch);
      }
      if !request.granted { return Refused(ApprovalInvalid); }
      challenges := challenges[request.nonce := challenge.(used := Some(m.now))];
      r := Perform(request.preview, m);
      if r.Refused? {
        vault, challenges := savedVault, savedChallenges;
        return;
      }
      results := results[request.nonce := Saved(capability, challenge.project, challenge.operation, challenge.digest, r.value)];
      if !reconcilable {
        vault, challenges, results := savedVault, savedChallenges, savedResults;
        r := Refused(AuditRecoveryRefused);
      }
    }
  }
}
