/** What an approved action does, preview by preview. */
module Outcomes {
  import opened Basics
  import opened Ledger
  import opened Vault
  import opened Deliveries
  import opened Approvals
  import opened Admissions
  import opened Survivors

  /** The draft is marked as accepted into `a`, and nothing else about drafts changes but its review. */
  ghost predicate MarksAccepted(v: Vault, w: Vault, id: Id, a: Id, review: Id) {
    && id in v.proposals && w.proposals.Keys == v.proposals.Keys
    && w.proposals[id].status == Accepted && w.proposals[id].accepted == Some(a)
    && w.proposals[id] == v.proposals[id].(status := Accepted, accepted := Some(a))
    && (forall p | p in v.proposals && p != id :: w.proposals[p] == v.proposals[p])
    && w.reviews == v.reviews[review := id]
  }

  /** The draft goes with what is recorded about it and its reviews, and its delivery is buried. */
  ghost predicate BuriesDraft(v: Vault, w: Vault, project: Project, id: Id, disposition: Disposition) {
    && id in v.proposals && v.proposals[id].content.project == project
    && w.proposals == v.proposals - {id}
    && w.reviews == v.reviews - (set r | r in v.reviews && v.reviews[r] == id)
    && w.provenance == v.provenance - (set a | a in v.provenance && v.provenance[a].project == project && v.provenance[a].target == id)
    && w.tombstones == v.tombstones[Delivery(project, v.proposals[id].source, v.proposals[id].deliveryKey) :=
                                      Tombstone(id, disposition, v.book.sequence + 1)]
    && w == v.(book := v.book.(sequence := v.book.sequence + 1), proposals := w.proposals, reviews := w.reviews,
               provenance := w.provenance, tombstones := w.tombstones, receipts := w.receipts)
  }

  /** `answer` and the vault afterwards are what the approved preview says. */
  ghost predicate Fulfils(v: Vault, w: Vault, p: Preview, m: Moment, answer: Answer) {
    var recorded := v.book.sequence + 1;
    match p
    case RememberThis(c) =>
      && answer.Admitted? && answer == Admitted(answer.memory, m.draw.assertion, recorded, None, None)
      && Stores(v, w, c, Remembered, m.draw, m.now, answer.memory) && w.proposals == v.proposals && w.reviews == v.reviews
    case CorrectThis(target, c) =>
      && answer.Admitted? && answer == Admitted(answer.memory, m.draw.assertion, recorded, Some(target), None)
      && Stores(v, w, c, Corrects(target), m.draw, m.now, answer.memory) && w.proposals == v.proposals && w.reviews == v.reviews
    case AcceptThis(id, c, _) =>
      && answer.Admitted? && answer == Admitted(answer.memory, m.draw.assertion, recorded, None, Some(id))
      && Stores(v, w, c, FromProposal(id), m.draw, m.now, answer.memory)
      && MarksAccepted(v, w, id, m.draw.assertion, m.draw.review)
    case RejectThis(project, id, _) =>
      answer == Rejected(id, recorded) && BuriesDraft(v, w, project, id, WasRejected) && w.receipts == v.receipts
    case ForgetMemory(project, threadId, _) =>
      && threadId in v.book.threads && v.book.threads[threadId].project == project
      && answer == Deleted(m.receipt, threadId, recorded,
                           |set r | r in v.feedback && OfMemory(v, threadId, v.feedback[r].assertion)|,
                           |set r | r in v.recalls && r in w.recalls && w.recalls[r] != v.recalls[r]|)
      && Spares(v, w, threadId, m.receipt)
    case ForgetDraft(project, id, _) =>
      && answer == DraftDeleted(m.receipt, id, recorded) && BuriesDraft(v, w, project, id, WasForgotten)
      && w.receipts == v.receipts[m.receipt := Receipt(project, id, recorded)]
  }

  /** A new draft: what was proposed, by whom and under which key, still to be decided; its delivery is live and
      nothing else changes. */
  ghost predicate Drafts(v: Vault, w: Vault, id: Id, c: Content, source: Provider, key: string, activity: Id) {
    var recorded := v.book.sequence + 1;
    && id !in v.proposals && id in w.proposals
    && w.proposals[id].content == c && w.proposals[id].source == source && w.proposals[id].deliveryKey == key
    && w.proposals[id].status == Proposed && w.proposals[id].accepted == None && w.proposals[id].created == recorded
    && w.proposals == v.proposals[id := w.proposals[id]]
    && activity in w.provenance && w.provenance[activity].target == id && w.provenance[activity].kind == AgentProposal
    && w.provenance[activity].project == c.project && w.provenance[activity].created == recorded
    && w.provenance == v.provenance[activity := w.provenance[activity]]
    && w == v.(book := v.book.(sequence := recorded), proposals := w.proposals, provenance := w.provenance)
    && Fated(w, Delivery(c.project, source, key), LiveAs(id))
  }

  /** What `propose` adds to the database. */
  lemma ProposalIsDrafted(v: Vault, op: Op)
    requires op.Propose? && CanPropose(v, op)
    ensures Drafts(v, ApplyOp(v, op), op.id, op.content, op.source, op.deliveryKey, op.activity)
  {
    hide ProperContent, Lapsed, Suppressed;
    var k := Delivery(op.content.project, op.source, op.deliveryKey);
    var w := ApplyOp(v, op);
    assert Live(w.proposals, k) == {op.id} by {
      assert DeliveryOf(w.proposals[op.id]) == k;
      assert forall p | p in v.proposals :: DeliveryOf(v.proposals[p]) == k ==> p in Live(v.proposals, k);
    }
    NotSuppressed(v, op);
  }

  lemma NotSuppressed(v: Vault, op: Op)
    requires op.Propose? && CanPropose(v, op)
    ensures Delivery(op.content.project, op.source, op.deliveryKey) !in v.tombstones
  {
    hide ProperContent, Lapsed, Live;
  }

  // ---------------------------------------------------------------- admissions

  lemma DecidedAdmission(v: Vault, c: Content, origin: Origin, m: Moment)
    requires Admission(v, c, origin, m).Done?
    ensures Admission(v, c, origin, m).value == Accept(c, origin, m.draw, m.now)
  {
    hide AcceptCheck;
  }

  lemma AppliedAdmission(v: Vault, op: Op)
    requires op.Accept? && CanDo(v, op)
    ensures CanAccept(v, op) && ApplyOp(v, op) == AcceptOp(v, op)
  {
    hide CanAccept, AcceptOp;
  }

  lemma AdmissionAnswer(v: Vault, op: Op)
    requires op.Accept?
    ensures AdmitOf(v, op).Admit?
    ensures AnswerOf(v, op) == Admitted(AdmitOf(v, op).row.thread, op.draw.assertion, v.book.sequence + 1,
                                        if op.origin.Corrects? then Some(op.origin.target) else None,
                                        if op.origin.FromProposal? then Some(op.origin.proposal) else None)
  {
    hide AdmitOf;
    AdmitIsStep(v, op);
  }

  lemma AdmissionDrafts(v: Vault, op: Op)
    requires op.Accept? && CanAccept(v, op)
    ensures !op.origin.FromProposal? ==> AcceptOp(v, op).proposals == v.proposals && AcceptOp(v, op).reviews == v.reviews
    ensures op.origin.FromProposal? ==> MarksAccepted(v, AcceptOp(v, op), op.origin.proposal, op.draw.assertion, op.draw.review)
  {
    hide AdmitOf, Apply, AcceptCheck, Unused, ProperContent, Attested, ActivityOf;
  }

  /** Everything about a decided admission, in one place. */
  lemma AdmissionFulfils(v: Vault, c: Content, origin: Origin, m: Moment)
    requires VaultInv(v) && Admission(v, c, origin, m).Done? && CanDo(v, Accept(c, origin, m.draw, m.now))
    ensures var op := Accept(c, origin, m.draw, m.now);
            && Settles(op) && AnswerOf(v, op).Admitted?
            && AnswerOf(v, op) == Admitted(AnswerOf(v, op).memory, m.draw.assertion, v.book.sequence + 1,
                                           if origin.Corrects? then Some(origin.target) else None,
                                           if origin.FromProposal? then Some(origin.proposal) else None)
            && Stores(v, ApplyOp(v, op), c, origin, m.draw, m.now, AnswerOf(v, op).memory)
            && (!origin.FromProposal? ==> ApplyOp(v, op).proposals == v.proposals && ApplyOp(v, op).reviews == v.reviews)
            && (origin.FromProposal? ==> MarksAccepted(v, ApplyOp(v, op), origin.proposal, m.draw.assertion, m.draw.review))
  {
    var op := Accept(c, origin, m.draw, m.now);
    assert Settles(op);
    hide *;
    AppliedAdmission(v, op);
    AdmissionAnswer(v, op);
    AdmissionDrafts(v, op);
    AdmissionStores(v, op);
  }

  // ---------------------------------------------------------------- drafts and memories

  lemma PurgedTables(v: Vault, id: Id, sequence: nat, disposition: Disposition)
    requires id in v.proposals && DeliveryOf(v.proposals[id]) !in v.tombstones
    ensures var w := PurgeOne(v, id, sequence, disposition);
            && w.proposals == v.proposals - {id}
            && w.tombstones == v.tombstones[DeliveryOf(v.proposals[id]) := Tombstone(id, disposition, sequence)]
            && w == v.(proposals := w.proposals, reviews := w.reviews, provenance := w.provenance, tombstones := w.tombstones)
  {
    hide RowsElsewhere;
  }

  lemma PurgedReviews(v: Vault, id: Id, sequence: nat, disposition: Disposition)
    requires id in v.proposals
    ensures PurgeOne(v, id, sequence, disposition).reviews == v.reviews - (set r | r in v.reviews && v.reviews[r] == id)
  {
    hide DeliveryOf;
  }

  lemma PurgedProvenance(v: Vault, id: Id, sequence: nat, disposition: Disposition)
    requires id in v.proposals
    ensures PurgeOne(v, id, sequence, disposition).provenance
         == v.provenance - (set a | a in v.provenance && v.provenance[a].project == v.proposals[id].content.project
                                    && v.provenance[a].target == id)
  {
    hide DeliveryOf, RowsElsewhere;
  }

  lemma PurgeBuries(v: Vault, id: Id, disposition: Disposition)
    requires VaultInv(v) && id in v.proposals
    ensures BuriesDraft(v, PurgeOne(v.(book := Apply(v.book, Tick)), id, v.book.sequence + 1, disposition),
                        v.proposals[id].content.project, id, disposition)
    ensures PurgeOne(v.(book := Apply(v.book, Tick)), id, v.book.sequence + 1, disposition).receipts == v.receipts
  {
    InvHasDeliveries(v);
    var s := v.book.sequence + 1;
    var v1 := v.(book := Apply(v.book, Tick));
    assert Apply(v.book, Tick) == v.book.(sequence := s);
    var k := DeliveryOf(v.proposals[id]);
    assert k == Delivery(v.proposals[id].content.project, v.proposals[id].source, v.proposals[id].deliveryKey);
    assert k !in v.tombstones;
    hide VaultInv, PurgeOne, Apply, DeliveryOf, UniqueDeliveries, NeverRevived;
    PurgedTables(v1, id, s, disposition);
    PurgedReviews(v1, id, s, disposition);
    PurgedProvenance(v1, id, s, disposition);
  }

  lemma FeedbackCounts(v: Vault, threadId: Id)
    ensures |FeedbackOn(v.feedback, VersionsOf(v.book, threadId))|
         == |set r | r in v.feedback && OfMemory(v, threadId, v.feedback[r].assertion)|
  {
    VersionsAre(v, threadId);
    FeedbackOfMemory(v, threadId, v.feedback, VersionsOf(v.book, threadId));
    hide FeedbackOn, VersionsOf, OfMemory;
    var on := FeedbackOn(v.feedback, VersionsOf(v.book, threadId));
    assert |on| == |on.Keys|;
  }

  lemma RecallChanges(v: Vault, threadId: Id, receipt: Id, r: Id)
    requires VaultInv(v) && CanForget(v, threadId) && r in v.recalls
    ensures threadId in v.book.threads
    ensures var w := ForgetThreadOp(v, threadId, receipt);
            r in w.recalls && (w.recalls[r] != v.recalls[r] <==>
                                 r in Mentioning(v.recalls, v.book.threads[threadId].project, VersionsOf(v.book, threadId)))
  {
    CanForgetIsStored(v, threadId);
    hide ForgetThreadOp, VaultInv, VersionsOf, CanForget, Without;
    RecallIsPruned(v, threadId, receipt, r);
    Forgetting.WithoutChanges(v.recalls[r].results, VersionsOf(v.book, threadId));
  }

  lemma RecallsCount(v: Vault, threadId: Id, receipt: Id)
    requires VaultInv(v) && CanForget(v, threadId)
    ensures threadId in v.book.threads
    ensures var w := ForgetThreadOp(v, threadId, receipt);
            Mentioning(v.recalls, v.book.threads[threadId].project, VersionsOf(v.book, threadId))
              == set r | r in v.recalls && r in w.recalls && w.recalls[r] != v.recalls[r]
  {
    hide *;
    CanForgetIsStored(v, threadId);
    forall r | r in v.recalls { RecallChanges(v, threadId, receipt, r); }
    MentioningIs(v.recalls, ForgetThreadOp(v, threadId, receipt).recalls, v.book.threads[threadId].project,
                 VersionsOf(v.book, threadId));
  }

  lemma MentioningIs(recalls: map<Id, Recall>, after: map<Id, Recall>, project: Project, gone: set<Id>)
    requires forall r | r in recalls :: r in after && (after[r] != recalls[r] <==> r in Mentioning(recalls, project, gone))
    ensures Mentioning(recalls, project, gone) == set r | r in recalls && r in after && after[r] != recalls[r]
  {
    hide Mentions;
  }

  lemma ForgetAnswerIs(v: Vault, threadId: Id, receipt: Id)
    requires threadId in v.book.threads
    ensures Settles(ForgetThread(threadId, receipt))
    ensures AnswerOf(v, ForgetThread(threadId, receipt)) ==
              Deleted(receipt, threadId, v.book.sequence + 1, |FeedbackOn(v.feedback, VersionsOf(v.book, threadId))|,
                      |Mentioning(v.recalls, v.book.threads[threadId].project, VersionsOf(v.book, threadId))|)
  {
    hide FeedbackOn, VersionsOf, Mentioning;
  }

  lemma ForgetAnswer(v: Vault, threadId: Id, receipt: Id)
    requires VaultInv(v) && CanForget(v, threadId)
    ensures threadId in v.book.threads && Settles(ForgetThread(threadId, receipt))
    ensures var w := ForgetThreadOp(v, threadId, receipt);
            AnswerOf(v, ForgetThread(threadId, receipt)) ==
              Deleted(receipt, threadId, v.book.sequence + 1,
                      |set r | r in v.feedback && OfMemory(v, threadId, v.feedback[r].assertion)|,
                      |set r | r in v.recalls && r in w.recalls && w.recalls[r] != v.recalls[r]|)
  {
    hide *;
    CanForgetIsStored(v, threadId);
    ForgetAnswerIs(v, threadId, receipt);
    FeedbackCounts(v, threadId);
    RecallsCount(v, threadId, receipt);
  }

  lemma DecidedForget(v: Vault, project: Project, threadId: Id, scope: Scope, m: Moment)
    requires VaultInv(v) && Decide(v, ForgetMemory(project, threadId, scope), m).Done?
    ensures Decide(v, ForgetMemory(project, threadId, scope), m).value == ForgetThread(threadId, m.receipt)
    ensures threadId in v.book.threads && v.book.threads[threadId].project == project && CanForget(v, threadId)
  {
    hide VersionsOf, ProposalsOn, ReferencedBy, Inv;
  }

  lemma DecidedDraft(v: Vault, p: Preview, m: Moment)
    requires (p.RejectThis? || p.ForgetDraft?) && Decide(v, p, m).Done?
    ensures p.proposal in v.proposals && v.proposals[p.proposal].content.project == p.project
    ensures Decide(v, p, m).value == if p.RejectThis? then Purge(p.proposal, WasRejected) else ForgetProposal(p.proposal, m.receipt)
  {
    hide AcceptedFrom;
  }

  lemma DecidedContent(v: Vault, p: Preview, m: Moment)
    requires (p.RememberThis? || p.AcceptThis? || p.CorrectThis?) && Decide(v, p, m).Done?
    ensures var origin := if p.RememberThis? then Remembered
                          else if p.AcceptThis? then FromProposal(p.proposal) else Corrects(p.target);
            Admission(v, p.content, origin, m).Done? && Decide(v, p, m).value == Admission(v, p.content, origin, m).value
  {
    hide ScopeOfProposal, Admission;
  }

  lemma ContentFulfils(v: Vault, p: Preview, m: Moment)
    requires VaultInv(v) && PreviewOk(p) && Unused(v, m.draw) && Decide(v, p, m).Done?
    requires p.RememberThis? || p.AcceptThis? || p.CorrectThis?
    ensures Settles(Decide(v, p, m).value)
    ensures Fulfils(v, ApplyOp(v, Decide(v, p, m).value), p, m, AnswerOf(v, Decide(v, p, m).value))
  {
    hide VaultInv, PreviewOk, Unused, Decide, Admission, CanDo, ApplyOp, AnswerOf, Stores, MarksAccepted, Settles, BuriesDraft, Spares;
    DecidedIsDoable(v, p, m);
    DecidedContent(v, p, m);
    var origin := if p.RememberThis? then Remembered else if p.AcceptThis? then FromProposal(p.proposal) else Corrects(p.target);
    DecidedAdmission(v, p.content, origin, m);
    AdmissionFulfils(v, p.content, origin, m);
  }

  lemma DraftFulfils(v: Vault, p: Preview, m: Moment)
    requires VaultInv(v) && PreviewOk(p) && Unused(v, m.draw) && Decide(v, p, m).Done?
    requires p.RejectThis? || p.ForgetDraft?
    ensures Settles(Decide(v, p, m).value)
    ensures Fulfils(v, ApplyOp(v, Decide(v, p, m).value), p, m, AnswerOf(v, Decide(v, p, m).value))
  {
    hide *;
    DecidedIsDoable(v, p, m);
    DecidedDraft(v, p, m);
    if p.RejectThis? {
      PurgeBuries(v, p.proposal, WasRejected);
      RejectFulfils(v, p, m);
    } else {
      PurgeBuries(v, p.proposal, WasForgotten);
      ForgetDraftFulfils(v, p, m);
    }
  }

  lemma RejectFulfils(v: Vault, p: Preview, m: Moment)
    requires p.RejectThis? && p.proposal in v.proposals && v.proposals[p.proposal].content.project == p.project
    requires var w := PurgeOne(v.(book := Apply(v.book, Tick)), p.proposal, v.book.sequence + 1, WasRejected);
             BuriesDraft(v, w, p.project, p.proposal, WasRejected) && w.receipts == v.receipts
    ensures Fulfils(v, ApplyOp(v, Purge(p.proposal, WasRejected)), p, m, AnswerOf(v, Purge(p.proposal, WasRejected)))
  {
    hide BuriesDraft, PurgeOne, Apply;
  }

  lemma ForgetDraftFulfils(v: Vault, p: Preview, m: Moment)
    requires p.ForgetDraft? && CanDo(v, ForgetProposal(p.proposal, m.receipt))
    requires p.proposal in v.proposals && v.proposals[p.proposal].content.project == p.project
    requires var w := PurgeOne(v.(book := Apply(v.book, Tick)), p.proposal, v.book.sequence + 1, WasForgotten);
             BuriesDraft(v, w, p.project, p.proposal, WasForgotten) && w.receipts == v.receipts
    ensures Fulfils(v, ApplyOp(v, ForgetProposal(p.proposal, m.receipt)), p, m, AnswerOf(v, ForgetProposal(p.proposal, m.receipt)))
  {
    hide BuriesDraft, PurgeOne, Apply, CanForgetProposal;
    var w := PurgeOne(v.(book := Apply(v.book, Tick)), p.proposal, v.book.sequence + 1, WasForgotten);
    ReceiptIsNoDraft(v, w, p.project, p.proposal, WasForgotten,
                     v.receipts[m.receipt := Receipt(p.project, p.proposal, v.book.sequence + 1)]);
  }

  lemma ReceiptIsNoDraft(v: Vault, w: Vault, project: Project, id: Id, disposition: Disposition, receipts: map<Id, Receipt>)
    requires BuriesDraft(v, w, project, id, disposition)
    ensures BuriesDraft(v, w.(receipts := receipts), project, id, disposition)
  {
  }

  lemma MemoryFulfils(v: Vault, p: Preview, m: Moment)
    requires VaultInv(v) && PreviewOk(p) && Unused(v, m.draw) && Decide(v, p, m).Done? && p.ForgetMemory?
    ensures Settles(Decide(v, p, m).value)
    ensures Fulfils(v, ApplyOp(v, Decide(v, p, m).value), p, m, AnswerOf(v, Decide(v, p, m).value))
  {
    hide *;
    DecidedForget(v, p.project, p.thread, p.scope, m);
    ForgetAnswer(v, p.thread, m.receipt);
    ForgetSpares(v, p.thread, m.receipt);
    ForgetFulfils(v, p, m);
  }

  lemma ForgetFulfils(v: Vault, p: Preview, m: Moment)
    requires p.ForgetMemory? && CanForget(v, p.thread) && p.thread in v.book.threads && v.book.threads[p.thread].project == p.project
    requires Settles(ForgetThread(p.thread, m.receipt))
    requires var w := ForgetThreadOp(v, p.thread, m.receipt);
             && Spares(v, w, p.thread, m.receipt)
             && AnswerOf(v, ForgetThread(p.thread, m.receipt)) ==
                  Deleted(m.receipt, p.thread, v.book.sequence + 1,
                          |set r | r in v.feedback && OfMemory(v, p.thread, v.feedback[r].assertion)|,
                          |set r | r in v.recalls && r in w.recalls && w.recalls[r] != v.recalls[r]|)
    ensures Fulfils(v, ApplyOp(v, ForgetThread(p.thread, m.receipt)), p, m, AnswerOf(v, ForgetThread(p.thread, m.receipt)))
  {
    hide Spares, ForgetThreadOp, CanForget, AnswerOf, OfMemory, Settles;
  }

  /** Whatever is decided on a preview, carrying it out does what the preview says, and the answer says so. */
  lemma DecidedFulfils(v: Vault, p: Preview, m: Moment)
    requires VaultInv(v) && PreviewOk(p) && Unused(v, m.draw) && Decide(v, p, m).Done?
    ensures Settles(Decide(v, p, m).value)
    ensures Fulfils(v, ApplyOp(v, Decide(v, p, m).value), p, m, AnswerOf(v, Decide(v, p, m).value))
  {
    hide *;
    match p
    case RememberThis(_) => ContentFulfils(v, p, m);
    case AcceptThis(_, _, _) => ContentFulfils(v, p, m);
    case CorrectThis(_, _) => ContentFulfils(v, p, m);
    case RejectThis(_, _, _) => DraftFulfils(v, p, m);
    case ForgetMemory(_, _, _) => MemoryFulfils(v, p, m);
    case ForgetDraft(_, _, _) => DraftFulfils(v, p, m);
  }

  /** So an approved action that the daemon carries out does what was shown. */
  lemma AppliedFulfils(d: Approvals.Desk, r: Request, capability: Id, clock: Time, m: Moment)
    requires DeskInv(d) && Unused(d.vault, m.draw)
    ensures match ApplyCheck(d, r, clock, m)
            case Refused(_) => true
            case Done(op) =>
              && r.nonce in d.challenges && Settles(op)
              && Fulfils(d.vault, Settle(d, r, capability, m, op).vault, r.preview, m, AnswerOf(d.vault, op))
  {
    hide VaultInv, PreviewOk, Unused, Decide, Settles, ApplyOp, AnswerOf, Fulfils;
    var check := ApplyCheck(d, r, clock, m);
    if check.Done? {
      assert PreviewOk(d.challenges[r.nonce].digest);
      DecidedFulfils(d.vault, r.preview, m);
    }
  }
}
