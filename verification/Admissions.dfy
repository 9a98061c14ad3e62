/** What an admission stores, table by table. */
module Admissions {
  import opened Basics
  import opened Ledger
  import opened Vault

  /** The new version holds what was approved. */
  ghost predicate HoldsClaim(w: Vault, c: Content, a: Id, threadId: Id, recorded: nat) {
    && a in w.book.versions
    && var row := w.book.versions[a];
    && row.body == c.claim && row.project == c.project && row.thread == threadId
    && row.retention == c.retention && row.precision == c.precision
    && row.validFrom == c.validFrom && row.validTo == c.validTo
    && row.lifecycle == Active && row.ingest == recorded && row.retired == None && row.retiredAt == None
    && (forall q :: (a, q) in w.book.disclosures <==> q in c.disclosure)
  }

  /** Its evidence is the approved evidence, and none if none was given. */
  ghost predicate HoldsEvidence(w: Vault, c: Content, d: Draw, recorded: nat) {
    && d.assertion in w.book.versions
    && if c.evidence == "" then
         w.book.versions[d.assertion].evidence == None && forall r | r in w.evidenceRefs :: r.1 != d.assertion
       else
         && w.book.versions[d.assertion].evidence == Some(d.evidence)
         && d.evidence in w.evidence && w.evidence[d.evidence] == Evidence(c.project, c.evidence, recorded)
         && (forall e :: (e, d.assertion) in w.evidenceRefs <==> e == d.evidence)
  }

  /** It is in the memory its project and subject key name: the one there was, or a new one with the approved
      subject. */
  ghost predicate InItsThread(v: Vault, w: Vault, c: Content, d: Draw, threadId: Id) {
    && threadId in w.book.threads
    && w.book.threads[threadId].project == c.project && w.book.threads[threadId].key == c.key
    && (threadId in v.book.threads || (threadId == d.thread && w.book.threads[threadId].subject == c.subject))
    && w.book.threads.Keys == v.book.threads.Keys + {threadId}
    && (forall t | t in v.book.threads :: w.book.threads[t] == v.book.threads[t])
  }

  /** A correction retires its target at the same number, and links to it. */
  ghost predicate Supersedes(v: Vault, w: Vault, d: Draw, target: Id, recorded: nat, now: Time) {
    && target in v.book.versions && target in w.book.versions && target != d.assertion
    && var before, after := v.book.versions[target], w.book.versions[target];
    && before.retired == None && after.lifecycle == Superseded && after.retired == Some(recorded) && after.retiredAt == Some(now)
    && after == before.(lifecycle := after.lifecycle, retired := after.retired, retiredAt := after.retiredAt)
    && before.thread == (if d.assertion in w.book.versions then w.book.versions[d.assertion].thread else "")
    && d.relation in w.relations && w.relations[d.relation] == Relation(d.assertion, target, recorded)
  }

  /** Every other version, disclosure, evidence and reference is as it was. */
  ghost predicate LeavesOthers(v: Vault, w: Vault, origin: Origin, d: Draw) {
    && w.book.versions.Keys == v.book.versions.Keys + {d.assertion}
    && (forall a | a in v.book.versions && origin != Corrects(a) :: w.book.versions[a] == v.book.versions[a])
    && (forall x: (Id, Provider) | x.0 != d.assertion :: x in w.book.disclosures <==> x in v.book.disclosures)
    && (forall r: (Id, Id) | r.1 != d.assertion :: r in w.evidenceRefs <==> r in v.evidenceRefs)
    && (forall e | e in v.evidence :: e in w.evidence && w.evidence[e] == v.evidence[e])
    && (forall e | e in w.evidence && e !in v.evidence :: e == d.evidence)
  }

  /** The rows that go with it name it. */
  ghost predicate Recorded(w: Vault, d: Draw) {
    && (forall a | a in d.attested :: a in w.attestations && w.attestations[a] == d.assertion)
    && d.consent in w.consents && w.consents[d.consent] == d.assertion
    && d.indexed in w.fts && w.fts[d.indexed] == d.assertion
    && d.activity in w.provenance && w.provenance[d.activity].target == d.assertion
  }

  ghost predicate Stores(v: Vault, w: Vault, c: Content, origin: Origin, d: Draw, now: Time, threadId: Id) {
    var recorded := v.book.sequence + 1;
    && w.book.sequence == recorded
    && HoldsClaim(w, c, d.assertion, threadId, recorded) && HoldsEvidence(w, c, d, recorded)
    && InItsThread(v, w, c, d, threadId) && LeavesOthers(v, w, origin, d) && Recorded(w, d)
    && (origin.Corrects? ==> Supersedes(v, w, d, origin.target, recorded, now))
  }

  // ---------------------------------------------------------------- the rows of the ledger

  lemma AdmittedRows(b: Book, step: Step)
    requires step.Admit? && Enabled(b, step) && DisclosuresOk(b)
    ensures var b1 := Apply(b, step);
            var s := b.sequence + 1;
            && b1.sequence == s
            && b1.threads == b.threads[step.row.thread := step.thread]
            && b1.versions.Keys == b.versions.Keys + {step.id}
            && b1.versions[step.id] == step.row.(lifecycle := Active, ingest := s, retired := None, retiredAt := None)
            && (forall a | a in b.versions && step.supersedes != Some(a) :: b1.versions[a] == b.versions[a])
            && (step.supersedes.Some? ==>
                  && step.supersedes.value in b.versions
                  && var before, after := b.versions[step.supersedes.value], b1.versions[step.supersedes.value];
                  && before.retired == None && after.lifecycle == Superseded && after.retired == Some(s)
                  && after.retiredAt == Some(step.now)
                  && after == before.(lifecycle := after.lifecycle, retired := after.retired, retiredAt := after.retiredAt))
            && (forall q :: (step.id, q) in b1.disclosures <==> q in step.disclosure)
            && (forall x: (Id, Provider) | x.0 != step.id :: x in b1.disclosures <==> x in b.disclosures)
  {
    hide Announce, Audience;
  }

  /** The step an admission is, in the fields of its content. */
  lemma AdmitIs(v: Vault, op: Op)
    requires op.Accept? && CanAccept(v, op)
    ensures var step := AdmitOf(v, op);
            var c := op.content;
            && step.id == op.draw.assertion && step.disclosure == c.disclosure && step.now == op.now
            && step.row.body == c.claim && step.row.project == c.project && step.row.retention == c.retention
            && step.row.precision == c.precision && step.row.validFrom == c.validFrom && step.row.validTo == c.validTo
            && step.row.evidence == (if c.evidence != "" then Some(op.draw.evidence) else None)
            && step.thread.project == c.project && step.thread.key == c.key
            && (step.row.thread in v.book.threads ==> v.book.threads[step.row.thread] == step.thread)
            && (step.row.thread !in v.book.threads ==> step.row.thread == op.draw.thread && step.thread.subject == c.subject)
            && step.supersedes == (if op.origin.Corrects? then Some(op.origin.target) else None)
            && (op.origin.Corrects? ==>
                  && op.origin.target in v.book.versions
                  && v.book.versions[op.origin.target].thread == step.row.thread)
            && op.draw.assertion !in v.book.versions
  {
  }

  lemma AcceptedRows(v: Vault, op: Op)
    requires op.Accept? && CanAccept(v, op)
    ensures var w := AcceptOp(v, op);
            var s := v.book.sequence + 1;
            && w.book == Apply(v.book, AdmitOf(v, op))
            && (op.content.evidence == "" ==> w.evidence == v.evidence && w.evidenceRefs == v.evidenceRefs)
            && (op.content.evidence != "" ==>
                  && w.evidence == v.evidence[op.draw.evidence := Evidence(op.content.project, op.content.evidence, s)]
                  && w.evidenceRefs == v.evidenceRefs + {(op.draw.evidence, op.draw.assertion)})
            && op.draw.evidence !in v.evidence
            && (op.origin.Corrects? ==>
                  op.draw.relation in w.relations && w.relations[op.draw.relation] == Relation(op.draw.assertion, op.origin.target, s))
            && Recorded(w, op.draw)
  {
    hide Apply, AdmitOf, AcceptCheck;
  }

  lemma UnusedAssertion(v: Vault, op: Op)
    requires op.Accept? && CanAccept(v, op)
    ensures op.draw.assertion !in v.book.versions
  {
    hide AcceptCheck, ProperContent;
  }

  lemma NothingNamesIt(v: Vault, a: Id)
    requires VaultInv(v) && a !in v.book.versions
    ensures DisclosuresOk(v.book) && forall r | r in v.evidenceRefs :: r.1 != a
  {
  }

  lemma AdmitIsStep(v: Vault, op: Op)
    requires op.Accept?
    ensures AdmitOf(v, op).Admit?
  {
  }

  lemma EvidenceWhen(w: Vault, c: Content, d: Draw, recorded: nat, evidence: map<Id, Evidence>, refs: set<(Id, Id)>)
    requires d.assertion in w.book.versions
    requires w.book.versions[d.assertion].evidence == if c.evidence != "" then Some(d.evidence) else None
    requires forall r | r in refs :: r.1 != d.assertion
    requires c.evidence == "" ==> w.evidenceRefs == refs
    requires c.evidence != "" ==> w.evidence == evidence[d.evidence := Evidence(c.project, c.evidence, recorded)]
                                  && w.evidenceRefs == refs + {(d.evidence, d.assertion)}
    ensures HoldsEvidence(w, c, d, recorded)
  {
  }

  lemma ClaimWhen(w: Vault, c: Content, a: Id, threadId: Id, recorded: nat, row: Version)
    requires a in w.book.versions
    requires w.book.versions[a] == row.(lifecycle := Active, ingest := recorded, retired := None, retiredAt := None)
    requires row.body == c.claim && row.project == c.project && row.thread == threadId && row.retention == c.retention
    requires row.precision == c.precision && row.validFrom == c.validFrom && row.validTo == c.validTo
    requires forall q :: (a, q) in w.book.disclosures <==> q in c.disclosure
    ensures HoldsClaim(w, c, a, threadId, recorded)
  {
  }

  lemma ThreadWhen(v: Vault, w: Vault, c: Content, d: Draw, threadId: Id, thread: Thread)
    requires w.book.threads == v.book.threads[threadId := thread]
    requires thread.project == c.project && thread.key == c.key
    requires threadId in v.book.threads ==> v.book.threads[threadId] == thread
    requires threadId !in v.book.threads ==> threadId == d.thread && thread.subject == c.subject
    ensures InItsThread(v, w, c, d, threadId)
  {
  }

  lemma OthersWhen(v: Vault, w: Vault, origin: Origin, d: Draw, supersedes: Option<Id>, recorded: nat, c: Content)
    requires w.book.versions.Keys == v.book.versions.Keys + {d.assertion} && d.assertion !in v.book.versions
    requires supersedes == if origin.Corrects? then Some(origin.target) else None
    requires forall a | a in v.book.versions && supersedes != Some(a) :: w.book.versions[a] == v.book.versions[a]
    requires forall x: (Id, Provider) | x.0 != d.assertion :: x in w.book.disclosures <==> x in v.book.disclosures
    requires d.evidence !in v.evidence
    requires c.evidence == "" ==> w.evidence == v.evidence && w.evidenceRefs == v.evidenceRefs
    requires c.evidence != "" ==> w.evidence == v.evidence[d.evidence := Evidence(c.project, c.evidence, recorded)]
                                  && w.evidenceRefs == v.evidenceRefs + {(d.evidence, d.assertion)}
    ensures LeavesOthers(v, w, origin, d)
  {
  }

  lemma SupersedesWhen(v: Vault, w: Vault, d: Draw, target: Id, recorded: nat, now: Time)
    requires target in v.book.versions && d.assertion !in v.book.versions
    requires target in w.book.versions && d.assertion in w.book.versions
    requires var before, after := v.book.versions[target], w.book.versions[target];
             && before.retired == None && after.lifecycle == Superseded && after.retired == Some(recorded)
             && after.retiredAt == Some(now)
             && after == before.(lifecycle := after.lifecycle, retired := after.retired, retiredAt := after.retiredAt)
             && before.thread == w.book.versions[d.assertion].thread
    requires d.relation in w.relations && w.relations[d.relation] == Relation(d.assertion, target, recorded)
    ensures Supersedes(v, w, d, target, recorded, now)
  {
  }

  lemma ClaimIsHeld(v: Vault, op: Op)
    requires VaultInv(v) && op.Accept? && CanAccept(v, op) && Enabled(v.book, AdmitOf(v, op)) && AdmitOf(v, op).Admit?
    ensures HoldsClaim(AcceptOp(v, op), op.content, op.draw.assertion, AdmitOf(v, op).row.thread, v.book.sequence + 1)
  {
    hide *;
    UnusedAssertion(v, op);
    AdmitIs(v, op);
    AcceptedRows(v, op);
    NothingNamesIt(v, op.draw.assertion);
    AdmittedRows(v.book, AdmitOf(v, op));
    ClaimWhen(AcceptOp(v, op), op.content, op.draw.assertion, AdmitOf(v, op).row.thread, v.book.sequence + 1, AdmitOf(v, op).row);
  }

  lemma EvidenceIsHeld(v: Vault, op: Op)
    requires VaultInv(v) && op.Accept? && CanAccept(v, op) && Enabled(v.book, AdmitOf(v, op)) && AdmitOf(v, op).Admit?
    ensures HoldsEvidence(AcceptOp(v, op), op.content, op.draw, v.book.sequence + 1)
  {
    hide *;
    UnusedAssertion(v, op);
    AdmitIs(v, op);
    AcceptedRows(v, op);
    NothingNamesIt(v, op.draw.assertion);
    AdmittedRows(v.book, AdmitOf(v, op));
    EvidenceWhen(AcceptOp(v, op), op.content, op.draw, v.book.sequence + 1, v.evidence, v.evidenceRefs);
  }

  lemma ThreadIsNamed(v: Vault, op: Op)
    requires VaultInv(v) && op.Accept? && CanAccept(v, op) && Enabled(v.book, AdmitOf(v, op)) && AdmitOf(v, op).Admit?
    ensures InItsThread(v, AcceptOp(v, op), op.content, op.draw, AdmitOf(v, op).row.thread)
  {
    hide *;
    UnusedAssertion(v, op);
    AdmitIs(v, op);
    AcceptedRows(v, op);
    NothingNamesIt(v, op.draw.assertion);
    AdmittedRows(v.book, AdmitOf(v, op));
    ThreadWhen(v, AcceptOp(v, op), op.content, op.draw, AdmitOf(v, op).row.thread, AdmitOf(v, op).thread);
  }

  lemma OthersAreLeft(v: Vault, op: Op)
    requires VaultInv(v) && op.Accept? && CanAccept(v, op) && Enabled(v.book, AdmitOf(v, op)) && AdmitOf(v, op).Admit?
    ensures LeavesOthers(v, AcceptOp(v, op), op.origin, op.draw)
  {
    hide *;
    UnusedAssertion(v, op);
    AdmitIs(v, op);
    AcceptedRows(v, op);
    NothingNamesIt(v, op.draw.assertion);
    AdmittedRows(v.book, AdmitOf(v, op));
    OthersWhen(v, AcceptOp(v, op), op.origin, op.draw, AdmitOf(v, op).supersedes, v.book.sequence + 1, op.content);
  }

  lemma TargetIsSuperseded(v: Vault, op: Op)
    requires VaultInv(v) && op.Accept? && CanAccept(v, op) && Enabled(v.book, AdmitOf(v, op)) && AdmitOf(v, op).Admit?
    ensures op.origin.Corrects? ==>
              Supersedes(v, AcceptOp(v, op), op.draw, op.origin.target, v.book.sequence + 1, op.now)
  {
    hide *;
    UnusedAssertion(v, op);
    AdmitIs(v, op);
    AcceptedRows(v, op);
    NothingNamesIt(v, op.draw.assertion);
    AdmittedRows(v.book, AdmitOf(v, op));
    if op.origin.Corrects? {
      SupersedesWhen(v, AcceptOp(v, op), op.draw, op.origin.target, v.book.sequence + 1, op.now);
    }
  }

  lemma RestIsRecorded(v: Vault, op: Op)
    requires op.Accept? && CanAccept(v, op) && Enabled(v.book, AdmitOf(v, op)) && AdmitOf(v, op).Admit? && DisclosuresOk(v.book)
    ensures AcceptOp(v, op).book.sequence == v.book.sequence + 1 && Recorded(AcceptOp(v, op), op.draw)
  {
    hide *;
    AcceptedRows(v, op);
    AdmittedRows(v.book, AdmitOf(v, op));
  }

  /** An admission stores exactly what was approved: the claim with its bounds, its retention and its audience,
      its evidence, under its subject; a correction retires its target; and nothing else changes. */
  lemma AdmissionStores(v: Vault, op: Op)
    requires VaultInv(v) && op.Accept? && CanAccept(v, op)
    ensures Stores(v, AcceptOp(v, op), op.content, op.origin, op.draw, op.now, AdmitOf(v, op).row.thread)
  {
    hide *;
    AdmitIsEnabled(v, op);
    AdmitIsStep(v, op);
    UnusedAssertion(v, op);
    NothingNamesIt(v, op.draw.assertion);
    ClaimIsHeld(v, op);
    EvidenceIsHeld(v, op);
    ThreadIsNamed(v, op);
    OthersAreLeft(v, op);
    TargetIsSuperseded(v, op);
    RestIsRecorded(v, op);
    StoresWhen(v, AcceptOp(v, op), op.content, op.origin, op.draw, op.now, AdmitOf(v, op).row.thread);
  }

  lemma StoresWhen(v: Vault, w: Vault, c: Content, origin: Origin, d: Draw, now: Time, threadId: Id)
    requires var recorded := v.book.sequence + 1;
             && w.book.sequence == recorded
             && HoldsClaim(w, c, d.assertion, threadId, recorded) && HoldsEvidence(w, c, d, recorded)
             && InItsThread(v, w, c, d, threadId) && LeavesOthers(v, w, origin, d) && Recorded(w, d)
             && (origin.Corrects? ==> Supersedes(v, w, d, origin.target, recorded, now))
    ensures Stores(v, w, c, origin, d, now, threadId)
  {
    hide HoldsClaim, HoldsEvidence, InItsThread, LeavesOthers, Recorded, Supersedes;
  }

  /** The rows of the drafts play no part in it. */
  lemma StoresWithoutDrafts(v: Vault, op: Op)
    requires VaultInv(v) && op.Accept? && CanAccept(v, op)
    ensures AdmitOf(v, op).Admit?
    ensures Stores(v, AcceptOp(v, op).(proposals := v.proposals, reviews := v.reviews), op.content, op.origin, op.draw, op.now,
                   AdmitOf(v, op).row.thread)
  {
    AdmitIsStep(v, op);
    AdmissionStores(v, op);
    hide *;
    SameBarDrafts(v, AcceptOp(v, op), op.content, op.origin, op.draw, op.now, AdmitOf(v, op).row.thread, v.proposals, v.reviews);
  }

  lemma SameBarDrafts(v: Vault, w: Vault, c: Content, origin: Origin, d: Draw, now: Time, threadId: Id,
                      proposals: map<Id, Proposal>, reviews: map<Id, Id>)
    requires Stores(v, w, c, origin, d, now, threadId)
    ensures Stores(v, w.(proposals := proposals, reviews := reviews), c, origin, d, now, threadId)
  {
  }

  // ---------------------------------------------------------------- the same claim again

  /** A claim that was just admitted is refused as a duplicate when it comes again under its subject, whatever
      else is approved with it, unless as a correction or past its deadline. */
  lemma SameClaimIsADuplicate(v: Vault, op: Op, c: Content, origin: Origin, now: Time)
    requires VaultInv(v) && op.Accept? && CanAccept(v, op)
    requires c.project == op.content.project && c.key == op.content.key && c.claim == op.content.claim
    requires !origin.Corrects? && !(c.retention.Until? && c.retention.deadline <= now)
    ensures AcceptCheck(AcceptOp(v, op), c, origin, now) == Refused(DuplicateClaim)
  {
    hide *;
    var w := AcceptOp(v, op);
    AdmitIsStep(v, op);
    AdmissionStores(v, op);
    AcceptKeepsThreads(v, op);
    KnownClaim(v, w, op.content, op.origin, op.draw, op.now, AdmitOf(v, op).row.thread, c, origin, now);
  }

  lemma KnownClaim(v: Vault, w: Vault, c0: Content, origin0: Origin, d: Draw, now0: Time, threadId: Id,
                   c: Content, origin: Origin, now: Time)
    requires Stores(v, w, c0, origin0, d, now0, threadId) && UniqueThreads(w.book.threads)
    requires c.project == c0.project && c.key == c0.key && c.claim == c0.claim
    requires !origin.Corrects? && !(c.retention.Until? && c.retention.deadline <= now)
    ensures AcceptCheck(w, c, origin, now) == Refused(DuplicateClaim)
  {
    hide HoldsEvidence, LeavesOthers, Recorded, Supersedes;
    assert ThreadFor(w.book, c.project, c.key) == Some(threadId);
    assert Current(w.book, d.assertion);
  }
}
