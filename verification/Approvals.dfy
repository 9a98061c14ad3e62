/** Owner approvals: previews, one-shot challenges and their receipts. Digests of a preview
    are modelled as the preview itself. */
module Approvals {
  import opened Basics
  import opened Ledger
  import opened Vault

  datatype Operation = DoRemember | DoAccept | DoReject | DoCorrect | DoForget

  datatype Preview =
    | RememberThis(content: Content)
    | AcceptThis(proposal: Id, content: Content, draft: ProposalScope)
    | RejectThis(project: Project, proposal: Id, draft: ProposalScope)
    | CorrectThis(target: Id, content: Content)
    | ForgetMemory(project: Project, thread: Id, scope: Scope)
    | ForgetDraft(project: Project, proposal: Id, draft: ProposalScope)

  function OperationOf(p: Preview): Operation {
    match p
    case RememberThis(_) => DoRemember
    case AcceptThis(_, _, _) => DoAccept
    case RejectThis(_, _, _) => DoReject
    case CorrectThis(_, _) => DoCorrect
    case ForgetMemory(_, _, _) => DoForget
    case ForgetDraft(_, _, _) => DoForget
  }

  function ProjectOf(p: Preview): Project {
    match p
    case RememberThis(c) => c.project
    case AcceptThis(_, c, _) => c.project
    case RejectThis(project, _, _) => project
    case CorrectThis(_, c) => c.project
    case ForgetMemory(project, _, _) => project
    case ForgetDraft(project, _, _) => project
  }

  /** What `admin_preview` guarantees of the previews it shows. */
  predicate PreviewOk(p: Preview) {
    match p
    case RememberThis(c) => ProperContent(c)
    case AcceptThis(_, c, draft) => ProperContent(c) && draft.proposal.content == c
    case CorrectThis(_, c) => ProperContent(c)
    case _ => true
  }

  // ---------------------------------------------------------------- asking for a preview

  datatype Ask =
    | AskRemember(content: Content)
    | AskReview(project: Project, proposal: Id, accept: bool)
    | AskCorrect(project: Project, target: Id, edit: Content)
    | AskForget(project: Project, target: Id)

  function ReviewPreview(v: Vault, project: Project, id: Id, accept: bool): Result<Preview> {
    match ScopeOfProposal(v, project, id)
    case None => Refused(NotFound)
    case Some(draft) =>
      if draft.proposal.status != Proposed then Refused(InvalidTransition)
      else if accept && !IsProvider(draft.proposal.source) then Refused(InvalidRequest)
      else Done(if accept then AcceptThis(id, draft.proposal.content, draft) else RejectThis(project, id, draft))
  }

  /** The field and policy checks on the content of a preview or a proposal. */
  predicate FieldsOk(c: Content, now: Time) {
    !Lapsed(c.retention, now) && ProperContent(c)
  }

  function ContentCheck(c: Content, now: Time, admits: bool): Result<()> {
    if !FieldsOk(c, now) then Refused(InvalidRequest) else if !admits then Refused(PolicyDenied) else Done(())
  }

  function CorrectPreview(v: Vault, project: Project, target: Id, edit: Content): (r: Result<Preview>)
    ensures r.Done? ==> r.value.CorrectThis?
  {
    if target !in v.book.versions || v.book.versions[target].project != project
       || v.book.versions[target].thread !in v.book.threads then Refused(NotFound)
    else if v.book.versions[target].retired != None then Refused(InvalidTransition)
    else
      var thread := v.book.threads[v.book.versions[target].thread];
      Done(CorrectThis(target, edit.(project := project, subject := thread.subject, key := thread.key)))
  }

  /** `target` is a memory, a version of it, or a proposal; an accepted proposal stands for the
      memory it was accepted into. */
  ghost predicate ForgetPreviews(v: Vault, project: Project, target: Id, r: Result<Preview>) {
    match ThreadNamed(v.book, project, target)
    case Some(threadId) => r == ForgetThreadPreview(v, project, threadId)
    case None =>
      var accepted := AcceptedFrom(v, project, target);
      if accepted != map[] then exists a | a in accepted :: r == ForgetThreadPreview(v, project, accepted[a].thread)
      else r == match ScopeOfProposal(v, project, target)
                case None => Refused(NotFound)
                case Some(draft) =>
                  if draft.proposal.status == Accepted then Refused(IntegrityError)
                  else Done(ForgetDraft(project, target, draft))
  }

  function ThreadNamed(b: Book, project: Project, target: Id): Option<Id> {
    if target in b.threads && b.threads[target].project == project then Some(target)
    else if target in b.versions && b.versions[target].project == project then Some(b.versions[target].thread)
    else None
  }

  function ForgetThreadPreview(v: Vault, project: Project, threadId: Id): Result<Preview> {
    match ForgetScope(v, project, threadId)
    case None => Refused(NotFound)
    case Some(scope) => Done(ForgetMemory(project, threadId, scope))
  }

  /** What `admin_preview` shows for a request, or why it refuses it. */
  ghost predicate Previews(v: Vault, ask: Ask, now: Time, admits: bool, r: Result<Preview>) {
    match ask
    case AskRemember(c) =>
      r == (match ContentCheck(c, now, admits) case Refused(code) => Refused(code) case Done(_) => Done(RememberThis(c)))
    case AskReview(project, id, accept) =>
      var shown := ReviewPreview(v, project, id, accept);
      r == if accept && shown.Done? && !admits then Refused(PolicyDenied) else shown
    case AskCorrect(project, target, edit) =>
      var shown := CorrectPreview(v, project, target, edit);
      r == if shown.Refused? then shown
           else (match ContentCheck(shown.value.content, now, admits) case Refused(code) => Refused(code) case Done(_) => shown)
    case AskForget(project, target) => ForgetPreviews(v, project, target, r)
  }

  /** The preview that is shown is one of what was asked for: the proposal itself for a review, to be accepted or
      to be rejected as asked; the version itself for a correction, under its own subject; and for a forget the
      memory the target is, is a version of or was accepted into, or else the draft itself. */
  ghost predicate Shows(v: Vault, ask: Ask, p: Preview) {
    match ask
    case AskRemember(c) => p == RememberThis(c)
    case AskReview(project, id, accept) =>
      && id in v.proposals && v.proposals[id].content.project == project && v.proposals[id].status == Proposed
      && (if accept then p.AcceptThis? && p.proposal == id && p.content == v.proposals[id].content
          else p.RejectThis? && p.project == project && p.proposal == id)
      && p.draft.proposal == v.proposals[id]
    case AskCorrect(project, target, edit) =>
      && target in v.book.versions && v.book.versions[target].project == project && v.book.versions[target].retired == None
      && v.book.versions[target].thread in v.book.threads
      && p.CorrectThis? && p.target == target && p.content.project == project
      && p.content.subject == v.book.threads[v.book.versions[target].thread].subject
      && p.content.key == v.book.threads[v.book.versions[target].thread].key
      && p.content == edit.(project := project, subject := p.content.subject, key := p.content.key)
    case AskForget(project, target) =>
      || (p.ForgetMemory? && p.project == project && IsTheMemory(v, project, target, p.thread))
      || (p.ForgetDraft? && p.project == project && p.proposal == target
          && target in v.proposals && v.proposals[target].content.project == project
          && v.proposals[target].status != Accepted && p.draft.proposal == v.proposals[target])
  }

  /** `target` is the memory, or a version of it, or a draft that an acceptance recorded as the input of a version of it. */
  ghost predicate IsTheMemory(v: Vault, project: Project, target: Id, threadId: Id) {
    && threadId in v.book.threads && v.book.threads[threadId].project == project
    && (|| target == threadId
        || (target in v.book.versions && v.book.versions[target].thread == threadId)
        || (exists r | r in v.provenance ::
              && v.provenance[r].project == project && v.provenance[r].kind == ProposalAcceptance
              && v.provenance[r].inputs == [Draft(target)]
              && v.provenance[r].target in v.book.versions && v.book.versions[v.provenance[r].target].thread == threadId))
  }

  /** The preview of a review or of a forgotten draft holds the draft, its reviews, what is recorded about it, and
      every version an acceptance of it is recorded for; it goes stale as soon as any of these changed. */
  lemma DraftIsShown(v: Vault, project: Project, id: Id)
    ensures ScopeOfProposal(v, project, id).Some? <==> id in v.proposals && v.proposals[id].content.project == project
    ensures ScopeOfProposal(v, project, id).Some? ==>
              var s := ScopeOfProposal(v, project, id).value;
              && s.proposal == v.proposals[id]
              && (forall r :: r in s.reviews <==> r in v.reviews && v.reviews[r] == id)
              && (forall a :: a in s.provenance <==>
                    a in v.provenance && v.provenance[a].project == project && v.provenance[a].target == id)
              && (forall a | a in s.provenance :: s.provenance[a] == v.provenance[a])
              && (forall a :: a in s.accepted <==>
                    a in v.book.versions && exists r | r in v.provenance ::
                      && v.provenance[r].project == project && v.provenance[r].kind == ProposalAcceptance
                      && v.provenance[r].inputs == [Draft(id)] && v.provenance[r].target == a)
              && (forall a | a in s.accepted :: s.accepted[a] == v.book.versions[a])
  {
  }

  lemma AskedReviewIsShown(v: Vault, project: Project, id: Id, accept: bool)
    ensures var r := ReviewPreview(v, project, id, accept);
            && (r.Done? ==> Shows(v, AskReview(project, id, accept), r.value))
            && (r == Refused(NotFound) <==> id !in v.proposals || v.proposals[id].content.project != project)
            && (r == Refused(InvalidTransition) <==>
                  id in v.proposals && v.proposals[id].content.project == project && v.proposals[id].status != Proposed)
            && (r.Refused? ==> r.code in {NotFound, InvalidTransition} || (r.code == InvalidRequest && accept
                                                                           && !IsProvider(v.proposals[id].source)))
  {
    hide AcceptedFrom, IsProvider;
  }

  lemma AskedCorrectionIsShown(v: Vault, project: Project, target: Id, edit: Content)
    ensures var r := CorrectPreview(v, project, target, edit);
            r.Done? ==> Shows(v, AskCorrect(project, target, edit), r.value)
  {
  }

  lemma AskedForgetIsShown(v: Vault, project: Project, target: Id, p: Preview)
    requires ForgetPreviews(v, project, target, Done(p))
    ensures Shows(v, AskForget(project, target), p)
  {
    match ThreadNamed(v.book, project, target)
    case Some(threadId) => ForgetShowsMemory(v, project, threadId, p);
    case None =>
      var accepted := AcceptedFrom(v, project, target);
      if accepted != map[] {
        var a :| a in accepted && Done(p) == ForgetThreadPreview(v, project, accepted[a].thread);
        ForgetShowsMemory(v, project, accepted[a].thread, p);
        assert Accepts(v, project, target, a) && accepted[a] == v.book.versions[a];
      }
  }

  lemma ForgetShowsMemory(v: Vault, project: Project, threadId: Id, p: Preview)
    requires ForgetThreadPreview(v, project, threadId) == Done(p)
    ensures p.ForgetMemory? && p.project == project && p.thread == threadId
    ensures threadId in v.book.threads && v.book.threads[threadId].project == project
  {
    hide VersionsOf, ProposalsOn, ReferencedBy;
  }

  /** What was asked is what is shown. */
  lemma AskedIsShown(v: Vault, ask: Ask, now: Time, admits: bool, p: Preview)
    requires Previews(v, ask, now, admits, Done(p))
    ensures Shows(v, ask, p)
  {
    hide Shows, ReviewPreview, CorrectPreview, ContentCheck, ForgetPreviews;
    match ask
    case AskRemember(c) => RememberIsShown(v, c);
    case AskReview(project, id, accept) => AskedReviewIsShown(v, project, id, accept);
    case AskCorrect(project, target, edit) => AskedCorrectionIsShown(v, project, target, edit);
    case AskForget(project, target) => AskedForgetIsShown(v, project, target, p);
  }

  lemma RememberIsShown(v: Vault, c: Content)
    ensures Shows(v, AskRemember(c), RememberThis(c))
  {
  }

  // ---------------------------------------------------------------- deciding

  /** The ids drawn and the clock read while an approved action runs; `admits` is the verdict of
      the admission policy at the final write boundary. */
  datatype Moment = Moment(draw: Draw, receipt: Id, now: Time, admits: bool)

  ghost function Admission(v: Vault, c: Content, origin: Origin, m: Moment): Result<Op> {
    if !m.admits then Refused(PolicyDenied)
    else match AcceptCheck(v, c, origin, m.now)
         case Refused(code) => Refused(code)
         case Done(_) => Done(Accept(c, origin, m.draw, m.now))
  }

  /** What an approved preview does now, or why it is refused, in the order of the checks. */
  ghost function Decide(v: Vault, p: Preview, m: Moment): Result<Op> {
    match p
    case RememberThis(c) => Admission(v, c, Remembered, m)
    case AcceptThis(id, c, draft) =>
      if Lapsed(c.retention, m.now) then Refused(RetentionExpired)
      else if ScopeOfProposal(v, c.project, id) != Some(draft) then Refused(StalePreview)
      else if draft.proposal.status != Proposed then Refused(InvalidTransition)
      else if !IsProvider(draft.proposal.source) then Refused(InvalidRequest)
      else Admission(v, c, FromProposal(id), m)
    case RejectThis(project, id, draft) =>
      if ScopeOfProposal(v, project, id) != Some(draft) then Refused(StalePreview)
      else if draft.proposal.status != Proposed then Refused(StalePreview)
      else Done(Purge(id, WasRejected))
    case CorrectThis(target, c) => Admission(v, c, Corrects(target), m)
    case ForgetMemory(project, threadId, scope) =>
      if ForgetScope(v, project, threadId) != Some(scope) then Refused(StalePreview)
      else Done(ForgetThread(threadId, m.receipt))
    case ForgetDraft(project, id, draft) =>
      if ScopeOfProposal(v, project, id) != Some(draft) then Refused(StalePreview)
      else if draft.proposal.status == Accepted || draft.accepted != map[] then Refused(StalePreview)
      else Done(ForgetProposal(id, m.receipt))
  }

  /** The transactions an approved action can be. */
  predicate Settles(op: Op) {
    op.Accept? || op.Purge? || op.ForgetThread? || op.ForgetProposal?
  }

  /** Whatever is decided is a transaction the vault can carry out. */
  lemma DecidedIsDoable(v: Vault, p: Preview, m: Moment)
    requires VaultInv(v) && PreviewOk(p) && Unused(v, m.draw) && Decide(v, p, m).Done?
    ensures Settles(Decide(v, p, m).value) && CanDo(v, Decide(v, p, m).value)
  {
    hide ActivitiesDated, CorrectionsInThread, Inv, ForeignKeysHold, EvidenceBacked, IndexMatches, UniqueThreads, AcceptedInThread, NeverRevived, ContentProper,
      AcceptCheck, Unused, ProperContent, ReferencedBy, SharedOutside, Mentions;
  }

  // ---------------------------------------------------------------- what a preview is good for

  /** The claim is already the current body of a version under its subject. */
  ghost predicate AlreadyKnown(b: Book, c: Content) {
    exists a | a in b.versions ::
      && Current(b, a) && b.versions[a].body == c.claim && b.versions[a].thread in b.threads
      && b.threads[b.versions[a].thread].project == c.project && b.threads[b.versions[a].thread].key == c.key
  }

  /** What can still stand in the way of a preview that was shown on the present state. */
  ghost predicate StillWelcome(b: Book, p: Preview, m: Moment) {
    match p
    case RememberThis(c) => m.admits && !Lapsed(c.retention, m.now) && !AlreadyKnown(b, c)
    case AcceptThis(_, c, _) => m.admits && !Lapsed(c.retention, m.now) && !AlreadyKnown(b, c)
    case CorrectThis(_, c) => m.admits && !Lapsed(c.retention, m.now)
    case _ => true
  }

  lemma FreshAdmission(v: Vault, c: Content, origin: Origin, m: Moment)
    requires UniqueThreads(v.book.threads) && !origin.Corrects?
    ensures Admission(v, c, origin, m).Done? <==> m.admits && !Lapsed(c.retention, m.now) && !AlreadyKnown(v.book, c)
    ensures Admission(v, c, origin, m).Refused? ==>
              Admission(v, c, origin, m).code in {PolicyDenied, RetentionExpired, DuplicateClaim}
  {
  }

  lemma FreshCorrection(v: Vault, project: Project, target: Id, edit: Content, m: Moment)
    requires Inv(v.book) && UniqueThreads(v.book.threads) && CorrectPreview(v, project, target, edit).Done?
    ensures var c := CorrectPreview(v, project, target, edit).value.content;
            && (Admission(v, c, Corrects(target), m).Done? <==> m.admits && !Lapsed(c.retention, m.now))
            && (Admission(v, c, Corrects(target), m).Refused? ==>
                  Admission(v, c, Corrects(target), m).code in {PolicyDenied, RetentionExpired})
  {
  }

  lemma FreshForget(v: Vault, project: Project, target: Id, p: Preview, m: Moment)
    requires ForgetPreviews(v, project, target, Done(p))
    ensures Decide(v, p, m).Done? && !p.RememberThis? && !p.AcceptThis? && !p.CorrectThis?
  {
    hide ForgetScope, AcceptedFrom;
  }

  lemma FreshReview(v: Vault, project: Project, id: Id, accept: bool, m: Moment)
    requires UniqueThreads(v.book.threads) && ReviewPreview(v, project, id, accept).Done?
    ensures var p := ReviewPreview(v, project, id, accept).value;
            && (Decide(v, p, m).Done? <==> StillWelcome(v.book, p, m))
            && (Decide(v, p, m).Refused? ==> Decide(v, p, m).code in {PolicyDenied, RetentionExpired, DuplicateClaim})
  {
  }

  /** A preview that is approved while nothing has changed is never refused as stale or out of order: a
      review, a correction and a forget find what they were shown, and only the policy, a deadline that has
      passed and, for new claims, a claim that is already current can refuse it. */
  lemma FreshPreviewIsNeverStale(v: Vault, ask: Ask, now: Time, admits: bool, p: Preview, m: Moment)
    requires VaultInv(v) && Previews(v, ask, now, admits, Done(p))
    ensures Decide(v, p, m).Done? <==> StillWelcome(v.book, p, m)
    ensures Decide(v, p, m).Refused? ==> Decide(v, p, m).code in {PolicyDenied, RetentionExpired, DuplicateClaim}
  {
    hide ActivitiesDated, CorrectionsInThread, Inv, ForeignKeysHold, EvidenceBacked, IndexMatches, UniqueThreads, ProposalsOk, ForgetPreviews,
      ReviewPreview, CorrectPreview, AlreadyKnown, ContentCheck, Admission;
    match ask
    case AskRemember(c) => FreshAdmission(v, c, Remembered, m);
    case AskReview(project, id, accept) => FreshReview(v, project, id, accept, m);
    case AskCorrect(project, target, edit) =>
      FreshCorrection(v, project, target, edit, m);
      CorrectionIs(v, project, target, edit);
    case AskForget(project, target) => FreshForget(v, project, target, p, m);
  }

  lemma CorrectionIs(v: Vault, project: Project, target: Id, edit: Content)
    requires CorrectPreview(v, project, target, edit).Done?
    ensures CorrectPreview(v, project, target, edit).value.target == target
  {
  }

  // ---------------------------------------------------------------- the desk

  datatype Challenge = Challenge(operation: Operation, project: Project, digest: Preview, expires: Time, used: Option<Time>)

  /** The content-free result an action hands back and its receipt keeps. */
  datatype Answer =
    | Admitted(memory: Id, assertion: Id, recorded: nat, supersedes: Option<Id>, reviewed: Option<Id>)
    | Rejected(proposal: Id, recorded: nat)
    | Deleted(receipt: Id, target: Id, recorded: nat, feedbackRows: nat, recallsPruned: nat)
    | DraftDeleted(receipt: Id, target: Id, recorded: nat)

  ghost function AnswerOf(v: Vault, op: Op): Answer
    requires Settles(op)
  {
    var s := v.book.sequence + 1;
    match op
    case Accept(_, origin, draw, _) =>
      Admitted(AdmitOf(v, op).row.thread, draw.assertion, s,
               if origin.Corrects? then Some(origin.target) else None,
               if origin.FromProposal? then Some(origin.proposal) else None)
    case Purge(id, _) => Rejected(id, s)
    case ForgetThread(threadId, receipt) =>
      var gone := VersionsOf(v.book, threadId);
      Deleted(receipt, threadId, s, |FeedbackOn(v.feedback, gone)|,
              if threadId in v.book.threads then |Mentioning(v.recalls, v.book.threads[threadId].project, gone)| else 0)
    case ForgetProposal(id, receipt) => DraftDeleted(receipt, id, s)
  }

  /** A row of `admin_results`; its MAC is part of the row and covers all of it. */
  datatype Saved = Saved(capability: Id, project: Project, operation: Operation, digest: Preview, answer: Answer)

  datatype Desk = Desk(vault: Vault, challenges: map<Id, Challenge>, results: map<Id, Saved>)

  datatype Request = Request(nonce: Id, claimed: Preview, preview: Preview, granted: bool)

  /** The checks of `admin_apply` under the writer lock, in their order. */
  ghost function ApplyCheck(d: Desk, r: Request, clock: Time, m: Moment): Result<Op> {
    if r.nonce !in d.challenges then Refused(ApprovalInvalid)
    else
      var c := d.challenges[r.nonce];
      if c.used.Some? then Refused(ApprovalReplay)
      else if c.expires < clock then Refused(ApprovalExpired)
      else if c.digest != r.preview then Refused(ApprovalMismatch)
      else if OperationOf(r.preview) != c.operation || ProjectOf(r.preview) != c.project then Refused(ApprovalMismatch)
      else if !r.granted then Refused(ApprovalInvalid)
      else Decide(d.vault, r.preview, m)
  }

  /** The one transaction of an approved action: its effect, the spent challenge, the receipt. */
  ghost function Settle(d: Desk, r: Request, capability: Id, m: Moment, op: Op): Desk
    requires Settles(op)
    requires r.nonce in d.challenges
  {
    var c := d.challenges[r.nonce];
    Desk(ApplyOp(d.vault, op),
         d.challenges[r.nonce := c.(used := Some(m.now))],
         d.results[r.nonce := Saved(capability, c.project, c.operation, c.digest, AnswerOf(d.vault, op))])
  }

  /** A new challenge; spent and expired ones are swept away first. */
  function Challenged(d: Desk, nonce: Id, p: Preview, clock: Time, expires: Time): Desk {
    d.(challenges := Kept(d.challenges, clock)[nonce := Challenge(OperationOf(p), ProjectOf(p), p, expires, None)])
  }

  function Kept(challenges: map<Id, Challenge>, clock: Time): map<Id, Challenge> {
    map n | n in challenges && !(challenges[n].expires < clock || challenges[n].used.Some?) :: challenges[n]
  }

  /** The operation and the project of a preview. */
  ghost predicate Names(operation: Operation, project: Project, p: Preview) {
    match operation
    case DoRemember => p.RememberThis? && p.content.project == project
    case DoAccept => p.AcceptThis? && p.content.project == project
    case DoCorrect => p.CorrectThis? && p.content.project == project
    case DoReject => p.RejectThis? && p.project == project
    case DoForget => (p.ForgetMemory? || p.ForgetDraft?) && p.project == project
  }

  /** Storing a challenge keeps exactly the others that are neither spent nor expired, as they are; the new one is
      unspent, for exactly the preview that was shown. */
  lemma ChallengesKept(d: Desk, nonce: Id, p: Preview, clock: Time, expires: Time)
    ensures var d1 := Challenged(d, nonce, p, clock, expires);
            && d1 == d.(challenges := d1.challenges)
            && nonce in d1.challenges && d1.challenges[nonce].used == None && d1.challenges[nonce].digest == p
            && d1.challenges[nonce].expires == expires
            && Names(d1.challenges[nonce].operation, d1.challenges[nonce].project, p)
            && (forall n | n != nonce ::
                  n in d1.challenges <==> n in d.challenges && d.challenges[n].used == None && clock <= d.challenges[n].expires)
            && (forall n | n != nonce && n in d1.challenges :: d1.challenges[n] == d.challenges[n])
  {
  }

  /** An unspent challenge has no receipt, a spent one has; every stored preview is one that was
      shown to the owner. */
  ghost predicate DeskInv(d: Desk) {
    && VaultInv(d.vault)
    && (forall n | n in d.challenges :: d.challenges[n].used.Some? <==> n in d.results)
    && (forall n | n in d.challenges :: PreviewOk(d.challenges[n].digest))
  }

  lemma ChallengedKeepsDesk(d: Desk, nonce: Id, p: Preview, clock: Time, expires: Time)
    requires DeskInv(d) && PreviewOk(p) && nonce !in d.results
    ensures DeskInv(Challenged(d, nonce, p, clock, expires))
  {
  }

  lemma SettleKeepsDesk(d: Desk, r: Request, capability: Id, clock: Time, m: Moment)
    requires DeskInv(d) && Unused(d.vault, m.draw)
    ensures match ApplyCheck(d, r, clock, m)
            case Refused(_) => true
            case Done(op) => r.nonce in d.challenges && Settles(op) && DeskInv(Settle(d, r, capability, m, op))
  {
    hide VaultInv, PreviewOk, Unused, Decide, Settles, ApplyOp, AnswerOf;
    var check := ApplyCheck(d, r, clock, m);
    if check.Done? {
      assert PreviewOk(d.challenges[r.nonce].digest);
      DecidedIsDoable(d.vault, r.preview, m);
      OpKeepsVault(d.vault, check.value);
    }
  }
}
