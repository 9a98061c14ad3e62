/** Every content table of the schema, and the transactions that change them. */
module Vault {
  import opened Basics
  import opened Ledger

  datatype Code =
    | NotFound | StalePreview | InvalidTransition | DuplicateClaim | RetentionExpired
    | DeliverySuppressed | IdempotencyConflict | IntegrityError | PolicyDenied
    | InvalidRequest | ApprovalInvalid | ApprovalReplay | ApprovalExpired | ApprovalMismatch | AuditRecoveryRefused

  datatype Result<+T> = Done(value: T) | Refused(code: Code)

  /** The reviewed content of an admission, whoever wrote it. */
  datatype Content = Content(
    project: Project, subject: string, key: string, claim: string, evidence: string, locator: string,
    classification: string, retention: Retention, disclosure: set<Provider>, precision: Precision, validFrom: Option<Time>, validTo: Option<Time>)

  /** Older databases may still hold rejected drafts; rejecting one now purges it. */
  datatype Status = Proposed | Accepted | RejectedEarlier

  datatype Delivery = Delivery(project: Project, provider: Provider, key: string)

  datatype Proposal = Proposal(
    content: Content, source: Provider, deliveryKey: string, status: Status, created: nat, accepted: Option<Id>)

  datatype Disposition = WasForgotten | WasRejected | WasExpired

  datatype Tombstone = Tombstone(proposal: Id, disposition: Disposition, purged: nat)

  datatype ActivityKind = AgentProposal | UserRemember | ProposalAcceptance | UserCorrection

  /** What an activity started from; the prefix of an id (`prp_`, `asr_`) says which table it is from. */
  datatype Input = Draft(id: Id) | Corrected(version: Id)

  datatype Activity = Activity(project: Project, target: Id, kind: ActivityKind, inputs: seq<Input>, created: nat)

  datatype Evidence = Evidence(project: Project, body: string, created: nat)

  datatype Relation = Relation(from: Id, to: Id, created: nat)

  datatype Feedback = Feedback(project: Project, recall: Id, assertion: Id, created: nat)

  datatype Recall = Recall(project: Project, provider: Provider, results: seq<Id>)

  datatype Conflict = Conflict(project: Project, thread: Id, resolved: Option<nat>)

  datatype Receipt = Receipt(project: Project, target: Id, sequence: nat)

  datatype Vault = Vault(
    book: Book,
    evidence: map<Id, Evidence>,
    evidenceRefs: set<(Id, Id)>,          // (evidence, assertion)
    attestations: map<Id, Id>,            // row -> assertion
    consents: map<Id, Id>,                // row -> assertion
    fts: map<Id, Id>,                     // row -> assertion
    relations: map<Id, Relation>,
    provenance: map<Id, Activity>,
    proposals: map<Id, Proposal>,
    reviews: map<Id, Id>,                 // row -> proposal
    conflicts: map<Id, Conflict>,
    conflictMembers: set<(Id, Id)>,       // (conflict, assertion)
    feedback: map<Id, Feedback>,
    recalls: map<Id, Recall>,
    tombstones: map<Delivery, Tombstone>,
    receipts: map<Id, Receipt>)

  /** The ids `random_id` draws for one admission. */
  datatype Draw = Draw(
    thread: Id, assertion: Id, evidence: Id, attested: set<Id>, consent: Id, indexed: Id, activity: Id,
    relation: Id, review: Id)

  datatype Origin = Remembered | FromProposal(proposal: Id) | Corrects(target: Id)

  datatype Op =
    | Accept(content: Content, origin: Origin, draw: Draw, now: Time)
    | Propose(id: Id, content: Content, source: Provider, deliveryKey: string, activity: Id, now: Time)
    | Purge(id: Id, disposition: Disposition)
    | ExpireVersion(id: Id, now: Time)
    | Spend                               // a sequence number drawn for a row that was no longer due
    | ResolveConflicts(project: Project, sequence: nat)
    | ForgetThread(thread: Id, receipt: Id)
    | ForgetProposal(id: Id, receipt: Id)
    | SaveFeedback(id: Id, feedback: Feedback)
    | SaveRecall(id: Id, recall: Recall)

  // ---------------------------------------------------------------- rows by what they refer to

  function RowsInto(rows: map<Id, Id>, ids: set<Id>): map<Id, Id> {
    map r | r in rows && rows[r] in ids :: rows[r]
  }

  function RowsElsewhere(rows: map<Id, Id>, ids: set<Id>): map<Id, Id> {
    map r | r in rows && rows[r] !in ids :: rows[r]
  }

  function RefsOf(refs: set<(Id, Id)>, ids: set<Id>): set<(Id, Id)> {
    set r | r in refs && r.1 in ids
  }

  function RefsElsewhere(refs: set<(Id, Id)>, ids: set<Id>): set<(Id, Id)> {
    set r | r in refs && r.1 !in ids
  }

  function RelationsOf(relations: map<Id, Relation>, ids: set<Id>): map<Id, Relation> {
    map r | r in relations && (relations[r].from in ids || relations[r].to in ids) :: relations[r]
  }

  function RelationsElsewhere(relations: map<Id, Relation>, ids: set<Id>): map<Id, Relation> {
    map r | r in relations && relations[r].from !in ids && relations[r].to !in ids :: relations[r]
  }

  function FeedbackOn(feedback: map<Id, Feedback>, ids: set<Id>): map<Id, Feedback> {
    map r | r in feedback && feedback[r].assertion in ids :: feedback[r]
  }

  function ConflictsOn(conflicts: map<Id, Conflict>, threadId: Id): map<Id, Conflict> {
    map c | c in conflicts && conflicts[c].thread == threadId :: conflicts[c]
  }

  function MembersOf(members: set<(Id, Id)>, conflicts: set<Id>, ids: set<Id>): set<(Id, Id)> {
    set m | m in members && (m.0 in conflicts || m.1 in ids)
  }

  function MembersElsewhere(members: set<(Id, Id)>, conflicts: set<Id>, ids: set<Id>): set<(Id, Id)> {
    set m | m in members && m.0 !in conflicts && m.1 !in ids
  }

  function ProvenanceOf(provenance: map<Id, Activity>, project: Project, targets: set<Id>): map<Id, Activity> {
    map a | a in provenance && provenance[a].project == project && provenance[a].target in targets :: provenance[a]
  }

  // ---------------------------------------------------------------- schema-level deletes

  function DeliveryOf(p: Proposal): Delivery {
    Delivery(p.content.project, p.source, p.deliveryKey)
  }

  /** `DELETE FROM proposals WHERE id=?`: reviews cascade. */
  function DeleteProposal(v: Vault, id: Id): Vault {
    v.(proposals := v.proposals - {id}, reviews := RowsElsewhere(v.reviews, {id}))
  }

  /** `DELETE FROM evidence WHERE id=?`: references cascade, version columns become NULL. */
  function DeleteEvidence(v: Vault, id: Id): Vault {
    v.(evidence := v.evidence - {id},
       evidenceRefs := (set r | r in v.evidenceRefs && r.0 != id),
       book := v.book.(versions := map a | a in v.book.versions ::
                 if v.book.versions[a].evidence == Some(id) then v.book.versions[a].(evidence := None)
                 else v.book.versions[a]))
  }

  function DeleteThreadRows(b: Book, threadId: Id): Book {
    var gone := VersionsOf(b, threadId);
    b.(threads := b.threads - {threadId}, versions := b.versions - gone,
       disclosures := (set d | d in b.disclosures && d.0 !in gone))
  }

  /** `DELETE FROM claim_threads WHERE id=?` with every cascade of the schema. A proposal that
      still names a deleted version blocks the statement. */
  function DeleteThread(v: Vault, threadId: Id): Option<Vault> {
    var gone := VersionsOf(v.book, threadId);
    var conflicts := ConflictsOn(v.conflicts, threadId).Keys;
    if exists p | p in v.proposals :: v.proposals[p].accepted.Some? && v.proposals[p].accepted.value in gone then None
    else Some(v.(
      book := DeleteThreadRows(v.book, threadId),
      evidenceRefs := RefsElsewhere(v.evidenceRefs, gone),
      attestations := RowsElsewhere(v.attestations, gone),
      consents := RowsElsewhere(v.consents, gone),
      relations := RelationsElsewhere(v.relations, gone),
      conflicts := v.conflicts - conflicts,
      conflictMembers := MembersElsewhere(v.conflictMembers, conflicts, gone)))
  }

  // ---------------------------------------------------------------- admissions

  ghost function ThreadFor(b: Book, project: Project, key: string): Option<Id> {
    if exists t :: t in b.threads && b.threads[t].project == project && b.threads[t].key == key
    then (var t :| t in b.threads && b.threads[t].project == project && b.threads[t].key == key; Some(t))
    else None
  }

  predicate Lapsed(retention: Retention, now: Time) {
    retention.Until? && retention.deadline <= now
  }

  function RowOf(c: Content, threadId: Id, evidence: Option<Id>): Version {
    Version(threadId, c.project, evidence, c.claim, c.retention, c.precision, c.validFrom, c.validTo,
            Active, 0, None, None)
  }

  /** What `_valid_time` lets through. */
  predicate ProperContent(c: Content) {
    && OrderedBounds(RowOf(c, "", None))
    && (c.precision == Instant ==> c.validFrom.Some? && c.validTo == c.validFrom)
    && (c.precision == Interval ==> c.validFrom.Some? && c.validTo.Some?)
    && (c.precision == Open ==> c.validFrom.Some? || c.validTo.Some?)
  }

  /** What the final write boundary checks, in its order. */
  ghost function AcceptCheck(v: Vault, c: Content, origin: Origin, now: Time): Result<()> {
    var threadId := ThreadFor(v.book, c.project, c.key);
    if Lapsed(c.retention, now) then Refused(RetentionExpired)
    else if origin.Corrects? then
      if threadId.Some? && Current(v.book, origin.target) && v.book.versions[origin.target].thread == threadId.value
      then Done(()) else Refused(InvalidTransition)
    else if threadId.Some? && AlreadyCurrent(v.book, threadId.value, c.claim) then Refused(DuplicateClaim)
    else Done(())
  }

  predicate AlreadyCurrent(b: Book, threadId: Id, claim: string) {
    exists a | a in b.versions :: Current(b, a) && b.versions[a].thread == threadId && b.versions[a].body == claim
  }

  ghost predicate CanAccept(v: Vault, op: Op)
    requires op.Accept?
  {
    && AcceptCheck(v, op.content, op.origin, op.now).Done?
    && ProperContent(op.content)
    && Unused(v, op.draw)
    && (op.origin.FromProposal? ==>
          && op.origin.proposal in v.proposals
          && v.proposals[op.origin.proposal].status == Proposed
          && v.proposals[op.origin.proposal].content == op.content)
  }

  /** Random ids do not collide with stored ones. */
  predicate Unused(v: Vault, d: Draw) {
    && d.thread !in v.book.threads && d.assertion !in v.book.versions && d.evidence !in v.evidence
    && (forall a | a in d.attested :: a !in v.attestations)
    && d.consent !in v.consents && d.indexed !in v.fts && d.activity !in v.provenance
    && d.relation !in v.relations && d.review !in v.reviews
    && forall p | p in v.provenance :: v.provenance[p].target != d.assertion
  }

  ghost function AdmitOf(v: Vault, op: Op): Step
    requires op.Accept?
  {
    var c := op.content;
    var found := ThreadFor(v.book, c.project, c.key);
    var threadId := if found.Some? then found.value else op.draw.thread;
    var thread := if found.Some? then v.book.threads[found.value] else Thread(c.project, c.subject, c.key);
    Admit(op.draw.assertion, RowOf(c, threadId, if c.evidence != "" then Some(op.draw.evidence) else None),
          thread, c.disclosure, if op.origin.Corrects? then Some(op.origin.target) else None, op.now)
  }

  function ActivityOf(op: Op, sequence: nat): Activity
    requires op.Accept?
  {
    var (kind, inputs) := match op.origin
                          case Remembered => (UserRemember, [])
                          case FromProposal(p) => (ProposalAcceptance, [Draft(p)])
                          case Corrects(t) => (UserCorrection, [Corrected(t)]);
    Activity(op.content.project, op.draw.assertion, kind, inputs, sequence)
  }

  /** The author, recorder and authorizer rows of one admission. */
  function Attested(d: Draw): map<Id, Id> {
    map a | a in d.attested :: d.assertion
  }

  ghost function AcceptOp(v: Vault, op: Op): Vault
    requires op.Accept? && CanAccept(v, op)
  {
    var d := op.draw;
    var s := v.book.sequence + 1;
    var backed := op.content.evidence != "";
    v.(book := Apply(v.book, AdmitOf(v, op)),
       evidence := if backed then v.evidence[d.evidence := Evidence(op.content.project, op.content.evidence, s)]
                   else v.evidence,
       evidenceRefs := if backed then v.evidenceRefs + {(d.evidence, d.assertion)} else v.evidenceRefs,
       attestations := v.attestations + Attested(d),
       consents := v.consents[d.consent := d.assertion],
       fts := v.fts[d.indexed := d.assertion],
       provenance := v.provenance[d.activity := ActivityOf(op, s)],
       relations := if op.origin.Corrects? then v.relations[d.relation := Relation(d.assertion, op.origin.target, s)]
                    else v.relations,
       proposals := if op.origin.FromProposal? then
                      v.proposals[op.origin.proposal :=
                        v.proposals[op.origin.proposal].(status := Accepted, accepted := Some(d.assertion))]
                    else v.proposals,
       reviews := if op.origin.FromProposal? then v.reviews[d.review := op.origin.proposal] else v.reviews)
  }

  // ---------------------------------------------------------------- proposals

  predicate Suppressed(v: Vault, k: Delivery) {
    k in v.tombstones
  }

  function Live(proposals: map<Id, Proposal>, k: Delivery): set<Id> {
    set p | p in proposals && DeliveryOf(proposals[p]) == k
  }

  predicate CanPropose(v: Vault, op: Op)
    requires op.Propose?
  {
    var k := Delivery(op.content.project, op.source, op.deliveryKey);
    && !Suppressed(v, k) && Live(v.proposals, k) == {} && !Lapsed(op.content.retention, op.now)
    && op.id !in v.proposals && op.id !in v.book.versions && op.activity !in v.provenance && ProperContent(op.content)
  }

  function ProposeOp(v: Vault, op: Op): Vault
    requires op.Propose?
  {
    var s := v.book.sequence + 1;
    v.(book := Apply(v.book, Tick),
       proposals := v.proposals[op.id := Proposal(op.content, op.source, op.deliveryKey, Proposed, s, None)],
       provenance := v.provenance[op.activity := Activity(op.content.project, op.id, AgentProposal, [], s)])
  }

  /** One round of `purge_proposals`: tombstone (insert or ignore), provenance, proposal. */
  function PurgeOne(v: Vault, id: Id, sequence: nat, disposition: Disposition): Vault
    requires id in v.proposals
  {
    var p := v.proposals[id];
    var k := DeliveryOf(p);
    DeleteProposal(
      v.(tombstones := if k in v.tombstones then v.tombstones else v.tombstones[k := Tombstone(id, disposition, sequence)],
         provenance := map a | a in v.provenance
                               && !(v.provenance[a].project == p.content.project && v.provenance[a].target == id)
                         :: v.provenance[a]),
      id)
  }

  // ---------------------------------------------------------------- forget

  /** The exact state `forget_scope` reads. Its identifiers are what the owner approves; its
      digest is modelled as the state itself. */
  datatype Scope = Scope(
    thread: Thread, versions: map<Id, Version>, attestations: map<Id, Id>, consents: map<Id, Id>,
    feedback: map<Id, Feedback>, disclosures: set<(Id, Provider)>, evidenceRefs: set<(Id, Id)>,
    sharedRefs: set<(Id, Id)>, ownedEvidence: map<Id, Evidence>, retainedEvidence: map<Id, Evidence>,
    proposals: map<Id, Proposal>, reviews: map<Id, Id>, provenance: map<Id, Activity>,
    relations: map<Id, Relation>, conflicts: map<Id, Conflict>, conflictMembers: set<(Id, Id)>,
    fts: map<Id, Id>, recalls: map<Id, Recall>)

  function ProposalsOn(v: Vault, thread: Thread): map<Id, Proposal> {
    map p | p in v.proposals && v.proposals[p].content.project == thread.project
            && v.proposals[p].content.key == thread.key :: v.proposals[p]
  }

  /** Evidence that a version outside `gone` also references. */
  predicate SharedOutside(v: Vault, e: Id, gone: set<Id>) {
    exists r | r in v.evidenceRefs :: r.0 == e && r.1 !in gone
  }

  function ReferencedBy(v: Vault, gone: set<Id>): set<Id> {
    set r | r in RefsOf(v.evidenceRefs, gone) :: r.0
  }

  predicate Mentions(recall: Recall, gone: set<Id>) {
    exists id | id in recall.results :: id in gone
  }

  function Mentioning(recalls: map<Id, Recall>, project: Project, gone: set<Id>): set<Id> {
    set r | r in recalls && recalls[r].project == project && Mentions(recalls[r], gone)
  }

  function ForgetScope(v: Vault, project: Project, threadId: Id): Option<Scope> {
    if threadId !in v.book.threads || v.book.threads[threadId].project != project then None
    else
      var thread := v.book.threads[threadId];
      var gone := VersionsOf(v.book, threadId);
      var evidence := ReferencedBy(v, gone);
      var proposals := ProposalsOn(v, thread);
      Some(Scope(
        thread,
        map a | a in gone :: v.book.versions[a],
        RowsInto(v.attestations, gone),
        RowsInto(v.consents, gone),
        FeedbackOn(v.feedback, gone),
        (set d | d in v.book.disclosures && d.0 in gone),
        RefsOf(v.evidenceRefs, gone),
        (set r | r in v.evidenceRefs && r.0 in evidence && r.1 !in gone),
        map e | e in v.evidence && e in evidence && !SharedOutside(v, e, gone) :: v.evidence[e],
        map e | e in v.evidence && e in evidence && SharedOutside(v, e, gone) :: v.evidence[e],
        proposals,
        RowsInto(v.reviews, proposals.Keys),
        ProvenanceOf(v.provenance, project, gone + proposals.Keys),
        RelationsOf(v.relations, gone),
        ConflictsOn(v.conflicts, threadId),
        MembersOf(v.conflictMembers, ConflictsOn(v.conflicts, threadId).Keys, gone),
        RowsInto(v.fts, gone),
        map r | r in Mentioning(v.recalls, project, gone) :: v.recalls[r]))
  }

  /** `[item for item in result_ids if item not in assertion_ids]`. */
  function Without(ids: seq<Id>, gone: set<Id>): seq<Id> {
    if ids == [] then []
    else (if ids[0] in gone then [] else [ids[0]]) + Without(ids[1..], gone)
  }

  /** The vault minus exactly the approved scope. */
  function Minus(v: Vault, s: Scope, threadId: Id): Vault {
    v.(book := Apply(v.book, Forget(threadId)),
       evidence := v.evidence - s.ownedEvidence.Keys,
       evidenceRefs := v.evidenceRefs - s.evidenceRefs,
       attestations := v.attestations - s.attestations.Keys,
       consents := v.consents - s.consents.Keys,
       fts := v.fts - s.fts.Keys,
       relations := v.relations - s.relations.Keys,
       provenance := v.provenance - s.provenance.Keys,
       proposals := v.proposals - s.proposals.Keys,
       reviews := v.reviews - s.reviews.Keys,
       conflicts := v.conflicts - s.conflicts.Keys,
       conflictMembers := v.conflictMembers - s.conflictMembers,
       feedback := v.feedback - s.feedback.Keys,
       recalls := map r | r in v.recalls ::
                    if r in s.recalls then v.recalls[r].(results := Without(v.recalls[r].results, s.versions.Keys))
                    else v.recalls[r])
  }

  function Graves(gone: map<Id, Proposal>, sequence: nat, disposition: Disposition): map<Delivery, Tombstone>
    requires UniqueDeliveries(gone)
  {
    map p | p in gone :: DeliveryOf(gone[p]) := Tombstone(p, disposition, sequence)
  }

  /** Suppression of every purged delivery: a tombstone per removed proposal. */
  function Suppress(tombstones: map<Delivery, Tombstone>, gone: map<Id, Proposal>, sequence: nat,
                    disposition: Disposition): map<Delivery, Tombstone>
    requires UniqueDeliveries(gone)
  {
    Graves(gone, sequence, disposition) + tombstones
  }

  predicate CanForget(v: Vault, threadId: Id) {
    threadId in v.book.threads && UniqueDeliveries(v.proposals)
  }

  function ForgetThreadOp(v: Vault, threadId: Id, receipt: Id): Vault
    requires CanForget(v, threadId)
  {
    var project := v.book.threads[threadId].project;
    var s := ForgetScope(v, project, threadId).value;
    var sequence := v.book.sequence + 1;
    Minus(v, s, threadId).(
      tombstones := Suppress(v.tombstones, s.proposals, sequence, WasForgotten),
      receipts := v.receipts[receipt := Receipt(project, threadId, sequence)])
  }

  /** `accepted_assertions_precondition`: memory a proposal was accepted into. */
  function AcceptedFrom(v: Vault, project: Project, proposal: Id): map<Id, Version> {
    map a | a in v.book.versions && Accepts(v, project, proposal, a) :: v.book.versions[a]
  }

  predicate Accepts(v: Vault, project: Project, proposal: Id, a: Id) {
    exists p | p in v.provenance :: v.provenance[p].project == project && v.provenance[p].target == a
      && v.provenance[p].kind == ProposalAcceptance && v.provenance[p].inputs == [Draft(proposal)]
  }

  /** The exact state `proposal_scope` reads, in place of its digest. */
  datatype ProposalScope = ProposalScope(
    proposal: Proposal, reviews: set<Id>, provenance: map<Id, Activity>, accepted: map<Id, Version>)

  function ScopeOfProposal(v: Vault, project: Project, id: Id): Option<ProposalScope> {
    if id !in v.proposals || v.proposals[id].content.project != project then None
    else Some(ProposalScope(
                v.proposals[id],
                set r | r in v.reviews && v.reviews[r] == id,
                map a | a in v.provenance && v.provenance[a].project == project && v.provenance[a].target == id
                  :: v.provenance[a],
                AcceptedFrom(v, project, id)))
  }

  predicate CanForgetProposal(v: Vault, id: Id) {
    id in v.proposals && v.proposals[id].status != Accepted
    && AcceptedFrom(v, v.proposals[id].content.project, id) == map[]
  }

  function ForgetProposalOp(v: Vault, id: Id, receipt: Id): Vault
    requires id in v.proposals
  {
    var s := v.book.sequence + 1;
    PurgeOne(v.(book := Apply(v.book, Tick)), id, s, WasForgotten)
      .(receipts := v.receipts[receipt := Receipt(v.proposals[id].content.project, id, s)])
  }

  // ---------------------------------------------------------------- operations

  /** Members of a legacy conflict that are still active. */
  function ActiveMembers(v: Vault, conflict: Id): set<Id> {
    set m | m in v.conflictMembers && m.0 == conflict && Current(v.book, m.1) :: m.1
  }

  function ResolveConflictsOp(v: Vault, project: Project, sequence: nat): Vault {
    v.(conflicts := map c | c in v.conflicts ::
         if v.conflicts[c].project == project && v.conflicts[c].resolved == None && |ActiveMembers(v, c)| < 2
         then v.conflicts[c].(resolved := Some(sequence)) else v.conflicts[c])
  }

  ghost predicate CanDo(v: Vault, op: Op) {
    match op
    case Accept(_, _, _, _) => CanAccept(v, op)
    case Propose(_, _, _, _, _, _) => CanPropose(v, op)
    case Purge(id, _) => id in v.proposals
    case ExpireVersion(id, now) => Enabled(v.book, Expire(id, now))
    case ResolveConflicts(_, _) => true
    case Spend => true
    case ForgetThread(threadId, _) => CanForget(v, threadId)
    case ForgetProposal(id, _) => CanForgetProposal(v, id)
    case SaveFeedback(id, f) => id !in v.feedback
    case SaveRecall(id, _) => id !in v.recalls
  }

  /** One committed transaction; an operation whose checks fail changes nothing. */
  ghost function ApplyOp(v: Vault, op: Op): Vault {
    if !CanDo(v, op) then v
    else
      match op
      case Accept(_, _, _, _) => AcceptOp(v, op)
      case Propose(_, _, _, _, _, _) => ProposeOp(v, op)
      case Purge(id, disposition) =>
        PurgeOne(v.(book := Apply(v.book, Tick)), id, v.book.sequence + 1, disposition)
      case ExpireVersion(id, now) => v.(book := Apply(v.book, Expire(id, now)))
      case Spend => v.(book := Apply(v.book, Tick))
      case ResolveConflicts(project, sequence) => ResolveConflictsOp(v, project, sequence)
      case ForgetThread(threadId, receipt) => ForgetThreadOp(v, threadId, receipt)
      case ForgetProposal(id, receipt) => ForgetProposalOp(v, id, receipt)
      case SaveFeedback(id, f) =>
        v.(book := Apply(v.book, Tick), feedback := v.feedback[id := f.(created := v.book.sequence + 1)])
      case SaveRecall(id, r) => v.(recalls := v.recalls[id := r])
  }

  ghost function RunOps(v: Vault, ops: seq<Op>): Vault
    decreases |ops|
  {
    if ops == [] then v else RunOps(ApplyOp(v, ops[0]), ops[1..])
  }

  // ---------------------------------------------------------------- invariants

  function EvidenceColumn(b: Book): map<Id, Option<Id>> {
    map a | a in b.versions :: b.versions[a].evidence
  }

  function ThreadColumn(b: Book): map<Id, Id> {
    map a | a in b.versions :: b.versions[a].thread
  }

  function IngestColumn(b: Book): map<Id, nat> {
    map a | a in b.versions :: b.versions[a].ingest
  }

  ghost predicate UniqueThreads(threads: map<Id, Thread>) {
    forall s, t | s in threads && t in threads
                  && threads[s].project == threads[t].project && threads[s].key == threads[t].key :: s == t
  }

  ghost predicate PointInto(rows: map<Id, Id>, ids: set<Id>) {
    forall r | r in rows :: rows[r] in ids
  }

  ghost predicate PairsOk(pairs: set<(Id, Id)>, left: set<Id>, right: set<Id>) {
    forall p | p in pairs :: p.0 in left && p.1 in right
  }

  ghost predicate RelationsOk(relations: map<Id, Relation>, versions: set<Id>) {
    forall r | r in relations :: relations[r].from in versions && relations[r].to in versions
  }

  ghost predicate ConflictsOk(conflicts: map<Id, Conflict>, threads: set<Id>) {
    forall c | c in conflicts :: conflicts[c].thread in threads
  }

  /** No foreign key of the schema is left dangling. (`accepted_assertion_id` is part of
      `AcceptedInThread`; the keys inside `book` are part of its own invariant.) */
  ghost predicate ForeignKeysHold(v: Vault) {
    var versions := v.book.versions.Keys;
    && PairsOk(v.evidenceRefs, v.evidence.Keys, versions)
    && PointInto(v.attestations, versions)
    && PointInto(v.consents, versions)
    && PointInto(v.reviews, v.proposals.Keys)
    && RelationsOk(v.relations, versions)
    && ConflictsOk(v.conflicts, v.book.threads.Keys)
    && PairsOk(v.conflictMembers, v.conflicts.Keys, versions)
  }

  /** A version's evidence column is one of its rows in `evidence_refs`. */
  ghost predicate EvidenceBacked(column: map<Id, Option<Id>>, refs: set<(Id, Id)>) {
    forall a | a in column && column[a].Some? :: (column[a].value, a) in refs
  }

  /** The full-text index holds exactly one row for each stored version. */
  ghost predicate IndexMatches(fts: map<Id, Id>, versions: set<Id>) {
    && PointInto(fts, versions)
    && (forall a | a in versions :: Indexed(fts, a))
    && (forall r, q | r in fts && q in fts && fts[r] == fts[q] :: r == q)
  }

  ghost predicate Indexed(fts: map<Id, Id>, a: Id) {
    exists r :: r in fts && fts[r] == a
  }

  /** An accepted proposal points into the thread its subject names. */
  ghost predicate AcceptedInThread(proposals: map<Id, Proposal>, column: map<Id, Id>, threads: map<Id, Thread>) {
    forall p | p in proposals && proposals[p].accepted.Some? :: AcceptedThere(proposals[p], column, threads)
  }

  ghost predicate AcceptedThere(p: Proposal, column: map<Id, Id>, threads: map<Id, Thread>)
    requires p.accepted.Some?
  {
    var a := p.accepted.value;
    && p.status == Accepted
    && a in column && column[a] in threads
    && threads[column[a]].project == p.content.project && threads[column[a]].key == p.content.key
  }

  /** A correction is recorded with the thread of the version it corrects, so the provenance that
      names a version goes when the thread does. */
  ghost predicate CorrectionsInThread(provenance: map<Id, Activity>, column: map<Id, Id>, threads: map<Id, Thread>) {
    forall p, i | p in provenance && i in provenance[p].inputs && i.Corrected? ::
      CorrectedThere(provenance[p], i.version, column, threads)
  }

  ghost predicate CorrectedThere(p: Activity, a: Id, column: map<Id, Id>, threads: map<Id, Thread>) {
    && a in column && p.target in column && column[p.target] == column[a]
    && column[a] in threads && threads[column[a]].project == p.project
  }

  /** What is recorded about a version is recorded in the transaction that ingested it. */
  ghost predicate ActivitiesDated(provenance: map<Id, Activity>, ingests: map<Id, nat>) {
    forall p | p in provenance && provenance[p].target in ingests :: provenance[p].created == ingests[provenance[p].target]
  }

  predicate UniqueDeliveries(proposals: map<Id, Proposal>) {
    forall i, j | i in proposals && j in proposals && DeliveryOf(proposals[i]) == DeliveryOf(proposals[j]) :: i == j
  }

  /** A delivery is never both live and tombstoned. */
  ghost predicate NeverRevived(proposals: map<Id, Proposal>, tombstones: map<Delivery, Tombstone>) {
    forall p | p in proposals :: DeliveryOf(proposals[p]) !in tombstones
  }

  ghost predicate ContentProper(proposals: map<Id, Proposal>) {
    forall p | p in proposals :: ProperContent(proposals[p].content)
  }

  ghost predicate ProposalsOk(v: Vault) {
    && AcceptedInThread(v.proposals, ThreadColumn(v.book), v.book.threads)
    && UniqueDeliveries(v.proposals)
    && NeverRevived(v.proposals, v.tombstones)
    && ContentProper(v.proposals)
  }

  ghost predicate VaultInv(v: Vault) {
    && Inv(v.book) && UniqueThreads(v.book.threads)
    && ForeignKeysHold(v)
    && EvidenceBacked(EvidenceColumn(v.book), v.evidenceRefs)
    && IndexMatches(v.fts, v.book.versions.Keys)
    && CorrectionsInThread(v.provenance, ThreadColumn(v.book), v.book.threads)
    && ActivitiesDated(v.provenance, IngestColumn(v.book))
    && ProposalsOk(v)
  }

  /** A vault right after bootstrap. */
  ghost predicate FreshVault(v: Vault) {
    && Ledger.Fresh(v.book) && v.evidence == map[] && v.evidenceRefs == {} && v.attestations == map[] && v.consents == map[]
    && v.fts == map[] && v.relations == map[] && v.provenance == map[] && v.proposals == map[] && v.reviews == map[]
    && v.conflicts == map[] && v.conflictMembers == {} && v.feedback == map[] && v.recalls == map[]
    && v.tombstones == map[]
  }

  lemma FreshVaultInv(v: Vault)
    requires FreshVault(v)
    ensures VaultInv(v)
  {
  }

  // ---------------------------------------------------------------- preservation: tables

  lemma PointIntoMore(rows: map<Id, Id>, more: map<Id, Id>, ids: set<Id>, ids1: set<Id>)
    requires PointInto(rows, ids) && ids <= ids1 && PointInto(more, ids1)
    ensures PointInto(rows + more, ids1)
  {
  }

  lemma PointIntoOne(rows: map<Id, Id>, r: Id, id: Id, ids: set<Id>, ids1: set<Id>)
    requires PointInto(rows, ids) && ids <= ids1 && id in ids1
    ensures PointInto(rows[r := id], ids1)
  {
  }

  lemma PairsOkOne(pairs: set<(Id, Id)>, left: set<Id>, right: set<Id>, l: Id, r: Id)
    requires PairsOk(pairs, left, right)
    ensures PairsOk(pairs + {(l, r)}, left + {l}, right + {r})
  {
  }

  lemma PairsOkWider(pairs: set<(Id, Id)>, left: set<Id>, right: set<Id>, left1: set<Id>, right1: set<Id>)
    requires PairsOk(pairs, left, right) && left <= left1 && right <= right1
    ensures PairsOk(pairs, left1, right1)
  {
  }

  lemma RelationsOkOne(relations: map<Id, Relation>, ids: set<Id>, r: Id, relation: Relation, ids1: set<Id>)
    requires RelationsOk(relations, ids) && ids <= ids1 && relation.from in ids1 && relation.to in ids1
    ensures RelationsOk(relations, ids1) && RelationsOk(relations[r := relation], ids1)
  {
  }

  lemma ConflictsOkWider(conflicts: map<Id, Conflict>, threads: set<Id>, threads1: set<Id>)
    requires ConflictsOk(conflicts, threads) && threads <= threads1
    ensures ConflictsOk(conflicts, threads1)
  {
  }

  lemma IndexMatchesOne(fts: map<Id, Id>, ids: set<Id>, r: Id, id: Id)
    requires IndexMatches(fts, ids) && r !in fts && id !in ids
    ensures IndexMatches(fts[r := id], ids + {id})
  {
    PointIntoOne(fts, r, id, ids, ids + {id});
    forall a | a in ids + {id} ensures Indexed(fts[r := id], a) {
      if a == id {
        assert fts[r := id][r] == a;
      } else {
        assert Indexed(fts, a);
        var q :| q in fts && fts[q] == a;
        assert fts[r := id][q] == a;
      }
    }
  }

  // ---------------------------------------------------------------- preservation: admissions

  lemma AdmitIsEnabled(v: Vault, op: Op)
    requires VaultInv(v) && op.Accept? && CanAccept(v, op)
    ensures Enabled(v.book, AdmitOf(v, op))
  {
  }

  lemma AdmitKeys(b: Book, step: Step)
    requires step.Admit? && Enabled(b, step)
    ensures var b1 := Apply(b, step);
            && b1.threads == b.threads[step.row.thread := step.thread]
            && b1.versions.Keys == b.versions.Keys + {step.id}
  {
  }

  lemma AdmitColumns(b: Book, step: Step)
    requires step.Admit? && Enabled(b, step)
    ensures var b1 := Apply(b, step);
            && ThreadColumn(b1) == ThreadColumn(b)[step.id := step.row.thread]
            && EvidenceColumn(b1) == EvidenceColumn(b)[step.id := step.row.evidence]
  {
    hide Announce, Audience;
    AdmitKeys(b, step);
  }

  /** What an admission does to the keys and columns the other tables refer to. */
  lemma AdmitShape(v: Vault, op: Op)
    requires VaultInv(v) && op.Accept? && CanAccept(v, op)
    ensures var b1 := Apply(v.book, AdmitOf(v, op));
            var step := AdmitOf(v, op);
            && b1.threads == v.book.threads[step.row.thread := step.thread]
            && b1.versions.Keys == v.book.versions.Keys + {op.draw.assertion}
            && ThreadColumn(b1) == ThreadColumn(v.book)[op.draw.assertion := step.row.thread]
            && EvidenceColumn(b1) == EvidenceColumn(v.book)[op.draw.assertion := step.row.evidence]
            && op.draw.assertion !in v.book.versions
  {
    AdmitIsEnabled(v, op);
    hide VaultInv, Apply, EvidenceColumn, ThreadColumn, AcceptCheck, Current;
    AdmitKeys(v.book, AdmitOf(v, op));
    AdmitColumns(v.book, AdmitOf(v, op));
  }

  /** Every row an admission writes names rows that exist. */
  lemma AcceptNames(v: Vault, op: Op)
    requires VaultInv(v) && op.Accept? && CanAccept(v, op)
    ensures var w := AcceptOp(v, op);
            && w.book.versions.Keys == v.book.versions.Keys + {op.draw.assertion}
            && v.book.threads.Keys <= w.book.threads.Keys
            && w.proposals.Keys == v.proposals.Keys
            && (op.origin.Corrects? ==> op.origin.target in v.book.versions)
            && (op.origin.FromProposal? ==> op.origin.proposal in v.proposals)
  {
    AdmitShape(v, op);
    hide VaultInv, Apply, AdmitOf, EvidenceColumn, ThreadColumn, Unused;
  }

  lemma AcceptKeepsPointers(v: Vault, op: Op)
    requires VaultInv(v) && op.Accept? && CanAccept(v, op)
    ensures var w := AcceptOp(v, op);
            PointInto(w.attestations, w.book.versions.Keys) && PointInto(w.consents, w.book.versions.Keys)
  {
    AcceptNames(v, op);
    var ids, ids1 := v.book.versions.Keys, v.book.versions.Keys + {op.draw.assertion};
    var attested := Attested(op.draw);
    assert PointInto(attested, ids1);
    hide Inv, EvidenceBacked, IndexMatches, ProposalsOk, Apply, AdmitOf, UniqueThreads, CanAccept, PointInto, PairsOk,
      RelationsOk, ConflictsOk, EvidenceColumn, ThreadColumn;
    PointIntoMore(v.attestations, attested, ids, ids1);
    PointIntoOne(v.consents, op.draw.consent, op.draw.assertion, ids, ids1);
  }

  lemma AcceptKeepsLinks(v: Vault, op: Op)
    requires VaultInv(v) && op.Accept? && CanAccept(v, op)
    ensures var w := AcceptOp(v, op);
            PointInto(w.reviews, w.proposals.Keys) && RelationsOk(w.relations, w.book.versions.Keys)
  {
    hide Inv, EvidenceBacked, IndexMatches, ProposalsOk, Apply, AdmitOf, UniqueThreads, CanAccept, PointInto, PairsOk,
      RelationsOk, ConflictsOk, EvidenceColumn, ThreadColumn, ActivityOf;
    AcceptNames(v, op);
    var d, w := op.draw, AcceptOp(v, op);
    assert w.reviews == if op.origin.FromProposal? then v.reviews[d.review := op.origin.proposal] else v.reviews;
    if op.origin.FromProposal? {
      PointIntoOne(v.reviews, d.review, op.origin.proposal, v.proposals.Keys, w.proposals.Keys);
    }
    var target := if op.origin.Corrects? then op.origin.target else d.assertion;
    RelationsOkOne(v.relations, v.book.versions.Keys, d.relation, Relation(d.assertion, target, v.book.sequence + 1),
                   w.book.versions.Keys);
  }

  lemma AcceptKeepsKeys(v: Vault, op: Op)
    requires VaultInv(v) && op.Accept? && CanAccept(v, op)
    ensures ForeignKeysHold(AcceptOp(v, op))
  {
    AcceptNames(v, op);
    AcceptKeepsPointers(v, op);
    AcceptKeepsLinks(v, op);
    hide Inv, EvidenceBacked, IndexMatches, ProposalsOk, Apply, AdmitOf, UniqueThreads, CanAccept, PointInto, PairsOk,
      RelationsOk, ConflictsOk, EvidenceColumn, ThreadColumn;
    var d, w := op.draw, AcceptOp(v, op);
    var ids, ids1 := v.book.versions.Keys, w.book.versions.Keys;
    PairsOkOne(v.evidenceRefs, v.evidence.Keys, ids, d.evidence, d.assertion);
    PairsOkWider(v.evidenceRefs, v.evidence.Keys, ids, v.evidence.Keys, ids1);
    PairsOkWider(v.conflictMembers, v.conflicts.Keys, ids, v.conflicts.Keys, ids1);
    ConflictsOkWider(v.conflicts, v.book.threads.Keys, w.book.threads.Keys);
  }

  lemma AcceptKeepsEvidence(v: Vault, op: Op)
    requires VaultInv(v) && op.Accept? && CanAccept(v, op)
    ensures var w := AcceptOp(v, op);
            EvidenceBacked(EvidenceColumn(w.book), w.evidenceRefs)
  {
    hide Inv, ForeignKeysHold, IndexMatches, ProposalsOk, Apply, UniqueThreads, EvidenceColumn, ThreadColumn;
    AdmitShape(v, op);
  }

  lemma AcceptKeepsIndex(v: Vault, op: Op)
    requires VaultInv(v) && op.Accept? && CanAccept(v, op)
    ensures IndexMatches(AcceptOp(v, op).fts, AcceptOp(v, op).book.versions.Keys)
  {
    AdmitShape(v, op);
    IndexMatchesOne(v.fts, v.book.versions.Keys, op.draw.indexed, op.draw.assertion);
    hide VaultInv, IndexMatches, Apply, AdmitOf, AcceptCheck, EvidenceColumn, ThreadColumn;
  }

  /** The thread an admission goes to is the one thread its project and subject name. */
  lemma AdmitThread(v: Vault, op: Op)
    requires op.Accept? && op.draw.thread !in v.book.threads
    ensures var step := AdmitOf(v, op);
            var c := op.content;
            && step.thread.project == c.project && step.thread.key == c.key
            && (step.row.thread in v.book.threads ==> v.book.threads[step.row.thread] == step.thread)
            && (step.row.thread !in v.book.threads ==>
                  forall t | t in v.book.threads :: v.book.threads[t].project != c.project || v.book.threads[t].key != c.key)
  {
  }

  lemma AcceptKeepsThreads(v: Vault, op: Op)
    requires VaultInv(v) && op.Accept? && CanAccept(v, op)
    ensures UniqueThreads(AcceptOp(v, op).book.threads)
  {
    hide ActivitiesDated, CorrectionsInThread, Inv, ForeignKeysHold, EvidenceBacked, IndexMatches, ProposalsOk, Apply, AdmitOf;
    AdmitShape(v, op);
    AdmitThread(v, op);
  }

  lemma AcceptedStaysThere(p: Proposal, column: map<Id, Id>, threads: map<Id, Thread>,
                           a: Id, t: Id, thread: Thread)
    requires p.accepted.Some? && AcceptedThere(p, column, threads)
    requires a !in column && (t in threads ==> threads[t] == thread)
    ensures AcceptedThere(p, column[a := t], threads[t := thread])
  {
  }

  /** What `AcceptOp` writes to the proposals. */
  lemma AcceptMarks(v: Vault, op: Op)
    requires op.Accept? && CanAccept(v, op)
    ensures var w := AcceptOp(v, op);
            && w.tombstones == v.tombstones && w.proposals.Keys == v.proposals.Keys
            && (forall p | p in v.proposals ::
                  w.proposals[p] == if op.origin == FromProposal(p)
                                    then v.proposals[p].(status := Accepted, accepted := Some(op.draw.assertion))
                                    else v.proposals[p])
            && (op.origin.FromProposal? ==>
                  op.origin.proposal in v.proposals && v.proposals[op.origin.proposal].content == op.content)
  {
  }

  lemma AcceptKeepsAccepted(v: Vault, op: Op)
    requires VaultInv(v) && op.Accept? && CanAccept(v, op)
    ensures AcceptedInThread(AcceptOp(v, op).proposals, ThreadColumn(AcceptOp(v, op).book), AcceptOp(v, op).book.threads)
  {
    AdmitShape(v, op);
    AdmitThread(v, op);
    AcceptMarks(v, op);
    var step := AdmitOf(v, op);
    var column, threads := ThreadColumn(v.book), v.book.threads;
    assert op.draw.assertion !in column;
    var w := AcceptOp(v, op);
    assert w.book == Apply(v.book, step);
    hide ActivitiesDated, CorrectionsInThread, Inv, ForeignKeysHold, EvidenceBacked, IndexMatches, UniqueThreads, UniqueDeliveries, NeverRevived, ContentProper,
      Apply, AdmitOf, AcceptedThere, CanAccept, EvidenceColumn, ThreadColumn, AcceptOp;
    forall p | p in w.proposals && w.proposals[p].accepted.Some?
      ensures AcceptedThere(w.proposals[p], ThreadColumn(w.book), w.book.threads)
    {
      if op.origin == FromProposal(p) {
        JustAccepted(w.proposals[p], ThreadColumn(w.book), w.book.threads);
      } else {
        AcceptedStaysThere(v.proposals[p], column, threads, op.draw.assertion, step.row.thread, step.thread);
      }
    }
  }

  lemma SameDeliveries(old0: map<Id, Proposal>, new0: map<Id, Proposal>, tombstones: map<Delivery, Tombstone>)
    requires UniqueDeliveries(old0) && NeverRevived(old0, tombstones) && ContentProper(old0)
    requires new0.Keys <= old0.Keys
    requires forall p | p in new0 :: DeliveryOf(new0[p]) == DeliveryOf(old0[p]) && new0[p].content == old0[p].content
    ensures UniqueDeliveries(new0) && NeverRevived(new0, tombstones) && ContentProper(new0)
  {
  }

  lemma AcceptKeepsProposals(v: Vault, op: Op)
    requires VaultInv(v) && op.Accept? && CanAccept(v, op)
    ensures ProposalsOk(AcceptOp(v, op))
  {
    hide AcceptCheck, AdmitOf, Apply, Inv, ForeignKeysHold, EvidenceBacked, IndexMatches, UniqueThreads, AcceptedInThread, CanAccept,
      EvidenceColumn, ThreadColumn, AcceptOp, UniqueDeliveries, NeverRevived, ContentProper;
    AcceptKeepsAccepted(v, op);
    AcceptMarks(v, op);
    SameDeliveries(v.proposals, AcceptOp(v, op).proposals, v.tombstones);
  }

  lemma JustAccepted(p: Proposal, column: map<Id, Id>, threads: map<Id, Thread>)
    requires p.accepted.Some? && p.status == Accepted && p.accepted.value in column
    requires var t := column[p.accepted.value];
             t in threads && threads[t].project == p.content.project && threads[t].key == p.content.key
    ensures AcceptedThere(p, column, threads)
  {
  }

  lemma CorrectionsOneMore(provenance: map<Id, Activity>, r: Id, p: Activity, column: map<Id, Id>, threads: map<Id, Thread>,
                           t: Id, thread: Thread)
    requires CorrectionsInThread(provenance, column, threads)
    requires p.target !in column && p.project == thread.project && (t in threads ==> threads[t] == thread)
    requires forall i | i in p.inputs && i.Corrected? :: i.version in column && column[i.version] == t
    ensures CorrectionsInThread(provenance[r := p], column[p.target := t], threads[t := thread])
  {
  }

  /** The provenance row of an admission, and the thread of what it corrects. */
  lemma AcceptRecords(v: Vault, op: Op)
    requires VaultInv(v) && op.Accept? && CanAccept(v, op)
    ensures var activity := ActivityOf(op, v.book.sequence + 1);
            && AcceptOp(v, op).provenance == v.provenance[op.draw.activity := activity]
            && activity.target == op.draw.assertion && activity.project == op.content.project
            && (forall i | i in activity.inputs && i.Corrected? ::
                  i.version in v.book.versions && v.book.versions[i.version].thread == AdmitOf(v, op).row.thread)
  {
    hide ActivitiesDated, CorrectionsInThread, Inv, ForeignKeysHold, EvidenceBacked, IndexMatches, ProposalsOk, UniqueThreads, Apply;
  }

  lemma AcceptKeepsCorrections(v: Vault, op: Op)
    requires VaultInv(v) && op.Accept? && CanAccept(v, op)
    ensures var w := AcceptOp(v, op);
            CorrectionsInThread(w.provenance, ThreadColumn(w.book), w.book.threads)
  {
    var step, p := AdmitOf(v, op), ActivityOf(op, v.book.sequence + 1);
    assert AcceptOp(v, op).book == Apply(v.book, step);
    ColumnIsThread(v.book);
    hide *;
    InvHasCorrections(v);
    UnusedThread(v, op);
    AdmitShape(v, op);
    AdmitThread(v, op);
    AcceptRecords(v, op);
    CorrectionsOneMore(v.provenance, op.draw.activity, p, ThreadColumn(v.book), v.book.threads, step.row.thread, step.thread);
  }

  lemma ColumnIsThread(b: Book)
    ensures ThreadColumn(b).Keys == b.versions.Keys
    ensures forall a | a in b.versions :: ThreadColumn(b)[a] == b.versions[a].thread
  {
  }

  lemma InvHasCorrections(v: Vault)
    requires VaultInv(v)
    ensures CorrectionsInThread(v.provenance, ThreadColumn(v.book), v.book.threads)
  {
  }

  lemma UnusedThread(v: Vault, op: Op)
    requires op.Accept? && CanAccept(v, op)
    ensures op.draw.thread !in v.book.threads
  {
  }

  lemma AdmitIngest(b: Book, step: Step)
    requires step.Admit? && Enabled(b, step)
    ensures IngestColumn(Apply(b, step)) == IngestColumn(b)[step.id := b.sequence + 1]
  {
    hide Announce, Audience;
  }

  lemma DatedOneMore(provenance: map<Id, Activity>, r: Id, p: Activity, ingests: map<Id, nat>, a: Id, s: nat)
    requires ActivitiesDated(provenance, ingests) && p.target == a && p.created == s
    requires forall q | q in provenance :: provenance[q].target != a
    ensures ActivitiesDated(provenance[r := p], ingests[a := s])
  {
  }

  lemma AcceptKeepsDates(v: Vault, op: Op)
    requires VaultInv(v) && op.Accept? && CanAccept(v, op)
    ensures var w := AcceptOp(v, op);
            ActivitiesDated(w.provenance, IngestColumn(w.book))
  {
    hide *;
    var step, p := AdmitOf(v, op), ActivityOf(op, v.book.sequence + 1);
    AcceptedBook(v, op);
    RecordedActivity(op, v.book.sequence + 1);
    InvHasDates(v);
    UnusedTarget(v, op);
    AdmitIsEnabled(v, op);
    AdmitIngest(v.book, step);
    AcceptRecords(v, op);
    DatedOneMore(v.provenance, op.draw.activity, p, IngestColumn(v.book), op.draw.assertion, v.book.sequence + 1);
  }

  lemma AcceptedBook(v: Vault, op: Op)
    requires op.Accept? && CanAccept(v, op)
    ensures AcceptOp(v, op).book == Apply(v.book, AdmitOf(v, op))
    ensures AdmitOf(v, op).Admit? && AdmitOf(v, op).id == op.draw.assertion
  {
    hide Apply, CanAccept;
  }

  lemma RecordedActivity(op: Op, sequence: nat)
    requires op.Accept?
    ensures ActivityOf(op, sequence).target == op.draw.assertion && ActivityOf(op, sequence).created == sequence
  {
  }

  lemma InvHasDates(v: Vault)
    requires VaultInv(v)
    ensures ActivitiesDated(v.provenance, IngestColumn(v.book))
  {
    hide Inv, ForeignKeysHold, EvidenceBacked, IndexMatches, UniqueThreads, ProposalsOk, CorrectionsInThread, ActivitiesDated,
      IngestColumn;
  }

  lemma UnusedTarget(v: Vault, op: Op)
    requires op.Accept? && CanAccept(v, op)
    ensures forall p | p in v.provenance :: v.provenance[p].target != op.draw.assertion
  {
    hide AcceptCheck, ProperContent;
  }

  lemma AcceptKeepsVault(v: Vault, op: Op)
    requires VaultInv(v) && op.Accept? && CanAccept(v, op)
    ensures VaultInv(AcceptOp(v, op))
  {
    hide ActivitiesDated, CorrectionsInThread, Inv, ForeignKeysHold, EvidenceBacked, IndexMatches, ProposalsOk, UniqueThreads, Apply, CanAccept, AdmitOf;
    StepKeepsInv(v.book, AdmitOf(v, op));
    AcceptKeepsKeys(v, op);
    AcceptKeepsEvidence(v, op);
    AcceptKeepsIndex(v, op);
    AcceptKeepsCorrections(v, op);
    AcceptKeepsDates(v, op);
    AcceptKeepsThreads(v, op);
    AcceptKeepsProposals(v, op);
  }

  // ---------------------------------------------------------------- preservation: the rest

  /** Steps that keep the columns of the ledger keep everything that only reads columns. */
  lemma SameColumns(b: Book, step: Step)
    requires Inv(b) && (step.Tick? || step.Expire?)
    ensures var b1 := Apply(b, step);
            && b1.threads == b.threads && b1.versions.Keys == b.versions.Keys
            && EvidenceColumn(b1) == EvidenceColumn(b) && ThreadColumn(b1) == ThreadColumn(b)
            && IngestColumn(b1) == IngestColumn(b)
  {
    hide Inv, Announce, Audience;
  }

  lemma StepKeepsVault(v: Vault, step: Step)
    requires VaultInv(v) && (step.Tick? || step.Expire?)
    ensures VaultInv(v.(book := Apply(v.book, step)))
  {
    StepKeepsInv(v.book, step);
    SameColumns(v.book, step);
    hide Inv, UniqueThreads, EvidenceBacked, IndexMatches, AcceptedInThread, UniqueDeliveries, NeverRevived,
      ContentProper, Apply, EvidenceColumn, ThreadColumn, IngestColumn, PairsOk, PointInto, RelationsOk, ConflictsOk;
  }

  lemma PurgeKeepsVault(v: Vault, id: Id, sequence: nat, disposition: Disposition)
    requires VaultInv(v) && id in v.proposals
    ensures VaultInv(PurgeOne(v, id, sequence, disposition))
  {
  }

  lemma AddedProposal(proposals: map<Id, Proposal>, id: Id, p: Proposal, tombstones: map<Delivery, Tombstone>,
                      column: map<Id, Id>, threads: map<Id, Thread>)
    requires UniqueDeliveries(proposals) && NeverRevived(proposals, tombstones) && ContentProper(proposals)
    requires AcceptedInThread(proposals, column, threads)
    requires forall q | q in proposals :: DeliveryOf(proposals[q]) != DeliveryOf(p)
    requires DeliveryOf(p) !in tombstones && ProperContent(p.content) && p.accepted == None && id !in proposals
    ensures var more := proposals[id := p];
            && UniqueDeliveries(more) && NeverRevived(more, tombstones) && ContentProper(more)
            && AcceptedInThread(more, column, threads)
  {
  }

  lemma ProposeKeepsProposals(v: Vault, op: Op)
    requires VaultInv(v) && op.Propose? && CanPropose(v, op)
    ensures var w := ProposeOp(v, op);
            && PointInto(w.reviews, w.proposals.Keys)
            && UniqueDeliveries(w.proposals) && NeverRevived(w.proposals, w.tombstones) && ContentProper(w.proposals)
            && AcceptedInThread(w.proposals, ThreadColumn(v.book), v.book.threads)
  {
    hide Inv, UniqueThreads, EvidenceBacked, IndexMatches, EvidenceColumn, ThreadColumn, PairsOk, RelationsOk,
      ConflictsOk, AcceptedInThread, Apply, UniqueDeliveries, NeverRevived, ContentProper;
    var p := Proposal(op.content, op.source, op.deliveryKey, Proposed, v.book.sequence + 1, None);
    forall q | q in v.proposals ensures DeliveryOf(v.proposals[q]) != DeliveryOf(p) {
      assert q !in Live(v.proposals, Delivery(op.content.project, op.source, op.deliveryKey));
    }
    AddedProposal(v.proposals, op.id, p, v.tombstones, ThreadColumn(v.book), v.book.threads);
  }

  /** A draft is no version, so what is recorded about it needs no ingest. */
  lemma ProposeKeepsDates(v: Vault, op: Op)
    requires VaultInv(v) && op.Propose? && CanPropose(v, op)
    ensures ActivitiesDated(ProposeOp(v, op).provenance, IngestColumn(v.book))
  {
    hide Inv, UniqueThreads, EvidenceBacked, IndexMatches, CorrectionsInThread, ForeignKeysHold, ProposalsOk, Apply;
  }

  lemma ProposeKeepsVault(v: Vault, op: Op)
    requires VaultInv(v) && op.Propose? && CanPropose(v, op)
    ensures VaultInv(ProposeOp(v, op))
  {
    hide Inv, UniqueThreads, EvidenceBacked, IndexMatches, EvidenceColumn, ThreadColumn, IngestColumn, PairsOk, RelationsOk,
      PointInto, ConflictsOk, AcceptedInThread, ActivitiesDated, Apply, UniqueDeliveries, NeverRevived, ContentProper, CanPropose;
    ProposeKeepsProposals(v, op);
    ProposeKeepsDates(v, op);
    StepKeepsInv(v.book, Tick);
    SameColumns(v.book, Tick);
  }

  lemma ResolvingKeepsVault(v: Vault, project: Project, sequence: nat)
    requires VaultInv(v)
    ensures VaultInv(ResolveConflictsOp(v, project, sequence))
  {
  }

  lemma SavingKeepsVault(v: Vault, op: Op)
    requires VaultInv(v) && (op.SaveFeedback? || op.SaveRecall?)
    ensures VaultInv(ApplyOp(v, op))
  {
    StepKeepsVault(v, Tick);
    hide Inv, UniqueThreads, EvidenceBacked, IndexMatches, EvidenceColumn, ThreadColumn, RelationsOk,
      ProposalsOk, Apply, PointInto, PairsOk, ConflictsOk;
  }

  lemma PurgingKeepsVault(v: Vault, op: Op)
    requires VaultInv(v) && (op.Purge? || op.ForgetProposal?)
    ensures VaultInv(ApplyOp(v, op))
  {
    if CanDo(v, op) {
      StepKeepsVault(v, Tick);
      var disposition := if op.Purge? then op.disposition else WasForgotten;
      PurgeKeepsVault(v.(book := Apply(v.book, Tick)), op.id, v.book.sequence + 1, disposition);
      hide Inv, UniqueThreads, EvidenceBacked, IndexMatches, EvidenceColumn, ThreadColumn, RelationsOk,
        ProposalsOk, Apply, PointInto, PairsOk, ConflictsOk, PurgeOne;
    }
  }

  // ---------------------------------------------------------------- preservation: forget

  lemma ForgetShape(v: Vault, threadId: Id)
    requires threadId in v.book.threads
    ensures var b1 := Apply(v.book, Forget(threadId));
            && b1.threads == v.book.threads - {threadId}
            && b1.versions == v.book.versions - VersionsOf(v.book, threadId)
  {
  }

  lemma PointIntoLess(rows: map<Id, Id>, ids: set<Id>, goneRows: set<Id>, gone: set<Id>)
    requires PointInto(rows, ids)
    requires forall r | r in rows && rows[r] in gone :: r in goneRows
    ensures PointInto(rows - goneRows, ids - gone)
  {
  }

  lemma PairsOkLess(pairs: set<(Id, Id)>, left: set<Id>, right: set<Id>, gonePairs: set<(Id, Id)>,
                    goneLeft: set<Id>, goneRight: set<Id>)
    requires PairsOk(pairs, left, right)
    requires forall p | p in pairs && (p.0 in goneLeft || p.1 in goneRight) :: p in gonePairs
    ensures PairsOk(pairs - gonePairs, left - goneLeft, right - goneRight)
  {
  }

  lemma RelationsOkLess(relations: map<Id, Relation>, ids: set<Id>, goneRows: set<Id>, gone: set<Id>)
    requires RelationsOk(relations, ids)
    requires forall r | r in relations && (relations[r].from in gone || relations[r].to in gone) :: r in goneRows
    ensures RelationsOk(relations - goneRows, ids - gone)
  {
  }

  lemma ConflictsOkLess(conflicts: map<Id, Conflict>, threads: set<Id>, goneRows: set<Id>, threadId: Id)
    requires ConflictsOk(conflicts, threads)
    requires forall c | c in conflicts && conflicts[c].thread == threadId :: c in goneRows
    ensures ConflictsOk(conflicts - goneRows, threads - {threadId})
  {
  }

  lemma IndexMatchesLess(fts: map<Id, Id>, ids: set<Id>, goneRows: set<Id>, gone: set<Id>)
    requires IndexMatches(fts, ids)
    requires forall r | r in fts :: fts[r] in gone <==> r in goneRows
    ensures IndexMatches(fts - goneRows, ids - gone)
  {
    forall a | a in ids - gone ensures Indexed(fts - goneRows, a) {
      assert Indexed(fts, a);
      var r :| r in fts && fts[r] == a;
      assert (fts - goneRows)[r] == a;
    }
  }

  /** The scope holds every row that refers to something in it: the closure is complete. */
  lemma ScopeIsClosed(v: Vault, threadId: Id)
    requires threadId in v.book.threads
    ensures var s := ForgetScope(v, v.book.threads[threadId].project, threadId).value;
            var gone := VersionsOf(v.book, threadId);
            && s.versions.Keys == gone
            && (forall r | r in v.attestations && v.attestations[r] in gone :: r in s.attestations.Keys)
            && (forall r | r in v.consents && v.consents[r] in gone :: r in s.consents.Keys)
            && (forall r | r in v.reviews && v.reviews[r] in s.proposals.Keys :: r in s.reviews.Keys)
            && (forall r | r in v.relations && (v.relations[r].from in gone || v.relations[r].to in gone)
                  :: r in s.relations.Keys)
            && (forall r | r in v.fts :: v.fts[r] in gone <==> r in s.fts.Keys)
            && (forall c | c in v.conflicts && v.conflicts[c].thread == threadId :: c in s.conflicts.Keys)
            && (forall m | m in v.conflictMembers && (m.0 in s.conflicts.Keys || m.1 in gone) :: m in s.conflictMembers)
  {
  }

  /** No row of evidence is removed while a surviving version still references it. */
  lemma OwnedEvidenceIsUnshared(v: Vault, threadId: Id, r: (Id, Id))
    requires threadId in v.book.threads && r in v.evidenceRefs
    requires var s := ForgetScope(v, v.book.threads[threadId].project, threadId).value;
             r.0 in s.ownedEvidence.Keys || r.1 in VersionsOf(v.book, threadId)
    ensures r in ForgetScope(v, v.book.threads[threadId].project, threadId).value.evidenceRefs
    ensures r.1 in VersionsOf(v.book, threadId)
  {
  }

  lemma ForgetKeepsKeys(v: Vault, threadId: Id, receipt: Id)
    requires VaultInv(v) && threadId in v.book.threads
    ensures ForeignKeysHold(ForgetThreadOp(v, threadId, receipt))
  {
    ForgetShape(v, threadId);
    ScopeIsClosed(v, threadId);
    var s := ForgetScope(v, v.book.threads[threadId].project, threadId).value;
    var gone, ids := VersionsOf(v.book, threadId), v.book.versions.Keys;
    forall r | r in v.evidenceRefs && (r.0 in s.ownedEvidence.Keys || r.1 in gone)
      ensures r in s.evidenceRefs
    {
      OwnedEvidenceIsUnshared(v, threadId, r);
    }
    hide Inv, EvidenceBacked, IndexMatches, UniqueThreads, ProposalsOk, Suppress, Apply, ForgetScope, VersionsOf,
      PointInto, PairsOk, RelationsOk, ConflictsOk;
    PointIntoLess(v.attestations, ids, s.attestations.Keys, gone);
    PointIntoLess(v.consents, ids, s.consents.Keys, gone);
    PointIntoLess(v.reviews, v.proposals.Keys, s.reviews.Keys, s.proposals.Keys);
    RelationsOkLess(v.relations, ids, s.relations.Keys, gone);
    ConflictsOkLess(v.conflicts, v.book.threads.Keys, s.conflicts.Keys, threadId);
    PairsOkLess(v.conflictMembers, v.conflicts.Keys, ids, s.conflictMembers, s.conflicts.Keys, gone);
    PairsOkLess(v.evidenceRefs, v.evidence.Keys, ids, s.evidenceRefs, s.ownedEvidence.Keys, gone);
  }

  /** Survivors keep their evidence column, and the row behind it. */
  lemma ForgetKeepsEvidence(v: Vault, threadId: Id, receipt: Id)
    requires VaultInv(v) && threadId in v.book.threads
    ensures var w := ForgetThreadOp(v, threadId, receipt);
            EvidenceBacked(EvidenceColumn(w.book), w.evidenceRefs)
  {
    ForgetShape(v, threadId);
    hide Inv, ForeignKeysHold, UniqueThreads, ProposalsOk, Suppress, Apply, IndexMatches;
    var w := ForgetThreadOp(v, threadId, receipt);
    var s := ForgetScope(v, v.book.threads[threadId].project, threadId).value;
    assert w.evidenceRefs == v.evidenceRefs - s.evidenceRefs;
    forall a | a in w.book.versions && w.book.versions[a].evidence.Some?
      ensures (w.book.versions[a].evidence.value, a) in w.evidenceRefs
    {
      assert EvidenceColumn(v.book)[a] == w.book.versions[a].evidence;
    }
  }

  lemma ForgetKeepsIndex(v: Vault, threadId: Id, receipt: Id)
    requires VaultInv(v) && threadId in v.book.threads
    ensures var w := ForgetThreadOp(v, threadId, receipt);
            IndexMatches(w.fts, w.book.versions.Keys)
  {
    ForgetShape(v, threadId);
    ScopeIsClosed(v, threadId);
    var s := ForgetScope(v, v.book.threads[threadId].project, threadId).value;
    hide Inv, ForeignKeysHold, UniqueThreads, ProposalsOk, Suppress, Apply, ForgetScope, IndexMatches, EvidenceBacked;
    IndexMatchesLess(v.fts, v.book.versions.Keys, s.fts.Keys, VersionsOf(v.book, threadId));
    assert ForgetThreadOp(v, threadId, receipt).book.versions.Keys == v.book.versions.Keys - VersionsOf(v.book, threadId);
  }

  /** A proposal that outlives the forget was not accepted into the forgotten thread, so the
      reference that no cascade covers never blocks the deletion. */
  lemma SurvivorsPointElsewhere(v: Vault, threadId: Id, p: Id)
    requires VaultInv(v) && threadId in v.book.threads
    requires p in v.proposals && p !in ProposalsOn(v, v.book.threads[threadId]) && v.proposals[p].accepted.Some?
    ensures v.proposals[p].accepted.value in v.book.versions
    ensures v.proposals[p].accepted.value !in VersionsOf(v.book, threadId)
  {
  }

  lemma StillAccepted(p: Proposal, column: map<Id, Id>, threads: map<Id, Thread>, gone: set<Id>, threadId: Id)
    requires p.accepted.Some? && AcceptedThere(p, column, threads)
    requires p.accepted.value !in gone
    requires forall a | a in column && column[a] == threadId :: a in gone
    ensures AcceptedThere(p, column - gone, threads - {threadId})
  {
  }

  lemma ForgetColumn(b: Book, threadId: Id)
    requires threadId in b.threads
    ensures ThreadColumn(Apply(b, Forget(threadId))) == ThreadColumn(b) - VersionsOf(b, threadId)
  {
  }

  /** What a forget does to the proposals and to the thread column they are checked against. */
  lemma ForgetTables(v: Vault, threadId: Id, receipt: Id)
    requires CanForget(v, threadId)
    ensures var w := ForgetThreadOp(v, threadId, receipt);
            var proposals := ProposalsOn(v, v.book.threads[threadId]);
            && w.book == Apply(v.book, Forget(threadId))
            && w.proposals == v.proposals - proposals.Keys
            && (forall p | p in proposals :: p in v.proposals && v.proposals[p] == proposals[p])
            && w.tombstones == Suppress(v.tombstones, proposals, v.book.sequence + 1, WasForgotten)
  {
    hide Apply, Suppress, UniqueDeliveries, Mentions, Without, SharedOutside, ReferencedBy, VersionsOf;
  }

  lemma StillCorrected(p: Activity, a: Id, column: map<Id, Id>, threads: map<Id, Thread>, gone: set<Id>, threadId: Id)
    requires CorrectedThere(p, a, column, threads) && p.target !in gone
    requires forall b | b in column :: b in gone <==> column[b] == threadId
    ensures CorrectedThere(p, a, column - gone, threads - {threadId})
  {
  }

  /** What a forget leaves of the provenance targets no version of the thread. */
  lemma ForgetKeepsOtherTargets(v: Vault, threadId: Id, receipt: Id, p: Id)
    requires CanForget(v, threadId) && p in ForgetThreadOp(v, threadId, receipt).provenance
    ensures p in v.provenance && ForgetThreadOp(v, threadId, receipt).provenance[p] == v.provenance[p]
    ensures v.provenance[p].project == v.book.threads[threadId].project ==> v.provenance[p].target !in VersionsOf(v.book, threadId)
  {
    hide Apply, Suppress, UniqueDeliveries, Mentions, Without, SharedOutside, ReferencedBy, VersionsOf, ProposalsOn;
  }

  lemma ForgetKeepsCorrections(v: Vault, threadId: Id, receipt: Id)
    requires VaultInv(v) && threadId in v.book.threads
    ensures var w := ForgetThreadOp(v, threadId, receipt);
            CorrectionsInThread(w.provenance, ThreadColumn(w.book), w.book.threads)
  {
    ForgetShape(v, threadId);
    ForgetTables(v, threadId, receipt);
    ForgetColumn(v.book, threadId);
    var w := ForgetThreadOp(v, threadId, receipt);
    var gone := VersionsOf(v.book, threadId);
    var column := ThreadColumn(v.book);
    assert forall b | b in column :: b in gone <==> column[b] == threadId;
    hide ActivitiesDated, CorrectionsInThread, Inv, ForeignKeysHold, EvidenceBacked, IndexMatches, UniqueThreads, Apply, ProposalsOk, Suppress, ForgetThreadOp,
      ThreadColumn, VersionsOf, ProposalsOn;
    forall p, i | p in w.provenance && i in w.provenance[p].inputs && i.Corrected?
      ensures CorrectedThere(w.provenance[p], i.version, ThreadColumn(w.book), w.book.threads)
    {
      ForgetKeepsOtherTargets(v, threadId, receipt, p);
      assert CorrectedThere(v.provenance[p], i.version, column, v.book.threads);
      StillCorrected(v.provenance[p], i.version, column, v.book.threads, gone, threadId);
    }
  }

  lemma ForgetIngest(b: Book, threadId: Id)
    requires threadId in b.threads
    ensures IngestColumn(Apply(b, Forget(threadId))) == IngestColumn(b) - VersionsOf(b, threadId)
  {
  }

  lemma ForgetKeepsDates(v: Vault, threadId: Id, receipt: Id)
    requires VaultInv(v) && threadId in v.book.threads
    ensures var w := ForgetThreadOp(v, threadId, receipt);
            ActivitiesDated(w.provenance, IngestColumn(w.book))
  {
    ForgetIngest(v.book, threadId);
    ForgetTables(v, threadId, receipt);
    hide Inv, ForeignKeysHold, EvidenceBacked, IndexMatches, UniqueThreads, Apply, ProposalsOk, CorrectionsInThread, Suppress,
      ForgetThreadOp, IngestColumn, VersionsOf, ProposalsOn;
    forall p | p in ForgetThreadOp(v, threadId, receipt).provenance
      ensures p in v.provenance && ForgetThreadOp(v, threadId, receipt).provenance[p] == v.provenance[p]
    {
      ForgetKeepsOtherTargets(v, threadId, receipt, p);
    }
  }

  lemma ForgetKeepsAccepted(v: Vault, threadId: Id, receipt: Id)
    requires VaultInv(v) && threadId in v.book.threads
    ensures var w := ForgetThreadOp(v, threadId, receipt);
            AcceptedInThread(w.proposals, ThreadColumn(w.book), w.book.threads)
  {
    ForgetShape(v, threadId);
    ForgetTables(v, threadId, receipt);
    ForgetColumn(v.book, threadId);
    var w := ForgetThreadOp(v, threadId, receipt);
    var gone := VersionsOf(v.book, threadId);
    var column := ThreadColumn(v.book);
    assert forall a | a in column && column[a] == threadId :: a in gone;
    hide ActivitiesDated, CorrectionsInThread, Inv, ForeignKeysHold, EvidenceBacked, IndexMatches, UniqueThreads, Apply, AcceptedThere, UniqueDeliveries,
      NeverRevived, ContentProper, Suppress, ForgetThreadOp, ThreadColumn, VersionsOf, ProposalsOn;
    forall p | p in w.proposals && w.proposals[p].accepted.Some?
      ensures AcceptedThere(w.proposals[p], ThreadColumn(w.book), w.book.threads)
    {
      SurvivorsPointElsewhere(v, threadId, p);
      StillAccepted(v.proposals[p], column, v.book.threads, gone, threadId);
    }
  }

  lemma SuppressedAside(v: Vault, gone: map<Id, Proposal>, sequence: nat)
    requires UniqueDeliveries(v.proposals) && NeverRevived(v.proposals, v.tombstones)
    requires forall p | p in gone :: p in v.proposals && v.proposals[p] == gone[p]
    ensures NeverRevived(v.proposals - gone.Keys, Suppress(v.tombstones, gone, sequence, WasForgotten))
  {
  }

  lemma ForgetKeepsProposals(v: Vault, threadId: Id, receipt: Id)
    requires VaultInv(v) && threadId in v.book.threads
    ensures ProposalsOk(ForgetThreadOp(v, threadId, receipt))
  {
    hide ActivitiesDated, CorrectionsInThread, Inv, ForeignKeysHold, EvidenceBacked, IndexMatches, UniqueThreads, AcceptedInThread, ForgetThreadOp, Suppress,
      UniqueDeliveries, NeverRevived, ContentProper, ProposalsOn, VersionsOf, ThreadColumn, Apply;
    ForgetKeepsAccepted(v, threadId, receipt);
    ForgetTables(v, threadId, receipt);
    var gone := ProposalsOn(v, v.book.threads[threadId]);
    SuppressedAside(v, gone, v.book.sequence + 1);
    SameDeliveries(v.proposals, v.proposals - gone.Keys, v.tombstones);
  }

  lemma ForgetKeepsVault(v: Vault, threadId: Id, receipt: Id)
    requires VaultInv(v) && threadId in v.book.threads
    ensures VaultInv(ForgetThreadOp(v, threadId, receipt))
  {
    StepKeepsInv(v.book, Forget(threadId));
    ForgetShape(v, threadId);
    ForgetKeepsKeys(v, threadId, receipt);
    ForgetKeepsEvidence(v, threadId, receipt);
    ForgetKeepsIndex(v, threadId, receipt);
    ForgetKeepsCorrections(v, threadId, receipt);
    ForgetKeepsDates(v, threadId, receipt);
    ForgetKeepsProposals(v, threadId, receipt);
    hide ActivitiesDated, CorrectionsInThread, Inv, ForeignKeysHold, EvidenceBacked, IndexMatches, ProposalsOk, Apply;
  }

  lemma OpKeepsVault(v: Vault, op: Op)
    requires VaultInv(v)
    ensures VaultInv(ApplyOp(v, op))
  {
    hide VaultInv;
    if CanDo(v, op) {
      match op
      case Accept(_, _, _, _) => AcceptKeepsVault(v, op);
      case Propose(_, _, _, _, _, _) => ProposeKeepsVault(v, op);
      case Purge(_, _) => PurgingKeepsVault(v, op);
      case ExpireVersion(id, now) => StepKeepsVault(v, Expire(id, now));
      case Spend => StepKeepsVault(v, Tick);
      case ResolveConflicts(project, sequence) => ResolvingKeepsVault(v, project, sequence);
      case ForgetThread(threadId, receipt) => ForgetKeepsVault(v, threadId, receipt);
      case ForgetProposal(_, _) => PurgingKeepsVault(v, op);
      case SaveFeedback(_, _) => SavingKeepsVault(v, op);
      case SaveRecall(_, _) => SavingKeepsVault(v, op);
    }
  }

  /** Every reachable vault satisfies the invariant. */
  lemma {:induction false} RunKeepsVault(v: Vault, ops: seq<Op>)
    requires VaultInv(v)
    ensures VaultInv(RunOps(v, ops))
    decreases |ops|
  {
    if ops != [] {
      OpKeepsVault(v, ops[0]);
      hide VaultInv, ApplyOp;
      RunKeepsVault(ApplyOp(v, ops[0]), ops[1..]);
    }
  }
}
