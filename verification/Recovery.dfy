/** The recovery protocol end to end: any number of command lines, one daemon, a journal of
    locators, requests that arrive late or never, replies that get lost, and crashes anywhere. */
module Recovery {
  import opened Basics
  import opened Vault
  import opened Approvals
  import Ledger

  /** Error codes after which the command line asks for the receipt instead of giving up. */
  const AMBIGUOUS: set<string> := {
    "unavailable", "invalid_response", "internal_error", "response_too_large", "committed_audit_degraded",
    "pipe_timeout", "pipe_unavailable", "invalid_frame", "pipe_identity_unavailable", "pipe_impersonated_context",
    "unsafe_owner", "windows_boundary_error"}

  function CodeText(code: Code): string {
    match code
    case NotFound => "not_found"
    case StalePreview => "stale_preview"
    case InvalidTransition => "invalid_transition"
    case DuplicateClaim => "duplicate_claim"
    case RetentionExpired => "retention_expired"
    case DeliverySuppressed => "delivery_suppressed"
    case IdempotencyConflict => "idempotency_conflict"
    case IntegrityError => "integrity_error"
    case PolicyDenied => "policy_denied"
    case InvalidRequest => "invalid_request"
    case ApprovalInvalid => "approval_invalid"
    case ApprovalReplay => "approval_replay"
    case ApprovalExpired => "approval_expired"
    case ApprovalMismatch => "approval_mismatch"
    case AuditRecoveryRefused => "audit_recovery_refused"
  }

  datatype Reply = Ok(answer: Answer) | Error(code: string)

  datatype Report = Success(answer: Answer) | Refusal(code: string) | Unknown

  datatype Phase = Shown | Journaled | Waiting | Answered(reply: Reply) | Reported(report: Report) | Dead

  /** One invocation of an administrative command, from the preview it was shown on. */
  datatype Cli = Cli(nonce: Id, preview: Preview, phase: Phase)

  /** A journal file: an exclusive create that was flushed, or what one that failed or died left behind, the
      whole file or a part of it. */
  datatype Entry = Durable | Unflushed | Partial

  datatype Commit = Commit(nonce: Id, op: Op, answer: Answer)

  datatype World = World(
    desk: Desk,
    history: seq<Commit>,               // committed actions, in order
    journal: map<Id, Entry>,
    clis: map<nat, Cli>,
    flying: map<nat, Request>,          // apply bytes that left and were not processed yet
    replies: map<nat, Reply>)           // replies that were sent and not received yet

  /** What becomes of the reply of a committed action. */
  datatype Reporting = ReplyOk | ErrorAfter(code: string) | NoReply

  /** What becomes of a delivered apply request. */
  datatype Ending =
    | CrashBefore                                             // the daemon dies first
    | ErrorBefore(code: string)                               // the sweep or the open transaction fails; rolled back
    | Decided(capability: Id, clock: Time, m: Moment, reporting: Reporting)

  datatype Action =
    | Preview(cli: nat, nonce: Id, shown: Approvals.Preview, clock: Time, expires: Time)
    | PreviewElsewhere(nonce: Id, shown: Approvals.Preview, clock: Time, expires: Time)
    | Persist(cli: nat)                                       // the locator becomes durable
    | PersistFails(cli: nat, left: Option<Entry>)             // conflict, short write, failed flush or check
    | PersistDies(cli: nat, left: Option<Entry>)              // the process is killed while it publishes
    | Send(cli: nat, granted: bool)                           // the apply bytes leave
    | FailToSend(cli: nat, code: string)                      // an error before any byte leaves
    | Deliver(cli: nat, swept: Vault, ending: Ending)         // the daemon processes the bytes, however late
    | Lose(cli: nat)                                          // the bytes never arrive
    | Receive(cli: nat)
    | LoseReply(cli: nat)
    | GiveUp(cli: nat, code: string)                          // timeout or a failed check on the client's side
    | Conclude(cli: nat, reachable: bool)                     // report, asking for the receipt if ambiguous
    | Kill(cli: nat)
    | Foreign(request: Request, swept: Vault, ending: Ending) // an apply request from anyone else
    | Work(vault: Vault)                                      // every other request the daemon serves

  ghost predicate Committed(w: World, nonce: Id) {
    exists c | c in w.history :: c.nonce == nonce
  }

  predicate InPhase(w: World, cli: nat, phase: Phase) {
    cli in w.clis && w.clis[cli].phase == phase
  }

  function Moved(w: World, cli: nat, phase: Phase): World {
    if cli in w.clis then w.(clis := w.clis[cli := w.clis[cli].(phase := phase)]) else w
  }

  /** A nonce nobody has seen: the ids are random. */
  predicate Unseen(w: World, nonce: Id) {
    nonce !in w.desk.challenges && nonce !in w.desk.results && nonce !in w.journal
    && forall c | c in w.clis :: w.clis[c].nonce != nonce
  }

  /** Grants are signatures over the nonce: nobody but the command line that was approved holds
      one for its nonce. */
  predicate NotOurs(w: World, request: Request) {
    request.granted ==> forall c | c in w.clis :: w.clis[c].nonce != request.nonce
  }

  ghost predicate Enabled(w: World, a: Action) {
    match a
    case Preview(cli, nonce, _, _, _) => cli !in w.clis && Unseen(w, nonce)
    case PreviewElsewhere(nonce, _, _, _) => Unseen(w, nonce)
    case Persist(cli) => InPhase(w, cli, Shown) && w.clis[cli].nonce !in w.journal
    case PersistFails(cli, left) => InPhase(w, cli, Shown) && left != Some(Durable)
    case PersistDies(cli, left) => InPhase(w, cli, Shown) && left != Some(Durable)
    case Send(cli, _) => InPhase(w, cli, Journaled)
    case FailToSend(cli, _) => InPhase(w, cli, Journaled)
    case Deliver(cli, _, ending) => cli in w.flying
    case Lose(cli) => cli in w.flying
    case Receive(cli) => cli in w.replies && InPhase(w, cli, Waiting)
    case LoseReply(cli) => cli in w.replies
    case GiveUp(cli, code) => InPhase(w, cli, Waiting) && code in AMBIGUOUS
    case Conclude(cli, _) => cli in w.clis && w.clis[cli].phase.Answered?
    case Kill(cli) => cli in w.clis && !w.clis[cli].phase.Reported?
    case Foreign(request, _, ending) => NotOurs(w, request)
    case Work(_) => true
  }

  /** `admin_apply` on the daemon: the desk, the history and the reply it leaves. */
  ghost function Applied(d: Desk, history: seq<Commit>, r: Request, ending: Ending): (Desk, seq<Commit>, Option<Reply>) {
    match ending
    case CrashBefore => (d, history, None)
    case ErrorBefore(code) => (d, history, Some(Error(code)))
    case Decided(capability, clock, m, reporting) =>
      if r.claimed != r.preview then (d, history, Some(Error(CodeText(ApprovalMismatch))))
      else
        match ApplyCheck(d, r, clock, m)
        case Refused(code) => (d, history, Some(Error(CodeText(code))))
        case Done(op) =>
          if !Settles(op) then (d, history, None)
          else
            var answer := AnswerOf(d.vault, op);
            (Settle(d, r, capability, m, op), history + [Commit(r.nonce, op, answer)],
             match reporting case ReplyOk => Some(Ok(answer)) case ErrorAfter(code) => Some(Error(code)) case NoReply => None)
  }

  /** How the command line reads a reply, given the receipt it gets if it asks for one. */
  function Concluded(reply: Reply, receipt: Option<Answer>): Report {
    match reply
    case Ok(answer) => Success(answer)
    case Error(code) =>
      if code !in AMBIGUOUS then Refusal(code) else if receipt.Some? then Success(receipt.value) else Unknown
  }

  /** A refusal is never taken for an uncertain outcome, nor for another refusal. */
  lemma RefusalsAreReported(code: Code, receipt: Option<Answer>)
    ensures Concluded(Error(CodeText(code)), receipt) == Refusal(CodeText(code))
    ensures forall other :: CodeText(other) == CodeText(code) ==> other == code
  {
  }

  function ReportOf(w: World, cli: Cli, reachable: bool): Report {
    if !cli.phase.Answered? then Unknown
    else Concluded(cli.phase.reply, if reachable then ResultOf(w.desk, cli.nonce) else None)
  }

  function ResultOf(d: Desk, nonce: Id): Option<Answer> {
    if nonce in d.results then Some(d.results[nonce].answer) else None
  }

  /** The create is exclusive: a residue never replaces a file that exists. */
  function WithResidue(journal: map<Id, Entry>, nonce: Id, left: Option<Entry>): map<Id, Entry> {
    if left.Some? && nonce !in journal then journal[nonce := left.value] else journal
  }

  ghost function Step(w: World, a: Action): World {
    match a
    case Preview(cli, nonce, shown, clock, expires) =>
      w.(desk := Challenged(w.desk, nonce, shown, clock, expires), clis := w.clis[cli := Cli(nonce, shown, Shown)])
    case PreviewElsewhere(nonce, shown, clock, expires) =>
      w.(desk := Challenged(w.desk, nonce, shown, clock, expires))
    case Persist(cli) => if cli !in w.clis then w else
      Moved(w.(journal := w.journal[w.clis[cli].nonce := Durable]), cli, Journaled)
    case PersistFails(cli, left) => if cli !in w.clis then w else
      Moved(w.(journal := WithResidue(w.journal, w.clis[cli].nonce, left)), cli, Reported(Unknown))
    case PersistDies(cli, left) => if cli !in w.clis then w else
      Moved(w.(journal := WithResidue(w.journal, w.clis[cli].nonce, left)), cli, Dead)
    case Send(cli, granted) => if cli !in w.clis then w else
      var c := w.clis[cli];
      Moved(w.(flying := w.flying[cli := Request(c.nonce, c.preview, c.preview, granted)]), cli, Waiting)
    case FailToSend(cli, code) => Moved(w, cli, Answered(Error(code)))
    case Deliver(cli, swept, ending) => if cli !in w.flying then w else
      var (d, history, reply) := Applied(w.desk.(vault := swept), w.history, w.flying[cli], ending);
      w.(desk := d, history := history, flying := w.flying - {cli},
         replies := if reply.Some? then w.replies[cli := reply.value] else w.replies)
    case Lose(cli) => w.(flying := w.flying - {cli})
    case Receive(cli) => if cli !in w.replies then w else
      Moved(w.(replies := w.replies - {cli}), cli, Answered(w.replies[cli]))
    case LoseReply(cli) => w.(replies := w.replies - {cli})
    case GiveUp(cli, code) => Moved(w, cli, Answered(Error(code)))
    case Conclude(cli, reachable) => if cli !in w.clis then w else
      Moved(w, cli, Reported(ReportOf(w, w.clis[cli], reachable)))
    case Kill(cli) => Moved(w, cli, Dead)
    case Foreign(request, swept, ending) =>
      var (d, history, _) := Applied(w.desk.(vault := swept), w.history, request, ending);
      w.(desk := d, history := history)
    case Work(vault) => w.(desk := w.desk.(vault := vault))
  }

  ghost predicate Runs(w: World, actions: seq<Action>)
    decreases |actions|
  {
    actions == [] || (Enabled(w, actions[0]) && Runs(Step(w, actions[0]), actions[1..]))
  }

  ghost function After(w: World, actions: seq<Action>): World
    decreases |actions|
  {
    if actions == [] then w else After(Step(w, actions[0]), actions[1..])
  }

  // ---------------------------------------------------------------- receipts

  /** A nonce has at most one committed action, and a receipt exactly then, holding its answer. */
  ghost predicate Receipts(d: Desk, history: seq<Commit>) {
    && (forall i, j | 0 <= i < j < |history| :: history[i].nonce != history[j].nonce)
    && (forall n | n in d.results :: exists c | c in history :: c.nonce == n && c.answer == d.results[n].answer)
    && (forall c | c in history :: c.nonce in d.results)
    && (forall n | n in d.challenges :: d.challenges[n].used.Some? <==> n in d.results)
  }

  lemma ReceiptsGrow(d: Desk, d1: Desk, history: seq<Commit>, c: Commit)
    requires Receipts(d, history) && c.nonce !in d.results
    requires d1.results.Keys == d.results.Keys + {c.nonce} && d1.results[c.nonce].answer == c.answer
    requires forall n | n in d.results :: d1.results[n] == d.results[n]
    requires forall n | n in d1.challenges :: n in d.challenges
               && (d1.challenges[n].used.Some? <==> n == c.nonce || d.challenges[n].used.Some?)
    ensures Receipts(d1, history + [c])
  {
  }

  /** Processing a request either changes nothing at all or commits exactly one action. */
  lemma ApplyCases(d: Desk, history: seq<Commit>, r: Request, ending: Ending) returns (c: Commit)
    ensures var (d1, history1, reply) := Applied(d, history, r, ending);
            || (d1 == d && history1 == history)
            || (&& c.nonce == r.nonce && history1 == history + [c] && r.granted
                && r.nonce in d.challenges && d.challenges[r.nonce].used == None
                && d1.challenges.Keys == d.challenges.Keys && d1.challenges[r.nonce].used.Some?
                && (forall n | n in d.challenges && n != r.nonce :: d1.challenges[n] == d.challenges[n])
                && d1.results.Keys == d.results.Keys + {r.nonce} && d1.results[r.nonce].answer == c.answer
                && (forall n | n in d.results && n != r.nonce :: d1.results[n] == d.results[n]))
  {
    hide Decide, AnswerOf, ApplyOp;
    var (d1, history1, reply) := Applied(d, history, r, ending);
    c := if |history1| > |history| then history1[|history|] else Commit(r.nonce, Spend, Rejected("", 0));
  }

  lemma ApplyKeepsReceipts(d: Desk, history: seq<Commit>, r: Request, ending: Ending)
    requires Receipts(d, history)
    ensures var (d1, history1, reply) := Applied(d, history, r, ending);
            && Receipts(d1, history1)
            && (forall n | n in d.results :: n in d1.results && d1.results[n] == d.results[n])
            && history <= history1
  {
    hide Applied;
    var (d1, history1, reply) := Applied(d, history, r, ending);
    var c := ApplyCases(d, history, r, ending);
    if history1 != history {
      assert r.nonce !in d.results;
      hide Receipts;
      ReceiptsGrow(d, d1, history, c);
    }
  }

  /** A refused action, or one that fails before its commit, leaves every challenge as it was: the
      approval is not used up. */
  lemma FailedApplyLeavesChallenge(d: Desk, history: seq<Commit>, r: Request, ending: Ending)
    ensures var (d1, history1, reply) := Applied(d, history, r, ending);
            history1 == history ==> d1 == d
  {
  }

  // ---------------------------------------------------------------- what every run keeps

  /** All that one command line can ever observe or depend on. */
  datatype View = View(result: Option<Answer>, entry: Option<Entry>, inFlight: bool, pending: Option<Reply>, phase: Phase)

  /** What may be known about a nonce once `reply` was given under it. With `mild` it includes
      that an unambiguous error means nothing was committed. */
  predicate Truthful(mild: bool, v: View, reply: Reply) {
    match reply
    case Ok(answer) => v.result == Some(answer)
    case Error(code) => mild ==> code in AMBIGUOUS || (v.result == None && !v.inFlight)
  }

  predicate ViewOk(mild: bool, v: View) {
    && (v.phase.Shown? || v.phase.Journaled? ==> v.result == None && !v.inFlight && v.pending == None)
    && (v.phase.Shown? ==> v.entry == None)
    && (v.phase.Journaled? || v.phase.Waiting? || v.phase.Answered? ==> v.entry == Some(Durable))
    && (v.result.Some? || v.inFlight ==> v.entry == Some(Durable))
    && (v.inFlight ==> v.result == None && v.pending == None)
    && (v.pending.Some? ==> Truthful(mild, v, v.pending.value))
    && (v.phase.Answered? ==> Truthful(mild, v, v.phase.reply))
    && (v.phase.Reported? ==>
          match v.phase.report
          case Success(answer) => v.result == Some(answer)
          case Refusal(_) => mild ==> v.result == None && !v.inFlight
          case Unknown => true)
  }

  function EntryOf(w: World, nonce: Id): Option<Entry> {
    if nonce in w.journal then Some(w.journal[nonce]) else None
  }

  function ViewOf(w: World, cli: nat): View
    requires cli in w.clis
  {
    var c := w.clis[cli];
    View(ResultOf(w.desk, c.nonce), EntryOf(w, c.nonce), cli in w.flying,
         if cli in w.replies then Some(w.replies[cli]) else None, c.phase)
  }

  ghost predicate Addressed(w: World) {
    && (forall c | c in w.flying :: c in w.clis && w.flying[c].nonce == w.clis[c].nonce)
    && (forall c | c in w.replies :: c in w.clis)
    && (forall c, d | c in w.clis && d in w.clis && w.clis[c].nonce == w.clis[d].nonce :: c == d)
  }

  ghost predicate AllOk(mild: set<nat>, w: World) {
    forall c | c in w.clis :: ViewOk(c in mild, ViewOf(w, c))
  }

  ghost predicate Good(mild: set<nat>, w: World) {
    Receipts(w.desk, w.history) && Addressed(w) && AllOk(mild, w)
  }

  /** For the command lines in `mild`, whatever is raised between the SQL commit of their own action and its
      reply reads as ambiguous. */
  predicate Mild(mild: set<nat>, a: Action) {
    match a
    case Deliver(cli, _, Decided(_, _, _, ErrorAfter(code))) => cli in mild ==> code in AMBIGUOUS
    case _ => true
  }

  // ---------------------------------------------------------------- the daemon's steps

  /** What processing a request does to the receipts. */
  lemma AppliedIs(d: Desk, history: seq<Commit>, r: Request, ending: Ending, n: Id)
    requires Receipts(d, history)
    ensures var (d1, history1, reply) := Applied(d, history, r, ending);
            && (n != r.nonce || !r.granted ==> ResultOf(d1, n) == ResultOf(d, n))
            && (ResultOf(d, n).Some? ==> ResultOf(d1, n) == ResultOf(d, n))
            && (reply.Some? && reply.value.Ok? ==> ResultOf(d1, r.nonce) == Some(reply.value.answer))
            && (reply.Some? && reply.value.Error? && ResultOf(d1, r.nonce) != ResultOf(d, r.nonce) ==>
                  ending.Decided? && ending.reporting == ErrorAfter(reply.value.code))
  {
    hide Decide, AnswerOf, ApplyOp;
  }

  /** A request that is not theirs changes nothing a command line can see. */
  lemma ForeignView(w: World, request: Request, swept: Vault, ending: Ending, c: nat)
    requires Receipts(w.desk, w.history) && NotOurs(w, request) && c in w.clis
    ensures var w1 := Step(w, Foreign(request, swept, ending));
            c in w1.clis && ViewOf(w1, c) == ViewOf(w, c)
  {
    hide Applied, Receipts;
    ReceiptsIgnoreVault(w.desk, swept, w.history);
    AppliedIs(w.desk.(vault := swept), w.history, request, ending, w.clis[c].nonce);
  }

  lemma ForeignKeepsGood(mild: set<nat>, w: World, request: Request, swept: Vault, ending: Ending)
    requires Good(mild, w) && NotOurs(w, request)
    ensures Good(mild, Step(w, Foreign(request, swept, ending)))
  {
    hide Applied, Receipts, ViewOk, ViewOf, NotOurs;
    ReceiptsIgnoreVault(w.desk, swept, w.history);
    ApplyKeepsReceipts(w.desk.(vault := swept), w.history, request, ending);
    var w1 := Step(w, Foreign(request, swept, ending));
    forall c | c in w1.clis ensures ViewOk(c in mild, ViewOf(w1, c)) {
      ForeignView(w, request, swept, ending, c);
      assert ViewOk(c in mild, ViewOf(w, c));
    }
  }

  lemma ReceiptsIgnoreVault(d: Desk, vault: Vault, history: seq<Commit>)
    requires Receipts(d, history)
    ensures Receipts(d.(vault := vault), history)
  {
  }

  /** The one view a delivery changes. */
  lemma DeliveredView(mild: bool, v: View, result: Option<Answer>, reply: Option<Reply>)
    requires ViewOk(mild, v) && v.inFlight
    requires reply.Some? && reply.value.Ok? ==> result == Some(reply.value.answer)
    requires mild && reply.Some? && reply.value.Error? ==> result == None || reply.value.code in AMBIGUOUS
    ensures ViewOk(mild, v.(result := result, inFlight := false, pending := reply))
  {
  }

  /** What a delivery changes in the view of the command line that sent it. */
  lemma OwnDelivery(w: World, cli: nat, swept: Vault, ending: Ending)
    requires Addressed(w) && cli in w.flying && cli !in w.replies
    ensures var done := Applied(w.desk.(vault := swept), w.history, w.flying[cli], ending);
            var w1 := Step(w, Deliver(cli, swept, ending));
            && cli in w1.clis && w1.clis == w.clis && w1.desk == done.0 && w1.history == done.1
            && ViewOf(w1, cli)
                 == ViewOf(w, cli).(result := ResultOf(done.0, w.clis[cli].nonce), inFlight := false, pending := done.2)
  {
    hide Applied;
  }

  lemma OtherDelivery(w: World, cli: nat, swept: Vault, ending: Ending, c: nat)
    requires Receipts(w.desk, w.history) && Addressed(w) && cli in w.flying && c in w.clis && c != cli
    ensures var w1 := Step(w, Deliver(cli, swept, ending));
            c in w1.clis && ViewOf(w1, c) == ViewOf(w, c)
  {
    hide Applied, Receipts;
    ReceiptsIgnoreVault(w.desk, swept, w.history);
    assert w.clis[c].nonce != w.flying[cli].nonce;
    AppliedIs(w.desk.(vault := swept), w.history, w.flying[cli], ending, w.clis[c].nonce);
  }

  lemma DeliveredKeepsView(mild: set<nat>, w: World, cli: nat, swept: Vault, ending: Ending)
    requires Good(mild, w) && cli in w.flying && Mild(mild, Deliver(cli, swept, ending))
    ensures var w1 := Step(w, Deliver(cli, swept, ending));
            cli in w1.clis && ViewOk(cli in mild, ViewOf(w1, cli))
  {
    var r := w.flying[cli];
    assert r.nonce == w.clis[cli].nonce && ViewOk(cli in mild, ViewOf(w, cli));
    hide Applied, Receipts, ViewOk, Step, AllOk;
    InFlightIsOpen(cli in mild, ViewOf(w, cli));
    OwnDelivery(w, cli, swept, ending);
    ReceiptsIgnoreVault(w.desk, swept, w.history);
    AppliedIs(w.desk.(vault := swept), w.history, r, ending, r.nonce);
    var done := Applied(w.desk.(vault := swept), w.history, r, ending);
    DeliveredView(cli in mild, ViewOf(w, cli), ResultOf(done.0, r.nonce), done.2);
  }

  lemma DeliverKeepsAddresses(w: World, cli: nat, swept: Vault, ending: Ending)
    requires Addressed(w) && Receipts(w.desk, w.history) && cli in w.flying
    ensures var w1 := Step(w, Deliver(cli, swept, ending));
            Addressed(w1) && Receipts(w1.desk, w1.history) && w1.clis == w.clis
  {
    hide Applied, Receipts;
    ReceiptsIgnoreVault(w.desk, swept, w.history);
    ApplyKeepsReceipts(w.desk.(vault := swept), w.history, w.flying[cli], ending);
  }

  lemma DeliverKeepsGood(mild: set<nat>, w: World, cli: nat, swept: Vault, ending: Ending)
    requires Good(mild, w) && cli in w.flying && Mild(mild, Deliver(cli, swept, ending))
    ensures Good(mild, Step(w, Deliver(cli, swept, ending)))
  {
    DeliveredKeepsView(mild, w, cli, swept, ending);
    hide Receipts, ViewOk, ViewOf, Step, Addressed;
    DeliverKeepsAddresses(w, cli, swept, ending);
    var w1 := Step(w, Deliver(cli, swept, ending));
    forall c | c in w1.clis ensures ViewOk(c in mild, ViewOf(w1, c)) {
      if c != cli {
        OtherDelivery(w, cli, swept, ending, c);
        assert ViewOk(c in mild, ViewOf(w, c));
      }
    }
  }

  lemma InFlightIsOpen(mild: bool, v: View)
    requires ViewOk(mild, v) && v.inFlight
    ensures v.result == None && v.pending == None
  {
  }

  lemma ChallengedKeepsReceipts(d: Desk, history: seq<Commit>, nonce: Id, p: Approvals.Preview, clock: Time, expires: Time)
    requires Receipts(d, history) && nonce !in d.results
    ensures Receipts(Challenged(d, nonce, p, clock, expires), history)
    ensures Challenged(d, nonce, p, clock, expires).results == d.results
  {
  }

  lemma SameView(w: World, w1: World, c: nat)
    requires w1.desk.results == w.desk.results && w1.journal == w.journal && w1.flying == w.flying && w1.replies == w.replies
    requires c in w.clis && c in w1.clis && w1.clis[c] == w.clis[c]
    ensures ViewOf(w1, c) == ViewOf(w, c)
  {
  }

  lemma NewView(mild: set<nat>, w: World, c: nat)
    requires Addressed(w) && c in w.clis && w.clis[c].phase == Shown
    requires w.clis[c].nonce !in w.desk.results && w.clis[c].nonce !in w.journal && c !in w.flying && c !in w.replies
    ensures ViewOk(c in mild, ViewOf(w, c))
  {
  }

  lemma PreviewKeepsGood(mild: set<nat>, w: World, a: Action)
    requires Good(mild, w) && Enabled(w, a) && (a.Preview? || a.PreviewElsewhere?)
    ensures Good(mild, Step(w, a))
  {
    hide Receipts, Challenged, ViewOk, ViewOf, Applied;
    ChallengedKeepsReceipts(w.desk, w.history, a.nonce, a.shown, a.clock, a.expires);
    var w1 := Step(w, a);
    assert Addressed(w1);
    forall c | c in w1.clis ensures ViewOk(c in mild, ViewOf(w1, c)) {
      if c in w.clis {
        SameView(w, w1, c);
        assert ViewOk(c in mild, ViewOf(w, c));
      } else {
        NewView(mild, w1, c);
      }
    }
  }

  // ---------------------------------------------------------------- the client's steps

  /** How a client step changes the client's own view. */
  ghost predicate OwnStep(a: Action, v: View, v1: View) {
    match a
    case Persist(_) => v.phase == Shown && v1 == v.(entry := Some(Durable), phase := Journaled)
    case PersistFails(_, left) =>
      v.phase == Shown && v1 == v.(entry := if left.Some? && v.entry == None then left else v.entry, phase := Reported(Unknown))
    case PersistDies(_, left) =>
      v.phase == Shown && v1 == v.(entry := if left.Some? && v.entry == None then left else v.entry, phase := Dead)
    case Send(_, _) => v.phase == Journaled && v1 == v.(inFlight := true, phase := Waiting)
    case FailToSend(_, code) => v.phase == Journaled && v1 == v.(phase := Answered(Error(code)))
    case Lose(_) => v.inFlight && v1 == v.(inFlight := false)
    case Receive(_) => v.phase == Waiting && v.pending.Some? && v1 == v.(pending := None, phase := Answered(v.pending.value))
    case LoseReply(_) => v.pending.Some? && v1 == v.(pending := None)
    case GiveUp(_, code) => v.phase == Waiting && code in AMBIGUOUS && v1 == v.(phase := Answered(Error(code)))
    case Conclude(_, reachable) =>
      v.phase.Answered? && v1 == v.(phase := Reported(Concluded(v.phase.reply, if reachable then v.result else None)))
    case Kill(_) => !v.phase.Reported? && v1 == v.(phase := Dead)
    case _ => false
  }

  predicate ClientAction(a: Action) {
    !a.Preview? && !a.PreviewElsewhere? && !a.Deliver? && !a.Foreign? && !a.Work?
  }

  lemma OwnStepKeepsView(mild: bool, a: Action, v: View, v1: View)
    requires ViewOk(mild, v) && OwnStep(a, v, v1)
    ensures ViewOk(mild, v1)
  {
  }

  /** A client step moves its own view as above and no other view. */
  lemma OwnView(w: World, a: Action)
    requires Enabled(w, a) && ClientAction(a) && a.cli in w.clis
    ensures a.cli in Step(w, a).clis && OwnStep(a, ViewOf(w, a.cli), ViewOf(Step(w, a), a.cli))
  {
    hide Applied, Challenged, NotOurs, Unseen;
  }

  lemma OtherView(w: World, a: Action, c: nat)
    requires ClientAction(a) && c in w.clis && a.cli in w.clis && w.clis[c].nonce != w.clis[a.cli].nonce
    ensures c in Step(w, a).clis && ViewOf(Step(w, a), c) == ViewOf(w, c)
  {
    hide Applied, Challenged, ReportOf;
  }

  lemma ClientKeepsNonces(w: World, a: Action)
    requires Enabled(w, a) && ClientAction(a) && Addressed(w)
    ensures var w1 := Step(w, a);
            && w1.desk == w.desk && w1.history == w.history && a.cli in w.clis && w1.clis.Keys == w.clis.Keys
            && (forall c | c in w.clis :: w1.clis[c].nonce == w.clis[c].nonce)
            && w1.replies.Keys <= w.replies.Keys
  {
    hide Applied, Challenged, NotOurs, Unseen, ReportOf;
  }

  lemma ClientKeepsFlying(w: World, a: Action)
    requires Enabled(w, a) && ClientAction(a)
    ensures forall c | c in Step(w, a).flying ::
              || (c in w.flying && Step(w, a).flying[c] == w.flying[c])
              || (c == a.cli && c in w.clis && Step(w, a).flying[c].nonce == w.clis[c].nonce)
  {
    hide Applied, Challenged, NotOurs, Unseen, ReportOf;
  }

  lemma ClientKeepsAddresses(w: World, a: Action)
    requires Addressed(w) && Enabled(w, a) && ClientAction(a)
    ensures var w1 := Step(w, a);
            Addressed(w1) && w1.desk == w.desk && w1.history == w.history && w1.clis.Keys == w.clis.Keys && a.cli in w.clis
  {
    hide Enabled, Step, ClientAction;
    ClientKeepsNonces(w, a);
    ClientKeepsFlying(w, a);
  }

  lemma ClientKeepsGood(mild: set<nat>, w: World, a: Action)
    requires Good(mild, w) && Enabled(w, a) && ClientAction(a)
    ensures Good(mild, Step(w, a))
  {
    hide Receipts, Enabled, Step, ViewOf, ViewOk, OwnStep;
    ClientKeepsAddresses(w, a);
    forall c | c in w.clis ensures ViewOk(c in mild, ViewOf(Step(w, a), c)) {
      assert ViewOk(c in mild, ViewOf(w, c));
      if c == a.cli {
        OwnView(w, a);
        OwnStepKeepsView(c in mild, a, ViewOf(w, c), ViewOf(Step(w, a), c));
      } else {
        OtherView(w, a, c);
      }
    }
  }

  lemma WorkKeepsGood(mild: set<nat>, w: World, vault: Vault)
    requires Good(mild, w)
    ensures Good(mild, Step(w, Work(vault)))
  {
    ReceiptsIgnoreVault(w.desk, vault, w.history);
    hide Receipts, ViewOk, ViewOf;
    var w1 := Step(w, Work(vault));
    forall c | c in w.clis ensures ViewOk(c in mild, ViewOf(w1, c)) {
      SameView(w, w1, c);
      assert ViewOk(c in mild, ViewOf(w, c));
    }
  }

  lemma StepKeepsGood(mild: set<nat>, w: World, a: Action)
    requires Good(mild, w) && Enabled(w, a) && Mild(mild, a)
    ensures Good(mild, Step(w, a))
  {
    hide Good, Step;
    match a
    case Preview(_, _, _, _, _) => PreviewKeepsGood(mild, w, a);
    case PreviewElsewhere(_, _, _, _) => PreviewKeepsGood(mild, w, a);
    case Deliver(cli, swept, ending) => DeliverKeepsGood(mild, w, cli, swept, ending);
    case Foreign(request, swept, ending) => ForeignKeepsGood(mild, w, request, swept, ending);
    case Work(vault) => WorkKeepsGood(mild, w, vault);
    case _ => ClientKeepsGood(mild, w, a);
  }

  // ---------------------------------------------------------------- the promises

  ghost predicate AllMild(mild: set<nat>, actions: seq<Action>) {
    forall a | a in actions :: Mild(mild, a)
  }

  lemma {:induction false} RunKeepsGood(mild: set<nat>, w: World, actions: seq<Action>)
    requires Good(mild, w) && Runs(w, actions) && AllMild(mild, actions)
    ensures Good(mild, After(w, actions))
    decreases |actions|
  {
    hide Good, Enabled, Step, Mild;
    if actions != [] {
      StepKeepsGood(mild, w, actions[0]);
      RunKeepsGood(mild, Step(w, actions[0]), actions[1..]);
    }
  }

  lemma StepKeepsReceipts(w: World, a: Action)
    requires Receipts(w.desk, w.history) && Enabled(w, a)
    ensures var w1 := Step(w, a);
            && Receipts(w1.desk, w1.history) && w.history <= w1.history
            && (forall n | n in w.desk.results :: n in w1.desk.results && w1.desk.results[n] == w.desk.results[n])
  {
    hide Receipts, Applied, Challenged, ReportOf;
    match a
    case Preview(_, nonce, shown, clock, expires) =>
      ChallengedKeepsReceipts(w.desk, w.history, nonce, shown, clock, expires);
    case PreviewElsewhere(nonce, shown, clock, expires) =>
      ChallengedKeepsReceipts(w.desk, w.history, nonce, shown, clock, expires);
    case Deliver(cli, swept, ending) =>
      ReceiptsIgnoreVault(w.desk, swept, w.history);
      ApplyKeepsReceipts(w.desk.(vault := swept), w.history, w.flying[cli], ending);
    case Foreign(request, swept, ending) =>
      ReceiptsIgnoreVault(w.desk, swept, w.history);
      ApplyKeepsReceipts(w.desk.(vault := swept), w.history, request, ending);
    case Work(vault) => ReceiptsIgnoreVault(w.desk, vault, w.history);
    case _ =>
  }

  /** Approvals act exactly once. In every run with replays, challenge cleanup, expiry and
      crashes, a nonce has at most one committed action; a receipt exists if and only if that
      action committed, holds its answer, and never changes or disappears. */
  lemma {:induction false} ApprovalsActOnce(w: World, actions: seq<Action>)
    requires Receipts(w.desk, w.history) && Runs(w, actions)
    ensures var w1 := After(w, actions);
            && Receipts(w1.desk, w1.history) && w.history <= w1.history
            && (forall n :: n in w1.desk.results <==> Committed(w1, n))
            && (forall n | n in w.desk.results :: n in w1.desk.results && w1.desk.results[n] == w.desk.results[n])
    decreases |actions|
  {
    hide Enabled, Step;
    if actions != [] {
      StepKeepsReceipts(w, actions[0]);
      ApprovalsActOnce(Step(w, actions[0]), actions[1..]);
    }
  }

  /** A committed action of a command line has a durable journal entry, in every reachable world:
      the locator is durable before the first byte of the request leaves. */
  lemma CommitsAreJournaled(mild: set<nat>, w: World, cli: nat)
    requires Good(mild, w) && cli in w.clis
    ensures Committed(w, w.clis[cli].nonce) || cli in w.flying ==>
              w.clis[cli].nonce in w.journal && w.journal[w.clis[cli].nonce] == Durable
  {
  }

  /** A reported success is a commit, with the answer that committed. */
  lemma SuccessMeansCommit(mild: set<nat>, w: World, cli: nat)
    requires Good(mild, w) && cli in w.clis && w.clis[cli].phase.Reported? && w.clis[cli].phase.report.Success?
    ensures exists c | c in w.history :: c.nonce == w.clis[cli].nonce && c.answer == w.clis[cli].phase.report.answer
  {
  }

  /** Once reported, nothing of this command line changes the outcome any more. */
  lemma {:induction false} ReportedStays(mild: set<nat>, w: World, actions: seq<Action>, cli: nat)
    requires Good(mild, w) && Runs(w, actions) && AllMild(mild, actions)
    requires cli in w.clis && w.clis[cli].phase.Reported?
    ensures cli in After(w, actions).clis && After(w, actions).clis[cli] == w.clis[cli]
    decreases |actions|
  {
    hide Good;
    if actions != [] {
      StepKeepsGood(mild, w, actions[0]);
      ReportedStep(w, actions[0], cli);
      hide Enabled, Step;
      ReportedStays(mild, Step(w, actions[0]), actions[1..], cli);
    }
  }

  lemma ReportedStep(w: World, a: Action, cli: nat)
    requires Enabled(w, a) && cli in w.clis && w.clis[cli].phase.Reported?
    ensures cli in Step(w, a).clis && Step(w, a).clis[cli] == w.clis[cli]
  {
    hide Applied, Challenged, ReportOf, NotOurs, Unseen;
  }

  /** A refusal that was reported means that the action did not commit and never will, whatever arrives
      late and whatever happens to others, as long as no error outside the ambiguous codes follows the
      commit of this command line's own action. */
  lemma RefusalMeansNoCommit(w: World, actions: seq<Action>, later: seq<Action>, cli: nat)
    requires Good({cli}, w) && Runs(w, actions) && AllMild({cli}, actions)
    requires var w1 := After(w, actions);
             && cli in w1.clis && w1.clis[cli].phase.Reported? && w1.clis[cli].phase.report.Refusal?
             && Runs(w1, later) && AllMild({cli}, later)
    ensures !Committed(After(After(w, actions), later), After(w, actions).clis[cli].nonce)
  {
    var w1 := After(w, actions);
    hide Good, Runs, After, AllMild;
    RunKeepsGood({cli}, w, actions);
    RunKeepsGood({cli}, w1, later);
    ReportedStays({cli}, w1, later, cli);
    RefusedIsNotCommitted({cli}, After(w1, later), cli);
  }

  lemma RefusedIsNotCommitted(mild: set<nat>, w: World, cli: nat)
    requires Good(mild, w) && cli in mild && cli in w.clis
    requires w.clis[cli].phase.Reported? && w.clis[cli].phase.report.Refusal?
    ensures !Committed(w, w.clis[cli].nonce)
  {
  }

  // ---------------------------------------------------------------- bytes leave at most once

  function Sending(w: World, a: Action, nonce: Id): nat {
    if a.Send? && a.cli in w.clis && w.clis[a.cli].nonce == nonce then 1 else 0
  }

  /** How often a run hands apply bytes for `nonce` to the transport. */
  ghost function Sendings(w: World, actions: seq<Action>, nonce: Id): nat
    decreases |actions|
  {
    if actions == [] then 0 else Sending(w, actions[0], nonce) + Sendings(Step(w, actions[0]), actions[1..], nonce)
  }

  /** A command line that has not sent for its nonce yet. */
  ghost predicate MaySend(w: World, nonce: Id) {
    exists c | c in w.clis :: w.clis[c].nonce == nonce && (w.clis[c].phase.Shown? || w.clis[c].phase.Journaled?)
  }

  ghost predicate Taken(w: World, nonce: Id) {
    exists c | c in w.clis :: w.clis[c].nonce == nonce
  }

  /** A command line keeps its nonce, and one that has sent never sends again. */
  lemma CliStep(w: World, a: Action, c: nat)
    requires Enabled(w, a) && c in w.clis
    ensures var w1 := Step(w, a);
            && c in w1.clis && w1.clis[c].nonce == w.clis[c].nonce
            && (!w.clis[c].phase.Shown? && !w.clis[c].phase.Journaled? ==>
                  !w1.clis[c].phase.Shown? && !w1.clis[c].phase.Journaled?)
            && (Sending(w, a, w.clis[c].nonce) == 1 && a.cli == c ==> w.clis[c].phase.Journaled? && w1.clis[c].phase.Waiting?)
  {
    hide Applied, Challenged, ReportOf, NotOurs, Unseen;
  }

  lemma NewCliStep(w: World, a: Action, c: nat)
    requires Enabled(w, a) && c in Step(w, a).clis && c !in w.clis
    ensures !Taken(w, Step(w, a).clis[c].nonce)
  {
    hide Applied, Challenged, ReportOf, NotOurs;
  }

  lemma SendingStep(mild: set<nat>, w: World, a: Action, nonce: Id)
    requires Good(mild, w) && Enabled(w, a)
    ensures var w1 := Step(w, a);
            && (Taken(w, nonce) ==> Taken(w1, nonce))
            && (Taken(w, nonce) && !MaySend(w, nonce) ==> !MaySend(w1, nonce) && Sending(w, a, nonce) == 0)
            && (Sending(w, a, nonce) == 1 ==> Taken(w1, nonce) && !MaySend(w1, nonce))
  {
    hide Step, Enabled, Receipts, AllOk;
    var w1 := Step(w, a);
    if Taken(w, nonce) {
      var c :| c in w.clis && w.clis[c].nonce == nonce;
      CliStep(w, a, c);
      forall d | d in w1.clis && w1.clis[d].nonce == nonce ensures d == c {
        if d in w.clis {
          CliStep(w, a, d);
        } else {
          NewCliStep(w, a, d);
        }
      }
    }
  }

  /** The apply bytes of a nonce leave at most once, in every run. */
  lemma {:induction false} BytesLeaveAtMostOnce(mild: set<nat>, w: World, actions: seq<Action>, nonce: Id)
    requires Good(mild, w) && Runs(w, actions) && AllMild(mild, actions)
    ensures Sendings(w, actions, nonce) <= 1
    ensures Taken(w, nonce) && !MaySend(w, nonce) ==> Sendings(w, actions, nonce) == 0
    decreases |actions|
  {
    hide Good, Step, Enabled, MaySend, Taken, Sending, Mild;
    if actions != [] {
      StepKeepsGood(mild, w, actions[0]);
      SendingStep(mild, w, actions[0], nonce);
      SendingIsOne(w, actions[0], nonce);
      BytesLeaveAtMostOnce(mild, Step(w, actions[0]), actions[1..], nonce);
    }
  }

  lemma SendingIsOne(w: World, a: Action, nonce: Id)
    ensures Sending(w, a, nonce) <= 1
  {
  }

  // ---------------------------------------------------------------- exactly when a refusal lies

  /** The reply of a request that commits. */
  lemma CommittedReply(d: Desk, history: seq<Commit>, r: Request, ending: Ending)
    requires Applied(d, history, r, ending).1 != history
    ensures ending.Decided?
    ensures var (d1, history1, reply) := Applied(d, history, r, ending);
            && |history1| == |history| + 1 && history1[|history|].nonce == r.nonce
            && ResultOf(d1, r.nonce) == Some(history1[|history|].answer)
            && reply == (match ending.reporting
                         case ReplyOk => Some(Ok(history1[|history|].answer))
                         case ErrorAfter(code) => Some(Error(code))
                         case NoReply => None)
  {
  }

  predicate Unambiguous(reply: Reply) {
    reply.Error? && reply.code !in AMBIGUOUS
  }

  /** How far a mistaken refusal of a committed action has come. */
  datatype Mistake = Nowhere | OnItsWay | Heard | Told

  /** The delivery commits the action of `cli` and answers with an error that reads as a refusal. */
  ghost predicate Misanswers(w: World, a: Action, cli: nat) {
    && a.Deliver? && a.cli == cli && Step(w, a).history != w.history
    && a.ending.Decided? && a.ending.reporting.ErrorAfter? && a.ending.reporting.code !in AMBIGUOUS
  }

  function Heed(a: Action, cli: nat, k: Mistake): Mistake {
    match k
    case OnItsWay => if a == Receive(cli) then Heard else k
    case Heard => if a.Conclude? && a.cli == cli then Told else k
    case _ => k
  }

  ghost function Next(w: World, a: Action, cli: nat, k: Mistake): Mistake {
    if k == Nowhere && Misanswers(w, a, cli) then OnItsWay else Heed(a, cli, k)
  }

  lemma NextIsHeed(w: World, a: Action, cli: nat, k: Mistake)
    requires !a.Deliver? || a.cli != cli
    ensures Next(w, a, cli, k) == Heed(a, cli, k)
    ensures !ClientAction(a) || a.cli != cli ==> Heed(a, cli, k) == k
  {
    hide Step;
  }

  /** A run makes the mistake for `cli`: a delivery misanswers, `cli` receives that reply, and concludes. */
  ghost function Traced(w: World, actions: seq<Action>, cli: nat, k: Mistake): Mistake
    decreases |actions|
  {
    if actions == [] then k else Traced(Step(w, actions[0]), actions[1..], cli, Next(w, actions[0], cli, k))
  }

  predicate ReadsAsRefusal(phase: Phase) {
    (phase.Answered? && Unambiguous(phase.reply)) || (phase.Reported? && phase.report.Refusal?)
  }

  predicate Linked(v: View, k: Mistake) {
    && (v.inFlight ==> k == Nowhere && !ReadsAsRefusal(v.phase))
    && match k
       case Nowhere => v.result.Some? ==> !ReadsAsRefusal(v.phase) && (v.pending.Some? ==> !Unambiguous(v.pending.value))
       case OnItsWay =>
         v.result.Some? && !ReadsAsRefusal(v.phase) && (v.pending.Some? ==> Unambiguous(v.pending.value))
       case Heard => v.result.Some? && (v.phase.Dead? || (v.phase.Answered? && Unambiguous(v.phase.reply)))
       case Told => v.result.Some? && v.phase.Reported? && v.phase.report.Refusal?
  }

  predicate LinkedAt(w: World, cli: nat, k: Mistake) {
    if cli in w.clis then Linked(ViewOf(w, cli), k) else k == Nowhere
  }

  lemma OwnStepLinks(a: Action, v: View, v1: View, k: Mistake)
    requires ClientAction(a) && ViewOk(false, v) && OwnStep(a, v, v1) && Linked(v, k)
    ensures Linked(v1, Heed(a, a.cli, k))
  {
  }

  lemma SameLink(w: World, w1: World, cli: nat, k: Mistake)
    requires LinkedAt(w, cli, k) && (cli in w.clis <==> cli in w1.clis)
    requires cli in w.clis ==> ViewOf(w1, cli) == ViewOf(w, cli)
    ensures LinkedAt(w1, cli, k)
  {
  }

  lemma LinkIs(w: World, cli: nat, k: Mistake)
    requires cli in w.clis
    ensures LinkedAt(w, cli, k) <==> Linked(ViewOf(w, cli), k)
  {
  }

  lemma GoodView(w: World, cli: nat)
    requires Good({}, w) && cli in w.clis
    ensures ViewOk(false, ViewOf(w, cli))
  {
  }

  lemma GoodIs(w: World)
    requires Good({}, w)
    ensures Receipts(w.desk, w.history) && Addressed(w)
  {
  }

  lemma OwnNonce(w: World, c: nat, d: nat)
    requires Addressed(w) && c in w.clis && d in w.clis && c != d
    ensures w.clis[c].nonce != w.clis[d].nonce
  {
  }

  lemma ClientLinks(w: World, a: Action, cli: nat, k: Mistake)
    requires Good({}, w) && Enabled(w, a) && ClientAction(a) && LinkedAt(w, cli, k)
    ensures LinkedAt(Step(w, a), cli, Next(w, a, cli, k))
  {
    assert !a.Deliver?;
    hide *;
    GoodIs(w);
    ClientKeepsAddresses(w, a);
    NextIsHeed(w, a, cli, k);
    if cli !in w.clis {
      SameLink(w, Step(w, a), cli, k);
    } else if a.cli == cli {
      GoodView(w, cli);
      OwnView(w, a);
      LinkIs(w, cli, k);
      OwnStepLinks(a, ViewOf(w, cli), ViewOf(Step(w, a), cli), k);
      LinkIs(Step(w, a), cli, Heed(a, cli, k));
    } else {
      OwnNonce(w, cli, a.cli);
      OtherView(w, a, cli);
      SameLink(w, Step(w, a), cli, k);
    }
  }

  lemma DeliveryLinks(w: World, a: Action, cli: nat, k: Mistake)
    requires Good({}, w) && Enabled(w, a) && a.Deliver? && LinkedAt(w, cli, k)
    ensures LinkedAt(Step(w, a), cli, Next(w, a, cli, k))
  {
    assert a.cli in w.flying;
    hide *;
    if a.cli == cli {
      OwnDeliveryLinks(w, cli, a.swept, a.ending, k);
    } else {
      GoodIs(w);
      NextIsHeed(w, a, cli, k);
      DeliverKeepsAddresses(w, a.cli, a.swept, a.ending);
      if cli in w.clis {
        OtherDelivery(w, a.cli, a.swept, a.ending, cli);
      }
      SameLink(w, Step(w, a), cli, k);
    }
  }

  lemma FlyingIsOpen(w: World, cli: nat)
    requires Good({}, w) && cli in w.flying
    ensures cli in w.clis && w.flying[cli].nonce == w.clis[cli].nonce
    ensures ViewOf(w, cli).inFlight && ViewOf(w, cli).result == None && cli !in w.replies
  {
  }

  lemma DeliveredLinks(v: View, result: Option<Answer>, reply: Option<Reply>, mistaken: bool, k: Mistake)
    requires v.inFlight && Linked(v, k)
    requires result.Some? ==> (mistaken <==> reply.Some? && Unambiguous(reply.value))
    requires mistaken ==> result.Some?
    ensures k == Nowhere
    ensures Linked(v.(result := result, inFlight := false, pending := reply), if mistaken then OnItsWay else Nowhere)
  {
  }

  lemma MisanswersIs(w: World, cli: nat, swept: Vault, ending: Ending)
    requires Good({}, w) && cli in w.flying
    ensures var done := Applied(w.desk.(vault := swept), w.history, w.flying[cli], ending);
            var mistaken := Misanswers(w, Deliver(cli, swept, ending), cli);
            && (mistaken ==> ResultOf(done.0, w.flying[cli].nonce).Some?)
            && (ResultOf(done.0, w.flying[cli].nonce).Some? ==> (mistaken <==> done.2.Some? && Unambiguous(done.2.value)))
  {
    hide Receipts, Applied, Step, AllOk, Addressed;
    FlyingIsOpen(w, cli);
    GoodIs(w);
    OwnDelivery(w, cli, swept, ending);
    var d, r := w.desk.(vault := swept), w.flying[cli];
    UncommittedResult(d, w.history, r, ending);
    if Applied(d, w.history, r, ending).1 != w.history {
      CommittedReply(d, w.history, r, ending);
    }
  }

  lemma OwnDeliveryLinks(w: World, cli: nat, swept: Vault, ending: Ending, k: Mistake)
    requires Good({}, w) && cli in w.flying && LinkedAt(w, cli, k)
    ensures LinkedAt(Step(w, Deliver(cli, swept, ending)), cli, Next(w, Deliver(cli, swept, ending), cli, k))
  {
    hide *;
    var a := Deliver(cli, swept, ending);
    var done := Applied(w.desk.(vault := swept), w.history, w.flying[cli], ending);
    FlyingIsOpen(w, cli);
    GoodIs(w);
    LinkIs(w, cli, k);
    OwnDelivery(w, cli, swept, ending);
    MisanswersIs(w, cli, swept, ending);
    DeliveredLinks(ViewOf(w, cli), ResultOf(done.0, w.clis[cli].nonce), done.2, Misanswers(w, a, cli), k);
    LinkIs(Step(w, a), cli, if Misanswers(w, a, cli) then OnItsWay else Nowhere);
    NextOfDelivery(w, a, cli);
  }

  lemma NextOfDelivery(w: World, a: Action, cli: nat)
    requires a.Deliver?
    ensures Next(w, a, cli, Nowhere) == if Misanswers(w, a, cli) then OnItsWay else Nowhere
  {
    hide Misanswers;
  }

  lemma UncommittedResult(d: Desk, history: seq<Commit>, r: Request, ending: Ending)
    ensures var done := Applied(d, history, r, ending);
            done.1 == history ==> ResultOf(done.0, r.nonce) == ResultOf(d, r.nonce)
  {
  }

  lemma RestLinks(w: World, a: Action, cli: nat, k: Mistake)
    requires Good({}, w) && Enabled(w, a) && LinkedAt(w, cli, k)
    requires a.Preview? || a.PreviewElsewhere? || a.Foreign? || a.Work?
    ensures LinkedAt(Step(w, a), cli, Next(w, a, cli, k))
  {
    assert !ClientAction(a);
    hide Receipts, Applied, Challenged, AllOk, ViewOf, Linked, LinkedAt, Next, Heed, Addressed;
    NextIsHeed(w, a, cli, k);
    if a.Preview? || a.PreviewElsewhere? {
      ChallengedKeepsReceipts(w.desk, w.history, a.nonce, a.shown, a.clock, a.expires);
    }
    if a.Preview? && a.cli == cli {
      NewLinks(w, Step(w, a), cli, k);
    } else {
      if cli in w.clis {
        if a.Foreign? {
          ForeignView(w, a.request, a.swept, a.ending, cli);
        } else {
          SameView(w, Step(w, a), cli);
        }
      }
      SameLink(w, Step(w, a), cli, k);
    }
  }

  lemma NewLinks(w: World, w1: World, cli: nat, k: Mistake)
    requires Addressed(w) && cli !in w.clis && LinkedAt(w, cli, k) && w1.flying == w.flying
    requires cli in w1.clis && w1.clis[cli].phase == Shown && w1.clis[cli].nonce !in w1.desk.results
    ensures LinkedAt(w1, cli, k)
  {
  }

  lemma StepLinks(w: World, a: Action, cli: nat, k: Mistake)
    requires Good({}, w) && Enabled(w, a) && LinkedAt(w, cli, k)
    ensures LinkedAt(Step(w, a), cli, Next(w, a, cli, k))
  {
    hide Good, Enabled, Step, LinkedAt, Next;
    if a.Deliver? {
      DeliveryLinks(w, a, cli, k);
    } else if ClientAction(a) {
      ClientLinks(w, a, cli, k);
    } else {
      RestLinks(w, a, cli, k);
    }
  }

  lemma {:induction false} RunLinks(w: World, actions: seq<Action>, cli: nat, k: Mistake)
    requires Good({}, w) && Runs(w, actions) && LinkedAt(w, cli, k)
    ensures Good({}, After(w, actions)) && LinkedAt(After(w, actions), cli, Traced(w, actions, cli, k))
    decreases |actions|
  {
    hide Good, Enabled, Step, LinkedAt, Next;
    if actions != [] {
      NothingIsMild(actions[0]);
      StepKeepsGood({}, w, actions[0]);
      StepLinks(w, actions[0], cli, k);
      RunLinks(Step(w, actions[0]), actions[1..], cli, Next(w, actions[0], cli, k));
    }
  }

  lemma NothingIsMild(a: Action)
    ensures Mild({}, a)
  {
  }

  ghost predicate RefusedButCommitted(w: World, cli: nat) {
    && cli in w.clis && w.clis[cli].phase.Reported? && w.clis[cli].phase.report.Refusal?
    && Committed(w, w.clis[cli].nonce)
  }

  /** In every run of any number of command lines, crashes, losses and late deliveries, a committed action is
      reported as refused if and only if the delivery that committed it answered with an error that
      reads as a refusal, the command line received that reply, and it concluded from it. */
  lemma RefusalLiesIff(w: World, actions: seq<Action>, cli: nat)
    requires Good({}, w) && cli !in w.clis && Runs(w, actions)
    ensures var w1 := After(w, actions);
            RefusedButCommitted(w1, cli) <==> Traced(w, actions, cli, Nowhere) == Told
  {
    var w1 := After(w, actions);
    hide Traced, After, Runs, AllOk;
    RunLinks(w, actions, cli, Nowhere);
    if cli in w1.clis {
      ResultIsCommit(w1.desk, w1.history, w1.clis[cli].nonce);
      assert Committed(w1, w1.clis[cli].nonce) <==> ViewOf(w1, cli).result.Some?;
    }
  }

  lemma ResultIsCommit(d: Desk, history: seq<Commit>, nonce: Id)
    requires Receipts(d, history)
    ensures ResultOf(d, nonce).Some? <==> exists c | c in history :: c.nonce == nonce
    ensures ResultOf(d, nonce).Some? ==> exists c | c in history :: c.nonce == nonce && c.answer == ResultOf(d, nonce).value
  {
  }

  /** What a command line reports about an action that has committed, in whatever world it concludes: a
      refusal if and only if its reply was an error outside the ambiguous codes; the committed
      answer if the reply carried it or the receipt can be reached; and unknown otherwise. */
  lemma ReportOfACommit(mild: set<nat>, w: World, cli: nat, reachable: bool)
    requires Good(mild, w) && cli in w.clis && w.clis[cli].phase.Answered? && Committed(w, w.clis[cli].nonce)
    ensures var w1 := Step(w, Conclude(cli, reachable));
            var reply := w.clis[cli].phase.reply;
            && cli in w1.clis && w1.clis[cli].phase.Reported?
            && var report := w1.clis[cli].phase.report;
               && (report.Refusal? <==> Unambiguous(reply))
               && (reply.Ok? || (!Unambiguous(reply) && reachable) ==>
                     report.Success? && exists c | c in w.history :: c.nonce == w.clis[cli].nonce && c.answer == report.answer)
               && (!reply.Ok? && !Unambiguous(reply) && !reachable ==> report == Unknown)
  {
    assert ViewOk(cli in mild, ViewOf(w, cli));
    ResultIsCommit(w.desk, w.history, w.clis[cli].nonce);
    hide Applied, Challenged, Receipts, AllOk, Addressed;
  }

  function EmptyVault(): Vault {
    var book := Ledger.Book(0, map[], map[], {}, {}, map[]);
    Vault(book, map[], {}, map[], map[], map[], map[], map[], map[], map[], map[], {}, map[], map[], map[], map[])
  }

  /** A world in which nobody has asked for anything yet keeps all that the runs rely on. */
  lemma StartIsGood(mild: set<nat>, v: Vault)
    ensures Good(mild, Start(v))
  {
  }

  function Start(v: Vault): World {
    World(Desk(v, map[], map[]), [], map[], map[], map[], map[])
  }

  /** The one command line of the run below, in each of its states. */
  function Misreport(desk: Desk, history: seq<Commit>, p: Approvals.Preview, code: string, journaled: bool, phase: Phase,
                     flying: bool, replied: bool): World
  {
    World(desk, history, if journaled then map["n" := Durable] else map[], map[0 := Cli("n", p, phase)],
          if flying then map[0 := Request("n", p, p, true)] else map[],
          if replied then map[0 := Error(code)] else map[])
  }

  /** The desk after the preview was shown. */
  function Asked(v: Vault, p: Approvals.Preview): Desk {
    Desk(v, map["n" := Challenge(OperationOf(p), ProjectOf(p), p, 60, None)], map[])
  }

  lemma MisreportPreview(v: Vault, p: Approvals.Preview, code: string)
    ensures Enabled(Start(v), Preview(0, "n", p, 0, 60))
    ensures Step(Start(v), Preview(0, "n", p, 0, 60)) == Misreport(Asked(v, p), [], p, code, false, Shown, false, false)
  {
    hide Applied;
    assert Kept(map[], 0) == map[];
  }

  lemma MisreportClient(d: Desk, p: Approvals.Preview, code: string)
    ensures var w := Misreport(d, [], p, code, false, Shown, false, false);
            Enabled(w, Persist(0)) && Step(w, Persist(0)) == Misreport(d, [], p, code, true, Journaled, false, false)
    ensures var w := Misreport(d, [], p, code, true, Journaled, false, false);
            Enabled(w, Send(0, true)) && Step(w, Send(0, true)) == Misreport(d, [], p, code, true, Waiting, true, false)
  {
    hide Applied, Challenged, NotOurs, Unseen;
  }

  lemma MisreportDelivery(v: Vault, p: Approvals.Preview, m: Moment, code: string, op: Op)
    requires Decide(v, p, m) == Done(op) && Settles(op)
    ensures var w := Misreport(Asked(v, p), [], p, code, true, Waiting, true, false);
            var a := Deliver(0, v, Decided("owner", 0, m, ErrorAfter(code)));
            var r := Request("n", p, p, true);
            && Enabled(w, a)
            && Step(w, a) == Misreport(Settle(Asked(v, p), r, "owner", m, op), [Commit("n", op, AnswerOf(v, op))], p, code, true,
                                       Waiting, false, true)
  {
    var d, r := Asked(v, p), Request("n", p, p, true);
    hide Decide, AnswerOf, Settle, Settles;
    assert d.(vault := v) == d;
    assert ApplyCheck(d, r, 0, m) == Done(op);
    var w := Misreport(d, [], p, code, true, Waiting, true, false);
    assert w.flying - {0} == map[];
    assert [] + [Commit("n", op, AnswerOf(v, op))] == [Commit("n", op, AnswerOf(v, op))];
  }

  lemma MisreportReceipt(d: Desk, history: seq<Commit>, p: Approvals.Preview, code: string)
    ensures var w := Misreport(d, history, p, code, true, Waiting, false, true);
            && Enabled(w, Receive(0))
            && Step(w, Receive(0)) == Misreport(d, history, p, code, true, Answered(Error(code)), false, false)
  {
    hide Applied, Challenged, NotOurs, Unseen, ReportOf;
  }

  lemma MisreportReport(d: Desk, history: seq<Commit>, p: Approvals.Preview, code: string)
    requires code !in AMBIGUOUS
    ensures var w := Misreport(d, history, p, code, true, Answered(Error(code)), false, false);
            && Enabled(w, Conclude(0, true))
            && Step(w, Conclude(0, true)) == Misreport(d, history, p, code, true, Reported(Refusal(code)), false, false)
  {
    hide Applied, Challenged, NotOurs, Unseen;
  }

  function Misreporting(v: Vault, p: Approvals.Preview, m: Moment, code: string): seq<Action> {
    [Preview(0, "n", p, 0, 60), Persist(0), Send(0, true), Deliver(0, v, Decided("owner", 0, m, ErrorAfter(code))),
     Receive(0), Conclude(0, true)]
  }

  /** Any approved action that can be carried out can be reported as refused: it is enough that an error
      outside the ambiguous codes follows its commit. */
  lemma AnyCommitCanBeMisreported(v: Vault, p: Approvals.Preview, m: Moment, code: string)
    requires Decide(v, p, m).Done? && Settles(Decide(v, p, m).value) && code !in AMBIGUOUS
    ensures var run := Misreporting(v, p, m, code);
            && Runs(Start(v), run)
            && Committed(After(Start(v), run), "n")
            && After(Start(v), run).desk.vault == ApplyOp(v, Decide(v, p, m).value)
            && InPhase(After(Start(v), run), 0, Reported(Refusal(code)))
  {
    var op := Decide(v, p, m).value;
    var commit := Commit("n", op, AnswerOf(v, op));
    MisreportPreview(v, p, code);
    MisreportDelivery(v, p, m, code, op);
    var desk1 := Settle(Asked(v, p), Request("n", p, p, true), "owner", m, op);
    assert desk1.vault == ApplyOp(v, op);
    hide Runs, After, AnswerOf, Step, Enabled, Settle, Decide, Settles, Asked, ApplyOp;
    MisreportClient(Asked(v, p), p, code);
    MisreportReceipt(desk1, [commit], p, code);
    MisreportReport(desk1, [commit], p, code);
    RunsSix(Start(v), Preview(0, "n", p, 0, 60), Persist(0), Send(0, true),
            Deliver(0, v, Decided("owner", 0, m, ErrorAfter(code))), Receive(0), Conclude(0, true));
    assert commit in [commit];
  }

  /** The vault after one proposal. */
  function DraftVault(): Vault {
    var c := Content("p", "tea", "tea", "green", "", "agent", "internal", Ledger.Forever, {"*"}, Ledger.Unknown, None, None);
    ProposeOp(EmptyVault(), Propose("d", c, "codex", "key-0001", "a", 0))
  }

  lemma DraftCanBeForgotten(m: Moment)
    ensures VaultInv(DraftVault())
    ensures var scope := ScopeOfProposal(DraftVault(), "p", "d");
            && scope.Some?
            && Decide(DraftVault(), ForgetDraft("p", "d", scope.value), m) == Done(ForgetProposal("d", m.receipt))
  {
    FreshVaultInv(EmptyVault());
    var c := Content("p", "tea", "tea", "green", "", "agent", "internal", Ledger.Forever, {"*"}, Ledger.Unknown, None, None);
    ProposeKeepsVault(EmptyVault(), Propose("d", c, "codex", "key-0001", "a", 0));
    assert AcceptedFrom(DraftVault(), "p", "d") == map[];
    hide VaultInv, AcceptedFrom;
  }

  /** The forget commits, and the checkpoint after it runs one more statement. On Windows the guard before
      that statement can raise `unsafe_permissions`; the handler passes the code on, and the command
      line reports that the forget was refused. */
  lemma MisreportedCommit(m: Moment)
    ensures ScopeOfProposal(DraftVault(), "p", "d").Some?
    ensures var p := ForgetDraft("p", "d", ScopeOfProposal(DraftVault(), "p", "d").value);
            var run := Misreporting(DraftVault(), p, m, "unsafe_permissions");
            var w1 := After(Start(DraftVault()), run);
            && Runs(Start(DraftVault()), run)
            && Committed(w1, "n") && w1.desk.vault == ApplyOp(DraftVault(), ForgetProposal("d", m.receipt))
            && InPhase(w1, 0, Reported(Refusal("unsafe_permissions")))
  {
    hide Runs, After, ApplyOp, Decide, ScopeOfProposal, DraftVault, Misreporting;
    DraftCanBeForgotten(m);
    AnyCommitCanBeMisreported(DraftVault(), ForgetDraft("p", "d", ScopeOfProposal(DraftVault(), "p", "d").value), m,
                              "unsafe_permissions");
  }

  lemma RunsSix(w: World, a: Action, b: Action, c: Action, d: Action, e: Action, f: Action)
    requires var w1 := Step(w, a); var w2 := Step(w1, b); var w3 := Step(w2, c); var w4 := Step(w3, d); var w5 := Step(w4, e);
             Enabled(w, a) && Enabled(w1, b) && Enabled(w2, c) && Enabled(w3, d) && Enabled(w4, e) && Enabled(w5, f)
    ensures Runs(w, [a, b, c, d, e, f])
    ensures After(w, [a, b, c, d, e, f]) == Step(Step(Step(Step(Step(Step(w, a), b), c), d), e), f)
  {
    hide Enabled, Step;
    var w1 := Step(w, a);
    var w2 := Step(w1, b);
    var w3 := Step(w2, c);
    var w4 := Step(w3, d);
    var w5 := Step(w4, e);
    var w6 := Step(w5, f);
    assert Runs(w6, []) && After(w6, []) == w6;
    assert [f][1..] == [] && Runs(w5, [f]) && After(w5, [f]) == w6;
    assert [e, f][1..] == [f] && Runs(w4, [e, f]) && After(w4, [e, f]) == w6;
    assert [d, e, f][1..] == [e, f] && Runs(w3, [d, e, f]) && After(w3, [d, e, f]) == w6;
    assert [c, d, e, f][1..] == [d, e, f] && Runs(w2, [c, d, e, f]) && After(w2, [c, d, e, f]) == w6;
    assert [b, c, d, e, f][1..] == [c, d, e, f] && Runs(w1, [b, c, d, e, f]) && After(w1, [b, c, d, e, f]) == w6;
    assert [a, b, c, d, e, f][1..] == [b, c, d, e, f];
  }
}
