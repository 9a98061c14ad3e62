/** The bitemporal ledger: claim threads, immutable versions with a recorded interval
    `[ingest, retired)`, their disclosures, and the per-audience timelines. */
module Ledger {
  import opened Basics

  /** The disclosure wildcard. */
  const EVERYONE: Provider := "*"

  datatype Lifecycle = Active | Superseded | Expired

  datatype Precision = Unknown | Instant | Open | Interval

  datatype Retention = Forever | Until(deadline: Time)

  datatype Thread = Thread(project: Project, subject: string, key: string)

  datatype Version = Version(
    thread: Id, project: Project, evidence: Option<Id>, body: string, retention: Retention,
    precision: Precision, validFrom: Option<Time>, validTo: Option<Time>,
    lifecycle: Lifecycle, ingest: nat, retired: Option<nat>, retiredAt: Option<Time>)

  /** One row of `audience_sequences`. */
  datatype Event = Event(project: Project, provider: Provider, local: nat, recorded: nat)

  /** `providers` holds the capability rows of each project; only bootstrap writes them. */
  datatype Book = Book(
    sequence: nat,
    threads: map<Id, Thread>,
    versions: map<Id, Version>,
    disclosures: set<(Id, Provider)>,
    audience: set<Event>,
    providers: map<Project, set<Provider>>)

  /** A committed change of the ledger. `Tick` stands for the transactions that only
      consume a sequence number here: proposals, rejections, purges and feedback. */
  datatype Step =
    | Admit(id: Id, row: Version, thread: Thread, disclosure: set<Provider>,
            supersedes: Option<Id>, now: Time)
    | Expire(id: Id, now: Time)
    | Forget(threadId: Id)
    | Tick

  // ---------------------------------------------------------------- audience timelines

  function Configured(b: Book, project: Project): set<Provider> {
    if project in b.providers then b.providers[project] else {}
  }

  /** Who is told about a change to `ids`: the named audiences, the wildcard replaced by
      every provider configured for the project. */
  function Audience(b: Book, project: Project, ids: set<Id>): set<Provider> {
    var named := set d | d in b.disclosures && d.0 in ids :: d.1;
    if EVERYONE in named then named - {EVERYONE} + Configured(b, project) else named
  }

  function LocalNumbers(rows: set<Event>, project: Project, provider: Provider): set<nat> {
    set e | e in rows && e.project == project && e.provider == provider :: e.local
  }

  function LocalHead(rows: set<Event>, project: Project, provider: Provider): nat {
    MaxOf(LocalNumbers(rows, project, provider))
  }

  predicate Announced(rows: set<Event>, project: Project, provider: Provider, recorded: nat) {
    exists e | e in rows :: e.project == project && e.provider == provider && e.recorded == recorded
  }

  /** One `INSERT OR IGNORE` per provider. */
  function Announce(rows: set<Event>, project: Project, recorded: nat, told: set<Provider>): set<Event> {
    rows + set q | q in told && !Announced(rows, project, q, recorded)
             :: Event(project, q, LocalHead(rows, project, q) + 1, recorded)
  }

  // ---------------------------------------------------------------- steps

  function VersionsOf(b: Book, threadId: Id): set<Id> {
    set id | id in b.versions && b.versions[id].thread == threadId
  }

  predicate OrderedBounds(row: Version) {
    && (row.precision == Unknown ==> row.validFrom == None && row.validTo == None)
    && (row.validFrom.Some? && row.validTo.Some? ==> row.validFrom.value <= row.validTo.value)
  }

  predicate Current(b: Book, id: Id) {
    id in b.versions && b.versions[id].lifecycle == Active && b.versions[id].retired == None
  }

  predicate Enabled(b: Book, step: Step) {
    match step
    case Admit(id, row, thread, disclosure, supersedes, now) =>
      && id !in b.versions
      && row.project == thread.project
      && OrderedBounds(row)
      && (row.thread in b.threads ==> b.threads[row.thread] == thread)
      && (supersedes.Some? ==>
            Current(b, supersedes.value) && b.versions[supersedes.value].thread == row.thread
            && row.thread in b.threads)
    case Expire(id, now) =>
      && Current(b, id)
      && b.versions[id].retention.Until? && b.versions[id].retention.deadline <= now
    case Forget(threadId) => threadId in b.threads
    case Tick => true
  }

  function Retire(row: Version, lifecycle: Lifecycle, recorded: nat, now: Time): Version {
    row.(lifecycle := lifecycle, retired := Some(recorded), retiredAt := Some(now))
  }

  /** The disclosure rows of one version. */
  function Shown(id: Id, disclosure: set<Provider>): set<(Id, Provider)> {
    set q | q in disclosure :: (id, q)
  }

  function AdmitStep(b: Book, step: Step): Book
    requires step.Admit? && Enabled(b, step)
  {
    var s := b.sequence + 1;
    var entry := step.row.(lifecycle := Active, ingest := s, retired := None, retiredAt := None);
    var kept := match step.supersedes
                case None => b.versions
                case Some(prior) => b.versions[prior := Retire(b.versions[prior], Superseded, s, step.now)];
    var shown := b.disclosures + Shown(step.id, step.disclosure);
    var b1 := b.(sequence := s, threads := b.threads[step.row.thread := step.thread],
                 versions := kept[step.id := entry], disclosures := shown);
    var changed := {step.id} + if step.supersedes.Some? then {step.supersedes.value} else {};
    b1.(audience := Announce(b1.audience, step.row.project, s, Audience(b1, step.row.project, changed)))
  }

  function ExpireStep(b: Book, id: Id, now: Time): Book
    requires id in b.versions
  {
    var s := b.sequence + 1;
    var row := b.versions[id];
    b.(sequence := s, versions := b.versions[id := Retire(row, Expired, s, now)],
       audience := Announce(b.audience, row.project, s, Audience(b, row.project, {id})))
  }

  function ForgetStep(b: Book, threadId: Id): Book
    requires threadId in b.threads
  {
    var s := b.sequence + 1;
    var gone := VersionsOf(b, threadId);
    var project := b.threads[threadId].project;
    b.(sequence := s, threads := b.threads - {threadId}, versions := b.versions - gone,
       disclosures := (set d | d in b.disclosures && d.0 !in gone),
       audience := Announce(b.audience, project, s, Audience(b, project, gone)))
  }

  /** A step whose guard fails is rolled back. */
  function Apply(b: Book, step: Step): Book {
    if !Enabled(b, step) then b
    else
      match step
      case Admit(_, _, _, _, _, _) => AdmitStep(b, step)
      case Expire(id, now) => ExpireStep(b, id, now)
      case Forget(threadId) => ForgetStep(b, threadId)
      case Tick => b.(sequence := b.sequence + 1)
  }

  function Run(b: Book, steps: seq<Step>): Book
    decreases |steps|
  {
    if steps == [] then b else Run(Apply(b, steps[0]), steps[1..])
  }

  lemma {:induction false} RunConcat(b: Book, first: seq<Step>, second: seq<Step>)
    ensures Run(b, first + second) == Run(Run(b, first), second)
    decreases |first|
  {
    hide Apply;
    if first == [] {
      assert first + second == second;
    } else {
      assert (first + second)[1..] == first[1..] + second;
      RunConcat(Apply(b, first[0]), first[1..], second);
    }
  }

  // ---------------------------------------------------------------- invariants

  ghost predicate RowsOk(b: Book) {
    forall id | id in b.versions ::
      var row := b.versions[id];
      && 1 <= row.ingest <= b.sequence
      && (row.retired.Some? ==> row.ingest < row.retired.value <= b.sequence)
      && (row.lifecycle == Active <==> row.retired == None)
      && (row.retired == None <==> row.retiredAt == None)
      && OrderedBounds(row)
      && row.thread in b.threads && b.threads[row.thread].project == row.project
  }

  ghost predicate IngestUnique(b: Book) {
    forall i, j | i in b.versions && j in b.versions && b.versions[i].ingest == b.versions[j].ingest :: i == j
  }

  ghost predicate DisclosuresOk(b: Book) {
    forall d | d in b.disclosures :: d.0 in b.versions
  }

  /** One audience's timeline: numbered 1..n without gaps, in recorded order. */
  ghost predicate Dense(rows: set<Event>, project: Project, provider: Provider) {
    && (forall k: nat :: k in LocalNumbers(rows, project, provider)
                         <==> 1 <= k <= LocalHead(rows, project, provider))
    && (forall d, e | d in rows && e in rows && d.project == e.project == project
                      && d.provider == e.provider == provider
          :: d.local < e.local <==> d.recorded < e.recorded)
  }

  ghost predicate TimelinesOk(b: Book) {
    && (forall e | e in b.audience :: 1 <= e.recorded <= b.sequence && e.provider != EVERYONE)
    && (forall project, provider :: Dense(b.audience, project, provider))
  }

  /** The disclosure test of every non-owner read: `provider IN (?, '*')`. */
  predicate Disclosed(b: Book, id: Id, provider: Provider) {
    (id, provider) in b.disclosures || (id, EVERYONE) in b.disclosures
  }

  /** An audience that is told about `id`: named, or configured and reached by the wildcard. */
  predicate Told(b: Book, id: Id, provider: Provider)
    requires id in b.versions
  {
    && provider != EVERYONE
    && ((id, provider) in b.disclosures
        || ((id, EVERYONE) in b.disclosures && provider in Configured(b, b.versions[id].project)))
  }

  /** Every ingest and every retirement an audience can see is an event of its timeline. */
  ghost predicate EventsComplete(b: Book) {
    forall id, provider | id in b.versions && Told(b, id, provider) ::
      var row := b.versions[id];
      && Announced(b.audience, row.project, provider, row.ingest)
      && (row.retired.Some? ==> Announced(b.audience, row.project, provider, row.retired.value))
  }

  ghost predicate ConfiguredOk(b: Book) {
    forall project | project in b.providers :: EVERYONE !in b.providers[project]
  }

  ghost predicate Inv(b: Book) {
    && RowsOk(b) && IngestUnique(b) && DisclosuresOk(b) && TimelinesOk(b) && EventsComplete(b)
    && ConfiguredOk(b)
  }

  /** A vault right after bootstrap. */
  ghost predicate Fresh(b: Book) {
    b.threads == map[] && b.versions == map[] && b.disclosures == {} && b.audience == {} && ConfiguredOk(b)
  }

  lemma FreshInv(b: Book)
    requires Fresh(b)
    ensures Inv(b)
  {
  }

  // ---------------------------------------------------------------- preservation

  /** The local numbers of an audience that is told gain exactly the next one. */
  lemma AnnounceNumbers(rows: set<Event>, project: Project, recorded: nat, told: set<Provider>, q: Provider)
    requires q in told && !Announced(rows, project, q, recorded)
    ensures var head := LocalHead(rows, project, q);
            var next := Announce(rows, project, recorded, told);
            && LocalNumbers(next, project, q) == LocalNumbers(rows, project, q) + {head + 1}
            && LocalHead(next, project, q) == head + 1
  {
  }

  /** Appending the newest recorded number keeps every timeline dense and ordered. */
  lemma AnnounceDense(rows: set<Event>, project: Project, recorded: nat, told: set<Provider>,
                      p: Project, q: Provider)
    requires Dense(rows, p, q)
    requires forall e | e in rows :: e.recorded < recorded
    ensures Dense(Announce(rows, project, recorded, told), p, q)
  {
    var next := Announce(rows, project, recorded, told);
    if p == project && q in told {
      AnnounceNumbers(rows, project, recorded, told, q);
      var e := Event(p, q, LocalHead(rows, p, q) + 1, recorded);
      forall c, d | c in next && d in next && c.project == d.project == p && c.provider == d.provider == q
        ensures c.local < d.local <==> c.recorded < d.recorded
      {
        assert c in rows || c == e;
        assert d in rows || d == e;
        assert c in rows ==> c.local in LocalNumbers(rows, p, q);
        assert d in rows ==> d.local in LocalNumbers(rows, p, q);
      }
    } else {
      forall c | c in next && c.project == p && c.provider == q ensures c in rows {}
      assert LocalNumbers(next, p, q) == LocalNumbers(rows, p, q);
    }
  }

  lemma AnnounceKeepsTimelines(b: Book, b1: Book, project: Project, told: set<Provider>)
    requires TimelinesOk(b) && EVERYONE !in told
    requires b1.sequence == b.sequence + 1
    requires b1.audience == Announce(b.audience, project, b.sequence + 1, told)
    ensures TimelinesOk(b1)
  {
    forall p, q ensures Dense(b1.audience, p, q) {
      AnnounceDense(b.audience, project, b.sequence + 1, told, p, q);
    }
  }

  lemma AnnounceTells(rows: set<Event>, project: Project, recorded: nat, told: set<Provider>)
    ensures rows <= Announce(rows, project, recorded, told)
    ensures forall q | q in told :: Announced(Announce(rows, project, recorded, told), project, q, recorded)
  {
  }

  lemma AudienceNamesNobodyReserved(b: Book, project: Project, ids: set<Id>)
    requires ConfiguredOk(b)
    ensures EVERYONE !in Audience(b, project, ids)
  {
  }

  /** Whoever can see one of the changed versions is told. */
  lemma AudienceReaches(b: Book, project: Project, ids: set<Id>, id: Id, provider: Provider)
    requires id in ids && id in b.versions && b.versions[id].project == project
    requires Told(b, id, provider)
    ensures provider in Audience(b, project, ids)
  {
  }

  lemma AnnouncedStays(rows: set<Event>, next: set<Event>, project: Project, provider: Provider, recorded: nat)
    requires rows <= next && Announced(rows, project, provider, recorded)
    ensures Announced(next, project, provider, recorded)
  {
  }

  lemma AdmitKeepsEvents(b: Book, step: Step)
    requires Inv(b) && step.Admit? && Enabled(b, step)
    ensures EventsComplete(AdmitStep(b, step))
  {
    var b1 := AdmitStep(b, step);
    var s := b.sequence + 1;
    var project := step.row.project;
    var changed := {step.id} + if step.supersedes.Some? then {step.supersedes.value} else {};
    var told := Audience(b1, project, changed);
    assert b1.audience == Announce(b.audience, project, s, told) by {
      assert told == Audience(b1.(audience := b.audience), project, changed);
    }
    AnnounceTells(b.audience, project, s, told);
    forall id, q | id in b1.versions && Told(b1, id, q)
      ensures Announced(b1.audience, b1.versions[id].project, q, b1.versions[id].ingest)
      ensures b1.versions[id].retired.Some? ==>
                Announced(b1.audience, b1.versions[id].project, q, b1.versions[id].retired.value)
    {
      if id in changed {
        AudienceReaches(b1, project, changed, id, q);
      }
      if id != step.id {
        assert Told(b, id, q);
        AnnouncedStays(b.audience, b1.audience, b.versions[id].project, q, b.versions[id].ingest);
      }
    }
  }

  lemma AdmitKeepsRows(b: Book, step: Step)
    requires Inv(b) && step.Admit? && Enabled(b, step)
    ensures RowsOk(AdmitStep(b, step))
  {
    hide TimelinesOk, EventsComplete, Announce, Audience;
  }

  lemma AdmitKeepsKeys(b: Book, step: Step)
    requires Inv(b) && step.Admit? && Enabled(b, step)
    ensures IngestUnique(AdmitStep(b, step)) && DisclosuresOk(AdmitStep(b, step))
  {
  }

  lemma AdmitKeepsInv(b: Book, step: Step)
    requires Inv(b) && step.Admit? && Enabled(b, step)
    ensures Inv(AdmitStep(b, step))
  {
    hide RowsOk, EventsComplete, Announce, Dense;
    var b1 := AdmitStep(b, step);
    var changed := {step.id} + if step.supersedes.Some? then {step.supersedes.value} else {};
    AudienceNamesNobodyReserved(b1, step.row.project, changed);
    assert Audience(b1, step.row.project, changed)
        == Audience(b1.(audience := b.audience), step.row.project, changed);
    AnnounceKeepsTimelines(b, b1, step.row.project, Audience(b1, step.row.project, changed));
    AdmitKeepsEvents(b, step);
    AdmitKeepsRows(b, step);
    AdmitKeepsKeys(b, step);
  }

  lemma ExpireKeepsEvents(b: Book, id: Id, now: Time)
    requires Inv(b) && Enabled(b, Expire(id, now))
    ensures EventsComplete(ExpireStep(b, id, now))
  {
    var b1 := ExpireStep(b, id, now);
    var project := b.versions[id].project;
    AnnounceTells(b.audience, project, b.sequence + 1, Audience(b, project, {id}));
    forall i, q | i in b1.versions && Told(b1, i, q)
      ensures Announced(b1.audience, b1.versions[i].project, q, b1.versions[i].ingest)
      ensures b1.versions[i].retired.Some? ==>
                Announced(b1.audience, b1.versions[i].project, q, b1.versions[i].retired.value)
    {
      assert Told(b, i, q);
      AnnouncedStays(b.audience, b1.audience, b.versions[i].project, q, b.versions[i].ingest);
      if i == id {
        AudienceReaches(b, project, {id}, i, q);
      }
    }
  }

  lemma ExpireKeepsInv(b: Book, id: Id, now: Time)
    requires Inv(b) && Enabled(b, Expire(id, now))
    ensures Inv(ExpireStep(b, id, now))
  {
    var b1 := ExpireStep(b, id, now);
    var project := b.versions[id].project;
    var told := Audience(b, project, {id});
    AudienceNamesNobodyReserved(b, project, {id});
    AnnounceKeepsTimelines(b, b1, project, told);
    ExpireKeepsEvents(b, id, now);
  }

  lemma ForgetKeepsInv(b: Book, threadId: Id)
    requires Inv(b) && threadId in b.threads
    ensures Inv(ForgetStep(b, threadId))
  {
    var b1 := ForgetStep(b, threadId);
    var project := b.threads[threadId].project;
    var gone := VersionsOf(b, threadId);
    var told := Audience(b, project, gone);
    AudienceNamesNobodyReserved(b, project, gone);
    AnnounceKeepsTimelines(b, b1, project, told);
    AnnounceTells(b.audience, project, b.sequence + 1, told);
    forall i, q | i in b1.versions && Told(b1, i, q)
      ensures Announced(b1.audience, b1.versions[i].project, q, b1.versions[i].ingest)
      ensures b1.versions[i].retired.Some? ==>
                Announced(b1.audience, b1.versions[i].project, q, b1.versions[i].retired.value)
    {
      assert Told(b, i, q);
    }
  }

  /** Every committed step keeps the invariant: retirement is write-once after ingest,
      ingest numbers are unique, and each visible change is an event of its audience. */
  lemma StepKeepsInv(b: Book, step: Step)
    requires Inv(b)
    ensures Inv(Apply(b, step))
  {
    if Enabled(b, step) {
      match step
      case Admit(_, _, _, _, _, _) => AdmitKeepsInv(b, step);
      case Expire(id, now) => ExpireKeepsInv(b, id, now);
      case Forget(threadId) => ForgetKeepsInv(b, threadId);
      case Tick =>
    }
  }

  lemma SequenceGrows(b: Book, step: Step)
    ensures b.sequence <= Apply(b, step).sequence
  {
  }

  lemma {:induction false} RunKeepsInv(b: Book, steps: seq<Step>)
    requires Inv(b)
    ensures Inv(Run(b, steps))
    decreases |steps|
  {
    if steps != [] {
      StepKeepsInv(b, steps[0]);
      RunKeepsInv(Apply(b, steps[0]), steps[1..]);
    }
  }

  /** `row1` is `row` after its one retirement at `recorded`. */
  predicate RetiredAs(row: Version, row1: Version, recorded: nat) {
    && row1.lifecycle != Active && row1.retiredAt.Some?
    && row1 == row.(lifecycle := row1.lifecycle, retired := Some(recorded), retiredAt := row1.retiredAt)
  }

  /** Nothing but forget removes a version, and the only fields that ever change are the
      retirement fields of a version that had not been retired. */
  lemma StepKeepsRow(b: Book, step: Step, id: Id)
    requires Inv(b) && id in b.versions
    requires step.Forget? ==> b.versions[id].thread != step.threadId
    ensures var b1 := Apply(b, step);
            && id in b1.versions
            && (forall q :: (id, q) in b1.disclosures <==> (id, q) in b.disclosures)
            && b.versions[id].thread in b1.threads
            && b1.threads[b.versions[id].thread] == b.threads[b.versions[id].thread]
            && (b1.versions[id] == b.versions[id]
                || (b.versions[id].retired == None
                    && RetiredAs(b.versions[id], b1.versions[id], b.sequence + 1)))
  {
    hide TimelinesOk, EventsComplete, Announce, Audience;
    if Enabled(b, step) {
      match step
      case Admit(_, _, _, _, _, _) =>
      case Expire(_, _) =>
      case Forget(_) =>
      case Tick =>
    }
  }

  /** And a version is retired for one of two reasons: another one of its memory supersedes it, or its deadline has
      come. Either way the time of the step is kept. */
  lemma RetirementHasAReason(b: Book, step: Step, id: Id)
    requires Inv(b) && id in b.versions && id in Apply(b, step).versions && Apply(b, step).versions[id] != b.versions[id]
    ensures var row, row1 := b.versions[id], Apply(b, step).versions[id];
            || (&& step.Admit? && step.supersedes == Some(id) && step.row.thread == row.thread
                && row1.lifecycle == Superseded && row1.retiredAt == Some(step.now))
            || (&& step.Expire? && step.id == id && row.retention.Until? && row.retention.deadline <= step.now
                && row1.lifecycle == Expired && row1.retiredAt == Some(step.now))
  {
    hide TimelinesOk, EventsComplete, Announce, Audience;
  }

  /** A step adds events after everything recorded before, and takes none away. */
  lemma StepKeepsEvents(b: Book, step: Step)
    ensures b.audience <= Apply(b, step).audience
    ensures forall r | r in Apply(b, step).audience && r !in b.audience :: r.recorded > b.sequence
  {
  }

  lemma {:induction false} RunKeepsEvents(b: Book, steps: seq<Step>)
    ensures b.sequence <= Run(b, steps).sequence
    ensures b.audience <= Run(b, steps).audience
    ensures forall r | r in Run(b, steps).audience && r !in b.audience :: r.recorded > b.sequence
    decreases |steps|
  {
    if steps != [] {
      hide Apply;
      StepKeepsEvents(b, steps[0]);
      SequenceGrows(b, steps[0]);
      RunKeepsEvents(Apply(b, steps[0]), steps[1..]);
    }
  }

  lemma NewRowsAreLate(b: Book, step: Step, id: Id)
    requires id in Apply(b, step).versions && id !in b.versions
    ensures Apply(b, step).versions[id].ingest == b.sequence + 1 && Apply(b, step).versions[id].retired == None
  {
  }

  lemma {:induction false} RunKeepsProviders(b: Book, steps: seq<Step>)
    ensures Run(b, steps).providers == b.providers
    decreases |steps|
  {
    if steps != [] {
      RunKeepsProviders(Apply(b, steps[0]), steps[1..]);
    }
  }
}
