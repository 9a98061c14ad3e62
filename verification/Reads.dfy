/** The read side: one eligibility test for every projection, and what an audience
    can observe through it. */
module Reads {
  import opened Basics
  import opened Ledger

  datatype Mode = CurrentOnly | History

  datatype Eligibility = Eligibility(
    project: Project, provider: Provider, recorded: nat, mode: Mode, valid: Option<Time>, ownerRead: bool)

  /** The WHERE clause of `Eligibility.sql`. */
  predicate Eligible(b: Book, e: Eligibility, id: Id) {
    && id in b.versions
    && var row := b.versions[id];
    && row.project == e.project
    && row.ingest <= e.recorded
    && (e.ownerRead || Disclosed(b, id, e.provider))
    && (e.mode == CurrentOnly ==> row.retired == None || row.retired.value > e.recorded)
    && (e.valid.Some? ==>
          && row.precision != Unknown
          && (row.validFrom == None || row.validFrom.value <= e.valid.value)
          && (row.validTo == None || row.validTo.value >= e.valid.value))
  }

  function AtSnapshot(row: Version, recorded: nat): Version {
    if row.retired == None || row.retired.value > recorded
    then row.(lifecycle := Active, retired := None, retiredAt := None)
    else row
  }

  /** A row joined with the subject of its thread. */
  datatype Doc = Doc(row: Version, subject: string)

  function SubjectOf(b: Book, row: Version): string {
    if row.thread in b.threads then b.threads[row.thread].subject else ""
  }

  /** The live rows a read may look at. Everything a read returns is computed from these
      rows and from the reader's timeline. */
  function Rows(b: Book, e: Eligibility): map<Id, Doc> {
    map id | id in b.versions && Eligible(b, e, id) :: Doc(b.versions[id], SubjectOf(b, b.versions[id]))
  }

  /** The same rows as a card shows them: retirements after the snapshot are hidden. */
  function Snapshot(b: Book, e: Eligibility): map<Id, Doc> {
    map id | id in b.versions && Eligible(b, e, id)
      :: Doc(AtSnapshot(b.versions[id], e.recorded), SubjectOf(b, b.versions[id]))
  }

  ghost predicate SameRow(b: Book, e: Eligibility, b1: Book, e1: Eligibility, id: Id) {
    && (Eligible(b1, e1, id) <==> Eligible(b, e, id))
    && (Eligible(b, e, id) ==>
          && b1.versions[id] == b.versions[id]
          && SubjectOf(b1, b1.versions[id]) == SubjectOf(b, b.versions[id])
          && AtSnapshot(b1.versions[id], e1.recorded) == AtSnapshot(b.versions[id], e.recorded))
  }

  lemma SameRows(b: Book, e: Eligibility, b1: Book, e1: Eligibility)
    requires forall id :: SameRow(b, e, b1, e1, id)
    ensures Rows(b1, e1) == Rows(b, e) && Snapshot(b1, e1) == Snapshot(b, e)
  {
    forall id ensures id in Rows(b1, e1) <==> id in Rows(b, e) {
      assert SameRow(b, e, b1, e1, id);
    }
    forall id | id in Rows(b, e)
      ensures Rows(b1, e1)[id] == Rows(b, e)[id] && Snapshot(b1, e1)[id] == Snapshot(b, e)[id]
    {
      assert SameRow(b, e, b1, e1, id);
    }
  }

  // ---------------------------------------------------------------- sequence domains

  function RecordedUpTo(b: Book, project: Project, provider: Provider, local: nat): nat {
    MaxOf(set r | r in b.audience && r.project == project && r.provider == provider && r.local <= local
            :: r.recorded)
  }

  /** `_eligibility`: an agent's `as_of_recorded` is a number of its own timeline. */
  function Resolve(b: Book, project: Project, provider: Provider, mode: Mode, asOf: Option<nat>,
                   valid: Option<Time>, ownerRead: bool): Eligibility
  {
    var recorded := match asOf
                    case None => b.sequence
                    case Some(n) => if ownerRead then n else RecordedUpTo(b, project, provider, n);
    Eligibility(project, provider, if recorded < b.sequence then recorded else b.sequence, mode, valid, ownerRead)
  }

  function Watermark(b: Book, e: Eligibility): nat {
    if e.ownerRead then e.recorded
    else MaxOf(set r | r in b.audience && r.project == e.project && r.provider == e.provider
                       && r.recorded <= e.recorded :: r.local)
  }

  /** `_visible_sequence`: `None` models the integrity error. */
  function VisibleSequence(b: Book, e: Eligibility, recorded: nat): Option<nat> {
    if e.ownerRead then Some(recorded)
    else
      var found := set r | r in b.audience && r.project == e.project && r.provider == e.provider
                           && r.recorded == recorded :: r.local;
      if found == {} then None else Some(MaxOf(found))
  }

  /** A reader bound to a configured capability of its project. */
  predicate Reader(b: Book, e: Eligibility) {
    !e.ownerRead && e.provider in Configured(b, e.project)
  }

  lemma ReaderIsTold(b: Book, e: Eligibility, id: Id)
    requires Inv(b) && Reader(b, e) && id in b.versions && b.versions[id].project == e.project
    ensures Disclosed(b, id, e.provider) <==> Told(b, id, e.provider)
  {
  }

  /** On a dense timeline a recorded number has at most one local number. */
  lemma VisibleSequenceOf(b: Book, e: Eligibility, r: Event)
    requires Inv(b) && !e.ownerRead
    requires r in b.audience && r.project == e.project && r.provider == e.provider
    ensures VisibleSequence(b, e, r.recorded) == Some(r.local)
  {
    var found := set d | d in b.audience && d.project == e.project && d.provider == e.provider
                         && d.recorded == r.recorded :: d.local;
    assert r.local in found;
    assert Dense(b.audience, e.project, e.provider);
    assert MaxOf(found) in found;
    var d :| d in b.audience && d.project == e.project && d.provider == e.provider
             && d.recorded == r.recorded && d.local == MaxOf(found);
    assert !(d.local < r.local) && !(r.local < d.local);
  }

  /** A card never meets the missing-timeline error: both ends of its recorded interval,
      as the snapshot shows them, have a number in the reader's timeline, and the
      reader's numbers compare like the hidden global ones. */
  lemma CardsHaveSequences(b: Book, e: Eligibility, id: Id)
    requires Inv(b) && Reader(b, e) && Eligible(b, e, id)
    ensures var row := AtSnapshot(b.versions[id], e.recorded);
            var start := VisibleSequence(b, e, row.ingest);
            && start.Some? && 1 <= start.value <= Watermark(b, e)
            && (row.retired.Some? ==>
                  var end := VisibleSequence(b, e, row.retired.value);
                  end.Some? && start.value < end.value <= Watermark(b, e))
  {
    var row := AtSnapshot(b.versions[id], e.recorded);
    ReaderIsTold(b, e, id);
    assert Announced(b.audience, row.project, e.provider, row.ingest);
    var r :| r in b.audience && r.project == row.project && r.provider == e.provider && r.recorded == row.ingest;
    VisibleSequenceOf(b, e, r);
    WatermarkCovers(b, e, r);
    if row.retired.Some? {
      assert Announced(b.audience, row.project, e.provider, row.retired.value);
      var t :| t in b.audience && t.project == row.project && t.provider == e.provider
               && t.recorded == row.retired.value;
      VisibleSequenceOf(b, e, t);
      WatermarkCovers(b, e, t);
      assert Dense(b.audience, e.project, e.provider);
    }
  }

  lemma WatermarkCovers(b: Book, e: Eligibility, r: Event)
    requires Inv(b) && !e.ownerRead
    requires r in b.audience && r.project == e.project && r.provider == e.provider
    ensures 1 <= r.local
    ensures r.local <= Watermark(b, e) <==> r.recorded <= e.recorded
  {
    assert Dense(b.audience, e.project, e.provider);
    assert r.local in LocalNumbers(b.audience, e.project, e.provider);
    var seen := set d | d in b.audience && d.project == e.project && d.provider == e.provider
                        && d.recorded <= e.recorded :: d.local;
    if r.recorded <= e.recorded {
      assert r.local in seen;
    } else if seen != {} {
      var d :| d in b.audience && d.project == e.project && d.provider == e.provider
               && d.recorded <= e.recorded && d.local == MaxOf(seen);
      assert d.local < r.local;
    }
  }

  // ---------------------------------------------------------------- watermark round trip

  /** Asking again as of the watermark a read returned selects exactly the same rows in
      the same state, and returns the same watermark. */
  lemma WatermarkRoundTrip(b: Book, e: Eligibility)
    requires Inv(b) && Reader(b, e) && e.recorded <= b.sequence
    ensures var again := Resolve(b, e.project, e.provider, e.mode, Some(Watermark(b, e)), e.valid, false);
            && Rows(b, again) == Rows(b, e)
            && Snapshot(b, again) == Snapshot(b, e)
            && Watermark(b, again) == Watermark(b, e)
  {
    var w := Watermark(b, e);
    var again := Resolve(b, e.project, e.provider, e.mode, Some(w), e.valid, false);
    var mine := set r | r in b.audience && r.project == e.project && r.provider == e.provider && r.local <= w
                  :: r.recorded;
    forall r | r in b.audience && r.project == e.project && r.provider == e.provider
      ensures r.recorded <= e.recorded <==> r.recorded <= again.recorded
    {
      WatermarkCovers(b, e, r);
      if r.recorded <= e.recorded {
        assert r.recorded in mine;
      }
      if mine != {} {
        var top :| top in b.audience && top.project == e.project && top.provider == e.provider
                   && top.local <= w && top.recorded == MaxOf(mine);
        WatermarkCovers(b, e, top);
      }
    }
    assert (set r | r in b.audience && r.project == e.project && r.provider == e.provider
                    && r.recorded <= e.recorded :: r.local)
        == (set r | r in b.audience && r.project == e.project && r.provider == e.provider
                    && r.recorded <= again.recorded :: r.local);
    forall id ensures SameRow(b, e, b, again, id) {
      if id in b.versions && b.versions[id].project == e.project && Disclosed(b, id, e.provider) {
        EventsSplitAlike(b, e, again, id);
      }
    }
    SameRows(b, e, b, again);
  }

  lemma EventsSplitAlike(b: Book, e: Eligibility, f: Eligibility, id: Id)
    requires Inv(b) && Reader(b, e)
    requires id in b.versions && b.versions[id].project == e.project && Disclosed(b, id, e.provider)
    requires forall r | r in b.audience && r.project == e.project && r.provider == e.provider ::
               r.recorded <= e.recorded <==> r.recorded <= f.recorded
    ensures var row := b.versions[id];
            && (row.ingest <= e.recorded <==> row.ingest <= f.recorded)
            && (row.retired.Some? ==> (row.retired.value <= e.recorded <==> row.retired.value <= f.recorded))
  {
    var row := b.versions[id];
    ReaderIsTold(b, e, id);
    assert Announced(b.audience, row.project, e.provider, row.ingest);
    if row.retired.Some? {
      assert Announced(b.audience, row.project, e.provider, row.retired.value);
    }
  }

  lemma RunKeepsWatermark(b: Book, steps: seq<Step>, e: Eligibility)
    requires Inv(b) && e.recorded <= b.sequence
    ensures Watermark(Run(b, steps), e) == Watermark(b, e)
  {
    var b1 := Run(b, steps);
    RunKeepsEvents(b, steps);
    assert (set r | r in b.audience && r.project == e.project && r.provider == e.provider && r.recorded <= e.recorded
              :: r.local)
        == (set r | r in b1.audience && r.project == e.project && r.provider == e.provider && r.recorded <= e.recorded
              :: r.local);
  }

  // ---------------------------------------------------------------- snapshot stability

  /** A read without a recorded bound shows exactly the active versions. */
  lemma LiveReadIsActive(b: Book, e: Eligibility, id: Id)
    requires Inv(b) && e.recorded == b.sequence && e.mode == CurrentOnly && e.valid == None
    ensures Eligible(b, e, id) <==>
              id in b.versions && b.versions[id].lifecycle == Active && b.versions[id].project == e.project
              && (e.ownerRead || Disclosed(b, id, e.provider))
  {
  }

  /** One step seen through a pinned snapshot: a surviving version is selected exactly as
      before and looks exactly as before; a version ingested later is never selected. */
  lemma StepKeepsSnapshotRow(b: Book, step: Step, e: Eligibility, id: Id)
    requires Inv(b) && e.recorded <= b.sequence
    ensures var b1 := Apply(b, step);
            id in b1.versions ==>
              && (Eligible(b1, e, id) <==> Eligible(b, e, id))
              && (Eligible(b, e, id) ==>
                    && AtSnapshot(b1.versions[id], e.recorded) == AtSnapshot(b.versions[id], e.recorded)
                    && SubjectOf(b1, b1.versions[id]) == SubjectOf(b, b.versions[id]))
  {
    hide TimelinesOk, EventsComplete, Announce, Audience;
    var b1 := Apply(b, step);
    StepKeepsInv(b, step);
    if id in b1.versions && id in b.versions {
      StepKeepsRow(b, step, id);
    }
  }

  lemma StepKeepsSnapshot(b: Book, step: Step, e: Eligibility)
    requires Inv(b) && e.recorded <= b.sequence
    ensures var b1 := Apply(b, step);
            && Snapshot(b1, e).Keys <= Snapshot(b, e).Keys
            && (forall id | id in Snapshot(b1, e) :: Snapshot(b1, e)[id] == Snapshot(b, e)[id])
            && (forall id | id in Snapshot(b, e) && id !in Snapshot(b1, e) ::
                  step.Forget? && b.versions[id].thread == step.threadId)
  {
    var b1 := Apply(b, step);
    forall id ensures id in b1.versions ==> (Eligible(b1, e, id) <==> Eligible(b, e, id))
    {
      StepKeepsSnapshotRow(b, step, e, id);
    }
    forall id | id in Snapshot(b1, e) ensures Snapshot(b1, e)[id] == Snapshot(b, e)[id] {
      StepKeepsSnapshotRow(b, step, e, id);
    }
    forall id | id in Snapshot(b, e) && id !in Snapshot(b1, e)
      ensures step.Forget? && b.versions[id].thread == step.threadId
    {
      if !step.Forget? || b.versions[id].thread != step.threadId {
        StepKeepsRow(b, step, id);
      }
    }
  }

  predicate ForgetFree(steps: seq<Step>) {
    forall step | step in steps :: !step.Forget?
  }

  /** Forget `step` of the run takes `id` with it. */
  ghost predicate ForgottenIn(b: Book, steps: seq<Step>, id: Id)
    decreases |steps|
  {
    steps != [] &&
    ((id in b.versions && steps[0] == Forget(b.versions[id].thread))
     || ForgottenIn(Apply(b, steps[0]), steps[1..], id))
  }

  /** Whatever happens after a snapshot was taken, it only ever loses versions that a
      forget removed; the rest stay, in the same state. */
  lemma {:induction false} RunKeepsSnapshot(b: Book, steps: seq<Step>, e: Eligibility)
    requires Inv(b) && e.recorded <= b.sequence
    ensures var b1 := Run(b, steps);
            && e.recorded <= b1.sequence
            && Snapshot(b1, e).Keys <= Snapshot(b, e).Keys
            && (forall id | id in Snapshot(b1, e) :: Snapshot(b1, e)[id] == Snapshot(b, e)[id])
            && (forall id | id in Snapshot(b, e) && id !in Snapshot(b1, e) :: ForgottenIn(b, steps, id))
    decreases |steps|
  {
    if steps != [] {
      var next := Apply(b, steps[0]);
      StepKeepsInv(b, steps[0]);
      StepKeepsSnapshot(b, steps[0], e);
      RunKeepsSnapshot(next, steps[1..], e);
    }
  }

  lemma {:induction false} ForgetFreeLosesNothing(b: Book, steps: seq<Step>, id: Id)
    requires ForgetFree(steps)
    ensures !ForgottenIn(b, steps, id)
    decreases |steps|
  {
    if steps != [] {
      ForgetFreeLosesNothing(Apply(b, steps[0]), steps[1..], id);
    }
  }

  /** Time travel: a read pinned at the sequence the ledger had returns, after any forget-free
      run, the rows the live read returned then, in the state they had then. */
  lemma SnapshotIsStable(b: Book, steps: seq<Step>, e: Eligibility)
    requires Inv(b) && e.recorded <= b.sequence && ForgetFree(steps)
    ensures Snapshot(Run(b, steps), e) == Snapshot(b, e)
  {
    RunKeepsSnapshot(b, steps, e);
    forall id | id in Snapshot(b, e) ensures id in Snapshot(Run(b, steps), e) {
      ForgetFreeLosesNothing(b, steps, id);
    }
  }

  /** A watermark stays good: read as of it at any later time, the reader sees the rows of the read that
      returned it, in the state they had then, except those that a forget has removed since; and the
      watermark comes back. */
  lemma WatermarkStaysGood(b: Book, steps: seq<Step>, e: Eligibility)
    requires Inv(b) && Reader(b, e) && e.recorded <= b.sequence
    ensures var b1 := Run(b, steps);
            var again := Resolve(b1, e.project, e.provider, e.mode, Some(Watermark(b, e)), e.valid, false);
            && Watermark(b1, again) == Watermark(b, e)
            && Snapshot(b1, again).Keys <= Snapshot(b, e).Keys
            && (forall id | id in Snapshot(b1, again) :: Snapshot(b1, again)[id] == Snapshot(b, e)[id])
            && (forall id | id in Snapshot(b, e) && id !in Snapshot(b1, again) :: ForgottenIn(b, steps, id))
            && (ForgetFree(steps) ==> Snapshot(b1, again) == Snapshot(b, e))
  {
    var b1 := Run(b, steps);
    RunKeepsProviders(b, steps);
    assert Reader(b1, e);
    hide Inv, Snapshot, Watermark, Reader, Run, ForgottenIn, ForgetFree;
    RunKeepsInv(b, steps);
    RunKeepsWatermark(b, steps, e);
    RunKeepsSnapshot(b, steps, e);
    WatermarkRoundTrip(b1, e);
    if ForgetFree(steps) {
      SnapshotIsStable(b, steps, e);
    }
  }

  // ---------------------------------------------------------------- hidden steps

  /** The versions a step touches, all of one project. */
  function Affected(b: Book, step: Step): set<Id> {
    match step
    case Admit(id, _, _, _, supersedes, _) => {id} + if supersedes.Some? then {supersedes.value} else {}
    case Expire(id, _) => {id}
    case Forget(threadId) => VersionsOf(b, threadId)
    case Tick => {}
  }

  /** No affected version, before or after the step, is disclosed to `provider` or to
      everyone in `project`. */
  predicate Hidden(b: Book, step: Step, project: Project, provider: Provider) {
    && (step.Admit? && step.row.project == project ==>
          provider !in step.disclosure && EVERYONE !in step.disclosure)
    && (forall id | id in Affected(b, step) && id in b.versions && b.versions[id].project == project ::
          !Disclosed(b, id, provider))
  }

  lemma HiddenKeepsTimeline(b: Book, step: Step, project: Project, provider: Provider)
    requires Inv(b) && Hidden(b, step, project, provider) && provider != EVERYONE
    ensures forall r: Event | r.project == project && r.provider == provider ::
              r in Apply(b, step).audience <==> r in b.audience
  {
  }

  lemma HiddenKeepsVisibleRow(b: Book, step: Step, project: Project, provider: Provider, id: Id)
    requires Inv(b) && Hidden(b, step, project, provider)
    ensures var b1 := Apply(b, step);
            var seen := id in b.versions && b.versions[id].project == project && Disclosed(b, id, provider);
            && (seen <==> id in b1.versions && b1.versions[id].project == project && Disclosed(b1, id, provider))
            && (seen ==> b1.versions[id] == b.versions[id]
                         && SubjectOf(b1, b.versions[id]) == SubjectOf(b, b.versions[id]))
  {
    hide TimelinesOk, EventsComplete, Announce, Audience;
    if Enabled(b, step) && id in b.versions && step.Forget? {
      assert b.versions[id].thread == step.threadId ==> id in Affected(b, step);
    }
  }

  lemma RecordedUpToBounded(b: Book, project: Project, provider: Provider, local: nat)
    requires Inv(b)
    ensures RecordedUpTo(b, project, provider, local) <= b.sequence
  {
  }

  /** A hidden step does not move the recorded bound of a read across an event of the reader. */
  lemma HiddenKeepsBound(b: Book, step: Step, project: Project, provider: Provider, mode: Mode,
                         asOf: Option<nat>, valid: Option<Time>)
    requires Inv(b) && provider in Configured(b, project)
    requires Hidden(b, step, project, provider)
    ensures var b1 := Apply(b, step);
            var e := Resolve(b, project, provider, mode, asOf, valid, false);
            var e1 := Resolve(b1, project, provider, mode, asOf, valid, false);
            && e.recorded <= b.sequence <= b1.sequence
            && (e1.recorded == e.recorded || (e.recorded == b.sequence && e1.recorded == b1.sequence))
  {
    hide EventsComplete, Announce, Audience, Dense, Hidden;
    HiddenKeepsTimeline(b, step, project, provider);
    StepKeepsInv(b, step);
    if asOf.Some? {
      var n := asOf.value;
      assert (set r | r in b.audience && r.project == project && r.provider == provider && r.local <= n :: r.recorded)
          == (set r | r in Apply(b, step).audience && r.project == project && r.provider == provider && r.local <= n
                :: r.recorded);
      RecordedUpToBounded(b, project, provider, n);
    }
  }

  lemma HiddenKeepsNumbers(b: Book, step: Step, e: Eligibility, e1: Eligibility)
    requires Inv(b) && Reader(b, e) && Hidden(b, step, e.project, e.provider)
    requires e1 == e.(recorded := e1.recorded)
    requires e.recorded <= b.sequence
    requires e1.recorded == e.recorded || (e.recorded == b.sequence && e1.recorded == Apply(b, step).sequence)
    ensures var b1 := Apply(b, step);
            && Watermark(b1, e1) == Watermark(b, e)
            && (forall s: nat :: VisibleSequence(b1, e1, s) == VisibleSequence(b, e, s))
  {
    var b1 := Apply(b, step);
    HiddenKeepsTimeline(b, step, e.project, e.provider);
    assert b.sequence <= b1.sequence;
    assert (set r | r in b.audience && r.project == e.project && r.provider == e.provider && r.recorded <= e.recorded
              :: r.local)
        == (set r | r in b1.audience && r.project == e.project && r.provider == e.provider && r.recorded <= e1.recorded
              :: r.local);
    forall s: nat ensures VisibleSequence(b1, e1, s) == VisibleSequence(b, e, s) {
      assert (set r | r in b.audience && r.project == e.project && r.provider == e.provider && r.recorded == s :: r.local)
          == (set r | r in b1.audience && r.project == e.project && r.provider == e.provider && r.recorded == s :: r.local);
    }
  }

  /** A visible row was retired either by `e.recorded` already or after both bounds. */
  lemma HiddenKeepsRow(b: Book, step: Step, e: Eligibility, e1: Eligibility, id: Id)
    requires Inv(b) && !e.ownerRead && Hidden(b, step, e.project, e.provider)
    requires e1 == e.(recorded := e1.recorded)
    requires e.recorded <= b.sequence
    requires e1.recorded == e.recorded || (e.recorded == b.sequence <= e1.recorded)
    ensures SameRow(b, e, Apply(b, step), e1, id)
  {
    HiddenKeepsVisibleRow(b, step, e.project, e.provider, id);
    if id in b.versions {
      var row := b.versions[id];
      assert row.ingest <= b.sequence;
      assert row.retired.Some? ==> row.retired.value <= b.sequence;
    }
  }

  lemma HiddenKeepsRows(b: Book, step: Step, e: Eligibility, e1: Eligibility)
    requires Inv(b) && !e.ownerRead && Hidden(b, step, e.project, e.provider)
    requires e1 == e.(recorded := e1.recorded)
    requires e.recorded <= b.sequence
    requires e1.recorded == e.recorded || (e.recorded == b.sequence <= e1.recorded)
    ensures var b1 := Apply(b, step);
            && Rows(b1, e1) == Rows(b, e)
            && Snapshot(b1, e1) == Snapshot(b, e)
  {
    forall id ensures SameRow(b, e, Apply(b, step), e1, id) {
      HiddenKeepsRow(b, step, e, e1, id);
    }
    SameRows(b, e, Apply(b, step), e1);
  }

  /** Any other step the reader is told of: who may see one of the versions it touches. */
  lemma ShownStepTells(b: Book, step: Step, project: Project, provider: Provider)
    requires Inv(b) && provider in Configured(b, project) && Enabled(b, step) && !Hidden(b, step, project, provider)
    ensures Apply(b, step).sequence == b.sequence + 1
    ensures exists told :: provider in told && EVERYONE !in told
              && Apply(b, step).audience == Announce(b.audience, project, b.sequence + 1, told)
  {
    var b1 := Apply(b, step);
    hide TimelinesOk, EventsComplete, Announce, Audience, IngestUnique;
    match step
    case Admit(id, row, thread, disclosure, supersedes, now) =>
      var changed := {id} + if supersedes.Some? then {supersedes.value} else {};
      var b0 := b1.(audience := b.audience);
      assert row.project == project;
      var shown := if provider in disclosure || EVERYONE in disclosure then id else supersedes.value;
      SeenIsTold(b0, project, provider, changed, shown);
      AudienceNamesNobodyReserved(b0, project, changed);
    case Expire(id, now) =>
      SeenIsTold(b, project, provider, {id}, id);
      AudienceNamesNobodyReserved(b, project, {id});
    case Forget(threadId) =>
      var gone := VersionsOf(b, threadId);
      var id :| id in gone && id in b.versions && b.versions[id].project == project && Disclosed(b, id, provider);
      SeenIsTold(b, project, provider, gone, id);
      AudienceNamesNobodyReserved(b, project, gone);
    case Tick =>
  }

  lemma SeenIsTold(b: Book, project: Project, provider: Provider, ids: set<Id>, id: Id)
    requires id in ids && provider in Configured(b, project) && Disclosed(b, id, provider) && ConfiguredOk(b)
    ensures provider in Audience(b, project, ids)
  {
  }

  /** So the watermark tells exactly: a step that is not hidden from a reader moves it on by one. */
  lemma ShownStepMovesWatermark(b: Book, step: Step, project: Project, provider: Provider, mode: Mode, valid: Option<Time>)
    requires Inv(b) && provider in Configured(b, project) && Enabled(b, step)
    ensures var b1 := Apply(b, step);
            var w := Watermark(b, Resolve(b, project, provider, mode, None, valid, false));
            var w1 := Watermark(b1, Resolve(b1, project, provider, mode, None, valid, false));
            w1 == if Hidden(b, step, project, provider) then w else w + 1
  {
    hide Announce, Audience, Hidden, Enabled, Apply;
    var b1 := Apply(b, step);
    StepKeepsInv(b, step);
    LiveWatermark(b, project, provider, mode, valid);
    LiveWatermark(b1, project, provider, mode, valid);
    if Hidden(b, step, project, provider) {
      HiddenStepIsInvisible(b, step, project, provider, mode, None, valid);
    } else {
      ShownStepTells(b, step, project, provider);
      var told :| provider in told && EVERYONE !in told && b1.audience == Announce(b.audience, project, b.sequence + 1, told);
      NotYetAnnounced(b, project, provider);
      AnnounceNumbers(b.audience, project, b.sequence + 1, told, provider);
    }
  }

  lemma LiveWatermark(b: Book, project: Project, provider: Provider, mode: Mode, valid: Option<Time>)
    requires Inv(b)
    ensures Watermark(b, Resolve(b, project, provider, mode, None, valid, false)) == LocalHead(b.audience, project, provider)
  {
    assert (set r | r in b.audience && r.project == project && r.provider == provider && r.recorded <= b.sequence :: r.local)
        == LocalNumbers(b.audience, project, provider);
  }

  lemma NotYetAnnounced(b: Book, project: Project, provider: Provider)
    requires Inv(b)
    ensures !Announced(b.audience, project, provider, b.sequence + 1)
  {
  }

  /** Every step of the run is hidden where it happens. */
  ghost predicate HiddenRun(b: Book, steps: seq<Step>, project: Project, provider: Provider)
    decreases |steps|
  {
    steps == [] || (Hidden(b, steps[0], project, provider) && HiddenRun(Apply(b, steps[0]), steps[1..], project, provider))
  }

  /** A read pinned at a recorded number, as a continuation is, shows nothing of the steps hidden from its
      reader, however many: neither in its rows nor in the numbers it shows. */
  lemma {:induction false} HiddenRunKeepsPinned(b: Book, steps: seq<Step>, e: Eligibility)
    requires Inv(b) && Reader(b, e) && e.recorded <= b.sequence && HiddenRun(b, steps, e.project, e.provider)
    ensures var b1 := Run(b, steps);
            && e.recorded <= b1.sequence && Inv(b1) && Reader(b1, e)
            && Rows(b1, e) == Rows(b, e) && Snapshot(b1, e) == Snapshot(b, e) && Watermark(b1, e) == Watermark(b, e)
            && (forall s: nat :: VisibleSequence(b1, e, s) == VisibleSequence(b, e, s))
    decreases |steps|
  {
    hide Inv, Rows, Snapshot, Watermark, VisibleSequence, Hidden, Apply, Reader;
    if steps != [] {
      var next := Apply(b, steps[0]);
      StepKeepsInv(b, steps[0]);
      SequenceGrows(b, steps[0]);
      StepKeepsReader(b, steps[0], e);
      HiddenKeepsPinned(b, steps[0], e);
      HiddenRunKeepsPinned(next, steps[1..], e);
    }
  }

  lemma StepKeepsReader(b: Book, step: Step, e: Eligibility)
    requires Reader(b, e)
    ensures Reader(Apply(b, step), e)
  {
  }

  lemma HiddenKeepsPinned(b: Book, step: Step, e: Eligibility)
    requires Inv(b) && Reader(b, e) && e.recorded <= b.sequence && Hidden(b, step, e.project, e.provider)
    ensures var b1 := Apply(b, step);
            && Rows(b1, e) == Rows(b, e) && Snapshot(b1, e) == Snapshot(b, e) && Watermark(b1, e) == Watermark(b, e)
            && (forall s: nat :: VisibleSequence(b1, e, s) == VisibleSequence(b, e, s))
  {
    hide Inv, Rows, Snapshot, Watermark, VisibleSequence, Hidden, Apply;
    HiddenKeepsNumbers(b, step, e, e);
    HiddenKeepsRows(b, step, e, e);
  }

  /** A step none of whose versions an audience can see leaves everything that audience can
      observe as it was, whether it reads live or as of one of its own sequence numbers. */
  lemma HiddenStepIsInvisible(b: Book, step: Step, project: Project, provider: Provider, mode: Mode,
                              asOf: Option<nat>, valid: Option<Time>)
    requires Inv(b) && provider in Configured(b, project)
    requires Hidden(b, step, project, provider)
    ensures var b1 := Apply(b, step);
            var e := Resolve(b, project, provider, mode, asOf, valid, false);
            var e1 := Resolve(b1, project, provider, mode, asOf, valid, false);
            && Rows(b1, e1) == Rows(b, e)
            && Snapshot(b1, e1) == Snapshot(b, e)
            && Watermark(b1, e1) == Watermark(b, e)
            && (forall s: nat :: VisibleSequence(b1, e1, s) == VisibleSequence(b, e, s))
  {
    var e := Resolve(b, project, provider, mode, asOf, valid, false);
    var e1 := Resolve(Apply(b, step), project, provider, mode, asOf, valid, false);
    HiddenKeepsBound(b, step, project, provider, mode, asOf, valid);
    HiddenKeepsNumbers(b, step, e, e1);
    HiddenKeepsRows(b, step, e, e1);
  }

  /** What a read resolves to, rows, snapshot, watermark and local numbers, is the same in both ledgers. */
  ghost predicate LooksAlike(b: Book, b1: Book, project: Project, provider: Provider, mode: Mode, asOf: Option<nat>,
                             valid: Option<Time>)
  {
    var e := Resolve(b, project, provider, mode, asOf, valid, false);
    var e1 := Resolve(b1, project, provider, mode, asOf, valid, false);
    && Rows(b1, e1) == Rows(b, e) && Snapshot(b1, e1) == Snapshot(b, e) && Watermark(b1, e1) == Watermark(b, e)
    && (forall s: nat :: VisibleSequence(b1, e1, s) == VisibleSequence(b, e, s))
  }

  /** However many hidden steps go by, a live read and a read as of one of the reader's own numbers show
      the same before and after. */
  lemma {:induction false} HiddenRunIsInvisible(b: Book, steps: seq<Step>, project: Project, provider: Provider, mode: Mode,
                                                asOf: Option<nat>, valid: Option<Time>)
    requires Inv(b) && provider in Configured(b, project) && HiddenRun(b, steps, project, provider)
    ensures LooksAlike(b, Run(b, steps), project, provider, mode, asOf, valid)
    decreases |steps|
  {
    if steps != [] {
      var next := Apply(b, steps[0]);
      StepKeepsConfigured(b, steps[0], project);
      hide Inv, Rows, Snapshot, Watermark, VisibleSequence, Resolve, Hidden, Apply, Configured;
      StepKeepsInv(b, steps[0]);
      HiddenStepIsInvisible(b, steps[0], project, provider, mode, asOf, valid);
      HiddenRunIsInvisible(next, steps[1..], project, provider, mode, asOf, valid);
    }
  }

  lemma StepKeepsConfigured(b: Book, step: Step, project: Project)
    ensures Configured(Apply(b, step), project) == Configured(b, project)
  {
  }
}
