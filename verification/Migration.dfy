/** The v2 upgrade: audience timelines rebuilt from the surviving rows alone. */
module Migration {
  import opened Basics
  import opened Ledger

  /** The recorded sequences of one audience that the backfill collects: ingests, and
      retirements, of the versions disclosed to the provider or to everyone. */
  function Seen(b: Book, project: Project, provider: Provider): set<nat> {
    (set id | id in b.versions && b.versions[id].project == project && Disclosed(b, id, provider)
       :: b.versions[id].ingest)
    + (set id | id in b.versions && b.versions[id].project == project && Disclosed(b, id, provider)
                && b.versions[id].retired.Some? :: b.versions[id].retired.value)
  }

  /** `row_number() OVER (PARTITION BY project_id, provider ORDER BY recorded_seq)`. */
  function RowNumber(numbers: set<nat>, recorded: nat): nat {
    |set s | s in numbers && s <= recorded|
  }

  function Backfill(b: Book): set<Event> {
    set project, provider, recorded | project in b.providers && provider in b.providers[project]
                                      && recorded in Seen(b, project, provider)
      :: Event(project, provider, RowNumber(Seen(b, project, provider), recorded), recorded)
  }

  /** The timelines of the providers that hold a capability. */
  function Incremental(b: Book): set<Event> {
    set r | r in b.audience && r.provider in Configured(b, r.project)
  }

  predicate Relevant(b: Book, r: Event) {
    r.provider in Configured(b, r.project) ==> r.recorded in Seen(b, r.project, r.provider)
  }

  /** No event is about anything but a surviving visible version. */
  ghost predicate OnlyRelevant(b: Book) {
    forall r | r in b.audience :: Relevant(b, r)
  }

  lemma KeepsSeen(b: Book, step: Step, project: Project, provider: Provider)
    requires Inv(b) && !step.Forget?
    ensures Seen(b, project, provider) <= Seen(Apply(b, step), project, provider)
    ensures Apply(b, step).providers == b.providers
  {
    hide TimelinesOk, EventsComplete, Announce, Audience;
    var b1 := Apply(b, step);
    forall id | id in b.versions
      ensures id in b1.versions && b1.versions[id].project == b.versions[id].project
      ensures b1.versions[id].ingest == b.versions[id].ingest
      ensures b.versions[id].retired.Some? ==> b1.versions[id].retired == b.versions[id].retired
      ensures Disclosed(b, id, provider) ==> Disclosed(b1, id, provider)
    {
      StepKeepsRow(b, step, id);
    }
  }

  /** The provider was told because one of the changed versions is disclosed to it. */
  lemma ToldAboutVisible(b: Book, project: Project, changed: set<Id>, recorded: nat, provider: Provider)
    requires ConfiguredOk(b) && DisclosuresOk(b)
    requires provider in Audience(b, project, changed) && provider in Configured(b, project)
    requires forall id | id in changed && id in b.versions ::
               b.versions[id].project == project
               && (b.versions[id].ingest == recorded || b.versions[id].retired == Some(recorded))
    ensures recorded in Seen(b, project, provider)
  {
  }

  function Changed(step: Step): set<Id>
    requires step.Admit?
  {
    {step.id} + if step.supersedes.Some? then {step.supersedes.value} else {}
  }

  lemma AdmitChanges(b: Book, step: Step)
    requires Inv(b) && step.Admit? && Enabled(b, step)
    ensures var b1 := AdmitStep(b, step);
            var s := b.sequence + 1;
            && b1.audience == Announce(b.audience, step.row.project, s, Audience(b1, step.row.project, Changed(step)))
            && forall id | id in Changed(step) && id in b1.versions ::
                 b1.versions[id].project == step.row.project
                 && (b1.versions[id].ingest == s || b1.versions[id].retired == Some(s))
  {
  }

  lemma AdmitStaysRelevant(b: Book, step: Step)
    requires Inv(b) && OnlyRelevant(b) && step.Admit? && Enabled(b, step)
    ensures OnlyRelevant(AdmitStep(b, step))
  {
    hide TimelinesOk, EventsComplete, RowsOk, Seen, Audience;
    var b1 := AdmitStep(b, step);
    AdmitKeepsKeys(b, step);
    AdmitChanges(b, step);
    forall r | r in b1.audience && r.provider in Configured(b1, r.project)
      ensures r.recorded in Seen(b1, r.project, r.provider)
    {
      KeepsSeen(b, step, r.project, r.provider);
      if r in b.audience {
        assert Relevant(b, r);
      } else {
        ToldAboutVisible(b1, step.row.project, Changed(step), b.sequence + 1, r.provider);
      }
    }
  }

  lemma ExpireStaysRelevant(b: Book, id: Id, now: Time)
    requires Inv(b) && OnlyRelevant(b) && Enabled(b, Expire(id, now))
    ensures OnlyRelevant(ExpireStep(b, id, now))
  {
    hide TimelinesOk, EventsComplete;
    var b1 := ExpireStep(b, id, now);
    var project := b.versions[id].project;
    assert Audience(b1, project, {id}) == Audience(b, project, {id});
    forall r | r in b1.audience && r.provider in Configured(b1, r.project)
      ensures r.recorded in Seen(b1, r.project, r.provider)
    {
      KeepsSeen(b, Expire(id, now), r.project, r.provider);
      if r in b.audience {
        assert Relevant(b, r);
      } else {
        ToldAboutVisible(b1, project, {id}, b.sequence + 1, r.provider);
      }
    }
  }

  /** The step forgets a version that a configured provider had been shown. */
  ghost predicate Loses(b: Book, step: Step) {
    && step.Forget? && step.threadId in b.threads
    && exists id, q :: id in VersionsOf(b, step.threadId) && q in Configured(b, b.threads[step.threadId].project)
                       && Disclosed(b, id, q)
  }

  ghost predicate EverLoses(b: Book, steps: seq<Step>)
    decreases |steps|
  {
    steps != [] && (Loses(b, steps[0]) || EverLoses(Apply(b, steps[0]), steps[1..]))
  }

  lemma HiddenForgetKeepsSeen(b: Book, threadId: Id, project: Project, provider: Provider)
    requires Inv(b) && threadId in b.threads && !Loses(b, Forget(threadId)) && provider in Configured(b, project)
    ensures Seen(b, project, provider) <= Seen(ForgetStep(b, threadId), project, provider)
  {
    hide TimelinesOk, EventsComplete, Announce, Audience;
    var b1 := ForgetStep(b, threadId);
    forall id | id in b.versions && b.versions[id].project == project && Disclosed(b, id, provider)
      ensures id in b1.versions && b1.versions[id] == b.versions[id] && Disclosed(b1, id, provider)
    {
      assert id !in VersionsOf(b, threadId);
    }
  }

  lemma NobodyIsTold(b: Book, threadId: Id, q: Provider)
    requires threadId in b.threads && !Loses(b, Forget(threadId)) && q in Configured(b, b.threads[threadId].project)
    ensures q !in Audience(b, b.threads[threadId].project, VersionsOf(b, threadId))
  {
  }

  lemma ForgetStaysRelevant(b: Book, threadId: Id)
    requires Inv(b) && OnlyRelevant(b) && threadId in b.threads && !Loses(b, Forget(threadId))
    ensures OnlyRelevant(ForgetStep(b, threadId))
  {
    hide TimelinesOk, EventsComplete, RowsOk, Seen;
    var b1 := ForgetStep(b, threadId);
    var project := b.threads[threadId].project;
    forall r | r in b1.audience && r.provider in Configured(b1, r.project)
      ensures r.recorded in Seen(b1, r.project, r.provider)
    {
      if r.project == project {
        NobodyIsTold(b, threadId, r.provider);
      }
      assert r in b.audience;
      assert Relevant(b, r);
      HiddenForgetKeepsSeen(b, threadId, r.project, r.provider);
    }
  }

  lemma StepStaysRelevant(b: Book, step: Step)
    requires Inv(b) && OnlyRelevant(b) && !Loses(b, step)
    ensures OnlyRelevant(Apply(b, step))
  {
    if Enabled(b, step) {
      match step
      case Admit(_, _, _, _, _, _) => AdmitStaysRelevant(b, step);
      case Expire(id, now) => ExpireStaysRelevant(b, id, now);
      case Forget(threadId) => ForgetStaysRelevant(b, threadId);
      case Tick =>
        forall r | r in b.audience ensures Relevant(Apply(b, step), r) {
          assert Relevant(b, r);
          KeepsSeen(b, step, r.project, r.provider);
        }
    }
  }

  lemma {:induction false} RunStaysRelevant(b: Book, steps: seq<Step>)
    requires Inv(b) && OnlyRelevant(b) && !EverLoses(b, steps)
    ensures Inv(Run(b, steps)) && OnlyRelevant(Run(b, steps))
    decreases |steps|
  {
    hide Inv, OnlyRelevant, Apply, Loses;
    if steps != [] {
      StepKeepsInv(b, steps[0]);
      StepStaysRelevant(b, steps[0]);
      RunStaysRelevant(Apply(b, steps[0]), steps[1..]);
    }
  }

  /** An event of a configured provider whose number belongs to no stored version any more. */
  ghost predicate Orphan(b: Book, r: Event) {
    && r in b.audience && r.provider in Configured(b, r.project) && r.recorded <= b.sequence
    && forall id | id in b.versions :: b.versions[id].ingest != r.recorded && b.versions[id].retired != Some(r.recorded)
  }

  lemma OrphansAreIrrelevant(b: Book, r: Event)
    requires Orphan(b, r)
    ensures !OnlyRelevant(b)
  {
  }

  /** The audience that is told of a forget keeps an event that nothing stored accounts for. */
  lemma LosingLeavesOrphan(b: Book, step: Step) returns (r: Event)
    requires Inv(b) && Loses(b, step)
    ensures Orphan(Apply(b, step), r)
  {
    hide Dense, EventsComplete;
    var project := b.threads[step.threadId].project;
    var gone := VersionsOf(b, step.threadId);
    var id, q :| id in gone && q in Configured(b, project) && Disclosed(b, id, q);
    assert q in Audience(b, project, gone);
    AnnounceTells(b.audience, project, b.sequence + 1, Audience(b, project, gone));
    var b1 := Apply(b, step);
    r :| r in b1.audience && r.project == project && r.provider == q && r.recorded == b.sequence + 1;
  }

  lemma StepKeepsOrphan(b: Book, step: Step, r: Event)
    requires Inv(b) && Orphan(b, r)
    ensures Orphan(Apply(b, step), r)
  {
  }

  lemma {:induction false} RunKeepsOrphan(b: Book, steps: seq<Step>, r: Event)
    requires Inv(b) && Orphan(b, r)
    ensures Orphan(Run(b, steps), r)
    decreases |steps|
  {
    hide Inv, Orphan, Apply;
    if steps != [] {
      StepKeepsInv(b, steps[0]);
      StepKeepsOrphan(b, steps[0], r);
      RunKeepsOrphan(Apply(b, steps[0]), steps[1..], r);
    }
  }

  lemma {:induction false} LosingRunHasOrphan(b: Book, steps: seq<Step>) returns (r: Event)
    requires Inv(b) && EverLoses(b, steps)
    ensures Orphan(Run(b, steps), r)
    decreases |steps|
  {
    hide Inv, Orphan, Apply, Loses;
    var next := Apply(b, steps[0]);
    StepKeepsInv(b, steps[0]);
    if Loses(b, steps[0]) {
      r := LosingLeavesOrphan(b, steps[0]);
      RunKeepsOrphan(next, steps[1..], r);
    } else {
      r := LosingRunHasOrphan(next, steps[1..]);
    }
  }

  function FirstEvents(rows: set<Event>, project: Project, provider: Provider, k: nat): set<nat> {
    set r | r in rows && r.project == project && r.provider == provider && r.local <= k :: r.recorded
  }

  /** On a dense timeline the local number is the row number. */
  lemma {:induction false} LocalIsRank(rows: set<Event>, project: Project, provider: Provider, k: nat)
    requires Dense(rows, project, provider) && k <= LocalHead(rows, project, provider)
    ensures |FirstEvents(rows, project, provider, k)| == k
  {
    if k == 0 {
      forall r | r in rows && r.project == project && r.provider == provider ensures r.local > 0 {
        assert r.local in LocalNumbers(rows, project, provider);
      }
      assert FirstEvents(rows, project, provider, 0) == {};
    } else {
      LocalIsRank(rows, project, provider, k - 1);
      assert k in LocalNumbers(rows, project, provider);
      var top :| top in rows && top.project == project && top.provider == provider && top.local == k;
      var before := FirstEvents(rows, project, provider, k - 1);
      assert top.recorded !in before;
      assert FirstEvents(rows, project, provider, k) == before + {top.recorded} by {
        forall r | r in rows && r.project == project && r.provider == provider && r.local <= k
          ensures r.local <= k - 1 || r.recorded == top.recorded
        {
        }
        assert top.recorded in FirstEvents(rows, project, provider, k);
      }
    }
  }

  lemma SeenIsTimeline(b: Book, project: Project, provider: Provider)
    requires Inv(b) && OnlyRelevant(b) && provider in Configured(b, project)
    ensures Seen(b, project, provider)
         == set r | r in b.audience && r.project == project && r.provider == provider :: r.recorded
  {
    hide TimelinesOk, RowsOk;
    var recorded := set r | r in b.audience && r.project == project && r.provider == provider :: r.recorded;
    forall id | id in b.versions && b.versions[id].project == project && Disclosed(b, id, provider)
      ensures b.versions[id].ingest in recorded
      ensures b.versions[id].retired.Some? ==> b.versions[id].retired.value in recorded
    {
      assert Told(b, id, provider);
    }
    forall r | r in b.audience && r.project == project && r.provider == provider
      ensures r.recorded in Seen(b, project, provider)
    {
      assert Relevant(b, r);
    }
  }

  lemma EventRank(b: Book, r: Event)
    requires Inv(b) && OnlyRelevant(b) && r in Incremental(b)
    ensures RowNumber(Seen(b, r.project, r.provider), r.recorded) == r.local
  {
    hide RowsOk, EventsComplete, OnlyRelevant;
    SeenIsTimeline(b, r.project, r.provider);
    assert Dense(b.audience, r.project, r.provider);
    assert r.local in LocalNumbers(b.audience, r.project, r.provider);
    LocalIsRank(b.audience, r.project, r.provider, r.local);
    assert (set s | s in Seen(b, r.project, r.provider) && s <= r.recorded)
        == FirstEvents(b.audience, r.project, r.provider, r.local) by {
      forall d | d in b.audience && d.project == r.project && d.provider == r.provider
        ensures d.recorded <= r.recorded <==> d.local <= r.local
      {
      }
    }
  }

  /** The ranked backfill rebuilds, row for row, the timelines that the incremental announcements
      built, if and only if no event is about a version that is gone. */
  lemma BackfillIsExactIff(b: Book)
    requires Inv(b)
    ensures Backfill(b) == Incremental(b) <==> OnlyRelevant(b)
  {
    if OnlyRelevant(b) {
      hide Inv, OnlyRelevant;
      forall r | r in Incremental(b) ensures r in Backfill(b) {
        EventRank(b, r);
        SeenIsTimeline(b, r.project, r.provider);
      }
      forall r | r in Backfill(b) ensures r in Incremental(b) {
        SeenIsTimeline(b, r.project, r.provider);
        var d :| d in b.audience && d.project == r.project && d.provider == r.provider && d.recorded == r.recorded;
        EventRank(b, d);
      }
    } else {
      var r :| r in b.audience && !Relevant(b, r);
      assert r in Incremental(b) && r !in Backfill(b);
    }
  }

  /** Over every history from bootstrap: the v2 backfill gives the timelines that incremental announcements
      would have built if and only if no forget of the history took a version that a configured
      provider had been shown. */
  lemma BackfillIsExactAfter(b0: Book, steps: seq<Step>)
    requires Fresh(b0)
    ensures Backfill(Run(b0, steps)) == Incremental(Run(b0, steps)) <==> !EverLoses(b0, steps)
  {
    FreshInv(b0);
    assert OnlyRelevant(b0);
    hide Inv, OnlyRelevant, Run, Backfill, Incremental, EverLoses, Orphan;
    RunKeepsInv(b0, steps);
    BackfillIsExactIff(Run(b0, steps));
    if EverLoses(b0, steps) {
      var r := LosingRunHasOrphan(b0, steps);
      OrphansAreIrrelevant(Run(b0, steps), r);
    } else {
      RunStaysRelevant(b0, steps);
    }
  }

  lemma {:induction false} NothingLost(b: Book, steps: seq<Step>)
    requires forall step | step in steps :: !step.Forget?
    ensures !EverLoses(b, steps)
    decreases |steps|
  {
    hide Apply;
    if steps != [] {
      NothingLost(Apply(b, steps[0]), steps[1..]);
    }
  }

  /** So it does for every forget-free history. */
  lemma BackfillRebuildsTimelines(b0: Book, steps: seq<Step>)
    requires Fresh(b0) && forall step | step in steps :: !step.Forget?
    ensures var b := Run(b0, steps); Backfill(b) == Incremental(b)
  {
    hide Run, Backfill, Incremental, EverLoses;
    NothingLost(b0, steps);
    BackfillIsExactAfter(b0, steps);
  }

  /** Without that hypothesis it fails: admit one version and forget its thread. The audience
      heard of both, and neither is left to be counted. */
  lemma BackfillForgetsForgotten(b0: Book, project: Project, provider: Provider, row: Version)
    requires Fresh(b0) && project in b0.providers && provider in b0.providers[project]
    requires row.project == project && OrderedBounds(row)
    ensures var admit := Admit("a", row, Thread(project, "s", "s"), {provider}, None, 0);
            var b := Apply(Apply(b0, admit), Forget(row.thread));
            Backfill(b) == {} && Incremental(b) != {}
  {
    var admit := Admit("a", row, Thread(project, "s", "s"), {provider}, None, 0);
    OneAdmission(b0, project, provider, row);
    var b1 := Apply(b0, admit);
    var r :| r in b1.audience && r.project == project && r.provider == provider;
    var b2 := Apply(b1, Forget(row.thread));
    assert b2.versions == map[] by {
      assert VersionsOf(b1, row.thread) == {"a"};
    }
    assert Incremental(b2) != {} by {
      assert r in b2.audience && r in Incremental(b2);
    }
    assert Backfill(b2) == {} by {
      hide Apply;
      forall p, q ensures Seen(b2, p, q) == {} {}
    }
  }

  lemma OneAdmission(b0: Book, project: Project, provider: Provider, row: Version)
    requires Fresh(b0) && project in b0.providers && provider in b0.providers[project]
    requires row.project == project && OrderedBounds(row)
    ensures var b1 := Apply(b0, Admit("a", row, Thread(project, "s", "s"), {provider}, None, 0));
            && b1.versions.Keys == {"a"} && b1.versions["a"].thread == row.thread && row.thread in b1.threads
            && b1.providers == b0.providers
            && exists r :: r in b1.audience && r.project == project && r.provider == provider
  {
    var admit := Admit("a", row, Thread(project, "s", "s"), {provider}, None, 0);
    assert Enabled(b0, admit);
    FreshInv(b0);
    StepKeepsInv(b0, admit);
    var b1 := Apply(b0, admit);
    assert ("a", provider) in b1.disclosures && Told(b1, "a", provider);
    assert Announced(b1.audience, project, provider, b1.versions["a"].ingest);
  }
}
