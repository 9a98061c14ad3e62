/** Disputes as a reader sees them: derived per thread from the eligible rows. */
module Disputes {
  import opened Basics
  import opened Ledger
  import opened Reads
  import opened Conflicts
  import opened Ordering

  /** More rows than this in one thread are not assessed at all. */
  const ASSESSED_ROWS: nat := 25

  function ThreadRows(docs: map<Id, Doc>, threadId: Id): map<Id, Version> {
    map id | id in docs && docs[id].row.thread == threadId :: docs[id].row
  }

  function IngestIn(rows: map<Id, Version>): map<Id, nat> {
    map id | id in rows :: rows[id].ingest
  }

  datatype Verdict = Disputed(groups: set<set<Id>>) | Unassessed(first: seq<Id>)

  /** What a reader is told about one thread: its exact disputes, or, over the limit, only that
      the first rows were not assessed. */
  ghost predicate Judged(rows: map<Id, Version>, verdict: Verdict) {
    if |rows| <= ASSESSED_ROWS then verdict == Disputed(Groups(rows))
    else verdict.Unassessed? && FirstOf(rows, verdict.first)
  }

  ghost predicate FirstOf(rows: map<Id, Version>, first: seq<Id>) {
    exists all :: Listing(all, rows.Keys, IngestIn(rows)) && |all| >= ASSESSED_ROWS && first == all[..ASSESSED_ROWS]
  }

  // ---------------------------------------------------------------- stability

  /** Two row sets that differ only in retirements after every ingest among them. */
  ghost predicate SameUpTo(rows: map<Id, Version>, rows1: map<Id, Version>, recorded: nat) {
    && rows1.Keys == rows.Keys
    && (forall id | id in rows ::
          && rows[id].ingest <= recorded
          && (rows1[id] == rows[id]
              || (rows[id].retired == None && rows1[id].retired.Some? && rows1[id].retired.value > recorded
                  && rows1[id] == rows[id].(lifecycle := rows1[id].lifecycle, retired := rows1[id].retired,
                                            retiredAt := rows1[id].retiredAt))))
  }

  /** `overlap` reads the live retirement, but a retirement after the snapshot decides nothing. */
  lemma JudgementIgnoresLaterRetirement(rows: map<Id, Version>, rows1: map<Id, Version>, recorded: nat, verdict: Verdict)
    requires SameUpTo(rows, rows1, recorded)
    ensures Judged(rows, verdict) <==> Judged(rows1, verdict)
  {
    forall a, b | a in rows && b in rows ensures Overlap(rows[a], rows[b]) <==> Overlap(rows1[a], rows1[b]) {
    }
    GroupsFollowOverlap(rows, rows1);
    assert IngestIn(rows) == IngestIn(rows1);
    assert |rows| == |rows.Keys| && |rows1| == |rows1.Keys|;
    hide Groups, Listing, SameUpTo;
  }

  /** One row of the thread, before and after a step. */
  lemma StepKeepsThreadRow(b: Book, step: Step, e: Eligibility, threadId: Id, id: Id)
    requires Inv(b) && e.recorded <= b.sequence && step != Forget(threadId)
    ensures var b1 := Apply(b, step);
            var listed := Eligible(b, e, id) && b.versions[id].thread == threadId;
            && (Eligible(b1, e, id) && b1.versions[id].thread == threadId <==> listed)
            && (listed ==>
                  && b.versions[id].ingest <= e.recorded
                  && (b1.versions[id] == b.versions[id]
                      || (b.versions[id].retired == None && RetiredAs(b.versions[id], b1.versions[id], b.sequence + 1))))
  {
    hide TimelinesOk, EventsComplete, Announce, Audience, Apply;
    var b1 := Apply(b, step);
    StepKeepsSnapshotRow(b, step, e, id);
    if id in b.versions {
      if step.Forget? && b.versions[id].thread == step.threadId {
        ForgottenIsGone(b, step.threadId, id);
      } else {
        StepKeepsRow(b, step, id);
      }
    } else if id in b1.versions {
      NewRowsAreLate(b, step, id);
    }
  }

  lemma ForgottenIsGone(b: Book, threadId: Id, id: Id)
    requires Inv(b) && id in b.versions && b.versions[id].thread == threadId
    ensures id !in Apply(b, Forget(threadId)).versions
  {
  }

  lemma StepKeepsThreadRows(b: Book, step: Step, e: Eligibility, threadId: Id)
    requires Inv(b) && e.recorded <= b.sequence && step != Forget(threadId)
    ensures SameUpTo(ThreadRows(Rows(b, e), threadId), ThreadRows(Rows(Apply(b, step), e), threadId), e.recorded)
  {
    hide Inv, Apply, Eligible;
    var b1 := Apply(b, step);
    var rows, rows1 := ThreadRows(Rows(b, e), threadId), ThreadRows(Rows(b1, e), threadId);
    forall id ensures id in rows1 <==> id in rows {
      StepKeepsThreadRow(b, step, e, threadId, id);
      EligibleIsStored(b, e, id);
      EligibleIsStored(b1, e, id);
    }
    forall id | id in rows
      ensures rows[id].ingest <= e.recorded
      ensures rows1[id] == rows[id] || (rows[id].retired == None && RetiredAs(rows[id], rows1[id], b.sequence + 1))
    {
      StepKeepsThreadRow(b, step, e, threadId, id);
    }
  }

  lemma EligibleIsStored(b: Book, e: Eligibility, id: Id)
    ensures Eligible(b, e, id) ==> id in b.versions
  {
  }

  /** One step: what a pinned snapshot says about a thread's disputes never changes, unless the
      thread itself is forgotten. */
  lemma StepKeepsJudgement(b: Book, step: Step, e: Eligibility, threadId: Id, verdict: Verdict)
    requires Inv(b) && e.recorded <= b.sequence && step != Forget(threadId)
    ensures Judged(ThreadRows(Rows(b, e), threadId), verdict)
       <==> Judged(ThreadRows(Rows(Apply(b, step), e), threadId), verdict)
  {
    StepKeepsThreadRows(b, step, e, threadId);
    JudgementIgnoresLaterRetirement(ThreadRows(Rows(b, e), threadId), ThreadRows(Rows(Apply(b, step), e), threadId),
                                    e.recorded, verdict);
  }

  /** Over every later run that does not forget the thread. */
  lemma {:induction false} JudgementIsStable(b: Book, steps: seq<Step>, e: Eligibility, threadId: Id, verdict: Verdict)
    requires Inv(b) && e.recorded <= b.sequence && Forget(threadId) !in steps
    ensures Judged(ThreadRows(Rows(b, e), threadId), verdict)
       <==> Judged(ThreadRows(Rows(Run(b, steps), e), threadId), verdict)
    decreases |steps|
  {
    hide Judged, Rows, ThreadRows, Inv;
    if steps != [] {
      var next := Apply(b, steps[0]);
      StepKeepsInv(b, steps[0]);
      SequenceGrows(b, steps[0]);
      StepKeepsJudgement(b, steps[0], e, threadId, verdict);
      JudgementIsStable(next, steps[1..], e, threadId, verdict);
    }
  }

  /** A hidden step leaves every dispute the audience can see as it was. */
  lemma HiddenStepKeepsJudgement(b: Book, step: Step, project: Project, provider: Provider, mode: Mode, asOf: Option<nat>,
                                 valid: Option<Time>, threadId: Id, verdict: Verdict)
    requires Inv(b) && provider in Configured(b, project)
    requires Hidden(b, step, project, provider)
    ensures var e := Resolve(b, project, provider, mode, asOf, valid, false);
            var e1 := Resolve(Apply(b, step), project, provider, mode, asOf, valid, false);
            Judged(ThreadRows(Rows(b, e), threadId), verdict) == Judged(ThreadRows(Rows(Apply(b, step), e1), threadId), verdict)
  {
    HiddenStepIsInvisible(b, step, project, provider, mode, asOf, valid);
  }

  lemma HiddenRunKeepsDisputes(b: Book, steps: seq<Step>, project: Project, provider: Provider, mode: Mode,
                               asOf: Option<nat>, valid: Option<Time>, threadId: Id, verdict: Verdict)
    requires Inv(b) && provider in Configured(b, project) && HiddenRun(b, steps, project, provider)
    ensures var b1 := Run(b, steps);
            var e := Resolve(b, project, provider, mode, asOf, valid, false);
            var e1 := Resolve(b1, project, provider, mode, asOf, valid, false);
            Judged(ThreadRows(Rows(b, e), threadId), verdict) == Judged(ThreadRows(Rows(b1, e1), threadId), verdict)
  {
    hide Rows, Inv, HiddenRun, Run, Judged, ThreadRows, Resolve, Snapshot, Watermark, VisibleSequence, Configured;
    HiddenRunIsInvisible(b, steps, project, provider, mode, asOf, valid);
  }

  /** Nor does any number of hidden steps change what a page pinned by a cursor says about disputes. */
  lemma HiddenRunKeepsJudgement(b: Book, steps: seq<Step>, e: Eligibility, threadId: Id, verdict: Verdict)
    requires Inv(b) && Reader(b, e) && e.recorded <= b.sequence && HiddenRun(b, steps, e.project, e.provider)
    ensures Judged(ThreadRows(Rows(b, e), threadId), verdict) == Judged(ThreadRows(Rows(Run(b, steps), e), threadId), verdict)
  {
    hide *;
    HiddenRunKeepsPinned(b, steps, e);
  }

  // ---------------------------------------------------------------- the projection

  /** The name of a group: a digest of its ids, modelled as the ids, or the whole thread. */
  datatype GroupName = Dispute(ids: set<Id>) | NotAssessed(thread: Id)

  /** What one thread contributes to the projection. */
  ghost predicate Projects(rows: map<Id, Version>, threadId: Id, groups: map<GroupName, seq<Member>>) {
    if |rows| <= ASSESSED_ROWS then
      groups.Keys == (set g | g in Groups(rows) :: Dispute(g))
      && forall g | g in Groups(rows) :: IsOrdered(groups[Dispute(g)], rows, g)
    else
      groups.Keys == {NotAssessed(threadId)}
      && |groups[NotAssessed(threadId)]| == ASSESSED_ROWS
      && FirstOf(rows, seq(ASSESSED_ROWS, i requires 0 <= i < |groups[NotAssessed(threadId)]| =>
                             groups[NotAssessed(threadId)][i].id))
  }

  /** `members` are the rows of `ids`, each once, in row order. */
  ghost predicate IsOrdered(members: seq<Member>, rows: map<Id, Version>, ids: set<Id>) {
    && (forall id :: id in ids <==> exists m | m in members :: m.id == id)
    && (forall m | m in members :: m.id in rows && rows[m.id] == m.row)
    && (forall i, j | 0 <= i < j < |members| :: Earlier(IngestIn(rows), members[i].id, members[j].id))
  }

  /** Ingested before, or at once with the smaller id. */
  predicate Older(rows: map<Id, Version>, a: Id, b: Id) {
    a in rows && b in rows && (rows[a].ingest < rows[b].ingest || (rows[a].ingest == rows[b].ingest && LexLess(a, b)))
  }

  /** The members of every dispute come oldest first, with their rows; and of a thread that is not assessed, 25
      rows are shown of which none is younger than one that is not. */
  lemma ProjectionIsOldestFirst(rows: map<Id, Version>, threadId: Id, groups: map<GroupName, seq<Member>>, n: GroupName)
    requires Projects(rows, threadId, groups) && n in groups
    ensures forall i, j | 0 <= i < j < |groups[n]| :: Older(rows, groups[n][i].id, groups[n][j].id)
    ensures n.NotAssessed? ==>
              && |rows| > 25 && |groups[n]| == 25
              && forall m, id | m in groups[n] && id in rows && (forall k | k in groups[n] :: k.id != id) :: Older(rows, m.id, id)
    ensures n.Dispute? ==>
              && |rows| <= 25 && n.ids in Groups(rows)
              && forall id :: id in n.ids <==> exists m | m in groups[n] :: m.id == id
  {
    hide Groups, Linked, GroupOf;
    if n.NotAssessed? {
      var first := seq(ASSESSED_ROWS, i requires 0 <= i < |groups[n]| => groups[n][i].id);
      var all :| Listing(all, rows.Keys, IngestIn(rows)) && |all| >= ASSESSED_ROWS && first == all[..ASSESSED_ROWS];
      forall i | 0 <= i < ASSESSED_ROWS ensures groups[n][i].id == all[i] {
        assert first[i] == all[i];
      }
      forall i, j | 0 <= i < j < |all| ensures Older(rows, all[i], all[j]) {
        assert all[i] in all && all[j] in all;
      }
      forall m, id | m in groups[n] && id in rows && (forall k | k in groups[n] :: k.id != id) ensures Older(rows, m.id, id) {
        var i :| 0 <= i < |groups[n]| && groups[n][i] == m;
        var j :| 0 <= j < |all| && all[j] == id;
        assert j >= ASSESSED_ROWS;
      }
    } else {
      assert IsOrdered(groups[n], rows, n.ids);
    }
  }

  function Fetched(rows: map<Id, Version>, ids: seq<Id>): (members: seq<Member>)
    requires forall id | id in ids :: id in rows
    ensures |members| == |ids|
    ensures forall i | 0 <= i < |ids| :: members[i] == Member(ids[i], rows[ids[i]])
  {
    if ids == [] then [] else [Member(ids[0], rows[ids[0]])] + Fetched(rows, ids[1..])
  }

  lemma ListingSize(ids: seq<Id>, of: set<Id>, at: map<Id, nat>)
    requires Listing(ids, of, at)
    ensures |ids| == |of|
    ensures forall i, j | 0 <= i < |ids| && 0 <= j < |ids| && ids[i] == ids[j] :: i == j
  {
    forall i, j | 0 <= i < j < |ids| ensures ids[i] != ids[j] {
      LexTotal(ids[i], ids[j]);
    }
    DistinctSize(ids);
    assert (set id | id in ids) == of;
  }

  lemma {:induction false} DistinctSize(ids: seq<Id>)
    requires forall i, j | 0 <= i < j < |ids| :: ids[i] != ids[j]
    ensures |set id | id in ids| == |ids|
  {
    if ids != [] {
      DistinctSize(ids[1..]);
      assert (set id | id in ids) == {ids[0]} + set id | id in ids[1..];
    }
  }

  /** Selecting keeps the order. */
  lemma {:induction false} SelectOrdered(members: seq<Member>, ids: set<Id>, at: map<Id, nat>)
    requires forall i, j | 0 <= i < j < |members| :: Earlier(at, members[i].id, members[j].id)
    ensures var s := Select(members, ids);
            && (forall i, j | 0 <= i < j < |s| :: Earlier(at, s[i].id, s[j].id))
            && (forall m :: m in s <==> m in members && m.id in ids)
  {
    if members != [] {
      var rest := members[1..];
      SelectOrdered(rest, ids, at);
      forall m | m in rest ensures Earlier(at, members[0].id, m.id) {
        var j :| 0 <= j < |rest| && rest[j] == m;
        assert members[j + 1] == m;
      }
      assert forall m :: m in members <==> m == members[0] || m in rest;
    }
  }

  /** One thread of `_conflict_projection`: fetch one row more than can be assessed, and never
      infer a dispute from truncated input. */
  method ProjectThread(rows: map<Id, Version>, threadId: Id) returns (groups: map<GroupName, seq<Member>>)
    ensures Projects(rows, threadId, groups)
  {
    var ids := OrderBySequence(rows.Keys, IngestIn(rows));
    ListingSize(ids, rows.Keys, IngestIn(rows));
    var limit := if |ids| < ASSESSED_ROWS + 1 then |ids| else ASSESSED_ROWS + 1;
    var members := Fetched(rows, ids[..limit]);
    if |members| > ASSESSED_ROWS {
      var first := members[..ASSESSED_ROWS];
      groups := map[NotAssessed(threadId) := first];
      assert seq(ASSESSED_ROWS, i requires 0 <= i < |first| => first[i].id) == ids[..ASSESSED_ROWS];
    } else {
      assert ids[..limit] == ids;
      AllFetched(rows, ids, members);
      RowsById(rows, members);
      hide Groups, AreRows, Select, Named, DistinctIds;
      var found := ConflictGroups(members);
      groups := Named(found);
      FoundProjects(rows, threadId, members, found);
    }
  }

  function Named(found: map<set<Id>, seq<Member>>): map<GroupName, seq<Member>> {
    map name | name in (set g | g in found :: Dispute(g)) :: if name.Dispute? && name.ids in found then found[name.ids] else []
  }

  /** `members` are all the rows, each once, in row order. */
  ghost predicate AreRows(members: seq<Member>, rows: map<Id, Version>) {
    && (forall i, j | 0 <= i < j < |members| :: Earlier(IngestIn(rows), members[i].id, members[j].id))
    && (forall m | m in members :: m.id in rows && rows[m.id] == m.row)
    && (forall id | id in rows :: Member(id, rows[id]) in members)
  }

  lemma GroupIsOrdered(rows: map<Id, Version>, members: seq<Member>, g: set<Id>)
    requires AreRows(members, rows) && forall id | id in g :: id in rows
    ensures IsOrdered(Select(members, g), rows, g)
  {
    SelectOrdered(members, g, IngestIn(rows));
    forall id | id in g ensures exists m | m in Select(members, g) :: m.id == id {
      assert Member(id, rows[id]) in Select(members, g);
    }
  }

  lemma NamedGroup(found: map<set<Id>, seq<Member>>, g: set<Id>)
    requires g in found
    ensures Dispute(g) in Named(found) && Named(found)[Dispute(g)] == found[g]
  {
  }

  lemma NamedKeys(found: map<set<Id>, seq<Member>>)
    ensures Named(found).Keys == set g | g in found.Keys :: Dispute(g)
  {
  }

  lemma FoundProjects(rows: map<Id, Version>, threadId: Id, members: seq<Member>, found: map<set<Id>, seq<Member>>)
    requires |rows| <= ASSESSED_ROWS && AreRows(members, rows)
    requires found.Keys == Groups(rows) && forall g | g in found :: found[g] == Select(members, g)
    ensures Projects(rows, threadId, Named(found))
  {
    NamedKeys(found);
    forall g | g in Groups(rows)
      ensures Dispute(g) in Named(found) && IsOrdered(Named(found)[Dispute(g)], rows, g)
    {
      GroupsAreRows(rows, g);
      hide *;
      NamedGroup(found, g);
      GroupIsOrdered(rows, members, g);
    }
    hide Groups, IsOrdered, Named, AreRows, Select;
  }

  lemma AllFetched(rows: map<Id, Version>, ids: seq<Id>, members: seq<Member>)
    requires Listing(ids, rows.Keys, IngestIn(rows))
    requires |members| == |ids| && forall i | 0 <= i < |ids| :: members[i] == Member(ids[i], rows[ids[i]])
    ensures DistinctIds(members) && AreRows(members, rows)
  {
    ListingSize(ids, rows.Keys, IngestIn(rows));
    forall id | id in rows ensures Member(id, rows[id]) in members {
      var i :| 0 <= i < |ids| && ids[i] == id;
      assert members[i] == Member(id, rows[id]);
    }
    hide Earlier, IngestIn;
  }

  lemma RowsById(rows: map<Id, Version>, members: seq<Member>)
    requires DistinctIds(members) && AreRows(members, rows)
    ensures ById(members) == rows
  {
  }

  lemma GroupsAreRows(rows: map<Id, Version>, g: set<Id>)
    requires g in Groups(rows)
    ensures forall id | id in g :: id in rows
  {
  }
}
