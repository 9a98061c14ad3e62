/** Retention: what a sweep before each request purges and expires. */
module Retention {
  import opened Basics
  import opened Ledger
  import opened Ordering
  import opened Vault

  predicate DueProposal(p: Proposal, project: Project, now: Time) {
    p.content.project == project && (p.status == RejectedEarlier || Lapsed(p.content.retention, now))
  }

  predicate DueVersion(row: Version, project: Project, now: Time) {
    row.project == project && row.lifecycle == Active && row.retired == None && Lapsed(row.retention, now)
  }

  function DueProposals(v: Vault, project: Project, now: Time): set<Id> {
    set p | p in v.proposals && DueProposal(v.proposals[p], project, now)
  }

  function DueVersions(v: Vault, project: Project, now: Time): set<Id> {
    set a | a in v.book.versions && DueVersion(v.book.versions[a], project, now)
  }

  function DispositionOf(p: Proposal): Disposition {
    if p.status == RejectedEarlier then WasRejected else WasExpired
  }

  // ---------------------------------------------------------------- purging drafts

  ghost function PurgeRun(v: Vault, due: seq<Id>): Vault
    decreases |due|
  {
    if due == [] then v
    else if due[0] !in v.proposals then PurgeRun(v, due[1..])
    else PurgeRun(ApplyOp(v, Purge(due[0], DispositionOf(v.proposals[due[0]]))), due[1..])
  }

  lemma PurgeOneRow(v: Vault, id: Id, disposition: Disposition)
    requires id in v.proposals
    ensures ApplyOp(v, Purge(id, disposition)).proposals == v.proposals - {id}
    ensures ApplyOp(v, Purge(id, disposition)).book == v.book.(sequence := v.book.sequence + 1)
  {
  }

  /** The drafts that were listed are gone, every other one is as it was, and the ledger only
      counted on. */
  lemma {:induction false} PurgeRunRows(v: Vault, due: seq<Id>)
    ensures var w := PurgeRun(v, due);
            && w.proposals.Keys == v.proposals.Keys - (set id | id in due)
            && (forall p | p in w.proposals :: w.proposals[p] == v.proposals[p])
            && w.book == v.book.(sequence := w.book.sequence) && w.book.sequence >= v.book.sequence
    decreases |due|
  {
    hide ApplyOp;
    if due != [] {
      assert (set id | id in due) == {due[0]} + set id | id in due[1..];
      if due[0] in v.proposals {
        var op := Purge(due[0], DispositionOf(v.proposals[due[0]]));
        PurgeOneRow(v, due[0], DispositionOf(v.proposals[due[0]]));
        PurgeRunRows(ApplyOp(v, op), due[1..]);
      } else {
        PurgeRunRows(v, due[1..]);
      }
    }
  }

  lemma {:induction false} PurgeRunKeepsVault(v: Vault, due: seq<Id>)
    requires VaultInv(v)
    ensures VaultInv(PurgeRun(v, due))
    decreases |due|
  {
    hide VaultInv, ApplyOp;
    if due != [] {
      if due[0] in v.proposals {
        var op := Purge(due[0], DispositionOf(v.proposals[due[0]]));
        OpKeepsVault(v, op);
        PurgeRunKeepsVault(ApplyOp(v, op), due[1..]);
      } else {
        PurgeRunKeepsVault(v, due[1..]);
      }
    }
  }

  // ---------------------------------------------------------------- expiring versions

  /** One row of the loop. `due` was read before the lock, so the UPDATE checks again; the
      sequence number is spent either way. */
  function ExpireNext(b: Book, project: Project, id: Id, now: Time): Step {
    if id in b.versions && DueVersion(b.versions[id], project, now) then Expire(id, now) else Tick
  }

  function ExpireSteps(b: Book, project: Project, due: seq<Id>, now: Time): seq<Step>
    decreases |due|
  {
    if due == [] then []
    else
      var step := ExpireNext(b, project, due[0], now);
      [step] + ExpireSteps(Apply(b, step), project, due[1..], now)
  }

  function ExpireRun(b: Book, project: Project, due: seq<Id>, now: Time): Book {
    Run(b, ExpireSteps(b, project, due, now))
  }

  /** The number of the last row that expired, zero if none did. */
  function LastExpired(b: Book, project: Project, due: seq<Id>, now: Time): nat
    decreases |due|
  {
    if due == [] then 0
    else
      var step := ExpireNext(b, project, due[0], now);
      var rest := LastExpired(Apply(b, step), project, due[1..], now);
      if rest != 0 then rest else if step.Expire? then b.sequence + 1 else 0
  }

  lemma ExpireRunStep(b: Book, project: Project, due: seq<Id>, now: Time)
    requires due != []
    ensures ExpireRun(b, project, due, now)
         == ExpireRun(Apply(b, ExpireNext(b, project, due[0], now)), project, due[1..], now)
  {
  }

  lemma ExpireNextRow(b: Book, project: Project, id: Id, now: Time, a: Id)
    requires a in b.versions
    ensures var b1 := Apply(b, ExpireNext(b, project, id, now));
            && b1.sequence == b.sequence + 1 && b1.versions.Keys == b.versions.Keys
            && b1.versions[a] == if a == id && DueVersion(b.versions[a], project, now)
                                 then Retire(b.versions[a], Lifecycle.Expired, b.sequence + 1, now) else b.versions[a]
  {
  }

  /** After the loop the listed rows that were due are expired, numbered in the order of the
      list; every other version is as it was. */
  lemma {:induction false} ExpireRunRow(b: Book, project: Project, due: seq<Id>, now: Time, a: Id)
    requires a in b.versions
    ensures var b1 := ExpireRun(b, project, due, now);
            && b1.sequence == b.sequence + |due| && b1.versions.Keys == b.versions.Keys
            && var row, row1 := b.versions[a], b1.versions[a];
               if a in due && DueVersion(row, project, now)
               then && row1.retired.Some? && row1 == Retire(row, Lifecycle.Expired, row1.retired.value, now)
                    && exists i | 0 <= i < |due| :: due[i] == a && row1.retired.value == b.sequence + 1 + i
               else row1 == row
    decreases |due|
  {
    hide DueVersion, Apply;
    if due != [] {
      var b1 := Apply(b, ExpireNext(b, project, due[0], now));
      ExpireRunStep(b, project, due, now);
      ExpireNextRow(b, project, due[0], now, a);
      ExpireRunRow(b1, project, due[1..], now, a);
      RetiredIsNotDue(b.versions[a], project, b.sequence + 1, now);
      if due[0] == a && DueVersion(b.versions[a], project, now) {
        assert due[0] == a;
      } else if a in due && DueVersion(b.versions[a], project, now) {
        var i :| 0 <= i < |due[1..]| && due[1..][i] == a
                 && ExpireRun(b, project, due, now).versions[a].retired.value == b1.sequence + 1 + i;
        assert due[i + 1] == a;
      }
    }
  }

  lemma RetiredIsNotDue(row: Version, project: Project, recorded: nat, now: Time)
    ensures !DueVersion(Retire(row, Lifecycle.Expired, recorded, now), project, now)
  {
  }

  /** A sweep leaves nothing due: whoever reads afterwards never meets a lapsed version as
      current. */
  lemma NothingStaysDue(b: Book, project: Project, due: seq<Id>, now: Time, a: Id)
    requires a in b.versions
    requires forall id | id in b.versions && DueVersion(b.versions[id], project, now) :: id in due
    ensures a in ExpireRun(b, project, due, now).versions
    ensures !DueVersion(ExpireRun(b, project, due, now).versions[a], project, now)
  {
    ExpireRunRow(b, project, due, now, a);
    if DueVersion(b.versions[a], project, now) {
      RetiredIsNotDue(b.versions[a], project, ExpireRun(b, project, due, now).versions[a].retired.value, now);
    }
  }

  lemma {:induction false} ExpireRunKeepsVault(v: Vault, project: Project, due: seq<Id>, now: Time)
    requires VaultInv(v)
    ensures VaultInv(v.(book := ExpireRun(v.book, project, due, now)))
    decreases |due|
  {
    hide VaultInv, Apply;
    if due == [] {
      assert v.(book := ExpireRun(v.book, project, due, now)) == v;
    } else {
      var step := ExpireNext(v.book, project, due[0], now);
      StepKeepsVault(v, step);
      ExpireRunStep(v.book, project, due, now);
      ExpireRunKeepsVault(v.(book := Apply(v.book, step)), project, due[1..], now);
    }
  }

  // ---------------------------------------------------------------- the whole sweep

  /** The expiry transaction: nothing at all when nothing is listed; legacy conflicts are
      resolved at the last expired number. */
  ghost function ExpiredIn(v: Vault, project: Project, due: seq<Id>, now: Time): Vault {
    var w := v.(book := ExpireRun(v.book, project, due, now));
    var last := LastExpired(v.book, project, due, now);
    if last == 0 then w else ResolveConflictsOp(w, project, last)
  }

  /** What a request may find after its sweep: the listed drafts are purged in one transaction,
      then the listed versions expire in another. */
  ghost predicate Swept(v: Vault, w: Vault, project: Project, now: Time, later: Time) {
    exists drafts, due :: SweptBy(v, w, project, now, later, drafts, due)
  }

  ghost predicate SweptBy(v: Vault, w: Vault, project: Project, now: Time, later: Time, drafts: seq<Id>, due: seq<Id>) {
    var middle := PurgeRun(v, drafts);
    && Listing(drafts, DueProposals(v, project, now), CreatedAt(v))
    && Listing(due, DueVersions(middle, project, later), IngestOf(middle.book))
    && w == ExpiredIn(middle, project, due, later)
  }

  function CreatedAt(v: Vault): map<Id, nat> {
    map p | p in v.proposals :: v.proposals[p].created
  }

  function IngestOf(b: Book): map<Id, nat> {
    map a | a in b.versions :: b.versions[a].ingest
  }

  lemma ExpiredInKeepsVault(v: Vault, project: Project, due: seq<Id>, now: Time)
    requires VaultInv(v)
    ensures VaultInv(ExpiredIn(v, project, due, now))
  {
    hide VaultInv, ResolveConflictsOp, ExpireRun;
    ExpireRunKeepsVault(v, project, due, now);
    var last := LastExpired(v.book, project, due, now);
    ResolvingKeepsVault(v.(book := ExpireRun(v.book, project, due, now)), project, last);
  }

  lemma SweepKeepsVault(v: Vault, w: Vault, project: Project, now: Time, later: Time)
    requires VaultInv(v) && Swept(v, w, project, now, later)
    ensures VaultInv(w)
  {
    hide VaultInv, PurgeRun, ExpiredIn, Listing;
    var drafts, due :| SweptBy(v, w, project, now, later, drafts, due);
    PurgeRunKeepsVault(v, drafts);
    ExpiredInKeepsVault(PurgeRun(v, drafts), project, due, later);
  }

  /** After a sweep nothing of the project is due: no draft that had lapsed or was rejected is
      left, and no version that has lapsed is current. Nothing else is removed or retired. */
  lemma SweepIsExact(v: Vault, w: Vault, project: Project, now: Time, later: Time)
    requires Swept(v, w, project, now, later)
    ensures w.proposals.Keys == v.proposals.Keys - DueProposals(v, project, now)
    ensures w.book.versions.Keys == v.book.versions.Keys
    ensures forall a | a in v.book.versions ::
              && !DueVersion(w.book.versions[a], project, later)
              && (!DueVersion(v.book.versions[a], project, later) ==> w.book.versions[a] == v.book.versions[a])
              && (DueVersion(v.book.versions[a], project, later) ==>
                    w.book.versions[a].lifecycle == Lifecycle.Expired && w.book.versions[a].retiredAt == Some(later))
  {
    hide PurgeRun, ExpireRun, LastExpired, DueVersion, DueProposal;
    var drafts, due :| SweptBy(v, w, project, now, later, drafts, due);
    PurgeRunRows(v, drafts);
    assert (set id | id in drafts) == DueProposals(v, project, now);
    var middle := PurgeRun(v, drafts);
    ExpireRunKeys(middle.book, project, due, later);
    forall a | a in v.book.versions
      ensures !DueVersion(w.book.versions[a], project, later)
      ensures !DueVersion(v.book.versions[a], project, later) ==> w.book.versions[a] == v.book.versions[a]
      ensures DueVersion(v.book.versions[a], project, later) ==>
                w.book.versions[a].lifecycle == Lifecycle.Expired && w.book.versions[a].retiredAt == Some(later)
    {
      ExpireRunRow(middle.book, project, due, later, a);
      NothingStaysDue(middle.book, project, due, later, a);
    }
  }

  lemma {:induction false} ExpireRunKeys(b: Book, project: Project, due: seq<Id>, now: Time)
    ensures ExpireRun(b, project, due, now).versions.Keys == b.versions.Keys
    decreases |due|
  {
    if due != [] {
      var b1 := Apply(b, ExpireNext(b, project, due[0], now));
      ExpireRunStep(b, project, due, now);
      ExpireRunKeys(b1, project, due[1..], now);
      ExpireNextKeys(b, project, due[0], now);
    }
  }

  lemma ExpireNextKeys(b: Book, project: Project, id: Id, now: Time)
    ensures Apply(b, ExpireNext(b, project, id, now)).versions.Keys == b.versions.Keys
  {
  }

  // ---------------------------------------------------------------- what a sweep does to one row

  lemma PurgeBuriesOne(v: Vault, id: Id, disposition: Disposition)
    requires VaultInv(v) && id in v.proposals
    ensures ApplyOp(v, Purge(id, disposition)).tombstones
         == v.tombstones[DeliveryOf(v.proposals[id]) := Tombstone(id, disposition, v.book.sequence + 1)]
    ensures DeliveryOf(v.proposals[id]) !in v.tombstones
  {
    hide Inv, ForeignKeysHold, EvidenceBacked, IndexMatches, UniqueThreads, AcceptedInThread, ContentProper, CorrectionsInThread,
      ActivitiesDated, UniqueDeliveries, DeliveryOf, RowsElsewhere;
  }

  /** Older tombstones stay, and each listed draft leaves one that says why it went. */
  lemma {:induction false} PurgeRunBuries(v: Vault, due: seq<Id>, p: Id)
    requires VaultInv(v)
    ensures var w := PurgeRun(v, due);
            && (forall k | k in v.tombstones :: k in w.tombstones && w.tombstones[k] == v.tombstones[k])
            && (p in due && p in v.proposals ==>
                  && DeliveryOf(v.proposals[p]) in w.tombstones
                  && w.tombstones[DeliveryOf(v.proposals[p])].proposal == p
                  && w.tombstones[DeliveryOf(v.proposals[p])].purged > v.book.sequence
                  && w.tombstones[DeliveryOf(v.proposals[p])].disposition == DispositionOf(v.proposals[p]))
    decreases |due|
  {
    hide VaultInv, ApplyOp, DeliveryOf, DispositionOf;
    if due != [] {
      if due[0] in v.proposals {
        var op := Purge(due[0], DispositionOf(v.proposals[due[0]]));
        OpKeepsVault(v, op);
        PurgeBuriesOne(v, due[0], op.disposition);
        PurgeOneRow(v, due[0], op.disposition);
        PurgeRunBuries(ApplyOp(v, op), due[1..], p);
      } else {
        PurgeRunBuries(v, due[1..], p);
      }
    }
  }

  /** Each tombstone is numbered where its draft stands in the list. */
  lemma {:induction false} PurgeRunOrder(v: Vault, due: seq<Id>, i: nat, j: nat)
    requires VaultInv(v) && i < j < |due| && (forall a, b | 0 <= a < b < |due| :: due[a] != due[b])
    requires forall p | p in due :: p in v.proposals
    ensures var w := PurgeRun(v, due);
            var k, l := DeliveryOf(v.proposals[due[i]]), DeliveryOf(v.proposals[due[j]]);
            k in w.tombstones && l in w.tombstones && w.tombstones[k].purged < w.tombstones[l].purged
    decreases |due|
  {
    hide VaultInv, ApplyOp, DeliveryOf, DispositionOf;
    var op := Purge(due[0], DispositionOf(v.proposals[due[0]]));
    var v1, rest := ApplyOp(v, op), due[1..];
    OpKeepsVault(v, op);
    PurgeBuriesOne(v, due[0], op.disposition);
    PurgeOneRow(v, due[0], op.disposition);
    assert forall p | p in rest :: p in due && p != due[0];
    assert due[j] == rest[j - 1];
    if i == 0 {
      PurgeRunBuries(v1, rest, due[j]);
    } else {
      assert due[i] == rest[i - 1];
      assert forall a, b | 0 <= a < b < |rest| :: rest[a] == due[a + 1] && rest[b] == due[b + 1];
      PurgeRunOrder(v1, rest, i - 1, j - 1);
    }
  }

  /** A draft of the project that was rejected earlier or whose deadline has come, the instant itself included. */
  predicate DraftIsOver(p: Proposal, project: Project, now: Time) {
    && p.content.project == project
    && (p.status == RejectedEarlier || (p.content.retention.Until? && p.content.retention.deadline <= now))
  }

  /** A version of the project that nothing has retired yet and whose deadline has come. */
  predicate VersionIsOver(row: Version, project: Project, now: Time) {
    row.project == project && row.retired == None && row.retention.Until? && row.retention.deadline <= now
  }

  /** A draft that is over goes and leaves a tombstone that tells a rejection from an expiry; any other draft
      stays as it is, and so does every older tombstone. */
  lemma SweepOfDrafts(v: Vault, w: Vault, project: Project, now: Time, later: Time, p: Id)
    requires VaultInv(v) && Swept(v, w, project, now, later)
    ensures forall k | k in v.tombstones :: k in w.tombstones && w.tombstones[k] == v.tombstones[k]
    ensures p in w.proposals ==> p in v.proposals
    ensures p in v.proposals ==>
              var x := v.proposals[p];
              var k := Delivery(x.content.project, x.source, x.deliveryKey);
              if DraftIsOver(x, project, now) then
                && p !in w.proposals && k in w.tombstones && w.tombstones[k].proposal == p
                && w.tombstones[k].disposition == if x.status == RejectedEarlier then WasRejected else WasExpired
              else p in w.proposals && w.proposals[p] == x && k !in w.tombstones
  {
    SweepKeepsVault(v, w, project, now, later);
    InvKeepsApart(w);
    hide VaultInv, PurgeRun, ExpireRun, LastExpired, NeverRevived, ResolveConflictsOp;
    var drafts, due :| SweptBy(v, w, project, now, later, drafts, due);
    assert p in drafts <==> p in v.proposals && DraftIsOver(v.proposals[p], project, now);
    hide Listing;
    PurgeRunRows(v, drafts);
    PurgeRunBuries(v, drafts, p);
    ExpiringKeepsDrafts(PurgeRun(v, drafts), project, due, later);
    DraftsApart(w, p);
  }

  /** Drafts are purged in the order they were created in, versions expire in the order they were ingested in. */
  lemma SweepGoesInOrder(v: Vault, w: Vault, project: Project, now: Time, later: Time, p: Id, q: Id)
    requires VaultInv(v) && Swept(v, w, project, now, later) && p in v.proposals && q in v.proposals
    requires DraftIsOver(v.proposals[p], project, now) && DraftIsOver(v.proposals[q], project, now)
    requires v.proposals[p].created < v.proposals[q].created
    ensures var k := Delivery(v.proposals[p].content.project, v.proposals[p].source, v.proposals[p].deliveryKey);
            var l := Delivery(v.proposals[q].content.project, v.proposals[q].source, v.proposals[q].deliveryKey);
            k in w.tombstones && l in w.tombstones && w.tombstones[k].purged < w.tombstones[l].purged
  {
    hide VaultInv, PurgeRun, ExpiredIn;
    var drafts, due :| SweptBy(v, w, project, now, later, drafts, due);
    var i, j := InListOrder(drafts, DueProposals(v, project, now), CreatedAt(v), p, q);
    hide Listing, CreatedAt;
    PurgeRunOrder(v, drafts, i, j);
    ExpiringKeepsDrafts(PurgeRun(v, drafts), project, due, later);
  }

  lemma InListOrder(ids: seq<Id>, of: set<Id>, at: map<Id, nat>, p: Id, q: Id) returns (i: nat, j: nat)
    requires Listing(ids, of, at) && p in of && q in of && p in at && q in at && at[p] < at[q]
    ensures i < j < |ids| && ids[i] == p && ids[j] == q
    ensures forall a, b | 0 <= a < b < |ids| :: ids[a] != ids[b]
    ensures forall id | id in ids :: id in of
  {
    i :| 0 <= i < |ids| && ids[i] == p;
    j :| 0 <= j < |ids| && ids[j] == q;
    forall a, b | 0 <= a < b < |ids| ensures ids[a] != ids[b] {
      LexTotal(ids[a], ids[b]);
    }
  }

  lemma VersionsExpireInOrder(v: Vault, w: Vault, project: Project, now: Time, later: Time, a: Id, b: Id)
    requires VaultInv(v) && Swept(v, w, project, now, later) && a in v.book.versions && b in v.book.versions
    requires VersionIsOver(v.book.versions[a], project, later) && VersionIsOver(v.book.versions[b], project, later)
    requires v.book.versions[a].ingest < v.book.versions[b].ingest
    ensures a in w.book.versions && b in w.book.versions
    ensures w.book.versions[a].retired.Some? && w.book.versions[b].retired.Some?
    ensures w.book.versions[a].retired.value < w.book.versions[b].retired.value
  {
    ActiveIsUnretired(v, a);
    ActiveIsUnretired(v, b);
    assert DueVersion(v.book.versions[a], project, later) && DueVersion(v.book.versions[b], project, later);
    hide VaultInv, PurgeRun, ExpireRun, LastExpired, DueVersion, DueProposal, ResolveConflictsOp;
    var drafts, due :| SweptBy(v, w, project, now, later, drafts, due);
    PurgeRunRows(v, drafts);
    var middle := PurgeRun(v, drafts);
    var i, j := InListOrder(due, DueVersions(middle, project, later), IngestOf(middle.book), a, b);
    hide Listing, DueVersions, IngestOf;
    ExpireRunRow(middle.book, project, due, later, a);
    ExpireRunRow(middle.book, project, due, later, b);
    ExpiringKeepsBook(middle, project, due, later);
  }

  lemma InvKeepsApart(w: Vault)
    requires VaultInv(w)
    ensures NeverRevived(w.proposals, w.tombstones)
  {
  }

  lemma DraftsApart(w: Vault, p: Id)
    requires NeverRevived(w.proposals, w.tombstones)
    ensures p in w.proposals ==> DeliveryOf(w.proposals[p]) !in w.tombstones
  {
  }

  lemma ExpiringKeepsDrafts(v: Vault, project: Project, due: seq<Id>, now: Time)
    ensures ExpiredIn(v, project, due, now).proposals == v.proposals && ExpiredIn(v, project, due, now).tombstones == v.tombstones
  {
    hide ExpireRun, LastExpired, ResolveConflictsOp;
    ResolvingKeepsRows(v.(book := ExpireRun(v.book, project, due, now)), project, LastExpired(v.book, project, due, now));
  }

  lemma ResolvingKeepsRows(v: Vault, project: Project, sequence: nat)
    ensures ResolveConflictsOp(v, project, sequence).book == v.book
    ensures ResolveConflictsOp(v, project, sequence).proposals == v.proposals
    ensures ResolveConflictsOp(v, project, sequence).tombstones == v.tombstones
  {
    hide ActiveMembers;
  }

  /** A version that is over expires, at a number of its own after all earlier ones; any other stays as it is. */
  lemma SweepOfVersions(v: Vault, w: Vault, project: Project, now: Time, later: Time, a: Id)
    requires VaultInv(v) && Swept(v, w, project, now, later) && a in v.book.versions
    ensures a in w.book.versions
    ensures var row, row1 := v.book.versions[a], w.book.versions[a];
            if VersionIsOver(row, project, later) then
              && row1.lifecycle == Lifecycle.Expired && row1.retiredAt == Some(later)
              && row1.retired.Some? && row1.retired.value > v.book.sequence
              && row1 == row.(lifecycle := row1.lifecycle, retired := row1.retired, retiredAt := row1.retiredAt)
            else row1 == row
  {
    var row := v.book.versions[a];
    ActiveIsUnretired(v, a);
    assert DueVersion(row, project, later) <==> VersionIsOver(row, project, later);
    hide VaultInv, PurgeRun, ExpireRun, LastExpired, DueVersion, DueProposal, ResolveConflictsOp;
    var drafts, due :| SweptBy(v, w, project, now, later, drafts, due);
    PurgeRunRows(v, drafts);
    var middle := PurgeRun(v, drafts);
    assert a in due <==> DueVersion(row, project, later);
    hide Listing;
    ExpireRunRow(middle.book, project, due, later, a);
    ExpiringKeepsBook(middle, project, due, later);
  }

  lemma ActiveIsUnretired(v: Vault, a: Id)
    requires VaultInv(v) && a in v.book.versions
    ensures v.book.versions[a].lifecycle == Active <==> v.book.versions[a].retired == None
  {
  }

  lemma ExpiringKeepsBook(v: Vault, project: Project, due: seq<Id>, now: Time)
    ensures ExpiredIn(v, project, due, now).book == ExpireRun(v.book, project, due, now)
  {
    hide ExpireRun, LastExpired, ResolveConflictsOp;
    ResolvingKeepsRows(v.(book := ExpireRun(v.book, project, due, now)), project, LastExpired(v.book, project, due, now));
  }

  /** Two different members of the conflict are still current. */
  ghost predicate StillOpen(v: Vault, c: Id) {
    exists a, b | (c, a) in v.conflictMembers && (c, b) in v.conflictMembers ::
      a != b && Current(v.book, a) && Current(v.book, b)
  }

  /** Of the conflicts kept by older databases, those of the project that are open and no longer have two current
      members are resolved, at the number given; the rest stay as they are. */
  lemma ResolvesExactly(v: Vault, project: Project, sequence: nat, c: Id)
    requires c in v.conflicts
    ensures var w := ResolveConflictsOp(v, project, sequence);
            && w == v.(conflicts := w.conflicts) && w.conflicts.Keys == v.conflicts.Keys
            && w.conflicts[c] == (if v.conflicts[c].project == project && v.conflicts[c].resolved == None && !StillOpen(v, c)
                                  then v.conflicts[c].(resolved := Some(sequence)) else v.conflicts[c])
  {
    TwoActive(v, c);
    hide ActiveMembers, StillOpen;
  }

  lemma TwoActive(v: Vault, c: Id)
    ensures |ActiveMembers(v, c)| < 2 <==> !StillOpen(v, c)
  {
    var active := ActiveMembers(v, c);
    if StillOpen(v, c) {
      var a, b :| (c, a) in v.conflictMembers && (c, b) in v.conflictMembers && a != b && Current(v.book, a) && Current(v.book, b);
      SubsetSize({a, b}, active);
    } else if active != {} {
      var a :| a in active;
      forall b | b in active ensures b == a {
        assert (c, a) in v.conflictMembers && (c, b) in v.conflictMembers;
      }
      assert active == {a};
    }
  }

  lemma {:induction false} SubsetSize(some: set<Id>, all: set<Id>)
    requires some <= all
    ensures |some| <= |all|
  {
    if some != {} {
      var x :| x in some;
      SubsetSize(some - {x}, all - {x});
    }
  }

  // ---------------------------------------------------------------- sweeps are runs

  lemma {:induction false} RunOpsConcat(v: Vault, first: seq<Op>, second: seq<Op>)
    ensures RunOps(v, first + second) == RunOps(RunOps(v, first), second)
    decreases |first|
  {
    hide ApplyOp;
    if first == [] {
      assert first + second == second;
    } else {
      assert (first + second)[1..] == first[1..] + second;
      RunOpsConcat(ApplyOp(v, first[0]), first[1..], second);
    }
  }

  lemma OneOp(v: Vault, op: Op, rest: seq<Op>)
    ensures RunOps(v, [op] + rest) == RunOps(ApplyOp(v, op), rest)
  {
  }

  lemma {:induction false} PurgeRunIsARun(v: Vault, due: seq<Id>) returns (ops: seq<Op>)
    ensures PurgeRun(v, due) == RunOps(v, ops)
    ensures forall op | op in ops :: op.Purge?
    decreases |due|
  {
    hide ApplyOp;
    if due == [] {
      ops := [];
    } else if due[0] !in v.proposals {
      ops := PurgeRunIsARun(v, due[1..]);
    } else {
      var op := Purge(due[0], DispositionOf(v.proposals[due[0]]));
      var rest := PurgeRunIsARun(ApplyOp(v, op), due[1..]);
      OneOp(v, op, rest);
      ops := [op] + rest;
    }
  }

  lemma ExpireNextIsOp(v: Vault, project: Project, id: Id, now: Time) returns (op: Op)
    ensures v.(book := Apply(v.book, ExpireNext(v.book, project, id, now))) == ApplyOp(v, op)
    ensures op.ExpireVersion? || op.Spend?
  {
    hide Announce, Audience, ExpireStep;
    op := if ExpireNext(v.book, project, id, now).Expire? then ExpireVersion(id, now) else Spend;
  }

  lemma {:induction false} ExpireRunIsARun(v: Vault, project: Project, due: seq<Id>, now: Time) returns (ops: seq<Op>)
    ensures v.(book := ExpireRun(v.book, project, due, now)) == RunOps(v, ops)
    ensures forall op | op in ops :: op.ExpireVersion? || op.Spend?
    decreases |due|
  {
    hide ApplyOp, Apply;
    if due == [] {
      ops := [];
      assert v.(book := ExpireRun(v.book, project, due, now)) == v;
    } else {
      var op := ExpireNextIsOp(v, project, due[0], now);
      var w := ApplyOp(v, op);
      var rest := ExpireRunIsARun(w, project, due[1..], now);
      ExpireRunStep(v.book, project, due, now);
      OneOp(v, op, rest);
      ops := [op] + rest;
    }
  }

  /** A sweep is a run of purges, expiries and conflict resolutions, so whatever holds over runs
      of transactions holds across requests. */
  lemma SweepIsARun(v: Vault, w: Vault, project: Project, now: Time, later: Time) returns (ops: seq<Op>)
    requires Swept(v, w, project, now, later)
    ensures w == RunOps(v, ops)
    ensures forall op | op in ops :: op.Purge? || op.ExpireVersion? || op.Spend? || op.ResolveConflicts?
  {
    hide PurgeRun, ExpireRun, LastExpired, Listing, ApplyOp, Run, RunOps;
    var drafts, due :| SweptBy(v, w, project, now, later, drafts, due);
    var middle := PurgeRun(v, drafts);
    var purges := PurgeRunIsARun(v, drafts);
    var expiries := ExpireRunIsARun(middle, project, due, later);
    RunOpsConcat(v, purges, expiries);
    var last := LastExpired(middle.book, project, due, later);
    ops := purges + expiries;
    if last != 0 {
      var resolve := [ResolveConflicts(project, last)];
      RunOpsConcat(v, ops, resolve);
      ResolveIsAnOp(RunOps(v, ops), project, last);
      ops := ops + resolve;
    }
  }

  lemma ResolveIsAnOp(v: Vault, project: Project, sequence: nat)
    ensures RunOps(v, [ResolveConflicts(project, sequence)]) == ResolveConflictsOp(v, project, sequence)
  {
  }
}
