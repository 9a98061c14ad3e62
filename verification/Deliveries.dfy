/** The life of one delivery key: unseen, then one live proposal, then a tombstone. */
module Deliveries {
  import opened Basics
  import opened Ledger
  import opened Vault

  datatype Fate = Unseen | LiveAs(id: Id) | Buried(tombstone: Tombstone)

  /** What the database knows of a delivery. */
  ghost predicate HasFate(proposals: map<Id, Proposal>, tombstones: map<Delivery, Tombstone>, k: Delivery, fate: Fate) {
    match fate
    case Unseen => k !in tombstones && Live(proposals, k) == {}
    case LiveAs(id) => k !in tombstones && Live(proposals, k) == {id}
    case Buried(t) => k in tombstones && tombstones[k] == t && Live(proposals, k) == {}
  }

  ghost predicate Fated(v: Vault, k: Delivery, fate: Fate) {
    HasFate(v.proposals, v.tombstones, k, fate)
  }

  lemma EveryDeliveryHasOneFate(v: Vault, k: Delivery)
    requires VaultInv(v)
    ensures exists fate :: Fated(v, k, fate)
    ensures forall f, g | Fated(v, k, f) && Fated(v, k, g) :: f == g
  {
    hide ActivitiesDated, CorrectionsInThread, Inv, ForeignKeysHold, EvidenceBacked, IndexMatches, UniqueThreads, AcceptedInThread, ContentProper;
    if k in v.tombstones {
      assert Fated(v, k, Buried(v.tombstones[k]));
    } else if Live(v.proposals, k) == {} {
      assert Fated(v, k, Unseen);
    } else {
      var id :| id in Live(v.proposals, k);
      assert Live(v.proposals, k) == {id};
      assert Fated(v, k, LiveAs(id));
    }
  }

  /** The moves a committed transaction can make on a delivery. */
  ghost predicate Moves(op: Op, k: Delivery, before: Fate, after: Fate) {
    match before
    case Buried(_) => after == before
    case LiveAs(id) => after == before || (after.Buried? && after.tombstone.proposal == id)
    case Unseen =>
      || after == Unseen
      || (op.Propose? && k == Delivery(op.content.project, op.source, op.deliveryKey) && after == LiveAs(op.id))
  }

  // ---------------------------------------------------------------- one table at a time

  lemma PurgeMoves(v: Vault, id: Id, sequence: nat, disposition: Disposition, k: Delivery, before: Fate)
    requires id in v.proposals && UniqueDeliveries(v.proposals) && NeverRevived(v.proposals, v.tombstones)
    requires Fated(v, k, before)
    ensures Fated(PurgeOne(v, id, sequence, disposition), k,
                  if before == LiveAs(id) then Buried(Tombstone(id, disposition, sequence)) else before)
  {
    var w := PurgeOne(v, id, sequence, disposition);
    assert w.proposals == v.proposals - {id};
    assert Live(w.proposals, k) == Live(v.proposals, k) - {id};
    if DeliveryOf(v.proposals[id]) == k {
      assert id in Live(v.proposals, k);
    }
  }

  lemma SuppressMoves(v: Vault, gone: map<Id, Proposal>, sequence: nat, k: Delivery, before: Fate) returns (after: Fate)
    requires UniqueDeliveries(v.proposals) && NeverRevived(v.proposals, v.tombstones)
    requires forall p | p in gone :: p in v.proposals && v.proposals[p] == gone[p]
    requires Fated(v, k, before)
    ensures HasFate(v.proposals - gone.Keys, Suppress(v.tombstones, gone, sequence, WasForgotten), k, after)
    ensures after == before || (before.LiveAs? && before.id in gone && after == Buried(Tombstone(before.id, WasForgotten, sequence)))
  {
    var left := v.proposals - gone.Keys;
    assert Live(left, k) == Live(v.proposals, k) - gone.Keys;
    if before.LiveAs? && before.id in gone {
      assert before.id in Live(v.proposals, k);
      assert DeliveryOf(gone[before.id]) == k;
      after := Buried(Tombstone(before.id, WasForgotten, sequence));
    } else {
      forall p | p in gone ensures DeliveryOf(gone[p]) != k {
        assert DeliveryOf(gone[p]) == k ==> p in Live(v.proposals, k);
      }
      after := before;
    }
  }

  lemma RelabelMoves(before: map<Id, Proposal>, after: map<Id, Proposal>, k: Delivery)
    requires before.Keys == after.Keys
    requires forall p | p in before :: DeliveryOf(after[p]) == DeliveryOf(before[p])
    ensures Live(before, k) == Live(after, k)
  {
  }

  lemma ProposeMoves(v: Vault, op: Op, k: Delivery, before: Fate)
    requires op.Propose? && CanPropose(v, op) && Fated(v, k, before)
    ensures var named := k == Delivery(op.content.project, op.source, op.deliveryKey);
            Fated(ProposeOp(v, op), k, if named then LiveAs(op.id) else before) && (named ==> before == Unseen)
  {
  }

  lemma OthersKeepTables(v: Vault, op: Op)
    requires op.ExpireVersion? || op.Spend? || op.ResolveConflicts? || op.SaveFeedback? || op.SaveRecall?
    ensures ApplyOp(v, op).proposals == v.proposals && ApplyOp(v, op).tombstones == v.tombstones
  {
  }

  /** Apart from these operations, none touches a proposal's delivery or a tombstone. */
  lemma OthersKeepDeliveries(v: Vault, op: Op, k: Delivery, before: Fate)
    requires !op.Propose? && !op.Purge? && !op.ForgetThread? && !op.ForgetProposal? && Fated(v, k, before)
    ensures Fated(ApplyOp(v, op), k, before)
  {
    hide AcceptOp, CanAccept, Live;
    if op.Accept? {
      if CanDo(v, op) {
        AcceptMarks(v, op);
        RelabelMoves(v.proposals, AcceptOp(v, op).proposals, k);
      }
    } else {
      OthersKeepTables(v, op);
      hide ApplyOp;
    }
  }

  // ---------------------------------------------------------------- every move

  /** Each delivery only ever moves from unseen to one live proposal to a tombstone. */
  lemma DeliveryMoves(v: Vault, op: Op, k: Delivery, before: Fate) returns (after: Fate)
    requires VaultInv(v) && Fated(v, k, before)
    ensures Fated(ApplyOp(v, op), k, after) && Moves(op, k, before, after)
  {
    hide ActivitiesDated, CorrectionsInThread, Inv, ForeignKeysHold, EvidenceBacked, IndexMatches, UniqueThreads, AcceptedInThread, ContentProper, Live, HasFate,
      UniqueDeliveries, NeverRevived, PurgeOne, ProposeOp, CanPropose, CanAccept, AcceptOp, ForgetThreadOp, Apply;
    after := before;
    if CanDo(v, op) {
      match op
      case Propose(_, _, _, _, _, _) =>
        ProposeMoves(v, op, k, before);
        if k == Delivery(op.content.project, op.source, op.deliveryKey) {
          after := LiveAs(op.id);
        }
      case Purge(id, disposition) =>
        PurgeMoves(v.(book := Apply(v.book, Tick)), id, v.book.sequence + 1, disposition, k, before);
        if before == LiveAs(id) {
          after := Buried(Tombstone(id, disposition, v.book.sequence + 1));
        }
      case ForgetProposal(id, _) =>
        PurgeMoves(v.(book := Apply(v.book, Tick)), id, v.book.sequence + 1, WasForgotten, k, before);
        if before == LiveAs(id) {
          after := Buried(Tombstone(id, WasForgotten, v.book.sequence + 1));
        }
      case ForgetThread(threadId, receipt) =>
        ForgetTables(v, threadId, receipt);
        after := SuppressMoves(v, ProposalsOn(v, v.book.threads[threadId]), v.book.sequence + 1, k, before);
      case Accept(_, _, _, _) => OthersKeepDeliveries(v, op, k, before);
      case ExpireVersion(_, _) => OthersKeepDeliveries(v, op, k, before);
      case ResolveConflicts(_, _) => OthersKeepDeliveries(v, op, k, before);
      case Spend => OthersKeepDeliveries(v, op, k, before);
      case SaveFeedback(_, _) => OthersKeepDeliveries(v, op, k, before);
      case SaveRecall(_, _) => OthersKeepDeliveries(v, op, k, before);
    }
  }

  /** Some step of the run is the proposal that made `id` the live one. */
  predicate ProposedIn(ops: seq<Op>, k: Delivery, id: Id) {
    exists op | op in ops :: op.Propose? && op.id == id && k == Delivery(op.content.project, op.source, op.deliveryKey)
  }

  /** Over every run a buried delivery stays buried as it was, a live one stays the same
      proposal until that proposal is buried, and an unseen one that is live at the end was
      proposed during the run. */
  lemma {:induction false} DeliveryHistory(v: Vault, ops: seq<Op>, k: Delivery, before: Fate) returns (after: Fate)
    requires VaultInv(v) && Fated(v, k, before)
    ensures Fated(RunOps(v, ops), k, after)
    ensures before.Buried? ==> after == before
    ensures before.LiveAs? ==> after == before || (after.Buried? && after.tombstone.proposal == before.id)
    ensures before.Unseen? ==> after.Unseen? || ProposedIn(ops, k, if after.LiveAs? then after.id else after.tombstone.proposal)
    decreases |ops|
  {
    hide VaultInv, Fated, ApplyOp;
    if ops == [] {
      after := before;
    } else {
      OpKeepsVault(v, ops[0]);
      var middle := DeliveryMoves(v, ops[0], k, before);
      after := DeliveryHistory(ApplyOp(v, ops[0]), ops[1..], k, middle);
      if before.Unseen? && !after.Unseen? {
        var id := if after.LiveAs? then after.id else after.tombstone.proposal;
        if middle.LiveAs? {
          assert ops[0] in ops;
        } else {
          var op :| op in ops[1..] && op.Propose? && op.id == id
                    && k == Delivery(op.content.project, op.source, op.deliveryKey);
          assert op in ops;
        }
      }
    }
  }

  // ---------------------------------------------------------------- replays

  datatype Reply = Created(id: Id) | Replayed(id: Id, status: Status) | Denied(code: Code)

  /** The checks on a delivery key, made before anything is looked up. */
  function KeyCheck(key: string, admits: bool): Result<()> {
    if !IsId(key) then Refused(InvalidRequest) else if !admits then Refused(PolicyDenied) else Done(())
  }

  /** A delivery key is refused for its form, unless it is 8 to 128 ASCII letters, digits, underscores and hyphens;
      a well-formed one only by the secret scan. */
  lemma KeyCheckMeans(key: string, admits: bool)
    ensures KeyCheck(key, admits) == Refused(InvalidRequest) <==>
              |key| < 8 || |key| > 128
              || exists i | 0 <= i < |key| ::
                   var c := key[i];
                   !('A' <= c <= 'Z' || 'a' <= c <= 'z' || '0' <= c <= '9' || c == '_' || c == '-')
    ensures KeyCheck(key, admits) == Refused(PolicyDenied) <==> IsId(key) && !admits
    ensures KeyCheck(key, admits).Done? <==> IsId(key) && admits
  {
  }

  /** What `propose` answers, in the order it checks; `keyCheck` is the verdict on the delivery key and
      `checks` the verdict of the field and policy checks on the content. The request digest covers the whole
      normalized content, so comparing digests is comparing contents. */
  ghost predicate Answers(v: Vault, c: Content, source: Provider, key: string, id: Id, keyCheck: Result<()>,
                          checks: Result<()>, now: Time, reply: Reply)
  {
    var k := Delivery(c.project, source, key);
    if keyCheck.Refused? then reply == Denied(keyCheck.code)
    else if k in v.tombstones then reply == Denied(DeliverySuppressed)
    else if checks.Refused? then reply == Denied(checks.code)
    else if Live(v.proposals, k) != {} then
      exists p | p in Live(v.proposals, k) ::
        reply == if v.proposals[p].content == c then Replayed(p, v.proposals[p].status) else Denied(IdempotencyConflict)
    else if Lapsed(c.retention, now) then reply == Denied(RetentionExpired)
    else reply == Created(id)
  }

  lemma LiveContentStays(v: Vault, op: Op, id: Id)
    requires VaultInv(v) && id in v.proposals && id in ApplyOp(v, op).proposals
    ensures ApplyOp(v, op).proposals[id].content == v.proposals[id].content
  {
    hide VaultInv, CanAccept, AcceptOp, Apply, ActiveMembers, Suppress, UniqueDeliveries, ForgetThreadOp, ProposalsOn,
      AcceptedFrom;
    if CanDo(v, op) {
      if op.Accept? {
        AcceptMarks(v, op);
      } else if op.ForgetThread? {
        ForgetTables(v, op.thread, op.receipt);
      }
    }
  }

  /** While the proposal is live it keeps the content it was created with. */
  lemma {:induction false} LiveContentIsFixed(v: Vault, ops: seq<Op>, k: Delivery, id: Id)
    requires VaultInv(v) && Fated(v, k, LiveAs(id)) && Fated(RunOps(v, ops), k, LiveAs(id))
    ensures id in v.proposals && id in RunOps(v, ops).proposals
    ensures RunOps(v, ops).proposals[id].content == v.proposals[id].content
    decreases |ops|
  {
    assert id in Live(v.proposals, k);
    assert id in Live(RunOps(v, ops).proposals, k);
    if ops != [] {
      var w := ApplyOp(v, ops[0]);
      OpKeepsVault(v, ops[0]);
      var middle := DeliveryMoves(v, ops[0], k, LiveAs(id));
      var after := DeliveryHistory(w, ops[1..], k, middle);
      assert id in Live(w.proposals, k);
      LiveContentStays(v, ops[0], id);
      LiveContentIsFixed(w, ops[1..], k, id);
    }
  }

  /** At any later time a delivery that went live is still live or buried. While it is live, an identical
      replay answers with the same id and a different request under its key is refused; once it is
      buried every request under the key is suppressed. A key that no longer passes its own check is
      refused before any of that. */
  lemma ReplayIsIdempotent(v: Vault, ops: seq<Op>, k: Delivery, id: Id, later: Fate, c: Content, spare: Id,
                           keyCheck: Result<()>, checks: Result<()>, now: Time, reply: Reply)
    requires VaultInv(v) && Fated(v, k, LiveAs(id)) && Fated(RunOps(v, ops), k, later) && c.project == k.project
    requires Answers(RunOps(v, ops), c, k.provider, k.key, spare, keyCheck, checks, now, reply)
    ensures id in v.proposals && (later == LiveAs(id) || (later.Buried? && later.tombstone.proposal == id))
    ensures keyCheck.Refused? ==> reply == Denied(keyCheck.code)
    ensures keyCheck.Done? && later.Buried? ==> reply == Denied(DeliverySuppressed)
    ensures keyCheck.Done? && later.LiveAs? && checks.Done? ==>
              if c == v.proposals[id].content then reply.Replayed? && reply.id == id
              else reply == Denied(IdempotencyConflict)
    ensures keyCheck.Done? && later.LiveAs? && checks.Refused? ==> reply == Denied(checks.code)
  {
    assert id in Live(v.proposals, k);
    var after := DeliveryHistory(v, ops, k, LiveAs(id));
    RunKeepsVault(v, ops);
    EveryDeliveryHasOneFate(RunOps(v, ops), k);
    if after.LiveAs? {
      LiveContentIsFixed(v, ops, k, id);
      assert Live(RunOps(v, ops).proposals, k) == {id};
    }
  }
}
