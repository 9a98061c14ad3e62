/** The command line: an ordered sequence of effects around one administrative action. */
module Client {
  import opened Basics
  import opened Approvals
  import opened Recovery
  import Journal

  datatype Effect = AskedPreview | Authorized | PersistedLocator | SentApply | AskedReceipt

  /** What the world answers at each point; a code is an error raised there. */
  datatype Surroundings = Surroundings(
    preview: Option<string>,            // error of admin_preview, or none
    locator: Option<string>,            // error in the locator it returned
    grant: Option<string>,              // error of the approval broker
    persisted: bool,                    // the locator became durable
    unsent: Option<string>,             // error before the first byte of admin_apply
    reply: Reply,                       // reply of admin_apply, or the client's own error
    receipt: Option<Answer>)            // a valid receipt, if one can be read

  ghost predicate Before(effects: seq<Effect>, first: Effect, second: Effect) {
    forall i | 0 <= i < |effects| && effects[i] == second :: exists j | 0 <= j < i :: effects[j] == first
  }

  ghost predicate Once(effects: seq<Effect>, e: Effect) {
    forall i, j | 0 <= i < |effects| && 0 <= j < |effects| && effects[i] == e && effects[j] == e :: i == j
  }

  lemma InOrder(effects: seq<Effect>)
    requires effects <= [AskedPreview, Authorized, PersistedLocator, SentApply, AskedReceipt]
          || effects <= [AskedPreview, Authorized, PersistedLocator, AskedReceipt]
    ensures Before(effects, PersistedLocator, SentApply) && Before(effects, Authorized, SentApply)
    ensures Before(effects, PersistedLocator, AskedReceipt)
  {
    forall i | 0 <= i < |effects| && (effects[i] == SentApply || effects[i] == AskedReceipt)
      ensures i > 2 && effects[1] == Authorized && effects[2] == PersistedLocator
    {
    }
  }

  /** `_admin`. The apply bytes leave at most once, after the locator is durable and the owner
      authorized; and what is reported afterwards is read off the reply and the receipt alone. */
  method Admin(world: Surroundings) returns (report: Report, effects: seq<Effect>)
    ensures Once(effects, SentApply) && Before(effects, PersistedLocator, SentApply) && Before(effects, Authorized, SentApply)
    ensures Before(effects, PersistedLocator, AskedReceipt)
    ensures SentApply in effects <==>
              world.preview == None && world.locator == None && world.grant == None && world.persisted && world.unsent == None
    ensures SentApply in effects ==> report == Concluded(world.reply, world.receipt)
    ensures world.preview.Some? ==> report == Refusal(world.preview.value)
    ensures world.preview == None && world.locator.Some? ==> report == Refusal(world.locator.value)
    ensures world.preview == None && world.locator == None && world.grant.Some? ==> report == Refusal(world.grant.value)
    ensures Authorized in effects <==> world.preview == None && world.locator == None && world.grant == None
    ensures PersistedLocator in effects <==> Authorized in effects && world.persisted
    ensures Authorized in effects && !world.persisted ==> report == Unknown
    ensures PersistedLocator in effects && world.unsent.Some? ==>
              report == if world.unsent.value !in AMBIGUOUS then Refusal(world.unsent.value)
                        else if world.receipt.Some? then Success(world.receipt.value) else Unknown
    ensures AskedReceipt in effects <==>
              PersistedLocator in effects && match world.unsent
                                             case Some(code) => code in AMBIGUOUS
                                             case None => world.reply.Error? && world.reply.code in AMBIGUOUS
  {
    effects := [AskedPreview];
    if world.preview.Some? { return Refusal(world.preview.value), effects; }
    if world.locator.Some? { return Refusal(world.locator.value), effects; }
    if world.grant.Some? { return Refusal(world.grant.value), effects; }
    effects := effects + [Authorized];
    if !world.persisted { return Unknown, effects; }
    effects := effects + [PersistedLocator];
    var reply := world.reply;
    if world.unsent.Some? {
      reply := Error(world.unsent.value);
    } else {
      effects := effects + [SentApply];
    }
    InOrder(effects);
    match reply
    case Ok(answer) => report := Success(answer);
    case Error(code) =>
      if code !in AMBIGUOUS { return Refusal(code), effects; }
      effects := effects + [AskedReceipt];
      InOrder(effects);
      report := if world.receipt.Some? then Success(world.receipt.value) else Unknown;
  }

  datatype Recovered = Recovered(nonce: Id, receipt: Option<Answer>)

  /** `_recover`: one receipt lookup per journaled locator; whatever goes wrong stays unknown, and
      nothing is ever sent again. */
  method Recover(nonces: seq<Id>, desk: Desk, reachable: set<Id>) returns (operations: seq<Recovered>, complete: bool)
    ensures |operations| == |nonces|
    ensures forall i | 0 <= i < |nonces| ::
              operations[i] == Recovered(nonces[i], if nonces[i] in reachable then ResultOf(desk, nonces[i]) else None)
    ensures complete <==> forall n | n in nonces :: n in reachable && n in desk.results
  {
    operations, complete := [], true;
    for i := 0 to |nonces|
      invariant |operations| == i
      invariant forall k | 0 <= k < i ::
                  operations[k] == Recovered(nonces[k], if nonces[k] in reachable then ResultOf(desk, nonces[k]) else None)
      invariant complete <==> forall k | 0 <= k < i :: nonces[k] in reachable && nonces[k] in desk.results
    {
      var receipt := if nonces[i] in reachable then ResultOf(desk, nonces[i]) else None;
      operations := operations + [Recovered(nonces[i], receipt)];
      if receipt == None { complete := false; }
    }
  }

  /** In every reachable world, recovery calls an operation committed only if it did commit, and
      finds every committed one whose receipt it can reach. */
  lemma RecoveryTellsTheTruth(w: World, n: Id, reachable: bool)
    requires Receipts(w.desk, w.history)
    ensures var receipt := if reachable then ResultOf(w.desk, n) else None;
            && (receipt.Some? ==> exists c | c in w.history :: c.nonce == n && c.answer == receipt.value)
            && (reachable && Committed(w, n) ==> receipt.Some?)
  {
  }

  // ---------------------------------------------------------------- from the journal to every commit

  /** What the journal directory holds: a whole file decodes to its locator, flushed or not, and a part of
      one to nothing. */
  function Directory(journal: map<Id, Entry>): map<string, Journal.Stored> {
    map name | name in (set n | n in journal :: Journal.FileOf(n)) && Journal.Stem(name) in journal ::
      if journal[Journal.Stem(name)] == Partial then Journal.Corrupt else Journal.Locator(Journal.Stem(name))
  }

  lemma FilesOfJournal(journal: map<Id, Entry>)
    ensures forall n | n in journal ::
              Journal.FileOf(n) in Directory(journal) && Journal.Stem(Journal.FileOf(n)) == n
    ensures forall name | name in Directory(journal) ::
              name == Journal.FileOf(Journal.Stem(name)) && Journal.Stem(name) in journal
  {
  }

  /** A listing validates every entry, so one partial residue makes it fail, and so does a nonce that is no
      id. A whole residue does not: it is listed like a durable locator. */
  lemma ResidueBlocksListing(journal: map<Id, Entry>)
    ensures Journal.Clean(Directory(journal)) <==> forall n | n in journal :: IsId(n) && journal[n] != Partial
    ensures Journal.Clean(Directory(journal)) ==> Journal.Nonces(Directory(journal)) == journal.Keys
  {
    FilesOfJournal(journal);
    hide Journal.Stem, Journal.FileOf;
    if Journal.Clean(Directory(journal)) {
      forall n | n in journal ensures IsId(n) && journal[n] != Partial {
        assert Journal.FileOf(n) in Directory(journal);
      }
      forall n | n in journal ensures n in Journal.Nonces(Directory(journal)) {
        JournaledIsListed(journal, n);
      }
    }
  }

  lemma JournaledIsListed(journal: map<Id, Entry>, n: Id)
    requires Journal.Clean(Directory(journal)) && n in journal
    ensures n in Journal.Nonces(Directory(journal))
  {
    FilesOfJournal(journal);
    hide Journal.Stem, Journal.FileOf;
    assert Journal.ProperName(Journal.FileOf(n));
  }

  /** Following a journal without partial files to its end while others go on, recovery names every action of
      a command line that had committed when the listing started, whatever whole files failed
      publications left beside it; and its receipt, asked for at any later time, gives the very
      answer that committed. */
  lemma RecoveryFindsEveryCommit(mild: set<nat>, w: World, actions: seq<Action>, visits: seq<Journal.Visit>, limit: nat, cli: nat)
    requires Good(mild, w) && Runs(w, actions) && cli in w.clis && Committed(w, w.clis[cli].nonce)
    requires limit >= 1 && Journal.Chain(visits, None, limit) && visits[0].dir == Directory(w.journal)
    requires forall n | n in w.journal :: IsId(n) && w.journal[n] != Partial
    requires forall v | v in visits :: Journal.NoneShadowed(Journal.Nonces(v.dir))
    ensures w.clis[cli].nonce in Journal.Emitted(visits)
    ensures exists c | c in w.history ::
              c.nonce == w.clis[cli].nonce && ResultOf(After(w, actions).desk, c.nonce) == Some(c.answer)
  {
    var n := w.clis[cli].nonce;
    ResultIsCommit(w.desk, w.history, n);
    ResidueBlocksListing(w.journal);
    hide AllOk, Addressed, Runs, Directory, Receipts, Journal.Clean, Journal.NoneShadowed, Journal.Chain, Journal.Nonces;
    CommitsAreJournaled(mild, w, cli);
    JournaledIsListed(w.journal, n);
    NoncesFromStart(visits[0].dir, n);
    Journal.ListingMissesNothingOld(visits, None, limit);
    ApprovalsActOnce(w, actions);
  }

  lemma NoncesFromStart(dir: map<string, Journal.Stored>, n: Id)
    requires n in Journal.Nonces(dir)
    ensures n in Journal.Later(dir, None)
  {
  }
}
