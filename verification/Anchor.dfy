/** Any number of writers, one SQL lock, one anchor file, and a crash between any two steps. */
module Anchor {
  import opened Basics
  import opened Audit

  /** How far the holder of the writer lock has come. */
  datatype Stage = Changing | Inspected | Syncing | SyncInspected | Published

  datatype Turn = Free | Held(writer: nat, stage: Stage, pending: seq<Row>)

  datatype World = World(rows: seq<Row>, file: File, turn: Turn)

  /** One step of a writer. A transaction commits atomically, a file is replaced atomically. */
  datatype Action =
    | Begin(writer: nat)                                 // BEGIN IMMEDIATE of a mutation
    | Append(payload: Payload, number: int)              // append_audit inside it
    | Inspect(status: Status)                            // commit(sync_audit=True): the check before COMMIT
    | Commit                                             // COMMIT of the rows and events
    | CommitQuietly                                      // commit() of a transaction without events
    | BeginSync(writer: nat)                             // sync_audit_head: BEGIN IMMEDIATE again
    | InspectSync(status: Status)                        // its own check
    | Publish                                            // replace the anchor file
    | EndSync
    | Abandon                                            // rollback, or the holder dies

  function Pending(w: World): seq<Row> {
    if w.turn.Held? then w.turn.pending else []
  }

  /** What the holder of the lock sees. */
  function Seen(w: World): seq<Row> {
    w.rows + Pending(w)
  }

  ghost predicate At(w: World, stage: Stage) {
    w.turn.Held? && w.turn.stage == stage
  }

  function To(w: World, stage: Stage): World {
    if w.turn.Held? then w.(turn := w.turn.(stage := stage)) else w
  }

  function Adding(w: World, row: Row): World {
    if w.turn.Held? then w.(turn := w.turn.(pending := w.turn.pending + [row])) else w
  }

  /** `_sync_audit_head_raw`. */
  function HeadFile(rows: seq<Row>): File {
    if rows == [] then Anchor(0, Genesis)
    else if rows[|rows| - 1].number < 0 then Misshapen
    else Anchor(rows[|rows| - 1].number, rows[|rows| - 1].mac)
  }

  ghost predicate Enabled(w: World, a: Action) {
    match a
    case Begin(_) => w.turn.Free?
    case Append(_, number) => At(w, Changing) && number > LastNumber(Seen(w)) && number > 0
    case Inspect(status) => At(w, Changing) && Reports(Seen(w), w.file, status)
    case Commit => At(w, Inspected)
    case CommitQuietly => At(w, Changing) && w.turn.pending == []
    case BeginSync(_) => w.turn.Free?
    case InspectSync(status) => At(w, Syncing) && Reports(w.rows, w.file, status)
    case Publish => At(w, SyncInspected)
    case EndSync => At(w, Published)
    case Abandon => w.turn.Held?
  }

  function Step(w: World, a: Action): World {
    match a
    case Begin(writer) => w.(turn := Held(writer, Changing, []))
    case Append(payload, number) =>
      Adding(w, Row(number, payload, HeadMac(Seen(w)), Tag(HeadMac(Seen(w)), payload)))
    case Inspect(status) => if Reconcilable(status) then To(w, Inspected) else w.(turn := Free)
    case Commit => World(Seen(w), w.file, Free)
    case CommitQuietly => w.(turn := Free)
    case BeginSync(writer) => w.(turn := Held(writer, Syncing, []))
    case InspectSync(status) => if Reconcilable(status) then To(w, SyncInspected) else w.(turn := Free)
    case Publish => To(w.(file := HeadFile(w.rows)), Published)
    case EndSync => w.(turn := Free)
    case Abandon => w.(turn := Free)
  }

  ghost predicate Runs(w: World, actions: seq<Action>)
    decreases |actions|
  {
    actions == [] || (Enabled(w, actions[0]) && Runs(Step(w, actions[0]), actions[1..]))
  }

  ghost function After(w: World, actions: seq<Action>): World
    requires Runs(w, actions)
    decreases |actions|
  {
    if actions == [] then w else After(Step(w, actions[0]), actions[1..])
  }

  // ---------------------------------------------------------------- the untampered world

  ghost predicate Chain(rows: seq<Row>) {
    Intact(rows) && Numbered(rows) && Positive(rows)
  }

  /** The anchor names a committed prefix. */
  ghost predicate NamesPrefix(rows: seq<Row>, file: File) {
    Shaped(file) && file.number <= LastNumber(rows) && Names(rows, file.number, file.mac)
  }

  ghost predicate Sound(w: World) {
    && Chain(w.rows) && Chain(Seen(w)) && NamesPrefix(w.rows, w.file)
    && (w.turn.Held? && w.turn.stage in {Syncing, SyncInspected, Published} ==> w.turn.pending == [])
    && (At(w, Published) ==> w.file == HeadFile(w.rows))
  }

  function AnchorNumber(w: World): nat {
    if w.file.Anchor? then w.file.number else 0
  }

  lemma ChainAppends(rows: seq<Row>, number: int, payload: Payload)
    requires Chain(rows) && number > LastNumber(rows) && number > 0
    ensures Chain(Appended(rows, number, payload))
  {
    AppendKeepsChain(rows, number, payload);
    AppendKeepsNumbers(rows, number, payload);
    hide Intact, Numbered, LastNumber;
  }

  /** Bootstrap records one event, with the first number AUTOINCREMENT assigns, and publishes it: the world
      every run starts from is sound and verifies as valid. */
  lemma BootstrapIsSound(p: Payload)
    ensures var rows := Appended([], 1, p);
            && Sound(World(rows, HeadFile(rows), Free))
            && Reports(rows, HeadFile(rows), Valid(1, Tag(Genesis, p)))
  {
    var rows := Appended([], 1, p);
    ChainAppends([], 1, p);
    HeadFileNames(rows);
    NoPending(rows);
    hide Chain, NamesPrefix, Reports;
  }

  /** Later rows do not take a prefix away. */
  lemma PrefixStays(rows: seq<Row>, more: seq<Row>, file: File)
    requires NamesPrefix(rows, file) && Numbered(rows + more) && Positive(rows + more)
    ensures NamesPrefix(rows + more, file)
  {
    var all := rows + more;
    if more != [] {
      assert all[|all| - 1].number > 0;
      if rows != [] {
        assert all[|rows| - 1].number < all[|all| - 1].number;
      }
    } else {
      assert all == rows;
    }
    if file.number != 0 {
      var row :| row in rows && row.number == file.number && row.mac == file.mac;
      assert row in all;
    }
  }

  /** In a sound world no check ever refuses. */
  lemma SoundReportsPass(rows: seq<Row>, file: File, s: Status)
    requires Chain(rows) && NamesPrefix(rows, file) && Reports(rows, file, s)
    ensures Reconcilable(s)
  {
  }

  lemma HeadFileNames(rows: seq<Row>)
    requires Chain(rows)
    ensures NamesPrefix(rows, HeadFile(rows)) && HeadFile(rows).number == LastNumber(rows)
    ensures Reports(rows, HeadFile(rows), Valid(|rows|, HeadMac(rows)))
  {
    if rows != [] {
      var last := rows[|rows| - 1];
      assert last in rows && last.number > 0;
      assert LinkedAt(rows, |rows| - 1);
      assert last.mac.Tag? by { NextHead(rows, |rows| - 1); }
    }
    HeadIsChain(rows);
  }

  lemma NoPending(rows: seq<Row>)
    ensures rows + [] == rows
  {
  }

  /** Every step of every writer, and every crash, keeps the world sound. */
  lemma StepKeepsSound(w: World, a: Action)
    requires Sound(w) && Enabled(w, a)
    ensures Sound(Step(w, a))
  {
    NoPending(w.rows);
    match a
    case Append(payload, number) =>
      ChainAppends(Seen(w), number, payload);
      assert Seen(Step(w, a)) == Appended(Seen(w), number, payload);
      hide Chain, NamesPrefix, Reports;
    case Commit =>
      assert w.turn.Held? && w.turn.stage == Inspected;
      NoPending(Seen(w));
      SeenPrefix(w);
      hide Chain, NamesPrefix, Reports;
    case Publish =>
      HeadFileNames(w.rows);
      hide Chain, NamesPrefix, Reports;
    case Begin(_) => hide Chain, NamesPrefix, Reports;
    case Inspect(_) => hide Chain, NamesPrefix, Reports;
    case CommitQuietly => hide Chain, NamesPrefix, Reports;
    case BeginSync(_) => hide Chain, NamesPrefix, Reports;
    case InspectSync(_) => hide Chain, NamesPrefix, Reports;
    case EndSync => hide Chain, NamesPrefix, Reports;
    case Abandon => hide Chain, NamesPrefix, Reports;
  }

  lemma SeenPrefix(w: World)
    requires Sound(w)
    ensures NamesPrefix(Seen(w), w.file)
  {
    PrefixStays(w.rows, Pending(w), w.file);
  }

  /** The anchor never moves back. */
  lemma AnchorAdvances(w: World, a: Action)
    requires Sound(w) && Enabled(w, a)
    ensures AnchorNumber(w) <= AnchorNumber(Step(w, a))
    ensures w.rows <= Step(w, a).rows
  {
  }

  /** Over every interleaving: the anchor always names a committed prefix, it never moves back,
      and no committed event is lost. */
  lemma {:induction false} AnchorIsAlwaysAPrefix(w: World, actions: seq<Action>)
    requires Sound(w) && Runs(w, actions)
    ensures Sound(After(w, actions))
    ensures AnchorNumber(w) <= AnchorNumber(After(w, actions))
    ensures w.rows <= After(w, actions).rows
    decreases |actions|
  {
    hide Sound, Enabled, Step, AnchorNumber;
    if actions != [] {
      StepKeepsSound(w, actions[0]);
      AnchorAdvances(w, actions[0]);
      AnchorIsAlwaysAPrefix(Step(w, actions[0]), actions[1..]);
    }
  }

  /** However far the anchor had fallen behind, one completed sync makes it valid. */
  lemma OneSyncMakesItValid(w: World, writer: nat, status: Status)
    requires Sound(w) && w.turn.Free? && Reports(w.rows, w.file, status)
    ensures var sync := [BeginSync(writer), InspectSync(status), Publish, EndSync];
            && Runs(w, sync)
            && After(w, sync).rows == w.rows && After(w, sync).turn.Free?
            && Reports(w.rows, After(w, sync).file, Valid(|w.rows|, HeadMac(w.rows)))
  {
    SoundReportsPass(w.rows, w.file, status);
    HeadFileNames(w.rows);
    var w1 := Step(w, BeginSync(writer));
    var w2 := Step(w1, InspectSync(status));
    var w3 := Step(w2, Publish);
    var w4 := Step(w3, EndSync);
    hide Sound, Reports, Reconcilable;
    assert w3.file == HeadFile(w.rows);
    RunsFour(w, BeginSync(writer), InspectSync(status), Publish, EndSync);
  }

  lemma RunsFour(w: World, a: Action, b: Action, c: Action, d: Action)
    requires Enabled(w, a) && Enabled(Step(w, a), b) && Enabled(Step(Step(w, a), b), c)
    requires Enabled(Step(Step(Step(w, a), b), c), d)
    ensures Runs(w, [a, b, c, d])
    ensures After(w, [a, b, c, d]) == Step(Step(Step(Step(w, a), b), c), d)
  {
    hide Enabled, Step;
    var w1 := Step(w, a);
    var w2 := Step(w1, b);
    var w3 := Step(w2, c);
    var w4 := Step(w3, d);
    assert Runs(w4, []) && After(w4, []) == w4;
    assert [d][1..] == [] && Runs(w3, [d]) && After(w3, [d]) == w4;
    assert [c, d][1..] == [d] && Runs(w2, [c, d]) && After(w2, [c, d]) == w4;
    assert [b, c, d][1..] == [c, d] && Runs(w1, [b, c, d]) && After(w1, [b, c, d]) == w4;
    assert [a, b, c, d][1..] == [b, c, d];
  }

  // ---------------------------------------------------------------- a world that was tampered with

  /** A chain or an anchor that no new event can repair: a broken chain, a missing or malformed
      anchor, or one that contradicts the stored row. */
  ghost predicate Stuck(rows: seq<Row>, file: File) {
    || !Intact(rows)
    || !Shaped(file)
    || (file.number <= LastNumber(rows) && !Names(rows, file.number, file.mac))
  }

  lemma StuckReports(rows: seq<Row>, file: File, s: Status)
    requires Stuck(rows, file) && Reports(rows, file, s)
    ensures !Reconcilable(s)
  {
  }

  lemma StuckStays(rows: seq<Row>, more: seq<Row>, file: File)
    requires Stuck(rows, file)
    requires forall row | row in more :: row.number > LastNumber(rows) && row.number > 0
    ensures Stuck(rows + more, file)
  {
    var all := rows + more;
    if !Intact(rows) {
      var i :| 0 <= i < |rows| && !LinkedAt(rows, i);
      LinksStay(rows, more, i);
      assert !LinkedAt(all, i);
    } else if Shaped(file) && file.number <= LastNumber(rows) && !Names(rows, file.number, file.mac) {
      assert forall row | row in all :: row in rows || row in more;
      if more != [] {
        assert all[|all| - 1] in more;
      } else {
        assert all == rows;
      }
    }
  }

  /** Nobody has passed a check yet, and what is pending came after the stored rows. */
  ghost predicate Unchecked(w: World) {
    && (w.turn.Held? ==> w.turn.stage == Changing || w.turn.stage == Syncing)
    && (forall row | row in Pending(w) :: row.number > LastNumber(w.rows) && row.number > 0)
    && (Pending(w) != [] ==> LastNumber(Seen(w)) >= LastNumber(w.rows))
  }

  /** From a stuck world no step commits an event or rewrites the anchor. */
  lemma StuckStep(w: World, a: Action)
    requires Stuck(w.rows, w.file) && Unchecked(w) && Enabled(w, a)
    ensures var w1 := Step(w, a);
            w1.rows == w.rows && w1.file == w.file && Unchecked(w1)
  {
    StuckStays(w.rows, Pending(w), w.file);
    match a
    case Append(payload, number) =>
      hide Stuck, Reports;
      PendingIsLater(w);
    case Inspect(status) =>
      StuckReports(Seen(w), w.file, status);
      hide Stuck, Reports;
    case InspectSync(status) =>
      StuckReports(w.rows, w.file, status);
      hide Stuck, Reports;
    case Begin(_) => hide Stuck, Reports;
    case Commit => hide Stuck, Reports;
    case CommitQuietly => hide Stuck, Reports;
    case BeginSync(_) => hide Stuck, Reports;
    case Publish => hide Stuck, Reports;
    case EndSync => hide Stuck, Reports;
    case Abandon => hide Stuck, Reports;
  }

  lemma PendingIsLater(w: World)
    requires Unchecked(w)
    ensures LastNumber(Seen(w)) >= LastNumber(w.rows)
  {
  }

  lemma {:induction false} StuckForever(w: World, actions: seq<Action>)
    requires Stuck(w.rows, w.file) && Unchecked(w) && Runs(w, actions)
    ensures After(w, actions).rows == w.rows && After(w, actions).file == w.file
    decreases |actions|
  {
    hide Stuck, Unchecked, Enabled, Step;
    if actions != [] {
      StuckStep(w, actions[0]);
      StuckForever(Step(w, actions[0]), actions[1..]);
    }
  }

  // ---------------------------------------------------------------- an anchor ahead of the database

  ghost predicate Ahead(rows: seq<Row>, file: File) {
    Intact(rows) && Shaped(file) && file.number > LastNumber(rows)
  }

  lemma NumbersUpToLast(rows: seq<Row>)
    requires Numbered(rows)
    ensures forall row | row in rows :: row.number <= LastNumber(rows)
  {
    forall row | row in rows ensures row.number <= LastNumber(rows) {
      var i :| 0 <= i < |rows| && rows[i] == row;
      if i < |rows| - 1 { assert rows[i].number < rows[|rows| - 1].number; }
    }
  }

  lemma StoredAmong(rows: seq<Row>, more: seq<Row>, number: int, mac: Mac)
    requires forall row | row in rows :: row.number < number
    ensures StoredAt(rows + more, number, mac) <==> StoredAt(more, number, mac)
  {
    assert forall row :: row in rows + more <==> row in rows || row in more;
  }

  lemma PrefixIsNumbered(rows: seq<Row>, more: seq<Row>)
    requires Numbered(rows + more)
    ensures Numbered(rows)
  {
    assert forall i | 0 <= i < |rows| :: (rows + more)[i] == rows[i];
  }

  /** A check that is reported passes exactly if the anchored number is reached and names the anchored MAC. */
  lemma PassesIff(rows: seq<Row>, file: File, s: Status)
    requires Reports(rows, file, s) && Intact(rows) && Shaped(file) && file.number > 0
    ensures Reconcilable(s) <==> file.number <= LastNumber(rows) && StoredAt(rows, file.number, file.mac)
  {
    hide LinkedAt, WellShaped, StoredAt, LastNumber;
  }

  /** The check of a pending transaction passes an anchor that was ahead if and only if one of
      the new rows carries the anchored number and the anchored MAC. */
  lemma AheadPassesIff(rows: seq<Row>, more: seq<Row>, file: File, s: Status)
    requires Ahead(rows, file) && Chain(rows + more) && Reports(rows + more, file, s)
    requires LastNumber(rows) >= 0
    ensures Reconcilable(s) <==> StoredAt(more, file.number, file.mac)
  {
    var all := rows + more;
    hide Intact, Numbered, Positive, Reports, StoredAt, LastNumber, WellShaped;
    PrefixIsNumbered(rows, more);
    NumbersUpToLast(rows);
    NumbersUpToLast(all);
    StoredAmong(rows, more, file.number, file.mac);
    PassesIff(all, file, s);
    if StoredAt(all, file.number, file.mac) {
      StoredIsReached(all, file.number, file.mac);
    }
  }

  lemma StoredIsReached(rows: seq<Row>, number: int, mac: Mac)
    requires StoredAt(rows, number, mac) && forall row | row in rows :: row.number <= LastNumber(rows)
    ensures number <= LastNumber(rows)
  {
    hide LastNumber;
  }

  /** The world with an anchor ahead, and nobody past a check yet. */
  ghost predicate AheadOk(w: World) {
    Ahead(w.rows, w.file) && Unchecked(w) && Chain(w.rows) && Chain(Seen(w))
  }

  /** The holder of the lock is about to be checked with the lost event among its new rows. */
  ghost predicate MeetsAnchor(w: World, a: Action) {
    a.Inspect? && w.file.Anchor? && StoredAt(Pending(w), w.file.number, w.file.mac)
  }

  ghost predicate EverMeetsAnchor(w: World, actions: seq<Action>)
    decreases |actions|
  {
    actions != [] && (MeetsAnchor(w, actions[0]) || EverMeetsAnchor(Step(w, actions[0]), actions[1..]))
  }

  lemma AheadReports(rows: seq<Row>, file: File, s: Status)
    requires Ahead(rows, file) && Reports(rows, file, s)
    ensures !Reconcilable(s)
  {
  }

  lemma LastIsNatural(rows: seq<Row>)
    requires Chain(rows)
    ensures LastNumber(rows) >= 0
  {
  }

  /** What an append does, and that the rows it adds came later. */
  lemma AppendIs(w: World, payload: Payload, number: int)
    requires Unchecked(w) && Enabled(w, Append(payload, number))
    ensures number > LastNumber(Seen(w)) && number > 0
    ensures var w1 := Step(w, Append(payload, number));
            w1.rows == w.rows && w1.file == w.file && Seen(w1) == Appended(Seen(w), number, payload)
  {
    hide LastNumber, HeadMac;
  }

  lemma AppendStaysUnchecked(w: World, payload: Payload, number: int)
    requires Unchecked(w) && Enabled(w, Append(payload, number))
    ensures Unchecked(Step(w, Append(payload, number)))
  {
    PendingIsLater(w);
    hide HeadMac;
  }

  lemma AheadAppends(w: World, payload: Payload, number: int)
    requires AheadOk(w) && Enabled(w, Append(payload, number))
    ensures var w1 := Step(w, Append(payload, number));
            w1.rows == w.rows && w1.file == w.file && AheadOk(w1)
  {
    hide Chain, Ahead, Unchecked, Enabled, Step, Seen, Appended;
    AppendIs(w, payload, number);
    AppendStaysUnchecked(w, payload, number);
    ChainAppends(Seen(w), number, payload);
  }

  lemma AheadInspects(w: World, status: Status)
    requires AheadOk(w) && Enabled(w, Inspect(status))
    ensures Reconcilable(status) <==> MeetsAnchor(w, Inspect(status))
  {
    assert w.file.Anchor?;
    LastIsNatural(w.rows);
    hide Chain, Ahead, Reports, Intact, StoredAt;
    AheadPassesIff(w.rows, Pending(w), w.file, status);
  }

  lemma AheadStep(w: World, a: Action)
    requires AheadOk(w) && Enabled(w, a) && !MeetsAnchor(w, a)
    ensures var w1 := Step(w, a);
            w1.rows == w.rows && w1.file == w.file && AheadOk(w1)
  {
    NoPending(w.rows);
    match a
    case Append(payload, number) => AheadAppends(w, payload, number);
    case Inspect(status) =>
      AheadInspects(w, status);
      hide Chain, Ahead, Reports, MeetsAnchor;
    case InspectSync(status) =>
      AheadReports(w.rows, w.file, status);
      hide Chain, Ahead, Reports;
    case Begin(_) => hide Chain, Ahead, Reports;
    case Commit => hide Chain, Ahead, Reports;
    case CommitQuietly => hide Chain, Ahead, Reports;
    case BeginSync(_) => hide Chain, Ahead, Reports;
    case Publish => hide Chain, Ahead, Reports;
    case EndSync => hide Chain, Ahead, Reports;
    case Abandon => hide Chain, Ahead, Reports;
  }

  /** From an anchor ahead of the database no run commits an event or rewrites the anchor, whatever the
      writers do and wherever they crash, unless a checked transaction brings the lost event back. */
  lemma {:induction false} AheadForever(w: World, actions: seq<Action>)
    requires AheadOk(w) && Runs(w, actions) && !EverMeetsAnchor(w, actions)
    ensures After(w, actions).rows == w.rows && After(w, actions).file == w.file
    decreases |actions|
  {
    hide AheadOk, Enabled, Step, MeetsAnchor;
    if actions != [] {
      AheadStep(w, actions[0]);
      AheadForever(Step(w, actions[0]), actions[1..]);
    }
  }

  /** Exactly then the check lets the transaction through, and the commit that follows stores its rows. */
  lemma AheadCommitsIff(w: World, status: Status)
    requires AheadOk(w) && Enabled(w, Inspect(status))
    ensures var w1 := Step(w, Inspect(status));
            && (Enabled(w1, Commit) <==> MeetsAnchor(w, Inspect(status)))
            && (Enabled(w1, Commit) ==> Step(w1, Commit).rows == Seen(w) && Step(w1, Commit).file == w.file && Seen(w) != w.rows)
            && (!Enabled(w1, Commit) ==> w1.rows == w.rows && w1.turn.Free?)
  {
    AheadInspects(w, status);
    hide Chain, Ahead, Reports, StoredAt;
    assert Pending(w) != [] ==> |Seen(w)| > |w.rows|;
  }

  /** And then, because the MAC is injective, the database has written the lost events again,
      field by field: if the anchor was made from `lost`, it holds exactly `lost`. */
  lemma AheadPassesOnlyTheSameHistory(rows: seq<Row>, more: seq<Row>, file: File, lost: seq<Payload>, i: nat)
    requires Chain(rows + more) && file.Anchor? && file.mac == ChainMac(lost)
    requires i < |more| && more[i].number == file.number && more[i].mac == file.mac
    ensures Payloads((rows + more)[..|rows| + i + 1]) == lost
  {
    var all := rows + more;
    assert LinkedAt(all, |rows| + i) && all[|rows| + i] == more[i];
    assert Payloads(all[..|rows| + i + 1]) == Payloads(all)[..|rows| + i + 1];
    EqualHeadsEqualHistories(Payloads(all)[..|rows| + i + 1], lost);
  }

  /** It can happen: a restored database that records the very event it lost passes the check although
      its anchor was ahead. */
  lemma ReplayedEventPasses(p: Payload)
    ensures var file := Anchor(1, Tag(Genesis, p));
            var w := World([], file, Free);
            var run := [Begin(0), Append(p, 1), Inspect(Valid(1, Tag(Genesis, p))), Commit];
            && Ahead(w.rows, file) && Runs(w, run) && |After(w, run).rows| == 1
  {
    var file := Anchor(1, Tag(Genesis, p));
    var w := World([], file, Free);
    var row := Row(1, p, Genesis, Tag(Genesis, p));
    AppendKeepsChain([], 1, p);
    assert Appended([], 1, p) == [row];
    NoPending([]);
    assert [] + [row] == [row];
    HeadFileNames([row]);
    var w1 := Step(w, Begin(0));
    var w2 := Step(w1, Append(p, 1));
    assert Seen(w1) == [] && Seen(w2) == [row];
    var pass := Inspect(Valid(1, Tag(Genesis, p)));
    assert Reports([row], file, Valid(1, Tag(Genesis, p)));
    RunsFour(w, Begin(0), Append(p, 1), pass, Commit);
    hide Runs, After;
  }
}
