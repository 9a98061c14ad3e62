/** Keyset pagination of search over a ledger that keeps changing. */
module Paging {
  import opened Basics
  import opened Ledger
  import opened Reads

  /** A search text with its document-local score. The score depends on nothing but the
      document; a document is a full-text hit exactly when its score is positive. */
  datatype Query = Query(text: string, score: (string, string) -> nat)

  /** The keyset of a row: lexical score, ingest sequence, version id. */
  datatype Key = Key(score: nat, ingest: nat, id: Id)

  /** `ORDER BY lexical_score DESC, ingest_seq DESC, id`. */
  predicate Precedes(a: Key, b: Key) {
    || a.score > b.score
    || (a.score == b.score && a.ingest > b.ingest)
    || (a.score == b.score && a.ingest == b.ingest && LexLess(a.id, b.id))
  }

  lemma PrecedesTotal(a: Key, b: Key)
    ensures a == b || Precedes(a, b) || Precedes(b, a)
    ensures !(Precedes(a, b) && Precedes(b, a))
  {
    LexTotal(a.id, b.id);
  }

  lemma PrecedesTransitive(a: Key, b: Key, c: Key)
    requires Precedes(a, b) && Precedes(b, c)
    ensures Precedes(a, c)
  {
    if a.score == b.score == c.score && a.ingest == b.ingest == c.ingest {
      LexTransitive(a.id, b.id, c.id);
    }
  }

  predicate Named(q: Query, id: Id, row: Version) {
    id == q.text || row.thread == q.text
  }

  function KeyOf(q: Query, exact: bool, id: Id, doc: Doc): Key {
    Key(if exact then 0 else q.score(doc.subject, doc.row.body), doc.row.ingest, id)
  }

  predicate IsHit(q: Query, exact: bool, id: Id, doc: Doc) {
    if exact then Named(q, id, doc.row) else q.score(doc.subject, doc.row.body) > 0
  }

  /** The keys of every matching eligible row, in whatever state the rows are shown. */
  function Hits(docs: map<Id, Doc>, q: Query, exact: bool): set<Key> {
    set id | id in docs && IsHit(q, exact, id, docs[id]) :: KeyOf(q, exact, id, docs[id])
  }

  /** `exact = after[0] == 0 if after else <an eligible row has this id or thread>`. */
  predicate ExactMode(docs: map<Id, Doc>, q: Query, after: Option<Key>) {
    match after
    case Some(key) => key.score == 0
    case None => exists id :: id in docs && Named(q, id, docs[id].row)
  }

  function Beyond(keys: set<Key>, after: Option<Key>): set<Key> {
    set key | key in keys && (after.Some? ==> Precedes(after.value, key))
  }

  predicate Sorted(keys: seq<Key>) {
    forall i, j | 0 <= i < j < |keys| :: Precedes(keys[i], keys[j])
  }

  ghost predicate Lists(keys: seq<Key>, s: set<Key>) {
    Sorted(keys) && (forall key :: key in keys <==> key in s)
  }

  /** What a page hands out: its keys and the cursor to go on from. */
  datatype Page = Page(keys: seq<Key>, next: Option<Key>)

  /** A page of the search: a nonempty prefix (the row limit and the frame bound decide how
      long) of the sorted rows beyond the cursor, with a cursor exactly when rows remain.
      Only an empty listing gives an empty page. */
  ghost predicate IsPage(b: Book, e: Eligibility, q: Query, after: Option<Key>, page: Page) {
    exists full ::
      && Lists(full, Beyond(Hits(Rows(b, e), q, ExactMode(Rows(b, e), q, after)), after))
      && |page.keys| <= |full| && page.keys == full[..|page.keys|]
      && (page.keys == [] ==> full == [])
      && page.next == (if |page.keys| < |full| then Some(page.keys[|page.keys| - 1]) else None)
  }

  // ---------------------------------------------------------------- hits follow the snapshot

  /** Matching and ordering never look at a retirement, so live and snapshot rows agree. */
  lemma HitsOfSnapshot(b: Book, e: Eligibility, q: Query, exact: bool)
    ensures Hits(Rows(b, e), q, exact) == Hits(Snapshot(b, e), q, exact)
    ensures forall after :: ExactMode(Rows(b, e), q, after) == ExactMode(Snapshot(b, e), q, after)
  {
  }

  /** The listing a single read at the snapshot would sort. */
  ghost function Whole(b: Book, e: Eligibility, q: Query): set<Key> {
    Hits(Snapshot(b, e), q, ExactMode(Snapshot(b, e), q, None))
  }

  // ---------------------------------------------------------------- chains of pages

  /** One page read of a chain and the committed steps that ran before it. */
  datatype Visit = Visit(steps: seq<Step>, page: Page)

  /** `visits` follows the cursors from `after` to the end, whatever runs in between. */
  ghost predicate Chain(b: Book, e: Eligibility, q: Query, after: Option<Key>, visits: seq<Visit>)
    decreases |visits|
  {
    && visits != []
    && var now := Run(b, visits[0].steps);
    && IsPage(now, e, q, after, visits[0].page)
    && if visits[0].page.next == None then |visits| == 1
       else Chain(now, e, q, visits[0].page.next, visits[1..])
  }

  function Emitted(visits: seq<Visit>): seq<Key> {
    if visits == [] then [] else visits[0].page.keys + Emitted(visits[1..])
  }

  ghost function AtEnd(b: Book, visits: seq<Visit>): Book
    decreases |visits|
  {
    if visits == [] then b else AtEnd(Run(b, visits[0].steps), visits[1..])
  }

  /** Surviving rows keep their keys; nothing new joins a pinned listing. */
  lemma RunKeepsHits(b: Book, steps: seq<Step>, e: Eligibility, q: Query, exact: bool)
    requires Inv(b) && e.recorded <= b.sequence
    ensures var b1 := Run(b, steps);
            && Hits(Snapshot(b1, e), q, exact) <= Hits(Snapshot(b, e), q, exact)
            && (forall key | key in Hits(Snapshot(b, e), q, exact) && key.id in Snapshot(b1, e) ::
                  key in Hits(Snapshot(b1, e), q, exact))
  {
    RunKeepsSnapshot(b, steps, e);
  }

  lemma SortedConcat(left: seq<Key>, right: seq<Key>)
    requires Sorted(left) && Sorted(right) && left != []
    requires forall key | key in right :: Precedes(left[|left| - 1], key)
    ensures Sorted(left + right)
  {
    var all := left + right;
    var pivot := left[|left| - 1];
    forall i, j | 0 <= i < j < |all| ensures Precedes(all[i], all[j]) {
      if i < |left| <= j {
        assert all[j] == right[j - |left|] && all[j] in right;
        if i < |left| - 1 {
          PrecedesTransitive(left[i], pivot, all[j]);
        }
      }
    }
  }

  /** What one page settles: its keys are sorted rows of the listing, and every row of the
      listing is either on the page or strictly beyond its cursor. */
  lemma PageSplits(b: Book, e: Eligibility, q: Query, exact: bool, after: Option<Key>, page: Page)
    requires IsPage(b, e, q, after, page)
    requires exact == ExactMode(Rows(b, e), q, after)
    ensures var here := Beyond(Hits(Snapshot(b, e), q, exact), after);
            && Sorted(page.keys)
            && (forall key | key in page.keys :: key in here)
            && (page.next == None ==> forall key | key in here :: key in page.keys)
            && (page.next.Some? ==>
                  && page.keys != [] && page.next.value == page.keys[|page.keys| - 1]
                  && page.next.value in here
                  && forall key | key in here :: key in page.keys || Precedes(page.next.value, key))
  {
    hide Snapshot, Rows, Hits, ExactMode;
    HitsOfSnapshot(b, e, q, exact);
    var here := Beyond(Hits(Snapshot(b, e), q, exact), after);
    var full :| && Lists(full, here)
                && |page.keys| <= |full| && page.keys == full[..|page.keys|]
                && (page.keys == [] ==> full == [])
                && page.next == (if |page.keys| < |full| then Some(page.keys[|page.keys| - 1]) else None);
    var n := |page.keys|;
    if page.next == None {
      assert page.keys == full;
    } else {
      assert page.next.value == full[n - 1] && full[n - 1] in full;
      forall key | key in here ensures key in page.keys || Precedes(page.next.value, key) {
        var i :| 0 <= i < |full| && full[i] == key;
        if i < n {
          assert page.keys[i] == key;
        }
      }
    }
  }

  lemma ScoreTellsMode(docs: map<Id, Doc>, q: Query, exact: bool, key: Key)
    requires key in Hits(docs, q, exact)
    ensures exact <==> key.score == 0
  {
  }

  /** From any cursor on: what the rest of a chain emits is sorted, belongs to the listing
      pinned at the start, and misses no row that survives to the end. */
  lemma {:induction false} ChainTail(b: Book, e: Eligibility, q: Query, exact: bool, after: Option<Key>,
                                     visits: seq<Visit>)
    requires Inv(b) && e.recorded <= b.sequence
    requires Chain(b, e, q, after, visits)
    requires exact == ExactMode(Snapshot(Run(b, visits[0].steps), e), q, after)
    ensures var start := Beyond(Hits(Snapshot(b, e), q, exact), after);
            && Sorted(Emitted(visits))
            && (forall key | key in Emitted(visits) :: key in start)
            && (forall key | key in start && key.id in Snapshot(AtEnd(b, visits), e) :: key in Emitted(visits))
    ensures Snapshot(AtEnd(b, visits), e).Keys <= Snapshot(b, e).Keys
    decreases |visits|
  {
    hide Inv, Snapshot, Rows, Hits, IsPage, Sorted, Precedes, Run;
    var now := Run(b, visits[0].steps);
    var page := visits[0].page;
    var rest := visits[1..];
    RunKeepsInv(b, visits[0].steps);
    RunKeepsSnapshot(b, visits[0].steps, e);
    RunKeepsHits(b, visits[0].steps, e, q, exact);
    HitsOfSnapshot(now, e, q, exact);
    PageSplits(now, e, q, exact, after, page);
    if page.next == None {
      assert rest == [] && Emitted(visits) == page.keys + [];
      assert Emitted(visits) == page.keys;
    } else {
      ScoreTellsMode(Snapshot(now, e), q, exact, page.next.value);
      ChainTail(now, e, q, exact, page.next, rest);
      SortedConcat(page.keys, Emitted(rest));
      forall key | key in Emitted(rest) ensures after.Some? ==> Precedes(after.value, key) {
        if after.Some? {
          PrecedesTransitive(after.value, page.next.value, key);
        }
      }
    }
  }

  /** Paged search refines one sorted read. In every run that mixes page reads with accepts,
      corrections, expiries and forgets, following the cursors to the end emits strictly
      increasing keys, all of them rows of the first page's snapshot, and every row of that
      snapshot except the forgotten ones; so each of those exactly once, and nothing
      ingested later. */
  lemma PagedSearchIsOneSortedRead(b: Book, e: Eligibility, q: Query, visits: seq<Visit>)
    requires Inv(b) && e.recorded <= b.sequence
    requires Chain(b, e, q, None, visits) && visits[0].steps == []
    ensures Sorted(Emitted(visits))
    ensures forall key | key in Emitted(visits) :: key in Whole(b, e, q) && key.ingest <= e.recorded
    ensures forall key | key in Whole(b, e, q) && key !in Emitted(visits) ::
              key.id !in Snapshot(AtEnd(b, visits), e) && ForgottenIn(b, AllSteps(visits), key.id)
  {
    hide Inv, IsPage, Sorted, Precedes, Eligible, ForgottenIn;
    var exact := ExactMode(Snapshot(b, e), q, None);
    HitsAreOld(b, e, q, exact);
    ChainTail(b, e, q, exact, None, visits);
    AtEndIsRun(b, visits);
    RunKeepsSnapshot(b, AllSteps(visits), e);
  }

  lemma HitsAreOld(b: Book, e: Eligibility, q: Query, exact: bool)
    ensures forall key | key in Hits(Snapshot(b, e), q, exact) :: key.ingest <= e.recorded
  {
  }

  function AllSteps(visits: seq<Visit>): seq<Step> {
    if visits == [] then [] else visits[0].steps + AllSteps(visits[1..])
  }

  lemma {:induction false} AtEndIsRun(b: Book, visits: seq<Visit>)
    ensures AtEnd(b, visits) == Run(b, AllSteps(visits))
    decreases |visits|
  {
    if visits != [] {
      RunConcat(b, visits[0].steps, AllSteps(visits[1..]));
      AtEndIsRun(Run(b, visits[0].steps), visits[1..]);
    }
  }

  /** The exact-identifier or full-text mode chosen by the first page is the mode of every
      later page, whatever was forgotten or added meanwhile. */
  lemma {:induction false} ModeNeverChanges(b: Book, e: Eligibility, q: Query, after: Option<Key>,
                                            visits: seq<Visit>, n: nat)
    requires Chain(b, e, q, after, visits) && n < |visits|
    ensures var now := Run(b, visits[0].steps);
            ExactMode(Rows(BookAt(b, visits, n), e), q, CursorAt(after, visits, n))
              == ExactMode(Rows(now, e), q, after)
    decreases |visits|
  {
    hide Snapshot, Rows, Hits, IsPage, Sorted, Precedes, Run;
    var now := Run(b, visits[0].steps);
    if n > 0 {
      var exact := ExactMode(Rows(now, e), q, after);
      PageSplits(now, e, q, exact, after, visits[0].page);
      ScoreTellsMode(Snapshot(now, e), q, exact, visits[0].page.next.value);
      ModeNeverChanges(now, e, q, visits[0].page.next, visits[1..], n - 1);
    }
  }

  /** The ledger that page `n` of a chain reads. */
  ghost function BookAt(b: Book, visits: seq<Visit>, n: nat): Book
    requires n < |visits|
    decreases n
  {
    var now := Run(b, visits[0].steps);
    if n == 0 then now else BookAt(now, visits[1..], n - 1)
  }

  function CursorAt(after: Option<Key>, visits: seq<Visit>, n: nat): Option<Key>
    requires n < |visits|
    decreases n
  {
    if n == 0 then after else CursorAt(visits[0].page.next, visits[1..], n - 1)
  }

  /** A hidden step changes no first page an audience can be given, live or as of one of its own numbers:
      not its keys, their order, the cursor, nor whether more rows remain. */
  lemma HiddenStepKeepsPages(b: Book, step: Step, project: Project, provider: Provider, mode: Mode, asOf: Option<nat>,
                             valid: Option<Time>, q: Query, after: Option<Key>, page: Page)
    requires Inv(b) && provider in Configured(b, project)
    requires Hidden(b, step, project, provider)
    ensures var e := Resolve(b, project, provider, mode, asOf, valid, false);
            var e1 := Resolve(Apply(b, step), project, provider, mode, asOf, valid, false);
            IsPage(Apply(b, step), e1, q, after, page) == IsPage(b, e, q, after, page)
  {
    HiddenStepIsInvisible(b, step, project, provider, mode, asOf, valid);
  }

  /** Nor do any number of hidden steps change a continuation, which is pinned by its cursor. */
  lemma HiddenRunKeepsPages(b: Book, steps: seq<Step>, e: Eligibility, q: Query, after: Option<Key>, page: Page)
    requires Inv(b) && Reader(b, e) && e.recorded <= b.sequence && HiddenRun(b, steps, e.project, e.provider)
    ensures IsPage(Run(b, steps), e, q, after, page) == IsPage(b, e, q, after, page)
  {
    hide Rows, Inv, Reader, HiddenRun, Run, Hits, ExactMode;
    HiddenRunKeepsPinned(b, steps, e);
  }

  /** Nor a first page, live or as of one of the reader's own numbers. */
  lemma HiddenRunKeepsFirstPages(b: Book, steps: seq<Step>, project: Project, provider: Provider, mode: Mode,
                                 asOf: Option<nat>, valid: Option<Time>, q: Query, page: Page)
    requires Inv(b) && provider in Configured(b, project) && HiddenRun(b, steps, project, provider)
    ensures var b1 := Run(b, steps);
            var e := Resolve(b, project, provider, mode, asOf, valid, false);
            var e1 := Resolve(b1, project, provider, mode, asOf, valid, false);
            IsPage(b1, e1, q, None, page) == IsPage(b, e, q, None, page)
  {
    hide Rows, Inv, HiddenRun, Run, Hits, ExactMode, Resolve, Snapshot, Watermark, VisibleSequence, Configured;
    HiddenRunIsInvisible(b, steps, project, provider, mode, asOf, valid);
  }
}
