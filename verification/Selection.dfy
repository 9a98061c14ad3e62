/** What a read selects, said about the stored rows and in the terms of the disputes' own `LiveAt`. */
module Selection {
  import opened Basics
  import opened Ledger
  import opened Reads
  import opened Paging
  import Conflicts
  import Disputes

  /** The reader may see a version: it owns the vault, or the version was disclosed to it or to everyone. */
  predicate MaySee(b: Book, e: Eligibility, id: Id) {
    e.ownerRead || (id, e.provider) in b.disclosures || (id, "*") in b.disclosures
  }

  /** Live at a recorded number, and at the valid time if one is asked for; a version of unknown
      validity is live at no valid time. */
  ghost predicate LiveFor(row: Version, recorded: nat, valid: Option<Time>) {
    match valid
    case None => exists t :: Conflicts.LiveAt(row, recorded, t)
    case Some(t) => row.precision != Precision.Unknown && Conflicts.LiveAt(row, recorded, t)
  }

  ghost predicate Selected(b: Book, e: Eligibility, id: Id) {
    && id in b.versions && b.versions[id].project == e.project && MaySee(b, e, id)
    && match e.mode
       case CurrentOnly => LiveFor(b.versions[id], e.recorded, e.valid)
       case History => exists r: nat :: r <= e.recorded && LiveFor(b.versions[id], r, e.valid)
  }

  /** Some instant lies within the valid bounds of every stored version. */
  lemma LiveSomewhere(row: Version, recorded: nat)
    requires OrderedBounds(row)
    ensures LiveFor(row, recorded, None)
       <==> row.ingest <= recorded && (row.retired.Some? ==> recorded < row.retired.value)
  {
    var t := if row.validFrom.Some? then row.validFrom.value else if row.validTo.Some? then row.validTo.value else 0;
    if row.ingest <= recorded && (row.retired.Some? ==> recorded < row.retired.value) {
      assert Conflicts.LiveAt(row, recorded, t);
    }
  }

  /** A current read selects the disclosed versions of its project that are live, a read of the history those
      that were live at the recorded number or at any before it; nothing else, and each as it is stored. */
  lemma ReadsSelect(b: Book, e: Eligibility, id: Id)
    requires Inv(b)
    ensures id in Rows(b, e) <==> Selected(b, e, id)
    ensures id in Rows(b, e) ==>
              && Rows(b, e)[id].row == b.versions[id] && b.versions[id].thread in b.threads
              && Rows(b, e)[id].subject == b.threads[b.versions[id].thread].subject
  {
    if id in b.versions {
      var row := b.versions[id];
      LiveSomewhere(row, e.recorded);
      LiveSomewhere(row, row.ingest);
      if id in Rows(b, e) && e.mode == History {
        assert LiveFor(row, row.ingest, e.valid);
      }
    }
  }

  /** So a read of the history is all the current reads up to its recorded number together. */
  lemma HistoryIsEveryCurrentRead(b: Book, e: Eligibility, id: Id)
    requires Inv(b) && e.mode == History
    ensures id in Rows(b, e) <==> exists r: nat :: r <= e.recorded && id in Rows(b, e.(mode := CurrentOnly, recorded := r))
  {
    hide Rows, LiveFor;
    ReadsSelect(b, e, id);
    forall r: nat
      ensures id in Rows(b, e.(mode := CurrentOnly, recorded := r)) <==> Selected(b, e.(mode := CurrentOnly, recorded := r), id)
    {
      ReadsSelect(b, e.(mode := CurrentOnly, recorded := r), id);
    }
    if id in Rows(b, e) {
      var r: nat :| r <= e.recorded && LiveFor(b.versions[id], r, e.valid);
      assert Selected(b, e.(mode := CurrentOnly, recorded := r), id);
    }
  }

  /** The disputes of a thread are looked for among all the selected versions of it. */
  lemma DisputesSeeTheThread(b: Book, e: Eligibility, threadId: Id, id: Id)
    requires Inv(b)
    ensures var rows := Disputes.ThreadRows(Rows(b, e), threadId);
            && (id in rows <==> Selected(b, e, id) && b.versions[id].thread == threadId)
            && (id in rows ==> rows[id] == b.versions[id])
  {
    hide Selected;
    ReadsSelect(b, e, id);
  }

  // ---------------------------------------------------------------- which moment, and how it is shown

  /** An event of the reader's own timeline. */
  predicate Own(r: Event, project: Project, provider: Provider) {
    r.project == project && r.provider == provider
  }

  /** A request without a recorded number asks for the present, the owner's number is the global one, and an
      agent's number `n` asks for a moment at which the agent had been told of exactly its first `n` events. */
  ghost predicate IsMoment(b: Book, project: Project, provider: Provider, asOf: Option<nat>, ownerRead: bool, recorded: nat) {
    && recorded <= b.sequence
    && (asOf == None ==> recorded == b.sequence)
    && (asOf.Some? && ownerRead ==> recorded == asOf.value || (recorded == b.sequence && b.sequence < asOf.value))
    && (asOf.Some? && !ownerRead ==>
          forall r | r in b.audience && Own(r, project, provider) :: r.recorded <= recorded <==> r.local <= asOf.value)
  }

  /** That is the moment a request is resolved to; everything else in it is kept as asked. */
  lemma ResolveMeans(b: Book, project: Project, provider: Provider, mode: Mode, asOf: Option<nat>, valid: Option<Time>,
                     ownerRead: bool)
    requires Inv(b)
    ensures var e := Resolve(b, project, provider, mode, asOf, valid, ownerRead);
            && e == Eligibility(project, provider, e.recorded, mode, valid, ownerRead)
            && IsMoment(b, project, provider, asOf, ownerRead, e.recorded)
  {
    if asOf.Some? && !ownerRead {
      var n := asOf.value;
      assert Dense(b.audience, project, provider);
      var mine := set r | r in b.audience && r.project == project && r.provider == provider && r.local <= n :: r.recorded;
      forall r | r in b.audience && Own(r, project, provider)
        ensures r.recorded <= RecordedUpTo(b, project, provider, n) <==> r.local <= n
      {
        if r.local <= n {
          assert r.recorded in mine;
        } else if mine != {} {
          var d :| d in b.audience && d.project == project && d.provider == provider && d.local <= n && d.recorded == MaxOf(mine);
          assert d.local < r.local;
        }
      }
    }
  }

  /** The owner is shown the global numbers, and asking again as of the watermark is the very same read. */
  lemma OwnerReadsAgain(b: Book, e: Eligibility, id: Id)
    requires e.ownerRead && e.recorded <= b.sequence
    ensures Resolve(b, e.project, e.provider, e.mode, Some(Watermark(b, e)), e.valid, true) == e
    ensures id in Rows(b, e) ==>
              var row := AtSnapshot(Rows(b, e)[id].row, e.recorded);
              && VisibleSequence(b, e, row.ingest) == Some(row.ingest) && row.ingest <= Watermark(b, e)
              && (row.retired.Some? ==>
                    VisibleSequence(b, e, row.retired.value) == row.retired && row.retired.value <= Watermark(b, e))
  {
  }

  /** Whatever happened since, a card shows a version exactly as it was stored when the ledger stood at the
      recorded number: with its retirement if it was retired by then, and as active if it was not. */
  lemma CardsShowThePast(b: Book, steps: seq<Step>, e: Eligibility, id: Id)
    requires Inv(b) && e.recorded == b.sequence && id in Snapshot(Run(b, steps), e)
    ensures id in b.versions && Snapshot(Run(b, steps), e)[id] == Doc(b.versions[id], SubjectOf(b, b.versions[id]))
  {
    RunKeepsSnapshot(b, steps, e);
    hide Run, TimelinesOk, EventsComplete;
  }

  // ---------------------------------------------------------------- what a search finds

  /** The search text is the id of the version or of its memory. */
  predicate NamedBy(b: Book, q: Query, id: Id)
    requires id in b.versions
  {
    id == q.text || b.versions[id].thread == q.text
  }

  /** The score of a stored version, by the subject of its memory and its body. */
  function ScoreOf(b: Book, q: Query, id: Id): nat
    requires id in b.versions && b.versions[id].thread in b.threads
  {
    q.score(b.threads[b.versions[id].thread].subject, b.versions[id].body)
  }

  /** A search by identifier: some selected version has the text as its id or as that of its memory. */
  ghost predicate ByName(b: Book, e: Eligibility, q: Query) {
    exists id :: Selected(b, e, id) && NamedBy(b, q, id)
  }

  lemma RowsAreStored(b: Book, e: Eligibility)
    requires Inv(b)
    ensures forall id :: id in Rows(b, e) <==> Selected(b, e, id)
    ensures forall id | id in Rows(b, e) ::
              && id in b.versions && Rows(b, e)[id].row == b.versions[id] && b.versions[id].thread in b.threads
              && Rows(b, e)[id].subject == b.threads[b.versions[id].thread].subject
  {
    hide Rows, Selected, Inv;
    forall id ensures id in Rows(b, e) <==> Selected(b, e, id) {
      ReadsSelect(b, e, id);
    }
    forall id | id in Rows(b, e)
      ensures id in b.versions && Rows(b, e)[id].row == b.versions[id] && b.versions[id].thread in b.threads
      ensures Rows(b, e)[id].subject == b.threads[b.versions[id].thread].subject
    {
      ReadsSelect(b, e, id);
      SelectedIsStored(b, e, id);
    }
  }

  lemma SelectedIsStored(b: Book, e: Eligibility, id: Id)
    ensures Selected(b, e, id) ==> id in b.versions
  {
  }

  /** The mode of a listing: a first page looks whether the text names a selected version, a cursor tells. */
  ghost predicate InMode(b: Book, e: Eligibility, q: Query, after: Option<Key>) {
    match after
    case None => ByName(b, e, q)
    case Some(key) => key.score == 0
  }

  /** `key` stands for a stored version. */
  ghost predicate KeyFor(b: Book, q: Query, exact: bool, key: Key) {
    && key.id in b.versions && b.versions[key.id].thread in b.threads && key.ingest == b.versions[key.id].ingest
    && key.score == if exact then 0 else ScoreOf(b, q, key.id)
  }

  /** Best score first, and among equals the newest first; no two versions were ingested together. */
  predicate Ranked(keys: seq<Key>) {
    forall i, j | 0 <= i < j < |keys| ::
      keys[i].score > keys[j].score || (keys[i].score == keys[j].score && keys[i].ingest > keys[j].ingest)
  }

  /** The version is selected, matches, and comes after the cursor. */
  ghost predicate Wanted(b: Book, e: Eligibility, q: Query, after: Option<Key>, id: Id) {
    var exact := InMode(b, e, q, after);
    && Selected(b, e, id) && b.versions[id].thread in b.threads
    && (if exact then NamedBy(b, q, id) else ScoreOf(b, q, id) > 0)
    && (after.Some? ==>
          Precedes(after.value, Key(if exact then 0 else ScoreOf(b, q, id), b.versions[id].ingest, id)))
  }

  /** The listing pages are cut from holds exactly the selected versions that match, each once and in rank. */
  ghost predicate Finds(b: Book, e: Eligibility, q: Query, after: Option<Key>, full: seq<Key>) {
    && (forall key | key in full :: KeyFor(b, q, InMode(b, e, q, after), key))
    && (forall id :: Wanted(b, e, q, after, id) <==> exists key | key in full :: key.id == id)
    && Ranked(full)
  }

  lemma ModeIsByName(b: Book, e: Eligibility, q: Query, after: Option<Key>)
    requires Inv(b)
    ensures ExactMode(Rows(b, e), q, after) <==> InMode(b, e, q, after)
  {
    RowsAreStored(b, e);
    hide Rows, Selected, Inv;
    if after == None && ByName(b, e, q) {
      var id :| Selected(b, e, id) && NamedBy(b, q, id);
      assert Named(q, id, Rows(b, e)[id].row);
    }
  }

  /** One version and its key. */
  lemma WantedIsListed(b: Book, e: Eligibility, q: Query, after: Option<Key>, id: Id)
    requires Inv(b)
    ensures var exact := InMode(b, e, q, after);
            Wanted(b, e, q, after, id) <==>
              && Selected(b, e, id) && b.versions[id].thread in b.threads
              && Key(if exact then 0 else ScoreOf(b, q, id), b.versions[id].ingest, id)
                   in Beyond(Hits(Rows(b, e), q, ExactMode(Rows(b, e), q, after)), after)
  {
    RowsAreStored(b, e);
    ModeIsByName(b, e, q, after);
    hide Rows, Selected, Inv, InMode, ExactMode, Precedes;
  }

  lemma ListedIsStored(b: Book, e: Eligibility, q: Query, after: Option<Key>, key: Key)
    requires Inv(b) && key in Beyond(Hits(Rows(b, e), q, ExactMode(Rows(b, e), q, after)), after)
    ensures KeyFor(b, q, InMode(b, e, q, after), key) && Wanted(b, e, q, after, key.id)
  {
    RowsAreStored(b, e);
    ModeIsByName(b, e, q, after);
    hide Rows, Selected, Inv, InMode, ExactMode, Precedes;
  }

  lemma ListingIsRanked(b: Book, q: Query, exact: bool, full: seq<Key>)
    requires Inv(b) && Sorted(full) && forall key | key in full :: KeyFor(b, q, exact, key)
    ensures Ranked(full)
  {
    forall i, j | 0 <= i < j < |full|
      ensures full[i].score > full[j].score || (full[i].score == full[j].score && full[i].ingest > full[j].ingest)
    {
      assert full[i] in full && full[j] in full && Precedes(full[i], full[j]);
      if full[i].ingest == full[j].ingest {
        assert full[i].id == full[j].id;
        LexTotal(full[i].id, full[j].id);
      }
    }
  }

  /** Search and context cut their pages from that listing. */
  lemma ListingFinds(b: Book, e: Eligibility, q: Query, after: Option<Key>, full: seq<Key>)
    requires Inv(b) && Lists(full, Beyond(Hits(Rows(b, e), q, ExactMode(Rows(b, e), q, after)), after))
    ensures Finds(b, e, q, after, full)
  {
    hide Inv, Rows, Hits, Beyond, ExactMode, InMode, Wanted, Sorted, KeyFor, Ranked, Selected;
    forall key | key in full ensures KeyFor(b, q, InMode(b, e, q, after), key) && Wanted(b, e, q, after, key.id) {
      ListedIsStored(b, e, q, after, key);
    }
    forall id | Wanted(b, e, q, after, id) ensures exists key | key in full :: key.id == id {
      WantedIsListed(b, e, q, after, id);
    }
    ListingIsRanked(b, q, InMode(b, e, q, after), full);
  }
}
