/** Writing the per-audience timelines, one row at a time. */
module Timelines {
  import opened Basics
  import opened Ledger

  // ---------------------------------------------------------------- audience events

  /** One `INSERT OR IGNORE ... SELECT coalesce(max(local_seq),0)+1`. */
  function InsertEvent(rows: set<Event>, project: Project, provider: Provider, recorded: nat): set<Event> {
    if Announced(rows, project, provider, recorded) then rows
    else rows + {Event(project, provider, LocalHead(rows, project, provider) + 1, recorded)}
  }

  /** Telling one more provider, after the others, is what telling them all at once says. */
  lemma AnnounceOneMore(rows: set<Event>, project: Project, recorded: nat, told: set<Provider>, q: Provider)
    requires q !in told
    ensures InsertEvent(Announce(rows, project, recorded, told), project, q, recorded)
         == Announce(rows, project, recorded, told + {q})
  {
    var before := Announce(rows, project, recorded, told);
    forall e | e in before && e.project == project && e.provider == q ensures e in rows {}
    assert LocalNumbers(before, project, q) == LocalNumbers(rows, project, q);
    assert Announced(before, project, q, recorded) <==> Announced(rows, project, q, recorded);
  }

  /** `record_audience_change`: collect the providers, then one insert each. */
  method RecordAudienceChange(book: Book, project: Project, recorded: nat, ids: set<Id>) returns (rows: set<Event>)
    ensures rows == Announce(book.audience, project, recorded, Audience(book, project, ids))
  {
    var providers: set<Provider> := {};
    var todo := ids;
    while todo != {}
      invariant todo <= ids
      invariant providers == set d | d in book.disclosures && d.0 in ids - todo :: d.1
    {
      var id :| id in todo;
      providers := providers + set d | d in book.disclosures && d.0 == id :: d.1;
      todo := todo - {id};
    }
    if EVERYONE in providers {
      providers := providers - {EVERYONE} + Configured(book, project);
    }
    assert providers == Audience(book, project, ids) by { assert ids - todo == ids; }
    var waiting := providers;
    rows := book.audience;
    while waiting != {}
      invariant waiting <= providers
      invariant rows == Announce(book.audience, project, recorded, providers - waiting)
    {
      var q :| q in waiting;
      AnnounceOneMore(book.audience, project, recorded, providers - waiting, q);
      rows := InsertEvent(rows, project, q, recorded);
      assert providers - waiting + {q} == providers - (waiting - {q});
      waiting := waiting - {q};
    }
    assert providers - waiting == providers;
  }
}
