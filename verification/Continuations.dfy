/** Requests and their continuation tokens, end to end: what comes of following `next_cursor`. */
module Continuations {
  import opened Basics
  import opened Ledger
  import opened Reads
  import opened Paging
  import opened Cursors
  import Search
  import Selection

  /** A search request without its cursor. */
  datatype Request = Request(
    capability: Id, project: Project, provider: Provider, query: Query, mode: Mode, asOf: Option<nat>, valid: Option<Time>,
    ownerRead: bool)

  datatype Answer = Served(page: Page, token: Option<string>) | InvalidCursor | TooLarge

  function BindingOf(r: Request): Binding {
    Binding(r.capability, r.provider, r.project, "search", r.query.text, r.mode, r.asOf, r.valid, r.ownerRead)
  }

  /** `_page`: a cursor pins the recorded number; otherwise the request resolves its own. */
  function EligibilityOf(b: Book, r: Request, state: Option<State>): Eligibility {
    match state
    case None => Resolve(b, r.project, r.provider, r.mode, r.asOf, r.valid, r.ownerRead)
    case Some(s) =>
      Eligibility(r.project, r.provider, if s.recorded < b.sequence then s.recorded else b.sequence, r.mode, r.valid, r.ownerRead)
  }

  function AfterOf(state: Option<State>): Option<Key> {
    if state.Some? then Some(state.value.after) else None
  }

  /** `s` belongs to a search that agrees with `r` in everything a token is bound to. */
  ghost predicate IssuedFor(s: State, r: Request) {
    && s.binding.capability == r.capability && s.binding.provider == r.provider && s.binding.project == r.project
    && s.binding.operation == "search" && s.binding.query == r.query.text && s.binding.mode == r.mode
    && s.binding.recorded == r.asOf && s.binding.valid == r.valid && s.binding.ownerRead == r.ownerRead
  }

  /** The same request, as far as a token can tell: it does not hold the cursor and the limits. */
  predicate SameRequest(r: Request, r0: Request) {
    && r.capability == r0.capability && r.provider == r0.provider && r.project == r0.project
    && r.query.text == r0.query.text && r.mode == r0.mode && r.asOf == r0.asOf && r.valid == r0.valid
    && r.ownerRead == r0.ownerRead
  }

  /** The table holds `s` for `token`, alive and for this very request. */
  ghost predicate Redeems(entries: seq<Entry>, token: string, r: Request, now: Time, s: State) {
    |token| <= MAX_TOKEN && Entry(token, s) in entries && s.expires > now && IssuedFor(s, r)
  }

  /** One search request, with or without a cursor. `issued` is the random token `issue` would draw. */
  method Serve(cursors: Cursors, b: Book, r: Request, token: Option<string>, limit: nat, size: seq<Key> -> nat,
               bound: nat, issued: string, now: Time, later: Time)
    returns (answer: Answer, ghost state: Option<State>)
    requires cursors.Valid() && 1 <= limit && size([]) <= bound
    requires forall e | e in cursors.entries :: e.token != issued
    modifies cursors
    ensures cursors.Valid()
    ensures answer == InvalidCursor <==>
              token.Some? && forall s :: !Redeems(old(cursors.entries), token.value, r, now, s)
    ensures token == None ==> state == None
    ensures token.Some? && answer != InvalidCursor ==>
              state.Some? && Redeems(old(cursors.entries), token.value, r, now, state.value)
    ensures answer.Served? ==> IsPage(b, EligibilityOf(b, r, state), r.query, AfterOf(state), answer.page)
    ensures answer.Served? && answer.page.next == None ==> answer.token == None
    ensures answer.Served? && answer.page.next.Some? ==>
              && answer.token == Some(issued)
              && exists s ::
                   && cursors.entries == Issued(if token.Some? then Live(old(cursors.entries), now) else old(cursors.entries),
                                                Entry(issued, s), later)
                   && IssuedFor(s, r) && s.recorded == EligibilityOf(b, r, state).recorded
                   && s.after == answer.page.next.value && s.expires == later + TTL
    ensures !(answer.Served? && answer.page.next.Some?) ==>
              cursors.entries == if token.Some? then Live(old(cursors.entries), now) else old(cursors.entries)
  {
    hide IsPage, Lists, Beyond, Hits, Rows, ExactMode, Search.LongestFit;
    state := None;
    var after: Option<Key> := None;
    var e := EligibilityOf(b, r, None);
    if token.Some? {
      var found := cursors.Read(token.value, BindingOf(r), now);
      LiveIs(old(cursors.entries), now);
      if found == None {
        forall s ensures !Redeems(old(cursors.entries), token.value, r, now, s) {
          assert found != Some(s);
        }
        return InvalidCursor, state;
      }
      state, after, e := found, AfterOf(found), EligibilityOf(b, r, found);
      assert Redeems(old(cursors.entries), token.value, r, now, found.value);
    }
    var found, full := Search.SearchPage(b, e, r.query, after, limit, size, bound);
    match found
    case ResultTooLarge => answer := TooLarge;
    case Cards(page) =>
      if page.next == None {
        answer := Served(page, None);
      } else {
        cursors.Issue(issued, State(BindingOf(r), e.recorded, page.next.value, later + TTL), later);
        answer := Served(page, Some(issued));
      }
  }

  // ---------------------------------------------------------------- following the tokens

  /** One served request and the committed steps that ran before it. */
  datatype Turn = Turn(steps: seq<Step>, state: Option<State>, page: Page)

  /** Each request presents the token its predecessor was given, until none is given. */
  ghost predicate Follows(b: Book, r: Request, turns: seq<Turn>)
    decreases |turns|
  {
    && turns != []
    && var now := Run(b, turns[0].steps);
       var e := EligibilityOf(now, r, turns[0].state);
       && IsPage(now, e, r.query, AfterOf(turns[0].state), turns[0].page)
       && if turns[0].page.next == None then |turns| == 1
          else
            && |turns| > 1
            && turns[1].state.Some? && IssuedFor(turns[1].state.value, r)
            && turns[1].state.value.recorded == e.recorded && turns[1].state.value.after == turns[0].page.next.value
            && Follows(now, r, turns[1..])
  }

  function VisitsOf(turns: seq<Turn>): seq<Visit> {
    if turns == [] then [] else [Visit(turns[0].steps, turns[0].page)] + VisitsOf(turns[1..])
  }

  /** A token keeps the eligibility of the request that was given it, whatever ran in between. */
  lemma TokenKeepsEligibility(b: Book, steps: seq<Step>, r: Request, e: Eligibility, s: State)
    requires e.recorded <= b.sequence && s.recorded == e.recorded
    requires e == Eligibility(r.project, r.provider, e.recorded, r.mode, r.valid, r.ownerRead)
    ensures EligibilityOf(Run(b, steps), r, Some(s)) == e
  {
    RunKeepsEvents(b, steps);
  }

  lemma EligibilityIs(b: Book, r: Request, state: Option<State>)
    ensures var e := EligibilityOf(b, r, state);
            e.recorded <= b.sequence && e == Eligibility(r.project, r.provider, e.recorded, r.mode, r.valid, r.ownerRead)
  {
  }

  /** The first request of a chain reads the moment it asks for. */
  lemma FirstRequestReads(b: Book, r: Request)
    requires Inv(b)
    ensures var e := EligibilityOf(b, r, None);
            && e == Eligibility(r.project, r.provider, e.recorded, r.mode, r.valid, r.ownerRead)
            && Selection.IsMoment(b, r.project, r.provider, r.asOf, r.ownerRead, e.recorded)
  {
    hide Inv, Resolve, Selection.IsMoment;
    Selection.ResolveMeans(b, r.project, r.provider, r.mode, r.asOf, r.valid, r.ownerRead);
  }

  lemma {:induction false} TurnsAreVisits(b: Book, r: Request, turns: seq<Turn>, e: Eligibility)
    requires Follows(b, r, turns) && EligibilityOf(Run(b, turns[0].steps), r, turns[0].state) == e
    ensures Chain(b, e, r.query, AfterOf(turns[0].state), VisitsOf(turns))
    decreases |turns|
  {
    hide IsPage, EligibilityOf, Run;
    var now := Run(b, turns[0].steps);
    var rest := turns[1..];
    assert VisitsOf(turns)[0] == Visit(turns[0].steps, turns[0].page) && VisitsOf(turns)[1..] == VisitsOf(rest);
    if turns[0].page.next.Some? {
      EligibilityIs(now, r, turns[0].state);
      TokenKeepsEligibility(now, rest[0].steps, r, e, rest[0].state.value);
      TurnsAreVisits(now, r, rest, e);
    } else {
      assert rest == [];
    }
  }

  /** Presenting each `next_cursor` in turn, from a request without one to the end, is one sorted read of the
      snapshot the first request resolved, however the ledger moves on in between. */
  lemma TokensAreOneSortedRead(b: Book, r: Request, turns: seq<Turn>)
    requires Inv(b) && Follows(b, r, turns) && turns[0].state == None && turns[0].steps == []
    ensures var e := EligibilityOf(b, r, None);
            var visits := VisitsOf(turns);
            && Sorted(Emitted(visits))
            && (forall key | key in Emitted(visits) :: key in Whole(b, e, r.query) && key.ingest <= e.recorded)
            && (forall key | key in Whole(b, e, r.query) && key !in Emitted(visits) ::
                  ForgottenIn(b, AllSteps(visits), key.id))
  {
    var e := EligibilityOf(b, r, None);
    EligibilityIs(b, r, None);
    assert Run(b, []) == b;
    hide Chain, Sorted, Whole, ForgottenIn, Inv, Follows, EligibilityOf;
    FollowsStart(b, r, turns);
    TurnsAreVisits(b, r, turns, e);
    PagedSearchIsOneSortedRead(b, e, r.query, VisitsOf(turns));
  }

  lemma FollowsStart(b: Book, r: Request, turns: seq<Turn>)
    requires Follows(b, r, turns)
    ensures turns != [] && VisitsOf(turns) != [] && VisitsOf(turns)[0].steps == turns[0].steps
  {
  }

  lemma {:induction false} LaterEntries(entries: seq<Entry>, later: seq<Later>, e: Entry)
    requires e in AfterAll(entries, later)
    ensures e in entries || exists l | l in later :: l.entry == e
    decreases |later|
  {
    if later != [] {
      LiveIs(entries, later[0].now);
      LaterEntries(Issued(entries, later[0].entry, later[0].now), later[1..], e);
    }
  }

  /** And the token is there to be presented: what `Serve` put into the table for `r0` is redeemed until it
      lapses, as long as at most 255 other tokens are issued after it, and by exactly the requests that agree with
      `r0`: for any other it is the same invalid token as one that never was. */
  lemma TokenIsRedeemedIff(entries: seq<Entry>, r0: Request, r: Request, token: string, s: State, now: Time,
                           later: seq<Later>, at: Time)
    requires |token| <= MAX_TOKEN && IssuedFor(s, r0) && at < s.expires
    requires |later| < MAX_CURSORS && forall l | l in later :: l.now < s.expires
    requires forall e | e in entries :: e.token != token
    requires forall l | l in later :: l.entry.token != token
    ensures (exists t :: Redeems(AfterAll(Issued(entries, Entry(token, s), now), later), token, r, at, t)) <==> SameRequest(r, r0)
  {
    var table := Issued(entries, Entry(token, s), now);
    LiveIs(entries, now);
    assert forall e | e in table && e.token == token :: e.state == s;
    hide Issued, AfterAll;
    IssuedTokenLasts(entries, Entry(token, s), now, later);
    if SameRequest(r, r0) {
      assert Redeems(AfterAll(table, later), token, r, at, s);
    }
    forall t | Redeems(AfterAll(table, later), token, r, at, t) ensures SameRequest(r, r0) {
      LaterEntries(table, later, Entry(token, t));
    }
  }
}
