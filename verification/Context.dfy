/** Packing a context capsule into its byte budget, and the cursors that continue it. */
module Context {
  import opened Basics
  import Ledger
  import Reads
  import Paging
  import Search

  datatype Card = Card(id: Id, conflict: Option<Id>, key: Paging.Key)

  /** A dispute among the cards: all its members, and whether it was assessed. */
  datatype Conflict = Conflict(id: Id, members: set<Id>, assessed: bool)

  datatype OpenConflict = OpenConflict(id: Id, members: seq<Card>, complete: bool)

  datatype Standing = NoMatches | Whole | Partial

  datatype Capsule = Capsule(
    accepted: seq<Card>, open: seq<OpenConflict>, standing: Standing, omitted: nat, cursor: Option<string>)

  datatype Packed = Fits(capsule: Capsule, count: nat) | BudgetTooSmall

  const TOKEN_LENGTH := 28

  /** `"cur_" + "x" * 24`: what the random token will take. */
  function Reserved(): (token: string)
    ensures |token| == TOKEN_LENGTH
  {
    "cur_" + seq(24, i => 'x')
  }

  // ---------------------------------------------------------------- one candidate capsule

  function Plain(cards: seq<Card>): seq<Card> {
    if cards == [] then []
    else (if cards[0].conflict == None then [cards[0]] else []) + Plain(cards[1..])
  }

  function MembersOf(cards: seq<Card>, conflict: Id): seq<Card> {
    if cards == [] then []
    else (if cards[0].conflict == Some(conflict) then [cards[0]] else []) + MembersOf(cards[1..], conflict)
  }

  function IdsOf(cards: seq<Card>): set<Id> {
    set card | card in cards :: card.id
  }

  function OpenOf(selected: seq<Card>, conflicts: seq<Conflict>): seq<OpenConflict> {
    if conflicts == [] then []
    else
      var c := conflicts[0];
      var members := MembersOf(selected, c.id);
      (if members == [] then [] else [OpenConflict(c.id, members, c.assessed && c.members <= IdsOf(selected))])
      + OpenOf(selected, conflicts[1..])
  }

  function Build(cards: seq<Card>, conflicts: seq<Conflict>, count: nat, hasMore: bool, cursor: string): Capsule
    requires count <= |cards|
  {
    var selected := cards[..count];
    var open := OpenOf(selected, conflicts);
    var continuation := hasMore || count < |cards|;
    var partial := continuation || exists c | c in open :: !c.complete;
    Capsule(Plain(selected), open, if partial then Partial else if cards == [] then NoMatches else Whole,
            |cards| - count, if continuation then Some(cursor) else None)
  }

  // ---------------------------------------------------------------- a partition

  ghost predicate Distinct(conflicts: seq<Conflict>) {
    forall i, j | 0 <= i < |conflicts| && 0 <= j < |conflicts| && conflicts[i].id == conflicts[j].id :: i == j
  }

  /** Every dispute a card names is listed. */
  ghost predicate Covered(cards: seq<Card>, conflicts: seq<Conflict>) {
    forall card | card in cards && card.conflict.Some? :: exists c | c in conflicts :: c.id == card.conflict.value
  }

  function Gathered(open: seq<OpenConflict>): multiset<Card> {
    if open == [] then multiset{} else multiset(open[0].members) + Gathered(open[1..])
  }

  function GatheredFrom(selected: seq<Card>, conflicts: seq<Conflict>): multiset<Card> {
    if conflicts == [] then multiset{}
    else multiset(MembersOf(selected, conflicts[0].id)) + GatheredFrom(selected, conflicts[1..])
  }

  lemma {:induction false} OpenGathers(selected: seq<Card>, conflicts: seq<Conflict>)
    ensures Gathered(OpenOf(selected, conflicts)) == GatheredFrom(selected, conflicts)
    decreases |conflicts|
  {
    if conflicts != [] {
      OpenGathers(selected, conflicts[1..]);
      var rest := OpenOf(selected, conflicts[1..]);
      var members := MembersOf(selected, conflicts[0].id);
      if members != [] {
        var first := OpenConflict(conflicts[0].id, members, conflicts[0].assessed && conflicts[0].members <= IdsOf(selected));
        assert ([first] + rest)[1..] == rest;
      } else {
        assert [] + rest == rest;
      }
    }
  }

  function Ids(conflicts: seq<Conflict>): set<Id> {
    set c | c in conflicts :: c.id
  }

  lemma HeadIsNew(conflicts: seq<Conflict>)
    requires conflicts != [] && Distinct(conflicts)
    ensures Distinct(conflicts[1..])
    ensures conflicts[0].id !in Ids(conflicts[1..])
    ensures Ids(conflicts) == {conflicts[0].id} + Ids(conflicts[1..])
  {
  }

  lemma MembersOneMore(card: Card, rest: seq<Card>, id: Id)
    ensures multiset(MembersOf([card] + rest, id))
         == multiset(MembersOf(rest, id)) + if card.conflict == Some(id) then multiset{card} else multiset{}
  {
  }

  /** One more card joins exactly one group. */
  lemma {:induction false} OneMoreCard(card: Card, rest: seq<Card>, conflicts: seq<Conflict>)
    requires Distinct(conflicts)
    ensures GatheredFrom([card] + rest, conflicts) ==
              GatheredFrom(rest, conflicts)
              + if card.conflict.Some? && card.conflict.value in Ids(conflicts) then multiset{card} else multiset{}
    decreases |conflicts|
  {
    hide MembersOf, Distinct;
    if conflicts != [] {
      HeadIsNew(conflicts);
      OneMoreCard(card, rest, conflicts[1..]);
      MembersOneMore(card, rest, conflicts[0].id);
      hide Ids;
    }
  }

  lemma {:induction false} NothingGathered(conflicts: seq<Conflict>)
    ensures GatheredFrom([], conflicts) == multiset{}
    decreases |conflicts|
  {
    if conflicts != [] {
      NothingGathered(conflicts[1..]);
    }
  }

  lemma {:induction false} CardsArePartitioned(selected: seq<Card>, conflicts: seq<Conflict>)
    requires Distinct(conflicts) && Covered(selected, conflicts)
    ensures multiset(Plain(selected)) + GatheredFrom(selected, conflicts) == multiset(selected)
    decreases |selected|
  {
    if selected == [] {
      NothingGathered(conflicts);
    } else {
      var card, rest := selected[0], selected[1..];
      assert selected == [card] + rest;
      CardsArePartitioned(rest, conflicts);
      OneMoreCard(card, rest, conflicts);
      assert card in selected;
      hide GatheredFrom;
    }
  }

  /** Accepted claims and dispute members together are the selected cards, each exactly once. */
  lemma CapsuleHoldsTheCards(cards: seq<Card>, conflicts: seq<Conflict>, count: nat, hasMore: bool, cursor: string)
    requires Distinct(conflicts) && Covered(cards, conflicts) && count <= |cards|
    ensures var capsule := Build(cards, conflicts, count, hasMore, cursor);
            multiset(capsule.accepted) + Gathered(capsule.open) == multiset(cards[..count])
  {
    var selected := cards[..count];
    assert Covered(selected, conflicts) by {
      assert forall card | card in selected :: card in cards;
    }
    CardsArePartitioned(selected, conflicts);
    OpenGathers(selected, conflicts);
    hide Plain, Gathered, GatheredFrom, OpenOf;
  }

  // ---------------------------------------------------------------- what the reader is told

  /** All members of the dispute are among the cards, and it was assessed. */
  ghost predicate ShownWhole(c: Conflict, selected: seq<Card>) {
    c.assessed && forall id | id in c.members :: exists card | card in selected :: card.id == id
  }

  /** `o` is the dispute `c` as far as the cards show it. */
  ghost predicate ShowsDispute(o: OpenConflict, c: Conflict, selected: seq<Card>) {
    && o.id == c.id && o.members != []
    && (forall card :: card in o.members <==> card in selected && card.conflict == Some(c.id))
    && (o.complete <==> ShownWhole(c, selected))
  }

  ghost predicate NamedBy(id: Id, selected: seq<Card>) {
    exists card | card in selected :: card.conflict == Some(id)
  }

  lemma {:induction false} MembersAre(selected: seq<Card>, id: Id)
    ensures forall card :: card in MembersOf(selected, id) <==> card in selected && card.conflict == Some(id)
    ensures MembersOf(selected, id) != [] <==> NamedBy(id, selected)
  {
    if selected != [] {
      MembersAre(selected[1..], id);
      assert selected == [selected[0]] + selected[1..];
      if NamedBy(id, selected) {
        var card :| card in selected && card.conflict == Some(id);
        assert card in MembersOf(selected, id);
      }
      if MembersOf(selected, id) != [] {
        assert MembersOf(selected, id)[0] in selected;
      }
    }
  }

  lemma OneDispute(selected: seq<Card>, c: Conflict)
    requires NamedBy(c.id, selected)
    ensures ShowsDispute(OpenConflict(c.id, MembersOf(selected, c.id), c.assessed && c.members <= IdsOf(selected)), c, selected)
  {
    MembersAre(selected, c.id);
    hide MembersOf;
    if c.members <= IdsOf(selected) {
      forall id | id in c.members ensures exists card | card in selected :: card.id == id {
        assert id in IdsOf(selected);
      }
    }
  }

  lemma OpenIs(selected: seq<Card>, conflicts: seq<Conflict>)
    requires conflicts != []
    ensures var c, rest := conflicts[0], OpenOf(selected, conflicts[1..]);
            OpenOf(selected, conflicts) ==
              if MembersOf(selected, c.id) == [] then rest
              else [OpenConflict(c.id, MembersOf(selected, c.id), c.assessed && c.members <= IdsOf(selected))] + rest
  {
  }

  /** Each dispute a selected card names is shown once, with its selected cards; it is called complete exactly when
      it was assessed and the selection holds all its members. */
  lemma {:induction false} OpenMeans(selected: seq<Card>, conflicts: seq<Conflict>)
    ensures forall c | c in conflicts && NamedBy(c.id, selected) ::
              exists o | o in OpenOf(selected, conflicts) :: ShowsDispute(o, c, selected)
    ensures forall o | o in OpenOf(selected, conflicts) ::
              exists c | c in conflicts :: NamedBy(c.id, selected) && ShowsDispute(o, c, selected)
    ensures |OpenOf(selected, conflicts)| <= |conflicts|
    decreases |conflicts|
  {
    if conflicts != [] {
      var c, rest := conflicts[0], conflicts[1..];
      OpenIs(selected, conflicts);
      hide *;
      OpenMeans(selected, rest);
      MembersAre(selected, c.id);
      assert conflicts == [c] + rest;
      if NamedBy(c.id, selected) {
        OneDispute(selected, c);
      }
    }
  }

  /** A capsule calls itself whole exactly when nothing is missing: there are cards, none was left out, none is left
      to fetch, and every dispute it shows is shown whole. It counts what was left out and carries a cursor
      exactly when there is more to fetch. */
  lemma WholeMeansNothingMissing(cards: seq<Card>, conflicts: seq<Conflict>, count: nat, hasMore: bool, cursor: string)
    requires count <= |cards|
    ensures var capsule := Build(cards, conflicts, count, hasMore, cursor);
            && (capsule.standing == Partial <==>
                  || hasMore || count < |cards|
                  || exists c | c in conflicts :: NamedBy(c.id, cards[..count]) && !ShownWhole(c, cards[..count]))
            && (capsule.standing != Partial ==> (capsule.standing == NoMatches <==> cards == []))
            && capsule.omitted == |cards| - count
            && (capsule.cursor == if hasMore || count < |cards| then Some(cursor) else None)
  {
    hide OpenOf, Plain, NamedBy, ShownWhole;
    SomeIncomplete(cards[..count], conflicts);
  }

  lemma SomeIncomplete(selected: seq<Card>, conflicts: seq<Conflict>)
    ensures (exists o | o in OpenOf(selected, conflicts) :: !o.complete)
       <==> exists c | c in conflicts :: NamedBy(c.id, selected) && !ShownWhole(c, selected)
  {
    OpenMeans(selected, conflicts);
    hide OpenOf, NamedBy, ShownWhole, ShowsDispute;
    forall o | o in OpenOf(selected, conflicts) && !o.complete
      ensures exists c | c in conflicts :: NamedBy(c.id, selected) && !ShownWhole(c, selected)
    {
      var c :| c in conflicts && NamedBy(c.id, selected) && ShowsDispute(o, c, selected);
      CompleteIsWhole(o, c, selected);
    }
    forall c | c in conflicts && NamedBy(c.id, selected) && !ShownWhole(c, selected)
      ensures exists o | o in OpenOf(selected, conflicts) :: !o.complete
    {
      var o :| o in OpenOf(selected, conflicts) && ShowsDispute(o, c, selected);
      CompleteIsWhole(o, c, selected);
    }
  }

  lemma CompleteIsWhole(o: OpenConflict, c: Conflict, selected: seq<Card>)
    requires ShowsDispute(o, c, selected)
    ensures o.complete <==> ShownWhole(c, selected)
  {
    hide ShownWhole;
  }

  lemma {:induction false} PlainAre(selected: seq<Card>)
    ensures forall card :: card in Plain(selected) <==> card in selected && card.conflict == None
  {
    if selected != [] {
      PlainAre(selected[1..]);
      assert selected == [selected[0]] + selected[1..];
    }
  }

  /** The accepted claims come in the order of the listing. */
  lemma {:induction false} PlainKeepsOrder(selected: seq<Card>)
    requires forall i, j | 0 <= i < j < |selected| :: Paging.Precedes(selected[i].key, selected[j].key)
    ensures var plain := Plain(selected);
            && (forall i, j | 0 <= i < j < |plain| :: Paging.Precedes(plain[i].key, plain[j].key))
            && (forall card :: card in plain <==> card in selected && card.conflict == None)
  {
    PlainAre(selected);
    hide Paging.Precedes;
    if selected != [] {
      var rest := selected[1..];
      PlainAre(rest);
      PlainKeepsOrder(rest);
      assert forall card | card in rest :: Paging.Precedes(selected[0].key, card.key);
    }
  }

  // ---------------------------------------------------------------- the packing loop

  /** The encoded size does not depend on which token stands in the cursor. */
  ghost predicate TokenBlind(size: Capsule -> nat) {
    forall c: Capsule, t: string, u: string | |t| == |u| :: size(c.(cursor := Some(t))) == size(c.(cursor := Some(u)))
  }

  predicate FitsAt(cards: seq<Card>, conflicts: seq<Conflict>, count: nat, hasMore: bool, size: Capsule -> nat, budget: nat)
    requires count <= |cards|
  {
    size(Build(cards, conflicts, count, hasMore, Reserved())) <= budget
  }

  lemma OneMoreOpen(open: seq<OpenConflict>, one: OpenConflict, more: seq<OpenConflict>)
    ensures open + ([one] + more) == (open + [one]) + more
  {
  }

  /** The disputes of one candidate, collected one by one. */
  method CollectOpen(selected: seq<Card>, conflicts: seq<Conflict>) returns (open: seq<OpenConflict>)
    ensures open == OpenOf(selected, conflicts)
  {
    open := [];
    var selectedIds := IdsOf(selected);
    assert conflicts[0..] == conflicts;
    for i := 0 to |conflicts|
      invariant open + OpenOf(selected, conflicts[i..]) == OpenOf(selected, conflicts)
    {
      var c := conflicts[i];
      var members := MembersOf(selected, c.id);
      hide MembersOf, IdsOf;
      assert conflicts[i..][0] == c && conflicts[i..][1..] == conflicts[i + 1..];
      if members != [] {
        var one := OpenConflict(c.id, members, c.assessed && c.members <= selectedIds);
        OneMoreOpen(open, one, OpenOf(selected, conflicts[i + 1..]));
        open := open + [one];
      } else {
        assert [] + OpenOf(selected, conflicts[i + 1..]) == OpenOf(selected, conflicts[i + 1..]);
      }
    }
    assert conflicts[|conflicts|..] == [];
    assert open + [] == open;
  }

  /** One pass of the loop body: the capsule that holds the first `count` cards. */
  method Candidate(cards: seq<Card>, conflicts: seq<Conflict>, count: nat, hasMore: bool)
    returns (capsule: Capsule, continuation: bool)
    requires count <= |cards|
    ensures capsule == Build(cards, conflicts, count, hasMore, Reserved())
    ensures continuation <==> hasMore || count < |cards|
  {
    hide OpenOf, Plain, Reserved;
    var selected := cards[..count];
    var open := CollectOpen(selected, conflicts);
    continuation := hasMore || count < |cards|;
    var partial := continuation || exists c | c in open :: !c.complete;
    capsule := Capsule(Plain(selected), open, if partial then Partial else if cards == [] then NoMatches else Whole,
                       |cards| - count, if continuation then Some(Reserved()) else None);
  }

  /** The real token takes exactly the place reserved for it. */
  lemma TokenFits(cards: seq<Card>, conflicts: seq<Conflict>, count: nat, hasMore: bool, size: Capsule -> nat, token: string)
    requires count <= |cards| && |token| == TOKEN_LENGTH && TokenBlind(size)
    ensures var reserved := Build(cards, conflicts, count, hasMore, Reserved());
            var issued := Build(cards, conflicts, count, hasMore, token);
            && issued == (if hasMore || count < |cards| then reserved.(cursor := Some(token)) else reserved)
            && size(issued) == size(reserved)
  {
  }

  /** The loop of `context`: drop the last card until the capsule fits, then put the real token
      in the place reserved for it. `token` is the random token `issue` returns. */
  method Pack(cards: seq<Card>, conflicts: seq<Conflict>, hasMore: bool, size: Capsule -> nat, budget: nat, token: string)
    returns (r: Packed)
    requires |token| == TOKEN_LENGTH && TokenBlind(size)
    requires Distinct(conflicts) && Covered(cards, conflicts)
    ensures r == BudgetTooSmall <==>
              (if cards == [] then !FitsAt(cards, conflicts, 0, hasMore, size, budget)
               else forall n: nat | 1 <= n <= |cards| :: !FitsAt(cards, conflicts, n, hasMore, size, budget))
    ensures r.Fits? ==>
              && r.count <= |cards| && (cards != [] ==> 1 <= r.count)
              && FitsAt(cards, conflicts, r.count, hasMore, size, budget)
              && (forall n: nat | r.count < n <= |cards| :: !FitsAt(cards, conflicts, n, hasMore, size, budget))
              && r.capsule == Build(cards, conflicts, r.count, hasMore, token)
              && size(r.capsule) <= budget
              && multiset(r.capsule.accepted) + Gathered(r.capsule.open) == multiset(cards[..r.count])
  {
    hide Build, Gathered, TokenBlind, Distinct, Covered;
    var count: nat := |cards|;
    while true
      invariant count <= |cards| && (cards != [] ==> 1 <= count)
      invariant forall n: nat | count < n <= |cards| :: !FitsAt(cards, conflicts, n, hasMore, size, budget)
      decreases count
    {
      var capsule, continuation := Candidate(cards, conflicts, count, hasMore);
      if size(capsule) <= budget && (count > 0 || cards == []) {
        TokenFits(cards, conflicts, count, hasMore, size, token);
        if continuation {
          capsule := capsule.(cursor := Some(token));
        }
        CapsuleHoldsTheCards(cards, conflicts, count, hasMore, token);
        assert FitsAt(cards, conflicts, count, hasMore, size, budget);
        return Fits(capsule, count);
      }
      if count <= 1 {
        return BudgetTooSmall;
      }
      count := count - 1;
    }
    r := BudgetTooSmall;
  }

  function KeysOf(cards: seq<Card>): seq<Paging.Key> {
    seq(|cards|, i requires 0 <= i < |cards| => cards[i].key)
  }

  /** The page a capsule with `count` cards stands for: it resumes right after its last card. */
  function PageOf(cards: seq<Card>, count: nat, hasMore: bool): Paging.Page
    requires count <= |cards|
  {
    Paging.Page(KeysOf(cards[..count]),
                if (hasMore || count < |cards|) && count > 0 then Some(cards[count - 1].key) else None)
  }

  /** What the capsule hands out is a page of the listing, so following the cursors of `context`
      is one sorted read as well. */
  lemma CapsuleIsAPage(b: Ledger.Book, e: Reads.Eligibility, q: Paging.Query, after: Option<Paging.Key>,
                       full: seq<Paging.Key>, cards: seq<Card>, hasMore: bool, count: nat)
    requires Paging.Lists(full, Paging.Beyond(Paging.Hits(Reads.Rows(b, e), q, Paging.ExactMode(Reads.Rows(b, e), q, after)), after))
    requires KeysOf(cards) <= full && (hasMore <==> |cards| < |full|)
    requires count <= |cards| && (cards != [] ==> 1 <= count) && (cards == [] ==> full == [])
    ensures Paging.IsPage(b, e, q, after, PageOf(cards, count, hasMore))
  {
    hide Paging.Lists, Paging.Beyond, Paging.Hits, Reads.Rows, Paging.ExactMode, Paging.IsPage;
    PageIsPrefix(full, cards, hasMore, count);
    Search.PageOf(b, e, q, after, full, PageOf(cards, count, hasMore));
  }

  lemma PageIsPrefix(full: seq<Paging.Key>, cards: seq<Card>, hasMore: bool, count: nat)
    requires KeysOf(cards) <= full && (hasMore <==> |cards| < |full|)
    requires count <= |cards| && (cards != [] ==> 1 <= count) && (cards == [] ==> full == [])
    ensures var page := PageOf(cards, count, hasMore);
            && |page.keys| <= |full| && page.keys == full[..|page.keys|] && (page.keys == [] ==> full == [])
            && page.next == (if |page.keys| < |full| then Some(page.keys[|page.keys| - 1]) else None)
  {
  }
}
