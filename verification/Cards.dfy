/** What one query hands to the packing: its cards, and the disputes they name. */
module Cards {
  import opened Basics
  import opened Ledger
  import opened Reads
  import opened Disputes
  import opened Ordering
  import opened Context
  import Conflicts
  import Paging
  import Search
  import Selection

  type Groups = map<GroupName, seq<Conflicts.Member>>

  /** Names are digests: different groups have different ones. */
  ghost predicate Injective(name: GroupName -> Id) {
    forall a, b | name(a) == name(b) :: a == b
  }

  predicate InGroup(members: seq<Conflicts.Member>, id: Id) {
    exists m | m in members :: m.id == id
  }

  function MemberIds(members: seq<Conflicts.Member>): set<Id> {
    set m | m in members :: m.id
  }

  // ---------------------------------------------------------------- the projection of several threads

  /** `groups` holds what each of the threads contributes, and nothing else. */
  ghost predicate AllProjected(docs: map<Id, Doc>, threads: set<Id>, groups: Groups) {
    && (forall t | t in threads :: ThreadProjected(docs, t, groups))
    && (forall n | n in groups :: exists t | t in threads :: OfThread(docs, t, n))
  }

  ghost predicate ThreadProjected(docs: map<Id, Doc>, t: Id, groups: Groups) {
    exists some: Groups :: Projects(ThreadRows(docs, t), t, some) && forall n | n in some :: n in groups && groups[n] == some[n]
  }

  /** The name of a group of thread `t`. */
  ghost predicate OfThread(docs: map<Id, Doc>, t: Id, n: GroupName) {
    match n
    case NotAssessed(u) => u == t
    case Dispute(ids) => ids != {} && forall id | id in ids :: id in ThreadRows(docs, t)
  }

  lemma ProjectedNames(docs: map<Id, Doc>, t: Id, some: Groups)
    requires Projects(ThreadRows(docs, t), t, some)
    ensures forall n | n in some :: OfThread(docs, t, n)
  {
    var rows := ThreadRows(docs, t);
    hide ThreadRows, FirstOf, IsOrdered;
    forall n | n in some && n.Dispute? ensures n.ids != {} && forall id | id in n.ids :: id in rows {
      var a :| a in rows && Conflicts.GroupOf(rows, a) == n.ids;
      Conflicts.LinkedReflexive(rows, a);
      assert a in n.ids;
      GroupsAreRows(rows, n.ids);
    }
  }

  /** No two threads contribute the same name. */
  lemma ThreadsApart(docs: map<Id, Doc>, t: Id, u: Id, n: GroupName)
    requires OfThread(docs, t, n) && OfThread(docs, u, n)
    ensures t == u
  {
    if n.Dispute? {
      var id :| id in n.ids;
      assert docs[id].row.thread == t && docs[id].row.thread == u;
    }
  }

  lemma OneMoreThread(docs: map<Id, Doc>, threads: set<Id>, groups: Groups, t: Id, some: Groups)
    requires AllProjected(docs, threads, groups) && t !in threads && Projects(ThreadRows(docs, t), t, some)
    ensures AllProjected(docs, threads + {t}, groups + some)
  {
    hide Projects, OfThread, ThreadRows;
    ProjectedNames(docs, t, some);
    forall u | u in threads ensures ThreadProjected(docs, u, groups + some) {
      var own: Groups :| Projects(ThreadRows(docs, u), u, own) && forall n | n in own :: n in groups && groups[n] == own[n];
      ProjectedNames(docs, u, own);
      forall n | n in own ensures n !in some {
        if n in some {
          ThreadsApart(docs, t, u, n);
        }
      }
    }
    assert ThreadProjected(docs, t, groups + some);
  }

  /** The loop of `_conflict_projection` over the threads of a page. */
  method ProjectThreads(docs: map<Id, Doc>, threads: set<Id>) returns (groups: Groups)
    ensures AllProjected(docs, threads, groups)
  {
    groups := map[];
    var todo := threads;
    assert threads - todo == {};
    hide ThreadProjected, OfThread, Projects, ThreadRows;
    while todo != {}
      invariant todo <= threads && AllProjected(docs, threads - todo, groups)
    {
      var t :| t in todo;
      var some := ProjectThread(ThreadRows(docs, t), t);
      OneMoreThread(docs, threads - todo, groups, t, some);
      assert threads - (todo - {t}) == threads - todo + {t};
      groups := groups + some;
      todo := todo - {t};
    }
    assert threads - todo == threads;
  }

  // ---------------------------------------------------------------- cards and the disputes they name

  /** The group a card belongs to: its thread if that was not assessed, otherwise a dispute that lists it. */
  ghost predicate Belongs(groups: Groups, id: Id, thread: Id, n: Option<GroupName>) {
    if NotAssessed(thread) in groups then n == Some(NotAssessed(thread))
    else match n
         case Some(group) => group in groups && exists m | m in groups[group] :: m.id == id
         case None => forall group, m | group in groups && m in groups[group] :: m.id != id
  }

  method MembershipOf(groups: Groups, id: Id, thread: Id) returns (n: Option<GroupName>)
    ensures Belongs(groups, id, thread, n)
    ensures n.Some? ==> n.value in groups
  {
    if NotAssessed(thread) in groups { return Some(NotAssessed(thread)); }
    if group :| group in groups && InGroup(groups[group], id) { return Some(group); }
    n := None;
  }

  /** The cards of a page, each with the name of its group. */
  ghost predicate AreCards(cards: seq<Card>, keys: seq<Paging.Key>, docs: map<Id, Doc>, groups: Groups, name: GroupName -> Id) {
    && |cards| == |keys|
    && forall i | 0 <= i < |keys| :: IsCard(cards[i], keys[i], docs, groups, name)
  }

  ghost predicate IsCard(card: Card, key: Paging.Key, docs: map<Id, Doc>, groups: Groups, name: GroupName -> Id) {
    && card.id == key.id && card.key == key && key.id in docs
    && exists n :: Belongs(groups, key.id, docs[key.id].row.thread, n)
                   && card.conflict == (if n.Some? then Some(name(n.value)) else None)
                   && (n.Some? ==> n.value in groups)
  }

  method BuildCards(keys: seq<Paging.Key>, docs: map<Id, Doc>, groups: Groups, name: GroupName -> Id) returns (cards: seq<Card>)
    requires forall key | key in keys :: key.id in docs
    ensures AreCards(cards, keys, docs, groups, name)
  {
    hide Belongs;
    cards := [];
    for i := 0 to |keys|
      invariant |cards| == i && forall k | 0 <= k < i :: IsCard(cards[k], keys[k], docs, groups, name)
    {
      var key := keys[i];
      assert key in keys;
      var n := MembershipOf(groups, key.id, docs[key.id].row.thread);
      cards := cards + [Card(key.id, if n.Some? then Some(name(n.value)) else None, key)];
    }
  }

  /** The names the cards carry, with the groups behind them. */
  function NamesOn(cards: seq<Card>): set<Id> {
    set card | card in cards && card.conflict.Some? :: card.conflict.value
  }

  ghost predicate IsView(c: Conflict, groups: Groups, name: GroupName -> Id) {
    exists n | n in groups ::
      && c.id == name(n) && c.assessed == n.Dispute?
      && forall id :: id in c.members <==> exists m | m in groups[n] :: m.id == id
  }

  lemma ViewOf(n: GroupName, groups: Groups, name: GroupName -> Id)
    requires n in groups
    ensures IsView(Conflict(name(n), MemberIds(groups[n]), n.Dispute?), groups, name)
  {
    var c := Conflict(name(n), MemberIds(groups[n]), n.Dispute?);
    assert forall id :: id in c.members <==> exists m | m in groups[n] :: m.id == id;
  }

  /** `[... for cid in sorted(selected_groups)]`: every dispute a card names, once, with all its members. */
  method ListConflicts(cards: seq<Card>, keys: seq<Paging.Key>, docs: map<Id, Doc>, groups: Groups, name: GroupName -> Id)
    returns (conflicts: seq<Conflict>)
    requires AreCards(cards, keys, docs, groups, name)
    ensures Context.Distinct(conflicts) && Covered(cards, conflicts)
    ensures forall c | c in conflicts :: c.id in NamesOn(cards) && IsView(c, groups, name)
  {
    var names := NamesOn(cards);
    var at := map n | n in names :: 0;
    var ids := OrderBySequence(names, at);
    NamesAreGroups(cards, keys, docs, groups, name);
    hide Belongs, IsCard, NamesOn, AreCards, IsView, MemberIds;
    conflicts := [];
    for i := 0 to |ids|
      invariant |conflicts| == i && forall k | 0 <= k < i :: conflicts[k].id == ids[k] && IsView(conflicts[k], groups, name)
    {
      assert ids[i] in names;
      var n :| n in groups && name(n) == ids[i];
      ViewOf(n, groups, name);
      conflicts := conflicts + [Conflict(ids[i], MemberIds(groups[n]), n.Dispute?)];
    }
    ListedIsDistinct(ids, names, at, conflicts);
    ListedIsCovered(cards, ids, conflicts);
  }

  lemma NamesAreGroups(cards: seq<Card>, keys: seq<Paging.Key>, docs: map<Id, Doc>, groups: Groups, name: GroupName -> Id)
    requires AreCards(cards, keys, docs, groups, name)
    ensures forall id | id in NamesOn(cards) :: exists n | n in groups :: name(n) == id
  {
    hide Belongs;
    forall card | card in cards && card.conflict.Some? ensures exists n | n in groups :: name(n) == card.conflict.value {
      var i :| 0 <= i < |cards| && cards[i] == card;
      assert IsCard(cards[i], keys[i], docs, groups, name);
    }
  }

  lemma ListedIsDistinct(ids: seq<Id>, names: set<Id>, at: map<Id, nat>, conflicts: seq<Conflict>)
    requires Listing(ids, names, at)
    requires |conflicts| == |ids| && forall k | 0 <= k < |ids| :: conflicts[k].id == ids[k]
    ensures Context.Distinct(conflicts)
    ensures forall c | c in conflicts :: c.id in names
  {
    ListingSize(ids, names, at);
    hide Listing;
  }

  lemma ListedIsCovered(cards: seq<Card>, ids: seq<Id>, conflicts: seq<Conflict>)
    requires forall id | id in NamesOn(cards) :: id in ids
    requires |conflicts| == |ids| && forall k | 0 <= k < |ids| :: conflicts[k].id == ids[k]
    ensures Covered(cards, conflicts)
  {
    forall card | card in cards && card.conflict.Some? ensures exists c | c in conflicts :: c.id == card.conflict.value {
      assert card.conflict.value in NamesOn(cards);
      var k :| 0 <= k < |ids| && ids[k] == card.conflict.value;
      assert conflicts[k] in conflicts;
    }
  }

  /** A card that names an assessed dispute is one of its members. */
  lemma DisputedCardsAreMembers(cards: seq<Card>, keys: seq<Paging.Key>, docs: map<Id, Doc>, groups: Groups,
                                name: GroupName -> Id, card: Card, c: Conflict)
    requires AreCards(cards, keys, docs, groups, name) && Injective(name)
    requires card in cards && card.conflict == Some(c.id) && IsView(c, groups, name) && c.assessed
    ensures card.id in c.members
  {
    var i :| 0 <= i < |cards| && cards[i] == card;
    assert IsCard(cards[i], keys[i], docs, groups, name);
  }

  function ThreadsOf(keys: seq<Paging.Key>, docs: map<Id, Doc>): set<Id> {
    set key | key in keys && key.id in docs :: docs[key.id].row.thread
  }

  /** The cards name the groups of their threads, and the listed disputes are exactly those they name. */
  ghost predicate Described(cards: seq<Card>, conflicts: seq<Conflict>, docs: map<Id, Doc>, name: GroupName -> Id) {
    exists groups, threads ::
      && (forall t :: t in threads <==> exists card | card in cards :: card.id in docs && docs[card.id].row.thread == t)
      && AllProjected(docs, threads, groups) && AreCards(cards, KeysOf(cards), docs, groups, name)
      && Context.Distinct(conflicts) && Covered(cards, conflicts)
      && forall c | c in conflicts :: c.id in NamesOn(cards) && IsView(c, groups, name)
  }

  // ---------------------------------------------------------------- one context request

  lemma HitsAreStored(docs: map<Id, Doc>, q: Paging.Query, exact: bool, after: Option<Paging.Key>)
    ensures forall key | key in Paging.Beyond(Paging.Hits(docs, q, exact), after) :: key.id in docs
  {
  }

  lemma KeysOfCards(cards: seq<Card>, keys: seq<Paging.Key>, docs: map<Id, Doc>, groups: Groups, name: GroupName -> Id)
    requires AreCards(cards, keys, docs, groups, name)
    ensures |cards| == |keys| && KeysOf(cards) == keys
  {
    hide Belongs;
    forall i | 0 <= i < |keys| ensures KeysOf(cards)[i] == keys[i] {
      assert IsCard(cards[i], keys[i], docs, groups, name);
    }
  }

  /** `_query_cards` and the packing of `context`: the capsule holds the longest prefix that fits of one page
      of the listing, so its cursor goes on where it stops. `name` is the digest that names a group. */
  method AnswerContext(b: Book, e: Eligibility, q: Paging.Query, after: Option<Paging.Key>, limit: nat, name: GroupName -> Id,
                       size: Capsule -> nat, budget: nat, token: string)
    returns (r: Packed, ghost full: seq<Paging.Key>, ghost cards: seq<Card>, ghost conflicts: seq<Conflict>)
    requires 1 <= limit && |token| == TOKEN_LENGTH && TokenBlind(size)
    ensures Paging.Lists(full, Paging.Beyond(Paging.Hits(Rows(b, e), q, Paging.ExactMode(Rows(b, e), q, after)), after))
    ensures Inv(b) ==> Selection.Finds(b, e, q, after, full)
    ensures KeysOf(cards) == full[..if |full| > limit then limit else |full|]
    ensures Described(cards, conflicts, Rows(b, e), name)
    ensures var hasMore := |full| > limit;
            r.Fits? ==>
              && r.count <= |cards| && Paging.IsPage(b, e, q, after, Context.PageOf(cards, r.count, hasMore))
              && r.capsule == Build(cards, conflicts, r.count, hasMore, token) && size(r.capsule) <= budget
              && multiset(r.capsule.accepted) + Gathered(r.capsule.open) == multiset(cards[..r.count])
              && forall n: nat | r.count < n <= |cards| :: !FitsAt(cards, conflicts, n, hasMore, size, budget)
    ensures var hasMore := |full| > limit;
            r == BudgetTooSmall <==>
              (if cards == [] then !FitsAt(cards, conflicts, 0, hasMore, size, budget)
               else forall n: nat | 1 <= n <= |cards| :: !FitsAt(cards, conflicts, n, hasMore, size, budget))
  {
    var docs := Rows(b, e);
    var exact := Paging.ExactMode(docs, q, after);
    HitsAreStored(docs, q, exact, after);
    hide *;
    var all := Search.OrderKeys(Paging.Beyond(Paging.Hits(docs, q, exact), after));
    if Inv(b) {
      Selection.ListingFinds(b, e, q, after, all);
    }
    ListedIsIn(all, Paging.Beyond(Paging.Hits(docs, q, exact), after));
    var more := |all| > limit;
    var keys := if more then all[..limit] else all;
    assert forall key | key in keys :: key in all;
    var groups := ProjectThreads(docs, ThreadsOf(keys, docs));
    var built := BuildCards(keys, docs, groups, name);
    KeysOfCards(built, keys, docs, groups, name);
    var listed := ListConflicts(built, keys, docs, groups, name);
    DescribedBy(built, listed, docs, name, groups);
    r := Pack(built, listed, more, size, budget, token);
    full, cards, conflicts := all, built, listed;
    if r.Fits? {
      CapsuleIsAPage(b, e, q, after, all, cards, more, r.count);
    }
  }

  lemma DescribedBy(cards: seq<Card>, conflicts: seq<Conflict>, docs: map<Id, Doc>, name: GroupName -> Id, groups: Groups)
    requires AllProjected(docs, ThreadsOf(KeysOf(cards), docs), groups) && AreCards(cards, KeysOf(cards), docs, groups, name)
    requires Context.Distinct(conflicts) && Covered(cards, conflicts)
    requires forall c | c in conflicts :: c.id in NamesOn(cards) && IsView(c, groups, name)
    ensures Described(cards, conflicts, docs, name)
  {
    ThreadsAreNamed(cards, KeysOf(cards), docs, groups, name);
    hide AllProjected, AreCards, IsView, Context.Distinct, Covered, NamesOn, ThreadsOf;
    var threads := ThreadsOf(KeysOf(cards), docs);
    assert AllProjected(docs, threads, groups);
  }

  /** The threads that are projected are those of the cards. */
  lemma ThreadsAreNamed(cards: seq<Card>, keys: seq<Paging.Key>, docs: map<Id, Doc>, groups: Groups, name: GroupName -> Id)
    requires AreCards(cards, keys, docs, groups, name)
    ensures forall t :: t in ThreadsOf(keys, docs) <==> exists card | card in cards :: card.id in docs && docs[card.id].row.thread == t
  {
    hide Belongs;
    forall t | t in ThreadsOf(keys, docs) ensures exists card | card in cards :: card.id in docs && docs[card.id].row.thread == t {
      var key :| key in keys && key.id in docs && docs[key.id].row.thread == t;
      var i :| 0 <= i < |keys| && keys[i] == key;
      assert IsCard(cards[i], keys[i], docs, groups, name) && cards[i] in cards;
    }
    forall card | card in cards && card.id in docs ensures docs[card.id].row.thread in ThreadsOf(keys, docs) {
      var i :| 0 <= i < |cards| && cards[i] == card;
      assert IsCard(cards[i], keys[i], docs, groups, name) && keys[i] in keys;
    }
  }

  lemma ListedIsIn(all: seq<Paging.Key>, of: set<Paging.Key>)
    requires Paging.Lists(all, of)
    ensures forall key | key in all :: key in of
  {
  }
}
