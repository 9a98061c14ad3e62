/** One search request: run the query, keep what fits the response, hand out the cursor. */
module Search {
  import opened Basics
  import opened Ledger
  import opened Reads
  import opened Paging
  import opened Selection

  datatype Found = Cards(page: Page) | ResultTooLarge

  /** The key every other one comes after. */
  method FirstOf(keys: set<Key>) returns (first: Key)
    requires keys != {}
    ensures first in keys && forall key | key in keys :: key == first || Precedes(first, key)
  {
    hide Precedes;
    first :| first in keys;
    var seen, todo := {first}, keys - {first};
    while todo != {}
      invariant seen + todo == keys && seen !! todo && first in seen
      invariant forall key | key in seen :: key == first || Precedes(first, key)
    {
      var next :| next in todo;
      PrecedesTotal(first, next);
      if Precedes(next, first) {
        forall key | key in seen && key != first ensures Precedes(next, key) {
          PrecedesTransitive(next, first, key);
        }
        first := next;
      }
      seen, todo := seen + {next}, todo - {next};
    }
    assert seen == keys;
  }

  /** `ORDER BY lexical_score DESC, ingest_seq DESC, id`: repeatedly take the first of what is left. */
  method OrderKeys(of: set<Key>) returns (keys: seq<Key>)
    ensures Lists(keys, of)
    ensures |keys| == |of|
  {
    keys := [];
    var left := of;
    hide Precedes;
    while left != {}
      invariant left <= of && |keys| + |left| == |of|
      invariant forall key :: key in keys <==> key in of - left
      invariant Sorted(keys)
      invariant forall key, later | key in keys && later in left :: Precedes(key, later)
    {
      var first := FirstOf(left);
      keys := keys + [first];
      left := left - {first};
    }
  }

  /** A page is as long as the row limit and the response bound allow, and no shorter. */
  ghost predicate LongestFit(full: seq<Key>, keys: seq<Key>, limit: nat, size: seq<Key> -> nat, bound: nat) {
    && |keys| <= limit && keys <= full
    && size(keys) <= bound
    && forall n | |keys| < n <= |full| && n <= limit :: size(full[..n]) > bound
  }

  /** `_query_cards` and the packing loop of `search`. `size` is the length of the encoded cards. */
  method SearchPage(b: Book, e: Eligibility, q: Query, after: Option<Key>, limit: nat, size: seq<Key> -> nat, bound: nat)
    returns (r: Found, ghost full: seq<Key>)
    requires 1 <= limit && size([]) <= bound
    ensures Lists(full, Beyond(Hits(Rows(b, e), q, ExactMode(Rows(b, e), q, after)), after))
    ensures r.Cards? ==> IsPage(b, e, q, after, r.page) && LongestFit(full, r.page.keys, limit, size, bound)
    ensures Inv(b) ==> Finds(b, e, q, after, full)
    ensures r.Cards? ==>
              && (r.page.keys == [] ==> full == [])
              && r.page.next == if |r.page.keys| < |full| then Some(r.page.keys[|r.page.keys| - 1]) else None
    ensures r == ResultTooLarge <==> full != [] && forall n | 1 <= n <= |full| && n <= limit :: size(full[..n]) > bound
  {
    var docs := Rows(b, e);
    var exact := ExactMode(docs, q, after);
    hide Rows, Hits, ExactMode, Beyond, Sorted, Precedes, Inv, Finds;
    var all := OrderKeys(Beyond(Hits(docs, q, exact), after));
    full := all;
    if Inv(b) {
      ListingFinds(b, e, q, after, all);
    }
    var fetched := if limit + 1 < |all| then all[..limit + 1] else all;
    var hasMore := |fetched| > limit;
    var keys := if hasMore then fetched[..limit] else fetched;
    var cards := keys;
    assert cards == all[..|cards|];
    while cards != [] && size(cards) > bound
      invariant |cards| <= |keys| && cards == all[..|cards|]
      invariant hasMore <==> |cards| < |all|
      invariant forall n | |cards| < n <= |keys| :: size(all[..n]) > bound
    {
      assert cards[..|cards| - 1] == all[..|cards| - 1];
      cards := cards[..|cards| - 1];
      hasMore := true;
    }
    if keys != [] && cards == [] {
      return ResultTooLarge, full;
    }
    var next := if hasMore && cards != [] then Some(keys[|cards| - 1]) else None;
    assert cards != [] ==> keys[|cards| - 1] == cards[|cards| - 1];
    var page := Page(cards, next);
    PageOf(b, e, q, after, all, page);
    r := Cards(page);
  }

  lemma PageOf(b: Book, e: Eligibility, q: Query, after: Option<Key>, full: seq<Key>, page: Page)
    requires Lists(full, Beyond(Hits(Rows(b, e), q, ExactMode(Rows(b, e), q, after)), after))
    requires |page.keys| <= |full| && page.keys == full[..|page.keys|] && (page.keys == [] ==> full == [])
    requires page.next == (if |page.keys| < |full| then Some(page.keys[|page.keys| - 1]) else None)
    ensures IsPage(b, e, q, after, page)
  {
  }
}
