/** `ORDER BY <sequence>, id`. */
module Ordering {
  import opened Basics

  function NumberOf(at: map<Id, nat>, id: Id): nat {
    if id in at then at[id] else 0
  }

  predicate Earlier(at: map<Id, nat>, a: Id, b: Id) {
    NumberOf(at, a) < NumberOf(at, b) || (NumberOf(at, a) == NumberOf(at, b) && LexLess(a, b))
  }

  /** `ids`, each once, by sequence and then id. */
  ghost predicate Listing(ids: seq<Id>, of: set<Id>, at: map<Id, nat>) {
    && (forall id :: id in ids <==> id in of)
    && (forall i, j | 0 <= i < j < |ids| :: Earlier(at, ids[i], ids[j]))
  }

  lemma EarlierTransitive(at: map<Id, nat>, a: Id, b: Id, c: Id)
    requires Earlier(at, a, b) && Earlier(at, b, c)
    ensures Earlier(at, a, c)
  {
    if NumberOf(at, a) == NumberOf(at, b) == NumberOf(at, c) {
      LexTransitive(a, b, c);
    }
  }

  /** `SELECT ... ORDER BY created_seq,id`: repeatedly take the earliest row that is left. */
  method OrderBySequence(of: set<Id>, at: map<Id, nat>) returns (ids: seq<Id>)
    ensures Listing(ids, of, at)
  {
    ids := [];
    var left := of;
    while left != {}
      invariant left <= of
      invariant forall id :: id in ids <==> id in of - left
      invariant forall i, j | 0 <= i < j < |ids| :: Earlier(at, ids[i], ids[j])
      invariant forall id, later | id in ids && later in left :: Earlier(at, id, later)
    {
      var first :| first in left;
      var seen, todo := {first}, left - {first};
      while todo != {}
        invariant seen + todo == left && seen !! todo && first in seen
        invariant forall id | id in seen :: id == first || Earlier(at, first, id)
      {
        var next :| next in todo;
        LexTotal(first, next);
        if Earlier(at, next, first) {
          forall id | id in seen && id != first ensures Earlier(at, next, id) {
            EarlierTransitive(at, next, first, id);
          }
          first := next;
        }
        seen, todo := seen + {next}, todo - {next};
      }
      assert seen == left;
      ids := ids + [first];
      left := left - {first};
    }
  }
}
