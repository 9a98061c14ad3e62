/** Continuation tokens: bounded, expiring, bound to one request, and nothing more. */
module Cursors {
  import opened Basics
  import Paging
  import Reads

  const MAX_CURSORS: nat := 256
  const TTL := 600
  const MAX_TOKEN: nat := 64

  /** The request a token belongs to; the keyed digest over it is modelled as the request itself. */
  datatype Binding = Binding(
    capability: Id, provider: Provider, project: Project, operation: string, query: string, mode: Reads.Mode,
    recorded: Option<nat>, valid: Option<Time>, ownerRead: bool)

  /** What a token stands for: the request it belongs to, the pinned snapshot, the keyset. */
  datatype State = State(binding: Binding, recorded: nat, after: Paging.Key, expires: Time)

  datatype Entry = Entry(token: string, state: State)

  // ---------------------------------------------------------------- the table as a value

  function Live(entries: seq<Entry>, now: Time): seq<Entry> {
    if entries == [] then []
    else (if entries[0].state.expires <= now then [] else [entries[0]]) + Live(entries[1..], now)
  }

  function Newest(entries: seq<Entry>, n: nat): seq<Entry> {
    if |entries| <= n then entries else entries[|entries| - n..]
  }

  /** The table after a token was issued: the lapsed are gone, the oldest make room. */
  function Issued(entries: seq<Entry>, e: Entry, now: Time): seq<Entry> {
    Newest(Live(entries, now), MAX_CURSORS - 1) + [e]
  }

  ghost predicate Distinct(entries: seq<Entry>) {
    forall i, j | 0 <= i < |entries| && 0 <= j < |entries| && entries[i].token == entries[j].token :: i == j
  }

  lemma {:induction false} LiveAre(entries: seq<Entry>, now: Time)
    ensures |Live(entries, now)| <= |entries|
    ensures forall e :: e in Live(entries, now) <==> e in entries && e.state.expires > now
    decreases |entries|
  {
    if entries != [] {
      LiveAre(entries[1..], now);
      assert entries == [entries[0]] + entries[1..];
    }
  }

  lemma {:induction false} LiveIsDistinct(entries: seq<Entry>, now: Time)
    requires Distinct(entries)
    ensures Distinct(Live(entries, now))
    decreases |entries|
  {
    if entries != [] {
      var rest := entries[1..];
      assert Distinct(rest) by {
        assert forall i | 0 <= i < |rest| :: rest[i] == entries[i + 1];
      }
      LiveIsDistinct(rest, now);
      LiveAre(rest, now);
      TailHasOtherTokens(entries);
      PrependIsDistinct(entries[0], Live(rest, now));
    }
  }

  lemma PrependIsDistinct(e: Entry, entries: seq<Entry>)
    requires Distinct(entries) && forall f | f in entries :: f.token != e.token
    ensures Distinct([e] + entries) && [] + entries == entries
  {
    assert forall i | 0 <= i < |entries| :: entries[i] in entries;
  }

  lemma LiveIs(entries: seq<Entry>, now: Time)
    ensures |Live(entries, now)| <= |entries|
    ensures forall e :: e in Live(entries, now) <==> e in entries && e.state.expires > now
    ensures Distinct(entries) ==> Distinct(Live(entries, now))
  {
    LiveAre(entries, now);
    if Distinct(entries) {
      LiveIsDistinct(entries, now);
    }
  }

  lemma TailHasOtherTokens(entries: seq<Entry>)
    requires entries != [] && Distinct(entries)
    ensures forall e | e in entries[1..] :: e.token != entries[0].token
  {
  }

  class Cursors {
    var entries: seq<Entry>              // in the order of insertion

    ghost predicate Valid()
      reads this
    {
      |entries| <= MAX_CURSORS && Distinct(entries)
    }

    /** `_prune`: every lapsed entry, in one pass over a copy. */
    method Prune(now: Time)
      requires Valid()
      modifies this
      ensures Valid() && entries == Live(old(entries), now)
    {
      var kept: seq<Entry> := [];
      assert entries[0..] == entries;
      for i := 0 to |entries|
        invariant entries == old(entries)
        invariant kept + Live(entries[i..], now) == Live(entries, now)
      {
        assert entries[i..][0] == entries[i] && entries[i..][1..] == entries[i + 1..];
        if entries[i].state.expires > now {
          assert kept + ([entries[i]] + Live(entries[i + 1..], now)) == (kept + [entries[i]]) + Live(entries[i + 1..], now);
          kept := kept + [entries[i]];
        } else {
          assert [] + Live(entries[i + 1..], now) == Live(entries[i + 1..], now);
        }
      }
      assert entries[|entries|..] == [] && kept + [] == kept;
      LiveIs(entries, now);
      entries := kept;
    }

    /** `read`: the state, or one and the same error for unknown, lapsed, evicted and foreign
        tokens. */
    method Read(token: string, binding: Binding, now: Time) returns (state: Option<State>)
      requires Valid()
      modifies this
      ensures Valid() && entries == Live(old(entries), now)
      ensures forall s :: state == Some(s) <==>
                |token| <= MAX_TOKEN && Entry(token, s) in old(entries) && s.expires > now && s.binding == binding
    {
      LiveIs(entries, now);
      Prune(now);
      state := None;
      if |token| > MAX_TOKEN { return; }
      for i := 0 to |entries|
        invariant Valid() && entries == Live(old(entries), now)
        invariant state == None ==> forall j | 0 <= j < i :: entries[j].token != token || entries[j].state.binding != binding
        invariant state.Some? ==> Entry(token, state.value) in entries && state.value.binding == binding
      {
        if entries[i].token == token && entries[i].state.binding == binding {
          state := Some(entries[i].state);
        }
      }
      forall s ensures state == Some(s) <==> Entry(token, s) in entries && s.binding == binding {
        if Entry(token, s) in entries && s.binding == binding && state.Some? {
          SameToken(entries, token, s, state.value);
        }
      }
    }

    /** `issue`: prune, evict the oldest until there is room, insert. */
    method Issue(token: string, state: State, now: Time)
      requires Valid() && forall e | e in entries :: e.token != token
      modifies this
      ensures Valid() && entries == Issued(old(entries), Entry(token, state), now)
      ensures Entry(token, state) in entries
    {
      LiveIs(entries, now);
      Prune(now);
      ghost var live := entries;
      while |entries| >= MAX_CURSORS
        invariant Valid()
        invariant |entries| <= |live| && entries == live[|live| - |entries|..]
        invariant |live| < MAX_CURSORS ==> entries == live
        invariant |live| >= MAX_CURSORS ==> |entries| >= MAX_CURSORS - 1
        decreases |entries|
      {
        SuffixIsDistinct(entries);
        assert live[|live| - |entries|..][1..] == live[|live| - |entries| + 1..];
        entries := entries[1..];
      }
      assert entries == Newest(live, MAX_CURSORS - 1);
      assert forall e | e in entries :: e in live;
      AppendIsDistinct(entries, Entry(token, state));
      entries := entries + [Entry(token, state)];
    }
  }

  lemma SameToken(entries: seq<Entry>, token: string, s: State, t: State)
    requires Distinct(entries) && Entry(token, s) in entries && Entry(token, t) in entries
    ensures s == t
  {
  }

  lemma SuffixIsDistinct(entries: seq<Entry>)
    requires entries != [] && Distinct(entries)
    ensures Distinct(entries[1..])
  {
  }

  lemma AppendIsDistinct(entries: seq<Entry>, e: Entry)
    requires Distinct(entries) && forall f | f in entries :: f.token != e.token
    ensures Distinct(entries + [e])
  {
  }

  // ---------------------------------------------------------------- how long a token lasts

  /** One later `issue` and the time of it. */
  datatype Later = Later(entry: Entry, now: Time)

  function AfterAll(entries: seq<Entry>, later: seq<Later>): seq<Entry>
    decreases |later|
  {
    if later == [] then entries else AfterAll(Issued(entries, later[0].entry, later[0].now), later[1..])
  }

  /** A token that has lapsed for nobody and has at most `n` entries behind it survives. */
  lemma {:induction false} TokenSurvives(entries: seq<Entry>, at: nat, later: seq<Later>)
    requires at < |entries| && |entries| - at + |later| <= MAX_CURSORS
    requires forall l | l in later :: l.now < entries[at].state.expires
    ensures entries[at] in AfterAll(entries, later)
    decreases |later|
  {
    if later != [] {
      var l := later[0];
      var e := entries[at];
      var live := Live(entries, l.now);
      assert l in later;
      var at1 := LiveKeepsRank(entries, at, l.now);
      var kept := Newest(live, MAX_CURSORS - 1);
      var at2 := if |live| <= MAX_CURSORS - 1 then at1 else at1 - (|live| - (MAX_CURSORS - 1));
      assert kept[at2] == e;
      var next := Issued(entries, l.entry, l.now);
      assert next[at2] == e && |next| - at2 <= |entries| - at + 1;
      assert forall m | m in later[1..] :: m in later;
      TokenSurvives(next, at2, later[1..]);
    }
  }

  /** Pruning others brings an entry no further from the end. */
  lemma {:induction false} LiveKeepsRank(entries: seq<Entry>, at: nat, now: Time) returns (at1: nat)
    requires at < |entries| && now < entries[at].state.expires
    ensures at1 < |Live(entries, now)| && Live(entries, now)[at1] == entries[at]
    ensures |Live(entries, now)| - at1 <= |entries| - at
    decreases |entries|
  {
    if at == 0 {
      at1 := 0;
      LiveIs(entries[1..], now);
    } else {
      var rest := LiveKeepsRank(entries[1..], at - 1, now);
      at1 := if entries[0].state.expires <= now then rest else rest + 1;
    }
  }

  /** A continuation stays readable until it lapses, as long as at most 255 others are issued
      after it. */
  lemma IssuedTokenLasts(entries: seq<Entry>, e: Entry, now: Time, later: seq<Later>)
    requires |later| < MAX_CURSORS && forall l | l in later :: l.now < e.state.expires
    ensures e in AfterAll(Issued(entries, e, now), later)
  {
    var table := Issued(entries, e, now);
    TokenSurvives(table, |table| - 1, later);
  }
}
