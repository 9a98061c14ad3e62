/** Disputes are derived from the rows of one eligible thread, never stored. */
module Conflicts {
  import opened Basics
  import opened Ledger

  datatype Member = Member(id: Id, row: Version)

  /** Different bodies conflict only if both recorded and valid lifetimes overlap. */
  predicate Overlap(left: Version, right: Version) {
    && left.body != right.body
    && !EndsBefore(left, right)
    && !EndsBefore(right, left)
  }

  predicate EndsBefore(a: Version, b: Version) {
    || (a.retired.Some? && a.retired.value <= b.ingest)
    || (a.validTo.Some? && b.validFrom.Some? && a.validTo.value < b.validFrom.value)
  }

  predicate LiveAt(row: Version, recorded: nat, valid: Time) {
    && row.ingest <= recorded && (row.retired.Some? ==> recorded < row.retired.value)
    && (row.validFrom.Some? ==> row.validFrom.value <= valid)
    && (row.validTo.Some? ==> valid <= row.validTo.value)
  }

  predicate Proper(row: Version) {
    (row.retired.Some? ==> row.ingest < row.retired.value) && OrderedBounds(row)
  }

  /** Two rows overlap exactly when their bodies differ and there are a recorded sequence
      and a valid instant at which both are live. */
  lemma OverlapMeansBothLive(a: Version, b: Version)
    requires Proper(a) && Proper(b)
    ensures Overlap(a, b) <==>
              a.body != b.body && exists s, t :: LiveAt(a, s, t) && LiveAt(b, s, t)
  {
    if Overlap(a, b) {
      var s := if a.ingest < b.ingest then b.ingest else a.ingest;
      var t := match (a.validFrom, b.validFrom)
               case (Some(x), Some(y)) => if x < y then y else x
               case (Some(x), None) => x
               case (None, Some(y)) => y
               case (None, None) =>
                 match (a.validTo, b.validTo)
                 case (Some(x), Some(y)) => if x < y then x else y
                 case (Some(x), None) => x
                 case (None, Some(y)) => y
                 case (None, None) => 0;
      assert LiveAt(a, s, t) && LiveAt(b, s, t);
    }
  }

  // ---------------------------------------------------------------- connected components

  ghost predicate IsPath(rows: map<Id, Version>, path: seq<Id>) {
    && path != []
    && (forall i | 0 <= i < |path| :: path[i] in rows)
    && (forall i | 0 <= i < |path| - 1 :: Overlap(rows[path[i]], rows[path[i + 1]]))
  }

  ghost predicate Linked(rows: map<Id, Version>, a: Id, b: Id) {
    exists path :: IsPath(rows, path) && path[0] == a && path[|path| - 1] == b
  }

  ghost function GroupOf(rows: map<Id, Version>, a: Id): set<Id> {
    set b | b in rows && Linked(rows, a, b)
  }

  /** The connected components of size over one. */
  ghost function Groups(rows: map<Id, Version>): set<set<Id>> {
    set a | a in rows && GroupOf(rows, a) != {a} :: GroupOf(rows, a)
  }

  lemma LinkedReflexive(rows: map<Id, Version>, a: Id)
    requires a in rows
    ensures Linked(rows, a, a)
  {
    assert IsPath(rows, [a]);
  }

  lemma LinkedEdge(rows: map<Id, Version>, a: Id, b: Id)
    requires a in rows && b in rows && Overlap(rows[a], rows[b])
    ensures Linked(rows, a, b)
  {
    assert IsPath(rows, [a, b]);
  }

  lemma LinkedTransitive(rows: map<Id, Version>, a: Id, b: Id, c: Id)
    requires Linked(rows, a, b) && Linked(rows, b, c)
    ensures Linked(rows, a, c)
  {
    var p :| IsPath(rows, p) && p[0] == a && p[|p| - 1] == b;
    var q :| IsPath(rows, q) && q[0] == b && q[|q| - 1] == c;
    var r := p + q[1..];
    forall i | 0 <= i < |r| - 1 ensures Overlap(rows[r[i]], rows[r[i + 1]]) {
      if i >= |p| - 1 {
        assert r[i] == q[i - |p| + 1] && r[i + 1] == q[i - |p| + 2];
      }
    }
    assert IsPath(rows, r);
    assert r[|r| - 1] == c;
  }

  lemma LinkedSymmetric(rows: map<Id, Version>, a: Id, b: Id)
    requires Linked(rows, a, b)
    ensures Linked(rows, b, a)
  {
    var p :| IsPath(rows, p) && p[0] == a && p[|p| - 1] == b;
    var r := seq(|p|, i requires 0 <= i < |p| => p[|p| - 1 - i]);
    forall i | 0 <= i < |r| - 1 ensures Overlap(rows[r[i]], rows[r[i + 1]]) {
      assert Overlap(rows[p[|p| - 2 - i]], rows[p[|p| - 2 - i + 1]]);
    }
    assert IsPath(rows, r);
  }

  /** Components partition the rows: two components are equal or disjoint, and each row is
      in its own. */
  lemma GroupsPartition(rows: map<Id, Version>, a: Id, b: Id)
    requires a in rows && b in rows
    ensures a in GroupOf(rows, a)
    ensures Linked(rows, a, b) ==> GroupOf(rows, a) == GroupOf(rows, b)
    ensures !Linked(rows, a, b) ==> GroupOf(rows, a) !! GroupOf(rows, b)
  {
    LinkedReflexive(rows, a);
    forall c | c in rows
      ensures Linked(rows, a, b) ==> (Linked(rows, a, c) <==> Linked(rows, b, c))
      ensures Linked(rows, a, c) && Linked(rows, b, c) ==> Linked(rows, a, b)
    {
      if Linked(rows, a, b) {
        LinkedSymmetric(rows, a, b);
        if Linked(rows, a, c) { LinkedTransitive(rows, b, a, c); }
        if Linked(rows, b, c) { LinkedTransitive(rows, a, b, c); }
      }
      if Linked(rows, a, c) && Linked(rows, b, c) {
        LinkedSymmetric(rows, b, c);
        LinkedTransitive(rows, a, c, b);
      }
    }
  }

  /** Components depend on the rows only through the overlap relation. */
  lemma GroupsFollowOverlap(rows: map<Id, Version>, other: map<Id, Version>)
    requires rows.Keys == other.Keys
    requires forall a, b | a in rows && b in rows :: Overlap(rows[a], rows[b]) <==> Overlap(other[a], other[b])
    ensures Groups(rows) == Groups(other)
    ensures forall a | a in rows :: GroupOf(rows, a) == GroupOf(other, a)
  {
    forall path ensures IsPath(rows, path) <==> IsPath(other, path) {
      if forall i | 0 <= i < |path| :: path[i] in rows {
        forall i | 0 <= i < |path| - 1
          ensures Overlap(rows[path[i]], rows[path[i + 1]]) <==> Overlap(other[path[i]], other[path[i + 1]])
        {
        }
      }
    }
    forall a | a in rows ensures GroupOf(rows, a) == GroupOf(other, a) {
      forall b ensures Linked(rows, a, b) <==> Linked(other, a, b) {
      }
    }
    forall g ensures g in Groups(rows) <==> g in Groups(other) {
    }
  }

  // ---------------------------------------------------------------- union-find

  /** `rep` names the root of every index. Parent pointers may point either way along the
      index order, so what makes the walk end is `rank`, which grows along every pointer. */
  ghost predicate Forest(parents: seq<nat>, rep: seq<nat>, rank: seq<nat>) {
    && |parents| == |rep| == |rank|
    && (forall i {:trigger rep[i]} | 0 <= i < |rep| :: rep[i] < |rep| && rep[rep[i]] == rep[i])
    && (forall i {:trigger parents[i]} | 0 <= i < |parents| ::
          && parents[i] < |parents|
          && (parents[i] != i ==> rank[i] < rank[parents[i]])
          && rep[parents[i]] == rep[i]
          && (parents[i] == i <==> rep[i] == i))
  }

  ghost predicate Below(rank: seq<nat>, top: nat) {
    forall i | 0 <= i < |rank| :: rank[i] <= top
  }

  /** Find with path halving: pointers move, roots do not. */
  method Root(parents: array<nat>, start: nat, ghost rep: seq<nat>, ghost rank: seq<nat>, ghost top: nat)
    returns (i: nat)
    requires start < parents.Length
    requires Forest(parents[..], rep, rank) && Below(rank, top)
    modifies parents
    ensures Forest(parents[..], rep, rank)
    ensures i < parents.Length && i == rep[start]
  {
    i := start;
    while parents[i] != i
      invariant i < parents.Length
      invariant Forest(parents[..], rep, rank)
      invariant rep[i] == rep[start]
      decreases top - rank[i]
    {
      ghost var before := parents[..];
      assert before[i] == parents[i] && before[parents[i]] == parents[parents[i]];
      parents[i] := parents[parents[i]];
      assert parents[..] == before[i := before[before[i]]];
      i := parents[i];
    }
    assert parents[..][i] == i;
  }

  ghost function Merged(rep: seq<nat>, ri: nat, rj: nat): seq<nat> {
    seq(|rep|, k requires 0 <= k < |rep| => if rep[k] == ri then rj else rep[k])
  }

  lemma LinkRoots(parents: seq<nat>, rep: seq<nat>, rank: seq<nat>, ri: nat, rj: nat)
    requires Forest(parents, rep, rank)
    requires ri < |parents| && rj < |parents| && ri != rj && rep[ri] == ri && rep[rj] == rj
    ensures var up := if rank[rj] <= rank[ri] then rank[ri] + 1 else rank[rj];
            Forest(parents[ri := rj], Merged(rep, ri, rj), rank[rj := up])
  {
  }

  predicate DistinctIds(rows: seq<Member>) {
    forall i, j | 0 <= i < |rows| && 0 <= j < |rows| && rows[i].id == rows[j].id :: i == j
  }

  ghost function ById(rows: seq<Member>): map<Id, Version>
    requires DistinctIds(rows)
  {
    map m | m in rows :: m.id := m.row
  }

  function Ids(rows: seq<Member>): set<Id> {
    set m | m in rows :: m.id
  }

  /** The members of one group in the order of the rows. */
  function Select(rows: seq<Member>, ids: set<Id>): seq<Member> {
    if rows == [] then []
    else (if rows[0].id in ids then [rows[0]] else []) + Select(rows[1..], ids)
  }

  /** The roots after a list of joins. */
  ghost function MergeAll(n: nat, joins: seq<(nat, nat)>): (rep: seq<nat>)
    requires forall e | e in joins :: e.0 < n && e.1 < n
    ensures |rep| == n
  {
    if joins == [] then seq(n, k => k)
    else
      var before := MergeAll(n, joins[..|joins| - 1]);
      var (i, j) := joins[|joins| - 1];
      Merged(before, before[i], before[j])
  }

  /** Equal roots are linked. */
  ghost predicate Sound(rows: seq<Member>, rep: seq<nat>)
    requires DistinctIds(rows) && |rep| == |rows|
  {
    forall a, b | 0 <= a < |rows| && 0 <= b < |rows| && rep[a] == rep[b] ::
      Linked(ById(rows), rows[a].id, rows[b].id)
  }

  ghost predicate Overlapping(rows: seq<Member>, joins: seq<(nat, nat)>) {
    forall e | e in joins :: e.0 < |rows| && e.1 < |rows| && Overlap(rows[e.0].row, rows[e.1].row)
  }

  /** Every overlap among the pairs before (i, j) was joined. */
  ghost predicate Examined(rows: seq<Member>, joins: seq<(nat, nat)>, i: nat, j: nat) {
    forall a: nat, b: nat | b < a < |rows| && (a < i || (a == i && b < j)) && Overlap(rows[a].row, rows[b].row) ::
      (a, b) in joins
  }

  lemma {:induction false} JoinsShareRoot(n: nat, joins: seq<(nat, nat)>, e: (nat, nat))
    requires forall e | e in joins :: e.0 < n && e.1 < n
    requires e in joins
    ensures MergeAll(n, joins)[e.0] == MergeAll(n, joins)[e.1]
    decreases |joins|
  {
    if e != joins[|joins| - 1] {
      JoinsShareRoot(n, joins[..|joins| - 1], e);
    }
  }

  lemma {:induction false} MergeAllSound(rows: seq<Member>, joins: seq<(nat, nat)>)
    requires DistinctIds(rows) && Overlapping(rows, joins)
    ensures Sound(rows, MergeAll(|rows|, joins))
    decreases |joins|
  {
    if joins == [] {
      forall a | 0 <= a < |rows| ensures Linked(ById(rows), rows[a].id, rows[a].id) {
        LinkedReflexive(ById(rows), rows[a].id);
      }
    } else {
      MergeAllSound(rows, joins[..|joins| - 1]);
      var (i, j) := joins[|joins| - 1];
      MergeStaysSound(rows, MergeAll(|rows|, joins[..|joins| - 1]), i, j);
    }
  }

  lemma MergeStaysSound(rows: seq<Member>, rep: seq<nat>, i: nat, j: nat)
    requires DistinctIds(rows) && |rep| == |rows| && Sound(rows, rep)
    requires i < |rows| && j < |rows| && Overlap(rows[i].row, rows[j].row)
    ensures Sound(rows, Merged(rep, rep[i], rep[j]))
  {
    var next := Merged(rep, rep[i], rep[j]);
    var all := ById(rows);
    LinkedEdge(all, rows[i].id, rows[j].id);
    LinkedSymmetric(all, rows[i].id, rows[j].id);
    forall a, b | 0 <= a < |rows| && 0 <= b < |rows| && next[a] == next[b]
      ensures Linked(all, rows[a].id, rows[b].id)
    {
      if rep[a] != rep[b] {
        if rep[a] == rep[i] {
          LinkedTransitive(all, rows[a].id, rows[i].id, rows[j].id);
          LinkedTransitive(all, rows[a].id, rows[j].id, rows[b].id);
        } else {
          LinkedTransitive(all, rows[a].id, rows[j].id, rows[i].id);
          LinkedTransitive(all, rows[a].id, rows[i].id, rows[b].id);
        }
      }
    }
  }

  ghost function IndexOf(rows: seq<Member>, id: Id): (i: nat)
    requires id in Ids(rows)
    ensures i < |rows| && rows[i].id == id
  {
    var i: nat :| i < |rows| && rows[i].id == id;
    i
  }

  /** The end points of every overlap have the same root. */
  ghost predicate Closed(rows: seq<Member>, rep: seq<nat>)
    requires |rep| == |rows|
  {
    forall a, b | 0 <= b < a < |rows| && Overlap(rows[a].row, rows[b].row) :: rep[a] == rep[b]
  }

  /** Then a path never leaves its root. */
  lemma {:induction false} PathKeepsRoot(rows: seq<Member>, rep: seq<nat>, path: seq<Id>, a: nat, b: nat)
    requires DistinctIds(rows) && |rep| == |rows| && Closed(rows, rep)
    requires IsPath(ById(rows), path)
    requires a < |rows| && b < |rows| && path[0] == rows[a].id && path[|path| - 1] == rows[b].id
    ensures rep[a] == rep[b]
    decreases |path|
  {
    if |path| > 1 {
      assert path[1] in ById(rows);
      var c := IndexOf(rows, path[1]);
      assert ById(rows)[path[0]] == rows[a].row && ById(rows)[path[1]] == rows[c].row;
      assert Overlap(rows[a].row, rows[c].row) && Overlap(rows[c].row, rows[a].row);
      assert IsPath(ById(rows), path[1..]) by {
        forall i | 0 <= i < |path[1..]| - 1
          ensures Overlap(ById(rows)[path[1..][i]], ById(rows)[path[1..][i + 1]])
        {
          assert path[1..][i] == path[i + 1] && path[1..][i + 1] == path[i + 2];
        }
      }
      PathKeepsRoot(rows, rep, path[1..], c, b);
    }
  }

  lemma RootsAreComponents(rows: seq<Member>, rep: seq<nat>)
    requires DistinctIds(rows) && |rep| == |rows| && Sound(rows, rep) && Closed(rows, rep)
    ensures RootsRight(rows, rep)
  {
    forall a: nat, b: nat | a < |rows| && b < |rows| && Linked(ById(rows), rows[a].id, rows[b].id)
      ensures rep[a] == rep[b]
    {
      var path :| IsPath(ById(rows), path) && path[0] == rows[a].id && path[|path| - 1] == rows[b].id;
      PathKeepsRoot(rows, rep, path, a, b);
    }
  }

  // ---------------------------------------------------------------- grouping

  /** The ids whose root is `r`. */
  ghost function Under(rows: seq<Member>, rep: seq<nat>, r: nat): set<Id>
    requires |rows| == |rep|
  {
    set k | 0 <= k < |rows| && rep[k] == r :: rows[k].id
  }

  lemma {:induction false} SelectAppend(rows: seq<Member>, m: Member, ids: set<Id>)
    ensures Select(rows + [m], ids) == Select(rows, ids) + if m.id in ids then [m] else []
  {
    if rows == [] {
      assert rows + [m] == [m];
    } else {
      assert (rows + [m])[1..] == rows[1..] + [m];
      SelectAppend(rows[1..], m, ids);
    }
  }

  lemma TailIds(rows: seq<Member>)
    requires rows != [] && DistinctIds(rows)
    ensures DistinctIds(rows[1..])
    ensures Ids(rows) == {rows[0].id} + Ids(rows[1..]) && rows[0].id !in Ids(rows[1..])
  {
  }

  lemma {:induction false} SelectIds(rows: seq<Member>, ids: set<Id>)
    ensures Ids(Select(rows, ids)) == ids * Ids(rows)
  {
    if rows != [] {
      SelectIds(rows[1..], ids);
      assert rows == [rows[0]] + rows[1..];
      ConsIds(rows[0], rows[1..]);
      ConsIds(rows[0], Select(rows[1..], ids));
      if rows[0].id !in ids {
        assert Select(rows, ids) == Select(rows[1..], ids);
      }
    }
  }

  lemma {:induction false} SelectCount(rows: seq<Member>, ids: set<Id>)
    requires DistinctIds(rows)
    ensures |Select(rows, ids)| == |ids * Ids(rows)|
  {
    if rows != [] {
      TailIds(rows);
      SelectCount(rows[1..], ids);
      IntersectInsert(ids, rows[0].id, Ids(rows[1..]));
    }
  }

  lemma IntersectInsert(ids: set<Id>, a: Id, rest: set<Id>)
    requires a !in rest
    ensures |ids * ({a} + rest)| == (if a in ids then 1 else 0) + |ids * rest|
  {
    if a in ids {
      assert ids * ({a} + rest) == {a} + ids * rest;
    } else {
      assert ids * ({a} + rest) == ids * rest;
    }
  }

  lemma ConsIds(m: Member, tail: seq<Member>)
    ensures Ids([m] + tail) == {m.id} + Ids(tail)
  {
  }

  /** Roots stand for components: the ids under a root are the component of each of them. */
  lemma UnderIsGroup(rows: seq<Member>, rep: seq<nat>, a: nat)
    requires DistinctIds(rows) && |rep| == |rows| && a < |rows| && RootsRight(rows, rep)
    ensures Under(rows, rep, rep[a]) == GroupOf(ById(rows), rows[a].id)
  {
  }

  ghost predicate CollectedUpTo(rows: seq<Member>, rep: seq<nat>, n: nat, byRoot: map<nat, seq<Member>>)
    requires n <= |rows| == |rep|
  {
    && byRoot.Keys == (set k | 0 <= k < n :: rep[k])
    && (forall r | r in byRoot :: byRoot[r] == Pick(rows, rep, n, r))
    && (forall r | r !in byRoot :: Pick(rows, rep, n, r) == [])
  }

  /** The rows with root `r`, in row order. */
  ghost function Pick(rows: seq<Member>, rep: seq<nat>, n: nat, r: nat): seq<Member>
    requires n <= |rows| == |rep|
  {
    if n == 0 then [] else Pick(rows, rep, n - 1, r) + if rep[n - 1] == r then [rows[n - 1]] else []
  }

  lemma {:induction false} PickIsSelect(rows: seq<Member>, rep: seq<nat>, n: nat, r: nat)
    requires DistinctIds(rows) && n <= |rows| == |rep|
    ensures Pick(rows, rep, n, r) == Select(rows[..n], Under(rows, rep, r))
  {
    if n > 0 {
      PickIsSelect(rows, rep, n - 1, r);
      assert rows[..n] == rows[..n - 1] + [rows[n - 1]];
      SelectAppend(rows[..n - 1], rows[n - 1], Under(rows, rep, r));
    }
  }

  ghost predicate RootsRight(rows: seq<Member>, rep: seq<nat>)
    requires DistinctIds(rows) && |rep| == |rows|
  {
    forall i, j | 0 <= i < |rows| && 0 <= j < |rows| ::
      rep[i] == rep[j] <==> Linked(ById(rows), rows[i].id, rows[j].id)
  }

  /** The groups the roots describe. */
  ghost function Shared(rows: seq<Member>, rep: seq<nat>): set<set<Id>>
    requires |rep| == |rows|
  {
    set k | 0 <= k < |rows| && |Under(rows, rep, rep[k])| > 1 :: Under(rows, rep, rep[k])
  }

  lemma CollectedIsGroup(rows: seq<Member>, rep: seq<nat>, byRoot: map<nat, seq<Member>>, r: nat)
    requires DistinctIds(rows) && |rep| == |rows| && CollectedUpTo(rows, rep, |rows|, byRoot)
    requires r in byRoot
    ensures byRoot[r] == Select(rows, Ids(byRoot[r]))
    ensures Ids(byRoot[r]) == Under(rows, rep, r)
    ensures |byRoot[r]| > 1 <==> Ids(byRoot[r]) in Shared(rows, rep)
  {
    var g := Under(rows, rep, r);
    PickIsSelect(rows, rep, |rows|, r);
    assert rows[..|rows|] == rows;
    SelectIds(rows, g);
    SelectCount(rows, g);
    assert g * Ids(rows) == g;
    var k: nat :| k < |rows| && rep[k] == r;
  }

  /** The final dictionary comprehension: drop singletons, key each group by its ids. */
  method Publish(rows: seq<Member>, ghost rep: seq<nat>, byRoot: map<nat, seq<Member>>)
    returns (groups: map<set<Id>, seq<Member>>)
    requires DistinctIds(rows) && |rep| == |rows| && CollectedUpTo(rows, rep, |rows|, byRoot)
    ensures groups.Keys == Shared(rows, rep)
    ensures forall g | g in groups :: groups[g] == Select(rows, g)
  {
    forall r | r in byRoot
      ensures byRoot[r] == Select(rows, Ids(byRoot[r])) && Ids(byRoot[r]) == Under(rows, rep, r)
      ensures |byRoot[r]| > 1 <==> Ids(byRoot[r]) in Shared(rows, rep)
    {
      CollectedIsGroup(rows, rep, byRoot, r);
    }
    groups := map r | r in byRoot && |byRoot[r]| > 1 :: Ids(byRoot[r]) := byRoot[r];
    forall g | g in Shared(rows, rep) ensures g in groups {
      var k :| 0 <= k < |rows| && g == Under(rows, rep, rep[k]);
      assert rep[k] in byRoot;
    }
  }

  lemma RootIsGroup(rows: seq<Member>, rep: seq<nat>, k: nat)
    requires DistinctIds(rows) && |rep| == |rows| && k < |rows| && RootsRight(rows, rep)
    ensures var g := Under(rows, rep, rep[k]);
            g == GroupOf(ById(rows), rows[k].id) && (|g| > 1 <==> g != {rows[k].id})
  {
    var all := ById(rows);
    UnderIsGroup(rows, rep, k);
    assert rows[k].id in all;
    LinkedReflexive(all, rows[k].id);
    if GroupOf(all, rows[k].id) != {rows[k].id} {
      AtLeastTwo(GroupOf(all, rows[k].id), rows[k].id);
    }
  }

  lemma SharedAreGroups(rows: seq<Member>, rep: seq<nat>)
    requires DistinctIds(rows) && |rep| == |rows| && RootsRight(rows, rep)
    ensures Shared(rows, rep) == Groups(ById(rows))
  {
    var all := ById(rows);
    forall g | g in Groups(all) ensures g in Shared(rows, rep) {
      var id :| id in all && GroupOf(all, id) != {id} && g == GroupOf(all, id);
      RootIsGroup(rows, rep, IndexOf(rows, id));
    }
    forall g | g in Shared(rows, rep) ensures g in Groups(all) {
      var k: nat :| k < |rows| && |Under(rows, rep, rep[k])| > 1 && g == Under(rows, rep, rep[k]);
      RootIsGroup(rows, rep, k);
      assert rows[k].id in all;
    }
  }

  lemma AtLeastTwo(s: set<Id>, a: Id)
    requires a in s && s != {a}
    ensures |s| > 1
  {
    var b :| b in s && b != a;
    assert |s - {a}| == |s| - 1 && b in s - {a};
  }

  /** All overlaps joined: the roots are the components. */
  lemma JoinsGiveGroups(rows: seq<Member>, joins: seq<(nat, nat)>)
    requires DistinctIds(rows) && Overlapping(rows, joins) && Examined(rows, joins, |rows|, 0)
    ensures Shared(rows, MergeAll(|rows|, joins)) == Groups(ById(rows))
  {
    var rep := MergeAll(|rows|, joins);
    MergeAllSound(rows, joins);
    forall a: nat, b: nat | b < a < |rows| && Overlap(rows[a].row, rows[b].row) ensures rep[a] == rep[b] {
      JoinsShareRoot(|rows|, joins, (a, b));
    }
    RootsAreComponents(rows, rep);
    SharedAreGroups(rows, rep);
  }

  /** The double loop over pairs of rows. */
  method Connect(rows: seq<Member>)
    returns (parents: array<nat>, ghost joins: seq<(nat, nat)>, ghost rank: seq<nat>, ghost top: nat)
    ensures fresh(parents) && parents.Length == |rows|
    ensures Overlapping(rows, joins) && Examined(rows, joins, |rows|, 0)
    ensures Forest(parents[..], MergeAll(|rows|, joins), rank) && Below(rank, top)
  {
    parents := new nat[|rows|](k => k);
    joins, rank, top := [], seq(|rows|, k => 0), 0;
    for i := 0 to |rows|
      invariant parents.Length == |rows|
      invariant Overlapping(rows, joins) && Examined(rows, joins, i, 0)
      invariant Forest(parents[..], MergeAll(|rows|, joins), rank) && Below(rank, top)
    {
      for j := 0 to i
        invariant parents.Length == |rows|
        invariant Overlapping(rows, joins) && Examined(rows, joins, i, j)
        invariant Forest(parents[..], MergeAll(|rows|, joins), rank) && Below(rank, top)
      {
        if Overlap(rows[i].row, rows[j].row) {
          ghost var rep;
          rep, rank, top := Join(parents, i, j, MergeAll(|rows|, joins), rank, top);
          assert (joins + [(i, j)])[..|joins|] == joins;
          joins := joins + [(i, j)];
        }
      }
    }
  }

  /** `parents[root(i)] = root(j)`. */
  method Join(parents: array<nat>, i: nat, j: nat, ghost rep: seq<nat>, ghost rank: seq<nat>, ghost top: nat)
    returns (ghost rep1: seq<nat>, ghost rank1: seq<nat>, ghost top1: nat)
    requires i < parents.Length && j < parents.Length
    requires Forest(parents[..], rep, rank) && Below(rank, top)
    modifies parents
    ensures Forest(parents[..], rep1, rank1) && Below(rank1, top1)
    ensures rep1 == Merged(rep, rep[i], rep[j])
  {
    var rj := Root(parents, j, rep, rank, top);
    var ri := Root(parents, i, rep, rank, top);
    ghost var before := parents[..];
    parents[ri] := rj;
    assert parents[..] == before[ri := rj];
    if ri != rj {
      LinkRoots(before, rep, rank, ri, rj);
      rank1 := rank[rj := if rank[rj] <= rank[ri] then rank[ri] + 1 else rank[rj]];
      rep1, top1 := Merged(rep, ri, rj), top + 1;
    } else {
      assert parents[..] == before;
      rep1, rank1, top1 := rep, rank, top;
      assert Merged(rep, ri, rj) == rep;
    }
  }

  /** Terminates with the forest's rank as measure, and returns, in any order of the rows,
      exactly the connected components of size over one, each with its rows in row order.
      A group's key is a digest of its sorted ids; it is modelled as the set of the ids. */
  method ConflictGroups(rows: seq<Member>) returns (groups: map<set<Id>, seq<Member>>)
    requires DistinctIds(rows)
    ensures groups.Keys == Groups(ById(rows))
    ensures forall g | g in groups :: groups[g] == Select(rows, g)
  {
    var parents: array<nat>;
    ghost var joins, rank, top;
    parents, joins, rank, top := Connect(rows);
    ghost var rep := MergeAll(|rows|, joins);
    JoinsGiveGroups(rows, joins);
    var byRoot := Collect(rows, parents, rep, rank, top);
    groups := Publish(rows, rep, byRoot);
  }

  /** `groups.setdefault(root(i), []).append(row)`. */
  method Collect(rows: seq<Member>, parents: array<nat>, ghost rep: seq<nat>, ghost rank: seq<nat>, ghost top: nat)
    returns (byRoot: map<nat, seq<Member>>)
    requires parents.Length == |rows| == |rep|
    requires Forest(parents[..], rep, rank) && Below(rank, top)
    modifies parents
    ensures CollectedUpTo(rows, rep, |rows|, byRoot)
  {
    byRoot := map[];
    assert CollectedUpTo(rows, rep, 0, byRoot);
    hide Forest, CollectedUpTo;
    for i := 0 to |rows|
      invariant Forest(parents[..], rep, rank) && Below(rank, top)
      invariant CollectedUpTo(rows, rep, i, byRoot)
    {
      var r := Root(parents, i, rep, rank, top);
      NextRow(rows, rep, i, byRoot);
      byRoot := byRoot[r := (if r in byRoot then byRoot[r] else []) + [rows[i]]];
    }
  }

  lemma NextRow(rows: seq<Member>, rep: seq<nat>, i: nat, byRoot: map<nat, seq<Member>>)
    requires i < |rows| == |rep| && CollectedUpTo(rows, rep, i, byRoot)
    ensures var listed := if rep[i] in byRoot then byRoot[rep[i]] else [];
            CollectedUpTo(rows, rep, i + 1, byRoot[rep[i] := listed + [rows[i]]])
  {
  }
}
