/** Listing the recovery journal page by page while new locators are published. */
module Journal {
  import opened Basics
  import opened Ordering

  const MAX_ENTRIES: nat := 4096
  const SUFFIX := ".json"

  /** A journal file read back: the nonce of its locator, or nothing that decodes. */
  datatype Stored = Corrupt | Locator(nonce: Id)

  datatype Listed = Page(nonces: seq<Id>, next: Option<Id>) | Invalid | ScanLimit

  function FileOf(nonce: Id): string {
    nonce + SUFFIX
  }

  function Stem(name: string): Id {
    if |name| < |SUFFIX| then "" else name[..|name| - |SUFFIX|]
  }

  /** A name the scan lets through. */
  predicate ProperName(name: string) {
    name == FileOf(Stem(name)) && IsId(Stem(name))
  }

  /** Every file has a proper name and decodes to the locator its name promises. */
  predicate Clean(dir: map<string, Stored>) {
    forall name | name in dir :: ProperName(name) && dir[name] == Locator(Stem(name))
  }

  function Nonces(dir: map<string, Stored>): set<Id> {
    set name | name in dir && ProperName(name) :: Stem(name)
  }

  function Later(dir: map<string, Stored>, after: Option<Id>): set<Id> {
    set n | n in Nonces(dir) && (after.Some? ==> LexLess(after.value, n))
  }

  /** The entries are sorted by file name, not by nonce. */
  predicate FileLess(a: Id, b: Id) {
    LexLess(FileOf(a), FileOf(b))
  }

  ghost predicate ByFile(nonces: seq<Id>) {
    forall i, j | 0 <= i < j < |nonces| :: FileLess(nonces[i], nonces[j])
  }

  ghost predicate Enumerates(nonces: seq<Id>, of: set<Id>) {
    ByFile(nonces) && forall n :: n in nonces <==> n in of
  }

  function Cut(all: seq<Id>, limit: nat): seq<Id> {
    all[..if |all| < limit then |all| else limit]
  }

  /** A page: the first entries beyond the cursor, and a cursor exactly when more remain. */
  ghost predicate IsPage(dir: map<string, Stored>, after: Option<Id>, limit: nat, nonces: seq<Id>, next: Option<Id>) {
    exists all ::
      && Enumerates(all, Later(dir, after))
      && nonces == Cut(all, limit)
      && next == if |all| > limit && limit > 0 then Some(all[limit - 1]) else None
  }

  // ---------------------------------------------------------------- reading one page

  /** `entries` is the order in which the directory is scanned. */
  ghost predicate Scans(entries: seq<string>, dir: map<string, Stored>) {
    forall name :: name in entries <==> name in dir
  }

  /** The scan gives up at the first entry over the limit, unless it met an improper name before. */
  predicate OverLimit(entries: seq<string>) {
    |entries| > MAX_ENTRIES && forall i | 0 <= i < MAX_ENTRIES :: ProperName(entries[i])
  }

  predicate Misnamed(entries: seq<string>) {
    exists i | 0 <= i < |entries| && i < MAX_ENTRIES :: !ProperName(entries[i])
  }

  /** `sorted(names)`. */
  method Sort(names: set<string>) returns (sorted: seq<string>)
    ensures forall i, j | 0 <= i < j < |sorted| :: LexLess(sorted[i], sorted[j])
    ensures forall name :: name in sorted <==> name in names
  {
    var at := map name | name in names :: 0;
    sorted := OrderBySequence(names, at);
    forall i, j | 0 <= i < j < |sorted| ensures LexLess(sorted[i], sorted[j]) {
      assert Earlier(at, sorted[i], sorted[j]);
    }
  }

  method ScanNames(entries: seq<string>) returns (refusal: Option<Listed>)
    ensures refusal == Some(ScanLimit) <==> OverLimit(entries)
    ensures refusal == Some(Invalid) <==> Misnamed(entries)
    ensures refusal == None ==> forall name | name in entries :: ProperName(name)
    ensures refusal == None || refusal == Some(ScanLimit) || refusal == Some(Invalid)
  {
    hide ProperName;
    for i := 0 to |entries|
      invariant i <= MAX_ENTRIES && forall k | 0 <= k < i :: ProperName(entries[k])
    {
      if i >= MAX_ENTRIES { return Some(ScanLimit); }
      if !ProperName(entries[i]) { return Some(Invalid); }
    }
    refusal := None;
  }

  lemma StemOfFile(n: Id)
    ensures Stem(FileOf(n)) == n
  {
  }

  predicate Beyond(n: Id, after: Option<Id>) {
    after.Some? ==> LexLess(after.value, n)
  }

  /** `all` is what the sorted names select beyond the cursor. */
  ghost predicate Selects(all: seq<Id>, names: seq<string>, after: Option<Id>) {
    ByFile(all) && forall n :: n in all <==> FileOf(n) in names && Beyond(n, after)
  }

  function WithNext(all: seq<Id>, name: string, after: Option<Id>): seq<Id> {
    if Beyond(Stem(name), after) then all + [Stem(name)] else all
  }

  ghost predicate AllBelow(names: seq<string>, name: string) {
    forall k | 0 <= k < |names| :: LexLess(names[k], name)
  }

  lemma SelectsOneMore(all: seq<Id>, names: seq<string>, name: string, after: Option<Id>)
    requires Selects(all, names, after) && ProperName(name) && AllBelow(names, name)
    ensures Selects(WithNext(all, name, after), names + [name], after)
  {
  }

  lemma SelectsLater(dir: map<string, Stored>, names: seq<string>, all: seq<Id>, after: Option<Id>)
    requires Lists(names, dir) && Selects(all, names, after)
    ensures Enumerates(all, Later(dir, after))
  {
  }

  /** `_page`: the scan first, then every entry is validated, also those outside the page. */
  method ReadPage(dir: map<string, Stored>, entries: seq<string>, after: Option<Id>, limit: nat) returns (r: Listed)
    requires limit >= 1 && Scans(entries, dir)
    ensures r == ScanLimit <==> OverLimit(entries)
    ensures r == Invalid <==> Misnamed(entries) || (!OverLimit(entries) && !Clean(dir))
    ensures r.Page? ==> IsPage(dir, after, limit, r.nonces, r.next)
  {
    hide OverLimit, Misnamed, ProperName, LexLess, FileLess, Stem, FileOf, Later;
    var refusal := ScanNames(entries);
    if refusal == Some(ScanLimit) { return ScanLimit; }
    if refusal == Some(Invalid) { return Invalid; }
    var names := Sort(dir.Keys);
    assert Lists(names, dir);
    var selected, valid, all := Validated(dir, names, after, limit);
    if !valid { return Invalid; }
    var more := |selected| > limit;
    var page := if more then selected[..limit] else selected;
    assert page == Cut(all, limit);
    r := Page(page, if more then Some(selected[limit - 1]) else None);
  }

  /** `names` are the files of `dir`, all with proper names, sorted. */
  ghost predicate Lists(names: seq<string>, dir: map<string, Stored>) {
    && (forall name | name in dir :: ProperName(name))
    && (forall name :: name in names <==> name in dir)
    && (forall i, j | 0 <= i < j < |names| :: LexLess(names[i], names[j]))
  }

  /** Each of `names` decodes to the locator it promises. */
  ghost predicate Valid(names: seq<string>, dir: map<string, Stored>) {
    forall k | 0 <= k < |names| :: names[k] in dir && dir[names[k]] == Locator(Stem(names[k]))
  }

  lemma ListedNext(names: seq<string>, dir: map<string, Stored>, i: nat)
    requires Lists(names, dir) && i < |names|
    ensures names[i] in dir && ProperName(names[i]) && names[..i + 1] == names[..i] + [names[i]]
    ensures AllBelow(names[..i], names[i])
  {
  }

  lemma ValidNext(names: seq<string>, dir: map<string, Stored>, name: string)
    requires Valid(names, dir) && name in dir && dir[name] == Locator(Stem(name))
    ensures Valid(names + [name], dir)
  {
  }

  /** The loop over the sorted names; `all` is what it would select without the limit. */
  method Validated(dir: map<string, Stored>, names: seq<string>, after: Option<Id>, limit: nat)
    returns (selected: seq<Id>, valid: bool, ghost all: seq<Id>)
    requires Lists(names, dir)
    ensures valid <==> Clean(dir)
    ensures valid ==> Enumerates(all, Later(dir, after)) && selected == Cut(all, limit + 1)
  {
    all, selected := [], [];
    assert names[..0] == [] && Selects([], [], after) && Valid([], dir) && Cut(all, limit + 1) == [];
    hide *;
    ghost var done: seq<string> := [];
    for i := 0 to |names|
      invariant done == names[..i] && Valid(done, dir) && Selects(all, done, after)
      invariant selected == Cut(all, limit + 1)
    {
      ListedNext(names, dir, i);
      var name := names[i];
      var nonce := Stem(name);
      if dir[name] != Locator(nonce) {
        NotClean(dir, name);
        return selected, false, all;
      }
      ValidNext(done, dir, name);
      SelectsOneMore(all, done, name, after);
      CutOneMore(all, name, after, limit);
      all, done := WithNext(all, name, after), done + [name];
      if Beyond(nonce, after) && |selected| <= limit {
        selected := selected + [nonce];
      }
    }
    assert done == names;
    AllValid(dir, names);
    SelectsLater(dir, names, all, after);
    valid := true;
  }

  lemma CutOneMore(all: seq<Id>, name: string, after: Option<Id>, limit: nat)
    ensures var selected := Cut(all, limit + 1);
            Cut(WithNext(all, name, after), limit + 1)
              == if Beyond(Stem(name), after) && |selected| <= limit then selected + [Stem(name)] else selected
  {
  }

  lemma AllValid(dir: map<string, Stored>, names: seq<string>)
    requires Lists(names, dir) && Valid(names, dir)
    ensures Clean(dir)
  {
  }

  lemma NotClean(dir: map<string, Stored>, name: string)
    requires name in dir && dir[name] != Locator(Stem(name))
    ensures !Clean(dir)
  {
  }

  // ---------------------------------------------------------------- file order and nonce order

  /** The longer nonce goes on with `-`, the one character of an id that sorts before the `.` of the suffix. */
  predicate Shadows(a: Id, b: Id) {
    |a| < |b| && b[..|a|] == a && b[|a|] == '-'
  }

  ghost predicate NoneShadowed(nonces: set<Id>) {
    forall a, b | a in nonces && b in nonces :: !Shadows(a, b)
  }

  /** The ids one daemon draws all have the same length, so none goes on where another ends. */
  lemma SameLengthsDoNotShadow(nonces: set<Id>, length: nat)
    requires forall n | n in nonces :: |n| == length
    ensures NoneShadowed(nonces)
  {
  }

  ghost predicate IdChars(n: Id) {
    forall i | 0 <= i < |n| :: IdChar(n[i])
  }

  lemma FileOfTail(n: Id)
    requires n != ""
    ensures FileOf(n)[1..] == FileOf(n[1..]) && FileOf(n)[0] == n[0]
  {
  }

  lemma TailsShadow(a: Id, b: Id)
    requires a != "" && b != "" && a[0] == b[0]
    ensures Shadows(a[1..], b[1..]) <==> Shadows(a, b)
  {
  }

  /** Files are listed in the order of their nonces, except that a shadowed nonce comes after the one that
      continues it. */
  lemma {:induction false} FileOrder(a: Id, b: Id)
    requires IdChars(a) && IdChars(b)
    ensures !Shadows(a, b) && !Shadows(b, a) ==> (FileLess(a, b) <==> LexLess(a, b))
    ensures Shadows(a, b) ==> LexLess(a, b) && FileLess(b, a)
    decreases |a|
  {
    if a != "" && b != "" {
      FileOfTail(a);
      FileOfTail(b);
      if a[0] == b[0] {
        TailsShadow(a, b);
        TailsShadow(b, a);
        FileOrder(a[1..], b[1..]);
      } else {
        assert !Shadows(a, b) && !Shadows(b, a);
      }
    } else {
      assert FileOf("") == SUFFIX;
      LexTotal(FileOf(a), FileOf(b));
      if a != "" { FileOfTail(a); }
      if b != "" { FileOfTail(b); }
    }
  }

  lemma NoncesAreIds(dir: map<string, Stored>)
    ensures forall n | n in Nonces(dir) :: IsId(n) && IdChars(n)
  {
  }

  ghost predicate Ascending(nonces: seq<Id>) {
    forall i, j | 0 <= i < j < |nonces| :: LexLess(nonces[i], nonces[j])
  }

  lemma FileOrderAscends(dir: map<string, Stored>, all: seq<Id>)
    requires ByFile(all) && NoneShadowed(Nonces(dir)) && forall n | n in all :: n in Nonces(dir)
    ensures Ascending(all)
  {
    hide FileLess, LexLess, Shadows, IdChars;
    NoncesAreIds(dir);
    forall i, j | 0 <= i < j < |all| ensures LexLess(all[i], all[j]) {
      assert all[i] in Nonces(dir) && all[j] in Nonces(dir);
      FileOrder(all[i], all[j]);
    }
  }

  // ---------------------------------------------------------------- following the cursors

  /** One page read and the journal it read; entries are only ever added. */
  datatype Visit = Visit(dir: map<string, Stored>, nonces: seq<Id>, next: Option<Id>)

  ghost predicate Chain(visits: seq<Visit>, after: Option<Id>, limit: nat)
    decreases |visits|
  {
    && visits != []
    && IsPage(visits[0].dir, after, limit, visits[0].nonces, visits[0].next)
    && if visits[0].next == None then |visits| == 1
       else |visits| > 1 && visits[0].dir.Keys <= visits[1].dir.Keys && Chain(visits[1..], visits[0].next, limit)
  }

  function Emitted(visits: seq<Visit>): seq<Id> {
    if visits == [] then [] else visits[0].nonces + Emitted(visits[1..])
  }

  lemma CutSplits(all: seq<Id>, limit: nat)
    requires limit >= 1 && Ascending(all)
    ensures Ascending(Cut(all, limit))
    ensures |all| > limit ==> Cut(all, limit) != [] && Cut(all, limit)[|Cut(all, limit)| - 1] == all[limit - 1]
    ensures |all| > limit ==> forall n | n in all :: n in Cut(all, limit) || LexLess(all[limit - 1], n)
  {
  }

  lemma PageSplits(dir: map<string, Stored>, after: Option<Id>, limit: nat, nonces: seq<Id>, next: Option<Id>)
    requires limit >= 1 && IsPage(dir, after, limit, nonces, next) && NoneShadowed(Nonces(dir))
    ensures Ascending(nonces) && forall n | n in nonces :: n in Later(dir, after)
    ensures next == None ==> forall n | n in Later(dir, after) :: n in nonces
    ensures next.Some? ==> nonces != [] && nonces[|nonces| - 1] == next.value
    ensures next.Some? ==> forall n | n in Later(dir, after) :: n in nonces || LexLess(next.value, n)
  {
    var all :| && Enumerates(all, Later(dir, after))
               && nonces == Cut(all, limit)
               && next == if |all| > limit && limit > 0 then Some(all[limit - 1]) else None;
    hide FileLess, LexLess, Shadows, Nonces;
    FileOrderAscends(dir, all);
    CutSplits(all, limit);
  }

  lemma AscendingConcat(left: seq<Id>, right: seq<Id>)
    requires Ascending(left) && Ascending(right) && left != []
    requires forall n | n in right :: LexLess(left[|left| - 1], n)
    ensures Ascending(left + right)
  {
    var all := left + right;
    var pivot := left[|left| - 1];
    forall i, j | 0 <= i < j < |all| ensures LexLess(all[i], all[j]) {
      if i < |left| <= j {
        assert all[j] in right;
        if i < |left| - 1 { LexTransitive(left[i], pivot, all[j]); }
      }
    }
  }

  /** While other processes publish, a listing that follows the cursors to the end names every locator after
      its start that existed when it started, once, in order, provided no nonce shadows another. One that
      is published behind the cursor meanwhile may be missed. */
  lemma {:induction false} ListingMissesNothingOld(visits: seq<Visit>, after: Option<Id>, limit: nat)
    requires limit >= 1 && Chain(visits, after, limit) && forall v | v in visits :: NoneShadowed(Nonces(v.dir))
    ensures Ascending(Emitted(visits))
    ensures forall n | n in Emitted(visits) :: after.Some? ==> LexLess(after.value, n)
    ensures forall n | n in Later(visits[0].dir, after) :: n in Emitted(visits)
    decreases |visits|
  {
    var page, rest := visits[0], visits[1..];
    assert page in visits && forall v | v in rest :: v in visits;
    hide IsPage, Ascending, LexLess, Later, Enumerates, NoneShadowed;
    PageSplits(page.dir, after, limit, page.nonces, page.next);
    PageIsBeyond(page.dir, after, page.nonces);
    if page.next == None {
      assert rest == [] && Emitted(visits) == page.nonces;
    } else {
      var next := page.next.value;
      ListingMissesNothingOld(rest, page.next, limit);
      AscendingConcat(page.nonces, Emitted(rest));
      forall n | n in Emitted(rest) ensures after.Some? ==> LexLess(after.value, n) {
        if after.Some? {
          assert next in page.nonces;
          LexTransitive(after.value, next, n);
        }
      }
      forall n | n in Later(page.dir, after) ensures n in Emitted(visits) {
        if n !in page.nonces {
          StillListed(page.dir, rest[0].dir, after, next, n);
        }
      }
    }
  }

  lemma PageIsBeyond(dir: map<string, Stored>, after: Option<Id>, nonces: seq<Id>)
    requires forall n | n in nonces :: n in Later(dir, after)
    ensures forall n | n in nonces :: after.Some? ==> LexLess(after.value, n)
  {
  }

  lemma StillListed(dir: map<string, Stored>, dir1: map<string, Stored>, after: Option<Id>, next: Id, n: Id)
    requires dir.Keys <= dir1.Keys && n in Later(dir, after) && LexLess(next, n)
    ensures n in Later(dir1, Some(next))
  {
  }

  // ---------------------------------------------------------------- exactly when paging is complete

  /** Whatever the page size, each nonce is on the first page or beyond its cursor. */
  ghost predicate Complete(dir: map<string, Stored>) {
    forall limit, nonces, next, n | limit >= 1 && IsPage(dir, None, limit, nonces, next) && n in Nonces(dir) ::
      n in nonces || (next.Some? && LexLess(next.value, n))
  }

  function Inserted(all: seq<Id>, n: Id): seq<Id> {
    if all == [] then [n] else if FileLess(n, all[0]) then [n] + all else [all[0]] + Inserted(all[1..], n)
  }

  lemma FilesDiffer(a: Id, b: Id)
    requires a != b
    ensures FileLess(a, b) || FileLess(b, a)
  {
    assert FileOf(a)[..|a|] == a && FileOf(b)[..|b|] == b;
    assert |FileOf(a)| == |FileOf(b)| ==> FileOf(a) != FileOf(b);
    LexTotal(FileOf(a), FileOf(b));
  }

  lemma {:induction false} InsertedIsSorted(all: seq<Id>, n: Id)
    requires ByFile(all) && n !in all
    ensures ByFile(Inserted(all, n)) && forall m :: m in Inserted(all, n) <==> m in all || m == n
  {
    hide FileLess;
    if all != [] {
      assert all == [all[0]] + all[1..];
      FilesDiffer(n, all[0]);
      if FileLess(n, all[0]) {
        forall i | 0 < i < |all| ensures FileLess(n, all[i]) {
          LexTransitive(FileOf(n), FileOf(all[0]), FileOf(all[i])) by { FileLessIs(n, all[0]); FileLessIs(all[0], all[i]); }
          FileLessIs(n, all[i]);
        }
      } else {
        InsertedIsSorted(all[1..], n);
        var rest := Inserted(all[1..], n);
        forall m | m in rest ensures FileLess(all[0], m) {
          if m != n {
            var k :| 0 <= k < |all[1..]| && all[1..][k] == m;
            assert all[k + 1] == m;
          }
        }
      }
    }
  }

  lemma FileLessIs(a: Id, b: Id)
    ensures FileLess(a, b) <==> LexLess(FileOf(a), FileOf(b))
  {
  }

  lemma {:induction false} CanBeSorted(of: set<Id>) returns (all: seq<Id>)
    ensures Enumerates(all, of)
  {
    all := [];
    if of != {} {
      var n :| n in of;
      var rest := CanBeSorted(of - {n});
      InsertedIsSorted(rest, n);
      all := Inserted(rest, n);
    }
  }

  /** Paging the journal reaches every locator if and only if no nonce shadows another: the cursor compares
      nonces where the listing compares file names. */
  lemma PagingIsCompleteIff(dir: map<string, Stored>)
    ensures Complete(dir) <==> NoneShadowed(Nonces(dir))
  {
    hide IsPage, FileLess, LexLess, Shadows;
    if NoneShadowed(Nonces(dir)) {
      forall limit: nat, nonces, next, n | limit >= 1 && IsPage(dir, None, limit, nonces, next) && n in Nonces(dir)
        ensures n in nonces || (next.Some? && LexLess(next.value, n))
      {
        PageSplits(dir, None, limit, nonces, next);
        assert n in Later(dir, None);
      }
    } else {
      var a, b :| a in Nonces(dir) && b in Nonces(dir) && Shadows(a, b);
      var limit, nonces := ShadowedIsMissed(dir, a, b);
    }
  }

  /** The page that ends with the longer nonce leaves the shadowed one behind its cursor. */
  lemma ShadowedIsMissed(dir: map<string, Stored>, a: Id, b: Id) returns (limit: nat, nonces: seq<Id>)
    requires a in Nonces(dir) && b in Nonces(dir) && Shadows(a, b)
    ensures limit >= 1 && IsPage(dir, None, limit, nonces, Some(b)) && a !in nonces && !LexLess(b, a)
  {
    NoncesAreIds(dir);
    FileOrder(a, b);
    LexTotal(a, b);
    assert Later(dir, None) == Nonces(dir);
    hide *;
    var all := CanBeSorted(Nonces(dir));
    var i := EnumeratedAt(all, Nonces(dir), b);
    var j := EnumeratedAt(all, Nonces(dir), a);
    SortedPositions(all, i, j);
    limit, nonces := i + 1, all[..i + 1];
    CutAt(dir, all, i);
  }

  /** Two proper nonces of different lengths are enough. */
  lemma PagingMissesALocator()
    ensures var a, b := "gnt_0001", "gnt_0001-2";
            var dir := map[FileOf(a) := Locator(a), FileOf(b) := Locator(b)];
            Clean(dir) && !Complete(dir)
  {
    var a, b := "gnt_0001", "gnt_0001-2";
    var dir := map[FileOf(a) := Locator(a), FileOf(b) := Locator(b)];
    StemOfFile(a);
    StemOfFile(b);
    assert ProperName(FileOf(a)) && ProperName(FileOf(b));
    assert a in Nonces(dir) && b in Nonces(dir);
    assert Shadows(a, b);
    hide *;
    NotComplete(dir, a, b);
  }

  lemma NotComplete(dir: map<string, Stored>, a: Id, b: Id)
    requires a in Nonces(dir) && b in Nonces(dir) && Shadows(a, b)
    ensures !Complete(dir)
  {
    hide Nonces, Shadows;
    PagingIsCompleteIff(dir);
  }

  lemma EnumeratedAt(all: seq<Id>, of: set<Id>, n: Id) returns (i: nat)
    requires Enumerates(all, of) && n in of
    ensures i < |all| && all[i] == n && ByFile(all)
  {
    i :| 0 <= i < |all| && all[i] == n;
  }

  lemma SortedPositions(all: seq<Id>, i: nat, j: nat)
    requires ByFile(all) && i < |all| && j < |all| && FileLess(all[i], all[j])
    ensures i < j && all[j] !in all[..i + 1]
  {
    hide FileLess;
    Irreflexive(all[i], all[j]);
    forall k | 0 <= k <= i ensures all[k] != all[j] {
      Irreflexive(all[k], all[j]);
    }
  }

  lemma CutAt(dir: map<string, Stored>, all: seq<Id>, i: nat)
    requires Enumerates(all, Later(dir, None)) && i + 1 < |all|
    ensures IsPage(dir, None, i + 1, all[..i + 1], Some(all[i]))
  {
  }

  lemma Irreflexive(a: Id, b: Id)
    ensures !(FileLess(a, b) && FileLess(b, a)) && !FileLess(a, a)
  {
    LexTotal(FileOf(a), FileOf(b));
    LexTotal(FileOf(a), FileOf(a));
  }
}
