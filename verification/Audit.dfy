/** The MAC-chained audit log and its external anchor. */
module Audit {
  import opened Basics

  /** The nine authenticated fields of an event. The row number is not one of them. */
  datatype Payload = Payload(
    actor: string, eventSeq: nat, keyId: string, occurredAt: string, operation: string, decision: string,
    result: string, scope: string, target: string)

  /** HMAC is an injective function of the previous MAC and the payload; `Foreign` is any text
      that is no MAC under the key. */
  datatype Mac = Genesis | Tag(previous: Mac, payload: Payload) | Foreign(text: string)

  datatype Row = Row(number: int, payload: Payload, previous: Mac, mac: Mac)

  /** What reading the anchor file gives: nothing readable, no object of the right shape, or a
      number and a MAC text. */
  datatype File = Unreadable | Misshapen | Anchor(number: nat, mac: Mac)

  datatype Status =
    | Valid(events: nat, head: Mac)
    | Stale(events: nat, anchored: nat)
    | TailRollback(events: nat, anchored: nat)
    | Mismatch(events: nat)
    | AnchorMalformed(events: nat)
    | AnchorUnavailable(events: nat)
    | InvalidLink(first: int)
    | InvalidMac(first: int)

  predicate Reconcilable(s: Status) {
    s.Valid? || s.Stale?
  }

  function Payloads(rows: seq<Row>): seq<Payload> {
    seq(|rows|, i requires 0 <= i < |rows| => rows[i].payload)
  }

  /** The head of the chain over a list of payloads. */
  function ChainMac(payloads: seq<Payload>): Mac {
    if payloads == [] then Genesis else Tag(ChainMac(payloads[..|payloads| - 1]), payloads[|payloads| - 1])
  }

  /** Row `i` carries the MACs the chain demands. */
  predicate LinkedAt(rows: seq<Row>, i: nat)
    requires i < |rows|
  {
    rows[i].previous == ChainMac(Payloads(rows)[..i]) && rows[i].mac == ChainMac(Payloads(rows)[..i + 1])
  }

  ghost predicate Intact(rows: seq<Row>) {
    forall i | 0 <= i < |rows| :: LinkedAt(rows, i)
  }

  /** `ORDER BY audit_seq` over a primary key. */
  ghost predicate Numbered(rows: seq<Row>) {
    forall i, j | 0 <= i < j < |rows| :: rows[i].number < rows[j].number
  }

  function LastNumber(rows: seq<Row>): int {
    if rows == [] then 0 else rows[|rows| - 1].number
  }

  predicate IsHex(text: string) {
    |text| == 64 && forall i | 0 <= i < |text| :: '0' <= text[i] <= '9' || 'a' <= text[i] <= 'f'
  }

  /** `GENESIS` exactly at number zero, otherwise 64 hexadecimal digits. */
  predicate WellShaped(number: nat, mac: Mac) {
    if number == 0 then mac == Genesis
    else match mac
         case Genesis => false
         case Tag(_, _) => true
         case Foreign(text) => IsHex(text)
  }

  lemma HexIs(c: char)
    ensures c in "0123456789abcdef" <==> '0' <= c <= '9' || 'a' <= c <= 'f'
  {
    var digits := "0123456789abcdef";
    assert digits[0] == '0' && digits[1] == '1' && digits[2] == '2' && digits[3] == '3' && digits[4] == '4' && digits[5] == '5';
    assert digits[6] == '6' && digits[7] == '7' && digits[8] == '8' && digits[9] == '9' && digits[10] == 'a' && digits[11] == 'b';
    assert digits[12] == 'c' && digits[13] == 'd' && digits[14] == 'e' && digits[15] == 'f';
    if '0' <= c <= '9' {
      assert c as int - '0' as int < 10 && digits[c as int - '0' as int] == c;
    }
    if 'a' <= c <= 'f' {
      assert digits[10 + (c as int - 'a' as int)] == c;
    }
  }

  /** An anchor has the right shape exactly if it stands at zero with the genesis mark, or at an event with the
      MAC of one or with 64 characters of which each is a hexadecimal digit in lower case. */
  lemma ShapeMeans(number: nat, mac: Mac)
    ensures WellShaped(number, mac) <==>
              || (number == 0 && mac == Genesis)
              || (number > 0 && mac.Tag?)
              || (number > 0 && mac.Foreign? && |mac.text| == 64 && forall c | c in mac.text :: c in "0123456789abcdef")
  {
    if mac.Foreign? {
      forall i | 0 <= i < |mac.text| { HexIs(mac.text[i]); }
      assert IsHex(mac.text) <==> |mac.text| == 64 && forall i | 0 <= i < |mac.text| :: mac.text[i] in "0123456789abcdef";
    }
  }

  /** The MAC stored under a number; `None` if there is no such row. */
  ghost predicate StoredAt(rows: seq<Row>, number: int, mac: Mac) {
    exists row | row in rows :: row.number == number && row.mac == mac
  }

  ghost predicate Names(rows: seq<Row>, number: nat, mac: Mac) {
    if number == 0 then mac == Genesis else StoredAt(rows, number, mac)
  }

  /** What verification reports, case by case, in terms of the rows and the file alone. */
  ghost predicate Reports(rows: seq<Row>, file: File, s: Status) {
    match s
    case InvalidLink(first) =>
      exists i | 0 <= i < |rows| :: FirstBroken(rows, i) && rows[i].number == first
        && rows[i].previous != ChainMac(Payloads(rows)[..i])
    case InvalidMac(first) =>
      exists i | 0 <= i < |rows| :: FirstBroken(rows, i) && rows[i].number == first
        && rows[i].previous == ChainMac(Payloads(rows)[..i])
    case AnchorUnavailable(events) => Intact(rows) && events == |rows| && file == Unreadable
    case AnchorMalformed(events) =>
      Intact(rows) && events == |rows| && (file == Misshapen || (file.Anchor? && !WellShaped(file.number, file.mac)))
    case TailRollback(events, anchored) =>
      Intact(rows) && events == |rows| && Shaped(file) && anchored == file.number && file.number > LastNumber(rows)
    case Mismatch(events) =>
      Intact(rows) && events == |rows| && Shaped(file) && file.number <= LastNumber(rows)
      && !Names(rows, file.number, file.mac)
    case Stale(events, anchored) =>
      Intact(rows) && events == |rows| && Shaped(file) && anchored == file.number < LastNumber(rows)
      && Names(rows, file.number, file.mac)
    case Valid(events, head) =>
      Intact(rows) && events == |rows| && Shaped(file) && file.number == LastNumber(rows)
      && Names(rows, file.number, file.mac) && head == ChainMac(Payloads(rows))
  }

  predicate Shaped(file: File) {
    file.Anchor? && WellShaped(file.number, file.mac)
  }

  ghost predicate FirstBroken(rows: seq<Row>, i: nat)
    requires i < |rows|
  {
    !LinkedAt(rows, i) && forall j | 0 <= j < i :: LinkedAt(rows, j)
  }

  /** Every state of the rows and the file has exactly one report. */
  lemma ReportIsUnique(rows: seq<Row>, file: File, s: Status, t: Status)
    requires Reports(rows, file, s) && Reports(rows, file, t)
    ensures s == t
  {
  }

  /** One row of the verification loop. */
  lemma NextHead(rows: seq<Row>, i: nat)
    requires i < |rows|
    ensures ChainMac(Payloads(rows)[..i + 1]) == Tag(ChainMac(Payloads(rows)[..i]), rows[i].payload)
  {
    var p := Payloads(rows)[..i + 1];
    assert p[..|p| - 1] == Payloads(rows)[..i];
  }

  /** `_verify_audit_raw`, first part: one pass over the rows. */
  method VerifyChain(rows: seq<Row>) returns (broken: Option<Status>, head: Mac, last: int)
    ensures broken == None ==> Intact(rows) && head == ChainMac(Payloads(rows)) && last == LastNumber(rows)
    ensures broken.Some? ==> (broken.value.InvalidLink? || broken.value.InvalidMac?)
                             && forall file :: Reports(rows, file, broken.value)
  {
    broken, head, last := None, Genesis, 0;
    var count := 0;
    assert Payloads(rows)[..0] == [];
    while count < |rows|
      invariant 0 <= count <= |rows|
      invariant head == ChainMac(Payloads(rows)[..count])
      invariant forall j | 0 <= j < count :: LinkedAt(rows, j)
      invariant last == if count == 0 then 0 else rows[count - 1].number
    {
      hide Payloads, ChainMac;
      var row := rows[count];
      NextHead(rows, count);
      if row.previous != head {
        assert FirstBroken(rows, count);
        return Some(InvalidLink(row.number)), head, last;
      }
      if row.mac != Tag(head, row.payload) {
        assert FirstBroken(rows, count);
        return Some(InvalidMac(row.number)), head, last;
      }
      count, last := count + 1, row.number;
      head := row.mac;
    }
    assert Payloads(rows)[..count] == Payloads(rows);
  }

  /** `_verify_audit_raw`: the chain first, then the anchor against it. */
  method VerifyAudit(rows: seq<Row>, file: File) returns (s: Status)
    requires Numbered(rows)
    ensures Reports(rows, file, s)
  {
    hide Payloads, ChainMac, LinkedAt, StoredAt, WellShaped, Intact, LastNumber;
    var broken, head, last := VerifyChain(rows);
    if broken.Some? { return broken.value; }
    var count := |rows|;
    match file
    case Unreadable => return AnchorUnavailable(count);
    case Misshapen => return AnchorMalformed(count);
    case Anchor(number, mac) =>
      if !WellShaped(number, mac) { return AnchorMalformed(count); }
      if number > last { return TailRollback(count, number); }
      var anchored := StoredMac(rows, number);
      var names := if number == 0 then mac == Genesis else anchored == Some(mac);
      NamesIs(rows, number, mac, names);
      if !names { return Mismatch(count); }
      if number < last { return Stale(count, number); }
      s := Valid(count, head);
  }

  lemma NamesIs(rows: seq<Row>, number: nat, mac: Mac, names: bool)
    requires names == if number == 0 then mac == Genesis else StoredAt(rows, number, mac)
    ensures names == Names(rows, number, mac)
  {
  }

  /** `SELECT mac FROM audit_events WHERE audit_seq=?`. */
  method StoredMac(rows: seq<Row>, number: int) returns (r: Option<Mac>)
    requires Numbered(rows)
    ensures forall mac :: StoredAt(rows, number, mac) <==> r == Some(mac)
  {
    r := None;
    for i := 0 to |rows|
      invariant r == None ==> forall j | 0 <= j < i :: rows[j].number != number
      invariant r.Some? ==> exists j | 0 <= j < i :: rows[j].number == number && rows[j].mac == r.value
    {
      if rows[i].number == number {
        r := Some(rows[i].mac);
      }
    }
  }

  // ---------------------------------------------------------------- chain binding

  /** Backwards to GENESIS: equal heads mean equal histories. */
  lemma {:induction false} EqualHeadsEqualHistories(p: seq<Payload>, q: seq<Payload>)
    requires ChainMac(p) == ChainMac(q)
    ensures p == q
  {
    if p != [] && q != [] {
      EqualHeadsEqualHistories(p[..|p| - 1], q[..|q| - 1]);
      assert p == p[..|p| - 1] + [p[|p| - 1]] && q == q[..|q| - 1] + [q[|q| - 1]];
    }
  }

  /** The rows up to and including the anchored one. */
  ghost predicate UpTo(rows: seq<Row>, number: nat, n: nat) {
    n <= |rows| && (forall i | 0 <= i < n :: rows[i].number <= number) && (forall i | n <= i < |rows| :: number < rows[i].number)
  }

  ghost predicate Positive(rows: seq<Row>) {
    forall i | 0 <= i < |rows| :: rows[i].number > 0
  }

  lemma CutAfter(rows: seq<Row>, number: nat, n: nat, i: nat)
    requires Numbered(rows) && UpTo(rows, number, n) && i < |rows| && rows[i].number == number
    ensures n == i + 1
  {
    if i + 1 < |rows| {
      assert rows[i].number < rows[i + 1].number;
    }
  }

  lemma FirstOfCut(rows: seq<Row>, number: nat, n: nat)
    requires UpTo(rows, number, n)
    ensures n == 0 || (rows != [] && rows[0].number <= number)
  {
  }

  lemma NothingAtZero(rows: seq<Row>, n: nat)
    requires Numbered(rows) && UpTo(rows, 0, n)
    ensures n == 0 <==> Positive(rows)
  {
    FirstOfCut(rows, 0, n);
  }

  lemma ChainMacOfSome(payloads: seq<Payload>)
    ensures ChainMac(payloads) == Genesis <==> payloads == []
  {
  }

  lemma AnchoredRow(rows: seq<Row>, file: File, s: Status, n: nat)
    requires Numbered(rows) && Reports(rows, file, s) && Reconcilable(s) && file.number > 0
    requires UpTo(rows, file.number, n)
    ensures file.mac == ChainMac(Payloads(rows)[..n])
  {
    hide Payloads, ChainMac, UpTo, Numbered, WellShaped;
    var row :| row in rows && row.number == file.number && row.mac == file.mac;
    var i :| 0 <= i < |rows| && rows[i] == row;
    CutAfter(rows, file.number, n, i);
    assert LinkedAt(rows, i);
  }

  /** The anchor is the head of the chain up to its number, except that an anchor at zero overlooks rows
      numbered zero or below. */
  lemma AnchoredHead(rows: seq<Row>, file: File, s: Status, n: nat)
    requires Numbered(rows) && Reports(rows, file, s) && Reconcilable(s)
    requires UpTo(rows, file.number, n)
    ensures file.mac == ChainMac(Payloads(rows)[..n]) <==> file.number > 0 || Positive(rows)
  {
    if file.number == 0 {
      NothingAtZero(rows, n);
      ChainMacOfSome(Payloads(rows)[..n]);
    } else {
      AnchoredRow(rows, file, s, n);
    }
  }

  /** Two databases that both verify as valid or stale against the same anchor hold the same events up
      to the anchored one, although no row number is authenticated. Only an anchor at zero, which
      stands before any event, needs the rows to be numbered from one on. */
  lemma AnchorBindsHistory(rows: seq<Row>, other: seq<Row>, file: File, s: Status, t: Status, n: nat, m: nat)
    requires Numbered(rows) && Reports(rows, file, s) && Reconcilable(s)
    requires Numbered(other) && Reports(other, file, t) && Reconcilable(t)
    requires UpTo(rows, file.number, n) && UpTo(other, file.number, m)
    requires file.number > 0 || (Positive(rows) && Positive(other))
    ensures n == m && Payloads(rows)[..n] == Payloads(other)[..m]
  {
    AnchoredHead(rows, file, s, n);
    AnchoredHead(other, file, t, m);
    EqualHeadsEqualHistories(Payloads(rows)[..n], Payloads(other)[..m]);
  }

  /** Every database that passes against the anchor agrees with this one up to it. */
  ghost predicate Binds(rows: seq<Row>, n: nat, file: File)
    requires n <= |rows| && file.Anchor?
  {
    forall other, t, m: nat | Numbered(other) && Reports(other, file, t) && Reconcilable(t) && UpTo(other, file.number, m) ::
      Payloads(other)[..m] == Payloads(rows)[..n]
  }

  /** Exactly when the anchor binds a database against every other one, however its rows are numbered: when
      it stands at an event. */
  lemma AnchorBindsIff(rows: seq<Row>, file: File, s: Status, n: nat)
    requires Numbered(rows) && Reports(rows, file, s) && Reconcilable(s) && UpTo(rows, file.number, n)
    ensures Binds(rows, n, file) <==> file.number > 0
  {
    if file.number > 0 {
      forall other, t, m: nat | Numbered(other) && Reports(other, file, t) && Reconcilable(t) && UpTo(other, file.number, m)
        ensures Payloads(other)[..m] == Payloads(rows)[..n]
      {
        AnchorBindsHistory(rows, other, file, s, t, n, m);
      }
    } else {
      var p := Payload("a", 0, "k", "t", "o", "d", "r", "s", "t");
      ZeroAnchorPasses(p);
      if n == 0 {
        assert Payloads([ZeroRow(p)])[..1] != Payloads(rows)[..0];
      } else {
        assert UpTo([], file.number, 0) && Payloads([])[..0] != Payloads(rows)[..n];
      }
    }
  }

  function ZeroRow(p: Payload): Row {
    Row(0, p, Genesis, Tag(Genesis, p))
  }

  /** An anchor at zero accepts no rows, and just as well a row stored under the number zero, which
      AUTOINCREMENT never assigns. */
  lemma ZeroAnchorPasses(p: Payload)
    ensures Numbered([]) && Reports([], Anchor(0, Genesis), Valid(0, Genesis)) && UpTo([], 0, 0)
    ensures Numbered([ZeroRow(p)]) && Reports([ZeroRow(p)], Anchor(0, Genesis), Valid(1, Tag(Genesis, p)))
    ensures UpTo([ZeroRow(p)], 0, 1)
  {
  }

  /** So two different histories can both pass against an anchor at zero. */
  lemma NonPositiveRowsEscapeTheAnchor(p: Payload, q: Payload)
    requires p != q
    ensures var rows, other, file := [ZeroRow(p)], [ZeroRow(q)], Anchor(0, Genesis);
            && Numbered(rows) && Numbered(other)
            && Reports(rows, file, Valid(1, Tag(Genesis, p))) && Reports(other, file, Valid(1, Tag(Genesis, q)))
            && UpTo(rows, 0, 1) && UpTo(other, 0, 1) && Payloads(rows)[..1] != Payloads(other)[..1]
  {
  }

  // ---------------------------------------------------------------- appending

  function HeadMac(rows: seq<Row>): Mac {
    if rows == [] then Genesis else rows[|rows| - 1].mac
  }

  /** `_append_audit_raw`; `number` is what AUTOINCREMENT assigns. */
  function Appended(rows: seq<Row>, number: int, payload: Payload): seq<Row> {
    rows + [Row(number, payload, HeadMac(rows), Tag(HeadMac(rows), payload))]
  }

  lemma HeadIsChain(rows: seq<Row>)
    requires Intact(rows)
    ensures HeadMac(rows) == ChainMac(Payloads(rows))
  {
    if rows != [] {
      assert LinkedAt(rows, |rows| - 1);
      assert Payloads(rows)[..|rows|] == Payloads(rows);
    }
  }

  lemma PayloadsConcat(rows: seq<Row>, more: seq<Row>)
    ensures Payloads(rows + more) == Payloads(rows) + Payloads(more)
  {
  }

  /** Links do not depend on what follows. */
  lemma LinksStay(rows: seq<Row>, more: seq<Row>, i: nat)
    requires i < |rows|
    ensures LinkedAt(rows + more, i) == LinkedAt(rows, i)
  {
    PayloadsConcat(rows, more);
    assert Payloads(rows + more)[..i] == Payloads(rows)[..i];
    assert Payloads(rows + more)[..i + 1] == Payloads(rows)[..i + 1];
  }

  /** Appending keeps an intact chain intact. */
  lemma AppendKeepsChain(rows: seq<Row>, number: int, payload: Payload)
    requires Intact(rows)
    ensures Intact(Appended(rows, number, payload))
  {
    hide ChainMac;
    var all := Appended(rows, number, payload);
    var row := Row(number, payload, HeadMac(rows), Tag(HeadMac(rows), payload));
    HeadIsChain(rows);
    PayloadsConcat(rows, [row]);
    forall i | 0 <= i < |rows| ensures LinkedAt(all, i) {
      LinksStay(rows, [row], i);
    }
    NextHead(all, |rows|);
    assert Payloads(all)[..|rows|] == Payloads(rows);
    assert LinkedAt(all, |rows|);
  }

  lemma AppendKeepsNumbers(rows: seq<Row>, number: int, payload: Payload)
    requires Numbered(rows) && LastNumber(rows) < number
    ensures Numbered(Appended(rows, number, payload)) && LastNumber(Appended(rows, number, payload)) == number
  {
  }
}
