/** The store's commit path: check, SQL commit, then publish the anchor under a second lock. */
module Storage {
  import opened Basics
  import opened Audit
  import opened Anchor

  /** Where an operating-system or SQL error strikes while the anchor is synchronized. */
  datatype Fault = NoFault | BeforeReplace | AfterReplace

  datatype Outcome = Refused | Synced | Degraded | Quiet

  class Store {
    var rows: seq<Row>
    var pending: seq<Row>
    var inTransaction: bool
    var file: File

    /** AUTOINCREMENT gives increasing positive numbers; nothing is pending outside a transaction. */
    ghost predicate Valid()
      reads this
    {
      Numbered(rows + pending) && Positive(rows + pending) && (!inTransaction ==> pending == [])
    }

    ghost predicate Passes(all: seq<Row>)
      reads this
    {
      exists s :: Reports(all, file, s) && Reconcilable(s)
    }

    method Begin()
      requires Valid() && !inTransaction
      modifies this
      ensures Valid() && inTransaction && pending == [] && rows == old(rows) && file == old(file)
    {
      inTransaction := true;
    }

    method AppendAudit(payload: Payload, number: int)
      requires Valid() && inTransaction && number > LastNumber(rows + pending) && number > 0
      modifies this
      ensures Valid() && inTransaction && rows == old(rows) && file == old(file)
      ensures rows + pending == Appended(old(rows) + old(pending), number, payload)
    {
      hide Numbered, Positive, LastNumber, HeadMac;
      var all := rows + pending;
      var row := Row(number, payload, HeadMac(all), Tag(HeadMac(all), payload));
      AppendKeepsNumbers(all, number, payload);
      AppendKeepsPositive(all, number, payload);
      assert rows + (pending + [row]) == all + [row];
      pending := pending + [row];
    }

    method Rollback()
      requires Valid()
      modifies this
      ensures Valid() && !inTransaction && rows == old(rows) && file == old(file)
    {
      TakeKeepsOrder(rows, pending);
      pending, inTransaction := [], false;
      assert rows + pending == rows;
    }

    /** `_require_reconcilable_audit` on what the open transaction sees. */
    method RequireReconcilable() returns (ok: bool)
      requires Valid()
      ensures ok <==> Passes(rows + pending)
    {
      var s := VerifyAudit(rows + pending, file);
      ok := Reconcilable(s);
      if exists t :: Reports(rows + pending, file, t) && Reconcilable(t) {
        var t :| Reports(rows + pending, file, t) && Reconcilable(t);
        ReportIsUnique(rows + pending, file, s, t);
      }
    }

    /** `sync_audit_head`: check again, then publish the CURRENT head. */
    method SyncAuditHead(fault: Fault) returns (ok: bool)
      requires Valid() && !inTransaction
      modifies this
      ensures Valid() && !inTransaction && rows == old(rows)
      ensures ok <==> fault == NoFault && old(Passes(rows))
      ensures ok ==> Reports(rows, file, Audit.Valid(|rows|, HeadMac(rows)))
      ensures !ok ==> file == old(file) || (fault == AfterReplace && file == HeadFile(rows) && old(Passes(rows)))
    {
      assert rows + pending == rows;
      inTransaction := true;
      var passes := RequireReconcilable();
      if !passes || fault == BeforeReplace {
        inTransaction := false;
        return false;
      }
      PassingIsChain(rows, file);
      HeadFileNames(rows);
      file := HeadFile(rows);
      inTransaction := false;
      ok := fault == NoFault;
    }

    /** `commit`: refused before anything is written, or committed for good; only then can the
        anchor lag behind. */
    method Commit(syncAudit: bool, fault: Fault) returns (o: Outcome)
      requires Valid() && inTransaction
      modifies this
      ensures Valid()
      ensures o == Refused <==> syncAudit && !old(Passes(rows + pending))
      ensures o == Refused ==> rows == old(rows) && pending == old(pending) && file == old(file) && inTransaction
      ensures o != Refused ==> rows == old(rows) + old(pending) && pending == [] && !inTransaction
      ensures o == Quiet <==> !syncAudit
      ensures o == Quiet ==> file == old(file)
      ensures o == Synced <==> syncAudit && o != Refused && fault == NoFault
      ensures o == Synced ==> Reports(rows, file, Audit.Valid(|rows|, HeadMac(rows)))
      ensures o == Degraded ==> file == old(file) || file == HeadFile(rows)
    {
      if syncAudit {
        var passes := RequireReconcilable();
        if !passes { return Refused; }
      }
      rows, pending, inTransaction := rows + pending, [], false;
      assert rows + pending == rows;
      if !syncAudit { return Quiet; }
      var synced := SyncAuditHead(fault);
      o := if synced then Synced else Degraded;
    }
  }

  lemma AppendKeepsPositive(rows: seq<Row>, number: int, payload: Payload)
    requires Positive(rows) && number > 0
    ensures Positive(Appended(rows, number, payload))
  {
  }

  lemma TakeKeepsOrder(rows: seq<Row>, more: seq<Row>)
    requires Numbered(rows + more) && Positive(rows + more)
    ensures Numbered(rows) && Positive(rows)
  {
    var all := rows + more;
    forall i, j | 0 <= i < j < |rows| ensures rows[i].number < rows[j].number {
      assert all[i].number < all[j].number;
    }
    forall i | 0 <= i < |rows| ensures rows[i].number > 0 {
      assert all[i].number > 0;
    }
  }

  lemma PassingIsChain(rows: seq<Row>, file: File)
    requires Numbered(rows) && Positive(rows) && exists s :: Reports(rows, file, s) && Reconcilable(s)
    ensures Chain(rows)
  {
  }
}
