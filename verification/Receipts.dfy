/** Reading a receipt back: by preview digest, or by the content-free locator of the journal.
    Keyed digests are injective, so each is modelled as what it is computed from. */
module Receipts {
  import opened Basics
  import opened Vault
  import opened Approvals

  /** `_binding`: the key a receipt row stores instead of its preview digest. */
  datatype RequestKey = RequestKey(nonce: Id, capability: Id, project: string, digest: Preview)

  /** `_recovery_binding`: the same, bound to one vault. */
  datatype Binding = Binding(vaultId: Id, nonce: Id, capability: Id, key: RequestKey)

  datatype Locator = Locator(vaultId: Id, nonce: Id, binding: Binding)

  function KeyOf(nonce: Id, row: Saved): RequestKey {
    RequestKey(nonce, row.capability, row.project, row.digest)
  }

  /** `recovery_locator`, handed out with the preview. */
  function LocatorFor(vaultId: Id, nonce: Id, capability: Id, project: string, p: Preview): Locator {
    Locator(vaultId, nonce, Binding(vaultId, nonce, capability, RequestKey(nonce, capability, project, p)))
  }

  /** `SELECT * FROM admin_results WHERE nonce=? AND capability_id=?`. */
  function RowFor(d: Desk, nonce: Id, capability: Id): Option<Saved> {
    if nonce in d.results && d.results[nonce].capability == capability then Some(d.results[nonce]) else None
  }

  /** `read_result`. */
  function ReadResult(d: Desk, capability: Id, nonce: Id, digest: Preview): Result<Answer> {
    match RowFor(d, nonce, capability)
    case None => Refused(NotFound)
    case Some(row) =>
      if RequestKey(nonce, capability, row.project, digest) != KeyOf(nonce, row) then Refused(NotFound) else Done(row.answer)
  }

  /** `read_recovery_result`. */
  function ReadRecovery(d: Desk, vaultId: Id, capability: Id, locator: Locator): Result<Answer> {
    if locator.vaultId != vaultId then Refused(NotFound)
    else
      match RowFor(d, locator.nonce, capability)
      case None => Refused(NotFound)
      case Some(row) =>
        if locator.binding != Binding(vaultId, locator.nonce, capability, KeyOf(locator.nonce, row)) then Refused(NotFound)
        else Done(row.answer)
  }

  /** A locator opens exactly the receipt of the action it was handed out for: same vault, same
      capability, same project and the very preview the owner saw. */
  lemma LocatorOpensOnlyItsReceipt(d: Desk, vaultId: Id, capability: Id, issuedBy: Id, issuedTo: Id, nonce: Id,
                                   project: string, p: Preview, answer: Answer)
    ensures ReadRecovery(d, vaultId, capability, LocatorFor(issuedBy, nonce, issuedTo, project, p)) == Done(answer) <==>
              && issuedBy == vaultId && issuedTo == capability
              && nonce in d.results && d.results[nonce] == Saved(capability, project, d.results[nonce].operation, p, answer)
  {
  }

  /** Both ways of asking agree on the locator of a preview. */
  lemma LocatorAgreesWithDigest(d: Desk, vaultId: Id, capability: Id, nonce: Id, project: string, p: Preview)
    requires nonce in d.results ==> d.results[nonce].project == project
    ensures ReadRecovery(d, vaultId, capability, LocatorFor(vaultId, nonce, capability, project, p))
         == ReadResult(d, capability, nonce, p)
  {
  }

  /** Round trip through a commit: the locator shown with the preview finds the answer of the
      action that was approved on it, and found nothing before. */
  lemma CommittedActionIsRecoverable(d: Desk, vaultId: Id, r: Request, capability: Id, clock: Time, m: Moment)
    requires DeskInv(d) && ApplyCheck(d, r, clock, m).Done?
    requires Unused(d.vault, m.draw)
    ensures var op := ApplyCheck(d, r, clock, m).value;
            var locator := LocatorFor(vaultId, r.nonce, capability, ProjectOf(r.preview), r.preview);
            && Settles(op) && r.nonce in d.challenges
            && ReadRecovery(d, vaultId, capability, locator) == Refused(NotFound)
            && ReadRecovery(Settle(d, r, capability, m, op), vaultId, capability, locator) == Done(AnswerOf(d.vault, op))
  {
    hide VaultInv, Unused, Decide, AnswerOf, ApplyOp, Settles;
    SettleKeepsDesk(d, r, capability, clock, m);
  }
}
