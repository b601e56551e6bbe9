/** Recovery of an interrupted staged apply from its receipt. */
module ApplyTransaction {
  import opened Outcomes
  import opened ConfigRoots
  import opened RootStore
  import opened Activation

  datatype ApplyRecovery = ApplyRecovery(receipt: Option<Receipt>, discardedInitial: bool, restoredRollback: bool)

  /** Recovery has a rollback root to reactivate: a restore is due, or one was left unfinished. */
  predicate OwesRollback(d: Roots) {
    d.reactivate || (!IsCommitted(d.active) && d.marker && d.rollback.Some?)
  }

  /** Resolves an interrupted promotion.  However often it is itself interrupted, the decision
      for the old or the new configuration stands. */
  method RecoverInterruptedApply(s: Store) returns (o: Outcome, recovery: ApplyRecovery)
    modifies s`roots, s`budget, s`owed
    ensures o.Done? ==> s.roots == Recovered(old(s.roots))
    ensures o.Done? ==> recovery.restoredRollback == old(OwesRollback(s.roots))
    ensures o.Done? ==> recovery.receipt == ReceiptOf(s.roots.active)
    ensures o.Done? && recovery.discardedInitial ==> !IsProvisioned(s.roots.active)
    ensures o.Interrupted? ==> IsAttempt(old(s.roots), s.roots)
    ensures old(Settled(s.roots)) ==> s.roots == old(s.roots) && s.owed == old(s.owed)
    ensures o.Done? && old(s.roots).marker && old(s.roots).rollback.Some? && !old(IsCommitted(s.roots.active)) ==>
              && s.roots.active == Some(old(s.roots).rollback.value.(managed := Managed(s.roots.active)))
              && forall n :: n in Managed(s.roots.active) <==>
                   || n in old(s.roots).rollback.value.managed
                   || (old(s.roots).active.Some? && n in old(s.roots).active.value.managed)
    ensures o.Done? && old(IsCommitted(s.roots.active) && !s.roots.reactivate) ==> s.roots.active == old(s.roots).active
    ensures o.Interrupted? && old(WellFormed(s.roots) && Discards(s.roots)) ==>
              old(Recorded(s.roots)) <= Recorded(s.roots) && old(Recorded(s.roots)) <= Survivors(s.roots)
    ensures old(WellFormed(s.roots) && (s.owed ==> s.roots.reactivate)) && s.owed ==> s.roots.reactivate
    ensures old(WellFormed(s.roots) && s.budget >= Work(s.roots) + 1) ==> o.Done?
    ensures s.budget + old(Work(s.roots)) + 1 >= old(s.budget)
  {
    recovery := ApplyRecovery(None, false, false);
    ghost var d0 := s.roots;
    if s.roots.reactivate {
      :- RecoverConfigRoot(s);
      return Done, ApplyRecovery(ReceiptOf(s.roots.active), false, true);
    }
    var receipt := ReceiptOf(s.roots.active);
    if receipt.Some? && receipt.value.phase.Committed? {
      if s.roots.candidate.Some? {
        :- s.RemoveCandidate();
      }
      :- CleanupRollback(s);
      return Done, ApplyRecovery(receipt, false, false);
    }
    if receipt.Some? && receipt.value.phase.Promoted? && s.roots.rollback.None? {
      o := DiscardInitialConfig(s);
      if o.Interrupted? && WellFormed(d0) {
        DiscardCutIsSafe(d0, s.roots);
      }
      return o, ApplyRecovery(None, true, false);
    }
    var restored := s.roots.marker && s.roots.rollback.Some?;
    if restored {
      :- s.WriteReactivationMarker();
    }
    :- RecoverConfigRoot(s);
    return Done, ApplyRecovery(ReceiptOf(s.roots.active), false, restored);
  }

  /** However many attempts at recovery are cut off, the one that runs to its end settles the device
      on what the first would have decided.  A device that ends unprovisioned has every name that was
      on record at the start in its active record: none of a failed initial configuration is lost. */
  lemma RepeatedRecovery(attempts: seq<Roots>)
    requires attempts != [] && WellFormed(attempts[0])
    requires forall i :: 0 <= i < |attempts| - 1 ==> IsAttempt(attempts[i], attempts[i + 1])
    ensures var end := Recovered(attempts[|attempts| - 1]).(reactivate := false);
      && Settled(end)
      && Visible(end.active) == Verdict(attempts[0])
      && (Verdict(attempts[0]).None? ==> Survivors(attempts[0]) <= Managed(end.active))
      && (Discards(attempts[0]) ==> Recorded(attempts[0]) <= Managed(end.active))
  {
    AttemptsAgree(attempts);
    RecoverySettles(attempts[|attempts| - 1]);
  }

  lemma {:induction false} AttemptsAgree(attempts: seq<Roots>)
    requires attempts != [] && WellFormed(attempts[0])
    requires forall i :: 0 <= i < |attempts| - 1 ==> IsAttempt(attempts[i], attempts[i + 1])
    ensures WellFormed(attempts[|attempts| - 1]) && IsAttempt(attempts[0], attempts[|attempts| - 1])
  {
    if |attempts| > 1 {
      AttemptsAgree(attempts[..|attempts| - 1]);
    }
  }

  /** An uncommitted initial configuration must go in one step.  Were its tree removed in parts,
      the device would be safe exactly if the receipt is not lost while a provisioning marker
      that counts is still there. */
  lemma TornDiscard(d: Roots, part: Root)
    requires WellFormed(d) && Discards(d) && IsPromoted(d.active) && IsPart(part, d.active.value)
    ensures Verdict(d.(active := Some(part))) == None <==>
            part.receipt.Some? || (part.config.None? && (d.marker || !part.first))
  {
  }

  /** Without config.toml a device is provisioned by its first-config marker alone, and a pending
      promotion then resets it: a provisioned root survives the promotion marker exactly if it has
      a config.toml or a committed receipt. */
  lemma PromotionMarkerKeeps(d: Roots)
    requires d.candidate.None? && d.rollback.None? && !d.marker && !d.reactivate
    requires IsProvisioned(d.active) && !IsPromoted(d.active)
    ensures Verdict(d) == Visible(d.active)
    ensures Verdict(d.(marker := true)) == Visible(d.active) <==> HasConfig(d.active) || IsCommitted(d.active)
  {
  }

  /** A removal in parts that takes the receipt before config.toml leaves a device that recovery
      takes for provisioned. */
  lemma TornDiscardIsUnsafe()
    ensures exists d, part :: WellFormed(d) && Discards(d) && IsPromoted(d.active) && IsPart(part, d.active.value)
                              && Verdict(d) == None && Verdict(d.(active := Some(part))) != None
  {
    var root := Root(Some(0), true, Some(Receipt("job", "digest", ApplyResult(false, None), Promoted)), {}, {});
    var d := Roots(Some(root), None, None, true, false);
    var part := root.(receipt := None);
    TornDiscard(d, part);
    assert Verdict(d) == None && Verdict(d.(active := Some(part))) != None;
  }

  /** A device whose root holds only the first-config marker is reset by a promotion marker. */
  lemma MarkerResetsFirstOnly()
    ensures var d := Roots(Some(EMPTY_ROOT.(first := true)), None, None, false, false);
      IsProvisioned(d.active) && Verdict(d) == Visible(d.active) && Verdict(d.(marker := true)) == None
  {
    var d := Roots(Some(EMPTY_ROOT.(first := true)), None, None, false, false);
    PromotionMarkerKeeps(d);
  }
}
