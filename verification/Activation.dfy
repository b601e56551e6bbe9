/** Promotion, rollback and recovery of the configuration roots, step by step. */
module Activation {
  import opened Outcomes
  import opened ConfigRoots
  import opened RootStore

  /* ---------- managed state ---------- */

  method AnyOf(files: set<File>) returns (f: File)
    requires files != {}
    ensures f in files
  {
    f :| f in files;
  }

  /** A directory listing: every entry, in no particular order. */
  method ListEntries(r: Root) returns (entries: seq<Entry>)
    ensures forall e :: e in entries <==> Lists(r, e)
    ensures |entries| <= 4 + |r.extra|
  {
    entries := [];
    var left := r.extra;
    while left != {}
      invariant left <= r.extra
      invariant forall e :: e in entries <==> e.ExtraFile? && e.file in r.extra - left
      invariant |entries| + |left| <= |r.extra|
    {
      var f := AnyOf(left);
      entries, left := [ExtraFile(f)] + entries, left - {f};
    }
    entries := entries + if r.receipt.Some? then [ReceiptFile] else [];
    entries := if r.config.Some? then [ConfigFile] + entries else entries;
    entries := entries + if r.managed != {} then [ManagedFile] else [];
    entries := if r.first then entries + [FirstFile] else entries;
  }

  /** The listing in the order of a stable sort that puts the provisioning markers first. */
  function MarkersFirst(entries: seq<Entry>): (sorted: seq<Entry>)
    ensures |sorted| == |entries|
    ensures forall e :: e in sorted <==> e in entries
    ensures forall i, j :: 0 <= i < j < |sorted| && IsProvisioningMarker(sorted[j]) ==> IsProvisioningMarker(sorted[i])
  {
    if entries == [] then []
    else if IsProvisioningMarker(entries[0]) then
      [entries[0]] + MarkersFirst(entries[1..])
    else
      InsertAfterMarkers(entries[0], MarkersFirst(entries[1..]))
  }

  function InsertAfterMarkers(e: Entry, entries: seq<Entry>): (sorted: seq<Entry>)
    requires !IsProvisioningMarker(e)
    requires forall i, j :: 0 <= i < j < |entries| && IsProvisioningMarker(entries[j]) ==>
              IsProvisioningMarker(entries[i])
    ensures |sorted| == |entries| + 1
    ensures forall x :: x in sorted <==> x == e || x in entries
    ensures forall i, j :: 0 <= i < j < |sorted| && IsProvisioningMarker(sorted[j]) ==> IsProvisioningMarker(sorted[i])
  {
    if entries != [] && IsProvisioningMarker(entries[0]) then
      [entries[0]] + InsertAfterMarkers(e, entries[1..])
    else
      [e] + entries
  }

  lemma MarkersGone(entries: seq<Entry>, i: nat, r: Root)
    requires i < |entries| && !IsProvisioningMarker(entries[i])
    requires forall j, k :: 0 <= j < k < |entries| && IsProvisioningMarker(entries[k]) ==>
              IsProvisioningMarker(entries[j])
    requires forall e :: Lists(r, e) ==> e.ManagedFile? || e in entries[i..]
    ensures !r.first && r.config.None?
  {
    assert forall k :: i <= k < |entries| ==> !IsProvisioningMarker(entries[k]);
    assert !Lists(r, FirstFile) && !Lists(r, ConfigFile);
  }

  lemma NothingElseListed(r: Root)
    requires forall e :: Lists(r, e) ==> e.ManagedFile?
    ensures r == EMPTY_ROOT.(managed := r.managed)
  {
    assert !Lists(r, FirstFile) && !Lists(r, ConfigFile) && !Lists(r, ReceiptFile);
    forall f ensures f !in r.extra {
      assert !Lists(r, ExtraFile(f));
    }
  }

  /** Removes everything in the active root but its record of managed accounts. */
  method PruneToManagedState(s: Store) returns (o: Outcome)
    requires s.roots.active.Some?
    modifies s`roots, s`budget
    ensures o.Done? ==>
              s.roots == old(s.roots).(active := Some(EMPTY_ROOT.(managed := old(s.roots).active.value.managed)))
    ensures o.Interrupted? ==> s.roots.active.Some? && s.roots == old(s.roots).(active := s.roots.active)
    ensures o.Interrupted? ==> IsPruned(s.roots.active.value, old(s.roots).active.value)
    ensures old(s.budget) >= 4 + |old(s.roots).active.value.extra| ==> o.Done?
    ensures s.budget + 4 + |old(s.roots).active.value.extra| >= old(s.budget)
  {
    ghost var whole := s.roots.active.value;
    var listing := ListEntries(s.roots.active.value);
    var entries := MarkersFirst(listing);
    for i := 0 to |entries|
      invariant s.roots.active.Some? && s.roots == old(s.roots).(active := s.roots.active)
      invariant IsPruned(s.roots.active.value, whole)
      invariant forall e :: Lists(s.roots.active.value, e) <==>
                Lists(whole, e) && (e.ManagedFile? || e !in entries[..i])
      invariant s.budget + i >= old(s.budget)
    {
      if entries[i].ManagedFile? {
        continue;
      }
      if !IsProvisioningMarker(entries[i]) {
        MarkersGone(entries, i, s.roots.active.value);
      }
      :- s.RemoveEntry(entries[i]);
    }
    NothingElseListed(s.roots.active.value);
    return Done;
  }

  /* ---------- rollback ---------- */

  /** The states an interrupted `DiscardInitialConfig` passes through. */
  ghost predicate IsDiscardCut(d0: Roots, d: Roots) {
    && d == d0.(active := d.active, candidate := d.candidate)
    && ((d.candidate == d0.candidate && d.active.Some? && d0.active.Some? && IsPruned(d.active.value, d0.active.value))
        || (d.candidate == d0.candidate && d.active == d0.active)
        || (d.candidate == d0.candidate && Managed(d0.active) == {}
            && (d.active == None || d.active == Some(EMPTY_ROOT)))
        || ((d.candidate.None? || IsTorn(d0.candidate, d.candidate)) && d.active == Discarded(d0).active))
  }

  lemma DiscardCutIsSafe(d0: Roots, d: Roots)
    requires WellFormed(d0) && Discards(d0) && IsDiscardCut(d0, d)
    ensures WellFormed(d) && Verdict(d) == Verdict(d0) == None
    ensures Recorded(d0) <= Recorded(d) && Recorded(d0) <= Survivors(d)
  {
  }

  /** The first half of a discard: the active root shrinks to the record of `managed`. */
  method KeepManagedRecord(s: Store, managed: set<Name>) returns (o: Outcome)
    requires managed == Recorded(s.roots)
    modifies s`roots, s`budget
    ensures o.Done? ==> s.roots == old(s.roots).(active := Discarded(old(s.roots)).active)
    ensures o.Interrupted? ==> IsDiscardCut(old(s.roots), s.roots)
    ensures old(s.budget) + 3 >= old(Work(s.roots)) ==> o.Done?
    ensures s.budget + old(Work(s.roots)) >= old(s.budget) + 3
  {
    if s.roots.active.Some? {
      if managed != {} {
        :- PruneToManagedState(s);
      } else {
        :- s.RemoveActiveAtOnce();
      }
    }
    if managed != {} {
      :- s.MakeActive();
      :- s.WriteManaged(managed);
    }
    return Done;
  }

  /** Removes a failed initial configuration but keeps the accounts it created on record.
      Wherever it is interrupted, recovery still finds an unprovisioned device and ends with
      every name that was on record (`DiscardCutIsSafe`). */
  method DiscardInitialConfig(s: Store) returns (o: Outcome)
    modifies s`roots, s`budget
    ensures o.Done? ==> s.roots == Discarded(old(s.roots))
    ensures o.Interrupted? && old(s.roots).rollback.None? ==> IsDiscardCut(old(s.roots), s.roots)
    ensures old(s.budget) >= old(Work(s.roots)) ==> o.Done?
    ensures s.budget + old(Work(s.roots)) >= old(s.budget)
  {
    var managed := Managed(s.roots.active) + Managed(s.roots.candidate);
    :- KeepManagedRecord(s, managed);
    if s.roots.candidate.Some? {
      :- s.RemoveCandidate();
    }
    if s.roots.rollback.Some? {
      :- s.RemoveRollback();
    }
    :- s.UnlinkMarker();
    return Done;
  }

  /** Puts the rollback root back in place, merging in the accounts of the failed root. */
  method RestoreRollback(s: Store) returns (o: Outcome, restored: bool)
    modifies s`roots, s`budget, s`owed
    ensures o.Done? ==> s.roots == Restored(old(s.roots)) && restored == old(s.roots).rollback.Some?
    ensures o.Done? && old(s.roots).rollback.Some? ==>
              && s.roots.active.Some? && s.roots.rollback.None? && !s.roots.marker
              && s.roots.active == Some(old(s.roots).rollback.value.(managed := s.roots.active.value.managed))
              && forall n :: n in s.roots.active.value.managed <==>
                   || n in old(s.roots).rollback.value.managed
                   || (old(s.roots).active.Some? && n in old(s.roots).active.value.managed)
    ensures o.Done? && old(s.roots).rollback.None? ==> s.roots == old(s.roots).(marker := false)
    ensures s.roots.candidate == old(s.roots).candidate && s.roots.reactivate == old(s.roots).reactivate
    ensures s.owed ==> old(s.owed) || old(s.roots).rollback.Some?
    ensures o.Interrupted? && old(s.roots).rollback.None? ==> s.roots == old(s.roots)
    ensures o.Interrupted? && old(WellFormed(s.roots) && s.roots.reactivate) ==> SameVerdict(old(s.roots), s.roots)
    ensures old(WellFormed(s.roots) && s.budget >= 4) ==> o.Done?
    ensures s.budget + 4 >= old(s.budget)
  {
    restored := false;
    if s.roots.rollback.None? {
      :- s.UnlinkMarker();
      return Done, false;
    }
    var failedManaged := Managed(s.roots.active);
    var rollbackManaged := Managed(s.roots.rollback);
    if s.roots.active.Some? {
      :- s.RemoveActive();
    }
    :- s.RenameRollbackToActive();
    var merged := rollbackManaged + failedManaged;
    assert merged == {} ==> rollbackManaged == {};
    if merged != {} {
      :- s.WriteManaged(merged);
    }
    :- s.UnlinkMarker();
    return Done, true;
  }

  method CleanupRollback(s: Store) returns (o: Outcome)
    modifies s`roots, s`budget
    ensures o.Done? ==> s.roots == old(s.roots).(rollback := None, marker := false)
    ensures s.roots == old(s.roots).(rollback := s.roots.rollback, marker := s.roots.marker)
    ensures o.Interrupted? ==>
              s.roots.marker == old(s.roots).marker && (old(s.roots).rollback.None? ==> s.roots.rollback.None?)
    ensures o.Interrupted? && old(WellFormed(s.roots) && IsCommitted(s.roots.active)) ==>
              SameVerdict(old(s.roots), s.roots)
    ensures old(s.budget) >= 2 ==> o.Done?
    ensures s.budget + 2 >= old(s.budget)
  {
    if s.roots.rollback.Some? {
      :- s.RemoveRollback();
    }
    :- s.UnlinkMarker();
    return Done;
  }

  /* ---------- crash recovery ---------- */

  /** Leaves one complete configuration root after an interrupted promotion. */
  method RecoverConfigRoot(s: Store) returns (o: Outcome)
    modifies s`roots, s`budget, s`owed
    ensures o.Done? ==> s.roots == RootRecovered(old(s.roots))
    ensures old(Settled(s.roots)) ==> o.Done? && s.budget == old(s.budget) && s.owed == old(s.owed)
    ensures s.owed ==> old(s.owed) || old(s.roots).rollback.Some?
    ensures o.Interrupted? && old(WellFormed(s.roots) && Resolvable(s.roots)) ==>
              IsAttempt(old(s.roots), s.roots) && s.roots.reactivate == old(s.roots).reactivate
    ensures o.Interrupted? && old(WellFormed(s.roots) && Discards(s.roots) && !IsPromoted(s.roots.active)) ==>
              old(Recorded(s.roots)) <= Recorded(s.roots) && old(Recorded(s.roots)) <= Survivors(s.roots)
    ensures old(WellFormed(s.roots) && s.budget >= Work(s.roots)) ==> o.Done?
    ensures s.budget + old(Work(s.roots)) >= old(s.budget)
  {
    if s.roots.marker && s.roots.rollback.Some? {
      var _ :- RestoreRollback(s);
      if s.roots.candidate.Some? {
        :- s.RemoveCandidate();
      }
      return Done;
    }
    if s.roots.marker && s.roots.rollback.None? {
      if HasConfig(s.roots.active) {
        if s.roots.candidate.Some? {
          :- s.RemoveCandidate();
        }
        :- s.UnlinkMarker();
        return Done;
      }
      ghost var d0 := s.roots;
      o := DiscardInitialConfig(s);
      if o.Interrupted? && WellFormed(d0) && Discards(d0) {
        DiscardCutIsSafe(d0, s.roots);
      }
      return;
    }
    if HasConfig(s.roots.active) {
      if s.roots.candidate.Some? {
        :- s.RemoveCandidate();
      }
      return Done;
    }
    if s.roots.candidate.Some? {
      :- s.RemoveCandidate();
      return Done;
    }
    if s.roots.rollback.Some? {
      :- s.RenameRollbackToActive();
    }
    return Done;
  }

  /* ---------- atomic promotion ---------- */

  /** A complete candidate, marked promoted, waits beside a settled device. */
  ghost predicate IsStaged(d: Roots) {
    && Settled(d.(candidate := None))
    && IsPromoted(d.candidate) && HasConfig(d.candidate)
  }

  /** Swaps the candidate in and keeps the active root as the rollback root. */
  method AtomicPromote(s: Store) returns (o: Outcome)
    modifies s`roots, s`budget
    ensures o.Done? ==> s.roots == old(s.roots).(active := old(s.roots).candidate, candidate := None,
                                                 rollback := old(s.roots).active, marker := true)
    ensures o.Interrupted? && old(IsStaged(s.roots) && HasConfig(s.roots.active)) ==>
              SameVerdict(old(s.roots), s.roots) && !IsPromoted(s.roots.active)
              && (s.roots.active == old(s.roots).active || s.roots.active.None?)
    ensures old(s.budget >= 4 && IsStaged(s.roots) && HasConfig(s.roots.active)) ==> o.Done?
    ensures s.budget + 4 >= old(s.budget)
  {
    if s.roots.rollback.Some? {
      :- s.RemoveRollback();
    }
    :- s.WriteMarker();
    :- s.RenameActiveToRollback();
    :- s.RenameCandidateToActive();
    return Done;
  }

  /** Promotes an initial candidate; there is nothing to roll back to. */
  method AtomicPromoteInitial(s: Store) returns (o: Outcome)
    modifies s`roots, s`budget
    ensures o.Done? ==> s.roots == old(s.roots).(active := old(s.roots).candidate, candidate := None,
                                                 rollback := None, marker := true)
    ensures o.Interrupted? && old(IsStaged(s.roots) && !IsProvisioned(s.roots.active)) ==>
              SameVerdict(old(s.roots), s.roots) && !IsPromoted(s.roots.active) && !IsCommitted(s.roots.active)
    ensures o.Interrupted?
            && old(IsStaged(s.roots) && !IsProvisioned(s.roots.active)
                   && Managed(s.roots.active) <= Managed(s.roots.candidate)) ==>
              old(Recorded(s.roots)) <= Recorded(s.roots) && old(Managed(s.roots.active)) <= Survivors(s.roots)
    ensures old(s.budget >= 4 && IsStaged(s.roots)) ==> o.Done?
    ensures s.budget + 4 >= old(s.budget)
  {
    if s.roots.rollback.Some? {
      :- s.RemoveRollback();
    }
    :- s.WriteMarker();
    if s.roots.active.Some? {
      :- s.RemoveActive();
    }
    :- s.RenameCandidateToActive();
    return Done;
  }

  /* ---------- the apply receipt ---------- */

  /** Writes the promoted receipt into the candidate before it is swapped in. */
  method MarkPromoted(s: Store, t: Transaction) returns (o: Outcome)
    requires s.roots.candidate.Some?
    modifies s`roots, s`budget
    ensures o.Done? <==> old(s.budget) > 0
    ensures o.Done? ==>
              var root := old(s.roots).candidate.value;
              s.roots == old(s.roots).(candidate := Some(root.(receipt := Some(t.ReceiptIn(Promoted)))))
    ensures o.Interrupted? ==> s.roots == old(s.roots)
    ensures s.budget + 1 >= old(s.budget)
  {
    o := s.UpdateCandidate(s.roots.candidate.value.(receipt := Some(t.ReceiptIn(Promoted))));
  }

  /** The commit point.  Refused unless the active root holds this transaction's own promoted
      receipt. */
  method MarkCommitted(s: Store, t: Transaction) returns (o: Outcome)
    modifies s`roots, s`budget
    ensures o.Done? <==> old(s.budget > 0 && IsPromotedBy(s.roots.active, t))
    ensures o.Done? ==>
              var root := old(s.roots).active.value;
              s.roots == old(s.roots).(active := Some(root.(receipt := Some(t.ReceiptIn(Committed)))))
    ensures o.Interrupted? ==> s.roots == old(s.roots)
    ensures s.budget + 1 >= old(s.budget)
  {
    var receipt := ReceiptOf(s.roots.active);
    if receipt.None? || !receipt.value.phase.Promoted? || receipt.value.job != t.job
       || receipt.value.digest != t.digest || receipt.value.result != t.result {
      return Interrupted;
    }
    o := s.WriteActiveReceipt(t.ReceiptIn(Committed));
  }

  /* ---------- activation of a promoted root ---------- */

  /** What one run of the activation sequence does: the accounts it leaves on record, and whether
      services, restarts and health checks all came up. */
  datatype Attempt = Attempt(names: set<Name>, ok: bool)

  datatype RollbackStatus = Skipped | Completed | Failed

  method RunRollbackActivation(s: Store, attempt: Attempt) returns (o: Outcome, ok: bool)
    modifies s`roots, s`budget, s`owed
    ensures o.Done? ==> ok == attempt.ok && !s.owed
    ensures o.Done? ==>
              && old(s.roots).active.Some?
              && s.roots == old(s.roots).(active := Some(old(s.roots).active.value.(managed := attempt.names)),
                                          reactivate := false)
    ensures o.Interrupted? ==> s.roots.reactivate == old(s.roots).reactivate && (s.owed ==> old(s.owed))
    ensures o.Interrupted? && old(s.roots).rollback.None? ==> SameVerdict(old(s.roots), s.roots)
    ensures old(s.budget >= 2 && s.roots.active.Some?) ==> o.Done?
    ensures s.budget + 2 >= old(s.budget)
  {
    ok := attempt.ok;
    :- s.Activate(attempt.names);
    :- s.UnlinkReactivationMarker();
    return Done, attempt.ok;
  }

  /** The state right after a swap: the candidate of `t` is active but not committed. */
  ghost predicate IsSwapped(d: Roots, t: Transaction) {
    && WellFormed(d)
    && IsPromotedBy(d.active, t) && HasConfig(d.active)
    && d.marker && !d.reactivate
    && !IsCommittedBy(d.rollback, t)
  }

  /** The root that `t` commits to, once it is active. */
  function CommittedForm(r: Root, t: Transaction): Root {
    r.(receipt := Some(t.ReceiptIn(Committed)), managed := {})
  }

  /** While `t` is being activated from `d0`, recovery decides for its configuration exactly if
      the committed receipt is on disk, and otherwise as it would have from `d0`. */
  ghost predicate IsDecided(d0: Roots, d: Roots, t: Transaction) {
    && WellFormed(d)
    && Verdict(d) == (if IsCommittedBy(d.active, t) && d0.active.Some? then Some(CommittedForm(d0.active.value, t))
                      else Verdict(d0))
  }

  /** Activates a promoted root; commits it before the rollback state goes, or restores the
      rollback root and activates that. */
  method CompleteReapply(s: Store, t: Transaction, attempt: Attempt, back: Attempt)
    returns (o: Outcome, success: bool, status: RollbackStatus)
    modifies s`roots, s`budget, s`owed
    ensures old(IsSwapped(s.roots, t)) ==> IsDecided(old(s.roots), s.roots, t)
    ensures old(IsSwapped(s.roots, t)) && s.owed && !old(s.owed) ==> s.roots.reactivate
    ensures o.Done? && success ==> IsCommittedBy(s.roots.active, t) && (old(IsSwapped(s.roots, t)) ==> Settled(s.roots))
    ensures o.Done? && !success && old(IsSwapped(s.roots, t) && s.roots.rollback.Some?) ==>
              && Settled(s.roots) && !IsCommittedBy(s.roots.active, t) && !s.owed
              && status == if back.ok then Completed else Failed
    ensures o.Done? && !success && old(s.roots).rollback.None? ==>
              s.roots == old(s.roots).(active := s.roots.active, marker := false) && status == Skipped
              && old(s.roots).active.Some?
              && s.roots.active == Some(old(s.roots).active.value.(managed := attempt.names))
    ensures old(IsSwapped(s.roots, t) && s.roots.rollback.None?) ==>
              attempt.names <= Survivors(s.roots) || old(Managed(s.roots.active)) <= Survivors(s.roots)
    ensures o.Done? ==> success == attempt.ok
    ensures old(s.budget >= 8 && IsSwapped(s.roots, t)) ==> o.Done?
    ensures s.budget + 8 >= old(s.budget)
  {
    success, status := false, Skipped;
    :- s.Activate(attempt.names);
    if !attempt.ok {
      if s.roots.rollback.Some? {
        :- s.WriteReactivationMarker();
      }
      var restored :- RestoreRollback(s);
      if restored {
        var ok :- RunRollbackActivation(s, back);
        if !ok {
          return Done, false, Failed;
        }
      }
      return Done, false, if restored then Completed else Skipped;
    }
    :- MarkCommitted(s, t);
    :- CleanupRollback(s);
    return Done, true, Skipped;
  }
}
