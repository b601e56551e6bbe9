/** The directory that holds the configuration roots, changed one durable operation at a time.

    Each method is one rename, removal, record write or marker write.  Every one of them may end
    `Interrupted`: the process was killed, the power failed, or the operation raised.  A removal
    or a copy that is interrupted may leave part of its tree behind. */
module RootStore {
  import opened Outcomes
  import opened ConfigRoots

  /** Which entries of a tree outlive a removal, or get copied, before an interruption. */
  datatype Tear = Tear(config: bool, first: bool, receipt: bool, managed: bool, extra: set<File>)

  function TearOff(r: Root, tear: Tear): (part: Root)
    ensures IsPart(part, r)
  {
    Root(if tear.config then r.config else None,
         tear.first && r.first,
         if tear.receipt then r.receipt else None,
         if tear.managed then r.managed else {},
         r.extra * tear.extra)
  }

  function TearOption(r: Option<Root>, tear: Tear): (part: Option<Root>)
    ensures IsTorn(r, part)
  {
    if r.Some? then Some(TearOff(r.value, tear)) else None
  }

  class Store {
    var roots: Roots
    /** Since this boot a rollback root has been restored and not yet activated. */
    ghost var owed: bool
    /** How many durable operations happen before the next interruption, and what it tears. */
    var budget: nat
    var tear: Tear

    constructor (roots: Roots, budget: nat, tear: Tear)
      ensures this.roots == roots && !owed
    {
      this.roots, this.owed, this.budget, this.tear := roots, false, budget, tear;
    }

    /** An operation succeeds exactly if it can and no interruption is due yet. */
    twostate predicate Spent(o: Outcome, possible: bool)
      reads `budget
    {
      && (o.Done? <==> possible && old(budget) > 0)
      && budget == old(budget) - if o.Done? then 1 else 0
    }

    method Tick() returns (o: Outcome)
      modifies `budget
      ensures Spent(o, true)
    {
      if budget == 0 {
        return Interrupted;
      }
      budget := budget - 1;
      return Done;
    }

    /** The process goes on, or another one starts; nothing is known of its next interruption. */
    method Resume(budget: nat, tear: Tear)
      modifies `budget, `tear
      ensures this.budget == budget
    {
      this.budget, this.tear := budget, tear;
    }

    method WriteMarker() returns (o: Outcome)
      modifies `roots, `budget
      ensures Spent(o, true)
      ensures o.Done? ==> roots == old(roots).(marker := true)
      ensures o.Interrupted? ==> roots == old(roots)
    {
      o := Tick();
      if o.Done? {
        roots := roots.(marker := true);
      }
    }

    method UnlinkMarker() returns (o: Outcome)
      modifies `roots, `budget
      ensures Spent(o, true)
      ensures o.Done? ==> roots == old(roots).(marker := false)
      ensures o.Interrupted? ==> roots == old(roots)
    {
      o := Tick();
      if o.Done? {
        roots := roots.(marker := false);
      }
    }

    method WriteReactivationMarker() returns (o: Outcome)
      modifies `roots, `budget
      ensures Spent(o, true)
      ensures o.Done? ==> roots == old(roots).(reactivate := true)
      ensures o.Interrupted? ==> roots == old(roots)
    {
      o := Tick();
      if o.Done? {
        roots := roots.(reactivate := true);
      }
    }

    method UnlinkReactivationMarker() returns (o: Outcome)
      modifies `roots, `budget
      ensures Spent(o, true)
      ensures o.Done? ==> roots == old(roots).(reactivate := false)
      ensures o.Interrupted? ==> roots == old(roots)
    {
      o := Tick();
      if o.Done? {
        roots := roots.(reactivate := false);
      }
    }

    method RemoveCandidate() returns (o: Outcome)
      modifies `roots, `budget
      ensures Spent(o, true)
      ensures o.Done? ==> roots == old(roots).(candidate := None)
      ensures o.Interrupted? ==>
                roots == old(roots).(candidate := roots.candidate) && IsTorn(old(roots).candidate, roots.candidate)
    {
      var tick := Tick();
      roots := roots.(candidate := if tick.Done? then None else TearOption(roots.candidate, tear));
      return tick;
    }

    method RemoveRollback() returns (o: Outcome)
      modifies `roots, `budget
      ensures Spent(o, true)
      ensures o.Done? ==> roots == old(roots).(rollback := None)
      ensures o.Interrupted? ==>
                roots == old(roots).(rollback := roots.rollback) && IsTorn(old(roots).rollback, roots.rollback)
    {
      var tick := Tick();
      roots := roots.(rollback := if tick.Done? then None else TearOption(roots.rollback, tear));
      return tick;
    }

    method RemoveActive() returns (o: Outcome)
      modifies `roots, `budget
      ensures Spent(o, true)
      ensures o.Done? ==> roots == old(roots).(active := None)
      ensures o.Interrupted? ==> roots == old(roots).(active := roots.active) && IsTorn(old(roots).active, roots.active)
    {
      var tick := Tick();
      roots := roots.(active := if tick.Done? then None else TearOption(roots.active, tear));
      return tick;
    }

    /** The removal that discards an initial configuration; see `ApplyTransaction.TornDiscard`
        for what a removal in parts would do here. */
    method RemoveActiveAtOnce() returns (o: Outcome)
      modifies `roots, `budget
      ensures Spent(o, true)
      ensures o.Done? ==> roots == old(roots).(active := None)
      ensures o.Interrupted? ==> roots == old(roots)
    {
      o := Tick();
      if o.Done? {
        roots := roots.(active := None);
      }
    }

    /** Removes one entry of the active root. */
    method RemoveEntry(e: Entry) returns (o: Outcome)
      modifies `roots, `budget
      ensures Spent(o, old(roots.active.Some?))
      ensures o.Done? ==> roots == old(roots).(active := Some(Without(old(roots).active.value, e)))
      ensures o.Interrupted? ==> roots == old(roots)
    {
      if roots.active.None? {
        return Interrupted;
      }
      :- Tick();
      roots := roots.(active := Some(Without(roots.active.value, e)));
      return Done;
    }

    method RenameActiveToRollback() returns (o: Outcome)
      modifies `roots, `budget
      ensures Spent(o, old(roots.active.Some? && IsFree(roots.rollback)))
      ensures o.Done? ==> roots == old(roots).(active := None, rollback := old(roots).active)
      ensures o.Interrupted? ==> roots == old(roots)
    {
      if roots.active.None? || !IsFree(roots.rollback) {
        return Interrupted;
      }
      :- Tick();
      roots := roots.(active := None, rollback := roots.active);
      return Done;
    }

    method RenameCandidateToActive() returns (o: Outcome)
      modifies `roots, `budget
      ensures Spent(o, old(roots.candidate.Some? && IsFree(roots.active)))
      ensures o.Done? ==> roots == old(roots).(active := old(roots).candidate, candidate := None)
      ensures o.Interrupted? ==> roots == old(roots)
    {
      if roots.candidate.None? || !IsFree(roots.active) {
        return Interrupted;
      }
      :- Tick();
      roots := roots.(active := roots.candidate, candidate := None);
      return Done;
    }

    /** Puts the rollback root back in place: from here on its activation is owed. */
    method RenameRollbackToActive() returns (o: Outcome)
      modifies `roots, `budget, `owed
      ensures Spent(o, old(roots.rollback.Some? && IsFree(roots.active)))
      ensures o.Done? ==> roots == old(roots).(active := old(roots).rollback, rollback := None) && owed
      ensures o.Interrupted? ==> roots == old(roots) && owed == old(owed)
    {
      if roots.rollback.None? || !IsFree(roots.active) {
        return Interrupted;
      }
      :- Tick();
      roots := roots.(active := roots.rollback, rollback := None);
      owed := true;
      return Done;
    }

    method MakeActive() returns (o: Outcome)
      modifies `roots, `budget
      ensures Spent(o, true)
      ensures o.Done? ==>
                roots == old(roots).(active := if old(roots).active.Some? then old(roots).active else Some(EMPTY_ROOT))
      ensures o.Interrupted? ==> roots == old(roots)
    {
      o := Tick();
      if o.Done? {
        if roots.active.None? {
          roots := roots.(active := Some(EMPTY_ROOT));
        }
      }
    }

    /** Replaces the record of managed accounts in the active root. */
    method WriteManaged(names: set<Name>) returns (o: Outcome)
      modifies `roots, `budget
      ensures Spent(o, old(roots.active.Some?))
      ensures o.Done? ==> roots == old(roots).(active := Some(old(roots).active.value.(managed := names)))
      ensures o.Interrupted? ==> roots == old(roots)
    {
      if roots.active.None? {
        return Interrupted;
      }
      :- Tick();
      roots := roots.(active := Some(roots.active.value.(managed := names)));
      return Done;
    }

    method WriteActiveReceipt(receipt: Receipt) returns (o: Outcome)
      modifies `roots, `budget
      ensures Spent(o, old(roots.active.Some?))
      ensures o.Done? ==> roots == old(roots).(active := Some(old(roots).active.value.(receipt := Some(receipt))))
      ensures o.Interrupted? ==> roots == old(roots)
    {
      if roots.active.None? {
        return Interrupted;
      }
      :- Tick();
      roots := roots.(active := Some(roots.active.value.(receipt := Some(receipt))));
      return Done;
    }

    method CopyCandidate(source: Root) returns (o: Outcome)
      modifies `roots, `budget
      ensures Spent(o, true)
      ensures o.Done? ==> roots == old(roots).(candidate := Some(source))
      ensures o.Interrupted? ==>
                roots == old(roots).(candidate := roots.candidate) && IsTorn(Some(source), roots.candidate)
    {
      var tick := Tick();
      roots := roots.(candidate := Some(if tick.Done? then source else TearOff(source, tear)));
      return tick;
    }

    /** Adds one file to the candidate: managed files, the first-config marker, the receipt. */
    method UpdateCandidate(root: Root) returns (o: Outcome)
      modifies `roots, `budget
      ensures Spent(o, true)
      ensures o.Done? ==> roots == old(roots).(candidate := Some(root))
      ensures o.Interrupted? ==> roots == old(roots)
    {
      o := Tick();
      if o.Done? {
        roots := roots.(candidate := Some(root));
      }
    }

    /** One run of the activation sequence over the active root: it may rewrite the record of
        managed accounts, and once it has finished nothing is owed any more.  Interrupted, it may
        have rewritten the record already. */
    method Activate(names: set<Name>) returns (o: Outcome)
      modifies `roots, `budget, `owed
      ensures Spent(o, old(roots.active.Some?))
      ensures o.Done? ==> roots == old(roots).(active := Some(old(roots).active.value.(managed := names))) && !owed
      ensures o.Interrupted? ==> owed == old(owed)
      ensures o.Interrupted? ==>
                || roots == old(roots)
                || (old(roots).active.Some?
                    && roots == old(roots).(active := Some(old(roots).active.value.(managed := names))))
    {
      if roots.active.None? {
        return Interrupted;
      }
      o := Tick();
      if o.Done? || !tear.managed {
        roots := roots.(active := Some(roots.active.value.(managed := names)));
      }
      if o.Done? {
        owed := false;
      }
    }
  }
}
