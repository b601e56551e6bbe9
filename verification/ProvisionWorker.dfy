/** The root worker and its finalizer around a device: claims, results and reboots.

    `Device.history` collects every world the device passes through between two of its durable
    changes, so that what `ProvisionRuns` proves of all runs holds of all its executions. */
module ProvisionWorker {
  import opened Outcomes
  import opened ConfigRoots
  import opened RootStore
  import opened Activation
  import opened ApplyTransaction
  import opened Candidates
  import opened Provision
  import opened ProvisionRuns

  /** Recovers an interrupted apply and, within the same boot, reactivates a rollback root that
      was put back.  The boot recovery leaves activation to the units ordered after it. */
  method RecoverStagedApply(s: Store, boot: bool, back: Attempt) returns (o: Outcome, recovery: ApplyRecovery)
    modifies s`roots, s`budget, s`owed
    ensures IsAttempt(old(s.roots), s.roots)
    ensures old(Settled(s.roots)) ==> s.roots == old(s.roots)
    ensures o.Done? && old(WellFormed(s.roots)) ==>
              Settled(s.roots) && Visible(s.roots.active) == Verdict(old(s.roots))
    ensures o.Done? ==> recovery.receipt == ReceiptOf(s.roots.active)
    ensures o.Done? ==> recovery.restoredRollback == old(OwesRollback(s.roots))
    ensures old(WellFormed(s.roots) && (s.owed ==> s.roots.reactivate)) ==>
              (o.Interrupted? && s.owed ==> s.roots.reactivate) && (o.Done? && !boot ==> !s.owed)
    ensures old(WellFormed(s.roots) && s.budget >= Work(s.roots) + 3) ==> o.Done?
  {
    recovery :- RecoverInterruptedApply(s);
    if boot {
      :- s.UnlinkReactivationMarker();
      return Done, recovery;
    }
    if recovery.restoredRollback {
      var _ :- RunRollbackActivation(s, back);
    }
    return Done, recovery;
  }

  /** Once a recovery has run to its end and the marker is cleared, the next one reports nothing. */
  lemma NothingOwedAfterRecovery(d: Roots)
    requires WellFormed(d)
    ensures !OwesRollback(Recovered(d).(reactivate := false))
  {
    RecoverySettles(d);
  }

  /** The results once every claim in `active` without one has been finalized by `receipt`. */
  function Finalized(results: map<JobId, Status>, active: map<JobId, Option<Manifest>>, receipt: Option<Receipt>):
    map<JobId, Status>
  {
    map j | j in active.Keys + results.Keys ::
      if j in results then results[j] else RecoveredStatus(receipt, j, active[j])
  }

  lemma FinalizedStep(results: map<JobId, Status>, active: map<JobId, Option<Manifest>>, receipt: Option<Receipt>,
                      job: JobId)
    requires job in active
    ensures var results' := if job in results then results
                            else results[job := RecoveredStatus(receipt, job, active[job])];
            Finalized(results', active - {job}, receipt) == Finalized(results, active, receipt)
  {
    var results' := if job in results then results else results[job := RecoveredStatus(receipt, job, active[job])];
    var before, after := Finalized(results, active, receipt), Finalized(results', active - {job}, receipt);
    forall j ensures (j in after <==> j in before) && (j in after ==> after[j] == before[j]) {
    }
  }

  lemma FewerClaims(active: map<JobId, Option<Manifest>>, job: JobId)
    requires job in active
    ensures |active - {job}| == |active| - 1
  {
    assert (active - {job}).Keys == active.Keys - {job};
  }

  lemma NoneLeft(results: map<JobId, Status>, receipt: Option<Receipt>)
    ensures Finalized(results, map[], receipt) == results
  {
  }

  /* ---------- an apply as a step ---------- */

  /** Either nothing was committed since `w`, or `job` was, and then as `target`. */
  ghost predicate Decides(w: World, w': World, job: JobId, target: Root) {
    if job in w'.commits then w'.commits == w.commits[job := target] && w'.config == Some(target)
    else w'.commits == w.commits && w'.config == w.config
  }

  function TransactionIn(w: World, job: JobId): Transaction
    requires job in w.staged
  {
    TransactionOf(w.staged[job], IsProvisioned(w.config))
  }

  /** The world once an apply of the claimed `job` has run or been cut off. */
  ghost function AfterApply(w: World, d: Roots, job: JobId): World
    requires job in w.staged
  {
    if IsCommittedBy(d.active, TransactionIn(w, job)) then
      w.(roots := d, commits := w.commits[job := TargetIn(w, job)], config := Some(TargetIn(w, job)))
    else
      w.(roots := d)
  }

  /** A job that has just been claimed cannot own the receipt on disk. */
  lemma NotYetCommitted(w: World, job: JobId)
    requires IsSafe(w) && Settled(w.roots) && job in w.staged && job !in w.commits
    ensures TransactionIn(w, job) == TransactionOf(w.staged[job], IsProvisioned(w.roots.active))
    ensures !IsCommittedBy(w.roots.active, TransactionIn(w, job))
    ensures TargetIn(w, job) == Target(w.roots.active, w.staged[job])
  {
    TargetOfVisible(w.roots.active, w.staged[job]);
    assert IsJobSafe(w, job);
  }

  lemma ApplyIsStep(w: World, d: Roots, job: JobId)
    requires job in w.active && job in w.staged && job !in w.commits && job !in w.results
    requires IsApplyCut(w.roots, d, TransactionIn(w, job), TargetIn(w, job))
    ensures IsStep(w, AfterApply(w, d, job)) && Decides(w, AfterApply(w, d, job), job, TargetIn(w, job))
    ensures job in AfterApply(w, d, job).commits <==> IsCommittedBy(d.active, TransactionIn(w, job))
  {
    var w' := AfterApply(w, d, job);
    if IsCommittedBy(d.active, TransactionIn(w, job)) {
      assert IsCommit(w, w', job);
    } else {
      assert IsWork(w, w');
    }
  }

  lemma MayPublish(w: World, job: JobId, result: ApplyResult)
    requires job in w.active && Settled(w.roots) && job in w.commits
    requires w.commits[job].receipt.Some? && w.commits[job].receipt.value.result == result
    ensures IsPublish(w, w.(results := w.results[job := Succeeded(result)]), job, Succeeded(result))
  {
  }

  /** A turn over `job` that began in `before` and ended quiet with this status. */
  lemma FinishedTurn(before: World, w: World, job: JobId, manifest: Option<Manifest>, c: Rendered, status: Status)
    requires IsSafe(before) && IsQuiet(before) && IsSafe(w) && IsQuiet(w) && c.job == job
    requires Decides(before, w, job, Target(before.roots.active, c))
    requires job in w.results && w.results[job] == status && job in w.seen && w.seen[job] == manifest
    ensures Settled(w.roots)
    ensures Visible(w.roots.active) == (if job in w.commits then Some(Target(before.roots.active, c))
                                        else Visible(before.roots.active))
    ensures status.Succeeded? ==> job in w.commits
    ensures job in w.commits && manifest == Some(Manifest(job, c.digest)) ==> status.Succeeded?
  {
    QuietIsSettled(before);
    QuietIsSettled(w);
    assert IsJobSafe(w, job);
  }

  /** Promotes the candidate of a claimed job on a settled device, which no record is aware of yet. */
  method PromoteClaimed(store: Store, ghost w: World, job: JobId, c: Rendered, hook: bool, attempt: Attempt,
                        back: Attempt)
    returns (o: Outcome, applied: Applied)
    requires IsSafe(w) && w.roots == store.roots && Settled(w.roots)
    requires job in w.staged && w.staged[job] == c && job !in w.commits
    modifies store`roots, store`budget, store`owed
    ensures IsApplyCut(w.roots, store.roots, TransactionIn(w, job), TargetIn(w, job))
    ensures o.Done? ==> (applied.Success? <==> IsCommittedBy(store.roots.active, TransactionIn(w, job)))
    ensures o.Done? && applied.Success? ==> Settled(store.roots) && applied.result == TransactionIn(w, job).result
    ensures store.owed && !old(store.owed) ==> store.roots.reactivate
    ensures old(store.budget >= 20 && IsAccepted(store.roots, c, hook, attempt)) ==>
              o.Done? && applied.Success? && store.budget + 20 >= old(store.budget)
    ensures TargetIn(w, job) == Target(old(store.roots.active), c)
    ensures TransactionIn(w, job).job == job && TransactionIn(w, job).digest == c.digest
  {
    assert IsJobSafe(w, job);
    NotYetCommitted(w, job);
    o, applied := PromoteCandidate(store, c.(managed := Managed(store.roots.active)), hook, attempt, back);
  }

  datatype Turn = NotClaimed | Finished(status: Status) | Stopped

  class Device {
    const store: Store
    var active: map<JobId, Option<Manifest>>
    var results: map<JobId, Status>
    var recovered: bool
    ghost var history: seq<World>

    ghost predicate Valid()
      reads this, store
    {
      && IsRun(history)
      && IsNow(history[|history| - 1])
      && (store.owed ==> store.roots.reactivate)
    }

    ghost predicate IsNow(w: World)
      reads this, store
    {
      w.roots == store.roots && w.active == active && w.results == results && w.recovered == recovered
    }

    ghost function World(): World
      requires history != []
      reads this
    {
      history[|history| - 1]
    }

    /** A settled device with what is on record of it. */
    constructor (store: Store, ghost w: World)
      requires w.roots == store.roots && w.recovered && IsInitial(w) && !store.owed
      ensures Valid() && this.store == store && World() == w && fresh(this)
    {
      this.store := store;
      active, results, recovered := map[], map[], true;
      history := [w];
    }

    /** No job was claimed or committed. */
    twostate predicate SameRecords()
      requires old(history) != [] && history != []
      reads this
    {
      && World().seen == old(World()).seen && World().staged == old(World()).staged
      && World().commits == old(World()).commits && World().config == old(World()).config
    }

    lemma Safe()
      requires Valid()
      ensures IsSafe(World())
    {
      RunIsSafe(history);
    }

    ghost method Record(w: World)
      requires IsRun(history) && IsStep(World(), w)
      modifies `history
      ensures history == old(history) + [w] && IsRun(history) && World() == w
    {
      history := history + [w];
    }

    /** Publishes a result.  A failure to flush it may be raised after it is in place. */
    method WriteResult(job: JobId, status: Status) returns (o: Outcome)
      requires Valid() && IsPublish(World(), World().(results := World().results[job := status]), job, status)
      modifies this`results, this`history, store`budget
      ensures Valid() && old(history) <= history
      ensures results == old(results)[job := status] || (o.Interrupted? && results == old(results))
      ensures World() == old(World()).(results := results)
      ensures old(store.budget) >= 2 ==> o.Done?
    {
      o := store.Tick();
      if o.Done? {
        results := results[job := status];
        Record(World().(results := results));
        o := store.Tick();
      }
    }

    method CleanupClaimedJob(job: JobId)
      requires Valid() && job in active && job in results && Settled(store.roots)
      modifies this`active, this`history
      ensures Valid() && old(history) <= history
      ensures active == old(active) - {job}
      ensures World() == old(World()).(active := active)
    {
      active := active - {job};
      ghost var w := World().(active := active);
      assert IsDrop(World(), w, job);
      Record(w);
    }

    /** Promotes the candidate of a claim that has just been taken.  What it commits, if it does, is
        the target of that candidate over the configuration before. */
    method ApplyClaimed(job: JobId, c: Rendered, hook: bool, attempt: Attempt, back: Attempt)
      returns (o: Outcome, applied: Applied)
      requires Valid() && active.Keys == {job} && job in World().staged && World().staged[job] == c
      requires Settled(store.roots) && job !in World().commits && job !in results
      modifies this`history, store`roots, store`budget, store`owed
      ensures Valid() && old(history) <= history
      ensures o.Done? ==> (applied.Success? <==> job in World().commits)
      ensures old(store.budget >= 20 && IsAccepted(store.roots, c, hook, attempt)) ==>
                o.Done? && applied.Success? && store.budget + 20 >= old(store.budget)
      ensures o.Done? && applied.Success? ==>
                && Settled(store.roots)
                && World().commits[job].receipt == Some(Receipt(job, c.digest, applied.result, Committed))
      ensures World().seen == old(World()).seen && World().staged == old(World()).staged
      ensures Decides(old(World()), World(), job, Target(old(store.roots.active), c))
    {
      Safe();
      ghost var w := World();
      o, applied := PromoteClaimed(store, w, job, c, hook, attempt, back);
      assert job in w.active;
      ApplyIsStep(w, store.roots, job);
      Record(AfterApply(w, store.roots, job));
    }

    /** Recovers the configuration roots; on a quiet device there is nothing to do. */
    method Recover(boot: bool, back: Attempt) returns (o: Outcome, receipt: Option<Receipt>)
      requires Valid()
      modifies this`history, store`roots, store`budget, store`owed
      ensures Valid() && old(history) <= history
      ensures World() == old(World()).(roots := store.roots)
      ensures IsAttempt(old(store.roots), store.roots)
      ensures o.Done? ==> Settled(store.roots) && receipt == ReceiptOf(store.roots.active)
      ensures old(store.budget >= Work(store.roots) + 3) ==> o.Done?
    {
      Safe();
      ghost var w := World();
      var recovery;
      o, recovery := RecoverStagedApply(store, boot, back);
      receipt := recovery.receipt;
      if boot && o.Done? {
        store.owed := false;  // the ordered boot units activate the restored configuration
      }
      assert IsWork(w, w.(roots := store.roots)) || w == w.(roots := store.roots);
      Record(w.(roots := store.roots));
    }

    method ClaimNextJob(job: JobId, manifest: Option<Manifest>, ghost c: Rendered) returns (claimed: bool)
      requires Valid() && job !in World().seen && c.job == job
      modifies this`active, this`history
      ensures Valid() && old(history) <= history
      ensures claimed <==> old(recovered) && old(active) == map[]
      ensures !claimed ==> history == old(history) && active == old(active)
      ensures claimed ==> active == map[job := manifest]
      ensures claimed ==>
                World() == old(World()).(active := active, seen := old(World()).seen[job := manifest],
                                         staged := old(World()).staged[job := c])
      ensures claimed ==> Settled(store.roots) && job !in World().commits && job !in results && active.Keys == {job}
    {
      if !recovered || active != map[] {
        return false;
      }
      Safe();
      assert IsJobSafe(World(), job);
      active := map[job := manifest];
      ghost var w := World().(active := active, seen := World().seen[job := manifest],
                              staged := World().staged[job := c]);
      assert IsClaim(World(), w, job, manifest, c);
      Record(w);
      return true;
    }

    /** Publishes the result of a claim whose configuration is settled, and drops the claim. */
    method Finish(job: JobId, status: Status) returns (turn: Turn)
      requires Valid() && active.Keys == {job}
      requires IsPublish(World(), World().(results := World().results[job := status]), job, status)
      modifies this`active, this`results, this`history, store`budget
      ensures Valid() && old(history) <= history && SameRecords()
      ensures turn == Finished(status) || turn.Stopped?
      ensures old(store.budget) >= 2 ==> turn == Finished(status)
      ensures turn.Finished? ==> active == map[] && results == old(results)[job := status]
      ensures turn.Stopped? ==> active == old(active) && World() == old(World()).(results := results)
                                && (results == old(results) || results == old(results)[job := status])
    {
      var o := WriteResult(job, status);
      if o.Interrupted? {
        return Stopped;
      }
      CleanupClaimedJob(job);
      return Finished(status);
    }

    /** What the worker does with a claim after an exception: it asks the receipt. */
    method Reconcile(job: JobId, manifest: Option<Manifest>, back: Attempt) returns (turn: Turn)
      requires Valid() && active == map[job := manifest]
      modifies this`active, this`results, this`history, store`roots, store`budget, store`owed
      ensures Valid() && old(history) <= history && SameRecords()
      ensures !turn.NotClaimed?
      ensures turn.Finished? ==>
                active == map[] && turn.status == RecoveredStatus(ReceiptOf(store.roots.active), job, manifest)
      ensures turn.Finished? ==> results == old(results)[job := turn.status]
      ensures turn.Stopped? ==> active == old(active)
    {
      assert job in active;
      var o, receipt := Recover(false, back);
      if o.Interrupted? {
        return Stopped;
      }
      turn := Finish(job, RecoveredStatus(receipt, job, manifest));
    }

    /** One turn of the root worker over the next staged job.  `verified` says whether the claimed
        directory passes verification, rendering and authorization; `dies` whether an interruption
        of the apply kills the worker or raises; `power` and `tear` are for the handler.  A finished
        turn leaves the target of the candidate active, or what was active before.  A job that is not
        verified is never applied; one that is verified and accepted is, given 22 operations of time. */
    method ApplyStagedJob(job: JobId, manifest: Option<Manifest>, c: Rendered, verified: bool, hook: bool,
                          attempt: Attempt, back: Attempt, dies: bool, power: nat, tear: Tear, again: Attempt)
      returns (turn: Turn)
      requires Valid() && job !in World().seen && c.job == job
      modifies this`active, this`results, this`history, store
      ensures Valid() && old(history) <= history
      ensures turn.NotClaimed? <==> !(old(recovered) && old(active) == map[])
      ensures turn.NotClaimed? ==> history == old(history)
      ensures turn.Finished? ==> active == map[] && job in results && results[job] == turn.status
      ensures turn.Stopped? ==> active == map[job := manifest]
      ensures !turn.NotClaimed? ==>
                && World().seen == old(World()).seen[job := manifest] && World().staged == old(World()).staged[job := c]
                && Decides(old(World()), World(), job, Target(old(store.roots.active), c))
      ensures turn.Finished? ==>
                && Settled(store.roots)
                && Visible(store.roots.active) ==
                   (if job in World().commits then Some(Target(old(store.roots.active), c))
                    else Visible(old(store.roots.active)))
      ensures turn.Finished? ==>
                && (turn.status.Succeeded? ==> job in World().commits)
                && (job in World().commits && manifest == Some(Manifest(job, c.digest)) ==> turn.status.Succeeded?)
      ensures !turn.NotClaimed? && (!verified || manifest.None? || manifest.value.job != job) ==>
                job !in World().commits && (turn.Finished? ==> turn.status.Failed?)
      ensures !turn.NotClaimed? && verified && manifest.Some? && manifest.value.job == job
              && old(store.budget >= 22 && IsAccepted(store.roots, c, hook, attempt)) ==>
                turn.Finished? && turn.status.Succeeded? && job in World().commits
    {
      ghost var before := World();
      Safe();
      var claimed := ClaimNextJob(job, manifest, c);
      if !claimed {
        return NotClaimed;
      }
      turn := RunClaimed(job, manifest, c, verified, hook, attempt, back, dies, power, tear, again);
      if turn.Finished? {
        Safe();
        FinishedTurn(before, World(), job, manifest, c, turn.status);
      }
    }

    /** The part of a turn after the claim. */
    method RunClaimed(job: JobId, manifest: Option<Manifest>, c: Rendered, verified: bool, hook: bool,
                      attempt: Attempt, back: Attempt, dies: bool, power: nat, tear: Tear, again: Attempt)
      returns (turn: Turn)
      requires Valid() && active == map[job := manifest] && job in World().staged && World().staged[job] == c
      requires Settled(store.roots) && job !in World().commits && job !in results
      modifies this`active, this`results, this`history, store
      ensures Valid() && old(history) <= history && !turn.NotClaimed?
      ensures turn.Finished? ==> active == map[] && job in results && results[job] == turn.status
      ensures turn.Stopped? ==> active == map[job := manifest]
      ensures World().seen == old(World()).seen && World().staged == old(World()).staged && recovered == old(recovered)
      ensures Decides(old(World()), World(), job, Target(old(store.roots.active), c))
      ensures !verified || manifest.None? || manifest.value.job != job ==>
                job !in World().commits && (turn.Finished? ==> turn.status.Failed?)
      ensures verified && manifest.Some? && manifest.value.job == job
              && old(store.budget >= 22 && IsAccepted(store.roots, c, hook, attempt)) ==>
                turn.Finished? && turn.status.Succeeded? && job in World().commits
    {
      turn := Stopped;
      if verified && manifest.Some? && manifest.value.job == job {
        turn := ApplyAndFinish(job, c, hook, attempt, back);
      }
      if turn.Finished? || dies {
        return;
      }
      store.Resume(power, tear);
      turn := Reconcile(job, manifest, again);
      Safe();
      assert turn.Finished? ==> IsJobSafe(World(), job);
    }

    /** Applies the candidate and publishes its success; what is left otherwise is for the handler. */
    method ApplyAndFinish(job: JobId, c: Rendered, hook: bool, attempt: Attempt, back: Attempt) returns (turn: Turn)
      requires Valid() && active.Keys == {job} && job in World().staged && World().staged[job] == c
      requires Settled(store.roots) && job !in World().commits && job !in results
      modifies this`active, this`results, this`history, store`roots, store`budget, store`owed
      ensures Valid() && old(history) <= history && !turn.NotClaimed?
      ensures turn.Finished? ==> active == map[] && job in results && results[job] == turn.status
      ensures turn.Stopped? ==> active == old(active)
      ensures World().seen == old(World()).seen && World().staged == old(World()).staged
      ensures Decides(old(World()), World(), job, Target(old(store.roots.active), c))
      ensures old(store.budget >= 22 && IsAccepted(store.roots, c, hook, attempt)) ==>
                turn.Finished? && turn.status.Succeeded? && job in World().commits
    {
      var o, applied := ApplyClaimed(job, c, hook, attempt, back);
      if o.Interrupted? || !applied.Success? {
        return Stopped;
      }
      MayPublish(World(), job, applied.result);
      turn := Finish(job, Succeeded(applied.result));
    }

    /** Gives one claim left by a worker its result, unless it has one, and drops the claim. */
    method FinalizeClaim(job: JobId, receipt: Option<Receipt>) returns (o: Outcome)
      requires Valid() && job in active && Settled(store.roots) && receipt == ReceiptOf(store.roots.active)
      modifies this`active, this`results, this`history, store`budget
      ensures Valid() && old(history) <= history && SameRecords()
      ensures o.Done? ==> active == old(active) - {job}
                          && results == (if job in old(results) then old(results)
                                         else old(results)[job := RecoveredStatus(receipt, job, old(active)[job])])
      ensures o.Interrupted? ==> results.Keys - {job} == old(results).Keys - {job}
                                 && forall j :: j in old(results) ==> j in results && results[j] == old(results)[j]
    {
      if job !in results {
        o := WriteResult(job, RecoveredStatus(receipt, job, active[job]));
        if o.Interrupted? {
          return;
        }
      }
      CleanupClaimedJob(job);
      o := Done;
    }

    /** Gives every claim that a worker left its result and drops it. */
    method FinalizeAbandonedActiveJobs(receipt: Option<Receipt>) returns (o: Outcome, finalized: nat)
      requires Valid() && Settled(store.roots) && receipt == ReceiptOf(store.roots.active)
      modifies this`active, this`results, this`history, store`budget
      ensures Valid() && old(history) <= history && SameRecords()
      ensures o.Done? ==> active == map[] && finalized == |old(active)|
      ensures o.Done? ==> results == Finalized(old(results), old(active), receipt)
    {
      finalized := 0;
      while active != map[]
        invariant Valid() && old(history) <= history && SameRecords()
        invariant finalized + |active| == |old(active)|
        invariant Finalized(results, active, receipt) == Finalized(old(results), old(active), receipt)
        decreases |active|
      {
        var job: JobId :| job in active;
        FinalizedStep(results, active, receipt, job);
        FewerClaims(active, job);
        o := FinalizeClaim(job, receipt);
        if o.Interrupted? {
          return;
        }
        finalized := finalized + 1;
      }
      NoneLeft(results, receipt);
      o := Done;
    }

    /** Recovers the device, then finalizes every claim that a worker left.  A result that is
        already there stays. */
    method FinalizeStagedJobs(back: Attempt) returns (o: Outcome, finalized: nat)
      requires Valid()
      modifies this`active, this`results, this`history, store`roots, store`budget, store`owed
      ensures Valid() && old(history) <= history && SameRecords()
      ensures IsAttempt(old(store.roots), store.roots)
      ensures o.Done? ==> active == map[] && finalized == |old(active)| && Settled(store.roots)
      ensures o.Done? ==> results == Finalized(old(results), old(active), ReceiptOf(store.roots.active))
    {
      finalized := 0;
      var receipt;
      o, receipt := Recover(false, back);
      if o.Done? {
        o, finalized := FinalizeAbandonedActiveJobs(receipt);
      }
    }

    /** Power loss, then the recovery unit of the next boot, perhaps cut off again. */
    method Reboot(power: nat, tear: Tear, back: Attempt) returns (o: Outcome)
      requires Valid()
      modifies this`active, this`results, this`recovered, this`history, store
      ensures Valid() && old(history) <= history
      ensures active == map[] && results == map[] && recovered == o.Done?
      ensures IsAttempt(old(store.roots), store.roots)
      ensures o.Done? ==> Settled(store.roots)
      ensures power >= old(Work(store.roots)) + 3 ==> o.Done?
    {
      active, results, recovered := map[], map[], false;
      store.owed := false;
      store.Resume(power, tear);
      ghost var w := World().(active := map[], results := map[], recovered := false);
      assert IsReboot(World(), w);
      Record(w);
      var receipt;
      o, receipt := Recover(true, back);
      if o.Done? {
        recovered := true;
        assert IsBootRecovered(World(), World().(recovered := true));
        Record(World().(recovered := true));
      }
    }
  }
}
