/** The single-flight manager of background jobs.  Each method is what happens between two awaits;
    they may be called in any order. */
module Jobs {
  import opened Outcomes

  const MAX_RETAINED_JOBS := 64

  type Handle = nat

  datatype State = Submitted | Running | Succeeded | Failed {
    predicate IsTerminal() {
      Succeeded? || Failed?
    }
  }

  /** Only the oldest `count` of `pool` have gone. */
  ghost predicate IsEvicted(before: map<Handle, int>, after: map<Handle, int>, pool: set<Handle>, count: nat) {
    && after.Keys <= before.Keys && (forall h :: h in after ==> after[h] == before[h])
    && before.Keys - after.Keys <= pool && |before| == |after| + count
    && forall gone, kept :: gone in before && gone !in after && kept in pool && kept in after ==>
        before[gone] <= before[kept]
  }

  lemma EvictOne(before: map<Handle, int>, jobs: map<Handle, int>, oldest: Handle, count: nat)
    requires IsEvicted(before, jobs, before.Keys, count) && oldest in jobs
    requires forall h :: h in jobs ==> jobs[oldest] <= jobs[h]
    ensures IsEvicted(before, jobs - {oldest}, before.Keys, count + 1)
    ensures (jobs - {oldest}).Keys == jobs.Keys - {oldest} && |jobs - {oldest}| == |jobs| - 1
  {
    assert (jobs - {oldest}).Keys == jobs.Keys - {oldest};
  }

  class JobManager {
    var jobs: map<Handle, int>          // the retained jobs, with the time of their submission
    var states: map<Handle, State>      // every job there has been, retained or not
    var current: Option<Handle>

    /** Single flight: whatever job is submitted or running is the current one. */
    ghost predicate Valid()
      reads this
    {
      && |jobs| <= MAX_RETAINED_JOBS && jobs.Keys <= states.Keys
      && (current.Some? ==> current.value in states)
      && (forall h :: h in states && !states[h].IsTerminal() ==> current == Some(h))
    }

    /** States only move on, and terminal ones are final. */
    twostate predicate MovesOn()
      reads this
    {
      forall h :: h in old(states) ==>
        h in states && (old(states)[h].IsTerminal() ==> states[h] == old(states)[h])
    }

    constructor ()
      ensures Valid() && jobs == map[] && states == map[] && current == None
    {
      jobs, states, current := map[], map[], None;
    }

    predicate IsBusy()
      requires current.Some? ==> current.value in states
      reads this
    {
      current.Some? && !states[current.value].IsTerminal()
    }

    /** Accepts a new job unless one is submitted or running. */
    method Submit(job: Handle, now: int) returns (accepted: bool)
      requires Valid() && job !in states
      modifies this
      ensures Valid() && MovesOn()
      ensures accepted <==> forall h :: h in old(states) ==> old(states)[h].IsTerminal()
      ensures !accepted ==> jobs == old(jobs) && states == old(states) && current == old(current)
      ensures accepted ==>
                && states == old(states)[job := Submitted] && current == Some(job)
                && job in jobs && jobs[job] == now
                && IsEvicted(old(jobs), jobs - {job}, old(jobs).Keys, if |old(jobs)| == MAX_RETAINED_JOBS then 1 else 0)
    {
      if IsBusy() {
        return false;
      }
      EvictOldJobs();
      ghost var kept := jobs;
      jobs := jobs[job := now];
      assert jobs - {job} == kept && jobs.Keys == kept.Keys + {job};
      states := states[job := Submitted];
      current := Some(job);
      return true;
    }

    /** Runs work under the same flight without retaining it. */
    method RunSync(job: Handle) returns (accepted: bool)
      requires Valid() && job !in states
      modifies this
      ensures Valid() && MovesOn() && jobs == old(jobs)
      ensures accepted <==> forall h :: h in old(states) ==> old(states)[h].IsTerminal()
      ensures if accepted then states == old(states)[job := Running] && current == Some(job)
              else states == old(states) && current == old(current)
    {
      if IsBusy() {
        return false;
      }
      states := states[job := Running];
      current := Some(job);
      return true;
    }

    method Start(job: Handle)
      requires Valid() && job in states && states[job].Submitted?
      modifies this`states
      ensures Valid() && MovesOn() && states == old(states)[job := Running]
    {
      states := states[job := Running];
    }

    method Settle(job: Handle, success: bool)
      requires Valid() && job in states && states[job].Running?
      modifies this`states
      ensures Valid() && MovesOn() && states == old(states)[job := if success then Succeeded else Failed]
    {
      states := states[job := if success then Succeeded else Failed];
    }

    /** A finished job steps down, which never clears its successor. */
    method Finish(job: Handle)
      requires Valid() && job in states && states[job].IsTerminal()
      modifies this`current
      ensures Valid() && current == if old(current) == Some(job) then None else old(current)
      ensures forall h :: h in states && !states[h].IsTerminal() ==> current == Some(h)
    {
      if current == Some(job) {
        current := None;
      }
    }

    /** With nothing in flight every retained job can go, so there is always room for one more. */
    method EvictOldJobs()
      requires Valid() && forall h :: h in states ==> states[h].IsTerminal()
      modifies this`jobs
      ensures |jobs| < MAX_RETAINED_JOBS
      ensures IsEvicted(old(jobs), jobs, old(jobs).Keys, if |old(jobs)| == MAX_RETAINED_JOBS then 1 else 0)
    {
      if |jobs| < MAX_RETAINED_JOBS {
        return;
      }
      ghost var before, removed := jobs, 0;
      var completed := set h | h in jobs && states[h].IsTerminal();
      var toRemove := |jobs| - MAX_RETAINED_JOBS + 1;
      while toRemove > 0 && completed != {}
        invariant completed == jobs.Keys && removed + toRemove == 1 && toRemove >= 0
        invariant IsEvicted(before, jobs, before.Keys, removed)
        decreases toRemove
      {
        var oldest := OldestOf(completed);
        EvictOne(before, jobs, oldest, removed);
        jobs := jobs - {oldest};
        completed := completed - {oldest};
        removed := removed + 1;
        toRemove := toRemove - 1;
      }
      assert |jobs| == |jobs.Keys|;
    }

    method OldestOf(pool: set<Handle>) returns (oldest: Handle)
      requires pool != {} && pool <= jobs.Keys
      ensures oldest in pool && forall h :: h in pool ==> jobs[oldest] <= jobs[h]
    {
      oldest :| oldest in pool;
      var todo := pool;
      while todo != {}
        invariant todo <= pool && oldest in pool
        invariant forall h :: h in pool - todo ==> jobs[oldest] <= jobs[h]
        decreases |todo|
      {
        var h: Handle :| h in todo;
        if jobs[h] < jobs[oldest] {
          oldest := h;
        }
        todo := todo - {h};
      }
    }
  }
}
