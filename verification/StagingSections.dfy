/** The locked operations of the queue are sequences of steps of the run system, so what holds of
    all its runs holds of them. */
module StagingSections {
  import opened Outcomes
  import opened StagingQueue
  import opened StagingRuns
  import opened Runs

  /** Steps lead from `s` to `s'`, in a queue of at most `max` jobs. */
  ghost predicate Leads(s: System, s': System, max: nat) {
    Reaches(s, s', (a, b) => IsStep(a, b, max))
  }

  lemma Expires(s: System, max: nat, now: int) returns (e: System)
    ensures e == s.(q := ExpireAll(s.q, now)) && Leads(s, e, max)
  {
    e := s.(q := ExpireAll(s.q, now));
    assert IsExpiry(s, e, now);
    ReachesItself(s, (a, b) => IsStep(a, b, max));
    ReachesOneMore(s, s, e, (a, b) => IsStep(a, b, max));
  }

  lemma OneMore(s: System, s1: System, s2: System, max: nat)
    requires Leads(s, s1, max) && IsStep(s1, s2, max)
    ensures Leads(s, s2, max)
  {
    ReachesOneMore(s, s1, s2, (a, b) => IsStep(a, b, max));
  }

  lemma ReserveIsSteps(s: System, q': Queue, job: JobId, max: nat, now: int, r: Result<bool, string>)
      returns (s': System)
    requires job !in s.phase && IsReserveOutcome(s.q, q', job, max, now, r)
    ensures s' == s.(q := q', phase := if r == Ok(true) then s.phase[job := Reserved] else s.phase) && Leads(s, s', max)
  {
    var e := Expires(s, max, now);
    if r == Ok(true) {
      s' := s.(q := q', phase := s.phase[job := Reserved]);
      assert IsReserve(e, s', max, job, now);
      OneMore(s, e, s', max);
    } else {
      s' := s.(q := q');
      if r.Err? {
        assert IsTornReserve(e, s', max, job, now);
        OneMore(s, e, s', max);
      }
    }
  }

  lemma PublishIsSteps(s: System, q': Queue, job: JobId, max: nat, now: int, ok: bool) returns (s': System)
    requires job in s.phase && s.phase[job] == Moved && IsPublishOutcome(s.q, q', job, now, ok)
    ensures s' == s.(q := q', phase := if ok then s.phase[job := Published] else s.phase) && Leads(s, s', max)
  {
    var e := Expires(s, max, now);
    s' := s.(q := q', phase := if ok then s.phase[job := Published] else s.phase);
    if ok {
      assert IsPublish(e, s', job);
      OneMore(s, e, s', max);
    }
  }

  /** Expiry, then the removal of malformed and orphaned files, then the claim. */
  lemma ClaimIsSteps(s: System, q': Queue, max: nat, now: int, claimed: Option<JobId>) returns (s': System)
    requires IsClaimOutcome(ExpireAll(s.q, now), q', claimed)
    ensures s'.q == q' && Leads(s, s', max)
    ensures claimed.None? ==> s' == s.(q := q')
    ensures claimed.Some? ==>
              && s'.claimed == s.claimed + {claimed.value} && s.claims < s'.claims
              && s' == s.(q := q', claimed := s'.claimed, claims := s'.claims)
  {
    var e := Expires(s, max, now);
    if claimed.None? {
      s' := s.(q := q');
      assert IsSweep(e, s');
      OneMore(s, e, s', max);
    } else {
      var job := claimed.value;
      var swept :| IsSwept(e.q, swept) && IsFirst(swept, job) && q' == Claim(swept, job);
      var s1 := e.(q := swept);
      s' := s1.(q := q', claims := s1.claims + [swept.ready[job].value], claimed := s1.claimed + {job});
      assert IsSweep(e, s1);
      OneMore(s, e, s1, max);
      assert IsClaim(s1, s', job);
      OneMore(s, s1, s', max);
    }
  }

  /** The second section of a timeout verdict: what it answers is what a poll sees. */
  lemma WaitingIsSteps(s: System, q': Queue, job: JobId, max: nat, now: int, waiting: bool) returns (s': System)
    requires job in s.waiters && s.waiters[job] == SawNoClaim
    requires IsSwept(ExpireAll(s.q, now), q') && waiting == IsWaiting(ExpireAll(s.q, now), job)
    ensures s' == s.(q := q', waiters := s.waiters[job := if waiting then Polling else SawNoWait]) && Leads(s, s', max)
  {
    var e := Expires(s, max, now);
    var s1 := e.(waiters := e.waiters[job := if waiting then Polling else SawNoWait]);
    s' := s1.(q := q');
    assert IsPoll(e, s1, job);
    OneMore(s, e, s1, max);
    assert IsSweep(s1, s');
    OneMore(s, s1, s', max);
  }

  /** The third: it abandons the job or goes on. */
  lemma AbandonIsSteps(s: System, job: JobId, max: nat, abandoned: bool) returns (s': System)
    requires job in s.waiters && s.waiters[job] == SawNoWait && abandoned == PresenceOf(s.q, job).Queued?
    ensures s'.q == Abandon(s.q, job) && Leads(s, s', max)
    ensures if abandoned then job in s'.abandoned && s'.waiters == s.waiters[job := Concluded(Abandoned)]
            else s' == s.(waiters := s.waiters[job := CouldNotAbandon])
  {
    s' := if abandoned then s.(q := Abandon(s.q, job), abandoned := s.abandoned + {job},
                               waiters := s.waiters[job := Concluded(Abandoned)])
          else s.(waiters := s.waiters[job := CouldNotAbandon]);
    assert IsPoll(s, s', job);
    ReachesItself(s, (a, b) => IsStep(a, b, max));
    OneMore(s, s, s', max);
  }

  /** Whatever the operations lead to, the invariant of all runs still holds there. */
  lemma {:induction false} LeadsKeepsInv(s: System, s': System, max: nat)
    requires Inv(s) && Leads(s, s', max)
    ensures Inv(s')
  {
    var path: seq<System> :| IsPath(path, s, s', (a, b) => IsStep(a, b, max));
    PathKeepsInv(path, max, |path| - 1);
  }

  lemma {:induction false} PathKeepsInv(path: seq<System>, max: nat, n: nat)
    requires n < |path| && Inv(path[0]) && forall i :: 0 <= i < |path| - 1 ==> IsStep(path[i], path[i + 1], max)
    ensures Inv(path[n])
  {
    if n > 0 {
      PathKeepsInv(path, max, n - 1);
      assert IsStep(path[n - 1], path[n - 1 + 1], max);
      StepKeepsInv(path[n - 1], path[n], max);
    }
  }
}
