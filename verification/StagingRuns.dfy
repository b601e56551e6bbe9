/** Publishers, the worker, its finalizer and waiting requesters around one staged-job queue, in
    every interleaving of their locked sections and of the directory changes they make outside
    the lock.  A process may also die half-way through a locked section: the `IsTorn…` steps are
    what that leaves behind. */
module StagingRuns {
  import opened Outcomes
  import opened StagingQueue
  import opened Runs

  /** How far the publisher of a job has got.  Each job has one publisher and it never starts
      over; after a failure it only removes what it had put down. */
  datatype Phase = Reserved | Staging | Moved | Published | Withdrawn

  datatype Verdict = Abandoned | Vanished

  /** Where a requester stands in one poll: it reads the result, then takes the queue lock four
      times for one timeout verdict, then reads the result again. */
  datatype Waiter =
    | Polling
    | ReadNothing
    | SawNoClaim
    | SawNoWait
    | CouldNotAbandon
    | Concluded(verdict: Verdict)
    | Failed(verdict: Verdict)
    | Returned

  datatype System = System(
    q: Queue,
    results: set<JobId>,
    phase: map<JobId, Phase>,
    waiters: map<JobId, Waiter>,
    claims: seq<nat>,          // the sequence numbers claimed so far, in order
    claimed: set<JobId>,
    torn: set<JobId>,          // claimed by a worker that died before it removed the ready marker
    abandoned: set<JobId>)

  /* ---------- publishers ---------- */

  ghost predicate IsReserve(s: System, s': System, max: nat, job: JobId, now: int) {
    && job !in s.phase && job !in s.q.reserves && CountJobs(s.q) < max
    && s' == s.(phase := s.phase[job := Reserved], q := WithReservation(s.q, job, Some(s.q.sequence + 1), now))
  }

  /** The sequence number is used up; the reservation is missing or not complete. */
  ghost predicate IsTornReserve(s: System, s': System, max: nat, job: JobId, now: int) {
    && CountJobs(s.q) < max
    && (|| s' == s.(q := s.q.(sequence := s.q.sequence + 1))
        || (&& job !in s.phase && job !in s.q.reserves
            && s' == s.(phase := s.phase[job := Withdrawn], q := WithReservation(s.q, job, None, now))))
  }

  ghost predicate IsStage(s: System, s': System, job: JobId) {
    && job in s.phase && s.phase[job] == Reserved
    && s' == s.(phase := s.phase[job := Staging], q := s.q.(staging := s.q.staging + {job}))
  }

  /** The complete directory appears in the queue, outside the lock. */
  ghost predicate IsMove(s: System, s': System, job: JobId) {
    && job in s.phase && s.phase[job] == Staging && job in s.q.staging
    && s' == s.(phase := s.phase[job := Moved],
                q := s.q.(staging := s.q.staging - {job}, queued := s.q.queued + {job}))
  }

  ghost predicate IsPublish(s: System, s': System, job: JobId) {
    && job in s.phase && s.phase[job] == Moved && job in s.q.reserves && s.q.reserves[job].sequence.Some?
    && s' == s.(phase := s.phase[job := Published],
                q := s.q.(ready := s.q.ready[job := s.q.reserves[job].sequence], reserves := s.q.reserves - {job}))
  }

  /** The marker is there, and the reservation it should replace still is. */
  ghost predicate IsTornPublish(s: System, s': System, job: JobId) {
    && job in s.phase && s.phase[job] == Moved && job in s.q.reserves && s.q.reserves[job].sequence.Some?
    && s' == s.(phase := s.phase[job := Published], q := s.q.(ready := s.q.ready[job := s.q.reserves[job].sequence]))
  }

  /** A publisher that failed removes, one by one and outside the lock, what it may have left. */
  ghost predicate IsWithdraw(s: System, s': System, job: JobId) {
    && job in s.phase
    && s' == s.(phase := s.phase[job := Withdrawn], q := s'.q)
    && (|| s'.q == s.q.(staging := s.q.staging - {job})
        || s'.q == s.q.(queued := s.q.queued - {job})
        || s'.q == s.q.(ready := s.q.ready - {job})
        || s'.q == s.q.(reserves := s.q.reserves - {job}))
  }

  ghost predicate IsRefresh(s: System, s': System, job: JobId, now: int) {
    && job in s.q.reserves
    && s' == s.(q := s.q.(reserves := s.q.reserves[job := s.q.reserves[job].(mtime := now)]))
  }

  ghost predicate IsRelease(s: System, s': System, job: JobId) {
    s' == s.(q := s.q.(reserves := s.q.reserves - {job}))
  }

  ghost predicate IsExpiry(s: System, s': System, now: int) {
    s' == s.(q := ExpireAll(s.q, now))
  }

  /** Of one stale reservation, part of what was not published is left: its directory still being
      written, or that and the queued one. */
  ghost predicate IsTornExpiry(s: System, s': System, job: JobId) {
    && job in s.q.reserves && IsUnpublished(s.q, job)
    && (|| s' == s.(q := s.q.(reserves := s.q.reserves - {job}))
        || s' == s.(q := s.q.(reserves := s.q.reserves - {job}, queued := s.q.queued - {job})))
  }

  /* ---------- the worker ---------- */

  ghost predicate IsClaim(s: System, s': System, job: JobId) {
    && IsFirst(s.q, job)
    && s' == s.(q := Claim(s.q, job), claims := s.claims + [s.q.ready[job].value], claimed := s.claimed + {job})
  }

  /** The directory has been moved, and the ready marker is left. */
  ghost predicate IsTornClaim(s: System, s': System, job: JobId) {
    && IsFirst(s.q, job)
    && s' == s.(q := s.q.(queued := s.q.queued - {job}, active := s.q.active + {job}),
                claims := s.claims + [s.q.ready[job].value], claimed := s.claimed + {job}, torn := s.torn + {job})
  }

  ghost predicate IsSweep(s: System, s': System) {
    IsSwept(s.q, s'.q) && s' == s.(q := s'.q)
  }

  /** A result is published while its job is claimed, and only then is the claim dropped. */
  ghost predicate IsResult(s: System, s': System, job: JobId) {
    job in s.q.active && s' == s.(results := s.results + {job})
  }

  ghost predicate IsDrop(s: System, s': System, job: JobId) {
    job in s.q.active && job in s.results && s' == s.(q := s.q.(active := s.q.active - {job}))
  }

  /* ---------- requesters ---------- */

  ghost predicate IsAbandon(s: System, s': System, job: JobId) {
    && PresenceOf(s.q, job).Queued? && job in s.phase && s.phase[job] in {Moved, Published, Withdrawn}
    && s' == s.(q := Abandon(s.q, job), abandoned := s.abandoned + {job})
  }

  /** The marker is gone, and the directory is left. */
  ghost predicate IsTornAbandon(s: System, s': System, job: JobId) {
    PresenceOf(s.q, job).Queued? && s' == s.(q := s.q.(ready := s.q.ready - {job}))
  }

  ghost predicate IsWait(s: System, s': System, job: JobId) {
    && job in s.phase && s.phase[job] == Published && job !in s.waiters
    && s' == s.(waiters := s.waiters[job := Polling])
  }

  /** One read or one locked section of the requester of `job`. */
  ghost predicate IsPoll(s: System, s': System, job: JobId) {
    && job in s.waiters
    && match s.waiters[job]
       case Polling => Goes(s, s', job, if job in s.results then Returned else ReadNothing)
       case ReadNothing =>
         // the liveness check may not be due yet
         Goes(s, s', job, if PresenceOf(s.q, job).Active? then Polling else SawNoClaim) || Goes(s, s', job, Polling)
       case SawNoClaim => Goes(s, s', job, if IsWaiting(s.q, job) then Polling else SawNoWait)
       case SawNoWait =>
         if PresenceOf(s.q, job).Queued? then
           s' == s.(q := Abandon(s.q, job), abandoned := s.abandoned + {job},
                    waiters := s.waiters[job := Concluded(Abandoned)])
         else
           Goes(s, s', job, CouldNotAbandon)
       case CouldNotAbandon => Goes(s, s', job, if PresenceOf(s.q, job).Missing? then Concluded(Vanished) else Polling)
       case Concluded(verdict) => Goes(s, s', job, if job in s.results then Returned else Failed(verdict))
       case Failed(_) => false
       case Returned => false
  }

  ghost predicate Goes(s: System, s': System, job: JobId, w: Waiter) {
    s' == s.(waiters := s.waiters[job := w])
  }

  ghost predicate IsPublisherStep(s: System, s': System, max: nat) {
    || (exists job, now :: IsReserve(s, s', max, job, now))
    || (exists job, now :: IsTornReserve(s, s', max, job, now))
    || (exists job :: IsTornPublish(s, s', job))
    || (exists job :: IsStage(s, s', job))
    || (exists job :: IsMove(s, s', job))
    || (exists job :: IsPublish(s, s', job))
    || (exists job :: IsWithdraw(s, s', job))
    || (exists job, now :: IsRefresh(s, s', job, now))
    || (exists job :: IsRelease(s, s', job))
  }

  ghost predicate IsWorkerStep(s: System, s': System) {
    || (exists now :: IsExpiry(s, s', now))
    || (exists job :: IsTornExpiry(s, s', job))
    || (exists job :: IsClaim(s, s', job))
    || (exists job :: IsTornClaim(s, s', job))
    || IsSweep(s, s')
    || (exists job :: IsResult(s, s', job))
    || (exists job :: IsDrop(s, s', job))
  }

  ghost predicate IsRequesterStep(s: System, s': System) {
    || (exists job :: IsAbandon(s, s', job))
    || (exists job :: IsTornAbandon(s, s', job))
    || (exists job :: IsWait(s, s', job))
    || (exists job :: IsPoll(s, s', job))
  }

  ghost predicate IsStep(s: System, s': System, max: nat) {
    IsPublisherStep(s, s', max) || IsWorkerStep(s, s') || IsRequesterStep(s, s')
  }

  ghost predicate IsRun(run: seq<System>, max: nat) {
    && run != []
    && run[0] == System(Queue(0, map[], map[], {}, {}, {}), {}, map[], map[], [], {}, {}, {})
    && forall i :: 0 <= i < |run| - 1 ==> IsStep(run[i], run[i + 1], max)
  }

  /* ---------- the invariant ---------- */

  /** Every complete control file carries a number that was handed out, after all numbers claimed so
      far unless its own job is claimed; and no number is held by two jobs. */
  ghost predicate InOrder(s: System) {
    && (forall j :: j in s.q.reserves ==> IsNumbered(s, j, s.q.reserves[j].sequence))
    && (forall j :: j in s.q.ready ==> s.q.ready[j].Some? && IsNumbered(s, j, s.q.ready[j]))
    && (forall i, j :: i in s.q.reserves && j in s.q.reserves && i != j ==>
        Differ(s.q.reserves[i].sequence, s.q.reserves[j].sequence))
    && (forall i, j :: i in s.q.ready && j in s.q.ready && i != j ==> Differ(s.q.ready[i], s.q.ready[j]))
    && (forall i, j :: i in s.q.ready && j in s.q.reserves && i != j ==> Differ(s.q.ready[i], s.q.reserves[j].sequence))
    && (s.claims != [] ==> s.claims[|s.claims| - 1] <= s.q.sequence)
    && (forall i, j :: 0 <= i < j < |s.claims| ==> s.claims[i] < s.claims[j])
  }

  predicate Differ(m: Option<nat>, n: Option<nat>) {
    m.Some? ==> m != n
  }

  ghost predicate IsNumbered(s: System, job: JobId, sequence: Option<nat>) {
    sequence.Some? ==>
      && sequence.value <= s.q.sequence
      && (job in s.claimed || s.claims == [] || s.claims[|s.claims| - 1] < sequence.value)
  }

  /** Each job goes one way: reserved, written, moved, published; then claimed or abandoned. */
  ghost predicate IsOrderly(s: System, j: JobId) {
    && (j in s.q.reserves || j in s.q.staging || j in s.q.queued || j in s.q.ready || j in s.q.active ==> j in s.phase)
    && (j in s.q.queued ==> s.phase[j] in {Moved, Published, Withdrawn})
    && (j in s.q.ready ==> s.phase[j] in {Published, Withdrawn})
    && (j in s.claimed || j in s.abandoned || j in s.waiters ==> IsPast(s, j))
    && (j in s.claimed ==> s.phase[j] != Moved && j !in s.q.queued)
    && (j in s.claimed && (j in s.q.ready || j in s.abandoned) ==> j in s.torn)
    && (j in s.claimed ==> j in s.q.active || j in s.results)
    && (j in s.q.active || j in s.torn ==> j in s.claimed)
    && (j in s.abandoned ==> j !in s.q.queued)
    && (j in s.waiters ==> s.phase[j] != Moved && IsSound(s, j))
  }

  ghost predicate InPhase(s: System) {
    && (forall j :: IsOrderly(s, j))
    && (forall i, j :: i in s.q.active && j in s.q.active ==> i == j)
  }

  /** The directory of this job has been in the queue and cannot come back. */
  ghost predicate IsPast(s: System, job: JobId) {
    job in s.phase && s.phase[job] in {Moved, Published, Withdrawn}
  }

  /** A requester that has made up its mind is right about a job that was never claimed; about a
      claimed job it will find the result. */
  ghost predicate IsSound(s: System, job: JobId)
    requires job in s.waiters
  {
    match s.waiters[job]
    case Concluded(_) => job in s.results || IsLost(s, job)
    case Failed(_) => IsLost(s, job)
    case _ => true
  }

  ghost predicate IsLost(s: System, job: JobId) {
    job !in s.claimed && job !in s.q.queued
  }

  ghost predicate Inv(s: System) {
    InOrder(s) && InPhase(s)
  }

  /* ---------- every step keeps the invariant ---------- */

  /** Control files have only gone, or been touched. */
  ghost predicate IsFewer(s: System, s': System) {
    && s'.q.sequence >= s.q.sequence && s'.claims == s.claims && s.claimed <= s'.claimed
    && (forall j :: j in s'.q.ready ==> j in s.q.ready && s'.q.ready[j] == s.q.ready[j])
    && (forall j :: j in s'.q.reserves ==> j in s.q.reserves && s'.q.reserves[j].sequence == s.q.reserves[j].sequence)
  }

  lemma FewerKeepsOrder(s: System, s': System)
    requires InOrder(s) && IsFewer(s, s')
    ensures InOrder(s')
  {
  }

  lemma ReserveKeepsOrder(s: System, s': System, job: JobId, now: int, sequence: Option<nat>)
    requires InOrder(s) && job !in s.q.reserves && (sequence.Some? ==> sequence.value == s.q.sequence + 1)
    requires s'.q == WithReservation(s.q, job, sequence, now) && s'.claims == s.claims && s'.claimed == s.claimed
    ensures InOrder(s')
  {
    var newest := s'.q.sequence;
    forall j | j in s.q.ready ensures s.q.ready[j].value < newest && IsNumbered(s', j, s.q.ready[j]) {
      assert IsNumbered(s, j, s.q.ready[j]);
    }
    forall j | j in s'.q.reserves
      ensures IsNumbered(s', j, s'.q.reserves[j].sequence)
      ensures j != job ==> s'.q.reserves[j] == s.q.reserves[j]
      ensures j != job && s'.q.reserves[j].sequence.Some? ==> s'.q.reserves[j].sequence.value < newest
    {
      assert j != job ==> IsNumbered(s, j, s.q.reserves[j].sequence);
    }
    forall i, j | i in s'.q.reserves && j in s'.q.reserves && i != j
      ensures Differ(s'.q.reserves[i].sequence, s'.q.reserves[j].sequence)
    {
      assert i != job && j != job ==> Differ(s.q.reserves[i].sequence, s.q.reserves[j].sequence);
    }
  }

  lemma ReservationKeeps(s: System, s': System, job: JobId, now: int, sequence: Option<nat>, phase: Phase)
    requires Inv(s) && job !in s.phase && job !in s.q.reserves && phase in {Reserved, Withdrawn}
    requires sequence.Some? ==> sequence.value == s.q.sequence + 1
    requires s' == s.(phase := s.phase[job := phase], q := WithReservation(s.q, job, sequence, now))
    ensures Inv(s')
  {
    ReserveKeepsOrder(s, s', job, now, sequence);
    forall j ensures IsOrderly(s', j) {
      assert IsOrderly(s, j) && IsOrderly(s, job);
    }
  }

  lemma ReserveKeeps(s: System, s': System, max: nat, job: JobId, now: int)
    requires Inv(s) && IsReserve(s, s', max, job, now)
    ensures Inv(s')
  {
    ReservationKeeps(s, s', job, now, Some(s.q.sequence + 1), Reserved);
  }

  lemma SkippedNumberKeeps(s: System, s': System)
    requires Inv(s) && s' == s.(q := s.q.(sequence := s.q.sequence + 1))
    ensures Inv(s')
  {
    FewerKeepsOrder(s, s');
    forall j ensures IsOrderly(s', j) {
      assert IsOrderly(s, j);
    }
  }

  lemma TornReserveKeeps(s: System, s': System, max: nat, job: JobId, now: int)
    requires Inv(s) && IsTornReserve(s, s', max, job, now)
    ensures Inv(s')
  {
    if s'.phase == s.phase {
      SkippedNumberKeeps(s, s');
    } else {
      ReservationKeeps(s, s', job, now, None, Withdrawn);
    }
  }

  lemma PublishKeepsOrder(s: System, s': System, job: JobId)
    requires InOrder(s) && job in s.q.reserves && s.q.reserves[job].sequence.Some? && job !in s.q.ready
    requires s'.q.ready == s.q.ready[job := s.q.reserves[job].sequence] && s'.q.sequence == s.q.sequence
    requires s'.q.reserves == s.q.reserves || s'.q.reserves == s.q.reserves - {job}
    requires s'.claims == s.claims && s'.claimed == s.claimed
    ensures InOrder(s')
  {
    forall i, j | i in s'.q.ready && j in s'.q.ready && i != j ensures Differ(s'.q.ready[i], s'.q.ready[j]) {
      assert i != job ==> s'.q.ready[i] == s.q.ready[i];
      assert j != job ==> s'.q.ready[j] == s.q.ready[j];
    }
  }

  lemma PublishKeeps(s: System, s': System, job: JobId)
    requires Inv(s) && (IsPublish(s, s', job) || IsTornPublish(s, s', job))
    ensures Inv(s')
  {
    assert IsOrderly(s, job);
    PublishKeepsOrder(s, s', job);
    forall j ensures IsOrderly(s', j) {
      assert IsOrderly(s, j);
    }
  }

  lemma OtherPublisherKeeps(s: System, s': System, job: JobId, now: int)
    requires Inv(s)
    requires || IsStage(s, s', job) || IsMove(s, s', job) || IsWithdraw(s, s', job)
             || IsRefresh(s, s', job, now) || IsRelease(s, s', job)
    ensures Inv(s')
  {
    FewerKeepsOrder(s, s');
    forall j ensures IsOrderly(s', j) {
      assert IsOrderly(s, j);
    }
  }

  lemma ClaimKeepsOrder(s: System, s': System, job: JobId)
    requires InOrder(s) && job !in s.claimed && (IsClaim(s, s', job) || IsTornClaim(s, s', job))
    ensures InOrder(s')
  {
    var n := s.q.ready[job].value;
    assert IsNumbered(s, job, s.q.ready[job]);
    forall j | j in s'.q.reserves && j != job && s.q.reserves[j].sequence.Some?
      ensures n < s.q.reserves[j].sequence.value <= s.q.sequence
    {
      assert Differ(s.q.ready[job], s.q.reserves[j].sequence) && !Precedes(s.q.reserves[j].sequence, n);
      assert IsNumbered(s, j, s.q.reserves[j].sequence);
    }
    forall j | j in s'.q.ready && j != job ensures n < s.q.ready[j].value <= s.q.sequence {
      assert Differ(s.q.ready[job], s.q.ready[j]) && !Precedes(s.q.ready[j], n);
      assert IsNumbered(s, j, s.q.ready[j]);
    }
  }

  lemma ClaimKeeps(s: System, s': System, job: JobId)
    requires Inv(s) && (IsClaim(s, s', job) || IsTornClaim(s, s', job))
    ensures Inv(s')
  {
    assert IsOrderly(s, job);
    ClaimKeepsOrder(s, s', job);
    forall j ensures IsOrderly(s', j) {
      assert IsOrderly(s, j);
    }
  }

  lemma OtherWorkerKeeps(s: System, s': System, job: JobId, now: int)
    requires Inv(s)
    requires || IsExpiry(s, s', now) || IsTornExpiry(s, s', job) || IsSweep(s, s')
             || IsResult(s, s', job) || IsDrop(s, s', job)
    ensures Inv(s')
  {
    FewerKeepsOrder(s, s');
    forall j ensures IsOrderly(s', j) {
      assert IsOrderly(s, j);
    }
  }

  lemma RequesterKeeps(s: System, s': System, job: JobId)
    requires Inv(s)
    requires IsAbandon(s, s', job) || IsTornAbandon(s, s', job) || IsWait(s, s', job)
    ensures Inv(s')
  {
    FewerKeepsOrder(s, s');
    forall j ensures IsOrderly(s', j) {
      assert IsOrderly(s, j);
    }
  }

  lemma PollKeeps(s: System, s': System, job: JobId)
    requires Inv(s) && IsPoll(s, s', job)
    ensures Inv(s')
  {
    FewerKeepsOrder(s, s');
    forall j ensures IsOrderly(s', j) {
      assert IsOrderly(s, j) && IsOrderly(s, job);
    }
  }

  lemma StepKeepsInv(s: System, s': System, max: nat)
    requires Inv(s) && IsStep(s, s', max)
    ensures Inv(s')
  {
    if job, now :| IsReserve(s, s', max, job, now) {
      ReserveKeeps(s, s', max, job, now);
    } else if job, now :| IsTornReserve(s, s', max, job, now) {
      TornReserveKeeps(s, s', max, job, now);
    } else if job :| IsPublish(s, s', job) {
      PublishKeeps(s, s', job);
    } else if job :| IsTornPublish(s, s', job) {
      PublishKeeps(s, s', job);
    } else if job :| IsClaim(s, s', job) {
      ClaimKeeps(s, s', job);
    } else if job :| IsTornClaim(s, s', job) {
      ClaimKeeps(s, s', job);
    } else if job :| IsTornExpiry(s, s', job) {
      OtherWorkerKeeps(s, s', job, 0);
    } else if job :| IsTornAbandon(s, s', job) {
      RequesterKeeps(s, s', job);
    } else if job :| IsStage(s, s', job) {
      OtherPublisherKeeps(s, s', job, 0);
    } else if job :| IsMove(s, s', job) {
      OtherPublisherKeeps(s, s', job, 0);
    } else if job :| IsWithdraw(s, s', job) {
      OtherPublisherKeeps(s, s', job, 0);
    } else if job, now :| IsRefresh(s, s', job, now) {
      OtherPublisherKeeps(s, s', job, now);
    } else if job :| IsRelease(s, s', job) {
      OtherPublisherKeeps(s, s', job, 0);
    } else if now :| IsExpiry(s, s', now) {
      OtherWorkerKeeps(s, s', "", now);
    } else if job :| IsResult(s, s', job) {
      OtherWorkerKeeps(s, s', job, 0);
    } else if job :| IsDrop(s, s', job) {
      OtherWorkerKeeps(s, s', job, 0);
    } else if job :| IsAbandon(s, s', job) {
      RequesterKeeps(s, s', job);
    } else if job :| IsWait(s, s', job) {
      RequesterKeeps(s, s', job);
    } else if job :| IsPoll(s, s', job) {
      PollKeeps(s, s', job);
    } else {
      OtherWorkerKeeps(s, s', "", 0);
    }
  }

  lemma {:induction false} InvAt(run: seq<System>, max: nat, n: nat)
    requires IsRun(run, max) && n < |run|
    ensures Inv(run[n])
  {
    if n > 0 {
      InvAt(run, max, n - 1);
      assert IsStep(run[n - 1], run[n - 1 + 1], max);
      StepKeepsInv(run[n - 1], run[n], max);
    }
  }

  lemma RunKeepsInv(run: seq<System>, max: nat)
    requires IsRun(run, max)
    ensures forall i :: 0 <= i < |run| ==> Inv(run[i])
  {
    forall i | 0 <= i < |run| ensures Inv(run[i]) {
      InvAt(run, max, i);
    }
  }

  /* ---------- what a run guarantees ---------- */

  /** First in, first out: jobs are claimed in the order of their reservations, one at a time,
      and never while a lower number is reserved or ready. */
  lemma Fifo(run: seq<System>, max: nat, i: nat)
    requires IsRun(run, max) && i < |run|
    ensures forall a, b :: 0 <= a < b < |run[i].claims| ==> run[i].claims[a] < run[i].claims[b]
    ensures |run[i].q.active| <= 1
    ensures forall job, s' :: IsClaim(run[i], s', job) || IsTornClaim(run[i], s', job) ==>
              !HasLower(run[i].q, run[i].q.ready[job].value) && run[i].q.active == {}
  {
    RunKeepsInv(run, max);
    if j :| j in run[i].q.active {
      assert run[i].q.active == {j};
    }
  }

  /** The timeout race.  A requester whose wait fails, as abandoned or as vanished, waits for a job
      that is never claimed in the whole run, wherever processes die.  And a job is both abandoned
      and claimed only if a worker died between moving its directory and removing its marker. */
  lemma TimeoutRace(run: seq<System>, max: nat, i: nat, j: nat, job: JobId)
    requires IsRun(run, max) && i < |run| && j < |run|
    ensures job in run[i].waiters && run[i].waiters[job].Failed? ==> job !in run[j].claimed
    ensures job in run[i].claimed ==> job in run[i].q.active + run[i].results
    ensures job in run[i].claimed && job in run[j].abandoned ==> job in run[|run| - 1].torn
  {
    RunKeepsInv(run, max);
    var last := |run| - 1;
    Persists(run, max, i, last, job);
    Persists(run, max, j, last, job);
    assert IsOrderly(run[last], job) && IsOrderly(run[i], job);
  }

  /** A claimed job looks queued, so that it can be reported as abandoned, exactly while the marker
      that a dead worker left is still there and its claim has been dropped. */
  lemma WhenClaimedLooksQueued(run: seq<System>, max: nat, i: nat, job: JobId)
    requires IsRun(run, max) && i < |run| && job in run[i].claimed
    ensures PresenceOf(run[i].q, job).Queued? <==>
            job in run[i].torn && job in run[i].q.ready && job !in run[i].q.active
  {
    InvAt(run, max, i);
    assert IsOrderly(run[i], job);
  }

  lemma Extended(run: seq<System>, s': System, max: nat)
    requires IsRun(run, max) && IsStep(run[|run| - 1], s', max)
    ensures IsRun(run + [s'], max)
  {
    var longer := run + [s'];
    forall i | 0 <= i < |longer| - 1 ensures IsStep(longer[i], longer[i + 1], max) {
      if i < |run| - 1 {
        assert longer[i] == run[i] && longer[i + 1] == run[i + 1];
      }
    }
  }

  /** The only job, with its directory in the queue and its ready marker beside it. */
  function OneReady(job: JobId): System {
    System(Queue(1, map[], map[job := Some(1)], {job}, {}, {}), {}, map[job := Published], map[], [], {}, {}, {})
  }

  lemma OneGetsReady(job: JobId) returns (run: seq<System>)
    ensures IsRun(run, 1) && run[|run| - 1] == OneReady(job)
  {
    var s0 := System(Queue(0, map[], map[], {}, {}, {}), {}, map[], map[], [], {}, {}, {});
    var s1 := s0.(phase := map[job := Reserved], q := WithReservation(s0.q, job, Some(1), 0));
    var s2 := s1.(phase := map[job := Staging], q := s1.q.(staging := {job}));
    var s3 := s2.(phase := map[job := Moved], q := s2.q.(staging := {}, queued := {job}));
    run := [s0];
    assert CountJobs(s0.q) == 0 && IsReserve(s0, s1, 1, job, 0);
    Extended(run, s1, 1);
    run := run + [s1];
    assert s2.phase == s1.phase[job := Staging] && IsStage(s1, s2, job);
    Extended(run, s2, 1);
    run := run + [s2];
    assert s3.phase == s2.phase[job := Moved] && s3.q.staging == s2.q.staging - {job} && IsMove(s2, s3, job);
    Extended(run, s3, 1);
    run := run + [s3];
    OnePublishes(s3, job);
    Extended(run, OneReady(job), 1);
    run := run + [OneReady(job)];
  }

  lemma OnePublishes(s: System, job: JobId)
    requires s == System(Queue(1, map[job := Reservation(Some(1), 0)], map[], {job}, {}, {}),
                         {}, map[job := Moved], map[], [], {}, {}, {})
    ensures IsPublish(s, OneReady(job), job)
  {
    var s' := OneReady(job);
    assert s'.phase == s.phase[job := Published];
    assert s'.q.ready == s.q.ready[job := s.q.reserves[job].sequence] && s'.q.reserves == s.q.reserves - {job};
  }

  /** Such a run: the worker dies within its claim, the finalizer publishes a result and drops the
      claim, and a timeout then abandons the job. */
  lemma TornClaimIsAbandoned() returns (run: seq<System>, job: JobId)
    ensures IsRun(run, 1) && job in run[|run| - 1].claimed && job in run[|run| - 1].abandoned
  {
    job := "job";
    run := OneGetsReady(job);
    var s := OneReady(job);
    var s1 := s.(q := s.q.(queued := {}, active := {job}), claims := [1], claimed := {job}, torn := {job});
    var s2 := s1.(results := {job});
    var s3 := s2.(q := s2.q.(active := {}));
    var s4 := s3.(q := Abandon(s3.q, job), abandoned := {job});
    assert IsFirst(s.q, job) && s1.q.queued == s.q.queued - {job} && IsTornClaim(s, s1, job);
    Extended(run, s1, 1);
    run := run + [s1];
    assert IsResult(s1, s2, job);
    Extended(run, s2, 1);
    run := run + [s2];
    assert s3.q.active == s2.q.active - {job} && IsDrop(s2, s3, job);
    Extended(run, s3, 1);
    run := run + [s3];
    assert PresenceOf(s3.q, job).Queued? && s3.phase[job] == Published && IsAbandon(s3, s4, job);
    Extended(run, s4, 1);
    run := run + [s4];
  }

  /** Nothing that is final for `job` has been taken back. */
  ghost predicate Stands(s: System, s': System, job: JobId) {
    && s.claimed <= s'.claimed && s.abandoned <= s'.abandoned && s.torn <= s'.torn
    && (job in s.waiters && s.waiters[job].Failed? ==> job in s'.waiters && s'.waiters[job] == s.waiters[job])
  }

  lemma WorkerStands(s: System, s': System, job: JobId)
    requires IsWorkerStep(s, s')
    ensures Stands(s, s', job)
  {
  }

  lemma PublisherStands(s: System, s': System, max: nat, job: JobId)
    requires IsPublisherStep(s, s', max)
    ensures Stands(s, s', job)
  {
    assert s'.claimed == s.claimed && s'.abandoned == s.abandoned && s'.torn == s.torn && s'.waiters == s.waiters;
  }

  lemma RequesterStands(s: System, s': System, job: JobId, other: JobId)
    requires || IsAbandon(s, s', other) || IsTornAbandon(s, s', other)
             || IsWait(s, s', other) || IsPoll(s, s', other)
    ensures Stands(s, s', job)
  {
  }

  lemma StepStands(s: System, s': System, max: nat, job: JobId)
    requires IsStep(s, s', max)
    ensures Stands(s, s', job)
  {
    if IsPublisherStep(s, s', max) {
      PublisherStands(s, s', max, job);
    } else if IsWorkerStep(s, s') {
      WorkerStands(s, s', job);
    } else {
      OtherRequesterStands(s, s', job);
    }
  }

  lemma OtherRequesterStands(s: System, s': System, job: JobId)
    requires IsRequesterStep(s, s')
    ensures Stands(s, s', job)
  {
    if other :| IsAbandon(s, s', other) {
      RequesterStands(s, s', job, other);
    } else if other :| IsTornAbandon(s, s', other) {
      RequesterStands(s, s', job, other);
    } else if other :| IsWait(s, s', other) {
      RequesterStands(s, s', job, other);
    } else if other :| IsPoll(s, s', other) {
      RequesterStands(s, s', job, other);
    }
  }

  lemma Persists(run: seq<System>, max: nat, i: nat, j: nat, job: JobId)
    requires IsRun(run, max) && i <= j < |run|
    ensures Stands(run[i], run[j], job)
  {
    forall k | 0 <= k < |run| - 1 ensures Stands(run[k], run[k + 1], job) {
      StepStands(run[k], run[k + 1], max, job);
    }
    Chain(run, (s, s') => Stands(s, s', job), i, j);
  }

  /* ---------- capacity ---------- */

  function Occupied(q: Queue): set<JobId> {
    q.active + q.queued + q.reserves.Keys
  }

  /** A publisher that moves its directory into the queue holds a live reservation. */
  ghost predicate MovesReserved(s: System, s': System) {
    forall job :: IsMove(s, s', job) ==> job in s.q.reserves
  }

  /** A reservation was made, in full or in part. */
  ghost predicate IsReserving(s: System, s': System, max: nat, job: JobId, now: int) {
    IsReserve(s, s', max, job, now) || IsTornReserve(s, s', max, job, now)
  }

  lemma PublisherOccupies(s: System, s': System, max: nat)
    requires IsPublisherStep(s, s', max) && MovesReserved(s, s')
    ensures (exists job, now :: IsReserving(s, s', max, job, now)) || Occupied(s'.q) <= Occupied(s.q)
  {
    if job, now :| IsReserve(s, s', max, job, now) {
      assert IsReserving(s, s', max, job, now);
    } else if job, now :| IsTornReserve(s, s', max, job, now) {
      assert IsReserving(s, s', max, job, now);
    } else if job :| IsStage(s, s', job) {
    } else if job :| IsMove(s, s', job) {
      assert job in s.q.reserves;
    } else if job :| IsPublish(s, s', job) {
      assert s'.q.reserves.Keys <= s.q.reserves.Keys;
    } else if job :| IsWithdraw(s, s', job) {
      assert s'.q.reserves.Keys <= s.q.reserves.Keys;
    }
  }

  lemma WorkerOccupies(s: System, s': System)
    requires IsWorkerStep(s, s')
    ensures Occupied(s'.q) <= Occupied(s.q)
  {
    if job :| IsClaim(s, s', job) {
      assert job in s.q.queued && s'.q.reserves == s.q.reserves;
    } else if job :| IsTornClaim(s, s', job) {
      assert job in s.q.queued && s'.q.reserves == s.q.reserves;
    } else {
      assert s'.q.active <= s.q.active && s'.q.queued <= s.q.queued && s'.q.reserves.Keys <= s.q.reserves.Keys;
    }
  }

  lemma RequesterOccupies(s: System, s': System)
    requires IsRequesterStep(s, s')
    ensures Occupied(s'.q) <= Occupied(s.q)
  {
    assert s'.q.active == s.q.active && s'.q.queued <= s.q.queued && s'.q.reserves == s.q.reserves;
  }

  lemma ReserveOccupies(s: System, s': System, max: nat, job: JobId, now: int)
    requires IsReserving(s, s', max, job, now)
    ensures Occupied(s'.q) <= Occupied(s.q) + {job} && CountJobs(s.q) < max
  {
    assert forall j :: j in s'.q.reserves ==> j == job || j in s.q.reserves;
  }

  lemma ReserveKeepsCapacity(s: System, s': System, max: nat, job: JobId, now: int)
    requires CountJobs(s.q) == |Occupied(s.q)| && IsReserving(s, s', max, job, now)
    ensures |Occupied(s'.q)| <= max
  {
    ReserveOccupies(s, s', max, job, now);
    AtMostOneMore(Occupied(s'.q), Occupied(s.q), job);
  }

  lemma AtMostOneMore(a: set<JobId>, b: set<JobId>, job: JobId)
    requires a <= b + {job}
    ensures |a| <= |b| + 1
  {
    Subset(a - {job}, b);
  }

  lemma StepKeepsCapacity(s: System, s': System, max: nat)
    requires CountJobs(s.q) == |Occupied(s.q)| <= max
    requires IsStep(s, s', max) && MovesReserved(s, s')
    ensures |Occupied(s'.q)| <= max
  {
    if job, now :| IsReserving(s, s', max, job, now) {
      ReserveKeepsCapacity(s, s', max, job, now);
    } else {
      if IsPublisherStep(s, s', max) {
        PublisherOccupies(s, s', max);
      } else if IsWorkerStep(s, s') {
        WorkerOccupies(s, s');
      } else {
        RequesterOccupies(s, s');
      }
      Subset(Occupied(s'.q), Occupied(s.q));
    }
  }

  lemma CountIsExact(s: System)
    requires Inv(s)
    ensures CountJobs(s.q) == |Occupied(s.q)|
  {
    CountsDistinctJobs(s.q);
    forall j | j in s.q.active ensures j !in s.q.queued {
      assert IsOrderly(s, j);
    }
  }

  ghost predicate WithinCapacity(s: System, max: nat) {
    CountJobs(s.q) == |Occupied(s.q)| <= max
  }

  /** Backpressure: in a run whose publishers hold a live reservation while they move their
      directory into the queue, every job is counted once and there are never more than allowed. */
  lemma {:induction false} Capacity(run: seq<System>, max: nat, n: nat)
    requires IsRun(run, max) && n < |run|
    requires forall i :: 0 <= i < |run| - 1 ==> MovesReserved(run[i], run[i + 1])
    ensures WithinCapacity(run[n], max)
  {
    RunKeepsInv(run, max);
    if n > 0 {
      Capacity(run, max, n - 1);
      assert IsStep(run[n - 1], run[n - 1 + 1], max) && MovesReserved(run[n - 1], run[n - 1 + 1]);
      StepKeepsCapacity(run[n - 1], run[n], max);
    }
    CountIsExact(run[n]);
  }
}
