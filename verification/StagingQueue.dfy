/** The bounded FIFO queue of staged jobs.  Every method here runs under the queue lock. */
module StagingQueue {
  import opened Outcomes

  type JobId = string

  const RESERVATION_TTL := 300

  /** A control file; its sequence is `None` where the file is malformed. */
  datatype Reservation = Reservation(sequence: Option<nat>, mtime: int)

  datatype Queue = Queue(
    sequence: nat,                      // the last sequence number handed out
    reserves: map<JobId, Reservation>,
    ready: map<JobId, Option<nat>>,
    queued: set<JobId>,                 // job directories in the queue
    staging: set<JobId>,                // job directories still being written
    active: set<JobId>)                 // claimed job directories

  /* ---------- expiry ---------- */

  predicate IsStale(r: Reservation, now: int) {
    r.mtime < now - RESERVATION_TTL
  }

  predicate IsUnpublished(q: Queue, job: JobId) {
    job !in q.ready && job !in q.active
  }

  /** Drops one reservation, and with it what its publisher had not published. */
  function Expire(q: Queue, job: JobId): Queue {
    var gone := if IsUnpublished(q, job) then {job} else {};
    q.(reserves := q.reserves - {job}, queued := q.queued - gone, staging := q.staging - gone)
  }

  function ExpireAll(q: Queue, now: int): Queue {
    var stale := set j | j in q.reserves && IsStale(q.reserves[j], now);
    var gone := set j | j in stale && IsUnpublished(q, j);
    q.(reserves := q.reserves - stale, queued := q.queued - gone, staging := q.staging - gone)
  }

  /** A reservation lives for 300 seconds after it was last touched.  While it lives nothing of its
      job is removed; then it goes, and what its job has not published goes with it. */
  lemma ExpiryMeans(q: Queue, now: int, job: JobId)
    ensures var e := ExpireAll(q, now);
            var alive, stale := job in q.reserves && now - q.reserves[job].mtime <= 300,
                                job in q.reserves && now - q.reserves[job].mtime > 300;
            var unpublished := job !in q.ready && job !in q.active;
      && (alive ==> job in e.reserves && e.reserves[job] == q.reserves[job])
      && (stale || job !in q.reserves ==> job !in e.reserves)
      && (job in e.queued <==> job in q.queued && !(stale && unpublished))
      && (job in e.staging <==> job in q.staging && !(stale && unpublished))
      && e.ready == q.ready && e.active == q.active && e.sequence == q.sequence
  {
  }

  /* ---------- counting ---------- */

  /** Active jobs, queued jobs, and reservations of neither. */
  function CountJobs(q: Queue): nat {
    |q.active| + |q.queued| + |q.reserves.Keys - q.active - q.queued|
  }

  /** The count is that of the distinct jobs exactly while no job is queued and claimed at once. */
  lemma CountsDistinctJobs(q: Queue)
    ensures CountJobs(q) == |q.active + q.queued + q.reserves.Keys| <==> q.active !! q.queued
  {
    var both, rest := q.active + q.queued, q.reserves.Keys - q.active - q.queued;
    UnionSize(q.active, q.queued);
    DisjointUnionSize(both, rest);
    SameUnion(q);
    EmptyOverlap(q.active, q.queued);
  }

  lemma SameUnion(q: Queue)
    ensures q.active + q.queued + q.reserves.Keys == (q.active + q.queued) + (q.reserves.Keys - q.active - q.queued)
  {
  }

  lemma DisjointUnionSize(a: set<JobId>, b: set<JobId>)
    requires a !! b
    ensures |a + b| == |a| + |b|
  {
  }

  lemma UnionSize(a: set<JobId>, b: set<JobId>)
    ensures |a + b| + |a * b| == |a| + |b|
  {
  }

  lemma EmptyOverlap(a: set<JobId>, b: set<JobId>)
    ensures a !! b <==> |a * b| == 0
  {
    if j :| j in a && j in b {
      assert j in a * b;
    } else {
      assert a * b == {};
    }
  }

  /* ---------- claiming ---------- */

  predicate Precedes(sequence: Option<nat>, bound: nat) {
    sequence.Some? && sequence.value < bound
  }

  predicate IsClaimable(q: Queue, job: JobId) {
    job in q.ready && q.ready[job].Some? && job in q.queued
  }

  /** Only malformed control files and markers of jobs without a directory have gone. */
  ghost predicate IsSwept(q: Queue, q': Queue) {
    && q' == q.(ready := q'.ready, reserves := q'.reserves)
    && q'.ready.Keys <= q.ready.Keys && q'.reserves.Keys <= q.reserves.Keys
    && (forall j :: j in q'.ready ==> q'.ready[j] == q.ready[j])
    && (forall j :: j in q'.reserves ==> q'.reserves[j] == q.reserves[j])
    && (forall j :: j in q.ready && j !in q'.ready ==> !IsClaimable(q, j))
    && (forall j :: j in q.reserves && j !in q'.reserves ==> q.reserves[j].sequence.None?)
  }

  ghost predicate HasLower(q: Queue, bound: nat) {
    || (exists j :: j in q.reserves && Precedes(q.reserves[j].sequence, bound))
    || (exists j :: j in q.ready && Precedes(q.ready[j], bound))
  }

  /** `job` may be claimed: nothing is active, it is complete, and nothing of a lower sequence
      number is reserved or ready with a directory. */
  ghost predicate IsNext(q: Queue, job: JobId) {
    && q.active == {}
    && IsClaimable(q, job)
    && (forall j :: j in q.reserves ==> !Precedes(q.reserves[j].sequence, q.ready[job].value))
    && (forall j :: IsClaimable(q, j) ==> q.ready[job].value <= q.ready[j].value)
  }

  /** No control file at all carries a lower sequence number. */
  ghost predicate IsFirst(q: Queue, job: JobId) {
    IsNext(q, job) && !HasLower(q, q.ready[job].value)
  }

  function Claim(q: Queue, job: JobId): Queue {
    q.(ready := q.ready - {job}, queued := q.queued - {job}, active := q.active + {job})
  }

  /* ---------- presence ---------- */

  datatype Presence = Active | Queued | Missing

  function PresenceOf(q: Queue, job: JobId): Presence {
    if job in q.active then Active
    else if job in q.queued || job in q.ready then Queued
    else Missing
  }

  function Abandon(q: Queue, job: JobId): Queue {
    if PresenceOf(q, job).Queued? then q.(ready := q.ready - {job}, queued := q.queued - {job}) else q
  }

  function SequenceOf(q: Queue, job: JobId): Option<nat> {
    if job in q.ready && q.ready[job].Some? then q.ready[job]
    else if job in q.reserves then q.reserves[job].sequence
    else None
  }

  /** Another job is active, or a lower sequence number is ahead. */
  ghost predicate IsWaiting(q: Queue, job: JobId) {
    q.active != {} || (SequenceOf(q, job).Some? && HasLower(q, SequenceOf(q, job).value))
  }

  ghost predicate IsBelow(q: Queue, bound: nat) {
    || (exists j :: j in q.reserves && q.reserves[j].sequence.Some? && q.reserves[j].sequence.value < bound)
    || (exists j :: j in q.ready && q.ready[j].Some? && q.ready[j].value < bound)
  }

  /** A job waits for its turn while another one is active, or a reservation or ready marker has a
      number below its own: that of its marker, or of its reservation if it has no marker yet. */
  lemma WaitingMeans(q: Queue, job: JobId)
    ensures q.active != {} ==> IsWaiting(q, job)
    ensures q.active == {} && job in q.ready && q.ready[job].Some? ==>
              (IsWaiting(q, job) <==> IsBelow(q, q.ready[job].value))
    ensures (&& q.active == {} && (job !in q.ready || q.ready[job].None?)
             && job in q.reserves && q.reserves[job].sequence.Some?) ==>
              (IsWaiting(q, job) <==> IsBelow(q, q.reserves[job].sequence.value))
    ensures (&& q.active == {} && (job !in q.ready || q.ready[job].None?)
             && (job !in q.reserves || q.reserves[job].sequence.None?)) ==> !IsWaiting(q, job)
  {
    assert forall bound :: HasLower(q, bound) <==> IsBelow(q, bound);
  }

  /* ---------- outcomes of the locked operations ---------- */

  function WithReservation(q: Queue, job: JobId, sequence: Option<nat>, now: int): Queue {
    q.(sequence := q.sequence + 1, reserves := q.reserves[job := Reservation(sequence, now)])
  }

  /** A slot is refused exactly when the live jobs fill the queue.  A job that has a live reservation
      is an error, which uses up a sequence number all the same. */
  ghost predicate IsReserveOutcome(q: Queue, q': Queue, job: JobId, maxJobs: nat, now: int, r: Result<bool, string>) {
    var e := ExpireAll(q, now);
    match r
    case Ok(reserved) =>
      if reserved then
        CountJobs(e) < maxJobs && job !in e.reserves && q' == WithReservation(e, job, Some(e.sequence + 1), now)
      else
        CountJobs(e) >= maxJobs && q' == e
    case Err(_) => CountJobs(e) < maxJobs && job in e.reserves && q' == e.(sequence := e.sequence + 1)
  }

  ghost predicate IsPublishOutcome(q: Queue, q': Queue, job: JobId, now: int, ok: bool) {
    var e := ExpireAll(q, now);
    && (ok <==> job in e.reserves && e.reserves[job].sequence.Some?)
    && q' == if ok then e.(ready := e.ready[job := e.reserves[job].sequence], reserves := e.reserves - {job}) else e
  }

  /** The next job is claimed, if one may be, once malformed and orphaned files have gone. */
  ghost predicate IsClaimOutcome(q: Queue, q': Queue, claimed: Option<JobId>) {
    match claimed
    case None => IsSwept(q, q') && forall j :: !IsNext(q, j)
    case Some(job) =>
      IsNext(q, job) && exists swept :: IsSwept(q, swept) && IsFirst(swept, job) && q' == Claim(swept, job)
  }

  /* ---------- the locked operations ---------- */

  class JobQueue {
    var q: Queue

    constructor ()
      ensures q == Queue(0, map[], map[], {}, {}, {})
    {
      q := Queue(0, map[], map[], {}, {}, {});
    }

    method CleanupStaleReservationsLocked(now: int)
      modifies this
      ensures q == ExpireAll(old(q), now)
      ensures forall j :: j in old(q).reserves && now - old(q).reserves[j].mtime <= 300 ==>
                && j in q.reserves && q.reserves[j] == old(q).reserves[j]
                && (j in q.queued <==> j in old(q).queued) && (j in q.staging <==> j in old(q).staging)
      ensures forall j :: j in old(q).reserves && now - old(q).reserves[j].mtime > 300 ==> j !in q.reserves
    {
      var todo := q.reserves.Keys;
      while todo != {}
        invariant todo <= q.reserves.Keys && q.ready == old(q).ready && q.active == old(q).active
        invariant ExpireAll(q, now) == ExpireAll(old(q), now)
        invariant forall j :: j in q.reserves && j !in todo ==> !IsStale(q.reserves[j], now)
        decreases |todo|
      {
        var job: JobId :| job in todo;
        if IsStale(q.reserves[job], now) {
          ExpireOne(q, now, job);
          q := Expire(q, job);
        }
        todo := todo - {job};
      }
      NothingStale(q, now);
      forall j
        ensures j in old(q).reserves && now - old(q).reserves[j].mtime <= 300 ==>
                  && j in q.reserves && q.reserves[j] == old(q).reserves[j]
                  && (j in q.queued <==> j in old(q).queued) && (j in q.staging <==> j in old(q).staging)
        ensures j in old(q).reserves && now - old(q).reserves[j].mtime > 300 ==> j !in q.reserves
      {
        ExpiryMeans(old(q), now, j);
      }
    }

    method CountStagedJobsLocked() returns (count: nat)
      ensures count == CountJobs(q)
    {
      count := |q.active| + |q.queued|;
      var todo := q.reserves.Keys;
      while todo != {}
        invariant count + |todo - q.active - q.queued| == CountJobs(q)
        decreases |todo|
      {
        var job: JobId :| job in todo;
        CountOne(todo, q.active, q.queued, job);
        if job !in q.active && job !in q.queued {
          count := count + 1;
        }
        todo := todo - {job};
      }
    }

    /** Reserves a slot if there is one left, with the next sequence number. */
    method ReserveStagedJobSlot(job: JobId, maxJobs: nat, now: int) returns (r: Result<bool, string>)
      modifies this
      ensures IsReserveOutcome(old(q), q, job, maxJobs, now, r)
      ensures r == Ok(true) ==>
                && q.sequence == old(q).sequence + 1
                && job in q.reserves && q.reserves[job] == Reservation(Some(old(q).sequence + 1), now)
      ensures q.active !! q.queued ==>
                (r == Ok(false) <==> |q.active + q.queued + ExpireAll(old(q), now).reserves.Keys| >= maxJobs)
    {
      CleanupStaleReservationsLocked(now);
      ghost var e := q;
      CountsDistinctJobs(e);
      var count := CountStagedJobsLocked();
      if count >= maxJobs {
        return Ok(false);
      }
      q := q.(sequence := q.sequence + 1);
      if job in q.reserves {
        return Err("staged job reservation already exists");
      }
      q := q.(reserves := q.reserves[job := Reservation(Some(q.sequence), now)]);
      assert q == WithReservation(e, job, Some(e.sequence + 1), now);
      return Ok(true);
    }

    /** Replaces a live reservation by a ready marker of the same sequence number. */
    method PublishReadyMarker(job: JobId, now: int) returns (ok: bool)
      modifies this
      ensures IsPublishOutcome(old(q), q, job, now, ok)
      ensures ok <==>
                && job in old(q).reserves && now - old(q).reserves[job].mtime <= 300
                && old(q).reserves[job].sequence.Some?
      ensures ok ==> job in q.ready && q.ready[job] == old(q).reserves[job].sequence && job !in q.reserves
    {
      ExpiryMeans(q, now, job);
      CleanupStaleReservationsLocked(now);
      if job !in q.reserves || q.reserves[job].sequence.None? {
        return false;
      }
      q := q.(ready := q.ready[job := q.reserves[job].sequence]);
      q := q.(reserves := q.reserves - {job});
      return true;
    }

    method ReleaseStagedJobSlot(job: JobId)
      modifies this
      ensures q == old(q).(reserves := old(q).reserves - {job})
    {
      q := q.(reserves := q.reserves - {job});
    }

    method RefreshStagedJobSlot(job: JobId, now: int)
      modifies this
      ensures q == if job in old(q).reserves
                   then old(q).(reserves := old(q).reserves[job := old(q).reserves[job].(mtime := now)])
                   else old(q)
    {
      if job in q.reserves {
        q := q.(reserves := q.reserves[job := q.reserves[job].(mtime := now)]);
      }
    }

    /** Looks for a control file of a lower sequence number and removes malformed ones it meets. */
    method HasLowerSequenceReservationLocked(bound: nat) returns (found: bool)
      modifies this
      ensures IsSwept(old(q), q)
      ensures found <==> HasLower(old(q), bound)
      ensures forall j :: j in old(q).ready && old(q).ready[j].Some? ==> j in q.ready
    {
      var reserves, markers := q.reserves.Keys, q.ready.Keys;
      while reserves != {}
        invariant reserves <= q.reserves.Keys && markers == q.ready.Keys
        invariant IsSwept(old(q), q) && q.ready == old(q).ready
        invariant forall j :: j in old(q).reserves && j !in reserves ==> !Precedes(old(q).reserves[j].sequence, bound)
        decreases |reserves|
      {
        var job: JobId :| job in reserves;
        if q.reserves[job].sequence.None? {
          SweepReserve(old(q), q, job);
          q := q.(reserves := q.reserves - {job});
        } else if q.reserves[job].sequence.value < bound {
          return true;
        }
        reserves := reserves - {job};
      }
      while markers != {}
        invariant markers <= q.ready.Keys
        invariant IsSwept(old(q), q)
        invariant forall j :: j in old(q).ready && old(q).ready[j].Some? ==> j in q.ready
        invariant forall j :: j in old(q).ready && j !in markers ==> !Precedes(old(q).ready[j], bound)
        decreases |markers|
      {
        var job: JobId :| job in markers;
        if q.ready[job].None? {
          SweepMarker(old(q), q, job);
          q := q.(ready := q.ready - {job});
        } else if q.ready[job].value < bound {
          return true;
        }
        markers := markers - {job};
      }
      return false;
    }

    method RemoveMalformedMarkers()
      modifies this
      ensures IsSwept(old(q), q)
      ensures forall j :: j in q.ready ==> q.ready[j].Some?
    {
      var todo := q.ready.Keys;
      while todo != {}
        invariant todo <= q.ready.Keys && IsSwept(old(q), q)
        invariant forall j :: j in q.ready && j !in todo ==> q.ready[j].Some?
        decreases |todo|
      {
        var job: JobId :| job in todo;
        if q.ready[job].None? {
          SweepMarker(old(q), q, job);
          q := q.(ready := q.ready - {job});
        }
        todo := todo - {job};
      }
    }

    method LowestMarker() returns (lowest: JobId)
      requires q.ready != map[] && forall j :: j in q.ready ==> q.ready[j].Some?
      ensures lowest in q.ready && forall j :: j in q.ready ==> q.ready[lowest].value <= q.ready[j].value
    {
      lowest :| lowest in q.ready;
      var todo := q.ready.Keys;
      while todo != {}
        invariant todo <= q.ready.Keys && lowest in q.ready
        invariant forall j :: j in q.ready && j !in todo ==> q.ready[lowest].value <= q.ready[j].value
        decreases |todo|
      {
        var job: JobId :| job in todo;
        if q.ready[job].value < q.ready[lowest].value {
          lowest := job;
        }
        todo := todo - {job};
      }
    }

    /** Claims the ready job with the lowest sequence number, unless something is active or a
        lower sequence number is still reserved. */
    method ClaimNextJobLocked() returns (claimed: Option<JobId>)
      modifies this
      ensures IsClaimOutcome(old(q), q, claimed)
    {
      if q.active != {} {
        return None;
      }
      RemoveMalformedMarkers();
      while q.ready != map[]
        invariant IsSwept(old(q), q)
        invariant forall j :: j in q.ready ==> q.ready[j].Some?
        decreases q.ready.Keys
      {
        var job := LowestMarker();
        ghost var before := q;
        var lower := HasLowerSequenceReservationLocked(q.ready[job].value);
        SweptTwice(old(q), before, q);
        if lower {
          NothingNext(old(q), before, job);
          return None;
        }
        if job in q.queued {
          ClaimedNext(old(q), q, job);
          q := Claim(q, job);
          return Some(job);
        }
        SweepMarker(old(q), q, job);
        q := q.(ready := q.ready - {job});
      }
      return None;
    }

    method ClaimNextJob(now: int) returns (claimed: Option<JobId>)
      modifies this
      ensures IsClaimOutcome(ExpireAll(old(q), now), q, claimed)
    {
      CleanupStaleReservationsLocked(now);
      claimed := ClaimNextJobLocked();
    }

    /** A job waits while another one is active or a lower sequence number is ahead of it. */
    method StagedJobWaitingForTurn(job: JobId, now: int) returns (waiting: bool)
      modifies this
      ensures IsSwept(ExpireAll(old(q), now), q)
      ensures waiting <==> IsWaiting(ExpireAll(old(q), now), job)
    {
      CleanupStaleReservationsLocked(now);
      if q.active != {} {
        return true;
      }
      var sequence := SequenceOf(q, job);
      if sequence.None? {
        return false;
      }
      waiting := HasLowerSequenceReservationLocked(sequence.value);
    }

    method StagedJobPresence(job: JobId) returns (presence: Presence)
      ensures presence == PresenceOf(q, job)
      ensures presence.Active? <==> job in q.active
      ensures presence.Queued? <==> job !in q.active && (job in q.queued || job in q.ready)
    {
      if job in q.active {
        return Active;
      }
      return if job in q.queued || job in q.ready then Queued else Missing;
    }

    /** Removes a queued job, unless it has been claimed. */
    method TryAbandonQueuedJob(job: JobId) returns (abandoned: bool)
      modifies this
      ensures abandoned <==> PresenceOf(old(q), job).Queued?
      ensures q == Abandon(old(q), job)
      ensures abandoned ==> job !in q.queued && job !in q.ready && q.queued == old(q).queued - {job}
      ensures forall j :: j != job ==>
                (j in q.ready <==> j in old(q).ready) && (j in q.ready ==> q.ready[j] == old(q).ready[j])
      ensures q == old(q).(queued := q.queued, ready := q.ready) && (!abandoned ==> q == old(q))
    {
      var presence := StagedJobPresence(job);
      if presence != Queued {
        return false;
      }
      q := q.(ready := q.ready - {job});
      q := q.(queued := q.queued - {job});
      return true;
    }
  }

  /* ---------- what a claim means ---------- */

  /** A marked job whose directory is in the queue. */
  ghost predicate IsComplete(q: Queue, job: JobId) {
    job in q.queued && job in q.ready && q.ready[job].Some?
  }

  /** The lowest of some complete jobs. */
  lemma {:induction false} LowestComplete(q: Queue, jobs: set<JobId>) returns (lowest: JobId)
    requires jobs != {} && forall j :: j in jobs ==> IsComplete(q, j)
    ensures lowest in jobs && IsComplete(q, lowest)
    ensures forall j :: j in jobs ==> IsComplete(q, j) && q.ready[lowest].value <= q.ready[j].value
    decreases |jobs|
  {
    var one: JobId :| one in jobs;
    assert IsComplete(q, one);
    lowest := one;
    if jobs != {one} {
      var other := LowestComplete(q, jobs - {one});
      if q.ready[other].value < q.ready[one].value {
        lowest := other;
      }
    }
  }

  /** A claim takes the complete job with the lowest number, with nothing active and no lower
      reservation.  None is made only if something is active, no job is complete, or a reservation
      has a lower number than all of these. */
  lemma ClaimMeans(q: Queue, q': Queue, claimed: Option<JobId>)
    requires IsClaimOutcome(q, q', claimed)
    ensures claimed.Some? ==>
              && q.active == {} && IsComplete(q, claimed.value)
              && (forall j :: IsComplete(q, j) ==> q.ready[claimed.value].value <= q.ready[j].value)
              && (forall j :: j in q.reserves && q.reserves[j].sequence.Some? ==>
                    q.ready[claimed.value].value <= q.reserves[j].sequence.value)
              && q'.active == {claimed.value} && claimed.value !in q'.ready && q'.queued == q.queued - {claimed.value}
    ensures claimed.None? ==>
              || q.active != {}
              || (forall j :: !IsComplete(q, j))
              || (exists r :: r in q.reserves && q.reserves[r].sequence.Some?
                              && forall j :: IsComplete(q, j) ==> q.reserves[r].sequence.value < q.ready[j].value)
  {
    if claimed.None? && q.active == {} {
      var complete := set j | j in q.queued && IsComplete(q, j);
      assert forall j :: IsComplete(q, j) ==> j in complete;
      if complete != {} {
        var lowest := LowestComplete(q, complete);
        assert IsComplete(q, lowest) && !IsNext(q, lowest);
        var r :| r in q.reserves && Precedes(q.reserves[r].sequence, q.ready[lowest].value);
      }
    }
  }

  /* ---------- lemmas for the loops ---------- */

  lemma CountOne(todo: set<JobId>, active: set<JobId>, queued: set<JobId>, job: JobId)
    requires job in todo
    ensures |todo - active - queued| ==
              |todo - {job} - active - queued| + (if job in active || job in queued then 0 else 1)
  {
    var left, others := todo - active - queued, todo - {job} - active - queued;
    if job in active || job in queued {
      assert others == left;
    } else {
      assert left == others + {job};
    }
  }

  lemma SweptTwice(before: Queue, q: Queue, q': Queue)
    requires IsSwept(before, q) && IsSwept(q, q')
    ensures IsSwept(before, q')
  {
  }

  /** A lower reservation holds back every job. */
  lemma NothingNext(before: Queue, q: Queue, job: JobId)
    requires IsSwept(before, q) && job in q.ready && (forall j :: j in q.ready ==> q.ready[j].Some?)
    requires forall j :: j in q.ready ==> q.ready[job].value <= q.ready[j].value
    requires HasLower(q, q.ready[job].value)
    ensures forall j :: !IsNext(before, j)
  {
    var r :| r in q.reserves && Precedes(q.reserves[r].sequence, q.ready[job].value);
    forall j ensures !IsNext(before, j) {
      if IsClaimable(before, j) {
        assert j in q.ready && Precedes(before.reserves[r].sequence, before.ready[j].value);
      }
    }
  }

  lemma ClaimedNext(before: Queue, q: Queue, job: JobId)
    requires IsSwept(before, q) && before.active == {} && job in q.ready && q.ready[job].Some? && job in q.queued
    requires !HasLower(q, q.ready[job].value)
    requires forall j :: j in q.ready && q.ready[j].Some? ==> q.ready[job].value <= q.ready[j].value
    ensures IsClaimOutcome(before, Claim(q, job), Some(job))
  {
    assert IsNext(before, job);
    assert IsFirst(q, job);
  }

  lemma SweepReserve(before: Queue, q: Queue, job: JobId)
    requires IsSwept(before, q) && job in q.reserves && q.reserves[job].sequence.None?
    ensures IsSwept(before, q.(reserves := q.reserves - {job}))
  {
  }

  lemma SweepMarker(before: Queue, q: Queue, job: JobId)
    requires IsSwept(before, q) && job in q.ready && !IsClaimable(q, job)
    ensures IsSwept(before, q.(ready := q.ready - {job}))
  {
  }

  lemma ExpireOne(q: Queue, now: int, job: JobId)
    requires job in q.reserves && IsStale(q.reserves[job], now)
    ensures ExpireAll(Expire(q, job), now) == ExpireAll(q, now)
  {
    var q' := Expire(q, job);
    var stale := set j | j in q.reserves && IsStale(q.reserves[j], now);
    var stale' := set j | j in q'.reserves && IsStale(q'.reserves[j], now);
    assert stale' == stale - {job};
    assert q'.reserves - stale' == q.reserves - stale;
  }

  lemma NothingStale(q: Queue, now: int)
    requires forall j :: j in q.reserves ==> !IsStale(q.reserves[j], now)
    ensures ExpireAll(q, now) == q
  {
    var stale := set j | j in q.reserves && IsStale(q.reserves[j], now);
    assert stale == {};
    assert q.reserves - stale == q.reserves;
  }
}
