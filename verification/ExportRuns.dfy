/** Requesters and the root export worker around one queue.  The worker may die between any two
    changes of a file; a requester acknowledges its export before the queue would expire it. */
module ExportRuns {
  import opened Outcomes
  import opened ExportQueue
  import opened Runs

  /** What the worker is about to do.  It holds the queue lock unless it is `Idle`, `Waiting` for
      the next marker, `Exporting`, or has just `Published`. */
  datatype Worker =
    | Idle
    | Resolving
    | Discarding(claim: Name)
    | Cleaning
    | Removing(claim: Name)
    | Waiting
    | Inspecting(claim: Name)
    | Withdrawing(id: Uuid)
    | Dropping(claim: Name)
    | Exporting(id: Uuid)
    | Published(id: Uuid)

  datatype System = System(
    q: Queue,
    worker: Worker,
    now: int,
    submitted: map<Uuid, int>,         // when each request was admitted
    acknowledged: set<Uuid>,
    exported: map<Uuid, Payload>)      // every archive that was ever published

  predicate IsUnlocked(w: Worker) {
    w.Idle? || w.Waiting? || w.Exporting? || w.Published?
  }

  /* ---------- requesters ---------- */

  /** Identifiers are fresh, and admission is refused while all slots are taken. */
  ghost predicate IsSubmit(s: System, s': System, id: Uuid) {
    && IsUnlocked(s.worker) && id !in s.submitted
    && |Occupied(s.q)| < MAX_EXPORTS && id !in Occupied(s.q)
    && s' == s.(q := Submitted(s.q, id, s.now), submitted := s.submitted[id := s.now])
  }

  ghost predicate IsAcknowledge(s: System, s': System, id: Uuid) {
    && IsUnlocked(s.worker) && id in s.submitted && id !in s.acknowledged
    && s.now <= s.submitted[id] + RETENTION_SECONDS
    && s' == s.(q := Acknowledged(s.q, id, s.now), acknowledged := s.acknowledged + {id})
  }

  /* ---------- the worker ---------- */

  ghost predicate IsResolve(s: System, s': System, claim: Name) {
    && s.worker.Resolving? && claim in s.q.active
    && s' == s.(worker := Discarding(claim),
                q := if claim.Marker? && claim.kind.Request? && claim.id !in s.q.archives
                     then s.q.(errors := s.q.errors[claim.id := s.now]) else s.q)
  }

  ghost predicate IsDiscard(s: System, s': System) {
    && s.worker.Discarding?
    && s' == s.(worker := Resolving, q := s.q.(active := s.q.active - {s.worker.claim}))
  }

  /** What has expired is renamed into the claims under a random name first. */
  ghost predicate IsExpireRequest(s: System, s': System, name: Name, random: Name) {
    && s.worker.Cleaning? && IsRandom(s, random)
    && name in s.q.requests && IsExpired(s.q.requests[name].mtime, s.now)
    && s' == s.(worker := Removing(random),
                q := s.q.(requests := s.q.requests - {name}, active := s.q.active[random := s.q.requests[name]]))
  }

  ghost predicate IsExpireArchive(s: System, s': System, id: Uuid, random: Name) {
    && s.worker.Cleaning? && IsRandom(s, random)
    && id in s.q.archives && IsExpired(s.q.archives[id].mtime, s.now)
    && s' == s.(worker := Removing(random),
                q := s.q.(archives := s.q.archives - {id},
                          active := s.q.active[random := File(false, s.q.archives[id].mtime)]))
  }

  ghost predicate IsExpireError(s: System, s': System, id: Uuid, random: Name) {
    && s.worker.Cleaning? && IsRandom(s, random)
    && id in s.q.errors && IsExpired(s.q.errors[id], s.now)
    && s' == s.(worker := Removing(random),
                q := s.q.(errors := s.q.errors - {id}, active := s.q.active[random := File(false, s.q.errors[id])]))
  }

  ghost predicate IsRandom(s: System, name: Name) {
    name.Other? && name.stem.None? && name !in s.q.active
  }

  ghost predicate IsRemove(s: System, s': System) {
    && s.worker.Removing?
    && s' == s.(worker := Cleaning, q := s.q.(active := s.q.active - {s.worker.claim}))
  }

  /** Claims the first marker by renaming it. */
  ghost predicate IsClaim(s: System, s': System, name: Name, claim: Name) {
    && s.worker.Waiting? && IsFirst(s.q, name)
    && (if name.Marker? then claim == name else IsRandom(s, claim))
    && s' == s.(worker := Inspecting(claim),
                q := s.q.(requests := s.q.requests - {name}, active := s.q.active[claim := s.q.requests[name]]))
  }

  ghost predicate IsInspect(s: System, s': System) {
    && s.worker.Inspecting? && s.worker.claim in s.q.active
    && var claim := s.worker.claim;
       if !claim.Marker? || !s.q.active[claim].plain then s' == s.(worker := Dropping(claim))
       else if claim.kind.Ack? then
         s' == s.(worker := Withdrawing(claim.id), q := s.q.(archives := s.q.archives - {claim.id}))
       else if HasResult(s.q, claim.id) then s' == s.(worker := Dropping(claim))
       else s' == s.(worker := Exporting(claim.id))
  }

  ghost predicate IsWithdraw(s: System, s': System) {
    && s.worker.Withdrawing?
    && s' == s.(worker := Dropping(Marker(s.worker.id, Ack)), q := s.q.(errors := s.q.errors - {s.worker.id}))
  }

  ghost predicate IsDrop(s: System, s': System) {
    && s.worker.Dropping?
    && s' == s.(worker := Waiting, q := s.q.(active := s.q.active - {s.worker.claim}))
  }

  ghost predicate IsPublishArchive(s: System, s': System, payload: Payload) {
    && s.worker.Exporting?
    && var id := s.worker.id;
       s' == s.(worker := Published(id), q := s.q.(archives := s.q.archives[id := Archive(payload, s.now)]),
                exported := s.exported[id := payload])
  }

  ghost predicate IsPublishError(s: System, s': System) {
    && s.worker.Exporting?
    && s' == s.(worker := Published(s.worker.id), q := s.q.(errors := s.q.errors[s.worker.id := s.now]))
  }

  ghost predicate IsFinish(s: System, s': System) {
    && s.worker.Published?
    && s' == s.(worker := Waiting, q := s.q.(active := s.q.active - {Marker(s.worker.id, Request)}))
  }

  /** The worker starts, goes on to the next part, finishes, or dies; time passes. */
  ghost predicate IsTurn(s: System, s': System) {
    && s' == s.(worker := s'.worker, now := s'.now) && s.now <= s'.now
    && (|| s'.worker == s.worker
        || s'.worker.Idle?
        || (s.worker.Idle? && s'.worker.Resolving?)
        || (s.worker.Resolving? && s.q.active == map[] && s'.worker.Cleaning?)
        || (s.worker.Cleaning? && s'.worker.Waiting?))
  }

  ghost predicate IsStep(s: System, s': System) {
    || (exists id :: IsSubmit(s, s', id))
    || (exists id :: IsAcknowledge(s, s', id))
    || (exists claim :: IsResolve(s, s', claim))
    || IsDiscard(s, s')
    || (exists name, random :: IsExpireRequest(s, s', name, random))
    || (exists id, random :: IsExpireArchive(s, s', id, random))
    || (exists id, random :: IsExpireError(s, s', id, random))
    || IsRemove(s, s')
    || (exists name, claim :: IsClaim(s, s', name, claim))
    || IsInspect(s, s')
    || IsWithdraw(s, s')
    || IsDrop(s, s')
    || (exists payload :: IsPublishArchive(s, s', payload))
    || IsPublishError(s, s')
    || IsFinish(s, s')
    || IsTurn(s, s')
  }

  ghost predicate IsRun(run: seq<System>) {
    && run != []
    && run[0].q == Queue(map[], map[], map[], map[]) && run[0].worker.Idle?
    && run[0].submitted == map[] && run[0].acknowledged == {} && run[0].exported == map[]
    && forall i :: 0 <= i < |run| - 1 ==> IsStep(run[i], run[i + 1])
  }

  /* ---------- the invariant ---------- */

  ghost predicate IsPlain(files: map<Name, File>, name: Name) {
    name in files ==> name.Marker? && files[name].plain
  }

  /** The request of `id` is pending, claimed, or has a result. */
  ghost predicate IsOnItsWay(q: Queue, id: Uuid) {
    Marker(id, Request) in q.requests || Marker(id, Request) in q.active || HasResult(q, id)
  }

  /** Nothing of `id` is older than its submission. */
  ghost predicate IsRecent(q: Queue, id: Uuid, since: int) {
    && (Marker(id, Request) in q.requests ==> since <= q.requests[Marker(id, Request)].mtime)
    && (id in q.archives ==> since <= q.archives[id].mtime)
    && (id in q.errors ==> since <= q.errors[id])
  }

  ghost predicate IsSound(s: System, id: Uuid) {
    var request, ack := Marker(id, Request), Marker(id, Ack);
    && IsPlain(s.q.requests, request) && IsPlain(s.q.requests, ack)
    && IsPlain(s.q.active, request) && IsPlain(s.q.active, ack)
    && (IsOnItsWay(s.q, id) || id in s.exported ==> id in s.submitted)
    && (id in s.submitted ==> s.submitted[id] <= s.now && IsRecent(s.q, id, s.submitted[id]))
    && (ack in s.q.requests || ack in s.q.active ==> id in s.acknowledged)
    && (id in s.acknowledged ==> id in s.submitted && request !in s.q.requests)
    && (request in s.q.requests ==> request !in s.q.active && !HasResult(s.q, id) && id !in s.exported)
    && (id in s.exported ==> id !in s.q.errors)
    && (id in s.q.archives ==> id in s.exported && s.exported[id] == s.q.archives[id].payload)
    && (request in s.q.active && id in s.exported ==> id in s.q.archives)
    && (id in s.submitted && id !in s.acknowledged && s.now <= s.submitted[id] + RETENTION_SECONDS ==>
        IsOnItsWay(s.q, id))
  }

  /** Where the worker stands says what is claimed. */
  ghost predicate IsAtWork(s: System) {
    match s.worker
    case Idle => true
    case Resolving => true
    case Discarding(claim) => claim in s.q.active && (claim.Marker? && claim.kind.Request? ==> HasResult(s.q, claim.id))
    case Cleaning => s.q.active == map[]
    case Removing(claim) => s.q.active.Keys == {claim} && claim.Other?
    case Waiting => s.q.active == map[]
    case Inspecting(claim) => s.q.active.Keys == {claim} && claim.Marker?
    case Withdrawing(id) => s.q.active.Keys == {Marker(id, Ack)} && id !in s.q.archives
    case Dropping(claim) =>
      s.q.active.Keys == {claim} && (claim.Marker? && claim.kind.Request? ==> HasResult(s.q, claim.id))
    case Exporting(id) => s.q.active.Keys == {Marker(id, Request)} && !HasResult(s.q, id) && id !in s.exported
    case Published(id) => s.q.active.Keys == {Marker(id, Request)} && HasResult(s.q, id)
  }

  /** Only the worker's random names are no markers. */
  ghost predicate IsClean(s: System) {
    && (forall n :: n in s.q.requests ==> n.Marker?)
    && (forall n :: n in s.q.active ==> n.Marker? || n.stem.None?)
  }

  ghost predicate Inv(s: System) {
    IsClean(s) && IsAtWork(s) && forall id :: IsSound(s, id)
  }

  /* ---------- every step keeps the invariant ---------- */

  ghost predicate Holds(q: Queue, id: Uuid) {
    IsOnItsWay(q, id) || Marker(id, Ack) in q.requests || Marker(id, Ack) in q.active
  }

  /** What no step does to `id`: drop the claim of its request without a result, withdraw or
      replace what was exported, or give a slot to an identifier that was admitted before. */
  ghost predicate IsTame(s: System, s': System, id: Uuid) {
    && (Marker(id, Request) in s.q.active && Marker(id, Request) !in s'.q.active ==>
        HasResult(s.q, id) && HasResult(s'.q, id))
    && (id in s.exported ==> id in s'.exported && s'.exported[id] == s.exported[id])
    && (Holds(s'.q, id) && id in s.submitted ==> Holds(s.q, id))
  }

  ghost predicate AreTame(s: System, s': System) {
    forall j :: IsTame(s, s', j)
  }

  lemma SubmitKeeps(s: System, s': System, id: Uuid)
    requires Inv(s) && IsSubmit(s, s', id)
    ensures Inv(s') && AreTame(s, s')
  {
    forall j ensures IsSound(s', j) && IsTame(s, s', j) {
      assert IsSound(s, j);
    }
  }

  lemma AcknowledgeKeeps(s: System, s': System, id: Uuid)
    requires Inv(s) && IsAcknowledge(s, s', id)
    ensures Inv(s') && AreTame(s, s')
  {
    forall j ensures IsSound(s', j) && IsTame(s, s', j) {
      assert IsSound(s, j);
    }
  }

  lemma ResolveKeeps(s: System, s': System, claim: Name)
    requires Inv(s) && (IsResolve(s, s', claim) || IsDiscard(s, s'))
    ensures Inv(s') && AreTame(s, s')
  {
    forall j ensures IsSound(s', j) && IsTame(s, s', j) {
      assert IsSound(s, j);
    }
  }

  lemma ExpireRequestKeeps(s: System, s': System, name: Name, random: Name)
    requires Inv(s) && IsExpireRequest(s, s', name, random)
    ensures Inv(s') && AreTame(s, s')
  {
    forall j ensures IsSound(s', j) && IsTame(s, s', j) {
      assert IsSound(s, j);
    }
  }

  lemma ExpireResultKeeps(s: System, s': System, id: Uuid, random: Name)
    requires Inv(s) && (IsExpireArchive(s, s', id, random) || IsExpireError(s, s', id, random))
    ensures Inv(s') && AreTame(s, s')
  {
    forall j ensures IsSound(s', j) && IsTame(s, s', j) {
      assert IsSound(s, j);
    }
  }

  lemma RemoveKeeps(s: System, s': System)
    requires Inv(s) && IsRemove(s, s')
    ensures Inv(s') && AreTame(s, s')
  {
    forall j ensures IsSound(s', j) && IsTame(s, s', j) {
      assert IsSound(s, j);
    }
  }

  lemma ClaimKeeps(s: System, s': System, name: Name, claim: Name)
    requires Inv(s) && IsClaim(s, s', name, claim)
    ensures Inv(s') && AreTame(s, s')
  {
    forall j ensures IsSound(s', j) && IsTame(s, s', j) {
      assert IsSound(s, j);
    }
  }

  lemma InspectKeeps(s: System, s': System)
    requires Inv(s) && IsInspect(s, s')
    ensures Inv(s') && AreTame(s, s')
  {
    assert s.worker.Inspecting? && s.worker.claim.Marker? ==> IsSound(s, s.worker.claim.id);
    forall j ensures IsSound(s', j) && IsTame(s, s', j) {
      assert IsSound(s, j);
    }
  }

  lemma WithdrawKeeps(s: System, s': System)
    requires Inv(s) && IsWithdraw(s, s')
    ensures Inv(s') && AreTame(s, s')
  {
    forall j ensures IsSound(s', j) && IsTame(s, s', j) {
      assert IsSound(s, j);
    }
  }

  lemma PublishKeeps(s: System, s': System, payload: Payload)
    requires Inv(s) && (IsPublishArchive(s, s', payload) || IsPublishError(s, s'))
    ensures Inv(s') && AreTame(s, s')
  {
    forall j ensures IsSound(s', j) && IsTame(s, s', j) {
      assert IsSound(s, j);
    }
  }

  lemma DropKeeps(s: System, s': System)
    requires Inv(s) && (IsDrop(s, s') || IsFinish(s, s') || IsTurn(s, s'))
    ensures Inv(s') && AreTame(s, s')
  {
    forall j ensures IsSound(s', j) && IsTame(s, s', j) {
      assert IsSound(s, j);
    }
  }

  lemma StepKeepsInv(s: System, s': System)
    requires Inv(s) && IsStep(s, s')
    ensures Inv(s') && AreTame(s, s')
  {
    if id :| IsSubmit(s, s', id) {
      SubmitKeeps(s, s', id);
    } else if id :| IsAcknowledge(s, s', id) {
      AcknowledgeKeeps(s, s', id);
    } else if claim :| IsResolve(s, s', claim) {
      ResolveKeeps(s, s', claim);
    } else if IsDiscard(s, s') {
      ResolveKeeps(s, s', s.worker.claim);
    } else if name, random :| IsExpireRequest(s, s', name, random) {
      ExpireRequestKeeps(s, s', name, random);
    } else if id, random :| IsExpireArchive(s, s', id, random) {
      ExpireResultKeeps(s, s', id, random);
    } else if id, random :| IsExpireError(s, s', id, random) {
      ExpireResultKeeps(s, s', id, random);
    } else if IsRemove(s, s') {
      RemoveKeeps(s, s');
    } else if name, claim :| IsClaim(s, s', name, claim) {
      ClaimKeeps(s, s', name, claim);
    } else if IsInspect(s, s') {
      InspectKeeps(s, s');
    } else if IsWithdraw(s, s') {
      WithdrawKeeps(s, s');
    } else if payload :| IsPublishArchive(s, s', payload) {
      PublishKeeps(s, s', payload);
    } else if IsPublishError(s, s') {
      PublishKeeps(s, s', "");
    } else {
      DropKeeps(s, s');
    }
  }

  lemma {:induction false} InvAt(run: seq<System>, n: nat)
    requires IsRun(run) && n < |run|
    ensures Inv(run[n])
    decreases n, 0
  {
    if n > 0 {
      TameAt(run, n - 1);
    }
  }

  lemma {:induction false} TameAt(run: seq<System>, n: nat)
    requires IsRun(run) && n + 1 < |run|
    ensures IsStep(run[n], run[n + 1])
    ensures Inv(run[n]) && Inv(run[n + 1]) && AreTame(run[n], run[n + 1])
    decreases n, 1
  {
    InvAt(run, n);
    StepKeepsInv(run[n], run[n + 1]);
  }

  /* ---------- what a run guarantees ---------- */

  lemma OccupiedBy(q: Queue, id: Uuid)
    requires forall n :: n in q.requests || n in q.active ==> n.Marker? || n.stem.None?
    ensures id in Occupied(q) <==> Holds(q, id)
  {
    StemsOf(q.requests.Keys, id);
    StemsOf(q.active.Keys, id);
  }

  lemma StemsOf(names: set<Name>, id: Uuid)
    requires forall n :: n in names ==> n.Marker? || n.stem.None?
    ensures id in Stems(names) <==> Marker(id, Request) in names || Marker(id, Ack) in names
  {
    assert Stem(Marker(id, Request)) == Some(id) && Stem(Marker(id, Ack)) == Some(id);
    if id in Stems(names) {
      var n :| n in names && Stem(n).Some? && Stem(n).value == id;
      assert n == Marker(id, n.kind);
      assert n.kind == Request || n.kind == Ack;
    }
  }

  /** Only an admission takes up a slot more. */
  lemma StepOccupies(s: System, s': System)
    requires Inv(s) && Inv(s') && AreTame(s, s')
    requires s'.submitted == s.submitted
    ensures Occupied(s'.q) <= Occupied(s.q)
  {
    forall j | j in Occupied(s'.q) ensures j in Occupied(s.q) {
      OccupiedBy(s.q, j);
      OccupiedBy(s'.q, j);
      assert IsSound(s', j) && IsTame(s, s', j);
    }
  }

  lemma SubmitOccupies(s: System, s': System, id: Uuid)
    requires IsSubmit(s, s', id)
    ensures |Occupied(s'.q)| <= MAX_EXPORTS
  {
    assert s'.q.requests.Keys == s.q.requests.Keys + {Marker(id, Request)};
    Subset(Occupied(s'.q), Occupied(s.q) + {id});
  }

  lemma StepSubmits(s: System, s': System)
    requires IsStep(s, s')
    ensures (exists id :: IsSubmit(s, s', id)) || s'.submitted == s.submitted
  {
  }

  /** At most `MAX_EXPORTS` identifiers hold a slot. */
  lemma {:induction false} AtMostMaxExports(run: seq<System>, n: nat)
    requires IsRun(run) && n < |run|
    ensures |Occupied(run[n].q)| <= 4
  {
    if n == 0 {
      assert Occupied(run[0].q) == {};
    } else {
      AtMostMaxExports(run, n - 1);
      TameAt(run, n - 1);
      var s, s' := run[n - 1], run[n];
      StepSubmits(s, s');
      if id :| IsSubmit(s, s', id) {
        SubmitOccupies(s, s', id);
      } else {
        StepOccupies(s, s');
        Subset(Occupied(s'.q), Occupied(s.q));
      }
    }
  }

  ghost predicate Stands(s: System, s': System, id: Uuid) {
    id in s.exported ==> id in s'.exported && s'.exported[id] == s.exported[id]
  }

  lemma ExportsStand(run: seq<System>, i: nat, j: nat, id: Uuid)
    requires IsRun(run) && i <= j < |run|
    ensures Stands(run[i], run[j], id)
  {
    forall k | 0 <= k < |run| - 1 ensures Stands(run[k], run[k + 1], id) {
      TameAt(run, k);
      assert IsTame(run[k], run[k + 1], id);
    }
    Chain(run, (s, s') => Stands(s, s', id), i, j);
  }

  /** An identifier never has an archive and an error, and a published archive is never replaced,
      be it by an error or by another archive. */
  lemma OneResult(run: seq<System>, i: nat, j: nat, id: Uuid)
    requires IsRun(run) && i <= j < |run|
    ensures !(id in run[i].q.archives && id in run[i].q.errors)
    ensures id in run[i].q.archives ==> id !in run[j].q.errors
    ensures id in run[i].q.archives && id in run[j].q.archives ==>
              run[j].q.archives[id].payload == run[i].q.archives[id].payload
  {
    InvAt(run, i);
    InvAt(run, j);
    assert IsSound(run[i], id) && IsSound(run[j], id);
    if id in run[i].q.archives {
      ExportsStand(run, i, j, id);
    }
  }

  /** The claim of a request is removed only once there is a result, which is still there. */
  lemma ClaimWaitsForResult(run: seq<System>, i: nat, id: Uuid)
    requires IsRun(run) && i + 1 < |run|
    requires Marker(id, Request) in run[i].q.active && Marker(id, Request) !in run[i + 1].q.active
    ensures id in run[i].q.archives || id in run[i].q.errors
    ensures id in run[i + 1].q.archives || id in run[i + 1].q.errors
  {
    TameAt(run, i);
    assert IsTame(run[i], run[i + 1], id);
  }

  /** No request is lost: until it is acknowledged or the retention time is over it is pending,
      claimed or answered, and answered if the worker has nothing left to do. */
  lemma NoRequestLost(run: seq<System>, i: nat, id: Uuid)
    requires IsRun(run) && i < |run| && id in run[i].submitted && id !in run[i].acknowledged
    requires run[i].now <= run[i].submitted[id] + RETENTION_SECONDS
    ensures var q, request := run[i].q, Marker(id, Request);
      || (request in q.requests && q.requests[request].plain) || request in q.active
      || id in q.archives || id in q.errors
    ensures run[i].worker.Waiting? && run[i].q.requests == map[] ==> id in run[i].q.archives || id in run[i].q.errors
  {
    InvAt(run, i);
    assert IsSound(run[i], id);
  }
}
