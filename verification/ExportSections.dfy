/** The worker's loops over the export queue are sequences of steps of the run system. */
module ExportSections {
  import opened Outcomes
  import opened ExportQueue
  import opened ExportRuns
  import opened Runs

  ghost predicate Leads(s: System, s': System) {
    Reaches(s, s', IsStep)
  }

  lemma SameErrors(q: Queue, q': Queue)
    requires forall id :: ErrorOf(q', id) == ErrorOf(q, id)
    ensures q'.errors == q.errors
  {
    forall id ensures (id in q'.errors <==> id in q.errors) && (id in q.errors ==> q'.errors[id] == q.errors[id]) {
      assert ErrorOf(q', id) == ErrorOf(q, id);
    }
  }

  /** The state after one claim has been resolved and discarded. */
  function Resolved(q: Queue, name: Name, now: int): Queue {
    var fails := name.Marker? && name.kind.Request? && name.id !in q.archives;
    var errors := if fails then q.errors[name.id := now] else q.errors;
    q.(errors := errors, active := q.active - {name})
  }

  lemma ResolvedOne(q: Queue, q': Queue, name: Name, now: int)
    requires IsResolved(q, q', now) && name in q.active
    ensures IsResolved(Resolved(q, name, now), q', now)
  {
    var q1 := Resolved(q, name, now);
    forall id
      ensures ErrorOf(q', id) == if IsClaimed(q1, id) && id !in q1.archives then Some(now) else ErrorOf(q1, id)
    {
      assert ErrorOf(q', id) == if IsClaimed(q, id) && id !in q.archives then Some(now) else ErrorOf(q, id);
    }
  }

  /** What `FinishInterrupted` does is a sequence of steps, each of which the worker may not outlive. */
  lemma {:induction false} FinishIsSteps(s: System, q': Queue)
    requires s.worker.Resolving? && IsResolved(s.q, q', s.now)
    ensures Leads(s, s.(q := q'))
    decreases |s.q.active|
  {
    ReachesItself(s, IsStep);
    if s.q.active == map[] {
      SameErrors(s.q, q');
      assert s.(q := q') == s;
    } else {
      var name :| name in s.q.active;
      var s2 := s.(q := Resolved(s.q, name, s.now));
      var s1 := s2.(worker := Discarding(name), q := s2.q.(active := s.q.active));
      assert IsResolve(s, s1, name) && IsDiscard(s1, s2);
      ReachesOneMore(s, s, s1, IsStep);
      ReachesOneMore(s, s1, s2, IsStep);
      ResolvedOne(s.q, q', name, s.now);
      FewerFiles(s.q.active, name);
      FinishIsSteps(s2, q');
      ReachesInTwo(s, s2, s.(q := q'), IsStep);
    }
  }

  /** What `Handle` does with the first marker is one, too. */
  lemma HandleIsSteps(s: System, name: Name, claimed: Name, exports: map<Uuid, Payload>) returns (s': System)
    requires s.worker.Waiting? && s.q.active == map[] && IsFirst(s.q, name)
    requires if name.Marker? then claimed == name else IsRandom(s, claimed)
    ensures s'.worker.Waiting? && s'.q == Handled(s.q, name, exports, s.now) && Leads(s, s')
  {
    var file := s.q.requests[name];
    var q1 := s.q.(requests := s.q.requests - {name}, active := map[claimed := file]);
    var s1 := s.(worker := Inspecting(claimed), q := q1);
    assert q1.active == s.q.active[claimed := file] && IsClaim(s, s1, name, claimed);
    ReachesItself(s, IsStep);
    ReachesOneMore(s, s, s1, IsStep);
    if !IsValid(s.q, name) || (name.kind.Request? && HasResult(s.q, name.id)) {
      var s2 := s1.(worker := Dropping(claimed));
      assert IsInspect(s1, s2);
      ReachesOneMore(s, s1, s2, IsStep);
      s' := DropIsStep(s, s2);
    } else if name.kind.Ack? {
      s' := AckIsSteps(s, s1, name.id);
    } else {
      s' := ExportIsSteps(s, s1, name.id, exports);
    }
  }

  lemma DropIsStep(s: System, s1: System) returns (s': System)
    requires Leads(s, s1) && s1.worker.Dropping? && s1.q.active.Keys == {s1.worker.claim}
    ensures s' == s1.(worker := Waiting, q := s1.q.(active := map[])) && Leads(s, s')
  {
    s' := s1.(worker := Waiting, q := s1.q.(active := map[]));
    assert s1.q.active - {s1.worker.claim} == map[];
    assert IsDrop(s1, s');
    ReachesOneMore(s, s1, s', IsStep);
  }

  lemma AckIsSteps(s: System, s1: System, id: Uuid) returns (s': System)
    requires Leads(s, s1) && s1.worker == Inspecting(Marker(id, Ack))
    requires s1.q.active.Keys == {Marker(id, Ack)} && s1.q.active[Marker(id, Ack)].plain
    ensures s'.worker.Waiting? && Leads(s, s')
    ensures s'.q == s1.q.(active := map[], archives := s1.q.archives - {id}, errors := s1.q.errors - {id})
  {
    var s2 := s1.(worker := Withdrawing(id), q := s1.q.(archives := s1.q.archives - {id}));
    assert IsInspect(s1, s2);
    ReachesOneMore(s, s1, s2, IsStep);
    var s3 := s2.(worker := Dropping(Marker(id, Ack)), q := s2.q.(errors := s2.q.errors - {id}));
    assert IsWithdraw(s2, s3);
    ReachesOneMore(s, s2, s3, IsStep);
    s' := DropIsStep(s, s3);
  }

  lemma ExportIsSteps(s: System, s1: System, id: Uuid, exports: map<Uuid, Payload>) returns (s': System)
    requires Leads(s, s1) && s1.worker == Inspecting(Marker(id, Request)) && !HasResult(s1.q, id)
    requires s1.q.active.Keys == {Marker(id, Request)} && s1.q.active[Marker(id, Request)].plain
    ensures s'.worker.Waiting? && Leads(s, s')
    ensures s'.q == if id in exports then
                      s1.q.(active := map[], archives := s1.q.archives[id := Archive(exports[id], s1.now)])
                    else
                      s1.q.(active := map[], errors := s1.q.errors[id := s1.now])
  {
    var s2 := s1.(worker := Exporting(id));
    assert IsInspect(s1, s2);
    ReachesOneMore(s, s1, s2, IsStep);
    var s3;
    if id in exports {
      s3 := s2.(worker := Published(id), q := s2.q.(archives := s2.q.archives[id := Archive(exports[id], s2.now)]),
                exported := s2.exported[id := exports[id]]);
      assert IsPublishArchive(s2, s3, exports[id]);
    } else {
      s3 := s2.(worker := Published(id), q := s2.q.(errors := s2.q.errors[id := s2.now]));
      assert IsPublishError(s2, s3);
    }
    ReachesOneMore(s, s2, s3, IsStep);
    s' := s3.(worker := Waiting, q := s3.q.(active := map[]));
    assert s3.q.active - {Marker(id, Request)} == map[];
    assert IsFinish(s3, s');
    ReachesOneMore(s, s3, s', IsStep);
  }
}
