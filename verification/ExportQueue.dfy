/** The export queue: requests and acknowledgements that the API leaves as marker files, claims of
    the root worker, and results that wait to be fetched. */
module ExportQueue {
  import opened Outcomes

  type Uuid = string
  type Payload = string

  const MAX_EXPORTS := 4
  const RETENTION_SECONDS := 300

  datatype Kind = Ack | Request

  /** A file name in `requests` or `active`: a UUID followed by `.request` or `.ack`, or any other.
      A name that ends in one of these but is no UUID takes up a slot by its `stem` all the same. */
  datatype Name = Marker(id: Uuid, kind: Kind) | Other(text: string, stem: Option<string>)

  /** `plain` says that this is an empty regular file with a single link. */
  datatype File = File(plain: bool, mtime: int)

  datatype Archive = Archive(payload: Payload, mtime: int)

  datatype Queue = Queue(
    requests: map<Name, File>,
    active: map<Name, File>,
    archives: map<Uuid, Archive>,
    errors: map<Uuid, int>)

  predicate HasResult(q: Queue, id: Uuid) {
    id in q.archives || id in q.errors
  }

  function Stem(name: Name): Option<string> {
    match name
    case Marker(id, _) => Some(id)
    case Other(_, stem) => stem
  }

  function Stems(names: set<Name>): set<string> {
    set n | n in names && Stem(n).Some? :: Stem(n).value
  }

  /** The identifiers that hold a slot, each counted once. */
  function Occupied(q: Queue): set<Uuid> {
    Stems(q.requests.Keys) + Stems(q.active.Keys) + q.archives.Keys + q.errors.Keys
  }

  /** An identifier takes up a slot by a file of its name in either directory, or by a result. */
  lemma OccupiedMeans(q: Queue, id: Uuid)
    ensures id in Occupied(q) <==>
              || (exists name :: (name in q.requests || name in q.active) && Stem(name) == Some(id))
              || id in q.archives || id in q.errors
  {
  }

  /* ---------- file names in order ---------- */

  predicate IsAtMost(a: string, b: string) {
    a == "" || (b != "" && (a[0] < b[0] || (a[0] == b[0] && IsAtMost(a[1..], b[1..]))))
  }

  function FileName(name: Name): string {
    match name
    case Marker(id, Ack) => id + ".ack"
    case Marker(id, Request) => id + ".request"
    case Other(text, _) => text
  }

  lemma {:induction false} OrderIsTransitive(a: string, b: string, c: string)
    requires IsAtMost(a, b) && IsAtMost(b, c)
    ensures IsAtMost(a, c)
  {
    if a != "" && a[0] == b[0] == c[0] {
      OrderIsTransitive(a[1..], b[1..], c[1..]);
    }
  }

  lemma {:induction false} OrderIsTotal(a: string, b: string)
    ensures IsAtMost(a, b) || IsAtMost(b, a)
  {
    if a != "" && b != "" {
      OrderIsTotal(a[1..], b[1..]);
    }
  }

  lemma {:induction false} OrderBehindPrefix(p: string, a: string, b: string)
    ensures IsAtMost(p + a, p + b) <==> IsAtMost(a, b)
  {
    if p == "" {
      assert p + a == a && p + b == b;
    } else {
      assert (p + a)[1..] == p[1..] + a && (p + b)[1..] == p[1..] + b;
      OrderBehindPrefix(p[1..], a, b);
    }
  }

  /** An acknowledgement comes before a request of the same identifier. */
  lemma AckComesFirst(id: Uuid)
    ensures !IsAtMost(FileName(Marker(id, Request)), FileName(Marker(id, Ack)))
  {
    OrderBehindPrefix(id, ".request", ".ack");
    assert !IsAtMost("request", "ack");
    assert ".request"[1..] == "request" && ".ack"[1..] == "ack";
  }

  ghost predicate IsFirst(q: Queue, name: Name) {
    name in q.requests && forall n :: n in q.requests ==> IsAtMost(FileName(name), FileName(n))
  }

  /* ---------- what the operations mean ---------- */

  function Submitted(q: Queue, id: Uuid, now: int): Queue {
    q.(requests := q.requests[Marker(id, Request) := File(true, now)])
  }

  function Acknowledged(q: Queue, id: Uuid, now: int): Queue {
    q.(requests := (q.requests - {Marker(id, Request)})[Marker(id, Ack) := File(true, now)])
  }

  function ArchiveOf(q: Queue, id: Uuid): Option<Archive> {
    if id in q.archives then Some(q.archives[id]) else None
  }

  function ErrorOf(q: Queue, id: Uuid): Option<int> {
    if id in q.errors then Some(q.errors[id]) else None
  }

  predicate IsClaimed(q: Queue, id: Uuid) {
    Marker(id, Request) in q.active
  }

  /** Every claim of a request that has no archive has failed, and no claim is left. */
  ghost predicate IsResolved(q: Queue, q': Queue, now: int) {
    && q' == q.(active := map[], errors := q'.errors)
    && forall id :: ErrorOf(q', id) == if IsClaimed(q, id) && id !in q.archives then Some(now) else ErrorOf(q, id)
  }

  predicate IsExpired(mtime: int, now: int) {
    mtime < now - RETENTION_SECONDS
  }

  function Unexpired(archives: map<Uuid, Archive>, id: Uuid, now: int): Option<Archive> {
    if id in archives && !IsExpired(archives[id].mtime, now) then Some(archives[id]) else None
  }

  function UnexpiredError(errors: map<Uuid, int>, id: Uuid, now: int): Option<int> {
    if id in errors && !IsExpired(errors[id], now) then Some(errors[id]) else None
  }

  /** Only what is older than the retention time has gone. */
  ghost predicate IsCleaned(q: Queue, q': Queue, now: int) {
    && q'.active == q.active
    && (forall n :: n in q'.requests <==> n in q.requests && !IsExpired(q.requests[n].mtime, now))
    && (forall n :: n in q'.requests ==> q'.requests[n] == q.requests[n])
    && (forall id :: ArchiveOf(q', id) == Unexpired(q.archives, id, now))
    && (forall id :: ErrorOf(q', id) == UnexpiredError(q.errors, id, now))
  }

  /** A request claim without an archive is turned into an error, and all claims go. */
  lemma ResolvedMeans(q: Queue, q': Queue, now: int, id: Uuid)
    requires IsResolved(q, q', now)
    ensures q'.active == map[] && q'.requests == q.requests && q'.archives == q.archives
    ensures id in q'.errors <==> id in q.errors || (Marker(id, Request) in q.active && id !in q.archives)
    ensures id in q'.errors ==>
              q'.errors[id] == if Marker(id, Request) in q.active && id !in q.archives then now else q.errors[id]
  {
    assert ErrorOf(q', id) == if IsClaimed(q, id) && id !in q.archives then Some(now) else ErrorOf(q, id);
  }

  /** What is at most 300 seconds old stays as it is, and what is older goes. */
  lemma CleanedMeans(q: Queue, q': Queue, now: int, name: Name, id: Uuid)
    requires IsCleaned(q, q', now)
    ensures name in q'.requests <==> name in q.requests && now - q.requests[name].mtime <= 300
    ensures name in q'.requests ==> q'.requests[name] == q.requests[name]
    ensures id in q'.archives <==> id in q.archives && now - q.archives[id].mtime <= 300
    ensures id in q'.archives ==> q'.archives[id] == q.archives[id]
    ensures id in q'.errors <==> id in q.errors && now - q.errors[id] <= 300
    ensures id in q'.errors ==> q'.errors[id] == q.errors[id]
    ensures q'.active == q.active
  {
    assert ArchiveOf(q', id) == Unexpired(q.archives, id, now);
    assert ErrorOf(q', id) == UnexpiredError(q.errors, id, now);
  }

  predicate IsValid(q: Queue, name: Name) {
    name in q.requests && name.Marker? && q.requests[name].plain
  }

  /** A valid marker of this identifier is pending. */
  predicate IsPending(q: Queue, id: Uuid, kind: Kind) {
    IsValid(q, Marker(id, kind))
  }

  /** A request that finds no result, or none that outlasts the acknowledgement before it. */
  predicate IsExported(q: Queue, id: Uuid) {
    IsPending(q, id, Request) && (IsPending(q, id, Ack) || !HasResult(q, id))
  }

  /** All pending markers have been handled: acknowledged results are gone, and each request that
      had no result left has that of its export. */
  ghost predicate IsDrained(q: Queue, q': Queue, exports: map<Uuid, Payload>, now: int) {
    && q'.requests == map[] && q'.active == q.active
    && forall id :: IsDrainedOf(q, q', exports, now, id)
  }

  ghost predicate IsDrainedOf(q: Queue, q': Queue, exports: map<Uuid, Payload>, now: int, id: Uuid) {
    && ArchiveOf(q', id) == (if IsExported(q, id) && id in exports then Some(Archive(exports[id], now))
                             else if IsPending(q, id, Ack) then None
                             else ArchiveOf(q, id))
    && ErrorOf(q', id) == (if IsExported(q, id) && id !in exports then Some(now)
                           else if IsPending(q, id, Ack) then None
                           else ErrorOf(q, id))
  }

  /** A marker counts if it is an empty file of its own.  A request is exported unless a result is
      there that is not acknowledged first; an acknowledged result goes, and any other stays. */
  lemma DrainedMeans(q: Queue, q': Queue, exports: map<Uuid, Payload>, now: int, id: Uuid)
    requires IsDrained(q, q', exports, now)
    ensures var asked := Marker(id, Request) in q.requests && q.requests[Marker(id, Request)].plain;
            var done := Marker(id, Ack) in q.requests && q.requests[Marker(id, Ack)].plain;
            var answered := id in q.archives || id in q.errors;
      if asked && (done || !answered) then
        if id in exports then id in q'.archives && q'.archives[id] == Archive(exports[id], now) && id !in q'.errors
        else id in q'.errors && q'.errors[id] == now && id !in q'.archives
      else if done then id !in q'.archives && id !in q'.errors
      else
        && (id in q'.archives <==> id in q.archives) && (id in q.archives ==> q'.archives[id] == q.archives[id])
        && (id in q'.errors <==> id in q.errors) && (id in q.errors ==> q'.errors[id] == q.errors[id])
    ensures q'.requests == map[] && q'.active == q.active
  {
    assert IsDrainedOf(q, q', exports, now, id);
  }

  /** An admitted request is answered by the next run that drains the queue, and once it is
      acknowledged the run after that withdraws the answer. */
  lemma RequestIsAnswered(q: Queue, id: Uuid, since: int, q': Queue, exports: map<Uuid, Payload>, now: int)
    requires id !in Occupied(q) && IsDrained(Submitted(q, id, since), q', exports, now)
    ensures if id in exports then id in q'.archives && q'.archives[id].payload == exports[id] else id in q'.errors
  {
    DrainedMeans(Submitted(q, id, since), q', exports, now, id);
  }

  lemma AnswerIsWithdrawn(q: Queue, id: Uuid, since: int, q': Queue, exports: map<Uuid, Payload>, now: int)
    requires IsDrained(Acknowledged(q, id, since), q', exports, now)
    ensures id !in q'.archives && id !in q'.errors
  {
    DrainedMeans(Acknowledged(q, id, since), q', exports, now, id);
  }

  /** The effect of handling one marker. */
  function Handled(q: Queue, name: Name, exports: map<Uuid, Payload>, now: int): Queue {
    var q1 := q.(requests := q.requests - {name});
    if !IsValid(q, name) then q1
    else if name.kind.Ack? then q1.(archives := q.archives - {name.id}, errors := q.errors - {name.id})
    else if HasResult(q, name.id) then q1
    else if name.id in exports then q1.(archives := q.archives[name.id := Archive(exports[name.id], now)])
    else q1.(errors := q.errors[name.id := now])
  }

  lemma HandledElsewhere(q: Queue, name: Name, exports: map<Uuid, Payload>, now: int, id: Uuid)
    requires !(IsValid(q, name) && name.id == id)
    ensures var q1 := Handled(q, name, exports, now);
      && (forall kind :: IsPending(q1, id, kind) == IsPending(q, id, kind))
      && ArchiveOf(q1, id) == ArchiveOf(q, id) && ErrorOf(q1, id) == ErrorOf(q, id)
  {
  }

  lemma HandledHere(q: Queue, name: Name, exports: map<Uuid, Payload>, now: int)
    requires IsValid(q, name)
    ensures var q1 := Handled(q, name, exports, now);
      forall kind :: IsPending(q1, name.id, kind) == (IsPending(q, name.id, kind) && kind != name.kind)
  {
    var q1 := Handled(q, name, exports, now);
    forall kind ensures IsPending(q1, name.id, kind) == (IsPending(q, name.id, kind) && kind != name.kind) {
    }
  }

  /** In the order of names, handling one marker changes nothing of what handling them all does. */
  lemma HandledFirst(q: Queue, name: Name, q': Queue, exports: map<Uuid, Payload>, now: int, id: Uuid)
    requires IsFirst(q, name) && IsDrainedOf(Handled(q, name, exports, now), q', exports, now, id)
    ensures IsDrainedOf(q, q', exports, now, id)
  {
    if IsValid(q, name) && name.id == id {
      AckComesFirst(id);
      HandledHere(q, name, exports, now);
    } else {
      HandledElsewhere(q, name, exports, now, id);
    }
  }

  /** Draining `q` does all that is left of draining `before`. */
  ghost predicate Leads(before: Queue, q: Queue, exports: map<Uuid, Payload>, now: int) {
    forall q' :: IsDrained(q, q', exports, now) ==> IsDrained(before, q', exports, now)
  }

  lemma LeadsOn(before: Queue, q: Queue, name: Name, exports: map<Uuid, Payload>, now: int)
    requires Leads(before, q, exports, now) && IsFirst(q, name)
    ensures Leads(before, Handled(q, name, exports, now), exports, now)
  {
    var q1 := Handled(q, name, exports, now);
    forall q' | IsDrained(q1, q', exports, now) ensures IsDrained(before, q', exports, now) {
      forall id ensures IsDrainedOf(q, q', exports, now, id) {
        HandledFirst(q, name, q', exports, now, id);
      }
      assert IsDrained(q, q', exports, now);
    }
  }

  lemma NothingPending(before: Queue, q: Queue, exports: map<Uuid, Payload>, now: int)
    requires Leads(before, q, exports, now) && q.requests == map[]
    ensures IsDrained(before, q, exports, now)
  {
    assert IsDrained(q, q, exports, now);
  }

  class Exporter {
    var q: Queue

    constructor ()
      ensures q == Queue(map[], map[], map[], map[])
    {
      q := Queue(map[], map[], map[], map[]);
    }

    method Submit(id: Uuid, now: int) returns (ok: bool)
      modifies this
      ensures ok <==> |Occupied(old(q))| < 4 && id !in Occupied(old(q))
      ensures q == if ok then Submitted(old(q), id, now) else old(q)
    {
      var occupied := Occupied(q);
      if |occupied| >= MAX_EXPORTS || id in occupied {
        return false;
      }
      q := q.(requests := q.requests[Marker(id, Request) := File(true, now)]);
      return true;
    }

    /** Withdraws the request and marks its result as done with; fails if that was said before. */
    method Acknowledge(id: Uuid, now: int) returns (ok: bool)
      modifies this
      ensures ok <==> Marker(id, Ack) !in old(q).requests
      ensures q == if ok then Acknowledged(old(q), id, now)
                   else old(q).(requests := old(q).requests - {Marker(id, Request)})
      ensures Marker(id, Ack) in q.requests && Marker(id, Request) !in q.requests
    {
      q := q.(requests := q.requests - {Marker(id, Request)});
      if Marker(id, Ack) in q.requests {
        return false;
      }
      q := q.(requests := q.requests[Marker(id, Ack) := File(true, now)]);
      return true;
    }

    method FinishInterrupted(now: int)
      modifies this
      ensures IsResolved(old(q), q, now)
    {
      while q.active != map[]
        invariant q == old(q).(active := q.active, errors := q.errors)
        invariant q.active.Keys <= old(q).active.Keys
        invariant forall id ::
                    ErrorOf(q, id) == if IsClaimed(old(q), id) && !IsClaimed(q, id) && id !in q.archives then Some(now)
                                      else ErrorOf(old(q), id)
        decreases |q.active|
      {
        var name :| name in q.active;
        if name.Marker? && name.kind.Request? && name.id !in q.archives {
          q := q.(errors := q.errors[name.id := now]);
        }
        FewerFiles(q.active, name);
        q := q.(active := q.active - {name});
      }
    }

    method Cleanup(now: int)
      modifies this
      ensures IsCleaned(old(q), q, now)
    {
      CleanupArchives(now);
      CleanupErrors(now);
      CleanupRequests(now);
    }

    method CleanupArchives(now: int)
      modifies this
      ensures q == old(q).(archives := q.archives)
      ensures forall id :: ArchiveOf(q, id) == Unexpired(old(q).archives, id, now)
    {
      var todo := q.archives.Keys;
      while todo != {}
        invariant q == old(q).(archives := q.archives) && todo <= q.archives.Keys
        invariant forall id ::
                    ArchiveOf(q, id) == if id in todo then ArchiveOf(old(q), id)
                                        else Unexpired(old(q).archives, id, now)
        decreases |todo|
      {
        var id: Uuid :| id in todo;
        assert ArchiveOf(q, id) == ArchiveOf(old(q), id);
        if IsExpired(q.archives[id].mtime, now) {
          q := q.(archives := q.archives - {id});
        }
        todo := todo - {id};
      }
    }

    method CleanupErrors(now: int)
      modifies this
      ensures q == old(q).(errors := q.errors)
      ensures forall id :: ErrorOf(q, id) == UnexpiredError(old(q).errors, id, now)
    {
      var todo := q.errors.Keys;
      while todo != {}
        invariant q == old(q).(errors := q.errors) && todo <= q.errors.Keys
        invariant forall id ::
                    ErrorOf(q, id) == if id in todo then ErrorOf(old(q), id) else UnexpiredError(old(q).errors, id, now)
        decreases |todo|
      {
        var id: Uuid :| id in todo;
        assert ErrorOf(q, id) == ErrorOf(old(q), id);
        if IsExpired(q.errors[id], now) {
          q := q.(errors := q.errors - {id});
        }
        todo := todo - {id};
      }
    }

    method CleanupRequests(now: int)
      modifies this
      ensures q == old(q).(requests := q.requests)
      ensures forall n :: n in q.requests <==> n in old(q).requests && !IsExpired(old(q).requests[n].mtime, now)
      ensures forall n :: n in q.requests ==> q.requests[n] == old(q).requests[n]
    {
      var todo := q.requests.Keys;
      while todo != {}
        invariant q == old(q).(requests := q.requests) && todo <= q.requests.Keys
        invariant forall n :: n in q.requests <==>
                  n in old(q).requests && (n in todo || !IsExpired(old(q).requests[n].mtime, now))
        invariant forall n :: n in q.requests ==> q.requests[n] == old(q).requests[n]
        decreases |todo|
      {
        var name :| name in todo;
        if IsExpired(q.requests[name].mtime, now) {
          q := q.(requests := q.requests - {name});
        }
        todo := todo - {name};
      }
    }

    method FirstRequest() returns (first: Name)
      requires q.requests != map[]
      ensures IsFirst(q, first)
    {
      first :| first in q.requests;
      var todo := q.requests.Keys;
      OrderIsTotal(FileName(first), FileName(first));
      while todo != {}
        invariant todo <= q.requests.Keys && first in q.requests
        invariant forall n :: n in q.requests && n !in todo ==> IsAtMost(FileName(first), FileName(n))
        invariant IsAtMost(FileName(first), FileName(first))
        decreases |todo|
      {
        var name :| name in todo;
        OrderIsTotal(FileName(first), FileName(name));
        OrderIsTotal(FileName(name), FileName(name));
        if !IsAtMost(FileName(first), FileName(name)) {
          forall n | n in q.requests && n !in todo ensures IsAtMost(FileName(name), FileName(n)) {
            OrderIsTransitive(FileName(name), FileName(first), FileName(n));
          }
          first := name;
        }
        todo := todo - {name};
      }
    }

    /** Claims and handles one marker.  A request is exported outside the queue lock. */
    method Handle(name: Name, claimed: Name, exports: map<Uuid, Payload>, now: int)
      requires name in q.requests && q.active == map[]
      requires if name.Marker? then claimed == name else claimed.Other? && claimed.stem.None?
      modifies this
      ensures q == Handled(old(q), name, exports, now)
    {
      var file := q.requests[name];
      q := q.(requests := q.requests - {name}, active := q.active[claimed := file]);
      if name.Marker? && file.plain {
        var id := name.id;
        if name.kind.Ack? {
          q := q.(archives := q.archives - {id});
          q := q.(errors := q.errors - {id});
        } else if id !in q.archives && id !in q.errors {
          if id in exports {
            q := q.(archives := q.archives[id := Archive(exports[id], now)]);
          } else {
            q := q.(errors := q.errors[id := now]);
          }
        }
      }
      q := q.(active := q.active - {claimed});
    }

    /** One run of the worker, no new markers arriving.  `exports` holds the exports that
        succeed, `random` the name under which an invalid marker is claimed. */
    method DrainExports(finalize: bool, exports: map<Uuid, Payload>, random: string, now: int)
      modifies this
      ensures exists resolved, cleaned :: IsResolved(old(q), resolved, now) && IsCleaned(resolved, cleaned, now)
                                          && (if finalize then q == cleaned else IsDrained(cleaned, q, exports, now))
    {
      FinishInterrupted(now);
      ghost var resolved := q;
      Cleanup(now);
      ghost var cleaned := q;
      if !finalize {
        Drain(exports, random, now);
      }
      assert IsResolved(old(q), resolved, now) && IsCleaned(resolved, cleaned, now);
    }

    method Drain(exports: map<Uuid, Payload>, random: string, now: int)
      requires q.active == map[]
      modifies this
      ensures IsDrained(old(q), q, exports, now)
    {
      while q.requests != map[]
        invariant q.active == map[] && Leads(old(q), q, exports, now)
        decreases |q.requests|
      {
        var name := FirstRequest();
        LeadsOn(old(q), q, name, exports, now);
        FewerFiles(q.requests, name);
        Handle(name, if name.Marker? then name else Other(random, None), exports, now);
      }
      NothingPending(old(q), q, exports, now);
    }
  }

  lemma FewerFiles(files: map<Name, File>, name: Name)
    requires name in files
    ensures |files - {name}| < |files|
  {
    assert (files - {name}).Keys == files.Keys - {name};
  }
}
