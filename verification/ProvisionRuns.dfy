/** Whole runs of a device: claims, applies, recoveries, published results and reboots in any
    order and any number, each apply and each recovery cut off wherever it likes.

    A world pairs the state that the worker and its finalizer work on with three records no
    program reads: every job ever claimed, with the candidate staged for it, every configuration
    ever committed, and the configuration that a device with atomic applies would now hold. */
module ProvisionRuns {
  import opened Outcomes
  import opened ConfigRoots
  import opened Candidates
  import opened Runs

  /** What a claimed job's manifest says; `None` where it cannot be read. */
  datatype Manifest = Manifest(job: JobId, digest: Digest)

  datatype Status = Succeeded(result: ApplyResult) | Failed

  datatype World = World(
    roots: Roots,
    active: map<JobId, Option<Manifest>>,
    results: map<JobId, Status>,
    recovered: bool,    // this boot's recovery unit has run
    seen: map<JobId, Option<Manifest>>,
    staged: map<JobId, Rendered>,
    commits: map<JobId, Root>,
    config: Option<Root>)

  predicate Matches(receipt: Option<Receipt>, job: JobId, manifest: Option<Manifest>) {
    && receipt.Some? && receipt.value.phase.Committed? && manifest.Some?
    && receipt.value.job == job && manifest.value.job == job && receipt.value.digest == manifest.value.digest
  }

  /** The status published for an interrupted claim once recovery has returned `receipt`. */
  function RecoveredStatus(receipt: Option<Receipt>, job: JobId, manifest: Option<Manifest>): Status {
    if Matches(receipt, job, manifest) then Succeeded(receipt.value.result) else Failed
  }

  ghost predicate IsQuiet(w: World) {
    w.recovered && w.active == map[]
  }

  /* ---------- steps ---------- */

  ghost predicate IsClaim(w: World, w': World, job: JobId, manifest: Option<Manifest>, c: Rendered) {
    && IsQuiet(w) && job !in w.seen && c.job == job
    && w' == w.(active := map[job := manifest], seen := w.seen[job := manifest], staged := w.staged[job := c])
  }

  /** Any durable progress of an apply before its commit, or of recovery or cleanup. */
  ghost predicate IsWork(w: World, w': World) {
    && !IsQuiet(w)
    && WellFormed(w'.roots) && Verdict(w'.roots) == Verdict(w.roots)
    && w' == w.(roots := w'.roots)
  }

  /** The commit of a claimed job makes the device settle on the target of its staged candidate. */
  ghost predicate IsCommit(w: World, w': World, job: JobId) {
    && job in w.active && job in w.staged && job !in w.commits && job !in w.results
    && WellFormed(w'.roots) && Verdict(w'.roots) == Some(TargetIn(w, job))
    && w' == w.(roots := w'.roots, commits := w.commits[job := TargetIn(w, job)], config := Some(TargetIn(w, job)))
  }

  /** What applying the candidate staged for `job` to the present configuration is meant to give. */
  function TargetIn(w: World, job: JobId): Root
    requires job in w.staged
  {
    Target(w.config, w.staged[job])
  }

  ghost predicate IsPublish(w: World, w': World, job: JobId, status: Status) {
    && job in w.active && Settled(w.roots)
    && (status == RecoveredStatus(ReceiptOf(w.roots.active), job, w.active[job])
        || (job in w.commits && w.commits[job].receipt.Some?
            && status == Succeeded(w.commits[job].receipt.value.result)))
    && w' == w.(results := w.results[job := status])
  }

  ghost predicate IsDrop(w: World, w': World, job: JobId) {
    && job in w.active && job in w.results && Settled(w.roots)
    && w' == w.(active := w.active - {job})
  }

  /** The runtime directory does not outlive the boot; the configuration roots do. */
  ghost predicate IsReboot(w: World, w': World) {
    w' == w.(active := map[], results := map[], recovered := false)
  }

  ghost predicate IsBootRecovered(w: World, w': World) {
    Settled(w.roots) && w' == w.(recovered := true)
  }

  ghost predicate IsStep(w: World, w': World) {
    || w == w'
    || (exists job, manifest, c :: IsClaim(w, w', job, manifest, c))
    || IsWork(w, w')
    || (exists job :: IsCommit(w, w', job))
    || (exists job, status :: IsPublish(w, w', job, status))
    || (exists job :: IsDrop(w, w', job))
    || IsReboot(w, w')
    || IsBootRecovered(w, w')
  }

  ghost predicate IsRun(run: seq<World>) {
    run != [] && IsInitial(run[0]) && forall i :: 0 <= i < |run| - 1 ==> IsStep(run[i], run[i + 1])
  }

  /** A settled device that nothing is known of but the receipt in its active root. */
  ghost predicate IsInitial(w: World) {
    && Settled(w.roots) && w.config == Visible(w.roots.active)
    && w.active == map[] && w.results == map[]
    && w.commits.Keys <= w.seen.Keys
    && (forall j :: j in w.staged ==> j in w.seen && w.staged[j].job == j)
    && (forall j :: j in w.commits ==> IsCommitOf(w.commits[j], j))
    && (forall j :: j in w.commits && j in w.staged ==> w.commits[j].receipt.value.digest == w.staged[j].digest)
    && (w.config.Some? && w.config.value.receipt.Some? ==> IsOnRecord(w, w.config.value))
  }

  ghost predicate IsCommitOf(root: Root, job: JobId) {
    root.receipt.Some? && root.receipt.value.phase.Committed? && root.receipt.value.job == job
  }

  ghost predicate IsOnRecord(w: World, root: Root) {
    root.receipt.Some? && root.receipt.value.job in w.commits && w.commits[root.receipt.value.job] == root
  }

  /* ---------- the invariant ---------- */

  ghost predicate IsSafe(w: World) {
    && WellFormed(w.roots) && Verdict(w.roots) == w.config
    && (IsQuiet(w) ==> Settled(w.roots))
    && (w.config.Some? && w.config.value.receipt.Some? ==> IsOnRecord(w, w.config.value))
    && (forall i, j :: i in w.active && j in w.active ==> i == j)
    && (forall j :: IsJobSafe(w, j))
  }

  /** What is on record of one job fits together. */
  ghost predicate IsJobSafe(w: World, j: JobId) {
    && (j in w.active ==> j in w.seen && w.seen[j] == w.active[j] && j in w.staged)
    && (j in w.staged ==> j in w.seen && w.staged[j].job == j)
    && (j in w.commits ==> j in w.seen && IsCommitOf(w.commits[j], j))
    && (j in w.commits && j in w.staged ==> w.commits[j].receipt.value.digest == w.staged[j].digest)
    && (j in w.active && j in w.commits ==> w.config == Some(w.commits[j]))
    && (j in w.results ==> j in w.seen && j in w.staged && Agrees(w, j))
  }

  /** The result published for `j` tells whether its promotion committed, provided the worker
      applied the source that was staged. */
  ghost predicate Agrees(w: World, j: JobId)
    requires j in w.results && j in w.seen
  {
    match w.results[j]
    case Succeeded(result) =>
      j in w.commits && w.commits[j].receipt.Some? && w.commits[j].receipt.value.result == result
    case Failed => !(j in w.commits && Matches(w.commits[j].receipt, j, w.seen[j]))
  }

  lemma ClaimKeepsSafe(w: World, w': World, job: JobId, manifest: Option<Manifest>, c: Rendered)
    requires IsSafe(w) && IsClaim(w, w', job, manifest, c)
    ensures IsSafe(w')
  {
    assert IsJobSafe(w, job);
    forall j ensures IsJobSafe(w', j) {
      assert IsJobSafe(w, j);
    }
  }

  lemma CommitKeepsSafe(w: World, w': World, job: JobId)
    requires IsSafe(w) && IsCommit(w, w', job)
    ensures IsSafe(w')
  {
    assert IsJobSafe(w, job);
    forall j ensures IsJobSafe(w', j) {
      assert IsJobSafe(w, j);
    }
  }

  lemma PublishKeepsSafe(w: World, w': World, job: JobId, status: Status)
    requires IsSafe(w) && IsPublish(w, w', job, status)
    ensures IsSafe(w')
  {
    assert w.config == Visible(w.roots.active);
    forall j ensures IsJobSafe(w', j) {
      assert IsJobSafe(w, j);
    }
  }

  lemma WorkKeepsSafe(w: World, w': World)
    requires IsSafe(w) && IsWork(w, w')
    ensures IsSafe(w')
  {
    forall j ensures IsJobSafe(w', j) {
      assert IsJobSafe(w, j);
    }
  }

  lemma DropKeepsSafe(w: World, w': World, job: JobId)
    requires IsSafe(w) && IsDrop(w, w', job)
    ensures IsSafe(w')
  {
    forall j ensures IsJobSafe(w', j) {
      assert IsJobSafe(w, j);
    }
  }

  lemma BootKeepsSafe(w: World, w': World)
    requires IsSafe(w) && (IsReboot(w, w') || IsBootRecovered(w, w'))
    ensures IsSafe(w')
  {
    forall j ensures IsJobSafe(w', j) {
      assert IsJobSafe(w, j);
    }
  }

  lemma StepKeepsSafe(w: World, w': World)
    requires IsSafe(w) && IsStep(w, w')
    ensures IsSafe(w')
  {
    if job, manifest, c :| IsClaim(w, w', job, manifest, c) {
      ClaimKeepsSafe(w, w', job, manifest, c);
    } else if job :| IsCommit(w, w', job) {
      CommitKeepsSafe(w, w', job);
    } else if job, status :| IsPublish(w, w', job, status) {
      PublishKeepsSafe(w, w', job, status);
    } else if job :| IsDrop(w, w', job) {
      DropKeepsSafe(w, w', job);
    } else if IsWork(w, w') {
      WorkKeepsSafe(w, w');
    } else if w != w' {
      BootKeepsSafe(w, w');
    }
  }

  lemma {:induction false} SafeAt(run: seq<World>, n: nat)
    requires IsRun(run) && n < |run|
    ensures IsSafe(run[n])
  {
    if n > 0 {
      SafeAt(run, n - 1);
      assert IsStep(run[n - 1], run[n - 1 + 1]);
      StepKeepsSafe(run[n - 1], run[n]);
    }
  }

  lemma RunIsSafe(run: seq<World>)
    requires IsRun(run)
    ensures forall i :: 0 <= i < |run| ==> IsSafe(run[i])
  {
    forall i | 0 <= i < |run| ensures IsSafe(run[i]) {
      SafeAt(run, i);
    }
  }

  /* ---------- what a run guarantees ---------- */

  ghost predicate Keeps<K, V>(m: map<K, V>, m': map<K, V>) {
    forall k :: k in m ==> k in m' && m'[k] == m[k]
  }

  /** The records only grow, and the configuration a device would hold changes only with the record
      of commits.  If one job has been committed since, it is the target of that job's candidate
      over the earlier configuration. */
  ghost predicate OnlyCommitsChange(w: World, w': World) {
    && Keeps(w.seen, w'.seen) && Keeps(w.commits, w'.commits) && Keeps(w.staged, w'.staged)
    && (w.config.Some? ==> w'.config.Some?)
    && (if w'.commits.Keys == w.commits.Keys then w'.config == w.config
        else w'.config.Some? && IsOnRecord(w', w'.config.value) && w'.config.value.receipt.value.job !in w.commits)
    && (forall job :: IsOnlyCommit(w, w', job) ==>
        job in w'.staged && w'.config == Some(Target(w.config, w'.staged[job])))
  }

  ghost predicate IsOnlyCommit(w: World, w': World, job: JobId) {
    job !in w.commits && w'.commits.Keys == w.commits.Keys + {job}
  }

  lemma ClaimCommitsNothing(w: World, w': World, job: JobId, manifest: Option<Manifest>, c: Rendered)
    requires IsSafe(w) && IsClaim(w, w', job, manifest, c)
    ensures OnlyCommitsChange(w, w')
  {
    assert IsJobSafe(w, job);
  }

  lemma CommitIsRecorded(w: World, w': World, job: JobId)
    requires IsSafe(w) && IsCommit(w, w', job)
    ensures OnlyCommitsChange(w, w')
  {
    assert IsJobSafe(w, job);
    forall j | IsOnlyCommit(w, w', j) ensures j == job {
      assert job in w'.commits && job !in w.commits;
    }
  }

  ghost predicate SameRecords(w: World, w': World) {
    w'.seen == w.seen && w'.commits == w.commits && w'.config == w.config && w'.staged == w.staged
  }

  lemma StepKinds(w: World, w': World)
    requires IsStep(w, w')
    ensures || (exists job :: IsCommit(w, w', job))
            || (exists job, manifest, c :: IsClaim(w, w', job, manifest, c))
            || SameRecords(w, w')
  {
    if job :| IsCommit(w, w', job) {
    } else if job, manifest, c :| IsClaim(w, w', job, manifest, c) {
    } else if job, status :| IsPublish(w, w', job, status) {
      assert SameRecords(w, w');
    } else if job :| IsDrop(w, w', job) {
      assert SameRecords(w, w');
    } else {
      assert IsWork(w, w') || IsReboot(w, w') || IsBootRecovered(w, w') || w == w';
    }
  }

  lemma StepCommits(w: World, w': World)
    requires IsSafe(w) && IsStep(w, w')
    ensures OnlyCommitsChange(w, w')
  {
    StepKinds(w, w');
    if job :| IsCommit(w, w', job) {
      CommitIsRecorded(w, w', job);
    } else if job, manifest, c :| IsClaim(w, w', job, manifest, c) {
      ClaimCommitsNothing(w, w', job, manifest, c);
    }
  }

  lemma CommitsCompose(a: World, b: World, c: World)
    requires OnlyCommitsChange(a, b) && OnlyCommitsChange(b, c)
    ensures OnlyCommitsChange(a, c)
  {
    forall job | IsOnlyCommit(a, c, job) ensures job in c.staged && c.config == Some(Target(a.config, c.staged[job])) {
      if job in b.commits {
        assert IsOnlyCommit(a, b, job) && c.commits.Keys == b.commits.Keys;
      } else {
        assert b.commits.Keys == a.commits.Keys && IsOnlyCommit(b, c, job);
      }
    }
  }

  lemma RunCommits(run: seq<World>, i: nat, j: nat)
    requires IsRun(run) && i <= j < |run|
    ensures OnlyCommitsChange(run[i], run[j])
  {
    forall k | 0 <= k < |run| - 1 ensures OnlyCommitsChange(run[k], run[k + 1]) {
      SafeAt(run, k);
      StepCommits(run[k], run[k + 1]);
    }
    forall a, b, c | OnlyCommitsChange(a, b) && OnlyCommitsChange(b, c) ensures OnlyCommitsChange(a, c) {
      CommitsCompose(a, b, c);
    }
    Chain(run, OnlyCommitsChange, i, j);
  }

  /** Crash safety.  Whenever nothing is claimed and recovery has run, no candidate, rollback root
      or marker is left, and the active configuration is exactly the earlier one if no receipt
      has been committed since, and exactly the target of the candidate that was staged for a job
      if that job's receipt has been. */
  lemma CrashSafety(run: seq<World>, i: nat, j: nat)
    requires IsRun(run) && i <= j < |run| && IsQuiet(run[i]) && IsQuiet(run[j])
    ensures Settled(run[j].roots)
    ensures run[j].commits.Keys == run[i].commits.Keys ==> Visible(run[j].roots.active) == Visible(run[i].roots.active)
    ensures forall job :: IsOnlyCommit(run[i], run[j], job) ==>
              && job in run[j].staged && run[j].staged[job].job == job
              && Visible(run[j].roots.active) == Some(Target(run[i].roots.active, run[j].staged[job]))
  {
    RunIsSafe(run);
    RunCommits(run, i, j);
    forall job | IsOnlyCommit(run[i], run[j], job)
      ensures job in run[j].staged
                && Visible(run[j].roots.active) == Some(Target(run[i].roots.active, run[j].staged[job]))
    {
      TargetOfVisible(run[i].roots.active, run[j].staged[job]);
    }
  }

  /** Between jobs a device is settled on the configuration that it should have. */
  lemma QuietIsSettled(w: World)
    requires IsSafe(w) && IsQuiet(w)
    ensures Settled(w.roots) && Visible(w.roots.active) == w.config
  {
  }

  /** A provisioned device is never reset: from then on every recovery, at any point of any run,
      would settle on a configuration. */
  lemma NeverReset(run: seq<World>, i: nat, j: nat)
    requires IsRun(run) && i <= j < |run| && run[i].config.Some?
    ensures Verdict(run[j].roots).Some?
    ensures IsQuiet(run[j]) ==> HasConfig(run[j].roots.active)
  {
    RunIsSafe(run);
    RunCommits(run, i, j);
  }

  /** Result agreement.  A published success is a committed promotion; a published failure of a
      committed promotion means that the worker applied another source than was staged. */
  lemma ResultsAgree(run: seq<World>, i: nat, job: JobId)
    requires IsRun(run) && i < |run| && job in run[i].results
    ensures job in run[i].seen && job in run[i].staged
    ensures run[i].results[job].Succeeded? ==> job in run[i].commits && IsCommitOf(run[i].commits[job], job)
                                               && run[i].commits[job].receipt.value.result == run[i].results[job].result
    ensures job in run[i].commits && run[i].seen[job] == Some(Manifest(job, run[i].staged[job].digest)) ==>
              run[i].results[job].Succeeded?
  {
    RunIsSafe(run);
    assert IsJobSafe(run[i], job);
  }

  /** What recovery publishes for a claim is exact: a success if and only if its promotion has
      committed and the worker applied the source that was staged. */
  lemma RecoveredStatusIsExact(run: seq<World>, i: nat, job: JobId)
    requires IsRun(run) && i < |run| && job in run[i].active && Settled(run[i].roots)
    ensures job in run[i].staged
    ensures RecoveredStatus(ReceiptOf(run[i].roots.active), job, run[i].active[job]).Succeeded? <==>
            job in run[i].commits && run[i].active[job] == Some(Manifest(job, run[i].staged[job].digest))
  {
    RunIsSafe(run);
    assert IsJobSafe(run[i], job);
  }

  /** A published success is never taken back while the boot lasts. */
  lemma SuccessStands(run: seq<World>, i: nat, j: nat, job: JobId)
    requires IsRun(run) && i <= j < |run| && job in run[i].results && job in run[j].results
    requires run[i].results[job].Succeeded?
    requires job in run[i].staged && job in run[i].seen
    requires run[i].seen[job] == Some(Manifest(job, run[i].staged[job].digest))
    ensures run[j].results[job] == run[i].results[job]
  {
    RunIsSafe(run);
    RunCommits(run, i, j);
    assert IsJobSafe(run[i], job) && IsJobSafe(run[j], job);
  }
}
