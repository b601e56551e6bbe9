/** The root worker: promotes a rendered candidate, publishes results, and finalizes what an
    interrupted worker left. */
module Provision {
  import opened Outcomes
  import opened ConfigRoots
  import opened RootStore
  import opened Activation
  import opened Candidates

  datatype Applied = Success(result: ApplyResult) | Refused | ActivationFailed(status: RollbackStatus) | Discarded

  /** The candidate of `t` waits, complete and marked promoted, beside a settled device that does
      not already run a commit of `t`. */
  ghost predicate IsStagedFor(d: Roots, t: Transaction) {
    IsStaged(d) && IsPromotedBy(d.candidate, t) && !IsCommittedBy(d.active, t)
  }

  /** What an apply of `t`, begun in `d0`, may leave at any point it is cut off: recovery settles
      on the target if the committed receipt has been written, and on the earlier configuration
      if not. */
  ghost predicate IsApplyCut(d0: Roots, d: Roots, t: Transaction, target: Root) {
    && WellFormed(d)
    && Verdict(d) == (if IsCommittedBy(d.active, t) then Some(target) else Verdict(d0))
  }

  ghost predicate IsApplied(d: Roots, t: Transaction, applied: Applied) {
    match applied
    case Success(result) => result == t.result && IsCommittedBy(d.active, t) && Settled(d)
    case Refused => !IsCommittedBy(d.active, t)
    case ActivationFailed(_) => !IsCommittedBy(d.active, t) && Settled(d)
    case Discarded => !IsCommittedBy(d.active, t) && Settled(d) && !IsProvisioned(d.active)
  }

  method PromoteReapply(s: Store, t: Transaction, attempt: Attempt, back: Attempt)
    returns (o: Outcome, applied: Applied)
    modifies s`roots, s`budget, s`owed
    ensures old(IsStagedFor(s.roots, t) && HasConfig(s.roots.active)) ==>
              && IsApplyCut(old(s.roots), s.roots, t, CommittedForm(old(s.roots).candidate.value, t))
              && (o.Done? ==> !applied.Refused? && !applied.Discarded? && IsApplied(s.roots, t, applied))
              && (s.owed && !old(s.owed) ==> s.roots.reactivate)
    ensures o.Done? ==> applied.Success? == attempt.ok
    ensures old(s.budget >= 12 && IsStagedFor(s.roots, t) && HasConfig(s.roots.active)) ==> o.Done?
    ensures s.budget + 12 >= old(s.budget)
  {
    applied := Refused;
    :- AtomicPromote(s);
    var success, status :- CompleteReapply(s, t, attempt, back);
    return Done, if success then Success(t.result) else ActivationFailed(status);
  }

  /** Without an activation hook the initial configuration is committed at once. */
  method PromoteInitial(s: Store, t: Transaction, hook: bool, attempt: Attempt, back: Attempt)
    returns (o: Outcome, applied: Applied)
    modifies s`roots, s`budget, s`owed
    ensures old(IsStagedFor(s.roots, t) && !IsProvisioned(s.roots.active)) ==>
              && IsApplyCut(old(s.roots), s.roots, t, CommittedForm(old(s.roots).candidate.value, t))
              && (o.Done? ==> !applied.Refused? && !applied.ActivationFailed? && IsApplied(s.roots, t, applied))
              && (s.owed && !old(s.owed) ==> s.roots.reactivate)
    ensures old(IsStagedFor(s.roots, t) && !IsProvisioned(s.roots.active)
                && Managed(s.roots.active) <= Managed(s.roots.candidate)) ==>
              old(Managed(s.roots.active)) <= Survivors(s.roots) || (hook && attempt.names <= Survivors(s.roots))
    ensures o.Done? ==> applied.Success? == (!hook || attempt.ok)
    ensures old(s.budget >= 12 && IsStagedFor(s.roots, t) && !IsProvisioned(s.roots.active))
            && (!hook || attempt.ok) ==>
              o.Done? && s.budget + 12 >= old(s.budget)
  {
    applied := Refused;
    :- AtomicPromoteInitial(s);
    if !hook {
      :- MarkCommitted(s, t);
      :- CleanupRollback(s);
      return Done, Success(t.result);
    }
    var success, status :- CompleteReapply(s, t, attempt, back);
    if success {
      return Done, Success(t.result);
    }
    if status.Completed? {
      return Done, ActivationFailed(status);
    }
    ghost var d := s.roots;
    o := DiscardInitialConfig(s);
    if o.Interrupted? && WellFormed(d) && Discards(d) {
      DiscardCutIsSafe(d, s.roots);
    }
    return o, Discarded;
  }

  /** The candidate of `c` before its receipt is written. */
  function CandidateOf(previous: Option<Root>, c: Rendered): Root {
    Target(previous, c).(receipt := None, managed := c.managed)
  }

  /** Copies a rendered candidate and its bundle files beside the active root. */
  method CopyCandidateToDurable(s: Store, c: Rendered) returns (o: Outcome)
    modifies s`roots, s`budget
    ensures s.roots == old(s.roots).(candidate := s.roots.candidate)
    ensures o.Done? ==> s.roots.candidate == Some(Root(Some(c.config), false, None, c.managed,
                                                       if c.bundle.Some? then WithFiles(c.extra, c.bundle.value)
                                                       else c.extra))
    ensures old(s.budget) >= 3 ==> o.Done?
    ensures s.budget + 3 >= old(s.budget)
  {
    if s.roots.candidate.Some? {
      :- s.RemoveCandidate();
    }
    var root := Root(Some(c.config), false, None, c.managed, c.extra);
    :- s.CopyCandidate(root);
    if c.bundle.Some? {
      :- s.UpdateCandidate(root.(extra := WithFiles(root.extra, c.bundle.value)));
    }
    return Done;
  }

  /** A settled device that does not run a commit of `c` already. */
  ghost predicate IsReadyFor(d: Roots, c: Rendered) {
    Settled(d) && !IsCommittedBy(d.active, TransactionOf(c, IsProvisioned(d.active)))
  }

  /** A reapply must be allowed, the digest well formed, and the activation succeed unless there is
      none: an initial configuration without a hook. */
  predicate IsAccepted(d: Roots, c: Rendered, hook: bool, attempt: Attempt) {
    && (IsProvisioned(d.active) ==> c.allowReapply) && IsSha256(c.digest)
    && (attempt.ok || (!hook && !IsProvisioned(d.active)))
  }

  /** What recovery would settle on is what is active once a transaction has committed. */
  lemma CommittedIsActive(d0: Roots, d: Roots, t: Transaction, target: Root)
    requires IsApplyCut(d0, d, t, target) && IsCommittedBy(d.active, t)
    ensures Visible(d.active) == Some(target)
  {
  }

  /** Puts the candidate of `c` beside the active root, unless the apply is refused. */
  method PrepareCandidate(s: Store, c: Rendered) returns (o: Outcome, refused: bool)
    modifies s`roots, s`budget, s`owed
    ensures old(Settled(s.roots)) ==> s.roots == old(s.roots).(candidate := s.roots.candidate) && s.owed == old(s.owed)
    ensures o.Done? && !refused ==> s.roots.candidate.Some?
    ensures old(Settled(s.roots)) && o.Done? ==>
              && (refused <==> (old(IsProvisioned(s.roots.active)) && !c.allowReapply) || !IsSha256(c.digest))
              && (!refused ==> s.roots.candidate == Some(CandidateOf(old(s.roots).active, c)))
    ensures old(Settled(s.roots) && s.budget >= 5) ==> o.Done?
    ensures old(Settled(s.roots)) ==> s.budget + 5 >= old(s.budget)
  {
    refused := true;
    :- RecoverConfigRoot(s);
    var isReapply := IsProvisioned(s.roots.active);
    if isReapply && !c.allowReapply {
      return Done, true;
    }
    :- CopyCandidateToDurable(s, c);
    if isReapply {
      if !IsSha256(c.digest) {
        return Done, true;
      }
      if c.preserveFiles {
        var files := ManagedFiles(s.roots.active);
        :- s.UpdateCandidate(s.roots.candidate.value.(extra := WithFiles(s.roots.candidate.value.extra, files)));
      }
    }
    :- s.UpdateCandidate(s.roots.candidate.value.(first := true));
    return Done, !IsSha256(c.digest);
  }

  /** Promotes and activates a candidate under its receipt. */
  method PromoteCandidate(s: Store, c: Rendered, hook: bool, attempt: Attempt, back: Attempt)
    returns (o: Outcome, applied: Applied)
    modifies s`roots, s`budget, s`owed
    ensures old(IsReadyFor(s.roots, c)) ==>
              var t := TransactionOf(c, IsProvisioned(old(s.roots).active));
              && IsApplyCut(old(s.roots), s.roots, t, Target(old(s.roots).active, c))
              && (o.Done? ==> IsApplied(s.roots, t, applied))
              && (s.owed && !old(s.owed) ==> s.roots.reactivate)
    ensures old(Settled(s.roots) && !IsProvisioned(s.roots.active) && Managed(s.roots.active) <= c.managed) ==>
              old(Managed(s.roots.active)) <= Survivors(s.roots) || (hook && attempt.names <= Survivors(s.roots))
    ensures old(IsReadyFor(s.roots, c)) && o.Done? ==>
              && (applied.Refused? <==> (old(IsProvisioned(s.roots.active)) && !c.allowReapply) || !IsSha256(c.digest))
              && (applied.Success? <==>
                    !applied.Refused? && (attempt.ok || !(hook || old(IsProvisioned(s.roots.active)))))
    ensures old(IsReadyFor(s.roots, c) && s.budget >= 20) && IsAccepted(old(s.roots), c, hook, attempt) ==>
              o.Done? && applied.Success? && s.budget + 20 >= old(s.budget)
    ensures old(IsReadyFor(s.roots, c))
            && IsCommittedBy(s.roots.active, TransactionOf(c, IsProvisioned(old(s.roots).active))) ==>
              var root, previous := s.roots.active.value, old(s.roots).active;
              && root.config == Some(c.config) && root.first
              && (forall f :: "files/" <= f ==>
                    (f in root.extra <==> if IsProvisioned(previous) && c.preserveFiles then f in previous.value.extra
                                          else if c.bundle.Some? then f in c.bundle.value
                                          else f in c.extra))
              && (forall f :: !("files/" <= f) ==> (f in root.extra <==> f in c.extra))
  {
    applied := Refused;
    ghost var d0 := s.roots;
    var refused :- PrepareCandidate(s, c);
    if refused {
      return Done, Refused;
    }
    var isReapply := IsProvisioned(s.roots.active);
    var t := TransactionOf(c, isReapply);
    assert Settled(d0) ==> d0.active == s.roots.active;
    :- MarkPromoted(s, t);
    if isReapply {
      o, applied := PromoteReapply(s, t, attempt, back);
    } else {
      o, applied := PromoteInitial(s, t, hook, attempt, back);
    }
    if IsReadyFor(d0, c) && IsCommittedBy(s.roots.active, t) {
      CommittedIsActive(d0, s.roots, t, Target(d0.active, c));
      TargetMeans(d0.active, c);
    }
  }
}
