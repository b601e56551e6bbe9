/** The durable state of a provisioned device and what recovery makes of it.

    A configuration root is a directory; `active`, `candidate` and `rollback` are siblings, next
    to two marker files.  The functions here say what each recovery routine leaves behind when
    it runs to its end; module `Activation` and module `ApplyTransaction` hold the step-by-step
    routines and tie them to these functions. */
module ConfigRoots {
  import opened Outcomes

  type Name = string
  type JobId = string
  type Digest = string
  type Config = int   // the contents of config.toml
  type File = string  // any further rendered or managed file, by its path in the root

  datatype Phase = Promoted | Committed

  datatype ApplyResult = ApplyResult(reapply: bool, forwardingUrl: Option<string>)

  datatype Receipt = Receipt(job: JobId, digest: Digest, result: ApplyResult, phase: Phase)

  /** One staged apply: it may write its promoted receipt, and then its committed one. */
  datatype Transaction = Transaction(job: JobId, digest: Digest, result: ApplyResult) {
    function ReceiptIn(phase: Phase): Receipt {
      Receipt(job, digest, result, phase)
    }
  }

  /** One configuration root.  An absent managed-user record reads as the empty set. */
  datatype Root = Root(
    config: Option<Config>,
    first: bool,
    receipt: Option<Receipt>,
    managed: set<Name>,
    extra: set<File>)

  const EMPTY_ROOT := Root(None, false, None, {}, {})

  datatype Roots = Roots(
    active: Option<Root>,
    candidate: Option<Root>,
    rollback: Option<Root>,
    marker: bool,       // promotion pending
    reactivate: bool)   // rollback activation pending

  predicate HasConfig(r: Option<Root>) {
    r.Some? && r.value.config.Some?
  }

  predicate IsPromoted(r: Option<Root>) {
    r.Some? && r.value.receipt.Some? && r.value.receipt.value.phase.Promoted?
  }

  predicate IsCommitted(r: Option<Root>) {
    r.Some? && r.value.receipt.Some? && r.value.receipt.value.phase.Committed?
  }

  predicate IsProvisioned(r: Option<Root>) {
    r.Some? && (r.value.first || r.value.config.Some?)
  }

  function Managed(r: Option<Root>): set<Name> {
    if r.Some? then r.value.managed else {}
  }

  function ReceiptOf(r: Option<Root>): Option<Receipt> {
    if r.Some? then r.value.receipt else None
  }

  /** The configuration a device runs: everything in a provisioned root but its record of
      managed accounts, which activation rewrites on its own. */
  function Visible(r: Option<Root>): Option<Root> {
    if IsProvisioned(r) then Some(r.value.(managed := {})) else None
  }

  predicate IsPromotedBy(r: Option<Root>, t: Transaction) {
    ReceiptOf(r) == Some(t.ReceiptIn(Promoted))
  }

  predicate IsCommittedBy(r: Option<Root>, t: Transaction) {
    ReceiptOf(r) == Some(t.ReceiptIn(Committed))
  }

  /** What a removal or a copy of `whole` that was cut short may leave. */
  ghost predicate IsPart(part: Root, whole: Root) {
    && (part.config == whole.config || part.config == None)
    && (part.first ==> whole.first)
    && (part.receipt == whole.receipt || part.receipt == None)
    && (part.managed == whole.managed || part.managed == {})
    && part.extra <= whole.extra
  }

  ghost predicate IsTorn(before: Option<Root>, after: Option<Root>) {
    before == after || (before.Some? && after.Some? && IsPart(after.value, before.value))
  }

  /* ---------- what the recovery routines leave when they run to their end ---------- */

  function Restored(d: Roots): Roots {
    if d.rollback.None? then
      d.(marker := false)
    else
      var root := d.rollback.value;
      d.(active := Some(root.(managed := root.managed + Managed(d.active))), rollback := None, marker := false)
  }

  function Discarded(d: Roots): Roots {
    var managed := Managed(d.active) + Managed(d.candidate);
    Roots(if managed == {} then None else Some(EMPTY_ROOT.(managed := managed)), None, None, false, d.reactivate)
  }

  /** A directory rename replaces its target only if that is absent or empty. */
  predicate IsFree(r: Option<Root>) {
    r.None? || r.value == EMPTY_ROOT
  }

  function RootRecovered(d: Roots): Roots {
    if d.marker && d.rollback.Some? then
      Restored(d).(candidate := None)
    else if d.marker then
      if HasConfig(d.active) then d.(candidate := None, marker := false) else Discarded(d)
    else if HasConfig(d.active) || d.candidate.Some? then
      d.(candidate := None)
    else if d.rollback.Some? && IsFree(d.active) then
      d.(active := d.rollback, rollback := None)
    else
      d
  }

  /** Recovery by receipt, up to but not including the reactivation of a restored rollback. */
  function Recovered(d: Roots): Roots {
    if d.reactivate then
      RootRecovered(d)
    else if IsCommitted(d.active) then
      d.(candidate := None, rollback := None, marker := false)
    else if IsPromoted(d.active) && d.rollback.None? then
      Discarded(d)
    else
      RootRecovered(d.(reactivate := d.marker && d.rollback.Some?))
  }

  /** The configuration that recovery, started from `d`, would settle on. */
  function Verdict(d: Roots): Option<Root> {
    Visible(Recovered(d).active)
  }

  /** The managed accounts on record once recovery, started from `d`, has run. */
  function Survivors(d: Roots): set<Name> {
    Managed(Recovered(d).active)
  }

  /** Every name on record in the active root or in an interrupted candidate. */
  function Recorded(d: Roots): set<Name> {
    Managed(d.active) + Managed(d.candidate)
  }

  /** Recovery started from `d` throws an uncommitted initial configuration away. */
  predicate Discards(d: Roots) {
    && !d.reactivate && d.rollback.None?
    && (IsPromoted(d.active) || (d.marker && !HasConfig(d.active) && !IsCommitted(d.active)))
  }

  /* ---------- the entries of a root ---------- */

  datatype Entry = FirstFile | ConfigFile | ReceiptFile | ManagedFile | ExtraFile(file: File)

  predicate IsProvisioningMarker(e: Entry) {
    e.FirstFile? || e.ConfigFile?
  }

  predicate Lists(r: Root, e: Entry) {
    match e
    case FirstFile => r.first
    case ConfigFile => r.config.Some?
    case ReceiptFile => r.receipt.Some?
    case ManagedFile => r.managed != {}
    case ExtraFile(f) => f in r.extra
  }

  function Without(r: Root, e: Entry): Root {
    match e
    case FirstFile => r.(first := false)
    case ConfigFile => r.(config := None)
    case ReceiptFile => r.(receipt := None)
    case ManagedFile => r.(managed := {})
    case ExtraFile(f) => r.(extra := r.extra - {f})
  }

  /** What pruning a root around its record of managed accounts passes through: nothing else
      goes before both provisioning markers are gone. */
  ghost predicate IsPruned(part: Root, whole: Root) {
    && IsPart(part, whole)
    && part.managed == whole.managed
    && (part.receipt != whole.receipt || part.extra != whole.extra ==> !part.first && part.config.None?)
  }

  /** More durable operations than any recovery routine needs. */
  function Work(d: Roots): nat {
    12 + if d.active.Some? then |d.active.value.extra| else 0
  }

  /* ---------- the shapes that staged applies and recovery move through ---------- */

  ghost predicate WellFormed(d: Roots) {
    && (d.rollback.Some? ==> d.marker)
    && (d.rollback.Some? && !IsCommitted(d.active) ==> HasConfig(d.rollback) && !IsPromoted(d.rollback))
    && (d.reactivate && d.rollback.Some? ==> !IsCommitted(d.active))
    && (d.reactivate && d.rollback.None? ==> HasConfig(d.active) && !IsPromoted(d.active))
    && (IsPromoted(d.active) ==> d.candidate.None?)
    && (IsCommitted(d.active) ==> HasConfig(d.active))
    && (d.rollback.None? && !IsPromoted(d.active) && IsProvisioned(d.active) ==> HasConfig(d.active))
  }

  /** No apply is under way and nothing is left to recover. */
  ghost predicate Settled(d: Roots) {
    && WellFormed(d)
    && d.candidate.None? && d.rollback.None? && !d.marker && !d.reactivate
    && !IsPromoted(d.active)
  }

  /** Enough for `RootRecovered` to keep what full recovery would decide wherever it is cut off;
      `RootRecoveredDecides` says exactly where its own end agrees. */
  ghost predicate Resolvable(d: Roots) {
    d.reactivate || (d.rollback.None? && !IsPromoted(d.active))
  }

  /** `d` may be left behind by an operation that began in `d0` without changing what recovery
      will decide. */
  ghost predicate SameVerdict(d0: Roots, d: Roots) {
    WellFormed(d0) ==> WellFormed(d) && Verdict(d) == Verdict(d0)
  }

  /** An attempt at recovery that began in `d0` and was cut off in `d`: the decision stands, and a
      device that ends unprovisioned still ends with every account on record. */
  ghost predicate IsAttempt(d0: Roots, d: Roots) {
    && SameVerdict(d0, d)
    && (WellFormed(d0) && Verdict(d0).None? ==> Survivors(d0) <= Survivors(d))
  }

  /** Recovery settles the device on its verdict, and a settled device is left alone. */
  lemma RecoverySettles(d: Roots)
    requires WellFormed(d)
    ensures Settled(Recovered(d).(reactivate := false))
    ensures Visible(Recovered(d).active) == Verdict(d)
    ensures Recovered(Recovered(d).(reactivate := false)) == Recovered(d).(reactivate := false)
  {
  }

  /** `RootRecovered` alone decides as full recovery does in exactly these states. */
  lemma RootRecoveredDecides(d: Roots)
    requires WellFormed(d)
    ensures Visible(RootRecovered(d).active) == Verdict(d) <==>
            || d.reactivate
            || (IsCommitted(d.active) && (d.rollback.None? || Visible(d.rollback) == Visible(d.active)))
            || (IsPromoted(d.active)
                && (d.rollback.Some? || (!HasConfig(d.active) && (d.marker || !IsProvisioned(d.active)))))
            || (!IsCommitted(d.active) && !IsPromoted(d.active))
  {
  }

  /** An initial promotion that was swapped in but not committed: `RootRecovered` keeps it, and only
      the receipt tells recovery to discard it. */
  lemma UncommittedInitialIsKept()
    ensures exists d :: WellFormed(d) && IsPromoted(d.active) && d.marker && d.rollback.None?
                        && Verdict(d) == None && Visible(RootRecovered(d).active) == Visible(d.active) != None
  {
    var result := ApplyResult(false, None);
    var root := Root(Some(0), true, Some(Receipt("job", "digest", result, Promoted)), {}, {});
    var d := Roots(Some(root), None, None, true, false);
    assert WellFormed(d) && Verdict(d) == None && Visible(RootRecovered(d).active) == Visible(d.active) != None;
  }

  /** Two roots are the same configuration if both are unprovisioned, having neither config.toml nor
      the first-config marker, or if they differ in their records of managed accounts at most. */
  lemma VisibleMeans(a: Option<Root>, b: Option<Root>)
    ensures Visible(a).None? <==> a.None? || (a.value.config.None? && !a.value.first)
    ensures Visible(a).Some? && Visible(b).Some? ==>
              (Visible(a) == Visible(b) <==>
                && a.value.config == b.value.config && a.value.first == b.value.first
                && a.value.receipt == b.value.receipt && a.value.extra == b.value.extra)
  {
  }

  /** What recovery makes of a well-formed state, case by case: a commit stands; a promotion without
      one is undone, back to the rollback root with the names of both, or, where there is none, to an
      unprovisioned device with every name that was on record; anything else stays as it is. */
  lemma RecoveryMeans(d: Roots)
    requires WellFormed(d)
    ensures var active := Recovered(d).active;
      if d.marker && d.rollback.Some? && !IsCommitted(d.active) then
        && active.Some? && active.value == d.rollback.value.(managed := active.value.managed)
        && forall n :: n in active.value.managed <==>
             n in d.rollback.value.managed || (d.active.Some? && n in d.active.value.managed)
      else if IsPromoted(d.active) || (d.marker && !HasConfig(d.active) && !d.reactivate) then
        && (active.Some? ==> active.value.config.None? && !active.value.first && active.value.extra == {})
        && forall n :: active.Some? && n in active.value.managed <==>
             || (d.active.Some? && n in d.active.value.managed)
             || (d.candidate.Some? && n in d.candidate.value.managed)
      else
        active == d.active
    ensures Recovered(d).candidate.None? && Recovered(d).rollback.None? && !Recovered(d).marker
  {
  }
}
