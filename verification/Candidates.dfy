/** Rendered candidates, and the configuration that applying one is meant to end with. */
module Candidates {
  import opened Outcomes
  import opened ConfigRoots

  /** A candidate as the worker rendered it, with the fields of its manifest that matter here. */
  datatype Rendered = Rendered(
    job: JobId,
    digest: Digest,
    allowReapply: bool,
    forwardingUrl: Option<string>,
    config: Config,
    managed: set<Name>,
    extra: set<File>,
    bundle: Option<set<File>>,    // of these, only what lies under files/ is a bundle's
    preserveFiles: bool)

  predicate IsSha256(digest: Digest) {
    |digest| == 64 && forall c :: c in digest ==> c in "0123456789abcdef"
  }

  predicate IsManagedFile(f: File) {
    "files/" <= f
  }

  /** Managed files replace all that were there before. */
  function WithFiles(extra: set<File>, files: set<File>): set<File> {
    (set f | f in extra && !IsManagedFile(f)) + (set f | f in files && IsManagedFile(f))
  }

  function ManagedFiles(r: Option<Root>): set<File> {
    if r.Some? then set f | f in r.value.extra && IsManagedFile(f) else {}
  }

  function TransactionOf(c: Rendered, isReapply: bool): Transaction {
    Transaction(c.job, c.digest, ApplyResult(isReapply, c.forwardingUrl))
  }

  /** The configuration that applying `c` over `previous` is meant to end with. */
  function Target(previous: Option<Root>, c: Rendered): Root {
    var isReapply := IsProvisioned(previous);
    var bundled := if c.bundle.Some? then WithFiles(c.extra, c.bundle.value) else c.extra;
    Root(Some(c.config), true, Some(TransactionOf(c, isReapply).ReceiptIn(Committed)), {},
         if isReapply && c.preserveFiles then WithFiles(bundled, ManagedFiles(previous)) else bundled)
  }

  /** The target holds the candidate's configuration and a committed receipt of its job.  Under
      files/ it holds what the previous root does if a reapply is to preserve that, else the bundle's
      files if there is a bundle, and else the candidate's own; elsewhere, the candidate's files. */
  lemma TargetMeans(previous: Option<Root>, c: Rendered)
    ensures var root := Target(previous, c);
            var isReapply := previous.Some? && (previous.value.first || previous.value.config.Some?);
      && root.config == Some(c.config) && root.first
      && root.receipt == Some(Receipt(c.job, c.digest, ApplyResult(isReapply, c.forwardingUrl), Committed))
      && (forall f :: "files/" <= f ==>
            (f in root.extra <==> if isReapply && c.preserveFiles then f in previous.value.extra
                                  else if c.bundle.Some? then f in c.bundle.value
                                  else f in c.extra))
      && (forall f :: !("files/" <= f) ==> (f in root.extra <==> f in c.extra))
  {
  }

  /** A digest is accepted exactly if it is 64 lower-case hexadecimal digits. */
  lemma DigestMeans(digest: Digest)
    ensures IsSha256(digest) <==>
            && |digest| == 64
            && forall i :: 0 <= i < 64 ==> '0' <= digest[i] <= '9' || 'a' <= digest[i] <= 'f'
  {
    HexDigits();
    forall i | 0 <= i < |digest|
      ensures digest[i] in "0123456789abcdef" <==> '0' <= digest[i] <= '9' || 'a' <= digest[i] <= 'f'
    {
    }
    assert forall i :: 0 <= i < |digest| ==> digest[i] in digest;
  }

  lemma HexDigits()
    ensures forall c: char :: c in "0123456789abcdef" <==> '0' <= c <= '9' || 'a' <= c <= 'f'
  {
    var hex := "0123456789abcdef";
    forall c: char | '0' <= c <= '9' ensures c in hex {
      assert hex[c as int - '0' as int] == c;
    }
    forall c: char | 'a' <= c <= 'f' ensures c in hex {
      assert hex[c as int - 'a' as int + 10] == c;
    }
  }

  /** Only the configuration that a device runs matters for the target. */
  lemma TargetOfVisible(previous: Option<Root>, c: Rendered)
    ensures IsProvisioned(Visible(previous)) == IsProvisioned(previous)
    ensures Target(Visible(previous), c) == Target(previous, c)
  {
  }
}
