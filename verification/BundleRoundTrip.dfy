/** Importing an exported bundle rebuilds its tree, and an imported bundle is exported again within
    the member limit. */
module BundleRoundTrip {
  import opened Outcomes
  import opened Bundle
  import opened Runs

  /* ---------- extraction builds trees ---------- */

  lemma ExtractedGrows(t: Tree, m: Member)
    requires IsTree(t) && Extracted(t, m).Some?
    ensures IsTree(Extracted(t, m).value) && t.Keys <= Extracted(t, m).value.Keys
    ensures forall p :: IsLeaf(Extracted(t, m).value, p) ==> IsLeaf(t, p) || m.name == Relative(p)
  {
    var p, t' := m.name.parts, Extracted(t, m).value;
    if p != [] {
      forall q, i | q in t' && 0 < i < |q| ensures q[..i] in t' && t'[q[..i]].Dir? {
        PrefixStays(t, m, q, i);
      }
      forall q | IsLeaf(t', q) && q != p ensures IsLeaf(t, q) {
        assert p in t' && !IsBelow(p, q);
      }
    }
  }

  lemma PrefixStays(t: Tree, m: Member, q: Path, i: nat)
    requires IsTree(t) && Extracted(t, m).Some? && m.name.parts != []
    requires q in Extracted(t, m).value && 0 < i < |q|
    ensures q[..i] in Extracted(t, m).value && Extracted(t, m).value[q[..i]].Dir?
  {
    var p := m.name.parts;
    if q in t {
      assert q[..i] in t && t[q[..i]].Dir?;
    } else {
      assert p == p[..|p|];
      assert exists j :: 0 < j <= |p| && q == p[..j];
      assert q[..i] == p[..i];
    }
  }

  /* ---------- an import is exported within the member limit ---------- */

  function PathsOf(members: seq<Member>): set<Path> {
    set m | m in members && m.name.Relative? :: m.name.parts
  }

  lemma {:induction false} FewerPathsThanMembers(members: seq<Member>)
    ensures |PathsOf(members)| <= |members|
  {
    if members != [] {
      var m, others := members[0], members[1..];
      FewerPathsThanMembers(others);
      assert members == [m] + others;
      if m.name.Relative? {
        assert PathsOf(members) == PathsOf(others) + {m.name.parts};
      } else {
        assert PathsOf(members) == PathsOf(others);
      }
    }
  }

  /** Every leaf has been in the archive itself: a directory made for a member below is no leaf. */
  lemma {:induction false} LeavesWereMembers(t: Tree, done: seq<Member>, members: seq<Member>)
    requires IsTree(t) && AllExtracted(t, members).Some?
    requires forall p :: IsLeaf(t, p) ==> p in PathsOf(done)
    ensures IsTree(AllExtracted(t, members).value)
    ensures forall p :: IsLeaf(AllExtracted(t, members).value, p) ==> p in PathsOf(done + members)
    decreases |members|
  {
    if members == [] {
      assert done + members == done;
    } else {
      var m := members[0];
      ExtractedGrows(t, m);
      assert forall p :: m.name == Relative(p) ==> p in PathsOf(done + [m]);
      assert forall p :: p in PathsOf(done) ==> p in PathsOf(done + [m]);
      LeavesWereMembers(Extracted(t, m).value, done + [m], members[1..]);
      assert done + [m] + members[1..] == done + members;
    }
  }

  lemma PathsOfCons(p: Path, n: Node, others: seq<Member>)
    ensures PathsOf([MemberOf(p, n)] + others) == {p} + PathsOf(others)
  {
    var m := MemberOf(p, n);
    assert m in [m] + others;
  }

  lemma {:induction false} LeafMemberPath(t: Tree, paths: seq<Path>, q: Path)
    requires forall p :: p in paths ==> p in t
    ensures q in PathsOf(LeafMembers(t, paths)) <==> FILES <= q && q[1..] in paths && IsLeaf(t, q[1..])
  {
    if paths != [] {
      var p, others := paths[0], LeafMembers(t, paths[1..]);
      LeafMemberPath(t, paths[1..], q);
      PathsOfCons(FILES + p, t[p], others);
      assert (FILES + p)[1..] == p;
      assert FILES <= q ==> q == FILES + q[1..];
      assert paths == [p] + paths[1..];
      assert [] + others == others;
    }
  }

  lemma {:induction false} LeafMembersDiffer(t: Tree, paths: seq<Path>)
    requires forall p :: p in paths ==> p in t
    requires forall i, j :: 0 <= i < j < |paths| ==> paths[i] != paths[j]
    ensures |PathsOf(LeafMembers(t, paths))| == |LeafMembers(t, paths)|
  {
    if paths != [] {
      var p, others := paths[0], LeafMembers(t, paths[1..]);
      LeafMembersDiffer(t, paths[1..]);
      LeafMemberPath(t, paths[1..], FILES + p);
      assert (FILES + p)[1..] == p;
      PathsOfCons(FILES + p, t[p], others);
      assert [] + others == others;
    }
  }

  lemma BundleTreeAt(config: string, files: Option<Tree>, q: Path)
    requires files.Some? ==> IsTree(files.value)
    ensures q in BundleTree(config, files) <==>
            q == CONFIG || (files.Some? && (q == FILES || (q != [] && q[0] == FILES[0] && q[1..] in files.value)))
    ensures q in BundleTree(config, files) ==>
            BundleTree(config, files)[q] == if q == CONFIG then File(config)
                                            else if q == FILES then Dir
                                            else files.value[q[1..]]
  {
    if files.Some? {
      var below := set p | p in files.value :: FILES + p;
      assert forall p :: (FILES + p)[1..] == p;
      if q != [] && q[0] == FILES[0] && q[1..] in files.value {
        assert q == FILES + q[1..] && q in below;
      }
      assert q in below ==> q[1..] in files.value && q != FILES && q[0] == FILES[0];
      assert FILES[0] != CONFIG[0];
    }
  }

  lemma BundleLeaf(config: string, files: Option<Tree>, p: Path)
    requires files.Some? && IsTree(files.value) && p in files.value
    ensures IsLeaf(BundleTree(config, files), FILES + p) <==> IsLeaf(files.value, p)
  {
    var b := BundleTree(config, files);
    BundleTreeAt(config, files, FILES + p);
    assert (FILES + p)[1..] == p;
    if q :| q in files.value && IsBelow(q, p) {
      BundleTreeAt(config, files, FILES + q);
      assert (FILES + q)[1..] == q;
      assert FILES + q in b && IsBelow(FILES + q, FILES + p);
    }
    if q :| q in b && IsBelow(q, FILES + p) {
      BundleTreeAt(config, files, q);
      assert IsBelow(q[1..], p);
    }
  }

  /** The exported members have distinct paths: the leaves of the bundle, all of them. */
  lemma ExportedPaths(config: string, files: Option<Tree>, paths: seq<Path>)
    requires files.Some? ==> IsTree(files.value) && Lists(paths, files.value)
    ensures forall q :: q in PathsOf(Exported(config, files, paths)) <==> IsLeaf(BundleTree(config, files), q)
    ensures |PathsOf(Exported(config, files, paths))| == |Exported(config, files, paths)|
  {
    var b := BundleTree(config, files);
    var rest := if files.Some? then FileMembers(files.value, paths) else [];
    PathsOfCons(CONFIG, File(config), rest);
    forall q ensures q in PathsOf(rest) <==> q != CONFIG && IsLeaf(b, q) {
      FilePaths(config, files, paths, q);
    }
    ConfigIsLeaf(config, files);
    if files.Some? {
      FileMembersDiffer(files.value, paths);
    }
  }

  lemma ConfigIsLeaf(config: string, files: Option<Tree>)
    requires files.Some? ==> IsTree(files.value)
    ensures IsLeaf(BundleTree(config, files), CONFIG)
  {
    BundleTreeAt(config, files, CONFIG);
    forall q | q in BundleTree(config, files) ensures !IsBelow(q, CONFIG) {
      BundleTreeAt(config, files, q);
    }
  }

  lemma NothingListed(t: Tree, paths: seq<Path>)
    requires Lists(paths, t)
    ensures t == map[] ==> paths == []
  {
    if paths != [] {
      assert paths[0] in paths;
    }
  }

  lemma FileMembersDiffer(t: Tree, paths: seq<Path>)
    requires IsTree(t) && Lists(paths, t)
    ensures |PathsOf(FileMembers(t, paths))| == |FileMembers(t, paths)|
  {
    LeafMembersDiffer(t, paths);
    if t == map[] {
      NothingListed(t, paths);
      PathsOfCons(FILES, Dir, []);
      assert [Member(Relative(FILES), Directory)] + [] == [MemberOf(FILES, Dir)] + [];
    } else {
      assert [] + LeafMembers(t, paths) == LeafMembers(t, paths);
    }
  }

  lemma FilePaths(config: string, files: Option<Tree>, paths: seq<Path>, q: Path)
    requires files.Some? ==> IsTree(files.value) && Lists(paths, files.value)
    ensures q in PathsOf(if files.Some? then FileMembers(files.value, paths) else []) <==>
            q != CONFIG && IsLeaf(BundleTree(config, files), q)
  {
    var b := BundleTree(config, files);
    BundleTreeAt(config, files, q);
    if files.Some? {
      var t := files.value;
      LeafMemberPath(t, paths, q);
      PathsOfCons(FILES, Dir, LeafMembers(t, paths));
      assert [] + LeafMembers(t, paths) == LeafMembers(t, paths);
      if q == FILES {
        FilesIsLeaf(config, t);
        assert q[1..] !in t;
      } else if FILES <= q && q[1..] in t {
        assert q == FILES + q[1..];
        BundleLeaf(config, files, q[1..]);
      }
    }
  }

  lemma FilesIsLeaf(config: string, t: Tree)
    requires IsTree(t)
    ensures IsLeaf(BundleTree(config, Some(t)), FILES) <==> t == map[]
  {
    var b := BundleTree(config, Some(t));
    BundleTreeAt(config, Some(t), FILES);
    if p :| p in t {
      BundleTreeAt(config, Some(t), FILES + p);
      assert (FILES + p)[1..] == p;
      assert IsBelow(FILES + p, FILES);
    }
    if q :| q in b && IsBelow(q, FILES) {
      BundleTreeAt(config, Some(t), q);
      assert q[1..] in t;
    }
  }

  /** The layout that the importer demands of an extracted tree. */
  ghost predicate HasLayout(t: Tree) {
    && CONFIG in t && t[CONFIG].File?
    && (forall p :: p in t ==> p != [] && p[..1] in {CONFIG, FILES})
    && (FILES in t ==> t[FILES].Dir?)
  }

  function FilesOf(t: Tree): Option<Tree> {
    if FILES !in t then None
    else Some(map p | p in (set q | q in t && FILES < q :: q[1..]) && FILES + p in t :: t[FILES + p])
  }

  lemma OnlyConfig(t: Tree, q: Path)
    requires IsTree(t) && HasLayout(t) && q in t
    ensures q == CONFIG || FILES <= q
    ensures FILES <= q ==> q == FILES + q[1..] && FILES in t
  {
    if |q| > 1 {
      assert q[..1] in t && t[q[..1]].Dir?;
    } else {
      assert q == q[..1];
    }
  }

  lemma FilesOfAt(t: Tree, q: Path)
    requires FILES in t && q != []
    ensures q in FilesOf(t).value <==> FILES + q in t
    ensures q in FilesOf(t).value ==> FilesOf(t).value[q] == t[FILES + q]
  {
    assert FILES < FILES + q && (FILES + q)[1..] == q;
  }

  lemma LayoutAt(t: Tree, q: Path)
    requires IsTree(t) && HasLayout(t) && (FilesOf(t).Some? ==> IsTree(FilesOf(t).value))
    ensures var b := BundleTree(t[CONFIG].content, FilesOf(t)); (q in t <==> q in b) && (q in t ==> b[q] == t[q])
  {
    BundleTreeAt(t[CONFIG].content, FilesOf(t), q);
    if q in t {
      OnlyConfig(t, q);
    }
    if |q| > 1 && FILES in t {
      FilesOfAt(t, q[1..]);
      assert q[0] == FILES[0] ==> q == FILES + q[1..];
    }
  }

  /** A tree of this layout is a configuration with its managed files. */
  lemma LayoutIsBundle(t: Tree)
    requires IsTree(t) && HasLayout(t)
    ensures FilesOf(t).Some? ==> IsTree(FilesOf(t).value)
    ensures t == BundleTree(t[CONFIG].content, FilesOf(t))
  {
    var b := BundleTree(t[CONFIG].content, FilesOf(t));
    if FILES in t {
      FilesAreTree(t);
    }
    forall q ensures (q in t <==> q in b) && (q in t ==> b[q] == t[q]) {
      LayoutAt(t, q);
    }
  }

  lemma FilesAreTree(t: Tree)
    requires IsTree(t) && FILES in t
    ensures IsTree(FilesOf(t).value)
  {
    var files := FilesOf(t).value;
    forall p, i | p in files && 0 < i < |p| ensures p[..i] in files && files[p[..i]].Dir? {
      assert FILES + p[..i] == (FILES + p)[..i + 1];
      FilesOfAt(t, p[..i]);
    }
  }

  /** What the importer accepted is exported with no more members than it came with. */
  lemma ReexportFits(a: Archive, t: Tree, paths: seq<Path>)
    requires Imported(a) == Some(t) && HasLayout(t)
    requires FilesOf(t).Some? ==> Lists(paths, FilesOf(t).value)
    ensures |Exported(t[CONFIG].content, FilesOf(t), paths)| <= |a.members| <= MAX_BUNDLE_MEMBERS
  {
    assert [] + a.members == a.members;
    LeavesWereMembers(map[], [], a.members);
    LayoutIsBundle(t);
    var exported := Exported(t[CONFIG].content, FilesOf(t), paths);
    ExportedPaths(t[CONFIG].content, FilesOf(t), paths);
    Subset(PathsOf(exported), PathsOf(a.members));
    FewerPathsThanMembers(a.members);
  }

  /* ---------- an export is imported as it was ---------- */

  ghost predicate IsWithin(t: Tree, b: Tree) {
    forall p :: p in t ==> p in b && b[p] == t[p]
  }

  ghost predicate IsMemberOf(m: Member, b: Tree) {
    m.name.Relative? && m.name.parts in b && m == MemberOf(m.name.parts, b[m.name.parts])
  }

  ghost predicate HasPrefixes(t: Tree, p: Path) {
    forall i :: 0 < i <= |p| ==> p[..i] in t
  }

  lemma ExtractedWithin(t: Tree, b: Tree, m: Member)
    requires IsTree(b) && IsWithin(t, b) && IsMemberOf(m, b)
    requires m.kind.Regular? ==> |m.kind.content| <= MAX_BUNDLE_MEMBER_BYTES
    ensures Extracted(t, m).Some?
    ensures var t' := Extracted(t, m).value; IsWithin(t', b) && t.Keys <= t'.Keys && HasPrefixes(t', m.name.parts)
  {
    var p := m.name.parts;
    assert p == p[..|p|];
  }

  lemma {:induction false} AllExtractedWithin(t: Tree, b: Tree, members: seq<Member>)
    requires IsTree(b) && IsWithin(t, b)
    requires forall m :: m in members ==>
              IsMemberOf(m, b) && (m.kind.Regular? ==> |m.kind.content| <= MAX_BUNDLE_MEMBER_BYTES)
    ensures AllExtracted(t, members).Some?
    ensures var t' := AllExtracted(t, members).value;
            && IsWithin(t', b) && t.Keys <= t'.Keys
            && forall m :: m in members && m.name.Relative? ==> HasPrefixes(t', m.name.parts)
    decreases |members|
  {
    if members != [] {
      var m := members[0];
      assert members == [m] + members[1..] && m in members;
      ExtractedWithin(t, b, m);
      AllExtractedWithin(Extracted(t, m).value, b, members[1..]);
    }
  }

  /** Below every entry there is a leaf. */
  lemma {:induction false} LeafBelow(b: Tree, p: Path) returns (leaf: Path)
    requires p in b
    ensures IsLeaf(b, leaf) && p <= leaf
    decreases |set q | q in b && IsBelow(q, p)|
  {
    leaf := p;
    if q :| q in b && IsBelow(q, p) {
      var below, above := set r | r in b && IsBelow(r, q), set r | r in b && IsBelow(r, p);
      assert q in above && q !in below && below <= above - {q};
      Subset(below, above - {q});
      leaf := LeafBelow(b, q);
    }
  }

  lemma BundleIsTree(config: string, files: Option<Tree>)
    requires files.Some? ==> IsTree(files.value)
    ensures IsTree(BundleTree(config, files))
  {
    var b := BundleTree(config, files);
    BundleTreeAt(config, files, []);
    forall p, i | p in b && 0 < i < |p| ensures p[..i] in b && b[p[..i]].Dir? {
      BundleTreeAt(config, files, p);
      BundleTreeAt(config, files, p[..i]);
      if i == 1 {
        assert p[..i] == FILES;
      } else {
        assert p[..i][1..] == p[1..][..i - 1];
      }
    }
  }

  lemma ExportedAreMembers(config: string, files: Option<Tree>, paths: seq<Path>, m: Member)
    requires files.Some? ==> IsTree(files.value) && Lists(paths, files.value)
    requires m in Exported(config, files, paths)
    ensures IsMemberOf(m, BundleTree(config, files))
  {
    BundleTreeAt(config, files, CONFIG);
    BundleTreeAt(config, files, FILES);
    if m != Member(Relative(CONFIG), Regular(config)) && m != Member(Relative(FILES), Directory) {
      assert files.Some? && m in LeafMembers(files.value, paths);
      LeafMemberOf(files.value, paths, m);
      BundleTreeAt(config, files, m.name.parts);
    }
  }

  lemma {:induction false} LeafMemberOf(t: Tree, paths: seq<Path>, m: Member)
    requires (forall p :: p in paths ==> p in t) && m in LeafMembers(t, paths)
    ensures m.name.Relative? && FILES <= m.name.parts && m.name.parts[1..] in t
    ensures m == MemberOf(m.name.parts, t[m.name.parts[1..]])
  {
    var p := paths[0];
    if IsLeaf(t, p) && m == MemberOf(FILES + p, t[p]) {
      assert (FILES + p)[1..] == p;
    } else {
      LeafMemberOf(t, paths[1..], m);
    }
  }

  lemma Arrives(t: Tree, members: seq<Member>, p: Path, leaf: Path)
    requires forall m :: m in members && m.name.Relative? ==> HasPrefixes(t, m.name.parts)
    requires leaf in PathsOf(members) && p <= leaf && p != []
    ensures p in t
  {
    var m :| m in members && m.name == Relative(leaf);
    assert HasPrefixes(t, leaf) && p == leaf[..|p|];
  }

  /** The round trip: what was exported is imported as the same tree, although directories that
      are not empty are not listed. */
  lemma RoundTrip(config: string, files: Option<Tree>, paths: seq<Path>, headers: nat)
    requires files.Some? ==> IsTree(files.value) && Lists(paths, files.value)
    requires var members := Exported(config, files, paths);
             FitsLimits(members) && Bytes(members) + headers <= MAX_DECOMPRESSED_BYTES
    ensures Imported(Archive(Exported(config, files, paths), Bytes(Exported(config, files, paths)) + headers))
            == Some(BundleTree(config, files))
  {
    var members, b := Exported(config, files, paths), BundleTree(config, files);
    BundleIsTree(config, files);
    forall m | m in members ensures IsMemberOf(m, b) {
      ExportedAreMembers(config, files, paths, m);
    }
    AllExtractedWithin(map[], b, members);
    ExportedPaths(config, files, paths);
    AllArrive(AllExtracted(map[], members).value, b, members);
  }

  lemma AllArrive(t: Tree, b: Tree, members: seq<Member>)
    requires IsTree(b) && IsWithin(t, b)
    requires forall m :: m in members && m.name.Relative? ==> HasPrefixes(t, m.name.parts)
    requires forall p :: IsLeaf(b, p) ==> p in PathsOf(members)
    ensures t == b
  {
    forall p | p in b ensures p in t {
      var leaf := LeafBelow(b, p);
      Arrives(t, members, p, leaf);
    }
  }
}
