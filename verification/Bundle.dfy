/** Configuration bundles: archive members, the tree they are extracted to, and the members a
    tree is exported as. */
module Bundle {
  import opened Outcomes

  const MAX_BUNDLE_MEMBERS := 4096
  const MAX_BUNDLE_MEMBER_BYTES := 0x400_0000
  const MAX_DECOMPRESSED_BYTES := 0x1000_0000
  const MAX_SOURCE_BYTES := 0x200_0000

  type Path = seq<string>

  datatype Node = Dir | File(content: string)

  type Tree = map<Path, Node>

  /** Every entry lies in a directory, in the end in the root, which is no entry itself. */
  ghost predicate IsTree(t: Tree) {
    && [] !in t
    && forall p, i :: p in t && 0 < i < |p| ==> p[..i] in t && t[p[..i]].Dir?
  }

  predicate IsBelow(q: Path, p: Path) {
    p < q
  }

  ghost predicate IsLeaf(t: Tree, p: Path) {
    p in t && forall q :: q in t ==> !IsBelow(q, p)
  }

  /* ---------- archives ---------- */

  datatype Kind = Directory | Regular(content: string) | Special

  /** A member's path; `Invalid` if it is absolute, empty, or climbs up. */
  datatype Name = Invalid | Relative(parts: Path)

  datatype Member = Member(name: Name, kind: Kind)

  /** An archive of members, and how long its uncompressed form is. */
  datatype Archive = Archive(members: seq<Member>, size: nat)

  function Bytes(members: seq<Member>): nat {
    if members == [] then 0
    else (if members[0].kind.Regular? then |members[0].kind.content| else 0) + Bytes(members[1..])
  }

  /* ---------- extraction ---------- */

  ghost predicate IsUnderFile(t: Tree, p: Path) {
    exists i :: 0 < i < |p| && p[..i] in t && t[p[..i]].File?
  }

  function WithParents(t: Tree, p: Path): Tree {
    t + map i | 0 < i < |p| && p[..i] !in t :: p[..i] := Dir
  }

  /** Creates the entry of one member with all directories above it. */
  ghost function Extracted(t: Tree, m: Member): Option<Tree> {
    if m.name.Invalid? || m.kind.Special? then None
    else if m.name.parts == [] then (if m.kind.Directory? then Some(t) else None)
    else
      var p := m.name.parts;
      if IsUnderFile(t, p) then None
      else if m.kind.Directory? then (if p in t && t[p].File? then None else Some(WithParents(t, p)[p := Dir]))
      else if |m.kind.content| > MAX_BUNDLE_MEMBER_BYTES || (p in t && t[p].Dir?) then None
      else Some(WithParents(t, p)[p := File(m.kind.content)])
  }

  ghost function AllExtracted(t: Tree, members: seq<Member>): Option<Tree>
    decreases |members|
  {
    if members == [] then Some(t)
    else
      match Extracted(t, members[0])
      case None => None
      case Some(next) => AllExtracted(next, members[1..])
  }

  ghost function Imported(a: Archive): Option<Tree> {
    if a.size > MAX_DECOMPRESSED_BYTES || |a.members| > MAX_BUNDLE_MEMBERS then None
    else if Bytes(a.members) > MAX_DECOMPRESSED_BYTES then None
    else AllExtracted(map[], a.members)
  }

  lemma ParentsMade(t: Tree, p: Path, made: Tree)
    requires forall q :: q in made <==> q in t || (q != [] && q < p)
    requires forall q :: q in made ==> made[q] == if q in t then t[q] else Dir
    ensures made == WithParents(t, p)
  {
    assert forall q :: q < p ==> q == p[..|q|];
  }

  method MakeParents(t: Tree, p: Path) returns (r: Option<Tree>)
    requires p != []
    ensures r == if IsUnderFile(t, p) then None else Some(WithParents(t, p))
  {
    var made := t;
    for i := 1 to |p|
      invariant forall j :: 0 < j < i && j < |p| && p[..j] in t ==> t[p[..j]].Dir?
      invariant forall q :: q in made <==> q in t || (q != [] && |q| < i && q < p)
      invariant forall q :: q in made ==> made[q] == if q in t then t[q] else Dir
    {
      assert forall q :: q < p && |q| == i ==> q == p[..i];
      if p[..i] in made && made[p[..i]].File? {
        return None;
      }
      if p[..i] !in made {
        made := made[p[..i] := Dir];
      }
    }
    ParentsMade(t, p, made);
    return Some(made);
  }

  method ExtractMember(t: Tree, m: Member) returns (r: Option<Tree>)
    ensures r == Extracted(t, m)
  {
    if m.name.Invalid? {
      return None;
    }
    var p := m.name.parts;
    if p == [] {
      return if m.kind.Directory? then Some(t) else None;
    }
    match m.kind {
      case Special =>
        return None;
      case Directory =>
        var made := MakeParents(t, p);
        if made.None? || (p in t && t[p].File?) {
          return None;
        }
        return Some(made.value[p := Dir]);
      case Regular(content) =>
        if |content| > MAX_BUNDLE_MEMBER_BYTES {
          return None;
        }
        var made := MakeParents(t, p);
        if made.None? || (p in t && t[p].Dir?) {
          return None;
        }
        return Some(made.value[p := File(content)]);
    }
  }

  method ExtractBundleArchive(a: Archive) returns (r: Option<Tree>)
    ensures r == Imported(a)
  {
    if a.size > MAX_DECOMPRESSED_BYTES || |a.members| > MAX_BUNDLE_MEMBERS {
      return None;
    }
    var bytes := 0;
    for i := 0 to |a.members|
      invariant bytes + Bytes(a.members[i..]) == Bytes(a.members)
    {
      assert a.members[i..][1..] == a.members[i + 1..];
      if a.members[i].kind.Regular? {
        bytes := bytes + |a.members[i].kind.content|;
      }
    }
    if bytes > MAX_DECOMPRESSED_BYTES {
      return None;
    }
    var t: Tree := map[];
    for i := 0 to |a.members|
      invariant AllExtracted(t, a.members[i..]) == AllExtracted(map[], a.members)
    {
      assert a.members[i..][1..] == a.members[i + 1..];
      var next := ExtractMember(t, a.members[i]);
      if next.None? {
        return None;
      }
      t := next.value;
    }
    return Some(t);
  }

  /* ---------- export ---------- */

  const CONFIG: Path := ["config.toml"]
  const FILES: Path := ["files"]

  /** The tree of a bundle: the configuration and, if there are any, the managed files. */
  function BundleTree(config: string, files: Option<Tree>): Tree {
    map[CONFIG := File(config)]
    + match files
      case None => map[]
      case Some(t) => map[FILES := Dir] + map q | q in (set p | p in t :: FILES + p) :: t[q[1..]]
  }

  /** `paths` lists the entries of `t`, each once. */
  ghost predicate Lists(paths: seq<Path>, t: Tree) {
    && (forall p :: p in paths <==> p in t)
    && (forall i, j :: 0 <= i < j < |paths| ==> paths[i] != paths[j])
  }

  function MemberOf(p: Path, n: Node): Member {
    Member(Relative(p), if n.Dir? then Directory else Regular(n.content))
  }

  /** The member of every leaf of the bundle, in the order of `paths`. */
  ghost function LeafMembers(t: Tree, paths: seq<Path>): seq<Member>
    requires forall p :: p in paths ==> p in t
  {
    if paths == [] then []
    else (if IsLeaf(t, paths[0]) then [MemberOf(FILES + paths[0], t[paths[0]])] else []) + LeafMembers(t, paths[1..])
  }

  /** The members of an export. */
  ghost function Exported(config: string, files: Option<Tree>, paths: seq<Path>): seq<Member>
    requires files.Some? ==> forall p :: p in paths ==> p in files.value
  {
    [Member(Relative(CONFIG), Regular(config))]
    + if files.Some? then FileMembers(files.value, paths) else []
  }

  class ArchiveBuilder {
    var members: seq<Member>

    constructor ()
      ensures members == []
    {
      members := [];
    }

    method AddFile(p: Path, content: string) returns (ok: bool)
      modifies this
      ensures ok <==> |old(members)| < MAX_BUNDLE_MEMBERS && |content| <= MAX_BUNDLE_MEMBER_BYTES
      ensures ok ==> members == old(members) + [Member(Relative(p), Regular(content))]
    {
      if |members| + 1 > MAX_BUNDLE_MEMBERS || |content| > MAX_BUNDLE_MEMBER_BYTES {
        return false;
      }
      members := members + [Member(Relative(p), Regular(content))];
      return true;
    }

    method AddDirectory(p: Path) returns (ok: bool)
      modifies this
      ensures ok <==> |old(members)| < MAX_BUNDLE_MEMBERS
      ensures ok ==> members == old(members) + [Member(Relative(p), Directory)]
    {
      if |members| + 1 > MAX_BUNDLE_MEMBERS {
        return false;
      }
      members := members + [Member(Relative(p), Directory)];
      return true;
    }
  }

  function Parent(p: Path): Path
    requires p != []
  {
    p[..|p| - 1]
  }

  ghost predicate FitsLimits(members: seq<Member>) {
    && |members| <= MAX_BUNDLE_MEMBERS
    && forall m :: m in members && m.kind.Regular? ==> |m.kind.content| <= MAX_BUNDLE_MEMBER_BYTES
  }

  /** Builds the archive of a configuration and its managed files.  `headers` is what the tar
      format adds to the contents, `compressed` the length of the compressed archive. */
  method BuildExportTar(config: string, files: Option<Tree>, paths: seq<Path>, headers: nat, compressed: nat)
    returns (r: Option<Archive>)
    requires files.Some? ==> IsTree(files.value) && Lists(paths, files.value)
    ensures var members := Exported(config, files, paths);
      && (r.Some? <==>
            && |members| <= 4096 && (forall m :: m in members && m.kind.Regular? ==> |m.kind.content| <= 0x400_0000)
            && Bytes(members) + headers <= 0x1000_0000 && compressed <= 0x200_0000)
      && (r.Some? ==> r.value == Archive(members, Bytes(members) + headers))
  {
    var builder := new ArchiveBuilder();
    ConfigFirst(config, if files.Some? then FileMembers(files.value, paths) else []);
    var ok := builder.AddFile(CONFIG, config);
    if !ok {
      return None;
    }
    if files.Some? {
      ok := AddFiles(builder, files.value, paths);
      if !ok {
        return None;
      }
    }
    var size := Bytes(builder.members) + headers;
    if size > MAX_DECOMPRESSED_BYTES || compressed > MAX_SOURCE_BYTES {
      return None;
    }
    return Some(Archive(builder.members, size));
  }

  lemma ConfigFirst(config: string, others: seq<Member>)
    ensures var first := [Member(Relative(CONFIG), Regular(config))];
      && (FitsLimits(first) <==> |config| <= MAX_BUNDLE_MEMBER_BYTES)
      && (FitsLimits(first + others) ==> FitsLimits(first))
      && [] + first == first && first + [] == first
  {
    var m := Member(Relative(CONFIG), Regular(config));
    assert m in [m];
    NeverFits([m], others);
  }

  ghost function FileMembers(t: Tree, paths: seq<Path>): seq<Member>
    requires forall p :: p in paths ==> p in t
  {
    (if t == map[] then [Member(Relative(FILES), Directory)] else []) + LeafMembers(t, paths)
  }

  /** Adds the member of one entry, unless it is a directory with entries of its own. */
  method AddEntry(builder: ArchiveBuilder, p: Path, n: Node, isParent: bool) returns (ok: bool)
    requires FitsLimits(builder.members)
    modifies builder
    ensures var members := old(builder.members) + EntryMembers(p, n, isParent);
      && (ok <==> FitsLimits(members))
      && (ok ==> builder.members == members)
  {
    ghost var before := builder.members;
    assert n.File? ==> MemberOf(p, n) in before + [MemberOf(p, n)];
    if n.File? {
      ok := builder.AddFile(p, n.content);
    } else if !isParent {
      ok := builder.AddDirectory(p);
    } else {
      ok := true;
    }
  }

  lemma NeverFits(members: seq<Member>, others: seq<Member>)
    ensures FitsLimits(members + others) ==> FitsLimits(members)
  {
    assert forall m :: m in members ==> m in members + others;
  }

  function EntryMembers(p: Path, n: Node, isParent: bool): seq<Member> {
    if n.Dir? && isParent then [] else [MemberOf(p, n)]
  }

  function Parents(paths: seq<Path>): set<Path> {
    set p | p in paths && p != [] :: Parent(p)
  }

  lemma NextLeaf(members: seq<Member>, t: Tree, paths: seq<Path>, i: nat)
    requires IsTree(t) && Lists(paths, t) && i < |paths|
    ensures paths[i] in t
    ensures members + LeafMembers(t, paths[i..]) ==
            (members + EntryMembers(FILES + paths[i], t[paths[i]], paths[i] in Parents(paths)))
            + LeafMembers(t, paths[i + 1..])
  {
    var p := paths[i];
    assert p in paths;
    assert paths[i..][0] == p && paths[i..][1..] == paths[i + 1..];
    LeafIsParentless(t, paths, p);
    assert LeafMembers(t, paths[i..]) ==
           EntryMembers(FILES + p, t[p], p in Parents(paths)) + LeafMembers(t, paths[i + 1..]);
  }

  /** Adds the members of the managed files, while they fit. */
  method AddFiles(builder: ArchiveBuilder, t: Tree, paths: seq<Path>) returns (ok: bool)
    requires IsTree(t) && Lists(paths, t) && FitsLimits(builder.members)
    modifies builder
    ensures ok <==> FitsLimits(old(builder.members) + FileMembers(t, paths))
    ensures ok ==> builder.members == old(builder.members) + FileMembers(t, paths)
  {
    ghost var before := builder.members;
    var nonempty := Parents(paths);
    EmptyIsParentless(t, paths);
    ok := AddEntry(builder, FILES, Dir, [] in nonempty);
    if !ok {
      assert t == map[];
      assert before + FileMembers(t, paths) == before + [Member(Relative(FILES), Directory)] + LeafMembers(t, paths);
      NeverFits(before + [Member(Relative(FILES), Directory)], LeafMembers(t, paths));
      return;
    }
    assert before + FileMembers(t, paths) == builder.members + LeafMembers(t, paths) by {
      assert paths[0..] == paths;
    }
    ok := AddLeaves(builder, t, paths, nonempty);
  }

  method AddLeaves(builder: ArchiveBuilder, t: Tree, paths: seq<Path>, nonempty: set<Path>) returns (ok: bool)
    requires IsTree(t) && Lists(paths, t) && FitsLimits(builder.members) && nonempty == Parents(paths)
    modifies builder
    ensures ok <==> FitsLimits(old(builder.members) + LeafMembers(t, paths))
    ensures ok ==> builder.members == old(builder.members) + LeafMembers(t, paths)
  {
    ghost var all := builder.members + LeafMembers(t, paths);
    assert paths[0..] == paths;
    for i := 0 to |paths|
      invariant FitsLimits(builder.members) && builder.members + LeafMembers(t, paths[i..]) == all
    {
      NextLeaf(builder.members, t, paths, i);
      ghost var next := builder.members + EntryMembers(FILES + paths[i], t[paths[i]], paths[i] in nonempty);
      NeverFits(next, LeafMembers(t, paths[i + 1..]));
      ok := AddEntry(builder, FILES + paths[i], t[paths[i]], paths[i] in nonempty);
      if !ok {
        return;
      }
    }
    return true;
  }

  lemma EmptyIsParentless(t: Tree, paths: seq<Path>)
    requires IsTree(t) && Lists(paths, t)
    ensures t == map[] <==> [] !in Parents(paths)
  {
    if p :| p in t {
      if |p| > 1 {
        assert p[..1] in t && Parent(p[..1]) == [];
      } else {
        assert Parent(p) == [];
      }
    }
  }

  lemma LeafIsParentless(t: Tree, paths: seq<Path>, p: Path)
    requires IsTree(t) && Lists(paths, t) && p in t
    ensures IsLeaf(t, p) <==> p !in Parents(paths)
    ensures t[p].File? ==> IsLeaf(t, p)
  {
    forall q | q in t && IsBelow(q, p)
      ensures t[p].Dir? && p in Parents(paths)
    {
      var child := q[..|p| + 1];
      assert |q| == |p| + 1 ==> child == q;
      assert q[..|p|] == p && child in t && Parent(child) == p;
    }
    forall q | q in paths && q != [] && Parent(q) == p ensures q in t && IsBelow(q, p) {
    }
  }
}
