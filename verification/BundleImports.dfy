/** Which archives are imported, and as what: laws that do not depend on the order of extraction. */
module BundleImports {
  import opened Outcomes
  import opened Bundle

  /** A member that may be extracted at all: inside the root, a directory or a regular file of at
      most 64 MiB, and the root itself only as a directory. */
  predicate IsAdmissible(m: Member) {
    && m.name.Relative? && !m.kind.Special?
    && (m.name.parts == [] ==> m.kind.Directory?)
    && (m.kind.Regular? ==> |m.kind.content| <= 0x400_0000)
  }

  /** `m` is a file where `other` needs a directory. */
  predicate IsInTheWay(m: Member, other: Member) {
    && m.name.Relative? && other.name.Relative? && m.kind.Regular?
    && (m.name.parts < other.name.parts || (m.name.parts == other.name.parts && other.kind.Directory?))
  }

  ghost predicate AreFree(done: seq<Member>, members: seq<Member>) {
    forall m, other :: m in done && other in members ==> !IsInTheWay(m, other) && !IsInTheWay(other, m)
  }

  /* ---------- one member ---------- */

  /** A member is extracted exactly if it is admissible and meets no entry of the other kind. */
  lemma ExtractedExactly(t: Tree, m: Member)
    ensures Extracted(t, m).Some? <==>
              && IsAdmissible(m)
              && (forall q :: q in t && t[q].File? && q != [] ==> !(q < m.name.parts))
              && (m.name.parts != [] && m.name.parts in t ==> (t[m.name.parts].Dir? <==> m.kind.Directory?))
  {
    var p := if m.name.Relative? then m.name.parts else [];
    forall q | q in t && q < p ensures q == p[..|q|] {
    }
  }

  /** It becomes an entry with its content, missing directories above it are made, and all other
      entries stay. */
  lemma ExtractedMeans(t: Tree, m: Member, q: Path)
    requires Extracted(t, m).Some?
    ensures var p, t' := m.name.parts, Extracted(t, m).value;
      && (q in t' <==> q in t || (q != [] && q <= p))
      && (q in t' ==>
            t'[q] == if q == p != [] then (if m.kind.Directory? then Dir else File(m.kind.content))
                     else if q in t then t[q]
                     else Dir)
  {
    var p := m.name.parts;
    assert q <= p ==> |q| <= |p| && q == p[..|q|];
    ParentsAt(t, p, q);
    if p != [] {
      assert Extracted(t, m).value == WithParents(t, p)[p := if m.kind.Directory? then Dir else File(m.kind.content)];
      assert q in Extracted(t, m).value <==> q == p || q in WithParents(t, p);
    }
  }

  lemma ParentsAt(t: Tree, p: Path, q: Path)
    ensures q in WithParents(t, p) <==> q in t || (q != [] && q < p)
    ensures q in WithParents(t, p) ==> WithParents(t, p)[q] == if q in t then t[q] else Dir
  {
    var made := map i | 0 < i < |p| && p[..i] !in t :: p[..i] := Dir;
    assert WithParents(t, p) == t + made;
    if q < p && q != [] && q !in t {
      assert q == p[..|q|] && p[..|q|] in made;
    }
  }

  /* ---------- all members ---------- */

  /** The tree is made of the members so far. */
  ghost predicate IsMadeOf(t: Tree, done: seq<Member>) {
    && (forall m :: m in done ==> m.name.Relative?)
    && (forall q :: q in t <==> q != [] && exists m :: m in done && q <= m.name.parts)
    && (forall q :: q in t && t[q].File? <==> q != [] && exists m :: m in done && m.name.parts == q && m.kind.Regular?)
  }

  lemma NextExtracted(t: Tree, done: seq<Member>, m: Member)
    requires IsMadeOf(t, done) && AreExtractable(done)
    ensures Extracted(t, m).Some? <==> IsAdmissible(m) && AreFree(done, [m])
  {
    ExtractedExactly(t, m);
    if Extracted(t, m).Some? {
      forall d | d in done ensures !IsInTheWay(d, m) && !IsInTheWay(m, d) {
        assert d.name.parts != [] ==> d.name.parts in t && (d.kind.Regular? ==> t[d.name.parts].File?);
        if IsInTheWay(m, d) {
          var file :| file in done && file.name.parts == m.name.parts && file.kind.Regular?;
          assert IsInTheWay(file, d);
        }
      }
    } else if IsAdmissible(m) && AreFree(done, [m]) {
      assert m in [m];
      var p := m.name.parts;
      if q :| q in t && t[q].File? && q != [] && q < p {
        var d :| d in done && d.name.parts == q && d.kind.Regular?;
        assert IsInTheWay(d, m);
      } else if t[p].File? {
        var d :| d in done && d.name.parts == p && d.kind.Regular?;
        assert IsInTheWay(d, m);
      } else {
        var d :| d in done && p <= d.name.parts;
        assert IsInTheWay(m, d);
      }
    }
  }

  lemma NextMade(t: Tree, done: seq<Member>, m: Member)
    requires IsMadeOf(t, done) && Extracted(t, m).Some?
    ensures IsMadeOf(Extracted(t, m).value, done + [m])
  {
    var t', all, p := Extracted(t, m).value, done + [m], m.name.parts;
    assert forall d :: d in all <==> d in done || d == m;
    forall q
      ensures q in t' <==> q != [] && exists d :: d in all && q <= d.name.parts
      ensures q in t' && t'[q].File? <==> q != [] && exists d :: d in all && d.name.parts == q && d.kind.Regular?
    {
      ExtractedMeans(t, m, q);
      ExtractedExactly(t, m);
    }
  }

  ghost predicate AreExtractable(members: seq<Member>) {
    (forall m :: m in members ==> IsAdmissible(m)) && AreFree(members, members)
  }

  lemma {:induction false} AllExtractedExactly(t: Tree, done: seq<Member>, members: seq<Member>)
    requires IsMadeOf(t, done) && AreExtractable(done)
    ensures AllExtracted(t, members).Some? <==> AreExtractable(done + members)
    ensures AllExtracted(t, members).Some? ==> IsMadeOf(AllExtracted(t, members).value, done + members)
    decreases |members|
  {
    if members == [] {
      assert done + members == done;
    } else {
      var m := members[0];
      assert done + members == done + [m] + members[1..];
      assert m in done + members && forall d :: d in done ==> d in done + members;
      NextExtracted(t, done, m);
      if Extracted(t, m).Some? {
        NextMade(t, done, m);
        assert !IsInTheWay(m, m);
        assert AreExtractable(done + [m]);
        AllExtractedExactly(Extracted(t, m).value, done + [m], members[1..]);
      }
    }
  }

  /* ---------- contents ---------- */

  /** The last member of a path is the one that counts. */
  ghost predicate IsLast(members: seq<Member>, m: Member) {
    exists i :: 0 <= i < |members| && members[i] == m && forall j :: i < j < |members| ==> members[j].name != m.name
  }

  lemma {:induction false} LastCounts(t: Tree, members: seq<Member>, p: Path)
    requires AllExtracted(t, members).Some? && p in AllExtracted(t, members).value && p != []
    ensures var n := AllExtracted(t, members).value[p];
            n.File? ==> IsLast(members, MemberOf(p, n)) || (p in t && t[p] == n && IsUnnamed(members, p))
    decreases |members|
  {
    if members != [] {
      var m := members[0];
      var next, n := Extracted(t, m).value, AllExtracted(t, members).value[p];
      LastCounts(next, members[1..], p);
      ExtractedMeans(t, m, p);
      assert members == [m] + members[1..];
      if n.File? && IsLast(members[1..], MemberOf(p, n)) {
        LastOfTail(members, MemberOf(p, n));
      }
    }
  }

  ghost predicate IsUnnamed(members: seq<Member>, p: Path) {
    forall j :: 0 <= j < |members| ==> members[j].name != Relative(p)
  }

  lemma LastOfTail(members: seq<Member>, m: Member)
    requires members != [] && IsLast(members[1..], m)
    ensures IsLast(members, m)
  {
    var i :| 0 <= i < |members| - 1 && members[1..][i] == m
             && forall j :: i < j < |members| - 1 ==> members[1..][j].name != m.name;
    assert members[i + 1] == m;
    forall j | i + 1 < j < |members| ensures members[j].name != m.name {
      assert members[j] == members[1..][j - 1];
    }
  }

  /** An archive is imported exactly if it is within the limits, every member is admissible, and no
      file is where another member needs a directory. */
  lemma ImportedExactly(a: Archive)
    ensures Imported(a).Some? <==>
              && a.size <= 0x1000_0000 && |a.members| <= 4096 && Bytes(a.members) <= 0x1000_0000
              && AreExtractable(a.members)
  {
    assert [] + a.members == a.members;
    AllExtractedExactly(map[], [], a.members);
  }

  /** The imported tree has an entry for each member and for what lies above one.  An entry is a
      file exactly if a member makes it one, and then it is the last member of its path. */
  lemma ImportedMeans(a: Archive, q: Path)
    requires Imported(a).Some? && q != []
    ensures var t := Imported(a).value;
      && (q in t <==> exists m :: m in a.members && m.name.Relative? && q <= m.name.parts)
      && (q in t && t[q].File? <==> exists m :: m in a.members && m.name == Relative(q) && m.kind.Regular?)
      && (q in t && t[q].File? ==> IsLast(a.members, Member(Relative(q), Regular(t[q].content))))
  {
    assert [] + a.members == a.members;
    AllExtractedExactly(map[], [], a.members);
    if q in Imported(a).value {
      LastCounts(map[], a.members, q);
    }
  }

  /** The bytes of an archive are those of its regular members, each counted once. */
  lemma {:induction false} BytesMeans(a: seq<Member>, b: seq<Member>)
    ensures Bytes(a + b) == Bytes(a) + Bytes(b)
    ensures |a| == 1 ==> Bytes(a) == if a[0].kind.Regular? then |a[0].kind.content| else 0
  {
    if a == [] {
      assert a + b == b;
    } else {
      assert (a + b)[0] == a[0] && (a + b)[1..] == a[1..] + b;
      BytesMeans(a[1..], b);
    }
  }
}
