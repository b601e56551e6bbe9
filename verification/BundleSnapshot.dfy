/** The bounded copy of a directory tree.  One pair of counters is shared by the whole recursion. */
module BundleSnapshot {
  import opened Outcomes
  import opened Numbers

  const MAX_BUNDLE_DEPTH := 64
  const CHUNK := 0x1_0000

  /** `links` counts the hard links of a file. */
  datatype Node = File(content: string, links: nat) | Folder(items: seq<Item>) | Symlink | Special

  /** One entry of a directory, whose entries are given in the order of their names. */
  datatype Item = Item(name: string, node: Node)

  /** A missing limit does not limit. */
  datatype Limits = Limits(fileBytes: Option<nat>, totalBytes: Option<nat>, members: Option<nat>)

  predicate IsWithin(n: nat, limit: Option<nat>) {
    limit.None? || n <= limit.value
  }

  predicate IsName(name: string) {
    name != "" && name != "." && name != ".."
  }

  /* ---------- what a tree holds ---------- */

  function Bytes(items: seq<Item>): nat
    decreases items, 0
  {
    if items == [] then 0 else NodeBytes(items[0].node) + Bytes(items[1..])
  }

  function NodeBytes(n: Node): nat
    decreases n, 1
  {
    match n
    case File(content, _) => |content|
    case Folder(items) => Bytes(items)
    case _ => 0
  }

  /** All entries of a directory, at any depth. */
  function Entries(items: seq<Item>): nat
    decreases items, 1
  {
    |items| + InnerEntries(items)
  }

  function InnerEntries(items: seq<Item>): nat
    decreases items, 0
  {
    if items == [] then 0 else NodeEntries(items[0].node) + InnerEntries(items[1..])
  }

  function NodeEntries(n: Node): nat
    decreases n, 2
  {
    if n.Folder? then Entries(n.items) else 0
  }

  /** Only named regular files with one link and of admissible size, and directories not nested
      too deeply. */
  predicate IsSound(items: seq<Item>, depth: nat, limits: Limits)
    decreases items
  {
    forall i :: 0 <= i < |items| ==> IsName(items[i].name) && IsSoundNode(items[i].node, depth, limits)
  }

  predicate IsSoundNode(n: Node, depth: nat, limits: Limits)
    decreases n
  {
    match n
    case File(content, links) => links == 1 && IsWithin(|content|, limits.fileBytes)
    case Folder(items) => depth < MAX_BUNDLE_DEPTH && IsSound(items, depth + 1, limits)
    case Symlink => false
    case Special => false
  }

  /** The copy of a directory meets every limit. */
  predicate Fits(items: seq<Item>, depth: nat, limits: Limits, bytes: nat, members: nat) {
    && IsSound(items, depth, limits)
    && IsWithin(bytes + Bytes(items), limits.totalBytes) && IsWithin(members + Entries(items), limits.members)
  }

  predicate FitsNode(n: Node, depth: nat, limits: Limits, bytes: nat, members: nat) {
    && IsSoundNode(n, depth, limits)
    && IsWithin(bytes + NodeBytes(n), limits.totalBytes) && IsWithin(members + NodeEntries(n), limits.members)
  }

  /* ---------- the same, entry by entry ---------- */

  type Path = seq<string>

  /** An entry at any depth, with the names that lead to it. */
  datatype Visit = Visit(path: Path, node: Node)

  /** All entries below a directory: each comes before what lies below it. */
  function Visited(above: Path, items: seq<Item>): seq<Visit>
    decreases items
  {
    if items == [] then []
    else
      var path, node := above + [items[0].name], items[0].node;
      [Visit(path, node)]
      + (if node.Folder? then Visited(path, node.items) else [])
      + Visited(above, items[1..])
  }

  function Sizes(visits: seq<Visit>): nat {
    if visits == [] then 0
    else (if visits[0].node.File? then |visits[0].node.content| else 0) + Sizes(visits[1..])
  }

  /** A regular file with a single link and of admissible size, or a directory at most 64 deep. */
  predicate IsCopied(v: Visit, limits: Limits) {
    && v.path != [] && v.path[|v.path| - 1] !in {"", ".", ".."}
    && match v.node
       case File(content, links) => links == 1 && (limits.fileBytes.Some? ==> |content| <= limits.fileBytes.value)
       case Folder(_) => |v.path| <= 64
       case Symlink => false
       case Special => false
  }

  ghost predicate AreCopied(visits: seq<Visit>, limits: Limits) {
    forall v :: v in visits ==> IsCopied(v, limits)
  }

  lemma {:induction false} SizesInTwo(a: seq<Visit>, b: seq<Visit>)
    ensures Sizes(a + b) == Sizes(a) + Sizes(b)
  {
    if a == [] {
      assert a + b == b;
    } else {
      assert (a + b)[0] == a[0] && (a + b)[1..] == a[1..] + b;
      SizesInTwo(a[1..], b);
    }
  }

  lemma {:induction false} VisitedCounts(above: Path, items: seq<Item>)
    ensures |Visited(above, items)| == Entries(items) && Sizes(Visited(above, items)) == Bytes(items)
    decreases items
  {
    if items != [] {
      var path, node := above + [items[0].name], items[0].node;
      var first, inner := [Visit(path, node)], if node.Folder? then Visited(path, node.items) else [];
      if node.Folder? {
        VisitedCounts(path, node.items);
      }
      VisitedCounts(above, items[1..]);
      SizesInTwo(first + inner, Visited(above, items[1..]));
      SizesInTwo(first, inner);
      assert first[1..] == [];
      assert Entries(items) == 1 + NodeEntries(node) + Entries(items[1..]);
      assert NodeBytes(node) == Sizes(first) + Sizes(inner) && NodeEntries(node) == |inner|;
    }
  }

  lemma {:induction false} VisitedAreCopied(above: Path, items: seq<Item>, limits: Limits)
    ensures AreCopied(Visited(above, items), limits) <==> IsSound(items, |above|, limits)
    decreases items
  {
    if items != [] {
      var path, node := above + [items[0].name], items[0].node;
      var first, inner := Visit(path, node), if node.Folder? then Visited(path, node.items) else [];
      CopiedInThree(first, inner, Visited(above, items[1..]), limits);
      CopiedHere(above, items[0], limits);
      SoundInTwo(items, |above|, limits);
      VisitedAreCopied(above, items[1..], limits);
      if node.Folder? {
        VisitedAreCopied(path, node.items, limits);
        assert |path| == |above| + 1;
      }
    }
  }

  lemma CopiedHere(above: Path, item: Item, limits: Limits)
    ensures IsName(item.name) && IsSoundNode(item.node, |above|, limits) <==>
              && IsCopied(Visit(above + [item.name], item.node), limits)
              && (item.node.Folder? ==> IsSound(item.node.items, |above| + 1, limits))
  {
    var path := above + [item.name];
    assert path[|path| - 1] == item.name && |path| == |above| + 1;
  }

  lemma CopiedInThree(first: Visit, inner: seq<Visit>, others: seq<Visit>, limits: Limits)
    ensures AreCopied([first] + inner + others, limits) <==>
              IsCopied(first, limits) && AreCopied(inner, limits) && AreCopied(others, limits)
  {
    var all := [first] + inner + others;
    assert forall v :: v in all <==> v == first || v in inner || v in others;
  }

  lemma SoundInTwo(items: seq<Item>, depth: nat, limits: Limits)
    requires items != []
    ensures IsSound(items, depth, limits) <==>
              IsName(items[0].name) && IsSoundNode(items[0].node, depth, limits) && IsSound(items[1..], depth, limits)
  {
    forall i | 0 < i < |items| ensures items[i] == items[1..][i - 1] {
    }
    if IsSound(items[1..], depth, limits) && IsName(items[0].name) && IsSoundNode(items[0].node, depth, limits) {
      forall i | 0 <= i < |items| ensures IsName(items[i].name) && IsSoundNode(items[i].node, depth, limits) {
        if i > 0 {
          assert items[i] == items[1..][i - 1];
        }
      }
    }
  }

  /** A directory is copied exactly if each of its entries is one that is copied, at any depth, and
      all of them together stay within the limits. */
  lemma FitsExactly(items: seq<Item>, limits: Limits)
    ensures var visits := Visited([], items);
      Fits(items, 0, limits, 0, 0) <==>
        && AreCopied(visits, limits)
        && (limits.totalBytes.Some? ==> Sizes(visits) <= limits.totalBytes.value)
        && (limits.members.Some? ==> |visits| <= limits.members.value)
  {
    VisitedCounts([], items);
    VisitedAreCopied([], items, limits);
  }

  class Budget {
    const limits: Limits
    var totalBytes: nat
    var memberCount: nat

    predicate Valid()
      reads this
    {
      IsWithin(totalBytes, limits.totalBytes) && IsWithin(memberCount, limits.members)
    }

    constructor (limits: Limits)
      ensures Valid() && this.limits == limits && totalBytes == 0 && memberCount == 0
    {
      this.limits := limits;
      totalBytes, memberCount := 0, 0;
    }

    method CountEntries(items: seq<Item>) returns (ok: bool)
      requires Valid()
      modifies this`memberCount
      ensures Valid()
      ensures ok <==>
                && (forall i :: 0 <= i < |items| ==> IsName(items[i].name))
                && IsWithin(old(memberCount) + |items|, limits.members)
      ensures ok ==> memberCount == old(memberCount) + |items|
    {
      for i := 0 to |items|
        invariant Valid() && memberCount == old(memberCount) + i
        invariant forall j :: 0 <= j < i ==> IsName(items[j].name)
      {
        if !IsName(items[i].name) || (limits.members.Some? && memberCount >= limits.members.value) {
          return false;
        }
        memberCount := memberCount + 1;
      }
      return true;
    }

    /** Copies a file in chunks, each read one byte beyond what the limits still allow. */
    method CopyFile(content: string) returns (copy: Option<string>)
      requires Valid()
      modifies this`totalBytes
      ensures Valid()
      ensures copy.Some? <==>
                IsWithin(|content|, limits.fileBytes) && IsWithin(old(totalBytes) + |content|, limits.totalBytes)
      ensures copy.Some? ==> copy.value == content && totalBytes == old(totalBytes) + |content|
    {
      var copied := "";
      while true
        invariant copied <= content && IsWithin(|copied|, limits.fileBytes)
        invariant IsWithin(totalBytes + |copied|, limits.totalBytes)
        invariant totalBytes == old(totalBytes)
        decreases |content| - |copied|
      {
        var remaining: int := CHUNK;
        if limits.fileBytes.Some? {
          remaining := Min(remaining, limits.fileBytes.value - |copied|);
        }
        if limits.totalBytes.Some? {
          remaining := Min(remaining, limits.totalBytes.value - totalBytes - |copied|);
        }
        var end := Min(|copied| + Max(0, remaining) + 1, |content|);
        var chunk := content[|copied|..end];
        if chunk == "" {
          break;
        }
        if !IsWithin(|copied| + |chunk|, limits.fileBytes)
           || !IsWithin(totalBytes + |copied| + |chunk|, limits.totalBytes) {
          return None;
        }
        assert copied + chunk == content[..end];
        copied := copied + chunk;
      }
      totalBytes := totalBytes + |copied|;
      return Some(copied);
    }

    /** Copies a directory: exactly when it fits, the copy is the directory, and the counters have
        grown by just what it holds. */
    method SnapshotDir(items: seq<Item>, depth: nat) returns (copy: Option<seq<Item>>)
      requires Valid()
      modifies this
      ensures Valid()
      ensures copy.Some? <==> Fits(items, depth, limits, old(totalBytes), old(memberCount))
      ensures copy.Some? ==> copy.value == items
      ensures copy.Some? ==>
                totalBytes == old(totalBytes) + Bytes(items) && memberCount == old(memberCount) + Entries(items)
      decreases items, 0
    {
      var ok := CountEntries(items);
      if !ok {
        return None;
      }
      var copied: seq<Item> := [];
      for i := 0 to |items|
        invariant Valid() && copied == items[..i]
        invariant forall j :: 0 <= j < |items| ==> IsName(items[j].name)
        invariant forall j :: 0 <= j < i ==> IsSoundNode(items[j].node, depth, limits)
        invariant totalBytes + Bytes(items[i..]) == old(totalBytes) + Bytes(items)
        invariant memberCount + InnerEntries(items[i..]) == old(memberCount) + Entries(items)
      {
        assert items[i..][0] == items[i] && items[i..][1..] == items[i + 1..];
        var node := CopyNode(items[i].node, depth);
        if node.None? {
          return None;
        }
        copied := copied + [Item(items[i].name, node.value)];
      }
      return Some(copied);
    }

    method CopyNode(n: Node, depth: nat) returns (copy: Option<Node>)
      requires Valid()
      modifies this
      ensures Valid()
      ensures copy.Some? <==> FitsNode(n, depth, limits, old(totalBytes), old(memberCount))
      ensures copy.Some? ==> copy.value == n
      ensures copy.Some? ==>
                totalBytes == old(totalBytes) + NodeBytes(n) && memberCount == old(memberCount) + NodeEntries(n)
      decreases n, 1
    {
      match n {
        case Symlink =>
          return None;
        case Special =>
          return None;
        case Folder(items) =>
          if depth >= MAX_BUNDLE_DEPTH {
            return None;
          }
          var sub := SnapshotDir(items, depth + 1);
          return if sub.None? then None else Some(Folder(sub.value));
        case File(content, links) =>
          if links != 1 {
            return None;
          }
          var file := CopyFile(content);
          return if file.None? then None else Some(File(file.value, 1));
      }
    }
  }

  method SnapshotFilesSource(items: seq<Item>, limits: Limits) returns (copy: Option<seq<Item>>, bytes: nat)
    ensures copy.Some? <==> Fits(items, 0, limits, 0, 0)
    ensures copy.Some? ==> copy.value == items && bytes == Bytes(items)
  {
    var budget := new Budget(limits);
    copy := budget.SnapshotDir(items, 0);
    bytes := budget.totalBytes;
  }
}
