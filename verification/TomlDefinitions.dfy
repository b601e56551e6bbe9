/** Which TOML documents are valid, and what they define: laws of section "Table" of TOML v1.0.0
    that do not depend on how a reader keeps its tables. */
module TomlDefinitions {
  import opened Outcomes
  import opened ConfigValues
  import opened CanonicalToml
  import opened TomlReader

  /** What one statement defines, under its full path. */
  datatype Definition = TableAt(path: Path) | ValueAt(path: Path, value: Value)

  /** A key belongs to the last header before it. */
  function DefinitionOf(current: Path, s: Statement): Definition {
    match s
    case KeyValue(k, v) => ValueAt(current + [k], v)
    case Header(path) => TableAt(path)
  }

  function Definitions(current: Path, statements: seq<Statement>): seq<Definition>
    decreases |statements|
  {
    if statements == [] then []
    else
      var s := statements[0];
      [DefinitionOf(current, s)] + Definitions(if s.Header? then s.path else current, statements[1..])
  }

  /** No path is defined twice as a value or twice as a table, and no value is where a table, or
      one around it, is. */
  predicate AreCompatible(a: Definition, b: Definition) {
    match a
    case TableAt(path) => if b.TableAt? then path != b.path else !(b.path <= path)
    case ValueAt(path, _) => if b.ValueAt? then path != b.path else !(path <= b.path)
  }

  ghost predicate FitsIn(done: seq<Definition>, d: Definition) {
    forall e :: e in done ==> AreCompatible(e, d)
  }

  ghost predicate AreAllCompatible(definitions: seq<Definition>) {
    forall i, j :: 0 <= i < j < |definitions| ==> AreCompatible(definitions[i], definitions[j])
  }

  /** Every table around a defined one is there too. */
  ghost predicate IsTableOf(definitions: seq<Definition>, path: Path) {
    exists d :: d in definitions && d.TableAt? && path <= d.path && (path != [] || d.path == [])
  }

  ghost predicate HoldsDefined(nodes: map<Path, Node>, done: seq<Definition>) {
    && (forall p, v :: p in nodes && nodes[p] == Leaf(v) <==> ValueAt(p, v) in done)
    && (forall p :: p in nodes && nodes[p] == Explicit <==> TableAt(p) in done)
  }

  /** The document holds what has been defined. */
  ghost predicate Holds(nodes: map<Path, Node>, done: seq<Definition>) {
    && HoldsDefined(nodes, done)
    && (forall p :: p in nodes && !nodes[p].Leaf? <==> IsTableOf(done, p))
    && (forall d :: d in done && d.ValueAt? ==> d.path != [])
  }

  lemma ValueIsExecuted(d: Doc, done: seq<Definition>, k: string, v: Value)
    requires Holds(d.nodes, done)
    ensures var next := ValueAt(d.current + [k], v);
      Execute(d, KeyValue(k, v)).Some? <==> FitsIn(done, next)
  {
    var next := ValueAt(d.current + [k], v);
    if next.path !in d.nodes {
      forall e | e in done ensures AreCompatible(e, next) {
        assert e.ValueAt? ==> e == ValueAt(e.path, e.value);
        assert e.TableAt? && next.path <= e.path ==> IsTableOf(done, next.path);
      }
    } else if d.nodes[next.path].Leaf? {
      assert ValueAt(next.path, d.nodes[next.path].value) in done;
    } else {
      assert IsTableOf(done, next.path);
    }
  }

  lemma HeaderIsExecuted(d: Doc, done: seq<Definition>, path: Path)
    requires HoldsDefined(d.nodes, done) && forall e :: e in done && e.ValueAt? ==> e.path != []
    ensures Execute(d, Header(path)).Some? <==> FitsIn(done, TableAt(path))
  {
    forall q: Path | q <= path ensures q == path[..|q|] && (|q| == |path| ==> q == path) {
    }
    if Execute(d, Header(path)).Some? {
      forall e | e in done ensures AreCompatible(e, TableAt(path)) {
        assert e.ValueAt? ==> e == ValueAt(e.path, e.value) && e.path in d.nodes;
      }
    } else if path in d.nodes && d.nodes[path] == Explicit {
      assert TableAt(path) in done;
    } else {
      assert path == path[..|path|];
      var i :| 0 <= i <= |path| && path[..i] in d.nodes && d.nodes[path[..i]].Leaf?;
      assert ValueAt(path[..i], d.nodes[path[..i]].value) in done;
    }
  }

  lemma NextIsExecuted(d: Doc, done: seq<Definition>, s: Statement)
    requires Holds(d.nodes, done)
    ensures Execute(d, s).Some? <==> FitsIn(done, DefinitionOf(d.current, s))
  {
    match s
    case KeyValue(k, v) => ValueIsExecuted(d, done, k, v);
    case Header(path) => HeaderIsExecuted(d, done, path);
  }

  lemma NextHolds(d: Doc, done: seq<Definition>, s: Statement)
    requires Holds(d.nodes, done) && Execute(d, s).Some?
    ensures Holds(Execute(d, s).value.nodes, done + [DefinitionOf(d.current, s)])
  {
    var next, nodes := DefinitionOf(d.current, s), Execute(d, s).value.nodes;
    var all := done + [next];
    NextIsExecuted(d, done, s);
    assert forall e :: e in all <==> e in done || e == next;
    forall p
      ensures forall v :: p in nodes && nodes[p] == Leaf(v) <==> ValueAt(p, v) in all
      ensures p in nodes && nodes[p] == Explicit <==> TableAt(p) in all
      ensures p in nodes && !nodes[p].Leaf? <==> IsTableOf(all, p)
    {
      NextHoldsAt(d, done, s, p);
    }
  }

  lemma NextHoldsAt(d: Doc, done: seq<Definition>, s: Statement, p: Path)
    requires Holds(d.nodes, done) && Execute(d, s).Some?
    ensures var all, nodes := done + [DefinitionOf(d.current, s)], Execute(d, s).value.nodes;
      && (forall v :: p in nodes && nodes[p] == Leaf(v) <==> ValueAt(p, v) in all)
      && (p in nodes && nodes[p] == Explicit <==> TableAt(p) in all)
      && (p in nodes && !nodes[p].Leaf? <==> IsTableOf(all, p))
  {
    var next, nodes := DefinitionOf(d.current, s), Execute(d, s).value.nodes;
    var all := done + [next];
    assert forall e :: e in all <==> e in done || e == next;
    assert IsTableOf(all, p) <==> IsTableOf(done, p) || IsTableOf([next], p);
    if s.Header? {
      HeaderNodes(d, s.path, p);
      assert IsTableOf([next], p) <==> p <= s.path && (p != [] || s.path == []);
    }
  }

  lemma HeaderNodes(d: Doc, path: Path, p: Path)
    requires Execute(d, Header(path)).Some?
    ensures var nodes := Execute(d, Header(path)).value.nodes;
      && (p in nodes <==> p in d.nodes || p == path || (p != [] && p < path))
      && (p in nodes ==>
            nodes[p] == if p == path then Explicit else if p in d.nodes then d.nodes[p] else Implicit)
      && (p < path && p in d.nodes && p != [] ==> !d.nodes[p].Leaf?)
  {
    var parents := map i | 0 < i < |path| && path[..i] !in d.nodes :: path[..i] := Implicit;
    assert Execute(d, Header(path)).value.nodes == (d.nodes + parents)[path := Explicit];
    if p < path {
      assert p == path[..|p|];
    }
    assert p in parents ==> p != [] && p < path && p !in d.nodes;
    assert p != [] && p < path && p !in d.nodes ==> path[..|p|] in parents;
  }

  /* ---------- whole documents ---------- */

  /** Each of `definitions` is compatible with `done` and with those before it. */
  ghost predicate AreCompatibleAfter(done: seq<Definition>, definitions: seq<Definition>)
    decreases |definitions|
  {
    definitions != [] ==>
      && FitsIn(done, definitions[0])
      && AreCompatibleAfter(done + [definitions[0]], definitions[1..])
  }

  lemma {:induction false} CompatibleInPairs(done: seq<Definition>, definitions: seq<Definition>)
    ensures var all := done + definitions;
      AreCompatibleAfter(done, definitions) <==>
        forall i, j :: 0 <= i < j < |all| && |done| <= j ==> AreCompatible(all[i], all[j])
    decreases |definitions|
  {
    var all := done + definitions;
    if definitions != [] {
      assert done + [definitions[0]] + definitions[1..] == all;
      CompatibleInPairs(done + [definitions[0]], definitions[1..]);
      assert all[|done|] == definitions[0] && forall i :: 0 <= i < |done| ==> all[i] == done[i];
    }
  }

  lemma FirstExecuted(d: Doc, done: seq<Definition>, statements: seq<Statement>) returns (next: Doc)
    requires Holds(d.nodes, done) && statements != []
    ensures var definitions := Definitions(d.current, statements);
      && definitions != []
      && (Execute(d, statements[0]).Some? <==> FitsIn(done, definitions[0]))
      && (Execute(d, statements[0]).Some? ==>
            && next == Execute(d, statements[0]).value
            && Holds(next.nodes, done + [definitions[0]])
            && definitions[1..] == Definitions(next.current, statements[1..]))
  {
    var s := statements[0];
    NextIsExecuted(d, done, s);
    next := d;
    if Execute(d, s).Some? {
      next := Execute(d, s).value;
      NextHolds(d, done, s);
    }
  }

  lemma {:induction false} AllExecuted(d: Doc, done: seq<Definition>, statements: seq<Statement>)
    requires Holds(d.nodes, done)
    ensures ExecuteAll(d, statements).Some? <==> AreCompatibleAfter(done, Definitions(d.current, statements))
    ensures ExecuteAll(d, statements).Some? ==>
              Holds(ExecuteAll(d, statements).value.nodes, done + Definitions(d.current, statements))
    decreases |statements|
  {
    if statements == [] {
      assert done + [] == done;
    } else {
      var definitions := Definitions(d.current, statements);
      var next := FirstExecuted(d, done, statements);
      if Execute(d, statements[0]).Some? {
        AllExecuted(next, done + [definitions[0]], statements[1..]);
        assert done + [definitions[0]] + definitions[1..] == done + definitions;
      }
    }
  }

  /** A document is valid exactly if its definitions are compatible in pairs. */
  lemma ValidExactly(statements: seq<Statement>)
    ensures ExecuteAll(Doc([], map[]), statements).Some? <==> AreAllCompatible(Definitions([], statements))
  {
    var definitions := Definitions([], statements);
    assert [] + definitions == definitions;
    AllExecuted(Doc([], map[]), [], statements);
    CompatibleInPairs([], definitions);
  }

  /** It holds each value where it was defined, the tables that have headers or lie around one, and
      nothing else. */
  lemma ValidMeans(statements: seq<Statement>, path: Path, v: Value)
    requires ExecuteAll(Doc([], map[]), statements).Some?
    ensures var found := Lookup(ExecuteAll(Doc([], map[]), statements).value, path);
      && (found == AValue(v) <==> ValueAt(path, v) in Definitions([], statements))
      && (found == ATable <==>
            exists d :: d in Definitions([], statements) && d.TableAt?
                        && path <= d.path && (path != [] || d.path == []))
  {
    AllExecuted(Doc([], map[]), [], statements);
    assert [] + Definitions([], statements) == Definitions([], statements);
  }
}
