/** The meaning of a canonical text is the configuration it was printed from. */
module TomlMeaning {
  import opened Outcomes
  import opened ConfigValues
  import opened CanonicalToml
  import opened TomlReader
  import opened TomlRoundTrip

  /* ---------- looking things up ---------- */

  /** What a configuration holds under a path of keys. */
  function Find(entries: seq<Entry>, path: Path): Found
    requires path != []
    decreases entries
  {
    match Get(entries, path[0])
    case None => Nothing
    case Some(v) =>
      if |path| > 1 then (if v.Table? then Find(v.entries, path[1..]) else Nothing)
      else if v.Table? then ATable
      else AValue(v)
  }

  /** The same keys with the same values, in any order, at every level. */
  ghost predicate IsSame(a: seq<Entry>, b: seq<Entry>)
    decreases a
  {
    forall k ::
      && Get(a, k).Some? == Get(b, k).Some?
      && (Get(a, k).Some? ==>
            var v, w := Get(a, k).value, Get(b, k).value;
            if v.Table? then w.Table? && IsSame(v.entries, w.entries) else v == w)
  }

  lemma {:induction false} SameIsFound(a: seq<Entry>, b: seq<Entry>, path: Path)
    requires IsSame(a, b) && path != []
    ensures Find(a, path) == Find(b, path)
    decreases |path|
  {
    var v, w := Get(a, path[0]), Get(b, path[0]);
    if v.Some? && v.value.Table? && |path| > 1 {
      SameIsFound(v.value.entries, w.value.entries, path[1..]);
    }
  }

  ghost predicate FindsSame(a: seq<Entry>, b: seq<Entry>) {
    forall path :: path != [] ==> Find(a, path) == Find(b, path)
  }

  lemma {:induction false} FoundIsSame(a: seq<Entry>, b: seq<Entry>)
    requires FindsSame(a, b)
    ensures IsSame(a, b)
    decreases a
  {
    forall k | Get(a, k).Some? || Get(b, k).Some?
      ensures Get(a, k).Some? && Get(b, k).Some?
      ensures var v, w := Get(a, k).value, Get(b, k).value;
              if v.Table? then w.Table? && IsSame(v.entries, w.entries) else v == w
    {
      assert Find(a, [k]) == Find(b, [k]);
      if Get(a, k).value.Table? {
        var inner, other := Get(a, k).value.entries, Get(b, k).value.entries;
        forall path | path != [] ensures Find(inner, path) == Find(other, path) {
          assert ([k] + path)[1..] == path;
          assert Find(a, [k] + path) == Find(b, [k] + path);
        }
        FoundIsSame(inner, other);
      }
    }
  }

  /** Nothing is lost by looking at paths only. */
  lemma SameMeaning(a: seq<Entry>, b: seq<Entry>)
    ensures IsSame(a, b) <==> FindsSame(a, b)
  {
    if IsSame(a, b) {
      forall path | path != [] ensures Find(a, path) == Find(b, path) {
        SameIsFound(a, b, path);
      }
    } else if FindsSame(a, b) {
      FoundIsSame(a, b);
    }
  }

  predicate HasScalar(entries: seq<Entry>, key: string) {
    Get(entries, key).Some? && !Get(entries, key).value.Table?
  }

  predicate HasTables(entries: seq<Entry>) {
    exists e :: e in entries && e.value.Table?
  }

  /* ---------- running the statements ---------- */

  lemma {:induction false} ExecuteInTwo(d: Doc, a: seq<Statement>, b: seq<Statement>)
    requires ExecuteAll(d, a).Some?
    ensures ExecuteAll(d, a + b) == ExecuteAll(ExecuteAll(d, a).value, b)
    decreases |a|
  {
    if a == [] {
      assert a + b == b;
    } else {
      assert (a + b)[0] == a[0] && (a + b)[1..] == a[1..] + b;
      ExecuteInTwo(Execute(d, a[0]).value, a[1..], b);
    }
  }

  /** The values of the current table have been added, and nothing else has changed. */
  ghost predicate AddsScalars(d: Doc, d': Doc, entries: seq<Entry>) {
    && d'.current == d.current
    && forall q :: Lookup(d', q) ==
         if d.current < q && |q| == |d.current| + 1 && HasScalar(entries, q[|d.current|]) then
           AValue(Get(entries, q[|d.current|]).value)
         else
           Lookup(d, q)
  }

  lemma ScalarsInTwo(d: Doc, d1: Doc, d': Doc, entries: seq<Entry>)
    requires IsDict(entries) && entries != [] && !entries[0].value.Table?
    requires d1 == d.(nodes := d.nodes[d.current + [entries[0].key] := Leaf(entries[0].value)])
    requires AddsScalars(d1, d', entries[1..])
    ensures AddsScalars(d, d', entries)
  {
    DictTail(entries);
    var n := |d.current|;
    forall q ensures Lookup(d', q) == if d.current < q && |q| == n + 1 && HasScalar(entries, q[n]) then
                                        AValue(Get(entries, q[n]).value)
                                      else
                                        Lookup(d, q)
    {
      assert d.current < q && |q| == n + 1 ==> q == d.current + [q[n]];
    }
  }

  lemma {:induction false} RunScalars(d: Doc, entries: seq<Entry>)
    requires IsDict(entries)
    requires forall k :: HasScalar(entries, k) ==> Lookup(d, d.current + [k]) == Nothing
    ensures ExecuteAll(d, Scalars(entries)).Some? && AddsScalars(d, ExecuteAll(d, Scalars(entries)).value, entries)
    decreases |entries|
  {
    if entries != [] {
      var e := entries[0];
      DictTail(entries);
      if e.value.Table? {
        assert forall k :: HasScalar(entries[1..], k) <==> HasScalar(entries, k);
        RunScalars(d, entries[1..]);
        assert Scalars(entries) == Scalars(entries[1..]);
      } else {
        var d1 := d.(nodes := d.nodes[d.current + [e.key] := Leaf(e.value)]);
        assert HasScalar(entries, e.key);
        forall k | HasScalar(entries[1..], k) ensures Lookup(d1, d1.current + [k]) == Nothing {
          assert HasScalar(entries, k) && (d.current + [k])[|d.current|] == k;
        }
        RunScalars(d1, entries[1..]);
        var rest := Scalars(entries[1..]);
        assert Scalars(entries)[0] == KeyValue(e.key, e.value) && Scalars(entries)[1..] == rest;
        ScalarsInTwo(d, d1, ExecuteAll(d1, rest).value, entries);
      }
    }
  }

  /** A table of this path has been opened: it and the tables around it exist now. */
  ghost predicate Opens(d: Doc, d': Doc, path: Path) {
    && d'.current == path
    && forall q :: Lookup(d', q) == if q != [] && q <= path then ATable else Lookup(d, q)
  }

  ghost predicate IsOpen(d: Doc, path: Path) {
    forall q :: q != [] && q <= path ==> !Lookup(d, q).AValue?
  }

  lemma RunHeader(d: Doc, path: Path)
    requires path != [] && IsOpen(d, path) && Lookup(d, path) == Nothing
    ensures Execute(d, Header(path)).Some? && Opens(d, Execute(d, Header(path)).value, path)
  {
    forall i | 0 < i < |path| && path[..i] in d.nodes ensures !d.nodes[path[..i]].Leaf? {
      assert path[..i] <= path && !Lookup(d, path[..i]).AValue?;
    }
    var d' := Execute(d, Header(path)).value;
    forall q ensures Lookup(d', q) == if q != [] && q <= path then ATable else Lookup(d, q) {
      if q != [] && q <= path && q != path {
        assert path[..|q|] == q && !Lookup(d, q).AValue?;
      }
    }
  }

  /** The tables of `entries` have been added under `path`, and nothing else has changed. */
  ghost predicate AddsTables(d: Doc, d': Doc, path: Path, entries: seq<Entry>) {
    forall q :: Lookup(d', q) ==
      if path < q && HasTable(entries, q[|path|]) then Find(entries, q[|path|..])
      else if q != [] && q <= path && HasTables(entries) then ATable
      else Lookup(d, q)
  }

  ghost predicate AddsTable(d: Doc, d': Doc, path: Path, entries: seq<Entry>) {
    forall q :: Lookup(d', q) ==
      if path < q then Find(entries, q[|path|..])
      else if q != [] && q <= path then ATable
      else Lookup(d, q)
  }

  lemma {:induction false} NoScalars(entries: seq<Entry>, key: string)
    requires Scalars(entries) == []
    ensures !HasScalar(entries, key)
  {
    if entries != [] {
      NoScalars(entries[1..], key);
    }
  }

  /** A table with a header: opened, then its values, then its tables. */
  lemma WithHeader(d: Doc, d1: Doc, d2: Doc, d': Doc, path: Path, entries: seq<Entry>)
    requires IsOpen(d, path) && forall q :: path <= q ==> Lookup(d, q) == Nothing
    requires Opens(d, d1, path) && AddsScalars(d1, d2, entries) && AddsTables(d2, d', path, entries)
    ensures AddsTable(d, d', path, entries)
  {
    forall q ensures Lookup(d', q) == if path < q then Find(entries, q[|path|..])
                                      else if q != [] && q <= path then ATable
                                      else Lookup(d, q)
    {
      assert path < q ==> q[|path|..][0] == q[|path|];
    }
  }

  lemma WithoutHeader(d: Doc, d': Doc, path: Path, entries: seq<Entry>)
    requires forall q :: path <= q ==> Lookup(d, q) == Nothing
    requires Scalars(entries) == [] && entries != [] && AddsTables(d, d', path, entries)
    ensures AddsTable(d, d', path, entries)
  {
    NoScalars(entries, entries[0].key);
    assert entries[0] in entries && entries[0].value.Table?;
    forall q ensures Lookup(d', q) == if path < q then Find(entries, q[|path|..])
                                      else if q != [] && q <= path then ATable
                                      else Lookup(d, q)
    {
      if path < q {
        assert q[|path|..][0] == q[|path|];
        NoScalars(entries, q[|path|]);
      }
    }
  }

  lemma {:induction false} RunTable(d: Doc, path: Path, entries: seq<Entry>)
    requires IsDict(entries) && path != [] && IsOpen(d, path)
    requires forall q :: path <= q ==> Lookup(d, q) == Nothing
    ensures ExecuteAll(d, TableStatements(path, entries)).Some?
    ensures AddsTable(d, ExecuteAll(d, TableStatements(path, entries)).value, path, entries)
    decreases entries, 1
  {
    var own, sub := Own(path, entries), SubStatements(path, entries);
    assert IsFree(d, path, entries);
    if Scalars(entries) == [] && entries != [] {
      assert own == [] && own + sub == sub;
      RunTables(d, path, entries);
      WithoutHeader(d, ExecuteAll(d, sub).value, path, entries);
    } else {
      RunHeader(d, path);
      var d1 := Execute(d, Header(path)).value;
      RunScalars(d1, entries);
      assert own[0] == Header(path) && own[1..] == Scalars(entries);
      var d2 := ExecuteAll(d, own).value;
      RunTables(d2, path, entries);
      ExecuteInTwo(d, own, sub);
      WithHeader(d, d1, d2, ExecuteAll(d2, sub).value, path, entries);
    }
  }

  lemma TablesInTwo(d: Doc, d1: Doc, d': Doc, path: Path, entries: seq<Entry>)
    requires IsDict(entries) && entries != [] && entries[0].value.Table?
    requires AddsTable(d, d1, path + [entries[0].key], entries[0].value.entries)
    requires AddsTables(d1, d', path, entries[1..])
    ensures AddsTables(d, d', path, entries)
  {
    DictTail(entries);
    var e, n := entries[0], |path|;
    assert e in entries;
    assert HasTables(entries);
    forall q ensures Lookup(d', q) == if path < q && HasTable(entries, q[n]) then Find(entries, q[n..])
                                      else if q != [] && q <= path && HasTables(entries) then ATable
                                      else Lookup(d, q)
    {
      if path < q {
        assert q[n..][0] == q[n] && q[n..][1..] == q[n + 1..];
        assert q[n] == e.key <==> path + [e.key] <= q;
      }
    }
  }

  lemma TablesOfTail(d: Doc, d': Doc, path: Path, entries: seq<Entry>)
    requires IsDict(entries) && entries != [] && !entries[0].value.Table?
    requires AddsTables(d, d', path, entries[1..])
    ensures AddsTables(d, d', path, entries)
  {
    DictTail(entries);
    assert entries == [entries[0]] + entries[1..];
    assert HasTables(entries) <==> HasTables(entries[1..]);
    forall q ensures Lookup(d', q) == if path < q && HasTable(entries, q[|path|]) then Find(entries, q[|path|..])
                                      else if q != [] && q <= path && HasTables(entries) then ATable
                                      else Lookup(d, q)
    {
      assert path < q ==> q[|path|..][0] == q[|path|];
    }
  }

  /** The paths below the tables of `entries` are free. */
  ghost predicate IsFree(d: Doc, path: Path, entries: seq<Entry>) {
    forall q :: path < q && HasTable(entries, q[|path|]) ==> Lookup(d, q) == Nothing
  }

  lemma FreeInTwo(d: Doc, d1: Doc, path: Path, entries: seq<Entry>)
    requires IsDict(entries) && entries != [] && entries[0].value.Table?
    requires IsOpen(d, path) && IsFree(d, path, entries)
    requires AddsTable(d, d1, path + [entries[0].key], entries[0].value.entries)
    ensures IsOpen(d1, path) && IsFree(d1, path, entries[1..])
  {
    DictTail(entries);
    var inner := path + [entries[0].key];
    forall q | path < q && HasTable(entries[1..], q[|path|]) ensures Lookup(d1, q) == Nothing {
      assert q[|path|] != inner[|path|];
      assert HasTable(entries, q[|path|]);
    }
    forall q | q != [] && q <= path ensures !Lookup(d1, q).AValue? {
      assert q <= inner;
    }
  }

  lemma FreeFirst(d: Doc, path: Path, entries: seq<Entry>)
    requires entries != [] && entries[0].value.Table? && IsOpen(d, path) && IsFree(d, path, entries)
    ensures IsOpen(d, path + [entries[0].key])
    ensures forall q :: path + [entries[0].key] <= q ==> Lookup(d, q) == Nothing
  {
    var inner := path + [entries[0].key];
    forall q | inner <= q ensures Lookup(d, q) == Nothing {
      assert inner[|path|] == q[|path|] == entries[0].key && path < q;
    }
    forall q | q != [] && q <= inner ensures !Lookup(d, q).AValue? {
      assert q == inner || q <= path;
    }
  }

  lemma {:induction false} RunTables(d: Doc, path: Path, entries: seq<Entry>)
    requires IsDict(entries) && IsOpen(d, path) && IsFree(d, path, entries)
    ensures ExecuteAll(d, SubStatements(path, entries)).Some?
    ensures AddsTables(d, ExecuteAll(d, SubStatements(path, entries)).value, path, entries)
    decreases entries, 0
  {
    if entries != [] {
      var e, others := entries[0], SubStatements(path, entries[1..]);
      DictTail(entries);
      if e.value.Table? {
        var first := TableStatements(path + [e.key], e.value.entries);
        FreeFirst(d, path, entries);
        RunTable(d, path + [e.key], e.value.entries);
        var d1 := ExecuteAll(d, first).value;
        FreeInTwo(d, d1, path, entries);
        RunTables(d1, path, entries[1..]);
        ExecuteInTwo(d, first, others);
        TablesInTwo(d, d1, ExecuteAll(d1, others).value, path, entries);
      } else {
        assert forall k :: HasTable(entries[1..], k) ==> HasTable(entries, k);
        RunTables(d, path, entries[1..]);
        assert SubStatements(path, entries) == others;
        TablesOfTail(d, ExecuteAll(d, others).value, path, entries);
      }
    }
  }

  /** Executing a whole document defines every key and table once, and exactly those of the
      configuration. */
  lemma RunDocument(data: seq<Entry>)
    requires IsDict(data)
    ensures var doc := ExecuteAll(Doc([], map[]), Document(data));
      doc.Some? && forall path :: path != [] ==> Lookup(doc.value, path) == Find(data, path)
  {
    var d := Doc([], map[]);
    RunScalars(d, data);
    var d1 := ExecuteAll(d, Scalars(data)).value;
    RunTables(d1, [], data);
    ExecuteInTwo(d, Scalars(data), SubStatements([], data));
    var d' := ExecuteAll(d1, SubStatements([], data)).value;
    forall path | path != [] ensures Lookup(d', path) == Find(data, path) {
      assert path[0..] == path;
    }
  }

  /* ---------- the round trip ---------- */

  /** Reading the canonical text of a configuration by TOML v1.0.0 gives its tables and values
      back, exactly when every key and string in it survives printing. */
  lemma RoundTrip(data: seq<Entry>)
    requires IsDict(data) && Canonical(data).Some?
    ensures var doc := ReadToml(Canonical(data).value);
      && (doc.Some? <==> IsPlainData(data))
      && (doc.Some? ==> forall path :: path != [] ==> Lookup(doc.value, path) == Find(data, path))
  {
    PlainDocument(data);
    ReadCanonical(data);
    RunDocument(data);
  }

  /** Two inputs for which the round trip fails: a key that ends in a newline, and a string with
      a character above U+FFFF. */
  lemma NewlineKeyIsLost()
    ensures var data := [Entry("name\n", Bool(true))]; Canonical(data).Some? && ReadToml(Canonical(data).value).None?
  {
    var key, e := "name\n", Entry("name\n", Bool(true));
    assert key[..|key| - 1] == "name" && IsBareKey("name") && !IsBare('\n') && key[4] in key;
    assert e in [e] && !IsPlainKey(key);
    Unreadable(e);
  }

  lemma AstralStringIsLost()
    ensures var data := [Entry("name", Str([0x1F600 as char]))];
            Canonical(data).Some? && ReadToml(Canonical(data).value).None?
  {
    var e := Entry("name", Str([0x1F600 as char]));
    assert e.value.text[0] as int > 0xFFFF;
    assert e in [e] && !IsPlainValue(e.value);
    Unreadable(e);
  }

  lemma Unreadable(e: Entry)
    requires IsSupported(e.value) && !(IsPlainKey(e.key) && IsPlainValue(e.value))
    ensures Canonical([e]).Some? && ReadToml(Canonical([e]).value).None?
  {
    assert e in [e];
    PrintsExactly([e]);
    RoundTrip([e]);
  }

  /* ---------- what is printed at all ---------- */

  /** Strings, integers, booleans and lists of these. */
  ghost predicate IsSupported(v: Value)
    decreases v
  {
    match v
    case List(items) => forall item :: item in items ==> IsSupported(item)
    case Str(_) => true
    case Int(_) => true
    case Bool(_) => true
    case _ => false
  }

  ghost predicate IsSupportedData(entries: seq<Entry>)
    decreases entries
  {
    forall e :: e in entries ==> if e.value.Table? then IsSupportedData(e.value.entries) else IsSupported(e.value)
  }

  ghost predicate AreLines(statements: seq<Statement>) {
    forall s :: s in statements ==> Line(s).Some?
  }

  lemma {:induction false} PrintsValue(v: Value)
    ensures TomlValue(v).Some? <==> IsSupported(v)
    decreases v, 0
  {
    if v.List? {
      PrintsItems(v.items);
    }
  }

  lemma {:induction false} PrintsItems(items: seq<Value>)
    ensures TomlItems(items).Some? <==> forall item :: item in items ==> IsSupported(item)
    decreases items, 1
  {
    if items != [] {
      assert items == [items[0]] + items[1..];
      PrintsValue(items[0]);
      PrintsItems(items[1..]);
    }
  }

  lemma {:induction false} PrintsAll(lines: seq<string>, statements: seq<Statement>)
    ensures AppendAll(lines, statements).Some? <==> AreLines(statements)
    decreases |statements|
  {
    if statements != [] {
      assert statements == [statements[0]] + statements[1..];
      if Line(statements[0]).Some? {
        PrintsAll(Append(lines, statements[0]).value, statements[1..]);
      }
    }
  }

  lemma PrintsScalars(entries: seq<Entry>)
    ensures AreLines(Scalars(entries)) <==> forall e :: e in entries && !e.value.Table? ==> IsSupported(e.value)
  {
    forall s ensures s in Scalars(entries) <==>
        exists e :: e in entries && !e.value.Table? && s == KeyValue(e.key, e.value) {
      ScalarsOf(entries, s);
    }
    forall e | e in entries && !e.value.Table?
      ensures KeyValue(e.key, e.value) in Scalars(entries)
      ensures Line(KeyValue(e.key, e.value)).Some? <==> IsSupported(e.value)
    {
      PrintsValue(e.value);
    }
  }

  lemma {:induction false} PrintsTables(path: Path, entries: seq<Entry>)
    ensures AreLines(SubStatements(path, entries)) <==>
            forall e :: e in entries && e.value.Table? ==> IsSupportedData(e.value.entries)
    decreases entries
  {
    if entries != [] {
      var e := entries[0];
      assert entries == [e] + entries[1..];
      PrintsTables(path, entries[1..]);
      if e.value.Table? {
        PrintsTables(path + [e.key], e.value.entries);
        PrintsScalars(e.value.entries);
        assert AreLines(TableStatements(path + [e.key], e.value.entries)) <==> IsSupportedData(e.value.entries);
      }
    }
  }

  /** A canonical text exists exactly when every value is supported: no null, float, date or
      time, and no table in a list. */
  lemma PrintsExactly(data: seq<Entry>)
    ensures Canonical(data).Some? <==> IsSupportedData(data)
  {
    PrintsAll([], Document(data));
    PrintsScalars(data);
    PrintsTables([], data);
  }
}
