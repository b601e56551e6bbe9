/** The form of a canonical text: its ends, and the headers that occur in it. */
module TomlLayout {
  import opened Outcomes
  import opened Texts
  import opened ConfigValues
  import opened CanonicalToml
  import opened TomlRoundTrip

  /* ---------- the ends ---------- */

  lemma {:induction false} StrippedIsNeat(text: string)
    ensures Stripped(text) == "" || IsNeat(Stripped(text))
    decreases |text|
  {
    if text != "" && IsSpace(text[0]) {
      StrippedIsNeat(text[1..]);
    } else if text != "" && IsSpace(text[|text| - 1]) {
      StrippedIsNeat(text[..|text| - 1]);
    }
  }

  /** A canonical text ends in one newline, and has no other white space at either end. */
  lemma CanonicalEnds(data: seq<Entry>)
    requires Canonical(data).Some?
    ensures var text := Canonical(data).value;
      && text != "" && text[|text| - 1] == '\n'
      && var body := text[..|text| - 1]; body == "" || IsNeat(body)
  {
    StrippedIsNeat(Dumped(data).value);
  }

  /* ---------- headers ---------- */

  /** The table that is reached by a path of keys. */
  function TableBelow(entries: seq<Entry>, path: Path): Option<seq<Entry>>
    decreases path
  {
    if path == [] then Some(entries)
    else if HasTable(entries, path[0]) then TableBelow(Get(entries, path[0]).value.entries, path[1..])
    else None
  }

  /** An empty table, or one that holds a value of its own. */
  predicate NeedsHeader(entries: seq<Entry>) {
    entries == [] || exists e :: e in entries && !e.value.Table?
  }

  predicate HasHeader(entries: seq<Entry>, path: Path) {
    TableBelow(entries, path).Some? && NeedsHeader(TableBelow(entries, path).value)
  }

  lemma OwnHeader(path: Path, entries: seq<Entry>, q: Path)
    ensures Header(q) in Own(path, entries) <==> q == path && NeedsHeader(entries)
  {
    ScalarsOf(entries, Header(q));
    if Scalars(entries) != [] {
      ScalarsOf(entries, Scalars(entries)[0]);
    }
    forall e | e in entries && !e.value.Table? ensures Scalars(entries) != [] {
      ScalarsOf(entries, KeyValue(e.key, e.value));
    }
  }

  lemma {:induction false} HeadersBelow(path: Path, entries: seq<Entry>, q: Path)
    requires IsDict(entries)
    ensures Header(q) in SubStatements(path, entries) <==> path < q && HasHeader(entries, q[|path|..])
    decreases entries
  {
    if entries != [] {
      var e := entries[0];
      var inner := path + [e.key];
      DictTail(entries);
      HeadersBelow(path, entries[1..], q);
      if path < q {
        HeaderOfFirst(entries, q[|path|..]);
        assert q[|path|..][1..] == q[|path| + 1..];
      }
      if e.value.Table? {
        OwnHeader(inner, e.value.entries, q);
        HeadersBelow(inner, e.value.entries, q);
        Inside(path, e.key, q);
      }
    }
  }

  lemma Inside(path: Path, key: string, q: Path)
    ensures path + [key] <= q <==> path < q && q[|path|] == key
    ensures path + [key] <= q ==> (q == path + [key] <==> q[|path| + 1..] == [])
  {
  }

  lemma HeaderOfFirst(entries: seq<Entry>, q: Path)
    requires IsDict(entries) && entries != [] && q != []
    ensures HasHeader(entries, q) <==>
            if q[0] == entries[0].key then entries[0].value.Table? && HasHeader(entries[0].value.entries, q[1..])
            else HasHeader(entries[1..], q)
    ensures q[0] == entries[0].key ==> !HasHeader(entries[1..], q)
  {
    DictTail(entries);
  }

  /** The headers of a document are those of the tables that are empty or hold values of their own:
      a table that only holds tables gets none. */
  lemma HeadersExactly(data: seq<Entry>, q: Path)
    requires IsDict(data)
    ensures Header(q) in Document(data) <==> q != [] && HasHeader(data, q)
  {
    HeadersBelow([], data, q);
    assert q[0..] == q;
  }
}
