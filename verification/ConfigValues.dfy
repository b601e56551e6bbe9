/** Loaded configurations, and dictionaries in them. */
module ConfigValues {
  import opened Outcomes

  /** A loaded configuration.  A table is a dictionary in its order of insertion; `Other` is a
      float, a date or a time. */
  datatype Value =
    | Str(text: string)
    | Int(number: int)
    | Bool(flag: bool)
    | List(items: seq<Value>)
    | Table(entries: seq<Entry>)
    | Null
    | Other(literal: string)

  datatype Entry = Entry(key: string, value: Value)

  /** A dictionary holds each key once, at every level. */
  ghost predicate IsDict(entries: seq<Entry>)
    decreases entries
  {
    && (forall i, j :: 0 <= i < j < |entries| ==> entries[i].key != entries[j].key)
    && (forall i :: 0 <= i < |entries| && entries[i].value.Table? ==> IsDict(entries[i].value.entries))
  }

  /** The value of a key in a dictionary. */
  function Get(entries: seq<Entry>, key: string): (r: Option<Value>)
    ensures r.Some? ==> Entry(key, r.value) in entries
    ensures r.None? ==> forall e :: e in entries ==> e.key != key
  {
    if entries == [] then None
    else if entries[0].key == key then Some(entries[0].value)
    else Get(entries[1..], key)
  }

  predicate HasTable(entries: seq<Entry>, key: string) {
    Get(entries, key).Some? && Get(entries, key).value.Table?
  }

  lemma DictTail(entries: seq<Entry>)
    requires IsDict(entries) && entries != []
    ensures IsDict(entries[1..]) && (forall e :: e in entries[1..] ==> e in entries && e.key != entries[0].key)
    ensures Get(entries[1..], entries[0].key).None?
    ensures entries[0].value.Table? ==> IsDict(entries[0].value.entries)
    ensures forall e :: e in entries <==> e == entries[0] || e in entries[1..]
  {
    assert entries == [entries[0]] + entries[1..];
    assert forall e :: e in entries[1..] ==> e.key != entries[0].key;
  }
}
