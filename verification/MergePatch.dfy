/** The merge of a partial network update, against the JSON Merge Patch of RFC 7396 section 2. */
module MergePatch {
  import opened Outcomes
  import opened ConfigValues

  /* ---------- dictionaries ---------- */

  /** Assigning a key keeps its place; a new key comes last. */
  function Put(entries: seq<Entry>, key: string, v: Value): (r: seq<Entry>)
    ensures forall k :: Get(r, k) == if k == key then Some(v) else Get(entries, k)
  {
    if entries == [] then [Entry(key, v)]
    else if entries[0].key == key then [Entry(key, v)] + entries[1..]
    else
      var others := Put(entries[1..], key, v);
      [entries[0]] + others
  }

  function Pop(entries: seq<Entry>, key: string): (r: seq<Entry>)
    ensures forall k :: Get(r, k) == if k == key then None else Get(entries, k)
  {
    if entries == [] then []
    else
      var others := Pop(entries[1..], key);
      if entries[0].key == key then others else [entries[0]] + others
  }

  lemma {:induction false} PutSame(entries: seq<Entry>, key: string, v: Value)
    requires Get(entries, key) == Some(v)
    ensures Put(entries, key, v) == entries
  {
    assert entries == [entries[0]] + entries[1..];
    if entries[0].key != key {
      PutSame(entries[1..], key, v);
    }
  }

  lemma {:induction false} PopAbsent(entries: seq<Entry>, key: string)
    requires Get(entries, key).None?
    ensures Pop(entries, key) == entries
  {
    if entries != [] {
      assert entries == [entries[0]] + entries[1..];
      PopAbsent(entries[1..], key);
    }
  }

  lemma {:induction false} PutNew(entries: seq<Entry>, key: string, v: Value)
    requires Get(entries, key).None?
    ensures Put(entries, key, v) == entries + [Entry(key, v)]
  {
    if entries != [] {
      assert entries == [entries[0]] + entries[1..];
      assert [entries[0]] + (entries[1..] + [Entry(key, v)]) == entries + [Entry(key, v)];
      PutNew(entries[1..], key, v);
    }
  }

  /* ---------- the merge of this program ---------- */

  function Inner(entries: seq<Entry>, key: string): seq<Entry>
    requires HasTable(entries, key)
  {
    Get(entries, key).value.entries
  }

  function DeepMergedOne(target: seq<Entry>, e: Entry): seq<Entry>
    decreases e, 0
  {
    if e.value.Null? then Pop(target, e.key)
    else if e.value.Table? && HasTable(target, e.key) then
      Put(target, e.key, Table(DeepMerged(Inner(target, e.key), e.value.entries)))
    else Put(target, e.key, e.value)
  }

  function DeepMerged(target: seq<Entry>, patch: seq<Entry>): seq<Entry>
    decreases patch, 1
  {
    if patch == [] then target else DeepMerged(DeepMergedOne(target, patch[0]), patch[1..])
  }

  method DeepMerge(target: seq<Entry>, patch: seq<Entry>) returns (merged: seq<Entry>)
    ensures merged == DeepMerged(target, patch)
    decreases patch
  {
    merged := target;
    for i := 0 to |patch|
      invariant DeepMerged(merged, patch[i..]) == DeepMerged(target, patch)
    {
      var e := patch[i];
      assert patch[i..][0] == e && patch[i..][1..] == patch[i + 1..];
      if e.value.Null? {
        merged := Pop(merged, e.key);
      } else if e.value.Table? && HasTable(merged, e.key) {
        var inner := DeepMerge(Inner(merged, e.key), e.value.entries);
        merged := Put(merged, e.key, Table(inner));
      } else {
        merged := Put(merged, e.key, e.value);
      }
    }
  }

  /* ---------- RFC 7396 section 2 ---------- */

  /** A missing target is written as `Null`: all that matters is that it is no object. */
  function Current(target: seq<Entry>, key: string): Value {
    if Get(target, key).Some? then Get(target, key).value else Null
  }

  function Patched(target: Value, patch: Value): Value
    decreases patch, 2
  {
    if patch.Table? then Table(PatchedAll(if target.Table? then target.entries else [], patch.entries)) else patch
  }

  function PatchedAll(target: seq<Entry>, patch: seq<Entry>): seq<Entry>
    decreases patch, 1
  {
    if patch == [] then target else PatchedAll(PatchedOne(target, patch[0]), patch[1..])
  }

  function PatchedOne(target: seq<Entry>, e: Entry): seq<Entry>
    decreases e, 0
  {
    if e.value.Null? then Pop(target, e.key) else Put(target, e.key, Patched(Current(target, e.key), e.value))
  }

  /* ---------- where the two agree ---------- */

  ghost predicate IsNullFree(patch: seq<Entry>)
    decreases patch
  {
    forall e :: e in patch ==> !e.value.Null? && (e.value.Table? ==> IsNullFree(e.value.entries))
  }

  /** Every null lies where the target already has the enclosing table. */
  ghost predicate IsAligned(target: seq<Entry>, patch: seq<Entry>)
    decreases patch
  {
    forall e :: e in patch ==> IsAlignedAt(target, e)
  }

  ghost predicate IsAlignedAt(target: seq<Entry>, e: Entry)
    decreases e
  {
    e.value.Table? ==>
      if HasTable(target, e.key) then IsAligned(Inner(target, e.key), e.value.entries) else IsNullFree(e.value.entries)
  }

  lemma InnerDict(entries: seq<Entry>, e: Entry)
    requires IsDict(entries) && e in entries && e.value.Table?
    ensures IsDict(e.value.entries)
  {
  }

  lemma GetOfTail(entries: seq<Entry>, key: string)
    requires IsDict(entries) && entries != []
    ensures Get(entries, key) == if key == entries[0].key then Some(entries[0].value) else Get(entries[1..], key)
    ensures Get(entries[1..], entries[0].key).None?
  {
    DictTail(entries);
  }

  /** A key of the patch is merged with what the target has; the other keys stay. */
  lemma {:induction false} DeepMergedAt(target: seq<Entry>, patch: seq<Entry>, key: string)
    requires IsDict(patch)
    ensures Get(DeepMerged(target, patch), key) ==
            if Get(patch, key).Some? then Get(DeepMergedOne(target, Entry(key, Get(patch, key).value)), key)
            else Get(target, key)
    decreases |patch|
  {
    if patch != [] {
      DictTail(patch);
      GetOfTail(patch, key);
      DeepMergedAt(DeepMergedOne(target, patch[0]), patch[1..], key);
    }
  }

  /** A null removes its key, a table is merged into a table, any other value replaces what there
      was, and keys that the patch does not name stay. */
  lemma DeepMergedMeans(target: seq<Entry>, patch: seq<Entry>, key: string)
    requires IsDict(patch)
    ensures var before, merged := Get(target, key), Get(DeepMerged(target, patch), key);
      match Get(patch, key)
      case None => merged == before
      case Some(Null) => merged == None
      case Some(Table(entries)) =>
        merged == Some(Table(match before
                             case Some(Table(inner)) => DeepMerged(inner, entries)
                             case _ => entries))
      case Some(v) => merged == Some(v)
  {
    DeepMergedAt(target, patch, key);
  }

  lemma {:induction false} PatchedAt(target: seq<Entry>, patch: seq<Entry>, key: string)
    requires IsDict(patch)
    ensures Get(PatchedAll(target, patch), key) ==
            if Get(patch, key).Some? then Get(PatchedOne(target, Entry(key, Get(patch, key).value)), key)
            else Get(target, key)
    decreases |patch|
  {
    if patch != [] {
      DictTail(patch);
      GetOfTail(patch, key);
      PatchedAt(PatchedOne(target, patch[0]), patch[1..], key);
    }
  }

  lemma {:induction false} GetMember(entries: seq<Entry>, e: Entry)
    requires IsDict(entries) && e in entries
    ensures Get(entries, e.key) == Some(e.value)
  {
    DictTail(entries);
    if e != entries[0] {
      GetMember(entries[1..], e);
    }
  }

  /* Merged into nothing, a patch is left as it is exactly when it holds no null. */

  lemma NextToPatch(target: seq<Entry>, patch: seq<Entry>)
    requires IsNew(target, patch) && patch != []
    ensures IsNew(target + [patch[0]], patch[1..])
  {
    DictTail(patch);
    PutNew(target, patch[0].key, patch[0].value);
  }

  lemma InTwo(target: seq<Entry>, patch: seq<Entry>)
    requires patch != []
    ensures target + [patch[0]] + patch[1..] == target + patch
  {
  }

  /** The patch holds no null and none of the target's keys. */
  ghost predicate IsNew(target: seq<Entry>, patch: seq<Entry>) {
    IsDict(patch) && IsNullFree(patch) && forall e :: e in patch ==> Get(target, e.key).None?
  }

  lemma {:induction false} PatchedNew(target: seq<Entry>, patch: seq<Entry>)
    requires IsNew(target, patch)
    ensures PatchedAll(target, patch) == target + patch
    decreases patch, 1
  {
    if patch == [] {
      assert target + patch == target;
    } else {
      PatchedNewOne(target, patch);
      NextToPatch(target, patch);
      PatchedNew(target + [patch[0]], patch[1..]);
      InTwo(target, patch);
    }
  }

  lemma {:induction false} PatchedNewOne(target: seq<Entry>, patch: seq<Entry>)
    requires IsDict(patch) && patch != [] && IsNullFree(patch) && Get(target, patch[0].key).None?
    ensures PatchedOne(target, patch[0]) == Put(target, patch[0].key, patch[0].value) == target + [patch[0]]
    decreases patch, 0
  {
    var e := patch[0];
    assert e in patch;
    PutNew(target, e.key, e.value);
    if e.value.Table? {
      InnerDict(patch, e);
      PatchedNew([], e.value.entries);
      assert [] + e.value.entries == e.value.entries;
    }
  }

  lemma {:induction false} NullFreeIfPatchedNew(patch: seq<Entry>)
    requires IsDict(patch) && PatchedAll([], patch) == patch
    ensures IsNullFree(patch)
    decreases patch
  {
    forall e | e in patch ensures !e.value.Null? && (e.value.Table? ==> IsNullFree(e.value.entries)) {
      GetMember(patch, e);
      PatchedAt([], patch, e.key);
      assert Get(PatchedOne([], e), e.key) == Some(e.value);
      if e.value.Table? {
        InnerDict(patch, e);
        assert Patched(Current([], e.key), e.value) == Table(PatchedAll([], e.value.entries));
        NullFreeIfPatchedNew(e.value.entries);
      }
    }
  }

  lemma IntoNothing(sub: seq<Entry>)
    requires IsDict(sub)
    ensures PatchedAll([], sub) == sub <==> IsNullFree(sub)
  {
    if IsNullFree(sub) {
      assert IsNew([], sub);
      PatchedNew([], sub);
      assert [] + sub == sub;
    } else if PatchedAll([], sub) == sub {
      NullFreeIfPatchedNew(sub);
    }
  }

  lemma {:induction false} AgreeIfAligned(target: seq<Entry>, patch: seq<Entry>)
    requires IsDict(patch) && IsAligned(target, patch)
    ensures DeepMerged(target, patch) == PatchedAll(target, patch)
    decreases patch
  {
    if patch != [] {
      var e := patch[0];
      DictTail(patch);
      assert e in patch && IsAlignedAt(target, e);
      if e.value.Table? {
        if HasTable(target, e.key) {
          AgreeIfAligned(Inner(target, e.key), e.value.entries);
        } else {
          IntoNothing(e.value.entries);
        }
      }
      var next := DeepMergedOne(target, e);
      assert next == PatchedOne(target, e);
      assert forall other :: other in patch[1..] ==> Get(next, other.key) == Get(target, other.key);
      AgreeIfAligned(next, patch[1..]);
    }
  }

  lemma {:induction false} AlignedIfAgree(target: seq<Entry>, patch: seq<Entry>)
    requires IsDict(patch) && DeepMerged(target, patch) == PatchedAll(target, patch)
    ensures IsAligned(target, patch)
    decreases patch, 1
  {
    forall e | e in patch ensures IsAlignedAt(target, e) {
      GetMember(patch, e);
      DeepMergedAt(target, patch, e.key);
      PatchedAt(target, patch, e.key);
      AlignedAtIfAgree(target, patch, e);
    }
  }

  lemma {:induction false} AlignedAtIfAgree(target: seq<Entry>, patch: seq<Entry>, e: Entry)
    requires IsDict(patch) && e in patch && Get(DeepMergedOne(target, e), e.key) == Get(PatchedOne(target, e), e.key)
    ensures IsAlignedAt(target, e)
    decreases patch, 0
  {
    if e.value.Table? {
      InnerDict(patch, e);
      if HasTable(target, e.key) {
        AlignedIfAgree(Inner(target, e.key), e.value.entries);
      } else {
        IntoNothing(e.value.entries);
      }
    }
  }

  /** The merge is the MergePatch of RFC 7396 exactly when every null of the patch lies where the
      target already has the enclosing table. */
  lemma MergeMeaning(target: seq<Entry>, patch: seq<Entry>)
    requires IsDict(patch)
    ensures Table(DeepMerged(target, patch)) == Patched(Table(target), Table(patch)) <==> IsAligned(target, patch)
  {
    if IsAligned(target, patch) {
      AgreeIfAligned(target, patch);
    } else if DeepMerged(target, patch) == PatchedAll(target, patch) {
      AlignedIfAgree(target, patch);
    }
  }

  /* ---------- merging twice ---------- */

  lemma {:induction false} MergedStill(target: seq<Entry>, patch: seq<Entry>)
    requires forall e :: e in patch ==> DeepMergedOne(target, e) == target
    ensures DeepMerged(target, patch) == target
    decreases |patch|
  {
    if patch != [] {
      assert patch[0] in patch;
      MergedStill(target, patch[1..]);
    }
  }

  lemma {:induction false} MergedIntoItself(sub: seq<Entry>)
    requires IsDict(sub)
    ensures DeepMerged(sub, sub) == sub <==> IsNullFree(sub)
    decreases sub
  {
    forall e | e in sub
      ensures DeepMergedOne(sub, e) == sub <==> !e.value.Null? && (e.value.Table? ==> IsNullFree(e.value.entries))
      ensures DeepMerged(sub, sub) == sub ==> !e.value.Null? && (e.value.Table? ==> IsNullFree(e.value.entries))
    {
      GetMember(sub, e);
      DeepMergedAt(sub, sub, e.key);
      if e.value.Table? {
        InnerDict(sub, e);
        MergedIntoItself(e.value.entries);
      }
      if !e.value.Null? {
        PutSame(sub, e.key, e.value);
      }
    }
    if IsNullFree(sub) {
      MergedStill(sub, sub);
    }
  }

  /** Merging the same patch again changes nothing exactly when it is aligned with the target; a
      patch without nulls always is. */
  lemma {:induction false} MergedTwice(target: seq<Entry>, patch: seq<Entry>)
    requires IsDict(patch)
    ensures var merged := DeepMerged(target, patch); DeepMerged(merged, patch) == merged <==> IsAligned(target, patch)
    decreases patch
  {
    var merged := DeepMerged(target, patch);
    forall e | e in patch
      ensures DeepMergedOne(merged, e) == merged <==> IsAlignedAt(target, e)
      ensures DeepMerged(merged, patch) == merged ==> IsAlignedAt(target, e)
    {
      GetMember(patch, e);
      DeepMergedAt(target, patch, e.key);
      DeepMergedAt(merged, patch, e.key);
      MergedTwiceAt(target, patch, e, merged);
    }
    if IsAligned(target, patch) {
      MergedStill(merged, patch);
    }
  }

  lemma {:induction false} MergedTwiceAt(target: seq<Entry>, patch: seq<Entry>, e: Entry, merged: seq<Entry>)
    requires IsDict(patch) && e in patch && Get(merged, e.key) == Get(DeepMergedOne(target, e), e.key)
    ensures DeepMergedOne(merged, e) == merged <==> IsAlignedAt(target, e)
    ensures Get(DeepMergedOne(merged, e), e.key) == Get(merged, e.key) <==> IsAlignedAt(target, e)
    decreases patch, 0
  {
    if e.value.Null? {
      PopAbsent(merged, e.key);
    } else if e.value.Table? {
      InnerDict(patch, e);
      if HasTable(target, e.key) {
        MergedTwice(Inner(target, e.key), e.value.entries);
      } else {
        MergedIntoItself(e.value.entries);
      }
      if IsAlignedAt(target, e) {
        PutSame(merged, e.key, Get(merged, e.key).value);
      }
    } else {
      PutSame(merged, e.key, e.value);
    }
  }

  lemma {:induction false} NullFreeIsAligned(target: seq<Entry>, patch: seq<Entry>)
    requires IsNullFree(patch)
    ensures IsAligned(target, patch)
    decreases patch
  {
    forall e | e in patch ensures IsAlignedAt(target, e) {
      if e.value.Table? && HasTable(target, e.key) {
        NullFreeIsAligned(Inner(target, e.key), e.value.entries);
      }
    }
  }

  /** A null below a table that the target lacks: the merge keeps it where RFC 7396 drops it, and
      merging the same patch again drops it after all. */
  lemma NestedNullIsKept()
    ensures var patch := [Entry("a", Table([Entry("b", Null)]))];
      && Table(DeepMerged([], patch)) != Patched(Table([]), Table(patch))
      && DeepMerged(DeepMerged([], patch), patch) != DeepMerged([], patch)
  {
    var sub := [Entry("b", Null)];
    var e := Entry("a", Table(sub));
    assert Entry("b", Null) in sub && !IsNullFree(sub);
    assert e in [e] && !IsAlignedAt([], e);
    MergeMeaning([], [e]);
    MergedTwice([], [e]);
  }

  /* ---------- the network update ---------- */

  const NETWORK_KEYS :=
    {"dns_servers", "dns_search_domains", "default_gateway", "interfaces", "dnsmasq", "ntp", "firewall"}

  predicate IsNetworkPatch(payload: Value) {
    payload.Table? && forall e :: e in payload.entries ==> e.key in NETWORK_KEYS
  }

  /** Merges a payload into the network table, which is made if it is missing.  A network that is
      no table only takes an empty payload. */
  method PatchNetwork(config: seq<Entry>, payload: Value) returns (r: Option<seq<Entry>>)
    requires payload.Table? ==> IsDict(payload.entries)
    ensures r.Some? <==>
              && IsNetworkPatch(payload)
              && (Get(config, "network").None? || HasTable(config, "network") || payload.entries == [])
    ensures r.Some? ==> forall k :: k != "network" ==> Get(r.value, k) == Get(config, k)
    ensures r.Some? && (Get(config, "network").None? || HasTable(config, "network")) ==>
              var network := if HasTable(config, "network") then Inner(config, "network") else [];
              && Get(r.value, "network") == Some(Table(DeepMerged(network, payload.entries)))
              && (Get(r.value, "network") == Some(Patched(Current(config, "network"), payload)) <==>
                  IsAligned(network, payload.entries))
    ensures r.Some? && Get(config, "network").Some? && !HasTable(config, "network") ==> r.value == config
  {
    if !payload.Table? {
      return None;
    }
    for i := 0 to |payload.entries|
      invariant forall j :: 0 <= j < i ==> payload.entries[j].key in NETWORK_KEYS
    {
      if payload.entries[i].key !in NETWORK_KEYS {
        assert payload.entries[i] in payload.entries;
        return None;
      }
    }
    var updated := config;
    if Get(updated, "network").None? {
      updated := Put(updated, "network", Table([]));
    }
    if !HasTable(updated, "network") {
      return if payload.entries == [] then Some(updated) else None;
    }
    var network := Inner(updated, "network");
    MergeMeaning(network, payload.entries);
    var merged := DeepMerge(network, payload.entries);
    return Some(Put(updated, "network", Table(merged)));
  }
}
