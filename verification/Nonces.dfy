/** Short-lived nonces of the signature check: each is accepted once, before it expires. */
module Nonces {
  import opened Numbers
  import opened Runs

  type Nonce = string

  const MAX_OUTSTANDING_NONCES_PER_CLIENT := 16

  datatype Issued = Issued(at: int, client: string)

  function HeldBy(nonces: map<Nonce, Issued>, client: string): set<Nonce> {
    set n | n in nonces && nonces[n].client == client
  }

  function Live(nonces: map<Nonce, Issued>, ttl: int, now: int): map<Nonce, Issued> {
    map n | n in nonces && now - nonces[n].at < ttl :: nonces[n]
  }

  lemma LiveMeans(nonces: map<Nonce, Issued>, ttl: int, now: int, n: Nonce)
    ensures n in Live(nonces, ttl, now) <==> n in nonces && now - nonces[n].at < ttl
    ensures n in Live(nonces, ttl, now) ==> Live(nonces, ttl, now)[n] == nonces[n]
  {
  }

  function PerClientLimit(maxOutstanding: nat): nat {
    Max(1, Min(MAX_OUTSTANDING_NONCES_PER_CLIENT, maxOutstanding))
  }

  /** Only the oldest of `pool` have gone, and no more of them than it takes to get below
      `limit`. */
  ghost predicate IsEvicted(before: map<Nonce, Issued>, after: map<Nonce, Issued>, pool: set<Nonce>, limit: nat) {
    && after.Keys <= before.Keys && (forall n :: n in after ==> after[n] == before[n])
    && before.Keys - after.Keys <= pool
    && (forall gone, kept :: gone in before && gone !in after && kept in pool && kept in after ==>
        before[gone].at <= before[kept].at)
    && |pool * after.Keys| < limit
    && (after == before || |pool * after.Keys| == limit - 1)
  }

  /** A client's oldest nonces have made room first, then the oldest of all. */
  ghost predicate IsMadeRoom(live: map<Nonce, Issued>, mine: map<Nonce, Issued>, kept: map<Nonce, Issued>,
                             client: string, maxOutstanding: nat) {
    && IsEvicted(live, mine, HeldBy(live, client), PerClientLimit(maxOutstanding))
    && IsEvicted(mine, kept, mine.Keys, maxOutstanding)
  }

  ghost predicate IsEvicting(before: map<Nonce, Issued>, nonces: map<Nonce, Issued>, pool: set<Nonce>,
                             left: set<Nonce>) {
    && left <= pool <= before.Keys && left == pool * nonces.Keys && nonces.Keys == before.Keys - (pool - left)
    && (forall n :: n in nonces ==> nonces[n] == before[n])
    && (forall gone, kept :: gone in pool && gone !in left && kept in left ==> before[gone].at <= before[kept].at)
  }

  lemma EvictOne(before: map<Nonce, Issued>, nonces: map<Nonce, Issued>, pool: set<Nonce>, left: set<Nonce>,
                 oldest: Nonce)
    requires IsEvicting(before, nonces, pool, left) && oldest in left
    requires forall n :: n in left ==> before[oldest].at <= before[n].at
    ensures IsEvicting(before, nonces - {oldest}, pool, left - {oldest})
  {
  }

  lemma SpendOne(nonces: map<Nonce, Issued>, history: map<Nonce, Issued>, accepted: set<Nonce>, clock: int,
                 nonce: Nonce, maxOutstanding: nat)
    requires IsLimited(nonces, maxOutstanding) && IsRecorded(nonces, history, accepted, clock) && nonce in nonces
    ensures IsLimited(nonces - {nonce}, maxOutstanding)
    ensures IsRecorded(nonces - {nonce}, history, accepted, clock)
    ensures IsRecorded(nonces - {nonce}, history, accepted + {nonce}, clock)
  {
    Shrinks(nonces, nonces - {nonce});
  }

  ghost predicate IsLimited(nonces: map<Nonce, Issued>, maxOutstanding: nat) {
    && |nonces| <= maxOutstanding
    && forall client :: |HeldBy(nonces, client)| <= PerClientLimit(maxOutstanding)
  }

  /** What is outstanding was issued so, not after the clock, and has not been accepted. */
  ghost predicate IsRecorded(nonces: map<Nonce, Issued>, history: map<Nonce, Issued>, accepted: set<Nonce>,
                             clock: int) {
    && (forall n :: n in nonces ==> n in history && history[n] == nonces[n] && n !in accepted && nonces[n].at <= clock)
    && accepted <= history.Keys
  }

  lemma RecordOne(nonces: map<Nonce, Issued>, history: map<Nonce, Issued>, accepted: set<Nonce>, clock: int,
                  nonce: Nonce, issued: Issued)
    requires IsRecorded(nonces, history, accepted, clock) && nonce !in history && clock <= issued.at
    ensures IsRecorded(nonces[nonce := issued], history[nonce := issued], accepted, issued.at)
  {
  }

  class NonceStore {
    const ttl: int
    const maxOutstanding: nat
    var nonces: map<Nonce, Issued>
    ghost var history: map<Nonce, Issued>   // every nonce ever issued
    ghost var accepted: set<Nonce>
    ghost var clock: int

    ghost predicate Valid()
      reads this
    {
      1 <= maxOutstanding && IsLimited(nonces, maxOutstanding) && IsRecorded(nonces, history, accepted, clock)
    }

    constructor (ttl: int, maxOutstanding: int)
      ensures Valid() && nonces == map[] && history == map[] && this.ttl == ttl
      ensures this.maxOutstanding == if maxOutstanding < 1 then 1 else maxOutstanding
    {
      this.ttl := ttl;
      this.maxOutstanding := if maxOutstanding < 1 then 1 else maxOutstanding;
      nonces, history, accepted := map[], map[], {};
      clock := 0;
    }

    /** Issues a nonce that has never been issued before. */
    method Issue(nonce: Nonce, client: string, now: int)
      requires Valid() && nonce !in history && clock <= now
      modifies this
      ensures Valid() && clock == now
      ensures history == old(history)[nonce := Issued(now, client)] && accepted == old(accepted)
      ensures exists mine, kept ::
                && IsMadeRoom(Live(old(nonces), ttl, now), mine, kept, client, maxOutstanding)
                && nonces == kept[nonce := Issued(now, client)]
      ensures forall n :: n in nonces && n != nonce ==>
                n in old(nonces) && nonces[n] == old(nonces)[n] && now - nonces[n].at < ttl
      ensures nonce in nonces && |nonces| <= maxOutstanding
      ensures |(set n | n in nonces && nonces[n].client == client)| <= 16
    {
      ghost var mine := MakeRoom(client, now);
      ghost var kept := nonces;
      assert IsMadeRoom(Live(old(nonces), ttl, now), mine, kept, client, maxOutstanding);
      WithinLimits(Live(old(nonces), ttl, now), mine, kept, nonce, client, maxOutstanding, now);
      RecordOne(nonces, history, accepted, clock, nonce, Issued(now, client));
      nonces := nonces[nonce := Issued(now, client)];
      history := history[nonce := Issued(now, client)];
      clock := now;
      HeldMeans(nonces, client, maxOutstanding);
    }

    method MakeRoom(client: string, now: int) returns (ghost mine: map<Nonce, Issued>)
      requires Valid()
      modifies this`nonces
      ensures Valid() && IsMadeRoom(Live(old(nonces), ttl, now), mine, nonces, client, maxOutstanding)
    {
      Prune(now);
      EvictClientOverLimit(client);
      mine := nonces;
      EvictOverLimit();
    }

    /** Accepts a nonce at most once, and only before its time to live is over.  The clock may
        have moved on since expired nonces were pruned. */
    method Consume(nonce: Nonce, pruned: int, now: int) returns (ok: bool)
      requires Valid() && clock <= pruned <= now
      modifies this
      ensures Valid() && clock == now && history == old(history)
      ensures nonces == Live(old(nonces), ttl, pruned) - {nonce}
      ensures ok <==> nonce in old(nonces) && now - old(nonces)[nonce].at < ttl
      ensures ok ==> nonce in history && now - history[nonce].at < ttl && nonce !in old(accepted)
      ensures accepted == if ok then old(accepted) + {nonce} else old(accepted)
    {
      clock := now;
      Prune(pruned);
      LiveMeans(old(nonces), ttl, pruned, nonce);
      if nonce !in nonces {
        assert nonces == nonces - {nonce};
        return false;
      }
      var issued := nonces[nonce];
      SpendOne(nonces, history, accepted, clock, nonce, maxOutstanding);
      nonces := nonces - {nonce};
      ok := now - issued.at < ttl;
      if ok {
        accepted := accepted + {nonce};
      }
    }

    method Prune(now: int)
      requires Valid()
      modifies this`nonces
      ensures Valid() && nonces == Live(old(nonces), ttl, now)
    {
      var expired := set n | n in nonces && now - nonces[n].at >= ttl;
      ghost var before := nonces;
      while expired != {}
        invariant expired <= nonces.Keys && nonces.Keys <= before.Keys
        invariant forall n :: n in expired ==> now - before[n].at >= ttl
        invariant forall n :: n in nonces ==> nonces[n] == before[n]
        invariant forall n :: n in before ==> (n in nonces <==> n in expired || now - before[n].at < ttl)
        decreases |expired|
      {
        var n: Nonce :| n in expired;
        nonces := nonces - {n};
        expired := expired - {n};
      }
      assert nonces == Live(before, ttl, now);
      Shrinks(before, nonces);
    }

    method EvictClientOverLimit(client: string)
      requires Valid()
      modifies this`nonces
      ensures Valid() && IsEvicted(old(nonces), nonces, HeldBy(old(nonces), client), PerClientLimit(maxOutstanding))
    {
      EvictOldest(HeldBy(nonces, client), PerClientLimit(maxOutstanding));
      Shrinks(old(nonces), nonces);
    }

    method EvictOverLimit()
      requires Valid()
      modifies this`nonces
      ensures Valid() && IsEvicted(old(nonces), nonces, old(nonces).Keys, maxOutstanding)
    {
      EvictOldest(nonces.Keys, maxOutstanding);
      Shrinks(old(nonces), nonces);
    }

    /** Evicts the oldest of `pool` until fewer than `limit` are left. */
    method EvictOldest(pool: set<Nonce>, limit: nat)
      requires pool <= nonces.Keys && 1 <= limit
      modifies this`nonces
      ensures IsEvicted(old(nonces), nonces, pool, limit)
    {
      ghost var before := nonces;
      var left := pool;
      while |left| >= limit
        invariant IsEvicting(before, nonces, pool, left) && (nonces == before || |left| >= limit - 1)
        decreases |left|
      {
        var oldest := OldestOf(left);
        EvictOne(before, nonces, pool, left, oldest);
        nonces := nonces - {oldest};
        left := left - {oldest};
      }
    }

    method OldestOf(pool: set<Nonce>) returns (oldest: Nonce)
      requires pool != {} && pool <= nonces.Keys
      ensures oldest in pool && forall n :: n in pool ==> nonces[oldest].at <= nonces[n].at
    {
      oldest :| oldest in pool;
      var todo := pool;
      while todo != {}
        invariant todo <= pool && oldest in pool
        invariant forall n :: n in pool - todo ==> nonces[oldest].at <= nonces[n].at
        decreases |todo|
      {
        var n: Nonce :| n in todo;
        if nonces[n].at < nonces[oldest].at {
          oldest := n;
        }
        todo := todo - {n};
      }
    }
  }

  /* ---------- counting ---------- */

  /** While fewer than 16 nonces of the client and fewer than the store's limit are outstanding, no
      nonce goes before its time to live is over. */
  lemma EnoughRoom(before: map<Nonce, Issued>, mine: map<Nonce, Issued>, kept: map<Nonce, Issued>, client: string,
                   maxOutstanding: nat, ttl: int, now: int)
    requires 1 <= maxOutstanding && IsMadeRoom(Live(before, ttl, now), mine, kept, client, maxOutstanding)
    requires |before| < maxOutstanding && |set n | n in before && before[n].client == client| < 16
    ensures forall n :: n in kept <==> n in before && now - before[n].at < ttl
  {
    var live := Live(before, ttl, now);
    Subset(HeldBy(live, client), set n | n in before && before[n].client == client);
    Subset(HeldBy(live, client), before.Keys);
    Subset(live.Keys, before.Keys);
    NotEvicted(live, mine, HeldBy(live, client), PerClientLimit(maxOutstanding));
    NotEvicted(mine, kept, mine.Keys, maxOutstanding);
  }

  lemma NotEvicted(before: map<Nonce, Issued>, after: map<Nonce, Issued>, pool: set<Nonce>, limit: nat)
    requires IsEvicted(before, after, pool, limit) && pool <= before.Keys && |pool| < limit
    ensures after == before
  {
    var lost := pool - after.Keys;
    assert pool == pool * after.Keys + lost && lost == before.Keys - after.Keys;
    assert lost == {} ==> after.Keys == before.Keys;
    assert |pool| == |pool * after.Keys| + |lost|;
  }

  lemma HeldMeans(nonces: map<Nonce, Issued>, client: string, maxOutstanding: nat)
    requires IsLimited(nonces, maxOutstanding)
    ensures |set n | n in nonces && nonces[n].client == client| <= 16
  {
    assert (set n | n in nonces && nonces[n].client == client) == HeldBy(nonces, client);
  }

  lemma Shrinks(before: map<Nonce, Issued>, after: map<Nonce, Issued>)
    requires after.Keys <= before.Keys && forall n :: n in after ==> after[n] == before[n]
    ensures |after| <= |before| && forall client :: |HeldBy(after, client)| <= |HeldBy(before, client)|
  {
    Subset(after.Keys, before.Keys);
    forall client ensures |HeldBy(after, client)| <= |HeldBy(before, client)| {
      Subset(HeldBy(after, client), HeldBy(before, client));
    }
  }

  lemma OneMore(nonces: map<Nonce, Issued>, nonce: Nonce, issued: Issued)
    requires nonce !in nonces
    ensures |nonces[nonce := issued]| == |nonces| + 1
    ensures |HeldBy(nonces[nonce := issued], issued.client)| == |HeldBy(nonces, issued.client)| + 1
    ensures forall c :: c != issued.client ==> HeldBy(nonces[nonce := issued], c) == HeldBy(nonces, c)
  {
    var more := nonces[nonce := issued];
    assert more.Keys == nonces.Keys + {nonce};
    assert HeldBy(more, issued.client) == HeldBy(nonces, issued.client) + {nonce};
  }

  lemma FewerHeld(live: map<Nonce, Issued>, mine: map<Nonce, Issued>, client: string, limit: nat)
    requires IsEvicted(live, mine, HeldBy(live, client), limit)
    ensures |HeldBy(mine, client)| < limit
  {
    assert HeldBy(mine, client) == HeldBy(live, client) * mine.Keys;
  }

  /** After both evictions there is room for one more nonce of the client. */
  lemma WithinLimits(live: map<Nonce, Issued>, mine: map<Nonce, Issued>, kept: map<Nonce, Issued>, nonce: Nonce,
                     client: string,
                     maxOutstanding: nat, now: int)
    requires 1 <= maxOutstanding && nonce !in kept
    requires forall c :: |HeldBy(kept, c)| <= PerClientLimit(maxOutstanding)
    requires IsMadeRoom(live, mine, kept, client, maxOutstanding)
    ensures IsLimited(kept[nonce := Issued(now, client)], maxOutstanding)
  {
    OneMore(kept, nonce, Issued(now, client));
    assert mine.Keys * kept.Keys == kept.Keys;
    FewerHeld(live, mine, client, PerClientLimit(maxOutstanding));
    Shrinks(mine, kept);
    var nonces := kept[nonce := Issued(now, client)];
    forall c ensures |HeldBy(nonces, c)| <= PerClientLimit(maxOutstanding) {
      assert |HeldBy(kept, c)| <= |HeldBy(mine, c)|;
    }
  }
}
