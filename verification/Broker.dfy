/**
  The Cursor chat snapshot broker (sidecar/cursor_chat.py): a bounded LRU/TTL cache whose
  entries are pinned by nested scan generations, with single-flight loads under a byte budget.
  Each method is one section the source runs while it holds the broker lock.
*/
module Broker {
  import opened Common
  import opened StableRead

  datatype Key = Key(path: string, signature: Signature)

  /** A decoded chat as one Python object: `load` tells two equal decodes apart. */
  datatype Decoded<V> = Decoded(value: V, load: nat)

  datatype Entry<V> = Entry(key: Key, state: Decoded<V>, expiresAt: real, generation: nat, weight: nat)

  datatype Config = Config(
    maxEntries: nat, hardMaxEntries: nat, maxCacheBytes: nat, hardMaxCacheBytes: nat,
    maxEntryBytes: nat, ttl: real, maxInFlight: nat, maxSourceBytes: nat)
  {
    /** What the constructor of the source accepts. */
    predicate Valid() {
      && 0 < maxEntries <= hardMaxEntries
      && 0 < maxCacheBytes <= hardMaxCacheBytes
      && 0 < maxEntryBytes <= hardMaxCacheBytes
      && 0.0 < ttl && 0 < maxInFlight && 0 < maxSourceBytes
    }

    function Reservation(): nat {
      Min(MAX_DB_BYTES + MAX_WAL_BYTES, maxSourceBytes)
    }
  }

  // ---------- the ordered dictionary, oldest entry first ----------

  function Weight<V>(s: seq<Entry<V>>): nat {
    if s == [] then 0 else s[0].weight + Weight(s[1..])
  }

  ghost predicate Distinct<V>(s: seq<Entry<V>>) {
    forall i, j | 0 <= i < j < |s| :: s[i].key != s[j].key
  }

  predicate Contains<V>(s: seq<Entry<V>>, k: Key) {
    exists i | 0 <= i < |s| :: s[i].key == k
  }

  function Without<V>(s: seq<Entry<V>>, k: Key): seq<Entry<V>> {
    if s == [] then [] else if s[0].key == k then s[1..] else [s[0]] + Without(s[1..], k)
  }

  /** The entries that survive an expiry pass: those not yet due and those the open scan pins. */
  function Surviving<V>(s: seq<Entry<V>>, now: real, depth: nat, generation: nat): seq<Entry<V>> {
    if s == [] then []
    else if s[0].expiresAt <= now && !Pinned(s[0], depth, generation) then Surviving(s[1..], now, depth, generation)
    else [s[0]] + Surviving(s[1..], now, depth, generation)
  }

  predicate Pinned<V>(e: Entry<V>, depth: nat, generation: nat) {
    depth > 0 && e.generation == generation
  }

  /** `s` without its first `n` unpinned entries. */
  function DropUnpinned<V>(s: seq<Entry<V>>, n: nat, depth: nat, generation: nat): seq<Entry<V>> {
    if n == 0 || s == [] then s
    else if Pinned(s[0], depth, generation) then [s[0]] + DropUnpinned(s[1..], n, depth, generation)
    else DropUnpinned(s[1..], n - 1, depth, generation)
  }

  predicate AllPinned<V>(s: seq<Entry<V>>, depth: nat, generation: nat) {
    forall i | 0 <= i < |s| :: Pinned(s[i], depth, generation)
  }

  predicate Over<V>(s: seq<Entry<V>>, maxEntries: nat, maxBytes: nat) {
    |s| > maxEntries || Weight(s) > maxBytes
  }

  ghost predicate Subset<V>(s: seq<Entry<V>>, t: seq<Entry<V>>) {
    forall i | 0 <= i < |s| :: s[i] in t
  }

  lemma {:induction false} WeightAppend<V>(a: seq<Entry<V>>, b: seq<Entry<V>>)
    ensures Weight(a + b) == Weight(a) + Weight(b)
  {
    if a == [] {
      assert a + b == b;
    } else {
      assert (a + b)[1..] == a[1..] + b;
      WeightAppend(a[1..], b);
    }
  }

  lemma SuffixWeight<V>(s: seq<Entry<V>>, n: nat)
    requires n <= |s|
    ensures Weight(s[n..]) <= Weight(s)
  {
    assert s == s[..n] + s[n..];
    WeightAppend(s[..n], s[n..]);
  }

  lemma SuffixFacts<V>(s: seq<Entry<V>>, n: nat, k: Key)
    requires n <= |s| && !Contains(s, k)
    ensures Subset(s[n..], s) && !Contains(s[n..], k)
  {
    assert forall i | 0 <= i < |s| - n :: s[n..][i] == s[n + i];
  }

  lemma {:induction false} WithoutAt<V>(s: seq<Entry<V>>, i: nat)
    requires i < |s| && Distinct(s)
    ensures Without(s, s[i].key) == s[..i] + s[i + 1..]
    ensures Weight(Without(s, s[i].key)) == Weight(s) - s[i].weight
  {
    if i > 0 {
      WithoutAt(s[1..], i - 1);
      assert s[..i] + s[i + 1..] == [s[0]] + (s[1..][..i - 1] + s[1..][i..]);
    }
  }

  lemma {:induction false} WithoutAbsent<V>(s: seq<Entry<V>>, k: Key)
    requires !Contains(s, k)
    ensures Without(s, k) == s
  {
    if s != [] {
      assert s[0].key != k;
      forall i | 0 <= i < |s[1..]| ensures s[1..][i].key != k { assert s[i + 1].key != k; }
      WithoutAbsent(s[1..], k);
    }
  }

  lemma WithoutFacts<V>(s: seq<Entry<V>>, k: Key)
    requires Distinct(s)
    ensures Distinct(Without(s, k)) && !Contains(Without(s, k), k)
    ensures Subset(Without(s, k), s) && |Without(s, k)| <= |s| && Weight(Without(s, k)) <= Weight(s)
    ensures Contains(s, k) ==> |Without(s, k)| == |s| - 1
  {
    if Contains(s, k) {
      var i :| 0 <= i < |s| && s[i].key == k;
      WithoutAt(s, i);
      RemovedAt(s, i, Without(s, k));
    } else {
      WithoutAbsent(s, k);
    }
  }

  lemma RemovedAt<V>(s: seq<Entry<V>>, i: nat, r: seq<Entry<V>>)
    requires Distinct(s) && i < |s| && r == s[..i] + s[i + 1..]
    ensures Distinct(r) && !Contains(r, s[i].key) && Subset(r, s)
  {
    assert forall j | 0 <= j < |r| :: r[j] == s[if j < i then j else j + 1];
  }

  lemma {:induction false} SurvivingSnoc<V>(s: seq<Entry<V>>, e: Entry<V>, now: real, depth: nat, generation: nat)
    ensures Surviving(s + [e], now, depth, generation) ==
              Surviving(s, now, depth, generation) + Surviving([e], now, depth, generation)
  {
    if s == [] {
      assert s + [e] == [e];
    } else {
      assert (s + [e])[1..] == s[1..] + [e];
      SurvivingSnoc(s[1..], e, now, depth, generation);
    }
  }

  lemma ExpireStep<V>(all: seq<Entry<V>>, i: nat, now: real, depth: nat, generation: nat, cur: seq<Entry<V>>)
    requires i < |all| && cur == Surviving(all[..i], now, depth, generation) + all[i..]
    requires Distinct(cur)
    ensures Surviving(all[..i + 1], now, depth, generation) + all[i + 1..] ==
              if all[i].expiresAt <= now && !Pinned(all[i], depth, generation) then Without(cur, all[i].key) else cur
  {
    assert all[..i + 1] == all[..i] + [all[i]];
    SurvivingSnoc(all[..i], all[i], now, depth, generation);
    WithoutFirst(Surviving(all[..i], now, depth, generation), all, i, cur);
  }

  lemma WithoutFirst<V>(kept: seq<Entry<V>>, all: seq<Entry<V>>, i: nat, cur: seq<Entry<V>>)
    requires i < |all| && cur == kept + all[i..] && Distinct(cur)
    ensures Without(cur, all[i].key) == kept + all[i + 1..] && cur == kept + [all[i]] + all[i + 1..]
  {
    var n := |kept|;
    assert cur[n] == all[i];
    WithoutAt(cur, n);
    assert cur[..n] == kept && cur[n + 1..] == all[i + 1..];
  }

  lemma {:induction false} SurvivingFacts<V>(s: seq<Entry<V>>, now: real, depth: nat, generation: nat)
    ensures var r := Surviving(s, now, depth, generation);
            && Subset(r, s) && |r| <= |s| && Weight(r) <= Weight(s) && (Distinct(s) ==> Distinct(r))
  {
    if s != [] {
      SurvivingFacts(s[1..], now, depth, generation);
      var t, r := Surviving(s[1..], now, depth, generation), Surviving(s, now, depth, generation);
      assert forall i | 0 <= i < |t| :: t[i] in s[1..];
      assert s == [s[0]] + s[1..];
      if Distinct(s) {
        forall i | 0 <= i < |t| ensures t[i].key != s[0].key {
          var j :| 0 <= j < |s[1..]| && s[1..][j] == t[i];
          assert s[j + 1].key != s[0].key;
        }
      }
    }
  }

  /** `r` is `s` with some entries left out, the rest in order. */
  ghost predicate InOrderOf<V>(r: seq<Entry<V>>, s: seq<Entry<V>>) {
    if r == [] then true
    else s != [] && ((r[0] == s[0] && InOrderOf(r[1..], s[1..])) || InOrderOf(r, s[1..]))
  }

  /** What expiry at `now` makes of `s`: it drops exactly the entries that are due and do not belong to the
      generation of an open scan, and keeps the others in order. */
  ghost predicate Expires<V>(s: seq<Entry<V>>, r: seq<Entry<V>>, now: real, depth: nat, generation: nat) {
    && InOrderOf(r, s)
    && (forall i | 0 <= i < |r| :: r[i] in s && (r[i].expiresAt > now || (depth > 0 && r[i].generation == generation)))
    && (forall i | 0 <= i < |s| && (s[i].expiresAt > now || (depth > 0 && s[i].generation == generation)) :: s[i] in r)
  }

  lemma {:induction false} SurvivingExpires<V>(s: seq<Entry<V>>, now: real, depth: nat, generation: nat)
    ensures Expires(s, Surviving(s, now, depth, generation), now, depth, generation)
  {
    if s != [] {
      SurvivingExpires(s[1..], now, depth, generation);
      var r, t := Surviving(s, now, depth, generation), Surviving(s[1..], now, depth, generation);
      assert s == [s[0]] + s[1..];
      assert r == [s[0]] + t ==> r[1..] == t;
      assert InOrderOf(r, s);
    }
  }

  /** The key has an entry that is not due or belongs to the generation of an open scan. */
  ghost predicate Fresh<V>(s: seq<Entry<V>>, now: real, depth: nat, generation: nat, key: Key) {
    exists i | 0 <= i < |s| ::
      s[i].key == key && (s[i].expiresAt > now || (depth > 0 && s[i].generation == generation))
  }

  /** Exactly then it is still there after expiry. */
  lemma FreshMeansContained<V>(s: seq<Entry<V>>, now: real, depth: nat, generation: nat, key: Key)
    ensures Contains(Surviving(s, now, depth, generation), key) <==> Fresh(s, now, depth, generation, key)
  {
    SurvivingExpires(s, now, depth, generation);
    var r := Surviving(s, now, depth, generation);
    if Contains(r, key) {
      var i :| 0 <= i < |r| && r[i].key == key;
      var j :| 0 <= j < |s| && s[j] == r[i];
    }
  }

  /** Eviction never takes an entry of the generation of an open scan, and keeps the order. */
  lemma {:induction false} DropUnpinnedSpares<V>(s: seq<Entry<V>>, n: nat, depth: nat, generation: nat)
    ensures var r := DropUnpinned(s, n, depth, generation);
            InOrderOf(r, s) && forall e | e in s && depth > 0 && e.generation == generation :: e in r
  {
    if n == 0 || s == [] {
      Itself(s);
    } else {
      assert s == [s[0]] + s[1..];
      var r := DropUnpinned(s, n, depth, generation);
      if Pinned(s[0], depth, generation) {
        DropUnpinnedSpares(s[1..], n, depth, generation);
        assert r[1..] == DropUnpinned(s[1..], n, depth, generation);
      } else {
        DropUnpinnedSpares(s[1..], n - 1, depth, generation);
      }
      assert InOrderOf(r, s);
    }
  }

  /** Nothing newer than an evictable entry that stays is evicted. */
  ghost predicate OldestFirst<V>(before: seq<Entry<V>>, after: seq<Entry<V>>, depth: nat, generation: nat) {
    forall i, j | 0 <= i < j < |before| && before[i] in after && !(depth > 0 && before[i].generation == generation) ::
      before[j] in after
  }

  lemma {:induction false} DropUnpinnedOldest<V>(s: seq<Entry<V>>, n: nat, depth: nat, generation: nat)
    requires Distinct(s)
    ensures OldestFirst(s, DropUnpinned(s, n, depth, generation), depth, generation)
    ensures Subset(DropUnpinned(s, n, depth, generation), s)
  {
    if n > 0 && s != [] {
      var m := if Pinned(s[0], depth, generation) then n else n - 1;
      var rest, r := DropUnpinned(s[1..], m, depth, generation), DropUnpinned(s, n, depth, generation);
      DropUnpinnedOldest(s[1..], m, depth, generation);
      forall i, j | 0 <= i < j < |s| && s[i] in r && !(depth > 0 && s[i].generation == generation) ensures s[j] in r {
        if s[i] in rest {
          var k :| 0 <= k < |rest| && rest[k] == s[i];
          assert rest[k] in s[1..];
        }
        assert i > 0 ==> s[i] == s[1..][i - 1] && s[i].key != s[0].key;
        assert s[j] == s[1..][j - 1];
      }
    }
  }

  lemma {:induction false} Itself<V>(s: seq<Entry<V>>)
    ensures InOrderOf(s, s)
  {
    if s != [] {
      Itself(s[1..]);
    }
  }

  /** Dropping one more unpinned entry continues the same eviction. */
  lemma {:induction false} DropUnpinnedMore<V>(s: seq<Entry<V>>, n: nat, depth: nat, generation: nat)
    ensures DropUnpinned(DropUnpinned(s, n, depth, generation), 1, depth, generation) ==
              DropUnpinned(s, n + 1, depth, generation)
  {
    if n > 0 && s != [] {
      if Pinned(s[0], depth, generation) {
        DropUnpinnedMore(s[1..], n, depth, generation);
        var t := DropUnpinned(s[1..], n, depth, generation);
        assert ([s[0]] + t)[1..] == t;
      } else {
        DropUnpinnedMore(s[1..], n - 1, depth, generation);
      }
    }
  }

  lemma {:induction false} DropFirstUnpinned<V>(s: seq<Entry<V>>, i: nat, depth: nat, generation: nat)
    requires i < |s| && AllPinned(s[..i], depth, generation) && !Pinned(s[i], depth, generation)
    ensures DropUnpinned(s, 1, depth, generation) == s[..i] + s[i + 1..]
  {
    if i > 0 {
      assert Pinned(s[..i][0], depth, generation);
      var p := s[1..][..i - 1];
      forall j | 0 <= j < |p| ensures Pinned(p[j], depth, generation) {
        assert p[j] == s[..i][j + 1];
      }
      DropFirstUnpinned(s[1..], i - 1, depth, generation);
      assert s[..i] + s[i + 1..] == [s[0]] + (s[1..][..i - 1] + s[1..][i..]);
    } else {
      assert DropUnpinned(s[1..], 0, depth, generation) == s[1..];
    }
  }

  /** While no scan is open nothing is pinned, and the eviction is the plain oldest-first one. */
  lemma {:induction false} DropUnpinnedIsDrop<V>(s: seq<Entry<V>>, n: nat, generation: nat)
    ensures DropUnpinned(s, n, 0, generation) == s[Min(n, |s|)..]
  {
    if n > 0 && s != [] {
      DropUnpinnedIsDrop(s[1..], n - 1, generation);
    }
  }

  lemma AddsOne<V>(before: seq<Entry<V>>, base: seq<Entry<V>>, e: Entry<V>, after: seq<Entry<V>>)
    requires Subset(base, before) && Subset(after, base + [e])
    ensures AddsAtMost(before, after, e.key)
  {
    assert forall i | 0 <= i < |after| :: after[i] in base || after[i] == e;
  }

  lemma OnlyNewest<V>(s: seq<Entry<V>>, e: Entry<V>, r: seq<Entry<V>>)
    requires !Contains(s, e.key) && Subset(r, s + [e])
    ensures Contains(r, e.key) <==> e in r
  {
    assert forall i | 0 <= i < |r| :: r[i] in s || r[i] == e;
  }

  /** Oldest first, the last entry goes only if it is too heavy alone. */
  lemma LastOneLasts<V>(cfg: Config, rest: seq<Entry<V>>, e: Entry<V>, n: nat, r: seq<Entry<V>>)
    requires cfg.Valid() && r == (rest + [e])[Min(n, |rest| + 1)..]
    requires Over(r, cfg.maxEntries, cfg.maxCacheBytes) ==> r == []
    requires n > 0 ==> Over((rest + [e])[Min(n - 1, |rest| + 1)..], cfg.maxEntries, cfg.maxCacheBytes)
    ensures e in r <==> e.weight <= cfg.maxCacheBytes
  {
    assert Weight([e]) == e.weight by { assert [e][1..] == []; }
    if n <= |rest| {
      assert r == rest[n..] + [e];
      WeightAppend(rest[n..], [e]);
    } else {
      assert n == |rest| + 1 ==> (rest + [e])[|rest|..] == [e];
    }
  }

  /** Each entry holds what decoding its key gives. */
  ghost predicate TruthfulAt<V>(s: seq<Entry<V>>, truth: Key -> Option<V>, generation: nat, maxEntryBytes: nat) {
    forall i | 0 <= i < |s| ::
      truth(s[i].key) == Some(s[i].state.value) && s[i].generation <= generation && s[i].weight <= maxEntryBytes
  }

  /** The cache invariant: an exact byte counter, both hard ceilings always, both soft ceilings unless an
      open scan pins every entry, and truthful entries. */
  ghost predicate CacheOk<V>(cfg: Config, truth: Key -> Option<V>, s: seq<Entry<V>>, bytes: nat, generation: nat,
                             depth: nat) {
    && cfg.Valid()
    && Distinct(s) && bytes == Weight(s)
    && |s| <= cfg.hardMaxEntries && bytes <= cfg.hardMaxCacheBytes
    && (Over(s, cfg.maxEntries, cfg.maxCacheBytes) ==> depth > 0 && AllPinned(s, depth, generation))
    && TruthfulAt(s, truth, generation, cfg.maxEntryBytes)
  }

  /** Entries of other keys were there before. */
  ghost predicate AddsAtMost<V>(before: seq<Entry<V>>, after: seq<Entry<V>>, key: Key) {
    forall i | 0 <= i < |after| :: after[i] in before || after[i].key == key
  }

  /** What expiry leaves keeps the cache invariant, also when it opens a generation or stays in an open one. */
  lemma SurvivorsOk<V>(cfg: Config, truth: Key -> Option<V>, s: seq<Entry<V>>, bytes: nat, generation: nat, depth: nat,
                       generation': nat, depth': nat, now: real)
    requires CacheOk(cfg, truth, s, bytes, generation, depth)
    requires if depth == 0 then generation <= generation' else generation' == generation && depth' > 0
    ensures var r := Surviving(s, now, depth', generation');
            CacheOk(cfg, truth, r, Weight(r), generation', depth')
  {
    SurvivingFacts(s, now, depth', generation');
    var r := Surviving(s, now, depth', generation');
    forall i | 0 <= i < |r|
      ensures truth(r[i].key) == Some(r[i].state.value) && r[i].generation <= generation'
              && r[i].weight <= cfg.maxEntryBytes
      ensures depth > 0 && AllPinned(s, depth, generation) ==> Pinned(r[i], depth', generation')
    {
      var j :| 0 <= j < |s| && s[j] == r[i];
    }
  }

  lemma SubsetKeeps<V>(s: seq<Entry<V>>, all: seq<Entry<V>>, truth: Key -> Option<V>, generation: nat,
                       maxEntryBytes: nat)
    requires Subset(s, all) && TruthfulAt(all, truth, generation, maxEntryBytes)
    ensures TruthfulAt(s, truth, generation, maxEntryBytes)
  {
  }

  /** What was not there before does not come from this load. */
  ghost predicate LeavesNothing<V>(before: seq<Entry<V>>, after: seq<Entry<V>>, load: nat) {
    forall i | 0 <= i < |after| :: after[i] in before || after[i].state.load != load
  }

  predicate Holds<V>(s: seq<Entry<V>>, key: Key, load: nat) {
    exists i | 0 <= i < |s| :: s[i].key == key && s[i].state.load == load
  }

  lemma TakenBack<V>(before: seq<Entry<V>>, mid: seq<Entry<V>>, after: seq<Entry<V>>, key: Key, load: nat)
    requires Distinct(mid) && AddsAtMost(before, mid, key)
    requires after == if Holds(mid, key, load) then Without(mid, key) else mid
    ensures LeavesNothing(before, after, load)
  {
    WithoutFacts(mid, key);
  }

  /** Renewing an entry keeps the cache invariant: nothing gets heavier, and a pinned cache stays pinned. */
  lemma RenewedOk<V>(cfg: Config, truth: Key -> Option<V>, s: seq<Entry<V>>, bytes: nat, generation: nat, depth: nat,
                     i: nat, e: Entry<V>)
    requires CacheOk(cfg, truth, s, bytes, generation, depth) && i < |s|
    requires e == s[i].(expiresAt := e.expiresAt, generation := generation)
    ensures s[..i] + s[i + 1..] == Without(s, e.key)
    ensures CacheOk(cfg, truth, s[..i] + s[i + 1..] + [e], bytes, generation, depth)
  {
    var rest := s[..i] + s[i + 1..];
    WithoutAt(s, i);
    RemovedAt(s, i, rest);
    WeightAppend(rest, [e]);
    NewestIsDistinct(rest, e);
    NewestIsTruthful(rest, s, e, truth, generation, cfg.maxEntryBytes);
    assert AllPinned(s, depth, generation) ==> AllPinned(rest, depth, generation);
  }

  lemma NewestIsTruthful<V>(rest: seq<Entry<V>>, s: seq<Entry<V>>, e: Entry<V>, truth: Key -> Option<V>,
                            generation: nat, maxEntryBytes: nat)
    requires Subset(rest, s) && TruthfulAt(s, truth, generation, maxEntryBytes)
             && TruthfulAt([e], truth, generation, maxEntryBytes)
    ensures TruthfulAt(rest + [e], truth, generation, maxEntryBytes)
  {
    SubsetKeeps(rest, s, truth, generation, maxEntryBytes);
    assert [e][0] == e;
  }

  lemma NewestIsDistinct<V>(s: seq<Entry<V>>, e: Entry<V>)
    requires Distinct(s) && !Contains(s, e.key)
    ensures Distinct(s + [e])
  {
    assert forall j | 0 <= j < |s| :: s[j].key != e.key;
  }

  lemma OnlyOne<V>(s: seq<Entry<V>>, i: nat, key: Key, load: nat)
    requires Distinct(s) && i <= |s| && (i < |s| <==> Contains(s, key)) && (i < |s| ==> s[i].key == key)
    ensures Holds(s, key, load) <==> i < |s| && s[i].state.load == load
  {
  }

  /** A lighter selection of the entries keeps the cache invariant. */
  lemma SubsetOk<V>(cfg: Config, truth: Key -> Option<V>, s: seq<Entry<V>>, bytes: nat, generation: nat, depth: nat,
                    r: seq<Entry<V>>)
    requires CacheOk(cfg, truth, s, bytes, generation, depth)
    requires Subset(r, s) && Distinct(r) && |r| <= |s| && Weight(r) <= Weight(s)
    ensures CacheOk(cfg, truth, r, Weight(r), generation, depth)
  {
    SubsetKeeps(r, s, truth, generation, cfg.maxEntryBytes);
  }

  // ---------- flights ----------

  datatype FlightError = LoadFailed | PublicationFailed

  /** One `_SnapshotFlight` object; `load` is its identity. */
  datatype Flight = Flight(generation: nat, key: Key, sourceBytes: nat, load: nat)

  /** What the event of a settled flight delivers to its followers. */
  datatype Outcome<V> = Delivered(state: Decoded<V>, at: Signature) | Failed(error: FlightError)

  datatype FlightKey = FlightKey(generation: nat, key: Key)

  /** The registered flights once `f` is gone; another flight under the same key stays. */
  function Left(flights: map<FlightKey, Flight>, f: Flight): map<FlightKey, Flight> {
    var k := FlightKey(f.generation, f.key);
    if k in flights && flights[k] == f then flights - {k} else flights
  }

  predicate Registered(flights: map<FlightKey, Flight>, f: Flight) {
    var k := FlightKey(f.generation, f.key);
    k in flights && flights[k] == f
  }

  /** The flights stay within their bounds and hold one reservation each. */
  ghost predicate BudgetOk(cfg: Config, flights: map<FlightKey, Flight>, bytes: nat) {
    |flights| <= cfg.maxInFlight && bytes == Times(|flights|, cfg.Reservation()) <= cfg.maxSourceBytes
  }

  /** Registered flights were issued and are undelivered. */
  ghost predicate RegisteredOk<V>(cfg: Config, flights: map<FlightKey, Flight>, outcomes: map<nat, Outcome<V>>,
                                  issued: seq<Flight>) {
    forall k | k in flights ::
      && flights[k] in issued && k == FlightKey(flights[k].generation, flights[k].key)
      && flights[k].sourceBytes == cfg.Reservation() && flights[k].load !in outcomes
  }

  /** Every issued flight is registered or has been settled. */
  ghost predicate IssuedOk<V>(flights: map<FlightKey, Flight>, outcomes: map<nat, Outcome<V>>, issued: seq<Flight>,
                              generation: nat) {
    forall i | 0 <= i < |issued| ::
      issued[i].load == i && issued[i].generation <= generation && (Registered(flights, issued[i]) || i in outcomes)
  }

  /** What was delivered is what the source read gives. */
  ghost predicate OutcomesOk<V>(truth: Key -> Option<V>, outcomes: map<nat, Outcome<V>>, issued: seq<Flight>) {
    forall n | n in outcomes ::
      && n < |issued|
      && (outcomes[n].Delivered? ==> truth(Key(issued[n].key.path, outcomes[n].at)) == Some(outcomes[n].state.value))
  }

  ghost predicate FlightsOk<V>(cfg: Config, truth: Key -> Option<V>, flights: map<FlightKey, Flight>, bytes: nat,
                               outcomes: map<nat, Outcome<V>>, issued: seq<Flight>, generation: nat)
  {
    && BudgetOk(cfg, flights, bytes) && RegisteredOk(cfg, flights, outcomes, issued)
    && IssuedOk(flights, outcomes, issued, generation) && OutcomesOk(truth, outcomes, issued)
  }

  lemma BudgetGrows(cfg: Config, flights: map<FlightKey, Flight>, bytes: nat, k: FlightKey, f: Flight)
    requires BudgetOk(cfg, flights, bytes) && k !in flights
    requires |flights| < cfg.maxInFlight && bytes + cfg.Reservation() <= cfg.maxSourceBytes
    ensures BudgetOk(cfg, flights[k := f], bytes + cfg.Reservation())
  {
    var n, each := |flights|, cfg.Reservation();
    OneMore(flights, k, f);
    assert Times(n + 1, each) == each + Times(n, each);
  }

  lemma OneMore(flights: map<FlightKey, Flight>, k: FlightKey, f: Flight)
    requires k !in flights
    ensures |flights[k := f]| == |flights| + 1
  {
    assert flights[k := f].Keys == flights.Keys + {k};
  }

  lemma IssuedGrows<V>(flights: map<FlightKey, Flight>, outcomes: map<nat, Outcome<V>>, issued: seq<Flight>,
                       generation: nat, f: Flight)
    requires IssuedOk(flights, outcomes, issued, generation) && f.generation == generation && f.load == |issued|
    requires FlightKey(generation, f.key) !in flights
    ensures IssuedOk(flights[FlightKey(generation, f.key) := f], outcomes, issued + [f], generation)
  {
  }

  lemma LaterGeneration<V>(cfg: Config, truth: Key -> Option<V>, flights: map<FlightKey, Flight>, bytes: nat,
                           outcomes: map<nat, Outcome<V>>, issued: seq<Flight>, generation: nat, later: nat)
    requires FlightsOk(cfg, truth, flights, bytes, outcomes, issued, generation) && generation <= later
    ensures FlightsOk(cfg, truth, flights, bytes, outcomes, issued, later)
  {
  }

  lemma RegisteredGrows<V>(cfg: Config, flights: map<FlightKey, Flight>, outcomes: map<nat, Outcome<V>>,
                           issued: seq<Flight>, f: Flight)
    requires RegisteredOk(cfg, flights, outcomes, issued) && f.sourceBytes == cfg.Reservation() && f.load !in outcomes
    ensures RegisteredOk(cfg, flights[FlightKey(f.generation, f.key) := f], outcomes, issued + [f])
  {
    assert (issued + [f])[|issued|] == f;
  }

  lemma RegisteredLeaves<V>(cfg: Config, flights: map<FlightKey, Flight>, outcomes: map<nat, Outcome<V>>,
                            issued: seq<Flight>, generation: nat, f: Flight, outcome: Outcome<V>)
    requires RegisteredOk(cfg, flights, outcomes, issued) && IssuedOk(flights, outcomes, issued, generation)
             && f in issued
    ensures RegisteredOk(cfg, Left(flights, f), outcomes[f.load := outcome], issued)
    ensures IssuedOk(Left(flights, f), outcomes[f.load := outcome], issued, generation)
  {
    var left := Left(flights, f);
    assert f == issued[f.load];
    forall k | k in left ensures left[k] == flights[k] && left[k].load != f.load {
      assert left[k] in issued;
      assert left[k] == issued[left[k].load];
    }
    assert forall i | 0 <= i < |issued| && i != f.load ::
        Registered(flights, issued[i]) ==> Registered(left, issued[i]);
  }

  /** The outcome of one locked attempt of `snapshot`. */
  datatype Attempt<V> =
    | Hit(state: Decoded<V>)
    | Join(flight: Flight)
    | Lead(flight: Flight)
    | TooLarge
    | MustWait

  class SnapshotBroker<V(==)> {
    const cfg: Config
    /** Everything that ever happens to the source at a path, and what decoding a copy gives. */
    const worlds: string -> seq<SourceOp>
    const decode: Copy -> Option<V>
    var entries: seq<Entry<V>>
    var cacheBytes: nat
    var flights: map<FlightKey, Flight>
    var inFlightBytes: nat
    var generation: nat
    var scanDepth: nat
    var outcomes: map<nat, Outcome<V>>
    var loads: nat
    /** Every flight ever created, in order. */
    var issued: seq<Flight>

    /** What an uncached read of the source at a key gives; see `StableRead.DecodeIsFunctionOfSignature`. */
    ghost function Truth(): Key -> Option<V> {
      (k: Key) => DecodedAt(worlds(k.path), k.signature, decode)
    }

    /** The byte counter is exact, so the clamp of `_remove_entry_locked` never bites. */
    ghost predicate Counted()
      reads this
    {
      Distinct(entries) && cacheBytes == Weight(entries)
    }

    ghost predicate Truthful(s: seq<Entry<V>>)
      reads this
    {
      TruthfulAt(s, Truth(), generation, cfg.maxEntryBytes)
    }

    ghost predicate CacheValid()
      reads this
    {
      CacheOk(cfg, Truth(), entries, cacheBytes, generation, scanDepth)
    }

    ghost predicate FlightsValid()
      reads this
    {
      loads == |issued| && FlightsOk(cfg, Truth(), flights, inFlightBytes, outcomes, issued, generation)
    }

    ghost predicate Valid()
      reads this
    {
      CacheValid() && FlightsValid()
    }

    constructor (cfg: Config, worlds: string -> seq<SourceOp>, decode: Copy -> Option<V>)
      requires cfg.Valid()
      ensures Valid() && this.cfg == cfg && this.worlds == worlds && this.decode == decode
      ensures entries == [] && flights == map[] && generation == 0 && scanDepth == 0 && issued == []
    {
      this.cfg, this.worlds, this.decode := cfg, worlds, decode;
      entries, cacheBytes, flights, inFlightBytes := [], 0, map[], 0;
      generation, scanDepth, outcomes, loads, issued := 0, 0, map[], 0, [];
    }

    /** `_remove_entry_locked`. */
    method RemoveEntry(key: Key)
      requires Counted()
      modifies this`entries, this`cacheBytes
      ensures Counted() && entries == Without(old(entries), key)
    {
      var i := 0;
      while i < |entries| && entries[i].key != key
        invariant 0 <= i <= |entries|
        invariant !Contains(entries[..i], key)
      {
        i := i + 1;
      }
      WithoutFacts(entries, key);
      if i < |entries| {
        WithoutAt(entries, i);
        cacheBytes := Max(0, cacheBytes - entries[i].weight);
        entries := entries[..i] + entries[i + 1..];
      } else {
        assert entries[..i] == entries;
        WithoutAbsent(entries, key);
      }
    }

    /** `_expire_locked`. */
    method Expire(now: real)
      requires Counted()
      modifies this`entries, this`cacheBytes
      ensures Counted() && entries == Surviving(old(entries), now, scanDepth, generation)
      ensures Expires(old(entries), entries, now, scanDepth, generation)
    {
      SurvivingExpires(entries, now, scanDepth, generation);
      var all := entries;
      var i := 0;
      assert all[..0] == [];
      while i < |all|
        invariant 0 <= i <= |all| && Counted()
        invariant entries == Surviving(all[..i], now, scanDepth, generation) + all[i..]
      {
        ExpireOne(all, i, now);
        i := i + 1;
      }
      assert all[..i] == all;
    }

    method ExpireOne(all: seq<Entry<V>>, i: nat, now: real)
      requires Counted() && i < |all| && entries == Surviving(all[..i], now, scanDepth, generation) + all[i..]
      modifies this`entries, this`cacheBytes
      ensures Counted() && entries == Surviving(all[..i + 1], now, scanDepth, generation) + all[i + 1..]
    {
      ExpireStep(all, i, now, scanDepth, generation, entries);
      if all[i].expiresAt <= now && !Pinned(all[i], scanDepth, generation) {
        RemoveEntry(all[i].key);
      }
    }

    predicate OverSoft()
      reads this
    {
      |entries| > cfg.maxEntries || cacheBytes > cfg.maxCacheBytes
    }

    /** `_trim_soft_locked`: drops oldest entries, no more than needed, and never looks into an empty dictionary. */
    method TrimSoft() returns (ghost dropped: nat)
      requires cfg.Valid() && Counted()
      modifies this`entries, this`cacheBytes
      ensures Counted() && !OverSoft()
      ensures dropped <= |old(entries)| && entries == old(entries)[dropped..]
      ensures dropped > 0 ==> Over(old(entries)[dropped - 1..], cfg.maxEntries, cfg.maxCacheBytes)
    {
      dropped := 0;
      while OverSoft()
        invariant Counted() && dropped <= |old(entries)| && entries == old(entries)[dropped..]
        invariant dropped > 0 ==> Over(old(entries)[dropped - 1..], cfg.maxEntries, cfg.maxCacheBytes)
        decreases |entries|
      {
        RemoveEntry(entries[0].key);
        dropped := dropped + 1;
      }
    }

    /** Inserting `e` after the hard eviction of exactly the `n` oldest entries that stood in the way. */
    ghost predicate HardCut(base: seq<Entry<V>>, e: Entry<V>, n: nat)
      reads this
    {
      && n <= |base|
      && !Over(base[n..] + [e], cfg.hardMaxEntries, cfg.hardMaxCacheBytes)
      && (n > 0 ==> Over(base[n - 1..] + [e], cfg.hardMaxEntries, cfg.hardMaxCacheBytes))
    }

    /** `s` after evicting its `n` oldest unpinned entries: enough, or all there are, and not one more. */
    ghost predicate SoftCut(s: seq<Entry<V>>, n: nat, r: seq<Entry<V>>)
      reads this
    {
      && r == DropUnpinned(s, n, scanDepth, generation)
      && (Over(r, cfg.maxEntries, cfg.maxCacheBytes) ==> AllPinned(r, scanDepth, generation))
      && (n > 0 ==> Over(DropUnpinned(s, n - 1, scanDepth, generation), cfg.maxEntries, cfg.maxCacheBytes))
    }

    method FirstUnpinned() returns (i: nat)
      ensures i <= |entries| && AllPinned(entries[..i], scanDepth, generation)
      ensures i < |entries| ==> !Pinned(entries[i], scanDepth, generation)
    {
      i := 0;
      while i < |entries| && Pinned(entries[i], scanDepth, generation)
        invariant i <= |entries| && AllPinned(entries[..i], scanDepth, generation)
      {
        i := i + 1;
      }
    }

    /** The soft eviction loop of `_store_locked`. */
    method EvictUnpinned() returns (ghost n: nat)
      requires cfg.Valid() && Counted()
      modifies this`entries, this`cacheBytes
      ensures Counted() && SoftCut(old(entries), n, entries)
      ensures Subset(entries, old(entries)) && |entries| <= |old(entries)| && cacheBytes <= old(cacheBytes)
      ensures Spares(old(entries), entries)
    {
      n := 0;
      while OverSoft()
        invariant Counted() && entries == DropUnpinned(old(entries), n, scanDepth, generation)
        invariant n > 0 ==>
                    Over(DropUnpinned(old(entries), n - 1, scanDepth, generation), cfg.maxEntries, cfg.maxCacheBytes)
        invariant Subset(entries, old(entries)) && |entries| <= |old(entries)| && cacheBytes <= old(cacheBytes)
        decreases |entries|
      {
        var i := FirstUnpinned();
        if i == |entries| {
          assert entries[..i] == entries;
          break;
        }
        DropFirstUnpinned(entries, i, scanDepth, generation);
        DropUnpinnedMore(old(entries), n, scanDepth, generation);
        WithoutAt(entries, i);
        WithoutFacts(entries, entries[i].key);
        RemoveEntry(entries[i].key);
        n := n + 1;
      }
      CutSpares(old(entries), n, entries);
    }

    lemma CutSpares(s: seq<Entry<V>>, n: nat, r: seq<Entry<V>>)
      requires Distinct(s) && SoftCut(s, n, r)
      ensures Spares(s, r)
    {
      DropUnpinnedSpares(s, n, scanDepth, generation);
      DropUnpinnedOldest(s, n, scanDepth, generation);
    }

    /** Eviction spared every entry of the generation of an open scan, and stopped over the soft bounds only with
        nothing but those. */
    ghost predicate Spares(before: seq<Entry<V>>, after: seq<Entry<V>>)
      reads this
    {
      && InOrderOf(after, before) && OldestFirst(before, after, scanDepth, generation)
      && (forall e | e in before && scanDepth > 0 && e.generation == generation :: e in after)
      && (|after| > cfg.maxEntries || Weight(after) > cfg.maxCacheBytes ==>
            scanDepth > 0 && forall i | 0 <= i < |after| :: after[i].generation == generation)
    }

    /** The hard eviction loop of `_store_locked`; it never looks into an empty dictionary. */
    method MakeRoom(e: Entry<V>) returns (ghost n: nat)
      requires cfg.Valid() && Counted() && e.weight <= cfg.hardMaxCacheBytes
      modifies this`entries, this`cacheBytes
      ensures Counted() && n <= |old(entries)| && entries == old(entries)[n..] && HardCut(old(entries), e, n)
    {
      n := 0;
      WeightAppend(entries, [e]);
      while |entries| + 1 > cfg.hardMaxEntries || cacheBytes + e.weight > cfg.hardMaxCacheBytes
        invariant Counted() && n <= |old(entries)| && entries == old(entries)[n..]
        invariant Weight(entries + [e]) == cacheBytes + e.weight
        invariant n > 0 ==> Over(old(entries)[n - 1..] + [e], cfg.hardMaxEntries, cfg.hardMaxCacheBytes)
        decreases |entries|
      {
        RemoveEntry(entries[0].key);
        WeightAppend(entries, [e]);
        n := n + 1;
      }
    }

    method InsertNewest(e: Entry<V>) returns (ghost hard: nat)
      requires cfg.Valid() && Counted() && Truthful(entries) && Truthful([e]) && !Contains(entries, e.key)
      modifies this`entries, this`cacheBytes
      ensures Counted() && Truthful(entries)
      ensures HardCut(old(entries), e, hard) && entries == old(entries)[hard..] + [e]
    {
      assert Truthful([e]) ==> [e][0].weight <= cfg.maxEntryBytes;
      hard := MakeRoom(e);
      SuffixFacts(old(entries), hard, e.key);
      NewestIsDistinct(entries, e);
      NewestIsTruthful(entries, old(entries), e, Truth(), generation, cfg.maxEntryBytes);
      WeightAppend(entries, [e]);
      entries := entries + [e];
      cacheBytes := cacheBytes + e.weight;
    }

    /**
      What storing does to the dictionary.  A load begun in another generation leaves it alone; an
      oversized one only loses its old entry; any other is inserted as newest after the least hard
      eviction, followed by the least eviction of unpinned entries that the soft bounds ask for.
    */
    ghost predicate StoredInto(before: seq<Entry<V>>, e: Entry<V>, hard: nat, soft: nat, after: seq<Entry<V>>)
      reads this
    {
      var base := Without(before, e.key);
      if e.generation != generation then after == before
      else if e.weight > cfg.maxEntryBytes then after == base
      else HardCut(base, e, hard) && SoftCut(base[hard..] + [e], soft, after) && Spares(base[hard..] + [e], after)
    }

    /** `_store_locked`. */
    method Store(key: Key, state: Decoded<V>, weight: nat, now: real, begun: nat)
      returns (stored: bool, ghost hard: nat, ghost soft: nat)
      requires CacheValid() && Truth()(key) == Some(state.value)
      modifies this`entries, this`cacheBytes
      ensures CacheValid()
      ensures StoredInto(old(entries), Entry(key, state, now + cfg.ttl, begun, weight), hard, soft, entries)
      ensures stored == (begun == generation && Contains(entries, key))
      ensures stored ==> Entry(key, state, now + cfg.ttl, begun, weight) in entries
      ensures stored <==> begun == generation && weight <= cfg.maxEntryBytes && Lasts(weight)
      ensures AddsAtMost(old(entries), entries, key)
    {
      stored, hard, soft := false, 0, 0;
      if begun != generation {
        return;
      }
      WithoutFacts(entries, key);
      RemoveEntry(key);
      ghost var base := entries;
      if weight > cfg.maxEntryBytes || weight > cfg.hardMaxCacheBytes {
        return;
      }
      var e := Entry(key, state, now + cfg.ttl, begun, weight);
      hard, soft := StoreNew(e);
      stored := Contains(entries, key);
      AddsOne(old(entries), base, e, entries);
    }

    /** A new entry survives the soft eviction of its own store: a scan pins it, or it fits by itself. */
    ghost predicate Lasts(weight: nat)
      reads this
    {
      scanDepth > 0 || weight <= cfg.maxCacheBytes
    }

    lemma NewestLasts(rest: seq<Entry<V>>, e: Entry<V>, soft: nat, after: seq<Entry<V>>)
      requires cfg.Valid() && e.generation == generation
      requires SoftCut(rest + [e], soft, after) && Spares(rest + [e], after)
      ensures e in after <==> Lasts(e.weight)
    {
      var all := rest + [e];
      assert all[|rest|] == e;
      if scanDepth == 0 {
        DropUnpinnedIsDrop(all, soft, generation);
        if soft > 0 {
          DropUnpinnedIsDrop(all, soft - 1, generation);
        }
        LastOneLasts(cfg, rest, e, soft, after);
      }
    }

    /** What a publication in its own generation leaves: the new entry, unless it is too heavy for the cache. */
    ghost predicate Kept(f: Flight, value: V, signature: Signature, weight: nat, now: real)
      reads this
    {
      var key := Key(f.key.path, signature);
      && (Contains(entries, key) <==> weight <= cfg.maxEntryBytes && Lasts(weight))
      && (Contains(entries, key) ==> Entry(key, Decoded(value, f.load), now + cfg.ttl, generation, weight) in entries)
    }

    /** The part of `_store_locked` that inserts. */
    method StoreNew(e: Entry<V>) returns (ghost hard: nat, ghost soft: nat)
      requires cfg.Valid() && Counted() && Truthful(entries) && Truthful([e]) && !Contains(entries, e.key)
      modifies this`entries, this`cacheBytes
      ensures CacheValid()
      ensures HardCut(old(entries), e, hard) && SoftCut(old(entries)[hard..] + [e], soft, entries)
      ensures Subset(entries, old(entries) + [e]) && Spares(old(entries)[hard..] + [e], entries)
      ensures Contains(entries, e.key) <==> e in entries
      ensures e.generation == generation ==> (e in entries <==> Lasts(e.weight))
    {
      hard := InsertNewest(e);
      ghost var all := entries;
      soft := EvictUnpinned();
      SubsetKeeps(entries, all, Truth(), generation, cfg.maxEntryBytes);
      OnlyNewest(old(entries), e, entries);
      if e.generation == generation {
        NewestLasts(old(entries)[hard..], e, soft, entries);
      }
    }

    // ---------- scan generations ----------

    /** `_enter_scan_generation`. */
    method EnterScan(now: real) returns (g: nat)
      requires Valid()
      modifies this`entries, this`cacheBytes, this`generation, this`scanDepth
      ensures Valid()
      ensures scanDepth == old(scanDepth) + 1
      ensures g == generation == if old(scanDepth) == 0 then old(generation) + 1 else old(generation)
      ensures entries == Surviving(old(entries), now, scanDepth, generation)
      ensures Expires(old(entries), entries, now, scanDepth, generation)
    {
      if scanDepth == 0 {
        generation := generation + 1;
      }
      scanDepth := scanDepth + 1;
      SurvivorsOk(cfg, Truth(), entries, cacheBytes, old(generation), old(scanDepth), generation, scanDepth, now);
      LaterGeneration(cfg, Truth(), flights, inFlightBytes, outcomes, issued, old(generation), generation);
      Expire(now);
      g := generation;
    }

    /** `_exit_scan_generation`; `now` is absent when the clock failed. Only the outermost exit unpins. */
    method ExitScan(now: Option<real>) returns (ghost dropped: nat)
      requires Valid()
      modifies this`entries, this`cacheBytes, this`scanDepth
      ensures Valid()
      ensures scanDepth == Max(0, old(scanDepth) - 1)
      ensures old(scanDepth) != 1 ==> entries == old(entries)
      ensures old(scanDepth) == 1 ==>
                var live := if now.None? then old(entries) else Surviving(old(entries), now.value, 0, generation);
                && (now.Some? ==> Expires(old(entries), live, now.value, 0, generation))
                && dropped <= |live| && entries == live[dropped..]
                && (dropped > 0 ==> Over(live[dropped - 1..], cfg.maxEntries, cfg.maxCacheBytes))
    {
      dropped := 0;
      if scanDepth == 0 {
        return;
      }
      scanDepth := scanDepth - 1;
      if scanDepth == 0 {
        dropped := Unpin(now);
      }
    }

    method Unpin(now: Option<real>) returns (ghost dropped: nat)
      requires cfg.Valid() && Counted() && Truthful(entries) && scanDepth == 0
      requires |entries| <= cfg.hardMaxEntries && cacheBytes <= cfg.hardMaxCacheBytes
      modifies this`entries, this`cacheBytes
      ensures CacheValid()
      ensures var live := if now.None? then old(entries) else Surviving(old(entries), now.value, 0, generation);
              && (now.Some? ==> Expires(old(entries), live, now.value, 0, generation))
              && dropped <= |live| && entries == live[dropped..]
              && (dropped > 0 ==> Over(live[dropped - 1..], cfg.maxEntries, cfg.maxCacheBytes))
    {
      if now.Some? {
        SurvivingFacts(entries, now.value, scanDepth, generation);
        Expire(now.value);
      }
      ghost var live := entries;
      dropped := TrimSoft();
      assert forall i | 0 <= i < |entries| :: entries[i] == live[dropped + i];
      SuffixWeight(live, dropped);
    }

    /** `_pin_entry_locked` on the entry at `i`: renewed, of this generation, and now the newest. */
    method PinEntry(i: nat, now: real) returns (e: Entry<V>)
      requires CacheValid() && i < |entries|
      modifies this`entries
      ensures CacheValid()
      ensures e == old(entries)[i].(expiresAt := now + cfg.ttl, generation := generation)
      ensures entries == Without(old(entries), e.key) + [e]
    {
      e := entries[i].(expiresAt := now + cfg.ttl, generation := generation);
      RenewedOk(cfg, Truth(), entries, cacheBytes, generation, scanDepth, i, e);
      entries := entries[..i] + entries[i + 1..] + [e];
    }

    method Lookup(key: Key) returns (i: nat)
      ensures i <= |entries| && (i < |entries| <==> Contains(entries, key))
      ensures i < |entries| ==> entries[i].key == key
    {
      i := 0;
      while i < |entries| && entries[i].key != key
        invariant i <= |entries| && !Contains(entries[..i], key)
      {
        i := i + 1;
      }
      if i == |entries| {
        assert entries[..i] == entries;
      }
    }

    /** The cache half of `pin` and `snapshot`: expire, then renew the entry if it is there. */
    method Probe(key: Key, now: real) returns (hit: Option<Decoded<V>>)
      requires CacheValid()
      modifies this`entries, this`cacheBytes
      ensures CacheValid()
      ensures var live := Surviving(old(entries), now, scanDepth, generation);
              && hit.Some? == Contains(live, key)
              && Expires(old(entries), live, now, scanDepth, generation)
              && hit.Some? == Fresh(old(entries), now, scanDepth, generation, key)
              && (hit.None? ==> entries == live)
              && (hit.Some? ==>
                    && Renewed(live, key, now, entries)
                    && Truth()(key) == Some(hit.value.value))
    {
      SurvivorsOk(cfg, Truth(), entries, cacheBytes, generation, scanDepth, generation, scanDepth, now);
      FreshMeansContained(entries, now, scanDepth, generation, key);
      Expire(now);
      var i := Lookup(key);
      if i == |entries| {
        return None;
      }
      var e := PinEntry(i, now);
      hit := Some(e.state);
    }

    /** The entry of `key` is renewed, joins this generation and becomes the newest; the rest keeps its order. */
    ghost predicate Renewed(live: seq<Entry<V>>, key: Key, now: real, r: seq<Entry<V>>)
      reads this
    {
      exists i | 0 <= i < |live| ::
        && live[i].key == key
        && r == Without(live, key) + [live[i].(expiresAt := now + cfg.ttl, generation := generation)]
    }

    /** `pin`. */
    method Pin(key: Key, now: real) returns (found: bool)
      requires Valid()
      modifies this`entries, this`cacheBytes
      ensures Valid()
      ensures var live := Surviving(old(entries), now, scanDepth, generation);
              && Expires(old(entries), live, now, scanDepth, generation)
              && found == Contains(live, key)
              && (if found then Renewed(live, key, now, entries) else entries == live)
      ensures found == Fresh(old(entries), now, scanDepth, generation, key) == Contains(entries, key)
    {
      var hit := Probe(key, now);
      found := hit.Some?;
      assert found ==> entries[|entries| - 1].key == key;
    }

    // ---------- single-flight loads ----------

    /**
      One locked attempt of `snapshot`, at its start and again after every wake-up.  A hit returns
      what decoding the source at that key gives; waiting happens only while some other
      load holds budget.
    */
    method TrySnapshot(key: Key, now: real) returns (r: Attempt<V>)
      requires Valid()
      modifies this
      ensures Valid() && old(issued) <= issued && outcomes == old(outcomes)
      ensures generation == old(generation) && scanDepth == old(scanDepth)
      ensures r.Hit? <==> Fresh(old(entries), now, scanDepth, generation, key)
      ensures var live := Surviving(old(entries), now, scanDepth, generation);
              var fk := FlightKey(generation, key);
              if Contains(live, key) then
                && r.Hit? && DecodedAt(worlds(key.path), key.signature, decode) == Some(r.state.value)
                && Renewed(live, key, now, entries) && flights == old(flights)
              else
                && entries == live
                && (if fk in old(flights) then r == Join(old(flights)[fk]) && flights == old(flights)
                    else if SourceBytes(key.signature) > MAX_DB_BYTES + MAX_WAL_BYTES
                            || SourceBytes(key.signature) > cfg.maxSourceBytes
                    then r == TooLarge && flights == old(flights)
                    else if |old(flights)| < cfg.maxInFlight
                            && old(inFlightBytes) + cfg.Reservation() <= cfg.maxSourceBytes
                    then && r == Lead(Flight(generation, key, cfg.Reservation(), |old(issued)|))
                         && issued == old(issued) + [r.flight] && flights == old(flights)[fk := r.flight]
                    else r == MustWait && flights == old(flights) && flights != map[])
    {
      var hit := Probe(key, now);
      if hit.Some? {
        return Hit(hit.value);
      }
      var fk := FlightKey(generation, key);
      if fk in flights {
        return Join(flights[fk]);
      }
      if SourceBytes(key.signature) > cfg.Reservation() {
        return TooLarge;
      }
      if |flights| < cfg.maxInFlight && inFlightBytes + cfg.Reservation() <= cfg.maxSourceBytes {
        var f := Enlist(key);
        return Lead(f);
      }
      return MustWait;
    }

    method Enlist(key: Key) returns (f: Flight)
      requires FlightsValid() && FlightKey(generation, key) !in flights
      requires |flights| < cfg.maxInFlight && inFlightBytes + cfg.Reservation() <= cfg.maxSourceBytes
      modifies this`flights, this`inFlightBytes, this`loads, this`issued
      ensures FlightsValid() && f == Flight(generation, key, cfg.Reservation(), |old(issued)|)
      ensures issued == old(issued) + [f] && flights == old(flights)[FlightKey(generation, key) := f]
    {
      f := Flight(generation, key, cfg.Reservation(), loads);
      BudgetGrows(cfg, flights, inFlightBytes, FlightKey(generation, key), f);
      IssuedGrows(flights, outcomes, issued, generation, f);
      RegisteredGrows(cfg, flights, outcomes, issued, f);
      flights := flights[FlightKey(generation, key) := f];
      inFlightBytes := inFlightBytes + f.sourceBytes;
      loads := loads + 1;
      issued := issued + [f];
    }

    /** `_release_flight_locked`: the reservation comes back once, however often it is asked for. */
    method Release(f: Flight)
      requires FlightsValid() && f in issued
      modifies this`flights, this`inFlightBytes
      ensures flights == Left(old(flights), f) && |flights| <= |old(flights)|
      ensures inFlightBytes == Times(|flights|, cfg.Reservation()) <= old(inFlightBytes)
      ensures Registered(old(flights), f) ==> inFlightBytes == old(inFlightBytes) - f.sourceBytes
    {
      var k := FlightKey(f.generation, f.key);
      if k in flights && flights[k] == f {
        assert (flights - {k}).Keys == flights.Keys - {k};
        flights := flights - {k};
        inFlightBytes := Max(0, inFlightBytes - f.sourceBytes);
      }
    }

    /** Wake the followers of `f` and give its reservation back. */
    method Settle(f: Flight, outcome: Outcome<V>)
      requires FlightsValid() && f in issued
      requires outcome.Delivered? ==> Truth()(Key(f.key.path, outcome.at)) == Some(outcome.state.value)
      modifies this`flights, this`inFlightBytes, this`outcomes
      ensures FlightsValid() && flights == Left(old(flights), f) && outcomes == old(outcomes)[f.load := outcome]
    {
      RegisteredLeaves(cfg, flights, outcomes, issued, generation, f, outcome);
      Release(f);
      outcomes := outcomes[f.load := outcome];
    }

    /** `_fail_flight_locked`. */
    method Fail(f: Flight, error: FlightError)
      requires Valid() && f in issued
      modifies this`flights, this`inFlightBytes, this`outcomes
      ensures Valid() && flights == Left(old(flights), f) && outcomes == old(outcomes)[f.load := Failed(error)]
    {
      Settle(f, Failed(error));
    }

    /** The successful publication: store, hand the state to followers, release. */
    method Publish(f: Flight, signature: Signature, value: V, weight: nat, now: real)
      returns (ghost hard: nat, ghost soft: nat)
      requires Valid() && Registered(flights, f)
      requires Truth()(Key(f.key.path, signature)) == Some(value)
      modifies this
      ensures Valid() && flights == Left(old(flights), f)
      ensures outcomes == old(outcomes)[f.load := Delivered(Decoded(value, f.load), signature)]
      ensures issued == old(issued) && generation == old(generation) && scanDepth == old(scanDepth)
      ensures StoredInto(old(entries),
              Entry(Key(f.key.path, signature), Decoded(value, f.load), now + cfg.ttl, f.generation, weight),
                         hard, soft, entries)
      ensures f.generation == generation ==> Kept(f, value, signature, weight, now)
    {
      var _, h, s := Store(Key(f.key.path, signature), Decoded(value, f.load), weight, now, f.generation);
      hard, soft := h, s;
      Settle(f, Delivered(Decoded(value, f.load), signature));
    }

    /** A publication that raises before or after its store: the lock is dropped with the flight still registered. */
    method PublishInterrupted(f: Flight, signature: Signature, value: V, weight: nat, now: real, reached: bool)
      returns (ghost hard: nat, ghost soft: nat)
      requires Valid() && Registered(flights, f)
      requires Truth()(Key(f.key.path, signature)) == Some(value)
      modifies this`entries, this`cacheBytes
      ensures Valid()
      ensures if !reached then entries == old(entries) else
              StoredInto(old(entries),
                Entry(Key(f.key.path, signature), Decoded(value, f.load), now + cfg.ttl, f.generation, weight),
                         hard, soft, entries)
      ensures AddsAtMost(old(entries), entries, Key(f.key.path, signature))
      ensures reached && f.generation == generation ==> Kept(f, value, signature, weight, now)
    {
      hard, soft := 0, 0;
      if reached {
        var _, h, s := Store(Key(f.key.path, signature), Decoded(value, f.load), weight, now, f.generation);
        hard, soft := h, s;
      }
    }

    /** The handler of a failed publication: it takes back its own object, never a newer one at the same key. */
    method Recover(f: Flight, signature: Signature)
      requires Valid() && f in issued
      modifies this
      ensures Valid() && flights == Left(old(flights), f)
      ensures outcomes == old(outcomes)[f.load := Failed(PublicationFailed)]
      ensures issued == old(issued) && generation == old(generation) && scanDepth == old(scanDepth)
      ensures var key := Key(f.key.path, signature);
              entries == if Holds(old(entries), key, f.load) then Without(old(entries), key) else old(entries)
    {
      Retract(Key(f.key.path, signature), f.load);
      Fail(f, PublicationFailed);
    }

    /** Removes the entry of `key` if it came from this load. */
    method Retract(key: Key, load: nat)
      requires CacheValid()
      modifies this`entries, this`cacheBytes
      ensures CacheValid()
      ensures entries == if Holds(old(entries), key, load) then Without(old(entries), key) else old(entries)
    {
      var i := Lookup(key);
      OnlyOne(entries, i, key, load);
      if i < |entries| && entries[i].state.load == load {
        ghost var all := entries;
        WithoutFacts(entries, key);
        RemoveEntry(key);
        SubsetOk(cfg, Truth(), all, Weight(all), generation, scanDepth, entries);
      }
    }

    /** `reset`: flights in progress keep their reservations and finish without inserting. */
    method Reset()
      requires Valid()
      modifies this`entries, this`cacheBytes, this`generation, this`scanDepth
      ensures Valid() && entries == [] && scanDepth == 0 && generation == old(generation) + 1
      ensures forall k | k in flights :: k.generation < generation
    {
      generation := generation + 1;
      scanDepth, entries, cacheBytes := 0, [], 0;
    }

    /**
      The leader of a flight up to the end of its publication: read a stable copy of the source, then publish it or
      fail.  A publication that raises leaves the flight to `Recover`, which needs the lock again.
    */
    method Load(f: Flight, start: nat, troubles: seq<Trouble>, weight: nat, now: real, fault: Fault)
      returns (r: Loaded<V>)
      requires Valid() && Registered(flights, f)
      modifies this
      ensures Valid() && issued == old(issued) && generation == old(generation) && scanDepth == old(scanDepth)
      ensures r.Interrupted? || r.Published? ==> DecodedAt(worlds(f.key.path), r.signature, decode) == Some(r.value)
      ensures r.Published? ==> outcomes == old(outcomes)[f.load := Delivered(Decoded(r.value, f.load), r.signature)]
      ensures r.ReadFailed? ==> outcomes == old(outcomes)[f.load := Failed(LoadFailed)] && entries == old(entries)
      ensures if r.Interrupted? then flights == old(flights) && outcomes == old(outcomes)
              else flights == Left(old(flights), f)
      ensures r.Interrupted? ==> AddsAtMost(old(entries), entries, Key(f.key.path, r.signature))
      ensures r.Interrupted? ==> fault != NoFault
      ensures r.Published? ==> fault == NoFault
      ensures r.Published? && f.generation == generation ==> Kept(f, r.value, r.signature, weight, now)
      ensures f.generation != generation ==> entries == old(entries)
      ensures var ops := worlds(f.key.path);
              Untroubled(troubles) && start <= |ops| && Readable(ops, start, Some(f.sourceBytes), decode)
              && StillFrom(ops, start) ==>
                !r.ReadFailed? && r.signature == SignatureOf(At(ops, start))
    {
      var ops := worlds(f.key.path);
      var read, _, _ := ReadStableCopy(ops, Min(start, |ops|), Some(f.sourceBytes), decode, troubles);
      if read.Err? {
        Fail(f, LoadFailed);
        r := ReadFailed;
        return;
      }
      r := Announce(f, read.value.0, read.value.1, weight, now, fault);
    }

    /** The publication of what was read, and where it raises if it does. */
    method Announce(f: Flight, value: V, signature: Signature, weight: nat, now: real, fault: Fault)
      returns (r: Loaded<V>)
      requires Valid() && Registered(flights, f) && Truth()(Key(f.key.path, signature)) == Some(value)
      modifies this
      ensures Valid() && issued == old(issued) && generation == old(generation) && scanDepth == old(scanDepth)
      ensures r == if fault == NoFault then Published(value, signature) else Interrupted(value, signature)
      ensures if fault == NoFault then
                && flights == Left(old(flights), f)
                && outcomes == old(outcomes)[f.load := Delivered(Decoded(value, f.load), signature)]
                && (f.generation == generation ==> Kept(f, value, signature, weight, now))
              else
                && flights == old(flights) && outcomes == old(outcomes)
                && AddsAtMost(old(entries), entries, Key(f.key.path, signature))
                && (fault == BeforeStore ==> entries == old(entries))
                && (fault == AfterStore && f.generation == generation ==> Kept(f, value, signature, weight, now))
      ensures f.generation != generation ==> entries == old(entries)
    {
      if fault == NoFault {
        var _, _ := Publish(f, signature, value, weight, now);
        return Published(value, signature);
      }
      var _, _ := PublishInterrupted(f, signature, value, weight, now, fault == AfterStore);
      return Interrupted(value, signature);
    }

    /**
      The whole way of a leader that nobody comes between: the flight is settled once, by a state that is the decode
      of the source at the published signature or by an error; after an error nothing it stored is left.
    */
    method LoadAndPublish(f: Flight, start: nat, troubles: seq<Trouble>, weight: nat, now: real, fault: Fault)
      returns (r: Option<V>)
      requires Valid() && Registered(flights, f)
      modifies this
      ensures Valid() && flights == Left(old(flights), f) && issued == old(issued)
      ensures f.load in outcomes && outcomes[f.load].Delivered? == r.Some?
      ensures r.Some? ==> outcomes[f.load].state == Decoded(r.value, f.load)
                          && DecodedAt(worlds(f.key.path), outcomes[f.load].at, decode) == r
      ensures fault != NoFault ==> r.None?
      ensures r.None? ==> LeavesNothing(old(entries), entries, f.load)
      ensures var ops := worlds(f.key.path);
              fault == NoFault && Untroubled(troubles) && start <= |ops| && StillFrom(ops, start)
              && Readable(ops, start, Some(f.sourceBytes), decode) ==>
                r.Some? && outcomes[f.load].at == SignatureOf(At(ops, start))
    {
      var l := Load(f, start, troubles, weight, now, fault);
      r := if l.Published? then Some(l.value) else None;
      if l.Interrupted? {
        ghost var mid := entries;
        Recover(f, l.signature);
        TakenBack(old(entries), mid, entries, Key(f.key.path, l.signature), f.load);
      }
    }

    /** A read of the source at this key gives this value. */
    ghost predicate Read(hit: (Key, V)) {
      DecodedAt(worlds(hit.0.path), hit.0.signature, decode) == Some(hit.1)
    }

    ghost function Now(): Picture<V>
      reads this
    {
      Picture(entries, flights, outcomes, generation, scanDepth)
    }

    /**
      Any run of the broker: scans opened and closed, pins, lookups, loads from a source with any history that succeed,
      fail, or fail while publishing, followers collecting what they waited for, and resets, in any order.  Every state
      on the way is valid, each action has its effect, and everything a caller ever received is what an uncached read at
      that signature gives.
    */
    method Run(script: seq<Action>)
      returns (received: seq<(Key, V)>, ghost album: seq<Picture<V>>, ghost gots: seq<Option<(Key, V)>>)
      requires Valid()
      modifies this
      ensures Valid()
      ensures forall i | 0 <= i < |received| :: Read(received[i])
      ensures Chronicle(script, |script|, album, gots, received)
      ensures album[0] == old(Now()) && album[|script|] == Now()
      ensures cacheBytes == Weight(entries) && |entries| <= cfg.hardMaxEntries && cacheBytes <= cfg.hardMaxCacheBytes
      ensures |entries| > cfg.maxEntries || cacheBytes > cfg.maxCacheBytes ==>
                scanDepth > 0 && forall i | 0 <= i < |entries| :: entries[i].generation == generation
      ensures |flights| <= cfg.maxInFlight && inFlightBytes <= cfg.maxSourceBytes
      ensures inFlightBytes == |flights| * Min(MAX_DB_BYTES + MAX_WAL_BYTES, cfg.maxSourceBytes)
    {
      received, album, gots := [], [Now()], [];
      for i := 0 to |script|
        invariant Valid()
        invariant forall j | 0 <= j < |received| :: Read(received[j])
        invariant Chronicle(script, i, album, gots, received) && album[0] == old(Now()) && album[i] == Now()
      {
        var got := Step(script[i]);
        ChronicleMore(script, i, album, gots, received, Now(), got);
        album, gots := album + [Now()], gots + [got];
        if got.Some? {
          received := received + [got.value];
        }
      }
      Ceilings();
    }

    lemma Ceilings()
      requires Valid()
      ensures cacheBytes == Weight(entries) && |entries| <= cfg.hardMaxEntries && cacheBytes <= cfg.hardMaxCacheBytes
      ensures |entries| > cfg.maxEntries || cacheBytes > cfg.maxCacheBytes ==>
                scanDepth > 0 && forall i | 0 <= i < |entries| :: entries[i].generation == generation
      ensures |flights| <= cfg.maxInFlight && inFlightBytes <= cfg.maxSourceBytes
      ensures inFlightBytes == |flights| * Min(MAX_DB_BYTES + MAX_WAL_BYTES, cfg.maxSourceBytes)
    {
      TimesIsProduct(|flights|, cfg.Reservation());
    }

    /** One action, and what it hands to a caller. */
    method Step(action: Action) returns (got: Option<(Key, V)>)
      requires Valid()
      modifies this
      ensures Valid() && (got.Some? ==> Read(got.value))
      ensures Effect(action, old(Now()), Now(), got)
    {
      match action {
        case Ask(key, now) =>
          var r := TrySnapshot(key, now);
          got := if r.Hit? then Some((key, r.state.value)) else None;
        case Collect(load) => got := Collected(load);
        case LoadError(_) => got := FlightStep(action);
        case StartLoad(_, _, _, _, _, _) => got := FlightStep(action);
        case Handle(_, _) => got := FlightStep(action);
        case _ =>
          ScanStep(action);
          got := None;
      }
    }

    method ScanStep(action: Action)
      requires Valid() && (action.Enter? || action.Exit? || action.PinKey? || action.Clear?)
      modifies this
      ensures Valid() && Effect(action, old(Now()), Now(), None)
    {
      match action {
        case Enter(now) => var _ := EnterScan(now);
        case Exit(now) => var _ := ExitScan(now);
        case PinKey(key, now) => var _ := Pin(key, now);
        case Clear => Reset();
      }
    }

    method FlightStep(action: Action) returns (got: Option<(Key, V)>)
      requires Valid() && (action.LoadError? || action.StartLoad? || action.Handle?)
      modifies this
      ensures Valid() && (got.Some? ==> Read(got.value))
      ensures Effect(action, old(Now()), Now(), got)
    {
      got := None;
      match action {
        case LoadError(k) =>
          if k in flights { Fail(flights[k], LoadFailed); }
        case StartLoad(k, start, troubles, weight, now, fault) =>
          if k in flights { got := LoadStep(flights[k], start, troubles, weight, now, fault); }
        case Handle(k, signature) =>
          if k in flights { Recover(flights[k], signature); }
      }
    }

    method LoadStep(f: Flight, start: nat, troubles: seq<Trouble>, weight: nat, now: real, fault: Fault)
      returns (got: Option<(Key, V)>)
      requires Valid() && Registered(flights, f)
      modifies this
      ensures Valid() && (got.Some? ==> Read(got.value)) && generation == old(generation) && scanDepth == old(scanDepth)
      ensures fault == NoFault ==>
                && flights == old(flights) - {FlightKey(f.generation, f.key)}
                && outcomes.Keys == old(outcomes).Keys + {f.load}
                && (got.Some? <==> outcomes[f.load].Delivered?)
    {
      var l := Load(f, start, troubles, weight, now, fault);
      got := if l.Published? then Some((Key(f.key.path, l.signature), l.value)) else None;
    }

    /** What the event of a settled flight gives to a follower. */
    method Collected(load: nat) returns (got: Option<(Key, V)>)
      requires Valid()
      ensures got.Some? ==> Read(got.value)
      ensures got.Some? <==> load in outcomes && outcomes[load].Delivered?
    {
      if load !in outcomes || outcomes[load].Failed? {
        return None;
      }
      got := Some((Key(issued[load].key.path, outcomes[load].at), outcomes[load].state.value));
    }
  }

  /** What can be seen of a broker between two locked sections. */
  datatype Picture<V> = Picture(
    entries: seq<Entry<V>>, flights: map<FlightKey, Flight>, outcomes: map<nat, Outcome<V>>, generation: nat,
    scanDepth: nat)

  ghost predicate SameScan<V>(a: Picture<V>, b: Picture<V>) {
    a.generation == b.generation && a.scanDepth == b.scanDepth
  }

  /** The flight of `k` is gone, and its followers have this outcome. */
  ghost predicate SettledAs<V>(k: FlightKey, a: Picture<V>, b: Picture<V>, outcome: Outcome<V>) {
    k in a.flights ==> b.flights == a.flights - {k} && b.outcomes == a.outcomes[a.flights[k].load := outcome]
  }

  /** What one action does. */
  ghost predicate Effect<V>(action: Action, a: Picture<V>, b: Picture<V>, got: Option<(Key, V)>) {
    match action
    case Enter(now) =>
      && got.None? && b.scanDepth == a.scanDepth + 1 && b.flights == a.flights && b.outcomes == a.outcomes
      && b.generation == a.generation + (if a.scanDepth == 0 then 1 else 0)
      && Expires(a.entries, b.entries, now, b.scanDepth, b.generation)
    case Exit(clock) =>
      && got.None? && b.scanDepth == Max(0, a.scanDepth - 1) && b.flights == a.flights && b.outcomes == a.outcomes
      && b.generation == a.generation && (a.scanDepth != 1 ==> b.entries == a.entries)
    case PinKey(key, now) =>
      && got.None? && SameScan(a, b) && b.flights == a.flights && b.outcomes == a.outcomes
      && (Contains(b.entries, key) <==> Fresh(a.entries, now, a.scanDepth, a.generation, key))
    case Ask(key, now) =>
      && SameScan(a, b) && b.outcomes == a.outcomes && (got.Some? ==> got.value.0 == key)
      && (got.Some? <==> Fresh(a.entries, now, a.scanDepth, a.generation, key))
    case Collect(load) => b == a && (got.Some? <==> load in a.outcomes && a.outcomes[load].Delivered?)
    case LoadError(k) => got.None? && SameScan(a, b) && b.entries == a.entries && SettledAs(k, a, b, Failed(LoadFailed))
    case StartLoad(k, _, _, _, _, fault) =>
      && SameScan(a, b)
      && (k in a.flights && fault == NoFault ==>
            && b.flights == a.flights - {k} && b.outcomes.Keys == a.outcomes.Keys + {a.flights[k].load}
            && (got.Some? <==> b.outcomes[a.flights[k].load].Delivered?))
    case Handle(k, _) => got.None? && SameScan(a, b) && SettledAs(k, a, b, Failed(PublicationFailed))
    case Clear =>
      && got.None? && b.entries == [] && b.scanDepth == 0 && b.generation == a.generation + 1
      && b.flights == a.flights && b.outcomes == a.outcomes
  }

  /** What was handed out in the first `n` actions. */
  function Given<V>(gots: seq<Option<(Key, V)>>, n: nat): seq<(Key, V)>
    requires n <= |gots|
  {
    if n == 0 then [] else Given(gots, n - 1) + if gots[n - 1].Some? then [gots[n - 1].value] else []
  }

  /** The first `n` actions: what the broker was like before and after each, and what they handed out. */
  ghost predicate Chronicle<V>(script: seq<Action>, n: nat, album: seq<Picture<V>>, gots: seq<Option<(Key, V)>>,
                               received: seq<(Key, V)>) {
    && n <= |script| && |gots| == n && |album| == n + 1 && received == Given(gots, n)
    && forall i | 0 <= i < n :: Effect(script[i], album[i], album[i + 1], gots[i])
  }

  lemma ChronicleMore<V>(script: seq<Action>, n: nat, album: seq<Picture<V>>, gots: seq<Option<(Key, V)>>,
                         received: seq<(Key, V)>, next: Picture<V>, got: Option<(Key, V)>)
    requires Chronicle(script, n, album, gots, received) && n < |script| && Effect(script[n], album[n], next, got)
    ensures var all := if got.Some? then received + [got.value] else received;
            Chronicle(script, n + 1, album + [next], gots + [got], all)
  {
    GivenMore(gots, got);
    var album', gots' := album + [next], gots + [got];
    forall i | 0 <= i < n + 1 ensures Effect(script[i], album'[i], album'[i + 1], gots'[i]) {
      if i < n {
        assert album'[i] == album[i] && album'[i + 1] == album[i + 1] && gots'[i] == gots[i];
      }
    }
  }

  lemma GivenMore<V>(gots: seq<Option<(Key, V)>>, got: Option<(Key, V)>)
    ensures Given(gots + [got], |gots| + 1) == Given(gots, |gots|) + if got.Some? then [got.value] else []
  {
    GivenPrefix(gots, got, |gots|);
  }

  lemma {:induction false} GivenPrefix<V>(gots: seq<Option<(Key, V)>>, got: Option<(Key, V)>, n: nat)
    requires n <= |gots|
    ensures Given(gots + [got], n) == Given(gots, n)
  {
    if n > 0 {
      GivenPrefix(gots, got, n - 1);
    }
  }

  /** Where a publication raises. */
  datatype Fault = NoFault | BeforeStore | AfterStore

  datatype Loaded<V> =
    | ReadFailed
    | Published(value: V, signature: Signature)
    | Interrupted(value: V, signature: Signature)

  datatype Action =
    | Enter(now: real)
    | Exit(clock: Option<real>)
    | PinKey(key: Key, now: real)
    | Ask(key: Key, now: real)
    | Collect(load: nat)
    | LoadError(flight: FlightKey)
    | StartLoad(flight: FlightKey, start: nat, troubles: seq<Trouble>, weight: nat, now: real, fault: Fault)
    | Handle(flight: FlightKey, signature: Signature)
    | Clear
}
