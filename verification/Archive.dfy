/**
  The archive registry and the automatic archive scan (sidecar/archive.py, sidecar/daemon.py).
  Times are reals; a scan reads the clock twice, `now` when it selects and `later` when it archives.
*/
module Archive {
  import opened Common

  const MAX_ARCHIVE_ENTRIES: nat := 4_096
  const MIN_THRESHOLD_SECONDS: real := 60.0
  const MAX_THRESHOLD_SECONDS: real := 31_536_000.0

  datatype Target = Target(agent: string, session: string)

  datatype Status = Working | Waiting | Idle | Dead

  /** One scanned session; its identity is missing when agent or session id is not a nonempty text. */
  datatype Row = Row(target: Option<Target>, status: Status, updatedAt: real)

  datatype Entry = Entry(target: Target, archivedAt: real)

  type Registry = seq<Entry>

  /** The entry of a target, if there is one. */
  function Lookup(reg: Registry, t: Target): (r: Option<Entry>)
    ensures r.Some? ==> r.value in reg && r.value.target == t
  {
    if reg == [] then None else if reg[0].target == t then Some(reg[0]) else Lookup(reg[1..], t)
  }

  predicate Known(reg: Registry, t: Target) {
    Lookup(reg, t).Some?
  }

  lemma {:induction false} LookupAppend(a: Registry, b: Registry, t: Target)
    ensures Lookup(a + b, t) == if Known(a, t) then Lookup(a, t) else Lookup(b, t)
  {
    if a == [] {
      assert a + b == b;
    } else {
      assert (a + b)[1..] == a[1..] + b;
      LookupAppend(a[1..], b, t);
    }
  }

  // ---------- archive and release ----------

  /** `archive`: new entries, in order, for the targets that have none; a target listed twice is added once. */
  function Added(reg: Registry, wanted: seq<Target>, now: real): seq<Entry>
    decreases |wanted|
  {
    if wanted == [] then []
    else if Known(reg, wanted[0]) then Added(reg, wanted[1..], now)
    else [Entry(wanted[0], now)] + Added(reg + [Entry(wanted[0], now)], wanted[1..], now)
  }

  lemma {:induction false} AddedLookup(reg: Registry, wanted: seq<Target>, now: real, t: Target)
    ensures Lookup(reg + Added(reg, wanted, now), t) ==
              if Known(reg, t) then Lookup(reg, t) else if t in wanted then Some(Entry(t, now)) else None
    decreases |wanted|
  {
    if wanted == [] {
      assert reg + [] == reg;
    } else if Known(reg, wanted[0]) {
      AddedLookup(reg, wanted[1..], now, t);
    } else {
      var e := Entry(wanted[0], now);
      AddedLookup(reg + [e], wanted[1..], now, t);
      assert reg + ([e] + Added(reg + [e], wanted[1..], now)) == reg + [e] + Added(reg + [e], wanted[1..], now);
      LookupAppend(reg, [e], t);
    }
  }

  function Without(reg: Registry, gone: seq<Target>): Registry {
    if reg == [] then []
    else (if reg[0].target in gone then [] else [reg[0]]) + Without(reg[1..], gone)
  }

  lemma {:induction false} WithoutLookup(reg: Registry, gone: seq<Target>, t: Target)
    ensures Lookup(Without(reg, gone), t) == if t in gone then None else Lookup(reg, t)
  {
    if reg != [] {
      WithoutLookup(reg[1..], gone, t);
      if reg[0].target !in gone {
        assert ([reg[0]] + Without(reg[1..], gone))[1..] == Without(reg[1..], gone);
      } else {
        assert [] + Without(reg[1..], gone) == Without(reg[1..], gone);
      }
    }
  }

  lemma {:induction false} WithoutNobody(reg: Registry)
    ensures Without(reg, []) == reg
  {
    if reg != [] {
      WithoutNobody(reg[1..]);
    }
  }

  /** `_store` keeps the newest entries when there are too many. */
  function Retained(reg: Registry): Registry {
    if |reg| <= MAX_ARCHIVE_ENTRIES then reg else Latest(Sorted(reg))
  }

  function Latest(reg: Registry): Registry
    requires |reg| > MAX_ARCHIVE_ENTRIES
  {
    reg[|reg| - MAX_ARCHIVE_ENTRIES..]
  }

  /** A stable sort by archive time. */
  function Sorted(reg: Registry): (r: Registry)
    ensures |r| == |reg|
  {
    if reg == [] then [] else Insert(Sorted(reg[..|reg| - 1]), reg[|reg| - 1])
  }

  function Insert(reg: Registry, e: Entry): (r: Registry)
    ensures |r| == |reg| + 1
  {
    if reg == [] || reg[|reg| - 1].archivedAt <= e.archivedAt then reg + [e]
    else Insert(reg[..|reg| - 1], e) + [reg[|reg| - 1]]
  }

  // ---------- one row ----------

  /** A session stays hidden until it shows activity after its archive time. */
  predicate Hidden(reg: Registry, row: Row) {
    row.target.Some? && Known(reg, row.target.value) && row.updatedAt <= Lookup(reg, row.target.value).value.archivedAt
  }

  predicate Released(reg: Registry, row: Row) {
    row.target.Some? && Known(reg, row.target.value) && row.updatedAt > Lookup(reg, row.target.value).value.archivedAt
  }

  /** What `parse_duration` accepts. */
  predicate ThresholdOk(threshold: real) {
    MIN_THRESHOLD_SECONDS <= threshold <= MAX_THRESHOLD_SECONDS
  }

  predicate Stale(row: Row, now: real, threshold: real) {
    row.status in {Idle, Dead} && now - row.updatedAt >= threshold
  }

  // ---------- one scan ----------

  function Visible(reg: Registry, rows: seq<Row>): seq<Row> {
    if rows == [] then [] else (if Hidden(reg, rows[0]) then [] else [rows[0]]) + Visible(reg, rows[1..])
  }

  function Archived(reg: Registry, rows: seq<Row>): seq<Row> {
    if rows == [] then [] else (if Hidden(reg, rows[0]) then [rows[0]] else []) + Archived(reg, rows[1..])
  }

  function ReleasedTargets(reg: Registry, rows: seq<Row>): seq<Target> {
    if rows == [] then []
    else (if Released(reg, rows[0]) then [rows[0].target.value] else []) + ReleasedTargets(reg, rows[1..])
  }

  function StaleRows(rows: seq<Row>, now: real, threshold: real): seq<Row> {
    if rows == [] then []
    else (if Stale(rows[0], now, threshold) then [rows[0]] else []) + StaleRows(rows[1..], now, threshold)
  }

  /** `normalize_targets` on rows: one row without an identity spoils the whole call. */
  function TargetsOf(rows: seq<Row>): Option<seq<Target>> {
    if rows == [] then Some([])
    else
      var rest := TargetsOf(rows[1..]);
      if rows[0].target.None? || rest.None? then None else Some([rows[0].target.value] + rest.value)
  }

  datatype View = View(registry: Registry, visible: seq<Row>, archived: seq<Row>, failed: bool)

  /** `partition`. */
  function Partition(reg: Registry, rows: seq<Row>): View {
    var gone := ReleasedTargets(reg, rows);
    View(if gone == [] then reg else Retained(Without(reg, gone)), Visible(reg, rows), Archived(reg, rows), false)
  }

  /** Which accesses to the registry file raise. */
  datatype Faults = Faults(archiveLoad: bool, archiveStore: bool, partitionLoad: bool, partitionStore: bool)

  const NoFaults := Faults(false, false, false, false)

  /** The archiving half of `_apply_archive` with the automatic policy on, or `None` if it raises. */
  function Archiving(reg: Registry, rows: seq<Row>, now: real, later: real, threshold: real,
                     f: Faults): Option<Registry> {
    var stale := StaleRows(rows, now, threshold);
    var wanted := TargetsOf(stale);
    if !ThresholdOk(threshold) || wanted.None? then None
    else if stale == [] then Some(reg)
    else if f.archiveLoad then None
    else
      var added := Added(reg, wanted.value, later);
      if added == [] then Some(reg) else if f.archiveStore then None else Some(Retained(reg + added))
  }

  /** `_apply_archive` with the automatic policy on. */
  function FaultyScan(reg: Registry, rows: seq<Row>, now: real, later: real, threshold: real, f: Faults): View {
    var mid := Archiving(reg, rows, now, later, threshold, f);
    if mid.None? then View(reg, rows, [], true)
    else if f.partitionLoad || (f.partitionStore && ReleasedTargets(mid.value, rows) != []) then
      View(mid.value, rows, [], true)
    else Partition(mid.value, rows)
  }

  function Scan(reg: Registry, rows: seq<Row>, now: real, later: real, threshold: real): View {
    FaultyScan(reg, rows, now, later, threshold, NoFaults)
  }

  // ---------- a registry never lists a target twice ----------

  function Keys(reg: Registry): set<Target> {
    set i | 0 <= i < |reg| :: reg[i].target
  }

  ghost predicate Distinct(reg: Registry) {
    forall i, j | 0 <= i < j < |reg| :: reg[i].target != reg[j].target
  }

  lemma {:induction false} KnownIffKey(reg: Registry, t: Target)
    ensures Known(reg, t) <==> t in Keys(reg)
  {
    if reg != [] {
      KnownIffKey(reg[1..], t);
      if t in Keys(reg) {
        var i :| 0 <= i < |reg| && reg[i].target == t;
        assert i > 0 ==> reg[1..][i - 1].target == t;
      }
      if t in Keys(reg[1..]) {
        var i :| 0 <= i < |reg[1..]| && reg[1..][i].target == t;
        assert reg[i + 1].target == t;
      }
    }
  }

  lemma {:induction false} SizeIsKeys(reg: Registry)
    requires Distinct(reg)
    ensures |reg| == |Keys(reg)|
  {
    if reg != [] {
      var init, last := reg[..|reg| - 1], reg[|reg| - 1];
      SizeIsKeys(init);
      assert forall i | 0 <= i < |init| :: init[i] == reg[i];
      assert last.target !in Keys(init);
      assert Keys(reg) == Keys(init) + {last.target} by {
        forall t | t in Keys(reg) ensures t in Keys(init) + {last.target} {
          var i :| 0 <= i < |reg| && reg[i].target == t;
          assert i < |init| ==> init[i].target == t;
        }
      }
    }
  }

  lemma DistinctSnoc(reg: Registry, e: Entry)
    requires Distinct(reg) && !Known(reg, e.target)
    ensures Distinct(reg + [e])
  {
    KnownIffKey(reg, e.target);
    forall i | 0 <= i < |reg| ensures reg[i].target != e.target {
      assert reg[i].target in Keys(reg);
    }
  }

  lemma {:induction false} AddedKeepsDistinct(reg: Registry, wanted: seq<Target>, now: real)
    requires Distinct(reg)
    ensures Distinct(reg + Added(reg, wanted, now))
    decreases |wanted|
  {
    if wanted == [] {
      assert reg + [] == reg;
    } else if Known(reg, wanted[0]) {
      AddedKeepsDistinct(reg, wanted[1..], now);
    } else {
      var e := Entry(wanted[0], now);
      DistinctSnoc(reg, e);
      AddedKeepsDistinct(reg + [e], wanted[1..], now);
      assert reg + ([e] + Added(reg + [e], wanted[1..], now)) == reg + [e] + Added(reg + [e], wanted[1..], now);
    }
  }

  lemma {:induction false} WithoutKeepsDistinct(reg: Registry, gone: seq<Target>)
    requires Distinct(reg)
    ensures Distinct(Without(reg, gone)) && |Without(reg, gone)| <= |reg|
    ensures forall e | e in Without(reg, gone) :: e in reg
  {
    if reg != [] {
      WithoutKeepsDistinct(reg[1..], gone);
      var rest := Without(reg[1..], gone);
      forall j | 0 <= j < |rest| ensures rest[j].target != reg[0].target {
        assert rest[j] in reg[1..];
        var k :| 0 <= k < |reg[1..]| && reg[1..][k] == rest[j];
        assert reg[k + 1].target != reg[0].target;
      }
    }
  }

  // ---------- the cap ----------

  ghost predicate ByTime(reg: Registry) {
    forall i, j | 0 <= i < j < |reg| :: reg[i].archivedAt <= reg[j].archivedAt
  }

  lemma {:induction false} InsertKeys(reg: Registry, e: Entry)
    ensures Keys(Insert(reg, e)) == Keys(reg) + {e.target}
    ensures Distinct(reg) && e.target !in Keys(reg) ==> Distinct(Insert(reg, e))
  {
    if reg == [] || reg[|reg| - 1].archivedAt <= e.archivedAt {
      KeysSnoc(reg, e);
    } else {
      var init, last := reg[..|reg| - 1], reg[|reg| - 1];
      assert reg == init + [last];
      InsertKeys(init, e);
      KeysSnoc(init, last);
      KeysSnoc(Insert(init, e), last);
    }
  }

  lemma {:induction false} InsertOrder(reg: Registry, e: Entry)
    ensures multiset(Insert(reg, e)) == multiset(reg) + multiset{e}
    ensures ByTime(reg) ==> ByTime(Insert(reg, e))
  {
    if reg != [] && reg[|reg| - 1].archivedAt > e.archivedAt {
      var init, last := reg[..|reg| - 1], reg[|reg| - 1];
      assert reg == init + [last];
      InsertOrder(init, e);
      InsertedBelow(init, e, last);
    }
  }

  lemma InsertedBelow(init: Registry, e: Entry, last: Entry)
    requires multiset(Insert(init, e)) == multiset(init) + multiset{e} && last.archivedAt > e.archivedAt
    ensures ByTime(init + [last]) && ByTime(Insert(init, e)) ==> ByTime(Insert(init, e) + [last])
  {
    if ByTime(init + [last]) {
      forall x | x in Insert(init, e) ensures x.archivedAt <= last.archivedAt {
        assert x in multiset(Insert(init, e));
        if x in init {
          var i :| 0 <= i < |init| && init[i] == x;
          assert (init + [last])[i] == x && (init + [last])[|init|] == last;
        }
      }
    }
  }

  lemma KeysSnoc(reg: Registry, e: Entry)
    ensures Keys(reg + [e]) == Keys(reg) + {e.target}
    ensures Distinct(reg + [e]) <==> Distinct(reg) && e.target !in Keys(reg)
  {
    var all := reg + [e];
    assert forall i | 0 <= i < |reg| :: all[i] == reg[i];
    assert all[|reg|] == e;
    forall t | t in Keys(reg) + {e.target} ensures t in Keys(all) {
      if t in Keys(reg) {
        var i :| 0 <= i < |reg| && reg[i].target == t;
        assert all[i].target == t;
      }
    }
    if Distinct(all) {
      forall i | 0 <= i < |reg| ensures reg[i].target != e.target {
        assert all[i].target != all[|reg|].target;
      }
      forall i, j | 0 <= i < j < |reg| ensures reg[i].target != reg[j].target {
        assert all[i].target != all[j].target;
      }
    }
  }

  lemma {:induction false} SortedFacts(reg: Registry)
    ensures multiset(Sorted(reg)) == multiset(reg) && Keys(Sorted(reg)) == Keys(reg) && ByTime(Sorted(reg))
    ensures Distinct(reg) ==> Distinct(Sorted(reg))
  {
    if reg != [] {
      var init, last := reg[..|reg| - 1], reg[|reg| - 1];
      assert reg == init + [last];
      SortedFacts(init);
      InsertKeys(Sorted(init), last);
      InsertOrder(Sorted(init), last);
      KeysSnoc(init, last);
    }
  }

  /** What `_load` accepts. */
  ghost predicate Loadable(reg: Registry) {
    Distinct(reg) && |reg| <= MAX_ARCHIVE_ENTRIES
  }

  /** `kept` is what is left of `reg` once the oldest entries, `dropped`, are gone. */
  ghost predicate KeepsNewest(reg: Registry, dropped: Registry, kept: Registry) {
    && multiset(reg) == multiset(dropped) + multiset(kept) && (Distinct(reg) ==> Distinct(kept))
    && forall d, k | d in dropped && k in kept :: d.archivedAt <= k.archivedAt
  }

  /** Over the cap exactly the surplus is dropped, and nothing dropped is newer than anything kept. */
  lemma RetainedKeepsNewest(reg: Registry) returns (dropped: Registry)
    ensures KeepsNewest(reg, dropped, Retained(reg)) && |Retained(reg)| == Min(|reg|, MAX_ARCHIVE_ENTRIES)
  {
    dropped := [];
    if |reg| > MAX_ARCHIVE_ENTRIES {
      SortedFacts(reg);
      dropped := DropOldest(reg, Sorted(reg));
    }
  }

  lemma DropOldest(reg: Registry, all: Registry) returns (dropped: Registry)
    requires |all| > MAX_ARCHIVE_ENTRIES && multiset(all) == multiset(reg) && ByTime(all)
    requires Distinct(reg) ==> Distinct(all)
    ensures KeepsNewest(reg, dropped, Latest(all)) && |Latest(all)| == MAX_ARCHIVE_ENTRIES
  {
    var n := |all| - MAX_ARCHIVE_ENTRIES;
    dropped := CutByTime(all, n);
  }

  lemma CutByTime(all: Registry, n: nat) returns (dropped: Registry)
    requires ByTime(all) && n <= |all|
    ensures KeepsNewest(all, dropped, all[n..])
  {
    dropped := all[..n];
    var kept := all[n..];
    assert all == all[..n] + kept;
    assert forall i | 0 <= i < |kept| :: kept[i] == all[n + i];
    forall d, k | d in all[..n] && k in kept ensures d.archivedAt <= k.archivedAt {
      var i :| 0 <= i < n && all[i] == d;
      var j :| 0 <= j < |kept| && kept[j] == k;
      assert all[n + j] == k;
    }
  }

  /** The entries of one archive time, in order. */
  function AtTime(reg: Registry, time: real): Registry {
    if reg == [] then []
    else
      var last := reg[|reg| - 1];
      AtTime(reg[..|reg| - 1], time) + if last.archivedAt == time then [last] else []
  }

  lemma {:induction false} AtTimeAppend(a: Registry, b: Registry, time: real)
    ensures AtTime(a + b, time) == AtTime(a, time) + AtTime(b, time)
  {
    if b == [] {
      assert a + b == a;
    } else {
      assert (a + b)[..|a + b| - 1] == a + b[..|b| - 1];
      AtTimeAppend(a, b[..|b| - 1], time);
    }
  }

  lemma {:induction false} InsertIsStable(reg: Registry, e: Entry, time: real)
    ensures AtTime(Insert(reg, e), time) == AtTime(reg, time) + if e.archivedAt == time then [e] else []
  {
    if reg == [] || reg[|reg| - 1].archivedAt <= e.archivedAt {
      assert (reg + [e])[..|reg|] == reg;
    } else {
      var init, last := reg[..|reg| - 1], reg[|reg| - 1];
      InsertIsStable(init, e, time);
      assert (Insert(init, e) + [last])[..|reg|] == Insert(init, e);
    }
  }

  lemma {:induction false} SortIsStable(reg: Registry, time: real)
    ensures AtTime(Sorted(reg), time) == AtTime(reg, time)
  {
    if reg != [] {
      SortIsStable(reg[..|reg| - 1], time);
      InsertIsStable(Sorted(reg[..|reg| - 1]), reg[|reg| - 1], time);
    }
  }

  /** Of the entries of one scan, which all have its time, those listed last are kept. */
  lemma RetainedOfOneTime(reg: Registry, time: real) returns (dropped: nat)
    ensures dropped <= |AtTime(reg, time)| && AtTime(Retained(reg), time) == AtTime(reg, time)[dropped..]
  {
    dropped := 0;
    if |reg| > MAX_ARCHIVE_ENTRIES {
      var n := |reg| - MAX_ARCHIVE_ENTRIES;
      var all := Sorted(reg);
      SortIsStable(reg, time);
      assert all == all[..n] + all[n..];
      AtTimeAppend(all[..n], all[n..], time);
      dropped := |AtTime(all[..n], time)|;
    }
  }

  /** Whatever is scanned and whatever fails, the registry stays one that can be loaded again. */
  lemma RegistryStaysLoadable(reg: Registry, rows: seq<Row>, now: real, later: real, threshold: real, f: Faults)
    requires Loadable(reg)
    ensures Loadable(FaultyScan(reg, rows, now, later, threshold, f).registry)
  {
    var wanted := TargetsOf(StaleRows(rows, now, threshold));
    if wanted.Some? {
      AddedKeepsDistinct(reg, wanted.value, later);
      var _ := RetainedKeepsNewest(reg + Added(reg, wanted.value, later));
    }
    var mid := Archiving(reg, rows, now, later, threshold, f);
    if mid.Some? {
      WithoutKeepsDistinct(mid.value, ReleasedTargets(mid.value, rows));
      var _ := RetainedKeepsNewest(Without(mid.value, ReleasedTargets(mid.value, rows)));
    }
  }

  // ---------- what a scan promises ----------

  /** `rows` dealt out in order to two hands. */
  ghost predicate DealtOut(rows: seq<Row>, a: seq<Row>, b: seq<Row>) {
    if rows == [] then a == [] && b == []
    else
      || (a != [] && a[0] == rows[0] && DealtOut(rows[1..], a[1..], b))
      || (b != [] && b[0] == rows[0] && DealtOut(rows[1..], a, b[1..]))
  }

  /** Every row ends up exactly once and in order on the side its entry decides. */
  lemma {:induction false} PartitionDealsOut(reg: Registry, rows: seq<Row>)
    ensures DealtOut(rows, Visible(reg, rows), Archived(reg, rows))
    ensures forall r | r in Visible(reg, rows) :: !Hidden(reg, r)
    ensures forall r | r in Archived(reg, rows) :: Hidden(reg, r)
    ensures forall r | r in rows :: if Hidden(reg, r) then r in Archived(reg, rows) else r in Visible(reg, rows)
  {
    if rows != [] {
      PartitionDealsOut(reg, rows[1..]);
      var v, a := Visible(reg, rows[1..]), Archived(reg, rows[1..]);
      assert ([rows[0]] + v)[1..] == v && ([rows[0]] + a)[1..] == a && [] + v == v && [] + a == a;
    }
  }

  /** Sessions with identities, each listed once. */
  ghost predicate Identified(rows: seq<Row>) {
    && (forall i | 0 <= i < |rows| :: rows[i].target.Some?)
    && forall i, j | 0 <= i < j < |rows| :: rows[i].target != rows[j].target
  }

  ghost predicate StaleTarget(rows: seq<Row>, now: real, threshold: real, t: Target) {
    exists i | 0 <= i < |rows| :: rows[i].target == Some(t) && Stale(rows[i], now, threshold)
  }

  ghost predicate ReleasedTarget(reg: Registry, rows: seq<Row>, t: Target) {
    exists i | 0 <= i < |rows| :: rows[i].target == Some(t) && Released(reg, rows[i])
  }

  lemma {:induction false} StaleTargets(rows: seq<Row>, now: real, threshold: real)
    requires forall i | 0 <= i < |rows| :: rows[i].target.Some?
    ensures var wanted := TargetsOf(StaleRows(rows, now, threshold));
            && wanted.Some? && |wanted.value| <= |rows|
            && (forall t | t in wanted.value :: StaleTarget(rows, now, threshold, t))
            && (forall i | 0 <= i < |rows| && Stale(rows[i], now, threshold) :: rows[i].target.value in wanted.value)
  {
    if rows != [] {
      StaleTargets(rows[1..], now, threshold);
      var rest := StaleRows(rows[1..], now, threshold);
      assert ([rows[0]] + rest)[1..] == rest && [] + rest == rest;
      var wanted := TargetsOf(StaleRows(rows, now, threshold)).value;
      forall t | t in wanted ensures StaleTarget(rows, now, threshold, t) {
        if !(Stale(rows[0], now, threshold) && t == rows[0].target.value) {
          assert t in TargetsOf(rest).value;
          var i :| 0 <= i < |rows[1..]| && rows[1..][i].target == Some(t) && Stale(rows[1..][i], now, threshold);
          assert rows[i + 1] == rows[1..][i];
        }
      }
      forall i | 0 <= i < |rows| && Stale(rows[i], now, threshold) ensures rows[i].target.value in wanted {
        if i > 0 { assert rows[1..][i - 1] == rows[i]; }
      }
    }
  }

  lemma {:induction false} ReleasedMembers(reg: Registry, rows: seq<Row>)
    ensures forall t | t in ReleasedTargets(reg, rows) :: ReleasedTarget(reg, rows, t)
    ensures forall i | 0 <= i < |rows| && Released(reg, rows[i]) :: rows[i].target.value in ReleasedTargets(reg, rows)
  {
    if rows != [] {
      ReleasedMembers(reg, rows[1..]);
      forall t | t in ReleasedTargets(reg, rows) ensures ReleasedTarget(reg, rows, t) {
        if !(Released(reg, rows[0]) && t == rows[0].target.value) {
          assert t in ReleasedTargets(reg, rows[1..]);
          var i :| 0 <= i < |rows[1..]| && rows[1..][i].target == Some(t) && Released(reg, rows[1..][i]);
          assert rows[i + 1] == rows[1..][i];
        }
      }
      forall i | 0 <= i < |rows| && Released(reg, rows[i]) ensures rows[i].target.value in ReleasedTargets(reg, rows) {
        if i > 0 { assert rows[1..][i - 1] == rows[i]; }
      }
    }
  }

  /** The registry between the archiving half and the partition half of a scan, without the cap. */
  function Marked(reg: Registry, rows: seq<Row>, now: real, later: real, threshold: real): Registry {
    var wanted := TargetsOf(StaleRows(rows, now, threshold));
    if wanted.None? then reg else reg + Added(reg, wanted.value, later)
  }

  /** Sessions with distinct identities, a registry without duplicates that has room for the stale ones, and a clock
      that does not go back. */
  ghost predicate Scannable(reg: Registry, rows: seq<Row>, now: real, later: real, threshold: real) {
    && Identified(rows) && Distinct(reg) && ThresholdOk(threshold) && now <= later
    && |Marked(reg, rows, now, later, threshold)| <= MAX_ARCHIVE_ENTRIES
  }

  /** A scan under the cap, without the cap. */
  lemma ScanUnderCap(reg: Registry, rows: seq<Row>, now: real, later: real, threshold: real)
    requires Scannable(reg, rows, now, later, threshold)
    ensures var mid := Marked(reg, rows, now, later, threshold);
            && Distinct(mid) && Archiving(reg, rows, now, later, threshold, NoFaults) == Some(mid)
            && Scan(reg, rows, now, later, threshold) ==
                 View(Without(mid, ReleasedTargets(mid, rows)), Visible(mid, rows), Archived(mid, rows), false)
  {
    ArchivingUnderCap(reg, rows, now, later, threshold);
    PartitionUnderCap(Marked(reg, rows, now, later, threshold), rows);
  }

  lemma ArchivingUnderCap(reg: Registry, rows: seq<Row>, now: real, later: real, threshold: real)
    requires Scannable(reg, rows, now, later, threshold)
    ensures var mid := Marked(reg, rows, now, later, threshold);
            Distinct(mid) && Archiving(reg, rows, now, later, threshold, NoFaults) == Some(mid)
  {
    StaleTargets(rows, now, threshold);
    AddedKeepsDistinct(reg, TargetsOf(StaleRows(rows, now, threshold)).value, later);
    assert reg + [] == reg;
  }

  lemma PartitionUnderCap(mid: Registry, rows: seq<Row>)
    requires Loadable(mid)
    ensures Partition(mid, rows)
            == View(Without(mid, ReleasedTargets(mid, rows)), Visible(mid, rows), Archived(mid, rows), false)
  {
    WithoutKeepsDistinct(mid, ReleasedTargets(mid, rows));
    WithoutNobody(mid);
  }

  /** The entry of one session after the archiving half. */
  lemma MarkedLookup(reg: Registry, rows: seq<Row>, now: real, later: real, threshold: real, i: nat)
    requires Identified(rows) && i < |rows|
    ensures var t := rows[i].target.value;
            Lookup(Marked(reg, rows, now, later, threshold), t) ==
              if Known(reg, t) then Lookup(reg, t)
              else if Stale(rows[i], now, threshold) then Some(Entry(t, later)) else None
  {
    var t := rows[i].target.value;
    StaleTargets(rows, now, threshold);
    var wanted := TargetsOf(StaleRows(rows, now, threshold)).value;
    AddedLookup(reg, wanted, later, t);
    if t in wanted {
      var j :| 0 <= j < |rows| && rows[j].target == Some(t) && Stale(rows[j], now, threshold);
      assert j == i;
    }
  }

  /** The entry of one session after the releasing half. */
  lemma ReleasedLookup(mid: Registry, rows: seq<Row>, i: nat)
    requires Identified(rows) && i < |rows|
    ensures var t := rows[i].target.value;
            Lookup(Without(mid, ReleasedTargets(mid, rows)), t) ==
              if Released(mid, rows[i]) then None else Lookup(mid, t)
  {
    var t := rows[i].target.value;
    var gone := ReleasedTargets(mid, rows);
    ReleasedMembers(mid, rows);
    WithoutLookup(mid, gone, t);
    if t in gone {
      var j :| 0 <= j < |rows| && rows[j].target == Some(t) && Released(mid, rows[j]);
      assert j == i;
    }
  }

  /** What one scan does to the entry of one session. */
  lemma ScanOfSession(reg: Registry, rows: seq<Row>, now: real, later: real, threshold: real, i: nat)
    requires Scannable(reg, rows, now, later, threshold) && i < |rows|
    ensures var row, t := rows[i], rows[i].target.value;
            Lookup(Scan(reg, rows, now, later, threshold).registry, t) ==
              if Released(reg, row) then None
              else if Known(reg, t) then Lookup(reg, t)
              else if Stale(row, now, threshold) then Some(Entry(t, later)) else None
  {
    ScanUnderCap(reg, rows, now, later, threshold);
    MarkedLookup(reg, rows, now, later, threshold, i);
    ReleasedLookup(Marked(reg, rows, now, later, threshold), rows, i);
  }

  /** Whether it hides the session: exactly when it leaves an entry for it. */
  lemma ScanVerdict(reg: Registry, rows: seq<Row>, now: real, later: real, threshold: real, i: nat)
    requires Scannable(reg, rows, now, later, threshold) && i < |rows|
    ensures var row, v := rows[i], Scan(reg, rows, now, later, threshold);
            && (Hidden(Marked(reg, rows, now, later, threshold), row) <==> Known(v.registry, row.target.value))
            && (Hidden(v.registry, row) <==> Known(v.registry, row.target.value))
            && (row in v.archived <==> Known(v.registry, row.target.value))
            && (row in v.visible <==> !Known(v.registry, row.target.value))
  {
    MarkedLookup(reg, rows, now, later, threshold, i);
    ScanOfSession(reg, rows, now, later, threshold, i);
    ScanUnderCap(reg, rows, now, later, threshold);
    PartitionDealsOut(Marked(reg, rows, now, later, threshold), rows);
  }

  /** The same in the terms of the registry file: an entry hides its session up to later activity, and a session without
      one is hidden exactly when it is idle or dead and has been so for the threshold. */
  lemma ScanHidesExactly(reg: Registry, rows: seq<Row>, now: real, later: real, threshold: real, i: nat)
    requires Scannable(reg, rows, now, later, threshold) && i < |rows|
    ensures var row, v := rows[i], Scan(reg, rows, now, later, threshold);
            && (row in v.archived <==> row !in v.visible)
            && (forall e | e in reg && Some(e.target) == row.target ::
                  row in v.archived <==> row.updatedAt <= e.archivedAt)
            && ((forall e | e in reg :: Some(e.target) != row.target) ==>
                  (row in v.archived <==>
                    (row.status == Idle || row.status == Dead) && now - row.updatedAt >= threshold))
  {
    var t := rows[i].target.value;
    ScanVerdict(reg, rows, now, later, threshold, i);
    ScanOfSession(reg, rows, now, later, threshold, i);
    forall e | e in reg && e.target == t ensures Lookup(reg, t) == Some(e) {
      LookupOfMember(reg, e);
    }
  }

  /** Nothing is archived, under the cap or over it and whatever fails, that has no identity, or that has no entry
      and is working or waiting in every row it has. */
  lemma BusyStaysVisible(reg: Registry, rows: seq<Row>, now: real, later: real, threshold: real, f: Faults, row: Row)
    requires row in rows
    requires row.target.None?
             || ((forall e | e in reg :: e.target != row.target.value)
                 && forall r | r in rows && r.target == row.target :: r.status == Working || r.status == Waiting)
    ensures var v := FaultyScan(reg, rows, now, later, threshold, f);
            row in v.visible && row !in v.archived
  {
    var mid := Archiving(reg, rows, now, later, threshold, f);
    if mid.Some? {
      PartitionDealsOut(mid.value, rows);
      if row.target.Some? {
        BusyIsNotMarked(reg, rows, now, later, threshold, f, row.target.value);
      }
    }
  }

  lemma BusyIsNotMarked(reg: Registry, rows: seq<Row>, now: real, later: real, threshold: real, f: Faults, t: Target)
    requires forall e | e in reg :: e.target != t
    requires forall r | r in rows && r.target == Some(t) :: r.status == Working || r.status == Waiting
    requires Archiving(reg, rows, now, later, threshold, f).Some?
    ensures !Known(Archiving(reg, rows, now, later, threshold, f).value, t)
  {
    var wanted := TargetsOf(StaleRows(rows, now, threshold)).value;
    BusyIsNotWanted(rows, now, threshold, t);
    AddedLookup(reg, wanted, later, t);
    var all := reg + Added(reg, wanted, later);
    KnownIffKey(all, t);
    var dropped := RetainedKeepsNewest(all);
    forall e | e in Retained(all) ensures e.target != t {
      assert e in multiset(Retained(all)) && e in multiset(all);
      var i :| 0 <= i < |all| && all[i] == e;
      assert all[i].target in Keys(all);
    }
  }

  lemma {:induction false} BusyIsNotWanted(rows: seq<Row>, now: real, threshold: real, t: Target)
    requires forall r | r in rows && r.target == Some(t) :: r.status == Working || r.status == Waiting
    ensures var wanted := TargetsOf(StaleRows(rows, now, threshold));
            wanted.Some? ==> t !in wanted.value
  {
    if rows != [] {
      BusyIsNotWanted(rows[1..], now, threshold, t);
      var rest := StaleRows(rows[1..], now, threshold);
      assert ([rows[0]] + rest)[1..] == rest && [] + rest == rest;
    }
  }

  /** A scan fails exactly for a threshold out of range, for a stale session without an identity, and where it needs a
      registry file that fails: to look at stale sessions, to add one that has no entry, to look at the snapshot, and to
      release. */
  lemma FailsExactly(reg: Registry, rows: seq<Row>, now: real, later: real, threshold: real, f: Faults)
    ensures var mid := Archiving(reg, rows, now, later, threshold, f);
            && (mid.None? <==>
                  || threshold < 60.0 || threshold > 31_536_000.0
                  || exists r | r in rows :: LongIdle(r, now, threshold)
                       && (r.target.None? || f.archiveLoad || (f.archiveStore && Unlisted(reg, r.target.value))))
            && (FaultyScan(reg, rows, now, later, threshold, f).failed <==>
                  || mid.None? || f.partitionLoad
                  || (f.partitionStore && exists r | r in rows :: Revived(mid.value, r)))
  {
    Selection(rows, now, threshold);
    var mid := Archiving(reg, rows, now, later, threshold, f);
    if TargetsOf(StaleRows(rows, now, threshold)).Some? {
      AddsUnlisted(reg, TargetsOf(StaleRows(rows, now, threshold)).value, later);
    }
    if mid.Some? {
      AnyReleased(mid.value, rows);
    }
  }

  /** Idle or dead for at least the threshold. */
  predicate LongIdle(r: Row, now: real, threshold: real) {
    (r.status == Idle || r.status == Dead) && r.updatedAt + threshold <= now
  }

  predicate Unlisted(reg: Registry, t: Target) {
    forall e | e in reg :: e.target != t
  }

  /** Active after the time of its entry. */
  predicate Revived(reg: Registry, r: Row) {
    r.target.Some? && Lookup(reg, r.target.value).Some? && r.updatedAt > Lookup(reg, r.target.value).value.archivedAt
  }

  lemma {:induction false} Selection(rows: seq<Row>, now: real, threshold: real)
    ensures var stale := StaleRows(rows, now, threshold);
            && (forall r :: r in stale <==> r in rows && LongIdle(r, now, threshold))
            && (TargetsOf(stale).None? <==> exists r | r in stale :: r.target.None?)
            && (TargetsOf(stale).Some? ==>
                  forall t :: t in TargetsOf(stale).value <==> exists r | r in stale :: r.target == Some(t))
  {
    if rows != [] {
      Selection(rows[1..], now, threshold);
      var rest := StaleRows(rows[1..], now, threshold);
      assert ([rows[0]] + rest)[1..] == rest && [] + rest == rest;
    }
  }

  lemma AddsUnlisted(reg: Registry, wanted: seq<Target>, now: real)
    ensures Added(reg, wanted, now) != [] <==> exists t | t in wanted :: Unlisted(reg, t)
  {
    forall t ensures Known(reg, t) <==> !Unlisted(reg, t) {
      KnownIffKey(reg, t);
      if !Unlisted(reg, t) {
        var i :| 0 <= i < |reg| && reg[i].target == t;
      }
    }
    if forall t | t in wanted :: Known(reg, t) {
      AddedNothing(reg, wanted, now);
    } else {
      var t :| t in wanted && !Known(reg, t);
      AddedLookup(reg, wanted, now, t);
      assert reg + [] == reg;
    }
  }

  lemma AnyReleased(reg: Registry, rows: seq<Row>)
    ensures ReleasedTargets(reg, rows) != [] <==> exists r | r in rows :: Revived(reg, r)
  {
    ReleasedMembers(reg, rows);
    if ReleasedTargets(reg, rows) != [] {
      var t := ReleasedTargets(reg, rows)[0];
      assert ReleasedTarget(reg, rows, t);
      var i :| 0 <= i < |rows| && rows[i].target == Some(t) && Released(reg, rows[i]);
      assert rows[i] in rows && Revived(reg, rows[i]);
    }
  }

  /** One scan hides a stale session exactly when it does not have to release it first. */
  lemma OneScanHidesUnlessReleased(reg: Registry, rows: seq<Row>, now: real, later: real, threshold: real, i: nat)
    requires Scannable(reg, rows, now, later, threshold) && i < |rows| && Stale(rows[i], now, threshold)
    ensures var v := Scan(reg, rows, now, later, threshold);
            && (rows[i] in v.archived <==> !Released(reg, rows[i]))
            && (rows[i] in v.visible <==> Released(reg, rows[i]))
  {
    ScanVerdict(reg, rows, now, later, threshold, i);
    ScanOfSession(reg, rows, now, later, threshold, i);
  }

  /** A session that the scan has just archived is hidden by that same scan. */
  lemma JustArchivedIsHidden(reg: Registry, rows: seq<Row>, now: real, later: real, threshold: real, i: nat)
    requires Scannable(reg, rows, now, later, threshold) && i < |rows|
    requires Stale(rows[i], now, threshold) && !Known(reg, rows[i].target.value)
    ensures var v := Scan(reg, rows, now, later, threshold);
            && rows[i] in v.archived && rows[i] !in v.visible
            && Lookup(v.registry, rows[i].target.value) == Some(Entry(rows[i].target.value, later))
  {
    ScanVerdict(reg, rows, now, later, threshold, i);
    ScanOfSession(reg, rows, now, later, threshold, i);
  }

  /** Activity after the archive time makes a session visible at the next scan, stale again or not. */
  lemma ActivityReleases(reg: Registry, rows: seq<Row>, now: real, later: real, threshold: real, i: nat)
    requires Scannable(reg, rows, now, later, threshold) && i < |rows| && Released(reg, rows[i])
    ensures var v := Scan(reg, rows, now, later, threshold);
            rows[i] in v.visible && rows[i] !in v.archived && !Known(v.registry, rows[i].target.value)
  {
    ScanVerdict(reg, rows, now, later, threshold, i);
    ScanOfSession(reg, rows, now, later, threshold, i);
  }

  lemma {:induction false} AddedNothing(reg: Registry, wanted: seq<Target>, now: real)
    requires forall t | t in wanted :: Known(reg, t)
    ensures Added(reg, wanted, now) == []
    decreases |wanted|
  {
    if wanted != [] {
      AddedNothing(reg, wanted[1..], now);
    }
  }

  /** The targets of a marked registry: those it had, and the stale ones. */
  lemma MarkedKeys(reg: Registry, rows: seq<Row>, now: real, later: real, threshold: real, t: Target)
    requires Identified(rows)
    ensures Known(Marked(reg, rows, now, later, threshold), t)
            <==> Known(reg, t) || StaleTarget(rows, now, threshold, t)
  {
    StaleTargets(rows, now, threshold);
    AddedLookup(reg, TargetsOf(StaleRows(rows, now, threshold)).value, later, t);
  }

  lemma NoMoreThan(a: Registry, b: Registry)
    requires Distinct(a) && Distinct(b) && forall t | Known(a, t) :: Known(b, t)
    ensures |a| <= |b|
  {
    forall t | t in Keys(a) ensures t in Keys(b) {
      KnownIffKey(a, t);
      KnownIffKey(b, t);
    }
    SizeIsKeys(a);
    SizeIsKeys(b);
    Subsets(Keys(a), Keys(b));
  }

  /** Nothing goes stale that was not. */
  ghost predicate NoNewlyStale(rows: seq<Row>, before: real, now: real, threshold: real) {
    forall i | 0 <= i < |rows| && Stale(rows[i], now, threshold) :: Stale(rows[i], before, threshold)
  }

  /** Room for the stale sessions of some time is room for those of an earlier time. */
  lemma EarlierScanFits(reg: Registry, rows: seq<Row>, now: real, later: real, now': real, later': real,
                        threshold: real)
    requires Scannable(reg, rows, now', later', threshold) && now <= later && NoNewlyStale(rows, now', now, threshold)
    ensures Scannable(reg, rows, now, later, threshold)
  {
    MarkedDistinct(reg, rows, now, later, threshold);
    MarkedDistinct(reg, rows, now', later', threshold);
    forall t | Known(Marked(reg, rows, now, later, threshold), t)
      ensures Known(Marked(reg, rows, now', later', threshold), t)
    {
      MarkedKeys(reg, rows, now, later, threshold, t);
      MarkedKeys(reg, rows, now', later', threshold, t);
    }
    NoMoreThan(Marked(reg, rows, now, later, threshold), Marked(reg, rows, now', later', threshold));
  }

  lemma MarkedDistinct(reg: Registry, rows: seq<Row>, now: real, later: real, threshold: real)
    requires Identified(rows) && Distinct(reg)
    ensures Distinct(Marked(reg, rows, now, later, threshold))
  {
    StaleTargets(rows, now, threshold);
    AddedKeepsDistinct(reg, TargetsOf(StaleRows(rows, now, threshold)).value, later);
  }

  /** A scan leaves room for the next one: what fits beside the old registry fits beside the new one. */
  lemma SecondScanFits(reg: Registry, rows: seq<Row>, now: real, later: real, now': real, later': real, threshold: real)
    requires Scannable(reg, rows, now, later, threshold) && Scannable(reg, rows, now', later', threshold)
    requires NoNewlyStale(rows, now', now, threshold)
    ensures Scannable(Scan(reg, rows, now, later, threshold).registry, rows, now', later', threshold)
  {
    ScanUnderCap(reg, rows, now, later, threshold);
    var mid := Marked(reg, rows, now, later, threshold);
    var gone := ReleasedTargets(mid, rows);
    var r := Without(mid, gone);
    WithoutKeepsDistinct(mid, gone);
    MarkedDistinct(r, rows, now', later', threshold);
    MarkedDistinct(reg, rows, now', later', threshold);
    forall t | Known(Marked(r, rows, now', later', threshold), t)
      ensures Known(Marked(reg, rows, now', later', threshold), t)
    {
      MarkedKeys(r, rows, now', later', threshold, t);
      MarkedKeys(reg, rows, now', later', threshold, t);
      MarkedKeys(reg, rows, now, later, threshold, t);
      WithoutLookup(mid, gone, t);
    }
    NoMoreThan(Marked(r, rows, now', later', threshold), Marked(reg, rows, now', later', threshold));
  }

  lemma {:induction false} Subsets(a: set<Target>, b: set<Target>)
    requires a <= b
    ensures |a| <= |b|
    decreases a
  {
    if a != {} {
      var t :| t in a;
      Subsets(a - {t}, b - {t});
    }
  }

  /**
    Two automatic scans of an unchanged snapshot, at whatever two times, hide every session that was stale at the second
    one; a third scan changes nothing unless something has gone stale since.
  */
  lemma TwoScansSettle(reg: Registry, rows: seq<Row>, n1: real, l1: real, n2: real, l2: real, n3: real, l3: real,
                       threshold: real)
    requires n1 <= l1 && n1 <= n2 && n3 <= l3 && Scannable(reg, rows, n2, l2, threshold)
    ensures var two := Scan(Scan(reg, rows, n1, l1, threshold).registry, rows, n2, l2, threshold);
            && (forall i | 0 <= i < |rows| && Stale(rows[i], n2, threshold) ::
                  rows[i] in two.archived && rows[i] !in two.visible)
            && (NoNewlyStale(rows, n2, n3, threshold) ==> Scan(two.registry, rows, n3, l3, threshold) == two)
  {
    EarlierScanFits(reg, rows, n1, l1, n2, l2, threshold);
    SecondScanFits(reg, rows, n1, l1, n2, l2, threshold);
    var r1 := Scan(reg, rows, n1, l1, threshold).registry;
    var two := Scan(r1, rows, n2, l2, threshold);
    forall i | 0 <= i < |rows|
      ensures !Released(r1, rows[i])
      ensures Stale(rows[i], n2, threshold) ==>
                rows[i] in two.archived && rows[i] !in two.visible && Known(two.registry, rows[i].target.value)
      ensures Known(two.registry, rows[i].target.value) ==> Hidden(two.registry, rows[i])
      ensures Hidden(Marked(r1, rows, n2, l2, threshold), rows[i]) <==> Hidden(two.registry, rows[i])
    {
      ScanVerdict(reg, rows, n1, l1, threshold, i);
      ScanVerdict(r1, rows, n2, l2, threshold, i);
      ScanOfSession(r1, rows, n2, l2, threshold, i);
    }
    if NoNewlyStale(rows, n2, n3, threshold) {
      SettledScan(two.registry, rows, n3, l3, threshold);
      ScanUnderCap(r1, rows, n2, l2, threshold);
      SameVerdicts(Marked(r1, rows, n2, l2, threshold), two.registry, rows);
    }
  }

  /** A scan that finds every stale session hidden and nothing to release leaves everything as it is. */
  lemma SettledScan(reg: Registry, rows: seq<Row>, now: real, later: real, threshold: real)
    requires Identified(rows) && ThresholdOk(threshold)
    requires forall i | 0 <= i < |rows| :: Known(reg, rows[i].target.value) ==> Hidden(reg, rows[i])
    requires forall i | 0 <= i < |rows| && Stale(rows[i], now, threshold) :: Known(reg, rows[i].target.value)
    ensures Scan(reg, rows, now, later, threshold) == View(reg, Visible(reg, rows), Archived(reg, rows), false)
  {
    StaleTargets(rows, now, threshold);
    AddedNothing(reg, TargetsOf(StaleRows(rows, now, threshold)).value, later);
    NothingReleased(reg, rows);
  }

  // ---------- more sessions than the registry holds ----------

  function HiddenTargets(reg: Registry, rows: seq<Row>): set<Target> {
    set i | 0 <= i < |rows| && Hidden(reg, rows[i]) :: rows[i].target.value
  }

  lemma {:induction false} HiddenCount(reg: Registry, rows: seq<Row>)
    requires Identified(rows)
    ensures |Archived(reg, rows)| == |HiddenTargets(reg, rows)|
    ensures |Visible(reg, rows)| + |Archived(reg, rows)| == |rows|
  {
    if rows == [] {
      assert HiddenTargets(reg, rows) == {};
    } else {
      HiddenCount(reg, rows[1..]);
      HiddenFirst(reg, rows);
    }
  }

  lemma HiddenFirst(reg: Registry, rows: seq<Row>)
    requires Identified(rows) && rows != []
    ensures HiddenTargets(reg, rows) ==
              HiddenTargets(reg, rows[1..]) + if Hidden(reg, rows[0]) then {rows[0].target.value} else {}
    ensures rows[0].target.value !in HiddenTargets(reg, rows[1..])
  {
    var rest := rows[1..];
    assert forall i | 0 <= i < |rest| :: rest[i] == rows[i + 1];
    forall t | t in HiddenTargets(reg, rows)
      ensures t in HiddenTargets(reg, rest) || (Hidden(reg, rows[0]) && t == rows[0].target.value)
    {
      var i :| 0 <= i < |rows| && Hidden(reg, rows[i]) && rows[i].target.value == t;
      assert i > 0 ==> rest[i - 1] == rows[i];
    }
    forall t | t in HiddenTargets(reg, rest) ensures t in HiddenTargets(reg, rows) {
      var i :| 0 <= i < |rest| && Hidden(reg, rest[i]) && rest[i].target.value == t;
      assert rows[i + 1] == rest[i];
    }
  }

  /** No more sessions are hidden than the registry has entries. */
  lemma HiddenHaveEntries(reg: Registry, rows: seq<Row>)
    requires Identified(rows) && Distinct(reg)
    ensures |Archived(reg, rows)| <= |reg| && |Visible(reg, rows)| >= |rows| - |reg|
  {
    HiddenCount(reg, rows);
    forall t | t in HiddenTargets(reg, rows) ensures t in Keys(reg) {
      KnownIffKey(reg, t);
    }
    SizeIsKeys(reg);
    Subsets(HiddenTargets(reg, rows), Keys(reg));
  }

  /** Every entry is that of a session in the snapshot, and hides it. */
  ghost predicate AllHide(reg: Registry, rows: seq<Row>) {
    forall t | Known(reg, t) :: exists i | 0 <= i < |rows| :: rows[i].target == Some(t) && Hidden(reg, rows[i])
  }

  lemma AllHideCount(reg: Registry, rows: seq<Row>)
    requires Identified(rows) && Distinct(reg) && AllHide(reg, rows)
    ensures |Archived(reg, rows)| == |reg| && |Visible(reg, rows)| == |rows| - |reg|
    ensures ReleasedTargets(reg, rows) == []
  {
    HiddenCount(reg, rows);
    SizeIsKeys(reg);
    forall t ensures t in HiddenTargets(reg, rows) <==> t in Keys(reg) {
      KnownIffKey(reg, t);
    }
    assert HiddenTargets(reg, rows) == Keys(reg);
    forall i | 0 <= i < |rows| ensures !Released(reg, rows[i]) {
      var t := rows[i].target.value;
      if Known(reg, t) {
        var j :| 0 <= j < |rows| && rows[j].target == Some(t) && Hidden(reg, rows[j]);
        assert j == i;
      }
    }
    NothingReleased(reg, rows);
  }

  lemma {:induction false} LookupOfMember(reg: Registry, e: Entry)
    requires Distinct(reg) && e in reg
    ensures Lookup(reg, e.target) == Some(e)
  {
    if reg[0] != e {
      assert e in reg[1..];
      var i :| 0 <= i < |reg[1..]| && reg[1..][i] == e;
      assert reg[i + 1] == e && reg[0].target != e.target;
      LookupOfMember(reg[1..], e);
    }
  }

  /** Marking stale sessions keeps it so. */
  lemma MarkedAllHide(reg: Registry, rows: seq<Row>, now: real, later: real, threshold: real)
    requires Identified(rows) && ThresholdOk(threshold) && now <= later && AllHide(reg, rows)
    ensures AllHide(Marked(reg, rows, now, later, threshold), rows)
  {
    var mid := Marked(reg, rows, now, later, threshold);
    forall t | Known(mid, t) ensures exists i | 0 <= i < |rows| :: rows[i].target == Some(t) && Hidden(mid, rows[i]) {
      MarkedKeys(reg, rows, now, later, threshold, t);
      if Known(reg, t) {
        var i :| 0 <= i < |rows| && rows[i].target == Some(t) && Hidden(reg, rows[i]);
        MarkedLookup(reg, rows, now, later, threshold, i);
        assert Hidden(mid, rows[i]);
      } else {
        var i :| 0 <= i < |rows| && rows[i].target == Some(t) && Stale(rows[i], now, threshold);
        MarkedLookup(reg, rows, now, later, threshold, i);
        assert Hidden(mid, rows[i]);
      }
    }
  }

  /** So does dropping entries. */
  lemma FewerAllHide(reg: Registry, kept: Registry, rows: seq<Row>)
    requires Distinct(reg) && Distinct(kept) && (forall e | e in kept :: e in reg) && AllHide(reg, rows)
    ensures AllHide(kept, rows)
  {
    forall t | Known(kept, t) ensures exists i | 0 <= i < |rows| :: rows[i].target == Some(t) && Hidden(kept, rows[i]) {
      var e := Lookup(kept, t).value;
      LookupOfMember(reg, e);
      var i :| 0 <= i < |rows| && rows[i].target == Some(t) && Hidden(reg, rows[i]);
      assert Hidden(kept, rows[i]);
    }
  }

  /** Every session of the snapshot is stale, and none has to be released. */
  ghost predicate AllStale(rows: seq<Row>, now: real, threshold: real) {
    forall i | 0 <= i < |rows| :: Stale(rows[i], now, threshold)
  }

  /**
    More stale sessions than the cap: every scan leaves exactly the surplus visible.  Its registry is full, again has
    entries only of sessions it hides, and so the next scan does the same: it never settles.
  */
  lemma SurplusStaysVisible(reg: Registry, rows: seq<Row>, now: real, later: real, threshold: real)
    requires Identified(rows) && Loadable(reg) && ThresholdOk(threshold) && now <= later
    requires AllHide(reg, rows) && AllStale(rows, now, threshold) && |rows| > MAX_ARCHIVE_ENTRIES
    ensures var v := Scan(reg, rows, now, later, threshold);
            && |v.visible| == |rows| - MAX_ARCHIVE_ENTRIES && |v.archived| == MAX_ARCHIVE_ENTRIES
            && Loadable(v.registry) && AllHide(v.registry, rows)
  {
    var all := Marked(reg, rows, now, later, threshold);
    MarkedDistinct(reg, rows, now, later, threshold);
    MarkedAllHide(reg, rows, now, later, threshold);
    AllMarked(reg, rows, now, later, threshold);
    var dropped := RetainedKeepsNewest(all);
    var kept := Retained(all);
    forall e | e in kept ensures e in all {
      assert e in multiset(kept) && e in multiset(all);
    }
    FewerAllHide(all, kept, rows);
    AllHideCount(kept, rows);
  }

  /** With every session stale, all of them are marked, which the registry has no room for. */
  lemma AllMarked(reg: Registry, rows: seq<Row>, now: real, later: real, threshold: real)
    requires Identified(rows) && Loadable(reg) && ThresholdOk(threshold) && |rows| > MAX_ARCHIVE_ENTRIES
    requires AllStale(rows, now, threshold)
    ensures var all := Marked(reg, rows, now, later, threshold);
            |all| > MAX_ARCHIVE_ENTRIES && Archiving(reg, rows, now, later, threshold, NoFaults) == Some(Retained(all))
  {
    var all := Marked(reg, rows, now, later, threshold);
    StaleTargets(rows, now, threshold);
    MarkedDistinct(reg, rows, now, later, threshold);
    forall i | 0 <= i < |rows| ensures rows[i].target.value in Keys(all) {
      assert StaleTarget(rows, now, threshold, rows[i].target.value);
      MarkedKeys(reg, rows, now, later, threshold, rows[i].target.value);
      KnownIffKey(all, rows[i].target.value);
    }
    RowTargetCount(rows);
    Subsets(RowTargets(rows), Keys(all));
    SizeIsKeys(all);
    assert reg + [] == reg;
  }

  function RowTargets(rows: seq<Row>): set<Target> {
    set i | 0 <= i < |rows| && rows[i].target.Some? :: rows[i].target.value
  }

  lemma {:induction false} RowTargetCount(rows: seq<Row>)
    requires Identified(rows)
    ensures |RowTargets(rows)| == |rows|
  {
    if rows == [] {
      assert RowTargets(rows) == {};
    } else {
      var init, last := rows[..|rows| - 1], rows[|rows| - 1];
      RowTargetCount(init);
      assert forall i | 0 <= i < |init| :: init[i] == rows[i];
      forall t | t in RowTargets(rows) ensures t in RowTargets(init) + {last.target.value} {
        var i :| 0 <= i < |rows| && rows[i].target == Some(t);
        assert i < |init| ==> init[i].target == Some(t);
      }
      forall t | t in RowTargets(init) ensures t in RowTargets(rows) && t != last.target.value {
        var i :| 0 <= i < |init| && init[i].target == Some(t);
        assert rows[i].target == Some(t);
      }
      assert RowTargets(rows) == RowTargets(init) + {last.target.value};
    }
  }

  // ---------- failures ----------

  /** A registry that fails hides nothing; a scan that gets through is the one without faults. */
  lemma FailureHidesNothing(reg: Registry, rows: seq<Row>, now: real, later: real, threshold: real, f: Faults)
    ensures var v := FaultyScan(reg, rows, now, later, threshold, f);
            if v.failed then v.visible == rows && v.archived == [] else v == Scan(reg, rows, now, later, threshold)
  {
  }

  /** After a failed scan, the same scan tried again gives what it would have given at once: a failure loses nothing,
      and archives nothing that the retry would not. */
  lemma RetryRecovers(reg: Registry, rows: seq<Row>, now: real, later: real, threshold: real, f: Faults)
    requires Scannable(reg, rows, now, later, threshold) && FaultyScan(reg, rows, now, later, threshold, f).failed
    ensures Scan(FaultyScan(reg, rows, now, later, threshold, f).registry, rows, now, later, threshold)
            == Scan(reg, rows, now, later, threshold)
  {
    var mid := Marked(reg, rows, now, later, threshold);
    ScanUnderCap(reg, rows, now, later, threshold);
    StaleTargets(rows, now, threshold);
    var wanted := TargetsOf(StaleRows(rows, now, threshold)).value;
    forall t | t in wanted ensures Known(mid, t) {
      MarkedKeys(reg, rows, now, later, threshold, t);
    }
    AddedNothing(mid, wanted, later);
    assert mid + [] == mid;
    ScanUnderCap(mid, rows, now, later, threshold);
  }

  lemma {:induction false} NothingReleased(reg: Registry, rows: seq<Row>)
    requires forall i | 0 <= i < |rows| :: !Released(reg, rows[i])
    ensures ReleasedTargets(reg, rows) == []
  {
    if rows != [] {
      NothingReleased(reg, rows[1..]);
    }
  }

  lemma {:induction false} SameVerdicts(a: Registry, b: Registry, rows: seq<Row>)
    requires forall i | 0 <= i < |rows| :: Hidden(a, rows[i]) <==> Hidden(b, rows[i])
    ensures Visible(a, rows) == Visible(b, rows) && Archived(a, rows) == Archived(b, rows)
  {
    if rows != [] {
      forall i | 0 <= i < |rows[1..]| ensures Hidden(a, rows[1..][i]) <==> Hidden(b, rows[1..][i]) {
        assert rows[1..][i] == rows[i + 1];
      }
      SameVerdicts(a, b, rows[1..]);
    }
  }

  /** One scan need not be enough: a stale session whose entry is older than its last activity is released first. */
  lemma OneScanIsNotEnough(t: Target)
    ensures var row := Row(Some(t), Idle, 100.0);
            && Stale(row, 1000.0, 60.0)
            && Scan([Entry(t, 50.0)], [row], 1000.0, 1000.0, 60.0).visible == [row]
  {
    var row := Row(Some(t), Idle, 100.0);
    var reg := [Entry(t, 50.0)];
    assert [row][1..] == [] && reg[1..] == [];
    assert StaleRows([row], 1000.0, 60.0) == [row];
    assert TargetsOf([]) == Some([]) && [t] + [] == [t];
    AddedNothing(reg, [t], 1000.0);
    assert Visible(reg, [row]) == [row];
  }

  // ---------- the source's loops ----------

  /** The loop of `partition` after `i` rows. */
  ghost predicate Halfway(reg: Registry, rows: seq<Row>, i: nat, visible: seq<Row>, archived: seq<Row>,
                          gone: seq<Target>)
    requires i <= |rows|
  {
    && visible + Visible(reg, rows[i..]) == Visible(reg, rows)
    && archived + Archived(reg, rows[i..]) == Archived(reg, rows)
    && gone + ReleasedTargets(reg, rows[i..]) == ReleasedTargets(reg, rows)
  }

  lemma HalfwayStep(reg: Registry, rows: seq<Row>, i: nat, visible: seq<Row>, archived: seq<Row>, gone: seq<Target>)
    requires i < |rows| && Halfway(reg, rows, i, visible, archived, gone)
    ensures var row := rows[i];
            Halfway(reg, rows, i + 1, if Hidden(reg, row) then visible else visible + [row],
                    if Hidden(reg, row) then archived + [row] else archived,
                    if Released(reg, row) then gone + [row.target.value] else gone)
  {
    var rest := rows[i + 1..];
    assert rows[i..][1..] == rest && rows[i..][0] == rows[i];
    assert visible + ([rows[i]] + Visible(reg, rest)) == visible + [rows[i]] + Visible(reg, rest);
    assert archived + ([rows[i]] + Archived(reg, rest)) == archived + [rows[i]] + Archived(reg, rest);
    if Released(reg, rows[i]) {
      var t := rows[i].target.value;
      assert gone + ([t] + ReleasedTargets(reg, rest)) == gone + [t] + ReleasedTargets(reg, rest);
    }
  }

  lemma AddedStep(reg: Registry, added: seq<Entry>, targets: seq<Target>, i: nat, now: real)
    requires i < |targets|
    ensures var more := if Known(reg + added, targets[i]) then added else added + [Entry(targets[i], now)];
            more + Added(reg + more, targets[i + 1..], now) == added + Added(reg + added, targets[i..], now)
  {
    var rest, e := targets[i + 1..], Entry(targets[i], now);
    assert targets[i..][1..] == rest && targets[i..][0] == targets[i];
    assert reg + added + [e] == reg + (added + [e]);
    var tail := Added(reg + (added + [e]), rest, now);
    assert added + ([e] + tail) == added + [e] + tail;
  }

  class ArchiveStore {
    var registry: Registry

    constructor ()
      ensures registry == []
    {
      registry := [];
    }

    /** `archive`; `normalize_targets` is the first half of its loop. */
    method Archive(targets: seq<Target>, now: real, loadFails: bool, storeFails: bool)
      returns (ok: bool, added: seq<Entry>)
      modifies this
      ensures ok ==> added == Added(old(registry), targets, now)
      ensures ok ==> registry == if added == [] then old(registry) else Retained(old(registry) + added)
      ensures ok <==> targets == [] || !(loadFails || (storeFails && Added(old(registry), targets, now) != []))
      ensures !ok ==> registry == old(registry)
    {
      added := [];
      if targets == [] {
        return true, [];
      }
      if loadFails {
        return false, [];
      }
      assert registry + [] == registry;
      for i := 0 to |targets|
        invariant added + Added(registry + added, targets[i..], now) == Added(registry, targets, now)
        invariant registry == old(registry)
      {
        AddedStep(registry, added, targets, i, now);
        if !Known(registry + added, targets[i]) {
          added := added + [Entry(targets[i], now)];
        }
      }
      if added != [] {
        if storeFails {
          return false, added;
        }
        registry := Retained(registry + added);
      }
      ok := true;
    }

    /** `partition`. */
    method Split(rows: seq<Row>, loadFails: bool, storeFails: bool)
      returns (ok: bool, visible: seq<Row>, archived: seq<Row>)
      modifies this
      ensures ok <==> !(loadFails || (storeFails && ReleasedTargets(old(registry), rows) != []))
      ensures ok ==> View(registry, visible, archived, false) == Partition(old(registry), rows)
      ensures ok ==> DealtOut(rows, visible, archived)
      ensures !ok ==> registry == old(registry)
    {
      visible, archived := [], [];
      if loadFails {
        return false, [], [];
      }
      var gone: seq<Target> := [];
      assert rows[0..] == rows;
      for i := 0 to |rows|
        invariant registry == old(registry)
        invariant Halfway(registry, rows, i, visible, archived, gone)
      {
        var row := rows[i];
        HalfwayStep(registry, rows, i, visible, archived, gone);
        if row.target.None? {
          visible := visible + [row];
        } else {
          var entry := Lookup(registry, row.target.value);
          if entry.None? {
            visible := visible + [row];
          } else if row.updatedAt > entry.value.archivedAt {
            gone := gone + [row.target.value];
            visible := visible + [row];
          } else {
            archived := archived + [row];
          }
        }
      }
      assert visible == Visible(registry, rows) && archived == Archived(registry, rows)
        && gone == ReleasedTargets(registry, rows);
      PartitionDealsOut(registry, rows);
      if gone != [] {
        if storeFails {
          return false, visible, archived;
        }
        registry := Retained(Without(registry, gone));
      }
      ok := true;
    }

    /** `select_archivable`. */
    method SelectArchivable(rows: seq<Row>, now: real, threshold: real) returns (stale: seq<Row>)
      ensures stale == StaleRows(rows, now, threshold)
    {
      stale := [];
      for i := 0 to |rows|
        invariant stale + StaleRows(rows[i..], now, threshold) == StaleRows(rows, now, threshold)
      {
        assert rows[i..][1..] == rows[i + 1..];
        if rows[i].status in {Idle, Dead} && now - rows[i].updatedAt >= threshold {
          stale := stale + [rows[i]];
        }
      }
    }

    /** `_apply_archive` with the automatic policy on. */
    method ApplyArchive(rows: seq<Row>, now: real, later: real, threshold: real, f: Faults)
      returns (visible: seq<Row>, archived: seq<Row>, failed: bool)
      modifies this
      ensures View(registry, visible, archived, failed) == FaultyScan(old(registry), rows, now, later, threshold, f)
    {
      if !ThresholdOk(threshold) {
        return rows, [], true;
      }
      var stale := SelectArchivable(rows, now, threshold);
      var wanted := TargetsOf(stale);
      if wanted.None? {
        return rows, [], true;
      }
      if stale != [] {
        var done, _ := Archive(wanted.value, later, f.archiveLoad, f.archiveStore);
        if !done {
          return rows, [], true;
        }
      }
      var split;
      split, visible, archived := Split(rows, f.partitionLoad, f.partitionStore);
      if !split {
        return rows, [], true;
      }
      failed := false;
    }
  }
}
