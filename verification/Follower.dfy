/**
  The Cursor chat follower (sidecar/cursor_chat.py): a resumable cursor over a history that can
  grow, shrink or be rewritten.  `Poll` is one poll as a function of the cursor and of what the
  source showed during it; the class at the end of the file is the source's own form of it.
*/
module Follower {
  import opened Common
  import opened StableRead

  const MAX_PENDING_RECORDS: nat := MAX_MESSAGE_REFERENCES + 1
  const MAX_CHECKPOINT_BYTES: nat := 16 * 1024

  /** The raw 32 bytes of a content address. */
  type Id = s: seq<byte> | |s| == 32 witness seq(32, _ => 0)

  /** SHA-256 as an ideal hash: digests of different inputs differ. */
  datatype Digest = Sha256(preimage: seq<byte>)

  /** What a read can raise: a busy source, any other chat error, or an exception that is no chat error and that `poll`
      does not handle. */
  datatype ChatError = Busy | Failure | Escape

  datatype ChatState = ChatState(root: Id, messageIds: seq<Id>, provisionalHash: Option<Digest>,
    createdAt: Option<real>)

  datatype Stamp = SessionCreated(at: real) | Observed(at: real)

  datatype Record =
    | Durable(id: Id, root: Id, stamp: Stamp)
    | Provisional(content: Option<Digest>, root: Id, at: real)
    | SessionReset(root: Id, at: real)

  /** The fields that `poll` saves and restores. */
  datatype Cursor = Cursor(
    root: Option<Id>, count: nat, prefixHash: Digest, provisionalHash: Option<Digest>, initialized: bool,
    historical: nat, ids: Option<seq<Id>>, pending: bool, lastSignature: Option<Signature>)

  datatype Settings = Settings(fromStart: bool, maxRecords: nat) {
    predicate Valid() {
      0 < maxRecords <= MAX_PENDING_RECORDS
    }
  }

  /** What one poll gets from its surroundings: two stats, a snapshot, a clock, and reads of old roots. */
  datatype Observation = Observation(
    before: Result<Signature, ChatError>, snapshot: Result<ChatState, ChatError>, after: Result<Signature, ChatError>,
    observedAt: real, readRoot: Id -> Result<seq<Id>, ChatError>)

  datatype Outcome = Outcome(cursor: Cursor, records: seq<Record>, error: Option<ChatError>)

  // ---------- prefix hash ----------

  /** `_prefix_hash`. */
  function PrefixHash(ids: seq<Id>): Digest {
    Sha256(Join(ids))
  }

  const Fresh := Cursor(None, 0, PrefixHash([]), None, false, 0, Some([]), false, None)

  /** Concatenating 32-byte ids loses nothing, so equal prefix hashes mean equal prefixes. */
  lemma {:induction false} PrefixHashInjective(a: seq<Id>, b: seq<Id>)
    requires PrefixHash(a) == PrefixHash(b)
    ensures a == b
  {
    var x, y := Join(a), Join(b);
    assert (a != [] ==> |x| >= 32) && (b != [] ==> |y| >= 32);
    if a != [] && b != [] {
      assert a[0] == x[..32] == y[..32] == b[0];
      assert Join(a[1..]) == x[32..] == y[32..] == Join(b[1..]);
      PrefixHashInjective(a[1..], b[1..]);
      assert a == [a[0]] + a[1..] && b == [b[0]] + b[1..];
    }
  }

  // ---------- one poll ----------

  function Lcp(a: seq<Id>, b: seq<Id>): nat {
    if a != [] && b != [] && a[0] == b[0] then 1 + Lcp(a[1..], b[1..]) else 0
  }

  /** `_durable_record`: history that was there at the start carries the session's creation time. */
  function DurableRecord(historical: nat, st: ChatState, i: nat, at: real): Record
    requires i < |st.messageIds|
  {
    var stamp := if i < historical && st.createdAt.Some? then SessionCreated(st.createdAt.value) else Observed(at);
    Durable(st.messageIds[i], st.root, stamp)
  }

  function DurableBlock(historical: nat, st: ChatState, from: nat, end: nat, at: real): seq<Record>
    requires from <= end <= |st.messageIds|
    decreases end - from
  {
    if from == end then []
    else [DurableRecord(historical, st, from, at)] + DurableBlock(historical, st, from + 1, end, at)
  }

  /** `_emit_append`: the next block of messages, then the provisional message if it fits. */
  function EmitAppend(c: Cursor, st: ChatState, at: real, max: nat): (r: (Cursor, seq<Record>))
    requires c.count <= |st.messageIds|
  {
    var end := Min(|st.messageIds|, c.count + max);
    var durable := DurableBlock(c.historical, st, c.count, end, at);
    var d := c.(count := end, prefixHash := PrefixHash(st.messageIds[..end]), ids := Some(st.messageIds[..end]),
      root := Some(st.root));
    if end < |st.messageIds| then (d.(pending := true), durable)
    else if st.provisionalHash != c.provisionalHash && |durable| < max then
      (d.(provisionalHash := st.provisionalHash, pending := false),
       durable + [Provisional(st.provisionalHash, st.root, at)])
    else (d.(pending := st.provisionalHash != c.provisionalHash), durable)
  }

  /** `_anchor`. */
  function Anchor(c: Cursor, st: ChatState): Cursor {
    c.(root := Some(st.root), count := |st.messageIds|, prefixHash := PrefixHash(st.messageIds),
       provisionalHash := st.provisionalHash, ids := Some(st.messageIds), pending := false)
  }

  predicate PrefixMatches(c: Cursor, st: ChatState) {
    |st.messageIds| >= c.count && PrefixHash(st.messageIds[..c.count]) == c.prefixHash
  }

  /** `_previous_ids`. */
  function PreviousIds(c: Cursor, o: Observation): Result<seq<Id>, ChatError> {
    if c.ids.Some? then Ok(c.ids.value)
    else if c.root.None? then Ok([])
    else
      var read := o.readRoot(c.root.value);
      if read.Err? then read else Ok(read.value[..Min(|read.value|, c.count)])
  }

  /** Both stats and the snapshot succeed. */
  predicate Reads(o: Observation) {
    o.before.Ok? && o.snapshot.Ok? && o.after.Ok?
  }

  predicate Skips(c: Cursor, o: Observation) {
    o.before.Ok? && c.lastSignature == Some(o.before.value) && !c.pending
  }

  /** The poll once a state was read and its signatures compared. */
  function Advance(cfg: Settings, c: Cursor, st: ChatState, o: Observation): Outcome {
    if PrefixMatches(c, st) then
      var (d, records) := EmitAppend(c, st, o.observedAt, cfg.maxRecords);
      Outcome(d, records, None)
    else
      match PreviousIds(c, o)
      case Err(Busy) => Outcome(c, [], Some(Busy))
      case Err(Escape) => Outcome(c, [], Some(Escape))
      case Err(Failure) => Outcome(Anchor(c.(historical := 0), st), [SessionReset(st.root, o.observedAt)], None)
      case Ok(previous) =>
        var (d, records) := EmitAppend(Rewind(c, st, previous), st, o.observedAt, cfg.maxRecords);
        Outcome(d, records, None)
  }

  /** The cursor moved back to the longest common prefix of `previous` and the new history. */
  function Rewind(c: Cursor, st: ChatState, previous: seq<Id>): (e: Cursor)
    ensures e.count <= |st.messageIds|
  {
    var n := Lcp(previous, st.messageIds);
    LcpBounds(previous, st.messageIds);
    c.(count := n, prefixHash := PrefixHash(st.messageIds[..n]), ids := Some(st.messageIds[..n]),
      historical := Min(c.historical, n))
  }

  /** The cursor as the poll goes on with it: signature remembered if it held still, and initialized. */
  function Primed(c: Cursor, st: ChatState, o: Observation): Cursor {
    c.(lastSignature := if o.before.Ok? && o.before == o.after then Some(o.before.value) else None, initialized := true,
       historical := if c.initialized then c.historical else |st.messageIds|)
  }

  function Observe(cfg: Settings, c: Cursor, st: ChatState, o: Observation): Outcome {
    if !c.initialized && !cfg.fromStart then Outcome(Anchor(Primed(c, st, o).(historical := 0), st), [], None)
    else Advance(cfg, Primed(c, st, o), st, o)
  }

  /** `poll`.  A chat error rolls everything back; an exception that escapes while the old root is read does not. */
  function Poll(cfg: Settings, c: Cursor, o: Observation): Outcome {
    if o.before.Err? then Outcome(c, [], Some(o.before.error))
    else if Skips(c, o) then Outcome(c, [], None)
    else if o.snapshot.Err? then Outcome(c, [], Some(o.snapshot.error))
    else if o.after.Err? then Outcome(c, [], Some(o.after.error))
    else
      var r := Observe(cfg, c, o.snapshot.value, o);
      if r.error == Some(Busy) then Outcome(c, [], r.error) else r
  }

  lemma {:induction false} LcpBounds(a: seq<Id>, b: seq<Id>)
    ensures Lcp(a, b) <= |a| && Lcp(a, b) <= |b|
    ensures a[..Lcp(a, b)] == b[..Lcp(a, b)]
    ensures Lcp(a, b) < |a| && Lcp(a, b) < |b| ==> a[Lcp(a, b)] != b[Lcp(a, b)]
  {
    if a != [] && b != [] && a[0] == b[0] {
      LcpBounds(a[1..], b[1..]);
      var n := Lcp(a[1..], b[1..]);
      assert a[..n + 1] == [a[0]] + a[1..][..n];
      assert b[..n + 1] == [b[0]] + b[1..][..n];
    }
  }

  /** `Lcp` is the longest common prefix: any common prefix is no longer. */
  lemma LcpLongest(a: seq<Id>, b: seq<Id>, n: nat)
    requires n <= |a| && n <= |b| && a[..n] == b[..n]
    ensures n <= Lcp(a, b)
  {
    LcpBounds(a, b);
    assert forall i | 0 <= i < n :: a[..n][i] == b[..n][i];
  }

  // ---------- what a poll promises ----------

  function DurableIds(records: seq<Record>): seq<Id> {
    if records == [] then []
    else (if records[0].Durable? then [records[0].id] else []) + DurableIds(records[1..])
  }

  lemma {:induction false} DurableIdsAppend(a: seq<Record>, b: seq<Record>)
    ensures DurableIds(a + b) == DurableIds(a) + DurableIds(b)
  {
    if a == [] {
      assert a + b == b;
    } else {
      assert (a + b)[1..] == a[1..] + b;
      DurableIdsAppend(a[1..], b);
    }
  }

  lemma {:induction false} DurableIdsOfBlock(historical: nat, st: ChatState, from: nat, end: nat, at: real)
    requires from <= end <= |st.messageIds|
    ensures var block := DurableBlock(historical, st, from, end, at);
            DurableIds(block) == st.messageIds[from..end] && |block| == end - from
    decreases end - from
  {
    if from < end {
      DurableIdsOfBlock(historical, st, from + 1, end, at);
      assert st.messageIds[from..end] == [st.messageIds[from]] + st.messageIds[from + 1..end];
    }
  }

  /** Records owed for `st` when sending starts at place `n`. */
  function Owed(c: Cursor, st: ChatState, n: nat): nat
    requires n <= |st.messageIds|
  {
    |st.messageIds| - n + if st.provisionalHash != c.provisionalHash then 1 else 0
  }

  /** Records still owed for `st`: unsent messages, and one for a changed provisional message. */
  function Remaining(c: Cursor, st: ChatState): nat
    requires c.count <= |st.messageIds|
  {
    Owed(c, st, c.count)
  }

  /** A poll on the append path sends exactly the lesser of the cap and what is owed, in order. */
  lemma EmitAppendExact(c: Cursor, st: ChatState, at: real, max: nat)
    requires c.count <= |st.messageIds|
    ensures var (d, records) := EmitAppend(c, st, at, max);
            && d.count == Min(|st.messageIds|, c.count + max)
            && DurableIds(records) == st.messageIds[c.count..d.count]
            && |records| == Min(max, Remaining(c, st))
            && Remaining(d, st) == Remaining(c, st) - |records|
            && d.pending == (Remaining(d, st) > 0)
  {
    var end := Min(|st.messageIds|, c.count + max);
    DurableIdsOfBlock(c.historical, st, c.count, end, at);
    DurableIdsAppend(DurableBlock(c.historical, st, c.count, end, at), [Provisional(st.provisionalHash, st.root, at)]);
  }

  /** The cursor stands after `tracked`, a prefix of the history its root names. */
  ghost predicate Tracks(c: Cursor, tracked: seq<Id>, rootIds: Id -> seq<Id>) {
    && c.count == |tracked| <= MAX_MESSAGE_REFERENCES && c.historical <= MAX_MESSAGE_REFERENCES
    && c.prefixHash == PrefixHash(tracked)
    && (c.ids.Some? ==> c.ids.value == tracked)
    && (c.root.Some? ==> tracked <= rootIds(c.root.value))
    && c.initialized == c.root.Some?
    && (!c.initialized ==> c == Fresh)
  }

  /** A snapshot shows the messages its root blob names, within the scanner's bound. */
  ghost predicate WellFormed(o: Observation, rootIds: Id -> seq<Id>) {
    o.snapshot.Ok? ==>
      o.snapshot.value.messageIds == rootIds(o.snapshot.value.root)
        && |o.snapshot.value.messageIds| <= MAX_MESSAGE_REFERENCES
  }

  /** The history the cursor stands after once the poll is done. */
  function TrackedAfter(cfg: Settings, c: Cursor, tracked: seq<Id>, o: Observation): seq<Id> {
    var r := Poll(cfg, c, o);
    if r.error.Some? || Skips(c, o) || o.snapshot.Err? then tracked
    else o.snapshot.value.messageIds[..Min(r.cursor.count, |o.snapshot.value.messageIds|)]
  }

  lemma MatchMeansPrefix(c: Cursor, tracked: seq<Id>, st: ChatState)
    requires c.count == |tracked| && c.prefixHash == PrefixHash(tracked)
    ensures PrefixMatches(c, st) <==> tracked <= st.messageIds
  {
    if PrefixMatches(c, st) {
      PrefixHashInjective(st.messageIds[..c.count], tracked);
    }
    if tracked <= st.messageIds {
      assert st.messageIds[..c.count] == tracked;
    }
  }

  lemma LcpOfPrefix(a: seq<Id>, b: seq<Id>)
    requires a <= b
    ensures Lcp(a, b) == |a|
  {
    LcpBounds(a, b);
    LcpLongest(a, b, |a|);
  }

  /** Where `Advance` starts sending: the common prefix, or nowhere when it must re-anchor. */
  lemma AdvanceFromCommonPrefix(cfg: Settings, c: Cursor, tracked: seq<Id>, st: ChatState, o: Observation)
    requires c.count == |tracked| && c.prefixHash == PrefixHash(tracked)
    requires tracked <= st.messageIds || PreviousIds(c, o) == Ok(tracked)
    ensures var n := Lcp(tracked, st.messageIds);
            var e := if tracked <= st.messageIds then c else Rewind(c, st, tracked);
            && n == e.count <= |st.messageIds|
            && Advance(cfg, c, st, o) == Outcome(EmitAppend(e, st, o.observedAt, cfg.maxRecords).0,
                                                 EmitAppend(e, st, o.observedAt, cfg.maxRecords).1, None)
  {
    MatchMeansPrefix(c, tracked, st);
    if tracked <= st.messageIds {
      LcpOfPrefix(tracked, st.messageIds);
    }
  }

  /** Every poll keeps the cursor a true prefix of the newest history it has seen. */
  lemma PollKeepsTracking(cfg: Settings, c: Cursor, tracked: seq<Id>, o: Observation, rootIds: Id -> seq<Id>)
    requires cfg.Valid() && Tracks(c, tracked, rootIds) && WellFormed(o, rootIds)
    ensures Tracks(Poll(cfg, c, o).cursor, TrackedAfter(cfg, c, tracked, o), rootIds)
  {
    if Reads(o) && !Skips(c, o) {
      var st := o.snapshot.value;
      assert st.messageIds[..|st.messageIds|] == st.messageIds;
      AdvanceStandsOnHistory(cfg, Primed(c, st, o), st, o);
    }
  }

  lemma AdvanceStandsOnHistory(cfg: Settings, c: Cursor, st: ChatState, o: Observation)
    ensures var r := Advance(cfg, c, st, o);
            r.error.None? ==>
              && r.cursor.count <= |st.messageIds| && r.cursor.root == Some(st.root)
              && r.cursor.ids == Some(st.messageIds[..r.cursor.count])
              && r.cursor.prefixHash == PrefixHash(st.messageIds[..r.cursor.count])
              && r.cursor.historical <= c.historical && r.cursor.initialized == c.initialized
              && r.cursor.lastSignature == c.lastSignature
  {
    assert st.messageIds[..|st.messageIds|] == st.messageIds;
  }

  ghost predicate SentBlock(cfg: Settings, c: Cursor, tracked: seq<Id>, st: ChatState, r: Outcome) {
    var n := Lcp(tracked, st.messageIds);
    && r.error.None? && n <= r.cursor.count == Min(|st.messageIds|, n + cfg.maxRecords)
    && r.cursor.ids == Some(st.messageIds[..r.cursor.count])
    && r.cursor.prefixHash == PrefixHash(st.messageIds[..r.cursor.count])
    && r.cursor.root == Some(st.root)
    && DurableIds(r.records) == st.messageIds[n..r.cursor.count]
    && |r.records| == Min(cfg.maxRecords, Owed(c, st, n))
    && Owed(r.cursor, st, r.cursor.count) == Owed(c, st, n) - |r.records|
    && r.cursor.pending == (Owed(c, st, n) > cfg.maxRecords)
  }

  /**
    A successful poll that neither skips nor re-anchors leaves the cursor on a prefix of the
    newest history; its durable records are the contiguous block of that history which starts at
    the longest common prefix of the old cursor and the new history; and it sends exactly the lesser
    of the cap and what is owed from there on.  A history that only grew needs no old root.
  */
  lemma PollEmitsFromCommonPrefix(cfg: Settings, c: Cursor, tracked: seq<Id>, o: Observation, rootIds: Id -> seq<Id>)
    requires cfg.Valid() && Tracks(c, tracked, rootIds) && WellFormed(o, rootIds)
    requires Reads(o) && !Skips(c, o) && (c.initialized || cfg.fromStart)
    requires tracked <= o.snapshot.value.messageIds || PreviousIds(c, o) == Ok(tracked)
    ensures SentBlock(cfg, c, tracked, o.snapshot.value, Poll(cfg, c, o))
    ensures Poll(cfg, c, o).cursor.lastSignature == if o.before == o.after then Some(o.before.value) else None
  {
    var st := o.snapshot.value;
    var p := Primed(c, st, o);
    AdvanceFromCommonPrefix(cfg, p, tracked, st, o);
    var e := if tracked <= st.messageIds then p else Rewind(p, st, tracked);
    EmittedBlock(cfg, c, e, tracked, st, o.observedAt);
  }

  lemma EmittedBlock(cfg: Settings, c: Cursor, e: Cursor, tracked: seq<Id>, st: ChatState, at: real)
    requires e.count == Lcp(tracked, st.messageIds) <= |st.messageIds| && e.provisionalHash == c.provisionalHash
    ensures var (d, records) := EmitAppend(e, st, at, cfg.maxRecords);
            SentBlock(cfg, c, tracked, st, Outcome(d, records, None)) && d.lastSignature == e.lastSignature
  {
    EmitAppendExact(e, st, at, cfg.maxRecords);
    EmitAppendStands(e, st, at, cfg.maxRecords);
    var (d, records) := EmitAppend(e, st, at, cfg.maxRecords);
    BlockOf(cfg, c, e, tracked, st, d, records);
  }

  lemma EmitAppendStands(c: Cursor, st: ChatState, at: real, max: nat)
    requires c.count <= |st.messageIds|
    ensures Stands(EmitAppend(c, st, at, max).0, st) && EmitAppend(c, st, at, max).0.lastSignature == c.lastSignature
  {
  }

  /** The cursor stands on a prefix of `st`. */
  ghost predicate Stands(d: Cursor, st: ChatState) {
    && d.count <= |st.messageIds| && d.ids == Some(st.messageIds[..d.count])
    && d.prefixHash == PrefixHash(st.messageIds[..d.count]) && d.root == Some(st.root)
  }

  lemma BlockOf(cfg: Settings, c: Cursor, e: Cursor, tracked: seq<Id>, st: ChatState, d: Cursor, records: seq<Record>)
    requires e.count == Lcp(tracked, st.messageIds) <= |st.messageIds| && e.provisionalHash == c.provisionalHash
    requires Stands(d, st) && d.count == Min(|st.messageIds|, e.count + cfg.maxRecords)
    requires DurableIds(records) == st.messageIds[e.count..d.count]
    requires |records| == Min(cfg.maxRecords, Remaining(e, st))
    requires Remaining(d, st) == Remaining(e, st) - |records| && d.pending == (Remaining(d, st) > 0)
    ensures SentBlock(cfg, c, tracked, st, Outcome(d, records, None))
  {
  }

  // ---------- the records themselves ----------

  lemma {:induction false} DurableBlockAt(historical: nat, st: ChatState, from: nat, end: nat, at: real, k: nat)
    requires from <= end <= |st.messageIds| && k < end - from
    ensures |DurableBlock(historical, st, from, end, at)| == end - from
    ensures DurableBlock(historical, st, from, end, at)[k] == DurableRecord(historical, st, from + k, at)
    decreases k
  {
    DurableIdsOfBlock(historical, st, from, end, at);
    if k > 0 {
      DurableBlockAt(historical, st, from + 1, end, at, k - 1);
    }
  }

  /** The time of the message at place `i`: that of the session for what was there from the start, if it is known, and
      else the time it was observed. */
  ghost predicate Stamped(record: Record, st: ChatState, i: nat, historical: nat, at: real)
    requires i < |st.messageIds|
  {
    && record.Durable? && record.id == st.messageIds[i] && record.root == st.root
    && (st.createdAt.Some? && i < historical ==> record.stamp == SessionCreated(st.createdAt.value))
    && (st.createdAt.None? || i >= historical ==> record.stamp == Observed(at))
  }

  /** `records` are the messages from place `n` to the cursor's, and behind them the provisional one exactly when
      the cap leaves room for a changed one. */
  ghost predicate SentRecords(records: seq<Record>, d: Cursor, st: ChatState, n: nat, provisional: Option<Digest>,
                              at: real, max: nat)
  {
    && n <= d.count <= |st.messageIds| && |records| >= d.count - n
    && (forall k | 0 <= k < d.count - n :: Stamped(records[k], st, n + k, d.historical, at))
    && records[d.count - n..] ==
         if d.count == |st.messageIds| && st.provisionalHash != provisional && d.count - n < max
         then [Provisional(st.provisionalHash, st.root, at)] else []
  }

  lemma EmitRecords(c: Cursor, st: ChatState, at: real, max: nat)
    requires c.count <= |st.messageIds|
    ensures var (d, records) := EmitAppend(c, st, at, max);
            SentRecords(records, d, st, c.count, c.provisionalHash, at, max) && d.historical == c.historical
  {
    var (d, records) := EmitAppend(c, st, at, max);
    var block := DurableBlock(c.historical, st, c.count, d.count, at);
    DurableIdsOfBlock(c.historical, st, c.count, d.count, at);
    forall k | 0 <= k < d.count - c.count ensures Stamped(records[k], st, c.count + k, c.historical, at) {
      DurableBlockAt(c.historical, st, c.count, d.count, at, k);
    }
    assert records == block + records[|block|..];
  }

  /** The records of a poll, one by one: the messages behind the common prefix in order, each with its time, and the
      provisional message if it changed and there is room. */
  lemma PollRecords(cfg: Settings, c: Cursor, tracked: seq<Id>, o: Observation, rootIds: Id -> seq<Id>)
    requires cfg.Valid() && Tracks(c, tracked, rootIds) && WellFormed(o, rootIds)
    requires Reads(o) && !Skips(c, o) && (c.initialized || cfg.fromStart)
    requires tracked <= o.snapshot.value.messageIds || PreviousIds(c, o) == Ok(tracked)
    ensures var r, n := Poll(cfg, c, o), Lcp(tracked, o.snapshot.value.messageIds);
            SentRecords(r.records, r.cursor, o.snapshot.value, n, c.provisionalHash, o.observedAt, cfg.maxRecords)
  {
    var st := o.snapshot.value;
    var p := Primed(c, st, o);
    AdvanceFromCommonPrefix(cfg, p, tracked, st, o);
    EmitRecords(if tracked <= st.messageIds then p else Rewind(p, st, tracked), st, o.observedAt, cfg.maxRecords);
  }

  /** The poll moves the follower back to or before place `i`, or resets it. */
  ghost predicate Disturbs(c: Cursor, tracked: seq<Id>, o: Observation, i: nat) {
    && Reads(o) && !Skips(c, o) && !(tracked <= o.snapshot.value.messageIds)
    && (PreviousIds(c, o) == Ok(tracked) ==> i >= Lcp(tracked, o.snapshot.value.messageIds))
    && (PreviousIds(c, o).Ok? || PreviousIds(c, o) == Err(Failure))
  }

  ghost predicate Stood(cfg: Settings, c: Cursor, tracked: seq<Id>, run: seq<Observation>, i: nat)
    decreases |run|
  {
    run != [] ==>
      && !Disturbs(c, tracked, run[0], i)
      && Stood(cfg, Poll(cfg, c, run[0]).cursor, TrackedAfter(cfg, c, tracked, run[0]), run[1..], i)
  }

  lemma PollKeepsHistorical(cfg: Settings, c: Cursor, tracked: seq<Id>, o: Observation, rootIds: Id -> seq<Id>, i: nat)
    requires cfg.Valid() && Tracks(c, tracked, rootIds) && c.initialized && RootTrue(c, o, rootIds)
    ensures Poll(cfg, c, o).cursor.initialized
    ensures i < Poll(cfg, c, o).cursor.historical <==> i < c.historical && !Disturbs(c, tracked, o, i)
  {
    if Reads(o) && !Skips(c, o) {
      var st := o.snapshot.value;
      HistoryAtHand(c, tracked, o, rootIds);
      MatchMeansPrefix(Primed(c, st, o), tracked, st);
      assert PreviousIds(Primed(c, st, o), o) == PreviousIds(c, o);
    }
  }

  /** A message counts as there from the start as long as the follower has not moved back over its place. */
  lemma {:induction false} HistoricalMeansStood(cfg: Settings, c: Cursor, tracked: seq<Id>, run: seq<Observation>,
                                                rootIds: Id -> seq<Id>, i: nat)
    requires cfg.Valid() && Tracks(c, tracked, rootIds) && c.initialized && AllWellFormed(run, rootIds)
    requires forall k | 0 <= k < |run| :: TrueRoots(run[k], rootIds)
    ensures i < Run(cfg, c, run).0.historical <==> i < c.historical && Stood(cfg, c, tracked, run, i)
    decreases |run|
  {
    if run != [] {
      PollKeepsHistorical(cfg, c, tracked, run[0], rootIds, i);
      PollKeepsTracking(cfg, c, tracked, run[0], rootIds);
      var next := TrackedAfter(cfg, c, tracked, run[0]);
      HistoricalMeansStood(cfg, Poll(cfg, c, run[0]).cursor, next, run[1..], rootIds, i);
    }
  }

  /** The first poll from the start, and what is stamped with the session's time ever after: the messages it found, at
      places that the follower has not moved back over since. */
  lemma OriginalMessages(cfg: Settings, o: Observation, run: seq<Observation>, rootIds: Id -> seq<Id>, i: nat)
    requires cfg.Valid() && cfg.fromStart && Reads(o) && WellFormed(o, rootIds) && AllWellFormed(run, rootIds)
    requires forall k | 0 <= k < |run| :: TrueRoots(run[k], rootIds)
    ensures var c, tracked := Poll(cfg, Fresh, o).cursor, TrackedAfter(cfg, Fresh, [], o);
            i < Run(cfg, c, run).0.historical <==> i < |o.snapshot.value.messageIds| && Stood(cfg, c, tracked, run, i)
  {
    var c, tracked := Poll(cfg, Fresh, o).cursor, TrackedAfter(cfg, Fresh, [], o);
    PollKeepsTracking(cfg, Fresh, [], o, rootIds);
    MatchMeansPrefix(Primed(Fresh, o.snapshot.value, o), [], o.snapshot.value);
    HistoricalMeansStood(cfg, c, tracked, run, rootIds, i);
  }

  /** The first poll of a follower that does not start from the beginning says nothing and stands behind everything. */
  lemma FirstPollAnchors(cfg: Settings, c: Cursor, o: Observation)
    requires !c.initialized && !cfg.fromStart && Reads(o) && !Skips(c, o)
    ensures var r, st := Poll(cfg, c, o), o.snapshot.value;
            && r.records == [] && r.error.None? && r.cursor.historical == 0 && !r.cursor.pending
            && CaughtUp(r.cursor, st.messageIds, st) && Stands(r.cursor, st) && r.cursor.count == |st.messageIds|
  {
    var ids := o.snapshot.value.messageIds;
    assert ids[..|ids|] == ids;
  }

  /** No poll of any kind sends more than the cap. */
  lemma PollIsBounded(cfg: Settings, c: Cursor, o: Observation)
    requires cfg.Valid()
    ensures |Poll(cfg, c, o).records| <= cfg.maxRecords
  {
    if Reads(o) && !Skips(c, o) {
      var st := o.snapshot.value;
      var p := Primed(c, st, o);
      if PrefixMatches(p, st) {
        EmitAppendExact(p, st, o.observedAt, cfg.maxRecords);
      } else if PreviousIds(p, o).Ok? {
        EmitAppendExact(Rewind(p, st, PreviousIds(p, o).value), st, o.observedAt, cfg.maxRecords);
      }
    }
  }

  // ---------- runs ----------

  /** The cursor after a run of polls, and the records of each poll. */
  function Run(cfg: Settings, c: Cursor, run: seq<Observation>): (Cursor, seq<seq<Record>>)
    decreases |run|
  {
    if run == [] then (c, [])
    else
      var r := Poll(cfg, c, run[0]);
      var rest := Run(cfg, r.cursor, run[1..]);
      (rest.0, [r.records] + rest.1)
  }

  /** Every history seen extends `tracked` and every history seen before it. */
  ghost predicate AppendOnly(tracked: seq<Id>, run: seq<Observation>) {
    && (forall i | 0 <= i < |run| && run[i].snapshot.Ok? :: tracked <= run[i].snapshot.value.messageIds)
    && (forall i, j | 0 <= i < j < |run| && run[i].snapshot.Ok? && run[j].snapshot.Ok? ::
          run[i].snapshot.value.messageIds <= run[j].snapshot.value.messageIds)
  }

  ghost predicate AllWellFormed(run: seq<Observation>, rootIds: Id -> seq<Id>) {
    forall i | 0 <= i < |run| :: WellFormed(run[i], rootIds)
  }

  /**
    Over an append-only history, whatever fails, races or is skipped in between, what was sent so
    far followed by what the run sends is exactly the prefix the cursor ends on: each message once,
    in order, without a gap, and never a reset.
  */
  lemma {:induction false} AppendOnlySendsEachOnce(cfg: Settings, c: Cursor, tracked: seq<Id>, run: seq<Observation>,
                                                   rootIds: Id -> seq<Id>)
    requires Following(cfg, c, tracked, run, rootIds)
    ensures SendsEachOnce(tracked, Run(cfg, c, run).0, Run(cfg, c, run).1, rootIds)
    decreases |run|
  {
    if run == [] {
      assert tracked + [] == tracked;
    } else {
      var r, next := FirstPoll(cfg, c, tracked, run, rootIds);
      AppendOnlySendsEachOnce(cfg, r.cursor, next, run[1..], rootIds);
      var rest := Run(cfg, r.cursor, run[1..]);
      PrependBatch(tracked, next, r.records, rest.0, rest.1, rootIds);
    }
  }

  /** A follower that stands behind `tracked`, restored or not, before polls of a history that only grows from there. */
  ghost predicate Following(cfg: Settings, c: Cursor, tracked: seq<Id>, run: seq<Observation>, rootIds: Id -> seq<Id>) {
    && cfg.Valid() && Tracks(c, tracked, rootIds) && (c.initialized || cfg.fromStart)
    && AllWellFormed(run, rootIds) && AppendOnly(tracked, run)
  }

  /** `records` takes a history of `tracked` to `next`, without a reset. */
  ghost predicate Extends(tracked: seq<Id>, records: seq<Record>, next: seq<Id>) {
    next == tracked + DurableIds(records) && forall x | x in records :: !x.SessionReset?
  }

  lemma FirstPoll(cfg: Settings, c: Cursor, tracked: seq<Id>, run: seq<Observation>, rootIds: Id -> seq<Id>)
    returns (r: Outcome, next: seq<Id>)
    requires run != [] && Following(cfg, c, tracked, run, rootIds)
    ensures Following(cfg, r.cursor, next, run[1..], rootIds) && Extends(tracked, r.records, next)
    ensures r == Poll(cfg, c, run[0])
    ensures var rest := Run(cfg, r.cursor, run[1..]); Run(cfg, c, run) == (rest.0, [r.records] + rest.1)
  {
    r, next := Poll(cfg, c, run[0]), TrackedAfter(cfg, c, tracked, run[0]);
    OnePollOfAppendOnly(cfg, c, tracked, run[0], rootIds);
    StillAppendOnly(tracked, next, run);
  }

  /** The cursor `d` ends on what was sent before and in `batches`, and nothing was reset. */
  ghost predicate SendsEachOnce(tracked: seq<Id>, d: Cursor, batches: seq<seq<Record>>, rootIds: Id -> seq<Id>) {
    && Tracks(d, tracked + DurableIds(Join(batches)), rootIds)
    && (forall r | r in Join(batches) :: !r.SessionReset?)
  }

  /** The first poll of the run that reads the source. */
  ghost predicate FirstRead(run: seq<Observation>, k: nat) {
    k < |run| && Reads(run[k]) && forall j | 0 <= j < k :: !Reads(run[j])
  }

  /**
    A follower that does not start from the beginning: over an append-only history it sends exactly the messages behind
    those of the first poll that read the source, each once and in order.
  */
  lemma {:induction false} AnchoredSendsTheRest(cfg: Settings, run: seq<Observation>, k: nat, rootIds: Id -> seq<Id>)
    requires cfg.Valid() && !cfg.fromStart && AllWellFormed(run, rootIds) && AppendOnly([], run) && FirstRead(run, k)
    ensures SendsEachOnce(run[k].snapshot.value.messageIds, Run(cfg, Fresh, run).0, Run(cfg, Fresh, run).1, rootIds)
    decreases |run|
  {
    var ids, r := run[k].snapshot.value.messageIds, Poll(cfg, Fresh, run[0]);
    assert run[1..] != [] ==> forall i | 0 <= i < |run[1..]| :: run[1..][i] == run[i + 1];
    if k == 0 {
      FirstPollAnchors(cfg, Fresh, run[0]);
      PollKeepsTracking(cfg, Fresh, [], run[0], rootIds);
      assert ids[..|ids|] == ids;
      StillAppendOnly([], ids, run);
      AppendOnlySendsEachOnce(cfg, r.cursor, ids, run[1..], rootIds);
    } else {
      assert r == Outcome(Fresh, [], r.error);
      AnchoredSendsTheRest(cfg, run[1..], k - 1, rootIds);
    }
    var rest := Run(cfg, r.cursor, run[1..]);
    assert ids + [] == ids;
    PrependBatch(ids, ids, r.records, rest.0, rest.1, rootIds);
  }

  lemma StillAppendOnly(tracked: seq<Id>, next: seq<Id>, run: seq<Observation>)
    requires run != [] && AppendOnly(tracked, run)
    requires next == tracked || (run[0].snapshot.Ok? && next <= run[0].snapshot.value.messageIds)
    ensures AppendOnly(next, run[1..])
  {
    forall i | 0 <= i < |run[1..]| && run[1..][i].snapshot.Ok? ensures next <= run[1..][i].snapshot.value.messageIds {
      assert run[1..][i] == run[i + 1];
    }
  }

  lemma PrependBatch(tracked: seq<Id>, next: seq<Id>, records: seq<Record>, d: Cursor, batches: seq<seq<Record>>,
                     rootIds: Id -> seq<Id>)
    requires SendsEachOnce(next, d, batches, rootIds) && Extends(tracked, records, next)
    ensures SendsEachOnce(tracked, d, [records] + batches, rootIds)
  {
    assert ([records] + batches)[1..] == batches;
    DurableIdsAppend(records, Join(batches));
    var a, b := DurableIds(records), DurableIds(Join(batches));
    assert tracked + a + b == tracked + (a + b);
  }

  /** Facts about one poll of an append-only history. */
  ghost predicate Extended(cfg: Settings, tracked: seq<Id>, o: Observation, r: Outcome, next: seq<Id>,
                           rootIds: Id -> seq<Id>) {
    && Tracks(r.cursor, next, rootIds) && (r.cursor.initialized || cfg.fromStart)
    && Extends(tracked, r.records, next)
    && (o.snapshot.Ok? ==> next <= o.snapshot.value.messageIds)
  }

  lemma OnePollOfAppendOnly(cfg: Settings, c: Cursor, tracked: seq<Id>, o: Observation, rootIds: Id -> seq<Id>)
    requires cfg.Valid() && Tracks(c, tracked, rootIds) && (c.initialized || cfg.fromStart)
    requires WellFormed(o, rootIds) && (o.snapshot.Ok? ==> tracked <= o.snapshot.value.messageIds)
    ensures Extended(cfg, tracked, o, Poll(cfg, c, o), TrackedAfter(cfg, c, tracked, o), rootIds)
  {
    PollKeepsTracking(cfg, c, tracked, o, rootIds);
    if Reads(o) && !Skips(c, o) {
      PollEmitsFromCommonPrefix(cfg, c, tracked, o, rootIds);
      BlockOnly(cfg, c, tracked, o);
      ExtendedByBlock(cfg, c, tracked, o, Poll(cfg, c, o), TrackedAfter(cfg, c, tracked, o), rootIds);
    } else {
      assert tracked + [] == tracked;
    }
  }

  lemma ExtendedByBlock(cfg: Settings, c: Cursor, tracked: seq<Id>, o: Observation, r: Outcome, next: seq<Id>,
                        rootIds: Id -> seq<Id>)
    requires o.snapshot.Ok? && SentBlock(cfg, c, tracked, o.snapshot.value, r) && Tracks(r.cursor, next, rootIds)
    requires tracked <= o.snapshot.value.messageIds
    requires forall x | x in r.records :: !x.SessionReset?
    ensures Extended(cfg, tracked, o, r, next, rootIds)
  {
    var ids := o.snapshot.value.messageIds;
    LcpOfPrefix(tracked, ids);
    assert ids[..r.cursor.count] == tracked + ids[|tracked|..r.cursor.count];
  }

  /** A poll that finds its place in the new history sends no reset. */
  lemma BlockOnly(cfg: Settings, c: Cursor, tracked: seq<Id>, o: Observation)
    requires Reads(o) && !Skips(c, o) && (c.initialized || cfg.fromStart)
    requires c.count == |tracked| && c.prefixHash == PrefixHash(tracked)
    requires tracked <= o.snapshot.value.messageIds || PreviousIds(c, o) == Ok(tracked)
    ensures forall x | x in Poll(cfg, c, o).records :: !x.SessionReset?
  {
    var st := o.snapshot.value;
    var p := Primed(c, st, o);
    AdvanceFromCommonPrefix(cfg, p, tracked, st, o);
    var e := if tracked <= st.messageIds then p else Rewind(p, st, tracked);
    EmitHasNoReset(e, st, o.observedAt, cfg.maxRecords);
  }

  lemma EmitHasNoReset(c: Cursor, st: ChatState, at: real, max: nat)
    requires c.count <= |st.messageIds|
    ensures forall x | x in EmitAppend(c, st, at, max).1 :: !x.SessionReset?
  {
    BlockHasNoReset(c.historical, st, c.count, Min(|st.messageIds|, c.count + max), at);
  }

  lemma {:induction false} BlockHasNoReset(historical: nat, st: ChatState, from: nat, end: nat, at: real)
    requires from <= end <= |st.messageIds|
    ensures forall r | r in DurableBlock(historical, st, from, end, at) :: !r.SessionReset?
    decreases end - from
  {
    if from < end {
      BlockHasNoReset(historical, st, from + 1, end, at);
    }
  }

  /** A source that stands still. */
  predicate Still(o: Observation, st: ChatState) {
    o.before.Ok? && o.after == o.before && o.snapshot == Ok(st)
  }

  function PollTimes(cfg: Settings, c: Cursor, o: Observation, k: nat): Cursor
    decreases k
  {
    if k == 0 then c else PollTimes(cfg, Poll(cfg, c, o).cursor, o, k - 1)
  }

  function SentIn(cfg: Settings, c: Cursor, o: Observation, k: nat): nat
    decreases k
  {
    if k == 0 then 0 else |Poll(cfg, c, o).records| + SentIn(cfg, Poll(cfg, c, o).cursor, o, k - 1)
  }

  /** A follower that is behind `tracked`, before polls of a source that stands still and has grown from there. */
  ghost predicate Standing(cfg: Settings, c: Cursor, tracked: seq<Id>, o: Observation, st: ChatState,
                           rootIds: Id -> seq<Id>) {
    && cfg.Valid() && Tracks(c, tracked, rootIds) && (c.initialized || cfg.fromStart)
    && Still(o, st) && WellFormed(o, rootIds) && tracked <= st.messageIds
  }

  /** Over a source that stopped changing, `k` polls send the lesser of what was owed and `k` times
      the cap, and the pending flag is clear exactly when that is all. */
  lemma {:induction false} PendingClearsOnTime(cfg: Settings, c: Cursor, tracked: seq<Id>, o: Observation,
                                               st: ChatState, k: nat, rootIds: Id -> seq<Id>)
    requires Standing(cfg, c, tracked, o, st, rootIds) && k > 0 && !Skips(c, o)
    ensures SentIn(cfg, c, o, k) == Min(Times(k, cfg.maxRecords), Remaining(c, st))
    ensures PollTimes(cfg, c, o, k).pending == (Times(k, cfg.maxRecords) < Remaining(c, st))
    decreases k, 0
  {
    var r, next := StillPoll(cfg, c, tracked, o, st, rootIds);
    LaterPolls(cfg, r.cursor, next, o, st, k - 1, rootIds);
    FirstOfPolls(cfg, c, o, k, r);
    OnePollFewer(k, cfg.maxRecords, Remaining(c, st));
  }

  /** After one poll: the follower goes on if something is pending, and skips from then on. */
  lemma {:induction false} LaterPolls(cfg: Settings, c: Cursor, tracked: seq<Id>, o: Observation, st: ChatState, k: nat,
                                      rootIds: Id -> seq<Id>)
    requires Standing(cfg, c, tracked, o, st, rootIds) && c.lastSignature == Some(o.before.value)
    requires c.pending == (Remaining(c, st) > 0)
    ensures SentIn(cfg, c, o, k) == Min(Times(k, cfg.maxRecords), Remaining(c, st))
    ensures PollTimes(cfg, c, o, k).pending == (Times(k, cfg.maxRecords) < Remaining(c, st))
    decreases k, 1
  {
    if k > 0 && c.pending {
      PendingClearsOnTime(cfg, c, tracked, o, st, k, rootIds);
    } else if k > 0 {
      SkippingStays(cfg, c, o, k);
    }
  }

  lemma FirstOfPolls(cfg: Settings, c: Cursor, o: Observation, k: nat, r: Outcome)
    requires k > 0 && r == Poll(cfg, c, o)
    ensures SentIn(cfg, c, o, k) == |r.records| + SentIn(cfg, r.cursor, o, k - 1)
    ensures PollTimes(cfg, c, o, k) == PollTimes(cfg, r.cursor, o, k - 1)
  {
  }

  lemma OnePollFewer(k: nat, each: nat, owed: nat)
    requires k > 0
    ensures var first := Min(each, owed);
            && first + Min(Times(k - 1, each), owed - first) == Min(Times(k, each), owed)
            && (Times(k - 1, each) < owed - first <==> Times(k, each) < owed)
  {
  }

  lemma StillPoll(cfg: Settings, c: Cursor, tracked: seq<Id>, o: Observation, st: ChatState, rootIds: Id -> seq<Id>)
    returns (r: Outcome, next: seq<Id>)
    requires Standing(cfg, c, tracked, o, st, rootIds) && !Skips(c, o)
    ensures r == Poll(cfg, c, o) && Standing(cfg, r.cursor, next, o, st, rootIds)
    ensures |r.records| == Min(cfg.maxRecords, Remaining(c, st))
            && Remaining(r.cursor, st) == Remaining(c, st) - |r.records|
    ensures r.cursor.pending == (Remaining(r.cursor, st) > 0) && r.cursor.lastSignature == Some(o.before.value)
  {
    r, next := Poll(cfg, c, o), TrackedAfter(cfg, c, tracked, o);
    PollEmitsFromCommonPrefix(cfg, c, tracked, o, rootIds);
    LcpOfPrefix(tracked, st.messageIds);
    OnePollOfAppendOnly(cfg, c, tracked, o, rootIds);
  }

  lemma {:induction false} SkippingStays(cfg: Settings, c: Cursor, o: Observation, k: nat)
    requires Skips(c, o)
    ensures PollTimes(cfg, c, o, k) == c && SentIn(cfg, c, o, k) == 0
  {
    if k > 0 {
      SkippingStays(cfg, c, o, k - 1);
    }
  }

  // ---------- the skip path ----------

  /** The cursor has nothing left to say about `st`. */
  ghost predicate CaughtUp(c: Cursor, tracked: seq<Id>, st: ChatState) {
    c.initialized && c.root == Some(st.root) && tracked == st.messageIds && c.provisionalHash == st.provisionalHash
  }

  /** A signature names one state: a poll whose two stats agree saw that state. */
  ghost predicate Coherent(o: Observation, stateAt: Signature -> Option<ChatState>) {
    o.before.Ok? && o.before == o.after && o.snapshot.Ok? ==> stateAt(o.before.value) == Some(o.snapshot.value)
  }

  ghost predicate Remembers(c: Cursor, tracked: seq<Id>, stateAt: Signature -> Option<ChatState>) {
    c.lastSignature.Some? && !c.pending ==>
      var st := stateAt(c.lastSignature.value);
      st.Some? && CaughtUp(c, tracked, st.value)
  }

  /** Whether the memory of a follower is true after a poll: reading makes it so; a poll that does nothing leaves it
      as it was; and an exception that escapes makes it false when the signature held still and nothing was pending. */
  ghost predicate MemoryAfter(c: Cursor, tracked: seq<Id>, o: Observation, remembers: bool) {
    if !Reads(o) || Skips(c, o) then remembers
    else if tracked <= o.snapshot.value.messageIds || PreviousIds(c, o).Ok? then true
    else
      match PreviousIds(c, o).error
      case Busy => remembers
      case Failure => true
      case Escape => o.before != o.after || c.pending
  }

  /** A remembered signature without pending records means that the cursor is caught up, exactly as `MemoryAfter`
      says. */
  lemma PollKeepsMemory(cfg: Settings, c: Cursor, tracked: seq<Id>, o: Observation, rootIds: Id -> seq<Id>,
                        stateAt: Signature -> Option<ChatState>)
    requires cfg.Valid() && Tracks(c, tracked, rootIds) && WellFormed(o, rootIds) && Coherent(o, stateAt)
    ensures Remembers(Poll(cfg, c, o).cursor, TrackedAfter(cfg, c, tracked, o), stateAt)
            <==> MemoryAfter(c, tracked, o, Remembers(c, tracked, stateAt))
  {
    if Reads(o) && !Skips(c, o) {
      var st := o.snapshot.value;
      var p := Primed(c, st, o);
      MatchMeansPrefix(p, tracked, st);
      assert PreviousIds(p, o) == PreviousIds(c, o);
      if !Escapes(c, tracked, o) {
        assert st.messageIds[..|st.messageIds|] == st.messageIds;
        AdvanceStandsOnHistory(cfg, p, st, o);
        AdvanceCatchesUp(cfg, p, st, o);
      }
    }
  }

  /** The poll needs the old root, and reading it raises something that is no chat error. */
  ghost predicate Escapes(c: Cursor, tracked: seq<Id>, o: Observation) {
    Reads(o) && !Skips(c, o) && !(tracked <= o.snapshot.value.messageIds) && PreviousIds(c, o) == Err(Escape)
  }

  /** What such a poll leaves behind: the old place with the new signature. */
  lemma EscapeKeepsPlace(cfg: Settings, c: Cursor, tracked: seq<Id>, o: Observation, rootIds: Id -> seq<Id>)
    requires Tracks(c, tracked, rootIds) && Escapes(c, tracked, o)
    ensures Poll(cfg, c, o) == Outcome(Primed(c, o.snapshot.value, o), [], Some(Escape)) && c.initialized
    ensures SamePlace(Poll(cfg, c, o).cursor, c)
  {
    MatchMeansPrefix(Primed(c, o.snapshot.value, o), tracked, o.snapshot.value);
  }

  /** From then on the follower is silent for as long as the source keeps that signature. */
  lemma EscapeSilences(cfg: Settings, c: Cursor, tracked: seq<Id>, o: Observation, rest: seq<Observation>,
                       rootIds: Id -> seq<Id>)
    requires Tracks(c, tracked, rootIds) && Escapes(c, tracked, o) && o.before == o.after && !c.pending
    requires forall i | 0 <= i < |rest| :: rest[i].before == o.before
    ensures var d := Poll(cfg, c, o).cursor;
            && Run(cfg, d, rest).0 == d && |Run(cfg, d, rest).1| == |rest|
            && forall i | 0 <= i < |rest| :: Run(cfg, d, rest).1[i] == []
  {
    EscapeKeepsPlace(cfg, c, tracked, o, rootIds);
    SilentWhileSkipping(cfg, Poll(cfg, c, o).cursor, rest);
  }

  lemma {:induction false} SilentWhileSkipping(cfg: Settings, c: Cursor, run: seq<Observation>)
    requires forall i | 0 <= i < |run| :: Skips(c, run[i])
    ensures Run(cfg, c, run).0 == c && |Run(cfg, c, run).1| == |run|
    ensures forall i | 0 <= i < |run| :: Run(cfg, c, run).1[i] == []
    decreases |run|
  {
    if run != [] {
      assert Skips(c, run[0]);
      SilentWhileSkipping(cfg, c, run[1..]);
      var rest := Run(cfg, c, run[1..]).1;
      forall i | 0 <= i < |run| ensures Run(cfg, c, run).1[i] == [] {
        assert i > 0 ==> ([[]] + rest)[i] == rest[i - 1];
      }
    }
  }

  /** And it owes something: had it not remembered the signature, a poll of the same state with the old root at hand
      would move it, and would send whatever is new. */
  lemma EscapeOwes(cfg: Settings, c: Cursor, tracked: seq<Id>, o: Observation, o': Observation, rootIds: Id -> seq<Id>)
    requires cfg.Valid() && Tracks(c, tracked, rootIds) && WellFormed(o, rootIds) && Escapes(c, tracked, o)
    requires Reads(o') && o'.snapshot == o.snapshot
    requires o'.readRoot(c.root.value) == Ok(rootIds(c.root.value))
    ensures var d := Poll(cfg, c, o).cursor.(lastSignature := None);
            && !SamePlace(Poll(cfg, d, o').cursor, d)
            && (Poll(cfg, d, o').records != [] <==> News(c, tracked, o.snapshot.value))
  {
    EscapeKeepsPlace(cfg, c, tracked, o, rootIds);
    var d := Poll(cfg, c, o).cursor.(lastSignature := None);
    HistoryAtHand(d, tracked, o', rootIds);
    PollEmitsFromCommonPrefix(cfg, d, tracked, o', rootIds);
    SilentWithoutNews(cfg, d, tracked, o', rootIds);
  }

  lemma AdvanceCatchesUp(cfg: Settings, c: Cursor, st: ChatState, o: Observation)
    ensures var r := Advance(cfg, c, st, o);
            r.error.None? && !r.cursor.pending ==>
                r.cursor.count == |st.messageIds| && r.cursor.provisionalHash == st.provisionalHash
  {
  }

  /** The skip path refines the full poll: a poll that skips could as well have read the state that its signature
      names, and would have sent nothing and moved nowhere. */
  lemma SkipRefinesFullPoll(cfg: Settings, c: Cursor, tracked: seq<Id>, o: Observation, rootIds: Id -> seq<Id>,
                            stateAt: Signature -> Option<ChatState>)
    requires Tracks(c, tracked, rootIds) && Remembers(c, tracked, stateAt) && Skips(c, o)
    ensures stateAt(o.before.value).Some?
    ensures var full := Observe(cfg, c, stateAt(o.before.value).value, o);
            && Poll(cfg, c, o).records == full.records == [] && full.error.None?
            && full.cursor == c.(lastSignature := full.cursor.lastSignature, ids := Some(tracked))
  {
    CaughtUpSaysNothing(cfg, c, tracked, stateAt(o.before.value).value, o, rootIds);
  }

  lemma CaughtUpSaysNothing(cfg: Settings, c: Cursor, tracked: seq<Id>, st: ChatState, o: Observation,
                            rootIds: Id -> seq<Id>)
    requires Tracks(c, tracked, rootIds) && CaughtUp(c, tracked, st)
    ensures var r := Observe(cfg, c, st, o);
            && r.records == [] && r.error.None?
            && r.cursor == c.(lastSignature := r.cursor.lastSignature, ids := Some(tracked), pending := false)
  {
    MatchMeansPrefix(Primed(c, st, o), tracked, st);
    assert st.messageIds[..|st.messageIds|] == st.messageIds;
  }

  // ---------- resets ----------

  /** A reset is sent exactly when the history was rewritten and the old one cannot be had any more; it is
      then all that is sent, and the cursor is caught up. */
  lemma ResetsExactlyWhenLost(cfg: Settings, c: Cursor, tracked: seq<Id>, o: Observation, rootIds: Id -> seq<Id>)
    requires cfg.Valid() && Tracks(c, tracked, rootIds) && WellFormed(o, rootIds) && RootTrue(c, o, rootIds)
    ensures var r := Poll(cfg, c, o);
            var lost := Reads(o) && !Skips(c, o) && !(tracked <= o.snapshot.value.messageIds)
              && PreviousIds(c, o) == Err(Failure);
            && ((exists x | x in r.records :: x.SessionReset?) <==> lost)
            && (lost ==> r.records == [SessionReset(o.snapshot.value.root, o.observedAt)]
                         && CaughtUp(r.cursor, o.snapshot.value.messageIds, o.snapshot.value))
  {
    if Reads(o) && !Skips(c, o) && (c.initialized || cfg.fromStart) {
      var st := o.snapshot.value;
      MatchMeansPrefix(Primed(c, st, o), tracked, st);
      if tracked <= st.messageIds || PreviousIds(c, o).Ok? {
        HistoryAtHand(c, tracked, o, rootIds);
        BlockOnly(cfg, c, tracked, o);
      } else {
        assert PreviousIds(Primed(c, st, o), o) == PreviousIds(c, o);
        assert PreviousIds(c, o).error.Failure? ==> Poll(cfg, c, o).records[0].SessionReset?;
      }
    }
  }

  /** An old root that can be read is what it was: blobs are content-addressed. */
  ghost predicate RootTrue(c: Cursor, o: Observation, rootIds: Id -> seq<Id>) {
    c.root.Some? && o.readRoot(c.root.value).Ok? ==> o.readRoot(c.root.value).value == rootIds(c.root.value)
  }

  lemma HistoryAtHand(c: Cursor, tracked: seq<Id>, o: Observation, rootIds: Id -> seq<Id>)
    requires Tracks(c, tracked, rootIds) && RootTrue(c, o, rootIds)
    ensures PreviousIds(c, o).Ok? ==> PreviousIds(c, o) == Ok(tracked)
    ensures c.ids.Some? || c.root.None? || o.readRoot(c.root.value).Ok? ==> PreviousIds(c, o).Ok?
  {
    if c.ids.None? && c.root.Some? {
      assert rootIds(c.root.value)[..c.count] == tracked;
    }
  }

  // ---------- checkpoints ----------

  /** An exported checkpoint. */
  datatype Checkpoint = Checkpoint(
    version: int, kind: string, path: string, root: Option<Id>, count: int, prefixHash: Digest,
    provisionalHash: Option<Digest>, initialized: bool, historical: int)

  /** A character as `json.dumps` writes it: printable ASCII as it is, two bytes for the short escapes, `\uXXXX`
      for the rest, and a pair of those beyond the basic plane. */
  function CharacterBytes(c: char): nat {
    var code := c as int;
    if code in {8, 9, 10, 12, 13, 34, 92} then 2
    else if 32 <= code <= 126 then 1
    else if code < 0x1_0000 then 6 else 12
  }

  function CharactersBytes(s: string): nat {
    if s == [] then 0 else CharacterBytes(s[0]) + CharactersBytes(s[1..])
  }

  /** The bytes of a JSON string, its quotes included. */
  function TextBytes(s: string): nat {
    2 + CharactersBytes(s)
  }

  function Digits(n: nat): nat {
    if n < 10 then 1 else 1 + Digits(n / 10)
  }

  /** The bytes of a JSON integer. */
  function IntegerBytes(n: int): nat {
    if n < 0 then 1 + Digits(-n) else Digits(n)
  }

  /** Bytes of the checkpoint as compact JSON text: nine quoted keys and their values, braces, eight commas,
      nine colons.  Digests and ids are 64 hex digits in quotes, an absent one is `null`; the only kind
      that matters is plain ASCII. */
  function CompactBytes(k: Checkpoint): nat {
    2 + 8 + 9
    + (7 + 4 + 4 + 12 + 13 + 11 + 16 + 11 + 16) + 18
    + IntegerBytes(k.version) + (|k.kind| + 2) + TextBytes(k.path)
    + (if k.root.None? then 4 else 66) + IntegerBytes(k.count) + 66
    + (if k.provisionalHash.None? then 4 else 66) + (if k.initialized then 4 else 5) + IntegerBytes(k.historical)
  }

  /** `restore_checkpoint` measures the text with a space after every comma and colon. */
  function SpacedBytes(k: Checkpoint): nat {
    CompactBytes(k) + 17
  }

  /** `export_checkpoint`. */
  function Export(c: Cursor, path: string): Result<Checkpoint, ChatError> {
    var k := Checkpoint(1, "cursor_chat", path, c.root, c.count, c.prefixHash, c.provisionalHash, c.initialized,
      c.historical);
    if CompactBytes(k) > MAX_CHECKPOINT_BYTES then Err(Failure) else Ok(k)
  }

  predicate Acceptable(k: Checkpoint, path: string) {
    && k.version == 1 && k.kind == "cursor_chat" && k.path == path
    && 0 <= k.count <= MAX_MESSAGE_REFERENCES && 0 <= k.historical <= MAX_MESSAGE_REFERENCES
    && (!k.initialized ==>
          k.root.None? && k.count == 0 && k.prefixHash == PrefixHash([]) && k.provisionalHash.None?
            && k.historical == 0)
    && SpacedBytes(k) <= MAX_CHECKPOINT_BYTES
  }

  /** The cursor a restored checkpoint gives. */
  function Restored(k: Checkpoint): Cursor
    requires k.count >= 0 && k.historical >= 0
  {
    Cursor(k.root, k.count, k.prefixHash, k.provisionalHash, k.initialized, k.historical,
           if k.initialized then None else Some([]), false, None)
  }

  /** Restore accepts an export exactly when its spaced text fits too; the limit that `export` checks
      is 17 bytes wider. */
  lemma RestoreAcceptsExport(c: Cursor, tracked: seq<Id>, rootIds: Id -> seq<Id>, path: string)
    requires Tracks(c, tracked, rootIds)
    ensures Export(c, path).Ok? ==>
              var k := Export(c, path).value;
              Acceptable(k, path) <==> CompactBytes(k) + 17 <= MAX_CHECKPOINT_BYTES
    ensures TextBytes(path) <= 15_900 ==> Export(c, path).Ok? && Acceptable(Export(c, path).value, path)
  {
    FewDigits(c.count);
    FewDigits(c.historical);
  }

  lemma FewDigits(n: nat)
    requires n <= MAX_MESSAGE_REFERENCES
    ensures Digits(n) <= 4
  {
    var a := n / 10;
    var b := a / 10;
    assert Digits(b / 10) == 1;
    assert Digits(b) <= 2;
    assert Digits(a) <= 3;
  }

  lemma {:induction false} CharactersAppend(s: string, t: string)
    ensures CharactersBytes(s + t) == CharactersBytes(s) + CharactersBytes(t)
  {
    if s == [] {
      assert s + t == t;
    } else {
      assert (s + t)[1..] == s[1..] + t;
      CharactersAppend(s[1..], t);
    }
  }

  /** What is restored is exported again, and stands where its exporter stood. */
  lemma RestoredStandsWhereExported(k: Checkpoint, path: string, c: Cursor)
    requires Acceptable(k, path)
    ensures Export(Restored(k), path) == Ok(k)
    ensures Export(c, path) == Ok(k) ==> SamePlace(Restored(k), c)
  {
  }

  /** Which exports of a new follower succeed and cannot be restored. */
  lemma RefusedExports(path: string)
    ensures Export(Fresh, path).Ok? && !Acceptable(Export(Fresh, path).value, path)
            <==> 16_142 <= TextBytes(path) <= 16_158
  {
  }

  /** Control characters: one byte each in a file name, six in JSON. */
  function Bells(n: nat): string {
    seq(n, _ => 7 as char)
  }

  lemma {:induction false} BellsBytes(n: nat)
    ensures CharactersBytes(Bells(n)) == 6 * n
  {
    if n > 0 {
      BellsBytes(n - 1);
      assert Bells(n)[1..] == Bells(n - 1);
    }
  }

  /** Directories within directories, with names of 250 characters. */
  function Nested(k: nat): string {
    if k == 0 then "" else Nested(k - 1) + ("/" + Bells(250))
  }

  lemma {:induction false} NestedBytes(k: nat)
    ensures |Nested(k)| == 251 * k && CharactersBytes(Nested(k)) == 1_501 * k
    ensures k > 0 ==> Nested(k)[0] == '/'
  {
    if k > 0 {
      NestedBytes(k - 1);
      NameBytes(250);
      CharactersAppend(Nested(k - 1), "/" + Bells(250));
    }
  }

  lemma NameBytes(n: nat)
    ensures CharactersBytes("/" + Bells(n)) == 1 + 6 * n && |"/" + Bells(n)| == 1 + n
  {
    assert ("/" + Bells(n))[1..] == Bells(n);
    BellsBytes(n);
  }

  /** An absolute path, short enough to exist, whose export succeeds and cannot be restored. */
  lemma ExportThatCannotBeRestored()
    ensures var path := Nested(10) + (("/" + Bells(188)) + "a");
            && path[0] == '/' && |path| == 2_700
            && Export(Fresh, path).Ok? && !Acceptable(Export(Fresh, path).value, path)
  {
    var name := ("/" + Bells(188)) + "a";
    var k: nat := 10;
    NestedBytes(k);
    NameBytes(188);
    CharactersAppend("/" + Bells(188), "a");
    assert CharactersBytes("a") == 1 && |name| == 190;
    CharactersAppend(Nested(k), name);
    RefusedExports(Nested(k) + name);
  }

  /** Two followers at the same place, whatever either still remembers. */
  ghost predicate SamePlace(a: Cursor, b: Cursor) {
    && a.root == b.root && a.count == b.count && a.prefixHash == b.prefixHash
    && a.provisionalHash == b.provisionalHash && a.initialized == b.initialized && a.historical == b.historical
  }

  ghost predicate Bisimilar(a: Cursor, b: Cursor, tracked: seq<Id>, rootIds: Id -> seq<Id>,
                            stateAt: Signature -> Option<ChatState>) {
    && SamePlace(a, b)
    && Tracks(a, tracked, rootIds) && Tracks(b, tracked, rootIds)
    && Remembers(a, tracked, stateAt) && Remembers(b, tracked, stateAt)
  }

  /** Something in `st` that a cursor behind `tracked` would send. */
  ghost predicate News(c: Cursor, tracked: seq<Id>, st: ChatState) {
    !(st.messageIds <= tracked) || st.provisionalHash != c.provisionalHash
  }

  /** A poll that finds its place is silent exactly when there is no news. */
  lemma SilentWithoutNews(cfg: Settings, c: Cursor, tracked: seq<Id>, o: Observation, rootIds: Id -> seq<Id>)
    requires cfg.Valid() && Tracks(c, tracked, rootIds) && WellFormed(o, rootIds)
    requires Reads(o) && !Skips(c, o) && (c.initialized || cfg.fromStart)
    requires tracked <= o.snapshot.value.messageIds || PreviousIds(c, o) == Ok(tracked)
    ensures Poll(cfg, c, o).records == [] <==> !News(c, tracked, o.snapshot.value)
  {
    var ids := o.snapshot.value.messageIds;
    PollEmitsFromCommonPrefix(cfg, c, tracked, o, rootIds);
    LcpBounds(tracked, ids);
    assert ids[..|ids|] == ids;
    if ids <= tracked {
      LcpLongest(tracked, ids, |ids|);
    }
  }

  /** The history was rewritten and the old root is gone. */
  ghost predicate Lost(c: Cursor, tracked: seq<Id>, o: Observation)
    requires o.snapshot.Ok?
  {
    !(tracked <= o.snapshot.value.messageIds) && c.root.Some? && o.readRoot(c.root.value).Err?
  }

  /** When a follower and its restored copy send the same in one poll.  The copy never skips and may need the old
      root, which the original may still have in memory. */
  ghost predicate Agrees(c: Cursor, tracked: seq<Id>, o: Observation) {
    Reads(o) ==>
      var news := News(c, tracked, o.snapshot.value);
      if !Lost(c, tracked, o) then Skips(c, o) ==> !news
      else if !o.readRoot(c.root.value).error.Failure? then Skips(c, o) || c.ids.None? || !news
      else !Skips(c, o) && c.ids.None?
  }

  /** One poll after an export: the restored follower sends what the original sends if and only if `Agrees`. */
  lemma RestoredPollAgrees(cfg: Settings, c: Cursor, tracked: seq<Id>, o: Observation, path: string,
                           rootIds: Id -> seq<Id>)
    requires cfg.Valid() && Tracks(c, tracked, rootIds) && WellFormed(o, rootIds) && RootTrue(c, o, rootIds)
    requires Export(c, path).Ok?
    ensures Poll(cfg, Restored(Export(c, path).value), o).records == Poll(cfg, c, o).records <==> Agrees(c, tracked, o)
  {
    var d := Restored(Export(c, path).value);
    if Reads(o) && c.initialized {
      if Lost(c, tracked, o) {
        LostPollAgrees(cfg, c, d, tracked, o, rootIds);
      } else {
        FoundPollAgrees(cfg, c, d, tracked, o, rootIds);
      }
    }
  }

  lemma FoundPollAgrees(cfg: Settings, c: Cursor, d: Cursor, tracked: seq<Id>, o: Observation, rootIds: Id -> seq<Id>)
    requires cfg.Valid() && Tracks(c, tracked, rootIds) && Tracks(d, tracked, rootIds) && SamePlace(c, d)
             && !Skips(d, o)
    requires WellFormed(o, rootIds) && RootTrue(c, o, rootIds) && Reads(o) && c.initialized && !Lost(c, tracked, o)
    ensures Poll(cfg, d, o).records == Poll(cfg, c, o).records
            <==> (Skips(c, o) ==> !News(c, tracked, o.snapshot.value))
  {
    HistoryAtHand(c, tracked, o, rootIds);
    HistoryAtHand(d, tracked, o, rootIds);
    if Skips(c, o) {
      SilentWithoutNews(cfg, d, tracked, o, rootIds);
    } else {
      SamePlaceSameOutcome(cfg, c, d, tracked, o.snapshot.value, o);
    }
  }

  lemma LostPollAgrees(cfg: Settings, c: Cursor, d: Cursor, tracked: seq<Id>, o: Observation, rootIds: Id -> seq<Id>)
    requires cfg.Valid() && Tracks(c, tracked, rootIds) && Tracks(d, tracked, rootIds) && SamePlace(c, d)
    requires !Skips(d, o) && d.ids.None?
    requires WellFormed(o, rootIds) && RootTrue(c, o, rootIds) && Reads(o) && c.initialized && Lost(c, tracked, o)
    ensures Poll(cfg, d, o).records == Poll(cfg, c, o).records <==> Agrees(c, tracked, o)
  {
    ResetsExactlyWhenLost(cfg, d, tracked, o, rootIds);
    ResetsExactlyWhenLost(cfg, c, tracked, o, rootIds);
    GivingUpSaysNothing(cfg, d, tracked, o);
    GivingUpSaysNothing(cfg, c, tracked, o);
    if !Skips(c, o) && c.ids.Some? {
      SilentWithoutNews(cfg, c, tracked, o, rootIds);
    }
  }

  lemma GivingUpSaysNothing(cfg: Settings, c: Cursor, tracked: seq<Id>, o: Observation)
    requires Reads(o) && c.initialized && c.count == |tracked| && c.prefixHash == PrefixHash(tracked)
    requires !(tracked <= o.snapshot.value.messageIds)
    ensures PreviousIds(c, o).Err? && PreviousIds(c, o).error != Failure ==> Poll(cfg, c, o).records == []
  {
    MatchMeansPrefix(Primed(c, o.snapshot.value, o), tracked, o.snapshot.value);
  }

  /** At the same place and with the same old history at hand, reading a state has one outcome. */
  lemma SamePlaceSameOutcome(cfg: Settings, a: Cursor, b: Cursor, tracked: seq<Id>, st: ChatState, o: Observation)
    requires SamePlace(a, b) && a.count == |tracked| && a.prefixHash == PrefixHash(tracked)
    requires tracked <= st.messageIds || PreviousIds(a, o) == PreviousIds(b, o) == Ok(tracked)
    ensures Observe(cfg, a, st, o) == Observe(cfg, b, st, o) && Observe(cfg, a, st, o).error.None?
  {
    var p, q := Primed(a, st, o), Primed(b, st, o);
    MatchMeansPrefix(p, tracked, st);
    if tracked <= st.messageIds {
      SamePlaceSameBlock(p, q, st, o.observedAt, cfg.maxRecords);
    } else {
      assert PreviousIds(p, o) == PreviousIds(q, o) == Ok(tracked);
      SamePlaceSameBlock(Rewind(p, st, tracked), Rewind(q, st, tracked), st, o.observedAt, cfg.maxRecords);
    }
  }

  lemma SamePlaceSameBlock(p: Cursor, q: Cursor, st: ChatState, at: real, max: nat)
    requires SamePlace(p, q) && p.lastSignature == q.lastSignature && p.count <= |st.messageIds|
    ensures EmitAppend(p, st, at, max) == EmitAppend(q, st, at, max)
  {
  }

  /** The poll can tell where it stands: the history only grew, or the old root can be read. */
  ghost predicate PlaceKnown(c: Cursor, tracked: seq<Id>, o: Observation) {
    Reads(o) ==> tracked <= o.snapshot.value.messageIds || c.root.None? || o.readRoot(c.root.value).Ok?
  }

  predicate BothRead(a: Cursor, b: Cursor, o: Observation) {
    Reads(o) && !Skips(a, o) && !Skips(b, o)
  }

  /** One poll that both followers read makes them one and the same, for every run from then on. */
  lemma ReadingTogetherMerges(cfg: Settings, a: Cursor, b: Cursor, tracked: seq<Id>, o: Observation,
                              rest: seq<Observation>, rootIds: Id -> seq<Id>)
    requires SamePlace(a, b) && Tracks(a, tracked, rootIds) && Tracks(b, tracked, rootIds)
    requires BothRead(a, b, o) && RootTrue(a, o, rootIds) && PlaceKnown(a, tracked, o)
    ensures Poll(cfg, a, o) == Poll(cfg, b, o)
    ensures Run(cfg, a, [o] + rest) == Run(cfg, b, [o] + rest)
  {
    HistoryAtHand(a, tracked, o, rootIds);
    HistoryAtHand(b, tracked, o, rootIds);
    SamePlaceSameOutcome(cfg, a, b, tracked, o.snapshot.value, o);
    assert ([o] + rest)[1..] == rest;
  }

  /** What one poll needs for two bisimilar followers to stay so: a source that held still if one of them skips. */
  ghost predicate Sheltered(a: Cursor, b: Cursor, tracked: seq<Id>, o: Observation, rootIds: Id -> seq<Id>,
                            stateAt: Signature -> Option<ChatState>)
  {
    && WellFormed(o, rootIds) && Coherent(o, stateAt) && RootTrue(a, o, rootIds) && PlaceKnown(a, tracked, o)
    && (Reads(o) && (Skips(a, o) || Skips(b, o)) ==> stateAt(o.before.value) == Some(o.snapshot.value))
  }

  /** Every poll is sheltered up to and including the first one that both followers read; none after that. */
  ghost predicate ShelteredUntilRead(cfg: Settings, a: Cursor, b: Cursor, tracked: seq<Id>, run: seq<Observation>,
                                     rootIds: Id -> seq<Id>, stateAt: Signature -> Option<ChatState>)
    decreases |run|
  {
    run != [] ==>
      var o := run[0];
      && Sheltered(a, b, tracked, o, rootIds, stateAt)
      && (BothRead(a, b, o)
          || ShelteredUntilRead(cfg, Poll(cfg, a, o).cursor, Poll(cfg, b, o).cursor, TrackedAfter(cfg, a, tracked, o),
                                run[1..], rootIds, stateAt))
  }

  /** One sheltered poll of two bisimilar followers: the same records, and bisimilar again. */
  lemma BisimilarPoll(cfg: Settings, a: Cursor, b: Cursor, tracked: seq<Id>, o: Observation, rootIds: Id -> seq<Id>,
                      stateAt: Signature -> Option<ChatState>)
    requires cfg.Valid() && Bisimilar(a, b, tracked, rootIds, stateAt) && Sheltered(a, b, tracked, o, rootIds, stateAt)
    ensures Poll(cfg, a, o).records == Poll(cfg, b, o).records
    ensures Bisimilar(Poll(cfg, a, o).cursor, Poll(cfg, b, o).cursor, TrackedAfter(cfg, a, tracked, o), rootIds,
            stateAt)
  {
    PollKeepsTracking(cfg, a, tracked, o, rootIds);
    PollKeepsTracking(cfg, b, tracked, o, rootIds);
    PollKeepsMemory(cfg, a, tracked, o, rootIds, stateAt);
    PollKeepsMemory(cfg, b, tracked, o, rootIds, stateAt);
    if BothRead(a, b, o) {
      ReadingTogetherMerges(cfg, a, b, tracked, o, [], rootIds);
    } else if Reads(o) {
      StaysWhenSkipping(cfg, a, b, tracked, o, rootIds);
    }
  }

  lemma StaysWhenSkipping(cfg: Settings, a: Cursor, b: Cursor, tracked: seq<Id>, o: Observation, rootIds: Id -> seq<Id>)
    requires SamePlace(a, b) && Tracks(a, tracked, rootIds) && Tracks(b, tracked, rootIds)
    requires Reads(o) && CaughtUp(a, tracked, o.snapshot.value)
    ensures Poll(cfg, a, o).records == Poll(cfg, b, o).records == []
    ensures SamePlace(Poll(cfg, a, o).cursor, Poll(cfg, b, o).cursor)
    ensures TrackedAfter(cfg, a, tracked, o) == TrackedAfter(cfg, b, tracked, o) == tracked
  {
    CaughtUpSaysNothing(cfg, a, tracked, o.snapshot.value, o, rootIds);
    CaughtUpSaysNothing(cfg, b, tracked, o.snapshot.value, o, rootIds);
    assert tracked[..|tracked|] == tracked;
  }

  /** Bisimilar followers send the same records in every poll of every later run that is sheltered until both have
      read; what comes after that poll is arbitrary. */
  lemma {:induction false} BisimilarRuns(cfg: Settings, a: Cursor, b: Cursor, tracked: seq<Id>, run: seq<Observation>,
                                         rootIds: Id -> seq<Id>, stateAt: Signature -> Option<ChatState>)
    requires cfg.Valid() && Bisimilar(a, b, tracked, rootIds, stateAt)
    requires ShelteredUntilRead(cfg, a, b, tracked, run, rootIds, stateAt)
    ensures Run(cfg, a, run).1 == Run(cfg, b, run).1
    ensures SamePlace(Run(cfg, a, run).0, Run(cfg, b, run).0)
    decreases |run|
  {
    if run != [] {
      var o := run[0];
      if BothRead(a, b, o) {
        assert run == [o] + run[1..];
        ReadingTogetherMerges(cfg, a, b, tracked, o, run[1..], rootIds);
      } else {
        BisimilarPoll(cfg, a, b, tracked, o, rootIds, stateAt);
        BisimilarRuns(cfg, Poll(cfg, a, o).cursor, Poll(cfg, b, o).cursor, TrackedAfter(cfg, a, tracked, o), run[1..],
                      rootIds, stateAt);
      }
    }
  }

  /** The history the cursor stands behind after a run. */
  function TrackedRun(cfg: Settings, c: Cursor, tracked: seq<Id>, run: seq<Observation>): seq<Id>
    decreases |run|
  {
    if run == [] then tracked
    else TrackedRun(cfg, Poll(cfg, c, run[0]).cursor, TrackedAfter(cfg, c, tracked, run[0]), run[1..])
  }

  ghost predicate AllCoherent(run: seq<Observation>, stateAt: Signature -> Option<ChatState>) {
    forall i | 0 <= i < |run| :: Coherent(run[i], stateAt)
  }

  /** Whether the memory is true after a run. */
  ghost predicate MemoryAfterRun(cfg: Settings, c: Cursor, tracked: seq<Id>, run: seq<Observation>, remembers: bool)
    decreases |run|
  {
    if run == [] then remembers
    else MemoryAfterRun(cfg, Poll(cfg, c, run[0]).cursor, TrackedAfter(cfg, c, tracked, run[0]), run[1..],
                        MemoryAfter(c, tracked, run[0], remembers))
  }

  /** Whatever was polled before, the cursor tracks a history; and it remembers truthfully exactly as `MemoryAfterRun`
      says. */
  lemma {:induction false} ReachableCursors(cfg: Settings, c: Cursor, tracked: seq<Id>, run: seq<Observation>,
                                            rootIds: Id -> seq<Id>, stateAt: Signature -> Option<ChatState>)
    requires cfg.Valid() && Tracks(c, tracked, rootIds) && AllWellFormed(run, rootIds) && AllCoherent(run, stateAt)
    ensures Tracks(Run(cfg, c, run).0, TrackedRun(cfg, c, tracked, run), rootIds)
    ensures Remembers(Run(cfg, c, run).0, TrackedRun(cfg, c, tracked, run), stateAt)
            <==> MemoryAfterRun(cfg, c, tracked, run, Remembers(c, tracked, stateAt))
    decreases |run|
  {
    if run != [] {
      var d, next := Poll(cfg, c, run[0]).cursor, TrackedAfter(cfg, c, tracked, run[0]);
      PollKeepsTracking(cfg, c, tracked, run[0], rootIds);
      PollKeepsMemory(cfg, c, tracked, run[0], rootIds, stateAt);
      ReachableCursors(cfg, d, next, run[1..], rootIds, stateAt);
    }
  }

  /** In particular when no exception escapes. */
  lemma {:induction false} MemoryStaysTrue(cfg: Settings, c: Cursor, tracked: seq<Id>, run: seq<Observation>)
    requires NothingEscapes(run)
    ensures MemoryAfterRun(cfg, c, tracked, run, true)
    decreases |run|
  {
    if run != [] {
      assert c.root.Some? ==> run[0].readRoot(c.root.value) != Err(Escape);
      assert MemoryAfter(c, tracked, run[0], true);
      MemoryStaysTrue(cfg, Poll(cfg, c, run[0]).cursor, TrackedAfter(cfg, c, tracked, run[0]), run[1..]);
    }
  }

  /** No read of an old root raises anything but a chat error. */
  ghost predicate NothingEscapes(run: seq<Observation>) {
    forall i, r: Id | 0 <= i < |run| :: run[i].readRoot(r) != Err(Escape)
  }

  /**
    The checkpoint round trip.  After any history of polls, a follower restored from an exported
    checkpoint sends, in every poll of every later run, exactly the records the original would
    have sent.  The source has to hold still only in polls that the original skips, and only before
    the first poll that both read; from then on nothing at all is asked of the source.
  */
  lemma CheckpointRoundTrip(cfg: Settings, past: seq<Observation>, future: seq<Observation>, path: string,
                            rootIds: Id -> seq<Id>, stateAt: Signature -> Option<ChatState>)
    requires cfg.Valid() && AllWellFormed(past, rootIds) && AllCoherent(past, stateAt)
    requires var c := Run(cfg, Fresh, past).0;
             && MemoryAfterRun(cfg, Fresh, [], past, true)
             && Export(c, path).Ok? && Acceptable(Export(c, path).value, path)
             && ShelteredUntilRead(cfg, c, Restored(Export(c, path).value), TrackedRun(cfg, Fresh, [], past), future,
               rootIds, stateAt)
    ensures var c := Run(cfg, Fresh, past).0;
            var d := Restored(Export(c, path).value);
            && Run(cfg, d, future).1 == Run(cfg, c, future).1
            && SamePlace(Run(cfg, d, future).0, Run(cfg, c, future).0)
  {
    var c := Run(cfg, Fresh, past).0;
    var tracked := TrackedRun(cfg, Fresh, [], past);
    ReachableCursors(cfg, Fresh, [], past, rootIds, stateAt);
    BisimilarRuns(cfg, c, Restored(Export(c, path).value), tracked, future, rootIds, stateAt);
  }

  // ---------- the time of every record ----------

  lemma {:induction false} RunTracks(cfg: Settings, c: Cursor, tracked: seq<Id>, run: seq<Observation>,
                                     rootIds: Id -> seq<Id>)
    requires cfg.Valid() && Tracks(c, tracked, rootIds) && AllWellFormed(run, rootIds)
    ensures Tracks(Run(cfg, c, run).0, TrackedRun(cfg, c, tracked, run), rootIds)
    decreases |run|
  {
    if run != [] {
      PollKeepsTracking(cfg, c, tracked, run[0], rootIds);
      RunTracks(cfg, Poll(cfg, c, run[0]).cursor, TrackedAfter(cfg, c, tracked, run[0]), run[1..], rootIds);
    }
  }

  lemma {:induction false} RunSnoc(cfg: Settings, c: Cursor, run: seq<Observation>, o: Observation)
    ensures Run(cfg, c, run + [o]).0 == Poll(cfg, Run(cfg, c, run).0, o).cursor
    decreases |run|
  {
    if run == [] {
      assert run + [o] == [o] && [o][1..] == [];
    } else {
      assert (run + [o])[1..] == run[1..] + [o];
      RunSnoc(cfg, Poll(cfg, c, run[0]).cursor, run[1..], o);
    }
  }

  /**
    Whatever happened between the first poll of a follower from the start and some later one: the records of the later
    one are the messages behind the common prefix, and each carries the creation time of the session exactly when the
    state has one and the message stands at a place that the first poll had seen and the follower was never moved back
    over; any other carries the time of its poll.
  */
  lemma StampsOfRun(cfg: Settings, first: Observation, run: seq<Observation>, o: Observation, rootIds: Id -> seq<Id>,
                    k: nat)
    requires cfg.Valid() && cfg.fromStart && Reads(first) && Reads(o)
    requires WellFormed(first, rootIds) && Truthful(run, rootIds) && Truthful([o], rootIds)
    requires var start := Poll(cfg, Fresh, first).cursor;
             var c, tracked := Run(cfg, start, run).0, TrackedRun(cfg, start, TrackedAfter(cfg, Fresh, [], first), run);
             && !Skips(c, o) && (tracked <= o.snapshot.value.messageIds || PreviousIds(c, o) == Ok(tracked))
             && k < Poll(cfg, c, o).cursor.count - Lcp(tracked, o.snapshot.value.messageIds)
    ensures var start, seen := Poll(cfg, Fresh, first).cursor, TrackedAfter(cfg, Fresh, [], first);
            var c, tracked, st := Run(cfg, start, run).0, TrackedRun(cfg, start, seen, run), o.snapshot.value;
            var i := Lcp(tracked, st.messageIds) + k;
            var original := i < |first.snapshot.value.messageIds| && Stood(cfg, start, seen, run + [o], i);
            && i < |st.messageIds| && k < |Poll(cfg, c, o).records|
            && Poll(cfg, c, o).records[k] ==
                 Durable(st.messageIds[i], st.root,
                         if st.createdAt.Some? && original then SessionCreated(st.createdAt.value)
                         else Observed(o.observedAt))
  {
    var start, seen := Poll(cfg, Fresh, first).cursor, TrackedAfter(cfg, Fresh, [], first);
    var c, tracked := Run(cfg, start, run).0, TrackedRun(cfg, start, seen, run);
    PollKeepsTracking(cfg, Fresh, [], first, rootIds);
    RunTracks(cfg, start, seen, run, rootIds);
    RunSnoc(cfg, start, run, o);
    TruthfulBoth(run, o, rootIds);
    var i := Lcp(tracked, o.snapshot.value.messageIds) + k;
    OriginalMessages(cfg, first, run + [o], rootIds, i);
    StampOfRecord(cfg, c, tracked, o, rootIds, k);
  }

  /** What the polls see is well formed, and old roots are what they were. */
  ghost predicate Truthful(run: seq<Observation>, rootIds: Id -> seq<Id>) {
    AllWellFormed(run, rootIds) && forall i | 0 <= i < |run| :: TrueRoots(run[i], rootIds)
  }

  lemma TruthfulBoth(run: seq<Observation>, o: Observation, rootIds: Id -> seq<Id>)
    requires Truthful(run, rootIds) && Truthful([o], rootIds)
    ensures Truthful(run + [o], rootIds) && WellFormed(o, rootIds)
  {
    var all := run + [o];
    assert [o][0] == o;
    forall i | 0 <= i < |all| ensures WellFormed(all[i], rootIds) && TrueRoots(all[i], rootIds) {
      assert all[i] == if i < |run| then run[i] else o;
    }
  }

  lemma StampOfRecord(cfg: Settings, c: Cursor, tracked: seq<Id>, o: Observation, rootIds: Id -> seq<Id>, k: nat)
    requires cfg.Valid() && cfg.fromStart && Tracks(c, tracked, rootIds) && WellFormed(o, rootIds)
    requires Reads(o) && !Skips(c, o)
    requires tracked <= o.snapshot.value.messageIds || PreviousIds(c, o) == Ok(tracked)
    requires k < Poll(cfg, c, o).cursor.count - Lcp(tracked, o.snapshot.value.messageIds)
    ensures var r, st := Poll(cfg, c, o), o.snapshot.value;
            var i := Lcp(tracked, st.messageIds) + k;
            && i < |st.messageIds| && k < |r.records|
            && r.records[k] ==
                 Durable(st.messageIds[i], st.root,
                         if st.createdAt.Some? && i < r.cursor.historical then SessionCreated(st.createdAt.value)
                         else Observed(o.observedAt))
  {
    PollRecords(cfg, c, tracked, o, rootIds);
    OneStamp(Poll(cfg, c, o).records, Poll(cfg, c, o).cursor, o.snapshot.value,
             Lcp(tracked, o.snapshot.value.messageIds), c.provisionalHash, o.observedAt, cfg.maxRecords, k);
  }

  lemma OneStamp(records: seq<Record>, d: Cursor, st: ChatState, n: nat, provisional: Option<Digest>, at: real,
                 max: nat, k: nat)
    requires SentRecords(records, d, st, n, provisional, at, max) && k < d.count - n
    ensures n + k < |st.messageIds| && k < |records|
    ensures records[k] ==
              Durable(st.messageIds[n + k], st.root,
                      if st.createdAt.Some? && n + k < d.historical then SessionCreated(st.createdAt.value)
                      else Observed(at))
  {
    assert Stamped(records[k], st, n + k, d.historical, at);
  }

  // ---------- lockstep ----------

  /** The history was rewritten and this follower cannot get at the old one. */
  ghost predicate Adrift(c: Cursor, tracked: seq<Id>, o: Observation)
    requires o.snapshot.Ok?
  {
    !(tracked <= o.snapshot.value.messageIds) && PreviousIds(c, o).Err?
  }

  /** What a poll must be for two followers at the same place to send the same and end at the same place: if only one
      reads, it is caught up or has to give up without a reset; if both read, they find their place both or neither. */
  ghost predicate KeepsStep(a: Cursor, b: Cursor, tracked: seq<Id>, o: Observation) {
    Reads(o) ==>
      if Skips(a, o) && Skips(b, o) then true
      else if Skips(a, o) then NothingToSay(b, tracked, o)
      else if Skips(b, o) then NothingToSay(a, tracked, o)
      else Adrift(a, tracked, o) == Adrift(b, tracked, o)
  }

  ghost predicate NothingToSay(c: Cursor, tracked: seq<Id>, o: Observation)
    requires o.snapshot.Ok?
  {
    CaughtUp(c, tracked, o.snapshot.value) || (Adrift(c, tracked, o) && PreviousIds(c, o).error != Failure)
  }

  /** Old roots that can be read are what they were. */
  ghost predicate TrueRoots(o: Observation, rootIds: Id -> seq<Id>) {
    forall r: Id :: o.readRoot(r).Ok? ==> o.readRoot(r).value == rootIds(r)
  }

  /** The follower that reads while the other one skips stays silent and in place exactly when it has nothing to say. */
  lemma OnlyOneReads(cfg: Settings, a: Cursor, b: Cursor, tracked: seq<Id>, o: Observation, rootIds: Id -> seq<Id>)
    requires cfg.Valid() && SamePlace(a, b) && Tracks(a, tracked, rootIds) && Tracks(b, tracked, rootIds)
    requires WellFormed(o, rootIds) && RootTrue(b, o, rootIds) && Reads(o) && Skips(a, o) && !Skips(b, o)
    ensures Poll(cfg, b, o).records == [] && SamePlace(a, Poll(cfg, b, o).cursor) <==> NothingToSay(b, tracked, o)
  {
    var st := o.snapshot.value;
    HistoryAtHand(b, tracked, o, rootIds);
    if CaughtUp(b, tracked, st) {
      CaughtUpSaysNothing(cfg, b, tracked, st, o, rootIds);
    } else if Adrift(b, tracked, o) {
      ResetsExactlyWhenLost(cfg, b, tracked, o, rootIds);
      MatchMeansPrefix(Primed(b, st, o), tracked, st);
    } else {
      SilentWithoutNews(cfg, b, tracked, o, rootIds);
      PollEmitsFromCommonPrefix(cfg, b, tracked, o, rootIds);
    }
  }

  /** Two followers that both read. */
  lemma BothReading(cfg: Settings, a: Cursor, b: Cursor, tracked: seq<Id>, o: Observation, rootIds: Id -> seq<Id>)
    requires cfg.Valid() && SamePlace(a, b) && Tracks(a, tracked, rootIds) && Tracks(b, tracked, rootIds)
    requires WellFormed(o, rootIds) && RootTrue(a, o, rootIds) && BothRead(a, b, o) && a.initialized
    ensures Adrift(a, tracked, o) == Adrift(b, tracked, o) ==>
              && Poll(cfg, a, o).records == Poll(cfg, b, o).records
              && SamePlace(Poll(cfg, a, o).cursor, Poll(cfg, b, o).cursor)
  {
    var st := o.snapshot.value;
    HistoryAtHand(a, tracked, o, rootIds);
    HistoryAtHand(b, tracked, o, rootIds);
    MatchMeansPrefix(Primed(a, st, o), tracked, st);
    MatchMeansPrefix(Primed(b, st, o), tracked, st);
    if !Adrift(a, tracked, o) && !Adrift(b, tracked, o) {
      SamePlaceSameOutcome(cfg, a, b, tracked, st, o);
    }
  }

  /** One that finds its place and one that does not part. */
  lemma OneAdrift(cfg: Settings, a: Cursor, b: Cursor, tracked: seq<Id>, o: Observation, rootIds: Id -> seq<Id>)
    requires cfg.Valid() && SamePlace(a, b) && Tracks(a, tracked, rootIds) && Tracks(b, tracked, rootIds)
    requires WellFormed(o, rootIds) && RootTrue(a, o, rootIds) && BothRead(a, b, o) && a.initialized
    requires !Adrift(a, tracked, o) && Adrift(b, tracked, o)
    ensures Poll(cfg, a, o).records != Poll(cfg, b, o).records
            || !SamePlace(Poll(cfg, a, o).cursor, Poll(cfg, b, o).cursor)
  {
    HistoryAtHand(a, tracked, o, rootIds);
    PollEmitsFromCommonPrefix(cfg, a, tracked, o, rootIds);
    ResetsExactlyWhenLost(cfg, a, tracked, o, rootIds);
    ResetsExactlyWhenLost(cfg, b, tracked, o, rootIds);
    MatchMeansPrefix(Primed(b, o.snapshot.value, o), tracked, o.snapshot.value);
  }

  /** One poll keeps two followers in step if and only if `KeepsStep`. */
  lemma PollKeepsStep(cfg: Settings, a: Cursor, b: Cursor, tracked: seq<Id>, o: Observation, rootIds: Id -> seq<Id>)
    requires cfg.Valid() && SamePlace(a, b) && Tracks(a, tracked, rootIds) && Tracks(b, tracked, rootIds)
    requires WellFormed(o, rootIds) && TrueRoots(o, rootIds)
    ensures InStep(cfg, a, b, o) <==> KeepsStep(a, b, tracked, o)
  {
    if Reads(o) && a.initialized {
      if Skips(a, o) && !Skips(b, o) {
        OnlyOneReads(cfg, a, b, tracked, o, rootIds);
      } else if Skips(b, o) && !Skips(a, o) {
        OnlyOneReads(cfg, b, a, tracked, o, rootIds);
      } else if !Skips(a, o) {
        BothReading(cfg, a, b, tracked, o, rootIds);
        if Adrift(a, tracked, o) != Adrift(b, tracked, o) {
          if Adrift(b, tracked, o) {
            OneAdrift(cfg, a, b, tracked, o, rootIds);
          } else {
            OneAdrift(cfg, b, a, tracked, o, rootIds);
          }
        }
      }
    }
  }

  /** The poll sends the same for both and leaves them at the same place. */
  ghost predicate InStep(cfg: Settings, a: Cursor, b: Cursor, o: Observation) {
    && Poll(cfg, a, o).records == Poll(cfg, b, o).records
    && SamePlace(Poll(cfg, a, o).cursor, Poll(cfg, b, o).cursor)
  }

  ghost predicate Lockstep(cfg: Settings, a: Cursor, b: Cursor, run: seq<Observation>)
    decreases |run|
  {
    run != [] ==> InStep(cfg, a, b, run[0])
                  && Lockstep(cfg, Poll(cfg, a, run[0]).cursor, Poll(cfg, b, run[0]).cursor, run[1..])
  }

  ghost predicate StepKept(cfg: Settings, a: Cursor, b: Cursor, tracked: seq<Id>, run: seq<Observation>)
    decreases |run|
  {
    run != [] ==>
      var o := run[0];
      && KeepsStep(a, b, tracked, o)
      && StepKept(cfg, Poll(cfg, a, o).cursor, Poll(cfg, b, o).cursor, TrackedAfter(cfg, a, tracked, o), run[1..])
  }

  /**
    Two followers at the same place, such as an original and its restored copy, go through a run in lockstep if and only
    if every poll keeps their step.  Nothing else is asked of the source.
  */
  lemma {:induction false} LockstepIffStepKept(cfg: Settings, a: Cursor, b: Cursor, tracked: seq<Id>,
                                               run: seq<Observation>, rootIds: Id -> seq<Id>)
    requires cfg.Valid() && SamePlace(a, b) && Tracks(a, tracked, rootIds) && Tracks(b, tracked, rootIds)
    requires AllWellFormed(run, rootIds) && forall i | 0 <= i < |run| :: TrueRoots(run[i], rootIds)
    ensures Lockstep(cfg, a, b, run) <==> StepKept(cfg, a, b, tracked, run)
    ensures Lockstep(cfg, a, b, run) ==> Run(cfg, a, run).1 == Run(cfg, b, run).1
    decreases |run|
  {
    if run != [] {
      var o := run[0];
      PollKeepsStep(cfg, a, b, tracked, o, rootIds);
      if InStep(cfg, a, b, o) {
        var c, d := Poll(cfg, a, o).cursor, Poll(cfg, b, o).cursor;
        SameTrack(cfg, a, b, tracked, o, rootIds);
        LockstepIffStepKept(cfg, c, d, TrackedAfter(cfg, a, tracked, o), run[1..], rootIds);
      }
    }
  }

  /** Followers that are in step track the same history. */
  lemma SameTrack(cfg: Settings, a: Cursor, b: Cursor, tracked: seq<Id>, o: Observation, rootIds: Id -> seq<Id>)
    requires cfg.Valid() && Tracks(a, tracked, rootIds) && Tracks(b, tracked, rootIds)
    requires WellFormed(o, rootIds) && InStep(cfg, a, b, o)
    ensures Tracks(Poll(cfg, a, o).cursor, TrackedAfter(cfg, a, tracked, o), rootIds)
    ensures Tracks(Poll(cfg, b, o).cursor, TrackedAfter(cfg, a, tracked, o), rootIds)
  {
    PollKeepsTracking(cfg, a, tracked, o, rootIds);
    PollKeepsTracking(cfg, b, tracked, o, rootIds);
    PrefixHashInjective(TrackedAfter(cfg, a, tracked, o), TrackedAfter(cfg, b, tracked, o));
  }

  /** Once they are the same they stay so, whatever the source does. */
  lemma {:induction false} MergedStaysInStep(cfg: Settings, c: Cursor, tracked: seq<Id>, run: seq<Observation>)
    ensures StepKept(cfg, c, c, tracked, run)
    decreases |run|
  {
    if run != [] {
      MergedStaysInStep(cfg, Poll(cfg, c, run[0]).cursor, TrackedAfter(cfg, c, tracked, run[0]), run[1..]);
    }
  }

  // ---------- restarts ----------

  /** The follower of a new process: restored from the checkpoint of the old one, or from nothing if that fails. */
  function Reborn(c: Cursor, path: string): Cursor {
    var k := Export(c, path);
    if k.Ok? && Acceptable(k.value, path) then Restored(k.value) else Fresh
  }

  /** A run in which the follower is exported and restored before every poll that `restarts` marks. */
  function RunWithRestarts(cfg: Settings, c: Cursor, run: seq<Observation>, restarts: seq<bool>,
                           path: string): (Cursor, seq<seq<Record>>)
    requires |restarts| == |run|
    decreases |run|
  {
    if run == [] then (c, [])
    else
      var r := Poll(cfg, if restarts[0] then Reborn(c, path) else c, run[0]);
      var rest := RunWithRestarts(cfg, r.cursor, run[1..], restarts[1..], path);
      (rest.0, [r.records] + rest.1)
  }

  /**
    Exactly once across restarts: over an append-only history, however often the follower is exported and restored, and
    whatever moves, fails or is skipped, each message is sent once, in order and without a gap.
  */
  lemma {:induction false} RestartsSendEachOnce(cfg: Settings, c: Cursor, tracked: seq<Id>, run: seq<Observation>,
                                                restarts: seq<bool>, path: string, rootIds: Id -> seq<Id>)
    requires Following(cfg, c, tracked, run, rootIds) && |restarts| == |run| && TextBytes(path) <= 15_900
    ensures var (d, batches) := RunWithRestarts(cfg, c, run, restarts, path);
            SendsEachOnce(tracked, d, batches, rootIds)
    decreases |run|
  {
    if run == [] {
      assert tracked + [] == tracked;
    } else {
      var b := if restarts[0] then Reborn(c, path) else c;
      RebornFollows(cfg, c, tracked, run, path, rootIds);
      var r, next := FirstPoll(cfg, b, tracked, run, rootIds);
      RestartsSendEachOnce(cfg, r.cursor, next, run[1..], restarts[1..], path, rootIds);
      var rest := RunWithRestarts(cfg, r.cursor, run[1..], restarts[1..], path);
      PrependBatch(tracked, next, r.records, rest.0, rest.1, rootIds);
    }
  }

  lemma RebornFollows(cfg: Settings, c: Cursor, tracked: seq<Id>, run: seq<Observation>, path: string,
                      rootIds: Id -> seq<Id>)
    requires Following(cfg, c, tracked, run, rootIds) && TextBytes(path) <= 15_900
    ensures Following(cfg, Reborn(c, path), tracked, run, rootIds)
  {
    RestoreAcceptsExport(c, tracked, rootIds, path);
  }

  // ---------- the follower object ----------

  class CursorChatFollower {
    const cfg: Settings
    const path: string
    var root: Option<Id>
    var count: nat
    var prefixHash: Digest
    var provisionalHash: Option<Digest>
    var initialized: bool
    var historical: nat
    var ids: Option<seq<Id>>
    var pending: bool
    var lastSignature: Option<Signature>
    var lastError: Option<ChatError>

    function View(): Cursor
      reads this
    {
      Cursor(root, count, prefixHash, provisionalHash, initialized, historical, ids, pending, lastSignature)
    }

    constructor (cfg: Settings, path: string)
      requires cfg.Valid()
      ensures this.cfg == cfg && this.path == path && View() == Fresh && lastError == None
    {
      this.cfg, this.path := cfg, path;
      root, count, prefixHash, provisionalHash := None, 0, PrefixHash([]), None;
      initialized, historical, ids, pending, lastSignature, lastError := false, 0, Some([]), false, None, None;
    }

    /** Puts saved fields back, as the handler of a chat error does. */
    method Assign(c: Cursor)
      modifies this
      ensures View() == c && lastError == old(lastError)
    {
      root, count, prefixHash, provisionalHash := c.root, c.count, c.prefixHash, c.provisionalHash;
      initialized, historical, ids, pending, lastSignature := c.initialized, c.historical, c.ids, c.pending,
        c.lastSignature;
    }

    /** The comparison loop of the recovery path. */
    static method CommonPrefix(previous: seq<Id>, now: seq<Id>) returns (lcp: nat)
      ensures lcp == Lcp(previous, now)
    {
      var limit := Min(|previous|, |now|);
      lcp := 0;
      while lcp < limit && previous[lcp] == now[lcp]
        invariant lcp <= limit && previous[..lcp] == now[..lcp]
      {
        lcp := lcp + 1;
      }
      LcpLongest(previous, now, lcp);
      LcpBounds(previous, now);
      var m := Lcp(previous, now);
      assert forall i | 0 <= i < m :: previous[..m][i] == now[..m][i];
    }

    /** `_emit_append`. */
    method SendAppend(st: ChatState, at: real) returns (records: seq<Record>)
      requires count <= |st.messageIds|
      modifies this
      ensures (View(), records) == EmitAppend(old(View()), st, at, cfg.maxRecords)
      ensures lastError == old(lastError)
    {
      records := [];
      var end := Min(|st.messageIds|, count + cfg.maxRecords);
      ghost var whole := DurableBlock(historical, st, count, end, at);
      for i := count to end
        invariant records + DurableBlock(historical, st, i, end, at) == whole
      {
        records := records + [DurableRecord(historical, st, i, at)];
      }
      assert records == whole;
      count := end;
      prefixHash := PrefixHash(st.messageIds[..end]);
      ids := Some(st.messageIds[..end]);
      root := Some(st.root);
      if end < |st.messageIds| {
        pending := true;
        return;
      }
      if st.provisionalHash != provisionalHash && |records| < cfg.maxRecords {
        records := records + [Provisional(st.provisionalHash, st.root, at)];
        provisionalHash := st.provisionalHash;
      }
      pending := st.provisionalHash != provisionalHash;
    }

    method AnchorAt(st: ChatState)
      modifies this
      ensures View() == Anchor(old(View()), st) && lastError == old(lastError)
    {
      root, count, prefixHash := Some(st.root), |st.messageIds|, PrefixHash(st.messageIds);
      provisionalHash, ids, pending := st.provisionalHash, Some(st.messageIds), false;
    }

    /** The part of `poll` after the prefix comparison; a busy source is reported to the caller. */
    method Continue(st: ChatState, o: Observation) returns (records: seq<Record>, error: Option<ChatError>)
      modifies this
      ensures Outcome(View(), records, error) == Advance(cfg, old(View()), st, o)
      ensures lastError == old(lastError)
    {
      records, error := [], None;
      if |st.messageIds| >= count && PrefixHash(st.messageIds[..count]) == prefixHash {
        records := SendAppend(st, o.observedAt);
        return;
      }
      var previous := PreviousIds(View(), o);
      if previous.Err? {
        if !previous.error.Failure? {
          error := Some(previous.error);
          return;
        }
        records := [SessionReset(st.root, o.observedAt)];
        historical := 0;
        AnchorAt(st);
        return;
      }
      var lcp := CommonPrefix(previous.value, st.messageIds);
      LcpBounds(previous.value, st.messageIds);
      count, prefixHash, ids := lcp, PrefixHash(st.messageIds[..lcp]), Some(st.messageIds[..lcp]);
      historical := Min(historical, lcp);
      records := SendAppend(st, o.observedAt);
    }

    method ReadState(st: ChatState, o: Observation) returns (records: seq<Record>, error: Option<ChatError>)
      requires o.before.Ok?
      modifies this
      ensures Outcome(View(), records, error) == Observe(cfg, old(View()), st, o)
    {
      lastSignature := if o.before == o.after then Some(o.before.value) else None;
      if !initialized {
        initialized := true;
        if !cfg.fromStart {
          historical := 0;
          AnchorAt(st);
          return [], None;
        }
        historical := |st.messageIds|;
      }
      records, error := Continue(st, o);
    }

    /** `poll`, with its rollback: a chat error leaves every field but `lastError` as it was.  An exception that is
        no chat error leaves the method itself, `lastError` as it was, and the signature set if it came from the old
        root. */
    method PollOnce(o: Observation) returns (records: seq<Record>, error: Option<ChatError>)
      modifies this
      ensures Outcome(View(), records, error) == Poll(cfg, old(View()), o)
      ensures lastError == if error == Some(Escape) then old(lastError) else error
      ensures error.Some? && error != Some(Escape) ==> View() == old(View()) && records == []
    {
      var saved, before := View(), lastError;
      records, error := Attempt(o);
      if error == Some(Busy) || error == Some(Failure) {
        Assign(saved);
        records := [];
      }
      lastError := if error == Some(Escape) then before else error;
    }

    /** The body of the `try` in `poll`. */
    method Attempt(o: Observation) returns (records: seq<Record>, error: Option<ChatError>)
      modifies this
      ensures var r := Poll(cfg, old(View()), o);
              && error == r.error
              && (if error == Some(Busy) || error == Some(Failure) then r == Outcome(old(View()), [], error)
                  else View() == r.cursor && records == r.records)
    {
      if o.before.Err? {
        return [], Some(o.before.error);
      }
      if lastSignature.Some? && o.before.value == lastSignature.value && !pending {
        return [], None;
      }
      if o.snapshot.Err? {
        return [], Some(o.snapshot.error);
      }
      if o.after.Err? {
        return [], Some(o.after.error);
      }
      records, error := ReadState(o.snapshot.value, o);
    }

    /** `restore_checkpoint`, its checks in order.  An accepted checkpoint is what the follower exports from then on,
        and nothing else is remembered; a refused one changes nothing. */
    method RestoreCheckpoint(k: Checkpoint) returns (accepted: bool)
      modifies this
      ensures accepted <==> Acceptable(k, path)
      ensures accepted ==> Export(View(), path) == Ok(k)
      ensures accepted ==>
                !pending && lastSignature.None? && lastError.None? && ids == (if initialized then None else Some([]))
      ensures !accepted ==> View() == old(View()) && lastError == old(lastError)
    {
      if k.version != 1 || k.kind != "cursor_chat" || k.path != path {
        return false;
      }
      if k.count < 0 || k.count > MAX_MESSAGE_REFERENCES || k.historical < 0 || k.historical > MAX_MESSAGE_REFERENCES {
        return false;
      }
      if !k.initialized
         && (k.root.Some? || k.count != 0 || k.prefixHash != PrefixHash([]) || k.provisionalHash.Some?
           || k.historical != 0) {
        return false;
      }
      if SpacedBytes(k) > MAX_CHECKPOINT_BYTES {
        return false;
      }
      root, count, prefixHash, provisionalHash := k.root, k.count, k.prefixHash, k.provisionalHash;
      initialized, historical := k.initialized, k.historical;
      ids := if initialized then None else Some([]);
      pending, lastSignature, lastError := false, None, None;
      RestoredStandsWhereExported(k, path, View());
      accepted := true;
    }
  }
}
