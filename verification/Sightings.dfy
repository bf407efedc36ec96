/**
  Where the observations of a follower come from (sidecar/cursor_chat.py): every stat and every read of a poll looks
  at one history of writes, at instants that nobody chooses.  A signature is two stats, of the database and of its
  log, so that two equal signatures around a read do not by themselves say that the read saw what they name.
*/
module Sightings {
  import opened Common
  import opened StableRead
  import opened Follower

  /** The instants of the two stats of one signature. */
  datatype Sight = Sight(db: nat, wal: nat)

  /** `_source_signature`: the database is looked at first, the log not earlier. */
  ghost predicate Stat(ops: seq<SourceOp>, at: Sight, s: Signature) {
    && at.db <= at.wal <= |ops| && At(ops, at.db).db.Some?
    && s == Signature(Sign(At(ops, at.db).db).value, Sign(At(ops, at.wal).wal))
  }

  /** The first and the last signature of a poll, the signature `named` of the state it got and when that was taken,
      and, if another caller's load delivered it, the key of both callers: when this one and when the leader looked. */
  datatype Provenance = Provenance(before: Sight, after: Sight, read: Sight, named: Signature,
    join: Option<(Sight, Sight)>)

  /** The state was read by this poll, after its first signature. */
  ghost predicate OwnRead(p: Provenance) {
    p.before.wal <= p.read.db
  }

  /** The state was delivered by a load that another caller leads, under the same key. */
  ghost predicate JoinedRead(ops: seq<SourceOp>, p: Provenance, key: Signature) {
    && p.join.Some? && Stat(ops, p.join.value.0, key) && Stat(ops, p.join.value.1, key)
    && p.before.wal <= p.join.value.0.db && p.join.value.0.wal <= p.after.db
    && p.join.value.1.wal <= p.read.db
  }

  /** The observation is one of this history.  That the state is what a direct read at its signature gives is what
      `Broker.SnapshotBroker` promises of everything it hands out. */
  ghost predicate Seen(o: Observation, ops: seq<SourceOp>, decode: Copy -> Option<ChatState>, p: Provenance,
                       key: Signature) {
    Reads(o) ==>
      && Stat(ops, p.before, o.before.value) && Stat(ops, p.after, o.after.value) && Stat(ops, p.read, p.named)
      && p.before.wal <= p.after.db && p.read.wal <= p.after.db
      && (OwnRead(p) || JoinedRead(ops, p, key))
      && DecodedAt(ops, p.named, decode) == Some(o.snapshot.value)
  }

  /** What the source decodes to at a signature. */
  ghost function StateAt(ops: seq<SourceOp>, decode: Copy -> Option<ChatState>): Signature -> Option<ChatState> {
    (s: Signature) => DecodedAt(ops, s, decode)
  }

  /** A file seen with one stamp at two instants has it at every instant between them. */
  lemma SameFileBetween(ops: seq<SourceOp>, which: Which, a: nat, t: nat, b: nat)
    requires a <= t <= b <= |ops| && File(At(ops, a), which).Some?
    requires Sign(File(At(ops, b), which)) == Sign(File(At(ops, a), which))
    ensures Sign(File(At(ops, t), which)) == Sign(File(At(ops, a), which)) && File(At(ops, t), which).Some?
  {
    SameStampSameVersion(ops, which, a, t, b);
  }

  /** The leader's key, which is this caller's key, holds from the leader's look to this caller's. */
  lemma LeaderSaw(ops: seq<SourceOp>, p: Provenance, key: Signature, db: FileSignature, b: nat)
    requires JoinedRead(ops, p, key) && key.db == db && p.read.db <= p.after.db <= b <= |ops|
    requires At(ops, b).db.Some? && Sign(At(ops, b).db).value == db
    ensures At(ops, p.read.db).db.Some? && Sign(At(ops, p.read.db).db).value == db
  {
    var leader := p.join.value.1;
    SameFileBetween(ops, Db, leader.db, p.read.db, b);
  }

  lemma LeaderSawLog(ops: seq<SourceOp>, p: Provenance, key: Signature, wal: FileSignature, b: nat)
    requires JoinedRead(ops, p, key) && key.wal == Some(wal) && p.read.db <= p.read.wal <= b <= |ops|
    requires Sign(At(ops, b).wal) == Some(wal)
    ensures Sign(At(ops, p.read.wal).wal) == Some(wal)
  {
    var leader := p.join.value.1;
    SameFileBetween(ops, Wal, leader.wal, p.read.wal, b);
  }

  /** When the signatures around a poll agree, the state it got is of the same database; and of the same log, if the
      signatures show one. */
  lemma AgreeingStatsEncloseRead(o: Observation, ops: seq<SourceOp>, decode: Copy -> Option<ChatState>, p: Provenance,
                                 key: Signature)
    requires Reads(o) && o.before == o.after && Seen(o, ops, decode, p, key)
    ensures p.named.db == o.before.value.db
    ensures o.before.value.wal.Some? ==> p.named == o.before.value
  {
    var s := o.before.value;
    if OwnRead(p) {
      SameFileBetween(ops, Db, p.before.db, p.read.db, p.after.db);
      if s.wal.Some? {
        SameFileBetween(ops, Wal, p.before.wal, p.read.wal, p.after.wal);
      }
    } else {
      var own := p.join.value.0;
      SameFileBetween(ops, Db, p.before.db, own.db, p.after.db);
      LeaderSaw(ops, p, key, s.db, p.after.db);
      if s.wal.Some? {
        SameFileBetween(ops, Wal, p.before.wal, own.wal, p.after.wal);
        LeaderSawLog(ops, p, key, s.wal.value, p.after.wal);
      }
    }
  }

  /**
    A poll is coherent, so that it may remember its signature, if and only if the signatures around it show a log, or
    the read saw none, or the log that came and went in between changes nothing in what is decoded.
  */
  lemma CoherentUnlessLogCameAndWent(o: Observation, ops: seq<SourceOp>, decode: Copy -> Option<ChatState>,
                                     p: Provenance,
                                     key: Signature)
    requires Seen(o, ops, decode, p, key)
    ensures Coherent(o, StateAt(ops, decode)) <==>
              (Reads(o) && o.before == o.after && o.before.value.wal.None? && p.named.wal.Some? ==>
                 DecodedAt(ops, o.before.value, decode) == DecodedAt(ops, p.named, decode))
  {
    if Reads(o) && o.before == o.after {
      AgreeingStatsEncloseRead(o, ops, decode, p, key);
    }
  }

  /** A history that shows the difference: a log is written and removed again, the signatures around the poll are
      those of the bare database, and the poll read the state with the log. */
  lemma LogThatCameAndWent(o: Observation, b: seq<byte>, w: seq<byte>, decode: Copy -> Option<ChatState>)
    requires decode(Copy(b, Some(w))).Some? && decode(Copy(b, Some(w))) != decode(Copy(b, None))
    requires o.before == o.after == Ok(Signature(FileSignature(1, |b|), None))
    requires o.snapshot == Ok(decode(Copy(b, Some(w))).value)
    ensures var ops := [WriteDb(b), WriteWal(w), DeleteWal];
            var named := Signature(FileSignature(1, |b|), Some(FileSignature(2, |w|)));
            && Seen(o, ops, decode, Provenance(Sight(1, 1), Sight(3, 3), Sight(2, 2), named, None), named)
            && !Coherent(o, StateAt(ops, decode))
  {
    var ops := [WriteDb(b), WriteWal(w), DeleteWal];
    var bare, logged := World(Some(FileVersion(1, b)), None), World(Some(FileVersion(1, b)), Some(FileVersion(2, w)));
    assert At(ops, 0) == World(None, None);
    assert At(ops, 1) == bare;
    assert At(ops, 2) == logged;
    assert At(ops, 3) == bare;
    DecodeIsFunctionOfSignature(ops, 1, decode);
    DecodeIsFunctionOfSignature(ops, 2, decode);
  }

  /** Every poll of the run is of this history, and no log comes and goes within one. */
  ghost predicate Steadily(run: seq<Observation>, ops: seq<SourceOp>, decode: Copy -> Option<ChatState>,
                           ps: seq<(Provenance, Signature)>)
  {
    && |ps| == |run|
    && forall i | 0 <= i < |run| ::
         && Seen(run[i], ops, decode, ps[i].0, ps[i].1)
         && (Reads(run[i]) && run[i].before == run[i].after && run[i].before.value.wal.None? ==>
             ps[i].0.named.wal.None?)
  }

  /**
    The checkpoint round trip over one history of the source: after any polls of it in which no log came and went and
    none was left by an escaping exception, the restored follower sends what the original would.
  */
  lemma CheckpointRoundTripOverHistory(cfg: Settings, past: seq<Observation>, future: seq<Observation>, path: string,
                                       rootIds: Id -> seq<Id>, ops: seq<SourceOp>, decode: Copy -> Option<ChatState>,
                                       ps: seq<(Provenance, Signature)>)
    requires cfg.Valid() && AllWellFormed(past, rootIds) && NothingEscapes(past) && Steadily(past, ops, decode, ps)
    requires var c := Follower.Run(cfg, Fresh, past).0;
             && Export(c, path).Ok? && Acceptable(Export(c, path).value, path)
             && ShelteredUntilRead(cfg, c, Restored(Export(c, path).value), TrackedRun(cfg, Fresh, [], past), future,
                                   rootIds, StateAt(ops, decode))
    ensures var c := Follower.Run(cfg, Fresh, past).0;
            var d := Restored(Export(c, path).value);
            Follower.Run(cfg, d, future).1 == Follower.Run(cfg, c, future).1
  {
    forall i | 0 <= i < |past| ensures Coherent(past[i], StateAt(ops, decode)) {
      CoherentUnlessLogCameAndWent(past[i], ops, decode, ps[i].0, ps[i].1);
    }
    MemoryStaysTrue(cfg, Fresh, [], past);
    CheckpointRoundTrip(cfg, past, future, path, rootIds, StateAt(ops, decode));
  }
}
