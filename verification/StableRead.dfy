/**
  The "stat, copy, stat again" read of a chat database and its write-ahead log
  (sidecar/cursor_chat.py).  The source is a history of writes; the reader looks at
  it at instants it does not choose, so every interleaving is covered.
*/
module StableRead {
  import opened Common

  const SNAPSHOT_ATTEMPTS: nat := 3
  const COPY_CHUNK_BYTES: nat := 1024 * 1024
  const MAX_DB_BYTES: nat := 64 * 1024 * 1024
  const MAX_WAL_BYTES: nat := 256 * 1024 * 1024

  /** One change of the source, or none. Each write leaves a file whose stamp was never used before. */
  datatype SourceOp = WriteDb(bytes: seq<byte>) | WriteWal(bytes: seq<byte>) | DeleteDb | DeleteWal | Idle

  datatype FileVersion = FileVersion(stamp: nat, bytes: seq<byte>)

  datatype World = World(db: Option<FileVersion>, wal: Option<FileVersion>)

  datatype FileSignature = FileSignature(stamp: nat, size: nat)

  datatype Signature = Signature(db: FileSignature, wal: Option<FileSignature>)

  datatype Error = SourceError | LimitError | BusyError | DecodeError

  datatype Which = Db | Wal

  /** The source after its first `t` operations. */
  function At(ops: seq<SourceOp>, t: nat): World
    requires t <= |ops|
  {
    if t == 0 then World(None, None)
    else
      var w := At(ops, t - 1);
      match ops[t - 1]
      case WriteDb(b) => w.(db := Some(FileVersion(t, b)))
      case WriteWal(b) => w.(wal := Some(FileVersion(t, b)))
      case DeleteDb => w.(db := None)
      case DeleteWal => w.(wal := None)
      case Idle => w
  }

  function File(w: World, which: Which): Option<FileVersion> {
    if which.Db? then w.db else w.wal
  }

  function Sign(f: Option<FileVersion>): Option<FileSignature> {
    if f.None? then None else Some(FileSignature(f.value.stamp, |f.value.bytes|))
  }

  /** `_source_signature_bytes`. */
  function SourceBytes(s: Signature): nat {
    s.db.size + if s.wal.Some? then s.wal.value.size else 0
  }

  /** The signature of a world whose database exists. */
  function SignatureOf(w: World): Signature
    requires w.db.Some?
  {
    Signature(Sign(w.db).value, Sign(w.wal))
  }

  lemma {:induction false} StampsGrow(ops: seq<SourceOp>, t: nat, which: Which)
    requires t <= |ops|
    ensures File(At(ops, t), which).Some? ==> File(At(ops, t), which).value.stamp <= t
  {
    if t > 0 {
      StampsGrow(ops, t - 1, which);
    }
  }

  /** A stamp seen twice means that the file did not change in between. */
  lemma {:induction false} SameStampSameVersion(ops: seq<SourceOp>, which: Which, lo: nat, mid: nat, hi: nat)
    requires lo <= mid <= hi <= |ops|
    requires File(At(ops, lo), which).Some? && File(At(ops, hi), which).Some?
    requires File(At(ops, lo), which).value.stamp == File(At(ops, hi), which).value.stamp
    ensures File(At(ops, mid), which) == File(At(ops, lo), which)
    decreases hi - lo
  {
    if lo < hi {
      StampsGrow(ops, lo, which);
      assert File(At(ops, hi), which) == File(At(ops, hi - 1), which);
      SameStampSameVersion(ops, which, lo, Min(mid, hi - 1), hi - 1);
    }
  }

  /** The file is one and the same version (or absence) from `lo` to `hi`. */
  ghost predicate Steady(ops: seq<SourceOp>, which: Which, lo: nat, hi: nat)
    requires lo <= hi <= |ops|
  {
    forall t | lo <= t <= hi :: File(At(ops, t), which) == File(At(ops, lo), which)
  }

  lemma SteadyBetweenStats(ops: seq<SourceOp>, which: Which, a: nat, lo: nat, hi: nat, b: nat)
    requires a <= lo <= hi <= b <= |ops|
    requires File(At(ops, a), which).Some? && Sign(File(At(ops, b), which)) == Sign(File(At(ops, a), which))
    ensures Steady(ops, which, lo, hi) && File(At(ops, lo), which) == File(At(ops, a), which)
  {
    forall t | lo <= t <= hi ensures File(At(ops, t), which) == File(At(ops, a), which) {
      SameStampSameVersion(ops, which, a, t, b);
    }
  }

  /** A signature determines the bytes it was taken from, even when the log was
      created and deleted in between. */
  lemma SignatureIdentifiesContent(ops: seq<SourceOp>, a: nat, b: nat)
    requires a <= |ops| && b <= |ops|
    requires At(ops, a).db.Some? && At(ops, b).db.Some?
    requires SignatureOf(At(ops, a)) == SignatureOf(At(ops, b))
    ensures At(ops, a) == At(ops, b)
  {
    var lo, hi := Min(a, b), if a <= b then b else a;
    SameStampSameVersion(ops, Db, lo, hi, hi);
    if At(ops, a).wal.Some? {
      SameStampSameVersion(ops, Wal, lo, hi, hi);
    }
  }

  /** `_regular_signature` at the instant `at`; `refused` says that the file, if there is one, cannot be looked at
      or is no regular one. */
  method RegularSignature(ops: seq<SourceOp>, which: Which, maximum: nat, required: bool, at: nat, refused: bool)
    returns (r: Result<Option<FileSignature>, Error>)
    requires at <= |ops|
    ensures var file := File(At(ops, at), which);
            && (r.Ok? ==> r.value == Sign(file) && (r.value.Some? ==> r.value.value.size <= maximum))
            && (r == Ok(None) <==> file.None? && !required)
            && (r == Err(SourceError) <==> if file.None? then required else refused)
            && (r == Err(LimitError) <==> file.Some? && !refused && |file.value.bytes| > maximum)
            && (r.Err? ==> r.error in {SourceError, LimitError})
  {
    var file := File(At(ops, at), which);
    if file.None? {
      r := if required then Err(SourceError) else Ok(None);
    } else if refused {
      r := Err(SourceError);
    } else if |file.value.bytes| > maximum {
      r := Err(LimitError);
    } else {
      r := Ok(Sign(file));
    }
  }

  /** `_copy_regular_file`: bytes are fetched chunk by chunk while the source may change; `fails` is an `OSError` of
      some read, `None` that or a file that cannot be opened.  If the file is one version from `lo` to the end of
      the copy, the copy is the expected part of that version. */
  method CopyRegularFile(ops: seq<SourceOp>, which: Which, expected: nat, lo: nat, fails: bool)
    returns (copied: Option<seq<byte>>, at: nat)
    requires lo <= |ops|
    ensures lo <= at <= |ops|
    ensures copied.Some? ==> |copied.value| <= expected
    ensures Steady(ops, which, lo, at) && File(At(ops, lo), which).Some? && !fails ==> copied.Some?
    ensures CopyOk(ops, which, lo, at, expected, copied)
  {
    at :| lo <= at <= |ops|;
    var file := File(At(ops, at), which);
    if file.None? {
      return None, at;
    }
    var stamp := file.value.stamp;
    var data: seq<byte> := [];
    ghost var steady := File(At(ops, lo), which) == file;
    while |data| < expected
      invariant lo <= at <= |ops| && |data| <= expected
      invariant steady ==> File(At(ops, lo), which) == file && data <= file.value.bytes
      invariant Steady(ops, which, lo, at) ==> steady
      decreases expected - |data|
    {
      var now: bool := *;
      if fails && now {
        return None, at;
      }
      var previous := at;
      at :| previous <= at <= |ops|;
      var current := File(At(ops, at), which);
      steady := steady && current == file;
      // The descriptor shows the opened version while that version is there, and anything afterwards.
      var most := Min(COPY_CHUNK_BYTES, expected - |data|);
      var size: nat :| 1 <= size && size <= most;
      var chunk: seq<byte> := *;
      if |chunk| > size {
        chunk := [];
      }
      if current.Some? && current.value.stamp == stamp {
        var start := Min(|data|, |current.value.bytes|);
        chunk := current.value.bytes[start..Min(start + size, |current.value.bytes|)];
      }
      assert |chunk| <= size;
      if chunk == [] {
        break;
      }
      data := data + chunk;
    }
    copied := Some(data);
  }

  /** A signature race seen by one attempt: two instants at which the source differed. */
  ghost predicate Raced(ops: seq<SourceOp>, race: (nat, nat)) {
    race.0 <= race.1 <= |ops| && At(ops, race.0) != At(ops, race.1)
  }

  datatype Copy = Copy(db: seq<byte>, wal: Option<seq<byte>>)

  /** The bytes of a world, which is all that a decode of the private copy can see. */
  function CopyOf(w: World): Copy
    requires w.db.Some?
  {
    Copy(w.db.value.bytes, if w.wal.None? then None else Some(w.wal.value.bytes))
  }

  ghost predicate SignedAt(ops: seq<SourceOp>, s: Signature, t: nat) {
    t <= |ops| && At(ops, t).db.Some? && SignatureOf(At(ops, t)) == s
  }

  /** What decoding the source at signature `s` gives. */
  ghost function DecodedAt<V>(ops: seq<SourceOp>, s: Signature, decode: Copy -> Option<V>): Option<V> {
    if t: nat :| SignedAt(ops, s, t) then decode(CopyOf(At(ops, t))) else None
  }

  /** It does not matter at which instant that signature was seen. */
  lemma DecodeIsFunctionOfSignature<V>(ops: seq<SourceOp>, t: nat, decode: Copy -> Option<V>)
    requires t <= |ops| && At(ops, t).db.Some?
    ensures DecodedAt(ops, SignatureOf(At(ops, t)), decode) == decode(CopyOf(At(ops, t)))
  {
    var s := SignatureOf(At(ops, t));
    assert SignedAt(ops, s, t);
    forall u: nat | SignedAt(ops, s, u) ensures At(ops, u) == At(ops, t) {
      SignatureIdentifiesContent(ops, t, u);
    }
  }

  // ---------- why a read fails ----------

  function Bytes(f: Option<FileVersion>): nat {
    if f.None? then 0 else |f.value.bytes|
  }

  /** A file is larger than its own maximum. */
  predicate TooBig(w: World) {
    Bytes(w.db) > MAX_DB_BYTES || Bytes(w.wal) > MAX_WAL_BYTES
  }

  /** The database seen at `t` and the log seen at `u` are together larger than `limit`. */
  predicate Oversize(ops: seq<SourceOp>, limit: Option<nat>, t: nat, u: nat)
    requires t <= |ops| && u <= |ops|
  {
    limit.Some? && Bytes(At(ops, t).db) + Bytes(At(ops, u).wal) > limit.value
  }

  predicate Decodes<V>(w: World, decode: Copy -> Option<V>) {
    w.db.Some? && decode(CopyOf(w)).Some?
  }

  /** An error other than a busy source has a reason in the source at or after `from`; a source error may also come from
      a look or a copy that did not get through. */
  ghost predicate Excused<V>(ops: seq<SourceOp>, from: nat, limit: Option<nat>, decode: Copy -> Option<V>, error: Error,
                             through: bool) {
    match error
    case LimitError =>
      || (exists t | from <= t <= |ops| :: TooBig(At(ops, t)))
      || (exists t, u | from <= t <= u <= |ops| :: Oversize(ops, limit, t, u))
    case DecodeError => exists t | from <= t <= |ops| :: At(ops, t).db.Some? && !Decodes(At(ops, t), decode)
    case SourceError => through ==> exists t | from <= t <= |ops| :: At(ops, t).db.None?
    case BusyError => true
  }

  lemma ExcusedEarlier<V>(ops: seq<SourceOp>, from: nat, earlier: nat, limit: Option<nat>, decode: Copy -> Option<V>,
                          error: Error, through: bool, all: bool)
    requires Excused(ops, from, limit, decode, error, through) && earlier <= from && (all ==> through)
    ensures Excused(ops, earlier, limit, decode, error, all)
  {
  }

  /** Which looks and copies of one attempt do not get through, whatever the source is like. */
  datatype Trouble = Trouble(db: bool, wal: bool, copyDb: bool, copyWal: bool, dbAgain: bool, walAgain: bool)

  const NoTrouble := Trouble(false, false, false, false, false, false)

  /** The trouble of an attempt; there is none beyond those listed. */
  function TroubleOf(troubles: seq<Trouble>, attempt: nat): Trouble {
    if attempt < |troubles| then troubles[attempt] else NoTrouble
  }

  /** Everything gets through. */
  predicate Untroubled(troubles: seq<Trouble>) {
    forall i | 0 <= i < |troubles| :: troubles[i] == Trouble(false, false, false, false, false, false)
  }

  datatype Tried<V> = Done(result: Result<(V, Signature), Error>) | Race

  /** What was read is the source at `instant`. */
  ghost predicate ReadAt<V>(ops: seq<SourceOp>, from: nat, limit: Option<nat>, decode: Copy -> Option<V>,
                            got: (V, Signature), instant: nat) {
    && from <= instant <= |ops| && At(ops, instant).db.Some? && got.1 == SignatureOf(At(ops, instant))
    && decode(CopyOf(At(ops, instant))) == Some(got.0) && DecodedAt(ops, got.1, decode) == Some(got.0)
    && (limit.Some? ==> Bytes(At(ops, instant).db) + Bytes(At(ops, instant).wal) <= limit.value)
    && !TooBig(At(ops, instant))
  }

  /** `copied` is what a copy of `expected` bytes gives of a file that holds still. */
  ghost predicate CopyOk(ops: seq<SourceOp>, which: Which, lo: nat, hi: nat, expected: nat, copied: Option<seq<byte>>)
    requires lo <= hi <= |ops|
  {
    copied.Some? && Steady(ops, which, lo, hi) ==>
      var file := File(At(ops, lo), which);
      file.Some? && copied.value == file.value.bytes[..Min(expected, |file.value.bytes|)]
  }

  /** Between two agreeing stats a copy is the whole file. */
  lemma CopiedBetweenStats(ops: seq<SourceOp>, which: Which, a: nat, lo: nat, hi: nat, b: nat,
                           copied: Option<seq<byte>>)
    requires a <= lo <= hi <= b <= |ops| && File(At(ops, a), which).Some?
    requires Sign(File(At(ops, b), which)) == Sign(File(At(ops, a), which))
    requires CopyOk(ops, which, lo, hi, Bytes(File(At(ops, a), which)), copied)
    ensures Steady(ops, which, lo, hi) && File(At(ops, lo), which) == File(At(ops, a), which)
    ensures copied.Some? ==> copied.value == File(At(ops, a), which).value.bytes
  {
    SteadyBetweenStats(ops, which, a, lo, hi, b);
    var bytes := File(At(ops, a), which).value.bytes;
    assert bytes[..|bytes|] == bytes;
  }

  /** Both copies of one attempt, the log only if there was one. */
  method CopyBoth(ops: seq<SourceOp>, dbSize: nat, walSize: Option<nat>, lo: nat, trouble: Trouble)
    returns (copy: Option<Copy>, mid: nat, hi: nat)
    requires lo <= |ops|
    ensures lo <= mid <= hi <= |ops|
    ensures copy.Some? ==> CopiedBoth(ops, dbSize, walSize, lo, mid, hi, copy.value)
    ensures !trouble.copyDb && !trouble.copyWal && Steady(ops, Db, lo, mid) && At(ops, lo).db.Some?
            && (walSize.Some? ==> Steady(ops, Wal, mid, hi) && At(ops, mid).wal.Some?) ==>
              copy.Some?
  {
    var db, t := CopyRegularFile(ops, Db, dbSize, lo, trouble.copyDb);
    mid, hi := t, t;
    if db.None? { return None, mid, hi; }
    if walSize.None? { return Some(Copy(db.value, None)), mid, hi; }
    var wal, u := CopyRegularFile(ops, Wal, walSize.value, mid, trouble.copyWal);
    hi := u;
    if wal.None? { return None, mid, hi; }
    copy := Some(Copy(db.value, wal));
  }

  ghost predicate CopiedBoth(ops: seq<SourceOp>, dbSize: nat, walSize: Option<nat>, lo: nat, mid: nat, hi: nat,
                             copy: Copy)
    requires lo <= mid <= hi <= |ops|
  {
    && CopyOk(ops, Db, lo, mid, dbSize, Some(copy.db)) && (copy.wal.Some? <==> walSize.Some?)
    && (walSize.Some? ==> CopyOk(ops, Wal, mid, hi, walSize.value, copy.wal))
  }

  /** Stats that agree enclose copies of the source at one instant, that of the second stat. */
  lemma AgreeingStats(ops: seq<SourceOp>, t1: nat, t2: nat, t3: nat, t4: nat, t5: nat, t6: nat, copy: Option<Copy>)
    requires t1 <= t2 <= t3 <= t4 <= t5 <= t6 <= |ops|
    requires At(ops, t1).db.Some? && Sign(At(ops, t5).db) == Sign(At(ops, t1).db)
    requires Sign(At(ops, t6).wal) == Sign(At(ops, t2).wal)
    requires copy.Some? ==>
               CopiedBoth(ops, Bytes(At(ops, t1).db), WalSize(At(ops, t2)), t2, t3, t4, copy.value)
    ensures At(ops, t2).db == At(ops, t1).db && (copy.Some? ==> copy.value == CopyOf(At(ops, t2)))
    ensures Steady(ops, Db, t2, t3)
    ensures At(ops, t2).wal.Some? ==> Steady(ops, Wal, t3, t4) && At(ops, t3).wal.Some?
  {
    CopiedBetweenStats(ops, Db, t1, t2, t3, t5, if copy.None? then None else Some(copy.value.db));
    if At(ops, t2).wal.Some? {
      CopiedBetweenStats(ops, Wal, t2, t3, t4, t6, if copy.None? then None else copy.value.wal);
    }
  }

  function WalSize(w: World): Option<nat> {
    if w.wal.None? then None else Some(|w.wal.value.bytes|)
  }

  /** Both stats of one look at the source, the first of them at `t`. */
  method Look(ops: seq<SourceOp>, required: bool, t: nat, refuseDb: bool, refuseWal: bool)
    returns (r: Result<(Option<FileSignature>, Option<FileSignature>), Error>, u: nat)
    requires t <= |ops|
    ensures t <= u <= |ops|
    ensures r.Ok? ==> r.value == (Sign(At(ops, t).db), Sign(At(ops, u).wal)) && (required ==> r.value.0.Some?)
    ensures r.Ok? ==> Bytes(At(ops, t).db) <= MAX_DB_BYTES && Bytes(At(ops, u).wal) <= MAX_WAL_BYTES
    ensures r.Err? ==> r.error == SourceError || r.error == LimitError
    ensures r == Err(LimitError) ==> TooBig(At(ops, t)) || TooBig(At(ops, u))
    ensures r == Err(SourceError) && !refuseDb && !refuseWal ==> required && At(ops, t).db.None?
  {
    var db := RegularSignature(ops, Db, MAX_DB_BYTES, required, t, refuseDb);
    u := t;
    if db.Err? { return Err(db.error), u; }
    u :| t <= u <= |ops|;
    var wal := RegularSignature(ops, Wal, MAX_WAL_BYTES, false, u, refuseWal);
    if wal.Err? { return Err(wal.error), u; }
    r := Ok((db.value, wal.value));
  }

  /** One attempt: two stats, the first of them at `now`, the copies, two stats again. */
  method TryCopy<V>(ops: seq<SourceOp>, now: nat, limit: Option<nat>, decode: Copy -> Option<V>, trouble: Trouble)
    returns (r: Tried<V>, end: nat, ghost instant: nat, ghost race: (nat, nat))
    requires now <= |ops|
    ensures now <= end <= |ops|
    ensures r.Race? ==> now <= race.0 && Raced(ops, race) && race.1 <= end
    ensures r.Done? && r.result.Ok? ==> ReadAt(ops, now, limit, decode, r.result.value, instant)
    ensures r.Done? && r.result.Err? ==>
              r.result.error != BusyError && Excused(ops, now, limit, decode, r.result.error, trouble == NoTrouble)
    ensures r == Done(Err(SourceError)) && trouble == NoTrouble ==> At(ops, now).db.None?
  {
    instant, race, end := now, (now, now), now;
    var t1 := now;
    var before, t2 := Look(ops, true, t1, trouble.db, trouble.wal);
    if before.Err? { return Done(Err(before.error)), end, instant, race; }
    var dbSize := before.value.0.value.size;
    var walSize := if before.value.1.Some? then Some(before.value.1.value.size) else None;
    if limit.Some? && dbSize + (if walSize.Some? then walSize.value else 0) > limit.value {
      assert Oversize(ops, limit, t1, t2);
      return Done(Err(LimitError)), end, instant, race;
    }
    var copy, t3, t4 := CopyBoth(ops, dbSize, walSize, t2, trouble);
    var t5 :| t4 <= t5 <= |ops|;
    var after, t6 := Look(ops, false, t5, trouble.dbAgain, trouble.walAgain);
    if after.Err? { return Done(Err(after.error)), end, instant, race; }
    end := t6;
    if before.value != after.value {
      race := if before.value.0 != after.value.0 then (t1, t5) else (t2, t6);
      return Race, end, instant, race;
    }
    AgreeingStats(ops, t1, t2, t3, t4, t5, t6, copy);
    if copy.None? || |copy.value.db| != dbSize || (walSize.Some? && |copy.value.wal.value| != walSize.value) {
      return Done(Err(SourceError)), end, instant, race;
    }
    var decoded := decode(copy.value);
    instant := t2;
    if decoded.None? { return Done(Err(DecodeError)), end, instant, race; }
    DecodeIsFunctionOfSignature(ops, t2, decode);
    r := Done(Ok((decoded.value, Signature(before.value.0.value, before.value.1))));
  }

  /** Three intervals, one behind the other, in each of which the source changed. */
  ghost predicate Races(ops: seq<SourceOp>, start: nat, races: seq<(nat, nat)>) {
    && (forall i | 0 <= i < |races| :: start <= races[i].0 && Raced(ops, races[i]))
    && (forall i, j | 0 <= i < j < |races| :: races[i].1 <= races[j].0)
  }

  /** The source does not change from `from` on. */
  ghost predicate StillFrom(ops: seq<SourceOp>, from: nat) {
    forall t | from <= t <= |ops| :: At(ops, t) == At(ops, from)
  }

  /** From `from` on the source can be read at every instant. */
  ghost predicate Readable<V>(ops: seq<SourceOp>, from: nat, limit: Option<nat>, decode: Copy -> Option<V>) {
    && (forall t | from <= t <= |ops| :: !TooBig(At(ops, t)) && Decodes(At(ops, t), decode))
    && (forall t, u | from <= t <= u <= |ops| :: !Oversize(ops, limit, t, u))
  }

  /**
    `_read_stable_copy_with_signature_unlimited`.  An accepted copy is the whole source at one single instant, and the
    signature returned with it is the signature of that instant; giving up as busy means that the source really changed
    under every attempt; any other error has its reason in the source.  So a source that can be read is read, when
    every look and copy gets through, unless it changes under all three attempts.
  */
  method ReadStableCopy<V>(ops: seq<SourceOp>, start: nat, limit: Option<nat>, decode: Copy -> Option<V>,
                           troubles: seq<Trouble>)
    returns (r: Result<(V, Signature), Error>, ghost instant: nat, ghost races: seq<(nat, nat)>)
    requires start <= |ops|
    ensures r == Err(SourceError) && Untroubled(troubles) ==>
              if races == [] then At(ops, start).db.None?
              else exists t | races[|races| - 1].1 <= t <= |ops| :: At(ops, t).db.None?
    ensures Races(ops, start, races)
    ensures r.Ok? ==> DecodedAt(ops, r.value.1, decode) == Some(r.value.0)
    ensures r.Ok? ==> ReadAt(ops, start, limit, decode, r.value, instant)
    ensures r.Err? ==> Excused(ops, start, limit, decode, r.error, Untroubled(troubles))
    ensures r == Err(BusyError) ==> |races| == SNAPSHOT_ATTEMPTS
    ensures r == Err(BusyError) ==> forall from | start <= from <= |ops| && StillFrom(ops, from) :: races[2].0 < from
    ensures Untroubled(troubles) && Readable(ops, start, limit, decode) ==> r.Ok? || r == Err(BusyError)
    ensures Untroubled(troubles) && Readable(ops, start, limit, decode) && StillFrom(ops, start) ==>
              r == Ok((decode(CopyOf(At(ops, start))).value, SignatureOf(At(ops, start))))
  {
    var now := start;
    races, instant := [], start;
    for attempt := 0 to SNAPSHOT_ATTEMPTS
      invariant start <= now <= |ops| && |races| == attempt && Races(ops, start, races)
      invariant forall i | 0 <= i < |races| :: races[i].1 <= now
      invariant attempt == 0 ==> now == start
    {
      ghost var well := TroubleOf(troubles, attempt) == NoTrouble;
      var tried, end, t, race := TryCopy(ops, now, limit, decode, TroubleOf(troubles, attempt));
      if tried.Done? {
        if tried.result.Err? {
          ExcusedEarlier(ops, now, start, limit, decode, tried.result.error, well, Untroubled(troubles));
        }
        return tried.result, t, races;
      }
      races := races + [race];
      now :| end <= now <= |ops|;
    }
    r := Err(BusyError);
  }
}
