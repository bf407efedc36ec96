/**
  The protobuf scanner for the root blob of a chat (sidecar/cursor_chat.py), which follows the
  Protocol Buffers Encoding specification, sections "Base 128 Varints" and "Last One Wins".
  The methods at the end are the source's loops; the functions before them say what they compute.
*/
module Protobuf {
  import opened Common

  const MAX_ROOT_BLOB_BYTES: nat := 8 * 1024 * 1024
  const MAX_MESSAGE_BLOB_BYTES: nat := 4 * 1024 * 1024
  const MAX_PROTO_FIELDS: nat := 65_536
  const MAX_PROTO_PAYLOAD_BYTES: nat := 8 * 1024 * 1024
  const MAX_WORKSPACE_URI_BYTES: nat := 16 * 1024
  const MAX_FIELD_NUMBER: nat := 0x2000_0000 - 1
  const DIGEST_BYTES: nat := 32

  datatype ProtoError =
    | RootTooLarge | TooManyFields | TruncatedVarint | VarintOverflow | VarintTooLong | BadFieldNumber | WrongWireType
    | TruncatedFixed64 | TruncatedFixed32 | UnsupportedWireType | LengthExceedsPayload | PayloadTooLarge
    | BadDigestLength | TooManyReferences | ProvisionalTooLarge | UriTooLarge

  // ---------- base 128 varints ----------

  /** One more than the largest value that fits in bytes `i` to 9 of a varint. */
  function Bound(i: nat): (b: nat)
    requires i <= 9
    ensures b >= 2 && (i < 9 ==> b >= 128)
    decreases 9 - i
  {
    if i == 9 then 2 else 128 * Bound(i + 1)
  }

  /** The varint at the front of `s`, read from byte `i` on: its value and how many bytes it takes. */
  function Varint(s: seq<byte>, i: nat := 0): (r: Result<(nat, nat), ProtoError>)
    requires i <= 9
    ensures r.Ok? ==> r.value.0 < Bound(i) && 0 < r.value.1 <= |s| && r.value.1 <= 10 - i
    ensures r.Err? ==> r.error in {TruncatedVarint, VarintOverflow}
    decreases |s|
  {
    if s == [] then Err(TruncatedVarint)
    else if i == 9 && s[0] > 1 then Err(VarintOverflow)
    else if s[0] < 128 then Ok((s[0], 1))
    else
      var rest := Varint(s[1..], i + 1);
      if rest.Err? then rest else Ok((s[0] - 128 + 128 * rest.value.0, 1 + rest.value.1))
  }

  /** The canonical encoder. */
  function EncodeVarint(v: nat): (r: seq<byte>)
    ensures |r| > 0
  {
    if v < 128 then [v] else [128 + v % 128] + EncodeVarint(v / 128)
  }

  lemma BoundIsTwoTo64()
    ensures Bound(0) == 0x1_0000_0000_0000_0000
  {
    assert Bound(8) == 0x100 && Bound(6) == 0x40_0000;
    assert Bound(4) == 0x10_0000_0000 && Bound(2) == 0x4_0000_0000_0000;
  }

  /** Decoding undoes the canonical encoder for every value below 2^64, in at most ten bytes,
      whatever follows. */
  lemma {:induction false} VarintRoundTrip(v: nat, tail: seq<byte>, i: nat)
    requires i <= 9 && v < Bound(i)
    ensures Varint(EncodeVarint(v) + tail, i) == Ok((v, |EncodeVarint(v)|))
    ensures |EncodeVarint(v)| <= 10 - i
    decreases v
  {
    var e := EncodeVarint(v);
    if v >= 128 {
      VarintRoundTrip(v / 128, tail, i + 1);
      assert (e + tail)[1..] == EncodeVarint(v / 128) + tail;
    }
  }

  /** No accepted encoding of a value is shorter than the canonical one. */
  lemma {:induction false} VarintShortest(s: seq<byte>, i: nat)
    requires i <= 9 && Varint(s, i).Ok?
    ensures |EncodeVarint(Varint(s, i).value.0)| <= Varint(s, i).value.1
    decreases 9 - i
  {
    if s[0] >= 128 {
      VarintShortest(s[1..], i + 1);
      var v := Varint(s[1..], i + 1).value.0;
      assert (s[0] - 128 + 128 * v) / 128 == v;
    }
  }

  lemma {:induction false} VarintLocal(s: seq<byte>, tail: seq<byte>, i: nat)
    requires i <= 9 && Varint(s, i).Ok?
    ensures Varint(s + tail, i) == Varint(s, i)
    decreases 9 - i
  {
    assert (s + tail)[1..] == s[1..] + tail;
    if s[0] >= 128 {
      VarintLocal(s[1..], tail, i + 1);
    }
  }

  /** A varint ends after `n` bytes: the first one without its high bit is among the bytes that may follow, and a tenth
      byte has room for one bit only. */
  predicate EndsAt(s: seq<byte>, i: nat, n: nat) {
    && 0 < n <= |s| && n <= 10 - i && s[n - 1] < 128 && (n == 10 - i ==> s[n - 1] <= 1)
    && forall k | 0 <= k < n - 1 :: s[k] >= 128
  }

  /** Which bytes are read as a varint, and what is wrong with the others. */
  lemma {:induction false} VarintAccepts(s: seq<byte>, i: nat, n: nat)
    requires i <= 9
    ensures EndsAt(s, i, n) <==> Varint(s, i).Ok? && Varint(s, i).value.1 == n
    ensures Varint(s, i) == Err(TruncatedVarint) <==> |s| < 10 - i && forall k | 0 <= k < |s| :: s[k] >= 128
    decreases 9 - i
  {
    if s != [] && s[0] >= 128 && i < 9 {
      var t := s[1..];
      VarintAccepts(t, i + 1, if n > 0 then n - 1 else 0);
      assert forall k | 0 <= k < |t| :: t[k] == s[k + 1];
      if |s| < 10 - i && forall k | 0 <= k < |t| :: t[k] >= 128 {
        assert forall k | 0 <= k < |s| :: k == 0 || s[k] == t[k - 1];
      }
      if n > 1 && EndsAt(t, i + 1, n - 1) {
        assert forall k | 0 <= k < n - 1 :: k == 0 || s[k] == t[k - 1];
      }
    }
  }

  // ---------- fields ----------

  datatype Field =
    | VarintField(number: nat, value: nat)
    | Fixed64(number: nat, bytes: seq<byte>)
    | Delimited(number: nat, payload: seq<byte>)
    | Fixed32(number: nat, bytes: seq<byte>)

  /** The field at the front of `s` and how many bytes it takes. */
  function ReadField(s: seq<byte>): (r: Result<(Field, nat), ProtoError>)
    ensures r.Ok? ==> 0 < r.value.1 <= |s|
    ensures r.Ok? && r.value.0.Delimited? ==> |r.value.0.payload| < r.value.1
    ensures r.Err? ==> r.error !in {VarintTooLong, PayloadTooLarge}
  {
    var key := Varint(s);
    if key.Err? then Err(key.error) else
    var number, wire, n := key.value.0 / 8, key.value.0 % 8, key.value.1;
    if number <= 0 || number > MAX_FIELD_NUMBER then Err(BadFieldNumber)
    else if number in {1, 4, 9} && wire != 2 then Err(WrongWireType)
    else
      var body := ReadBody(number, wire, s[n..]);
      if body.Err? then Err(body.error) else Ok((body.value.0, n + body.value.1))
  }

  /** What follows the key of a field. */
  function ReadBody(number: nat, wire: nat, s: seq<byte>): (r: Result<(Field, nat), ProtoError>)
    ensures r.Ok? ==> r.value.1 <= |s|
    ensures r.Ok? && r.value.0.Delimited? ==> |r.value.0.payload| <= r.value.1
    ensures r.Err? ==> r.error !in {VarintTooLong, PayloadTooLarge}
  {
    if wire == 0 then
      var v := Varint(s);
      if v.Err? then Err(v.error) else Ok((VarintField(number, v.value.0), v.value.1))
    else if wire == 1 then
      if |s| < 8 then Err(TruncatedFixed64) else Ok((Fixed64(number, s[..8]), 8))
    else if wire == 5 then
      if |s| < 4 then Err(TruncatedFixed32) else Ok((Fixed32(number, s[..4]), 4))
    else if wire != 2 then Err(UnsupportedWireType)
    else
      var length := Varint(s);
      if length.Err? then Err(length.error)
      else if length.value.0 > |s| - length.value.1 then Err(LengthExceedsPayload)
      else
        var at := length.value.1;
        Ok((Delimited(number, s[at..at + length.value.0]), at + length.value.0))
  }

  function Wire(f: Field): nat {
    match f
    case VarintField(_, _) => 0
    case Fixed64(_, _) => 1
    case Delimited(_, _) => 2
    case Fixed32(_, _) => 5
  }

  predicate WellFormed(f: Field) {
    && 0 < f.number <= MAX_FIELD_NUMBER
    && (f.number in {1, 4, 9} ==> f.Delimited?)
    && (f.VarintField? ==> f.value < Bound(0))
    && (f.Fixed64? ==> |f.bytes| == 8)
    && (f.Fixed32? ==> |f.bytes| == 4)
    && (f.Delimited? ==> |f.payload| < Bound(0))
  }

  function EncodeField(f: Field): (r: seq<byte>)
    ensures |r| > 0
  {
    EncodeVarint(f.number * 8 + Wire(f)) + EncodeBody(f)
  }

  function EncodeBody(f: Field): seq<byte> {
    match f
    case VarintField(_, v) => EncodeVarint(v)
    case Fixed64(_, b) => b
    case Delimited(_, p) => EncodeVarint(|p|) + p
    case Fixed32(_, b) => b
  }

  function EncodeFields(fs: seq<Field>): seq<byte> {
    if fs == [] then [] else EncodeField(fs[0]) + EncodeFields(fs[1..])
  }

  lemma DelimitedRoundTrip(number: nat, e: seq<byte>, p: seq<byte>, tail: seq<byte>)
    requires Varint(e + (p + tail)) == Ok((|p|, |e|))
    ensures ReadBody(number, 2, e + p + tail) == Ok((Delimited(number, p), |e| + |p|))
  {
    var s := e + p + tail;
    assert s == e + (p + tail);
    assert s[|e|..|e| + |p|] == p;
  }

  lemma BodyRoundTrip(f: Field, tail: seq<byte>)
    requires WellFormed(f)
    ensures ReadBody(f.number, Wire(f), EncodeBody(f) + tail) == Ok((f, |EncodeBody(f)|))
  {
    match f {
      case VarintField(_, v) => VarintRoundTrip(v, tail, 0);
      case Delimited(number, p) =>
        VarintRoundTrip(|p|, p + tail, 0);
        DelimitedRoundTrip(number, EncodeVarint(|p|), p, tail);
      case Fixed64(_, b) => assert (b + tail)[..8] == b;
      case Fixed32(_, b) => assert (b + tail)[..4] == b;
    }
  }

  lemma FieldRoundTrip(f: Field, tail: seq<byte>)
    requires WellFormed(f)
    ensures ReadField(EncodeField(f) + tail) == Ok((f, |EncodeField(f)|))
  {
    BodyRoundTrip(f, tail);
    KeyedRoundTrip(f.number * 8 + Wire(f), f, EncodeBody(f), EncodeField(f), tail);
  }

  lemma KeyedRoundTrip(key: nat, f: Field, b: seq<byte>, e: seq<byte>, tail: seq<byte>)
    requires WellFormed(f) && key == f.number * 8 + Wire(f) && e == EncodeVarint(key) + b
    requires ReadBody(f.number, Wire(f), b + tail) == Ok((f, |b|))
    ensures ReadField(e + tail) == Ok((f, |e|))
  {
    BoundIsTwoTo64();
    VarintRoundTrip(key, b + tail, 0);
    Regroup(EncodeVarint(key), b, tail);
    KeyAndBody(e + tail, |EncodeVarint(key)|, f, |b|);
  }

  lemma Regroup(k: seq<byte>, b: seq<byte>, tail: seq<byte>)
    ensures k + b + tail == k + (b + tail) && (k + b + tail)[|k|..] == b + tail
  {
  }

  lemma KeyAndBody(t: seq<byte>, n: nat, f: Field, size: nat)
    requires WellFormed(f) && Varint(t) == Ok((f.number * 8 + Wire(f), n))
    requires ReadBody(f.number, Wire(f), t[n..]) == Ok((f, size))
    ensures ReadField(t) == Ok((f, n + size))
  {
    KeyThenBody(t, n, f.number, Wire(f));
  }

  lemma KeyParts(number: nat, wire: nat)
    requires wire < 8
    ensures (number * 8 + wire) / 8 == number && (number * 8 + wire) % 8 == wire
  {
  }

  lemma KeyThenBody(t: seq<byte>, n: nat, number: nat, wire: nat)
    requires wire < 8 && Varint(t) == Ok((number * 8 + wire, n))
    requires 0 < number <= MAX_FIELD_NUMBER && (number in {1, 4, 9} ==> wire == 2)
    requires ReadBody(number, wire, t[n..]).Ok?
    ensures var body := ReadBody(number, wire, t[n..]).value;
            ReadField(t) == Ok((body.0, n + body.1))
  {
    KeyParts(number, wire);
  }

  lemma BodyLocal(number: nat, wire: nat, s: seq<byte>, tail: seq<byte>)
    requires ReadBody(number, wire, s).Ok?
    ensures ReadBody(number, wire, s + tail) == ReadBody(number, wire, s)
  {
    if wire == 0 {
      VarintLocal(s, tail, 0);
    } else if wire == 2 {
      VarintLocal(s, tail, 0);
      var at, length := Varint(s).value.1, Varint(s).value.0;
      assert (s + tail)[at..at + length] == s[at..at + length];
    } else if wire == 1 {
      assert (s + tail)[..8] == s[..8];
    } else {
      assert (s + tail)[..4] == s[..4];
    }
  }

  lemma ReadFieldLocal(s: seq<byte>, tail: seq<byte>)
    requires ReadField(s).Ok?
    ensures ReadField(s + tail) == ReadField(s)
  {
    VarintLocal(s, tail, 0);
    var key := Varint(s).value;
    assert (s + tail)[key.1..] == s[key.1..] + tail;
    BodyLocal(key.0 / 8, key.0 % 8, s[key.1..], tail);
  }

  /** `s` is a spelling of `f`, canonical or not. */
  ghost predicate Spells(s: seq<byte>, f: Field) {
    && WellFormed(f) && Varint(s).Ok? && Varint(s).value.0 == 8 * f.number + Wire(f)
    && BodySpells(s[Varint(s).value.1..], f)
  }

  ghost predicate BodySpells(s: seq<byte>, f: Field) {
    match f
    case VarintField(_, v) => Varint(s) == Ok((v, |s|))
    case Fixed64(_, b) => s == b
    case Fixed32(_, b) => s == b
    case Delimited(_, p) => Varint(s).Ok? && Varint(s).value.0 == |p| && s[Varint(s).value.1..] == p
  }

  /** Nothing that is decoded depends on what was not taken in. */
  lemma VarintOfPrefix(s: seq<byte>, n: nat)
    requires Varint(s).Ok? && Varint(s).value.1 <= n <= |s|
    ensures Varint(s[..n]) == Varint(s)
  {
    var k := Varint(s).value.1;
    VarintAccepts(s, 0, k);
    assert EndsAt(s[..n], 0, k);
    VarintAccepts(s[..n], 0, k);
    VarintLocal(s[..n], s[n..], 0);
    assert s[..n] + s[n..] == s;
  }

  lemma BodyIsSpelled(number: nat, wire: nat, s: seq<byte>)
    requires ReadBody(number, wire, s).Ok? && 0 < number <= MAX_FIELD_NUMBER && (number in {1, 4, 9} ==> wire == 2)
    ensures var (f, n) := ReadBody(number, wire, s).value;
            f.number == number && Wire(f) == wire && WellFormed(f) && BodySpells(s[..n], f)
  {
    var (f, n) := ReadBody(number, wire, s).value;
    if wire == 0 {
      VarintOfPrefix(s, n);
    } else if wire == 2 {
      VarintOfPrefix(s, n);
      var at := Varint(s).value.1;
      assert s[..n][at..] == s[at..n];
    }
  }

  lemma SpelledBodyIsRead(f: Field, s: seq<byte>)
    requires BodySpells(s, f) && WellFormed(f)
    ensures ReadBody(f.number, Wire(f), s) == Ok((f, |s|))
  {
    match f
    case Delimited(_, p) =>
      var at := Varint(s).value.1;
      assert s[at..at + |p|] == p;
    case Fixed64(_, b) => assert s[..8] == b;
    case Fixed32(_, b) => assert s[..4] == b;
    case _ =>
  }

  /** A field is read exactly where a spelling of a well-formed one begins, whatever follows. */
  lemma ReadsExactlySpellings(s: seq<byte>, f: Field, n: nat)
    ensures ReadField(s) == Ok((f, n)) <==> n <= |s| && Spells(s[..n], f)
  {
    if ReadField(s) == Ok((f, n)) {
      ReadIsSpelled(s);
    }
    if n <= |s| && Spells(s[..n], f) {
      SpelledIsRead(s[..n], f);
      ReadFieldLocal(s[..n], s[n..]);
      assert s[..n] + s[n..] == s;
    }
  }

  lemma SpelledIsRead(s: seq<byte>, f: Field)
    requires Spells(s, f)
    ensures ReadField(s) == Ok((f, |s|))
  {
    var k := Varint(s).value.1;
    SpelledBodyIsRead(f, s[k..]);
    KeyAndBody(s, k, f, |s[k..]|);
  }

  lemma ReadIsSpelled(s: seq<byte>)
    requires ReadField(s).Ok?
    ensures Spells(s[..ReadField(s).value.1], ReadField(s).value.0)
  {
    var (f, n) := ReadField(s).value;
    var (key, k) := Varint(s).value;
    VarintOfPrefix(s, n);
    BodyIsSpelled(key / 8, key % 8, s[k..]);
    assert s[k..][..n - k] == s[..n][k..];
  }

  /** Why a field whose key could be read is refused. */
  lemma RefusedFields(s: seq<byte>, key: nat, n: nat)
    requires Varint(s) == Ok((key, n)) && ReadField(s).Err?
    ensures var e, left := ReadField(s).error, |s| - n;
            && (e == BadFieldNumber <==> key < 8 || key >= 0x1_0000_0000)
            && (e == WrongWireType <==> key / 8 in {1, 4, 9} && key % 8 != 2)
            && (e == UnsupportedWireType ==> key % 8 in {3, 4, 6, 7})
            && (e == TruncatedFixed64 ==> key % 8 == 1 && left < 8)
            && (e == TruncatedFixed32 ==> key % 8 == 5 && left < 4)
            && (e == LengthExceedsPayload ==>
                  var length := Varint(s[n..]);
                  key % 8 == 2 && length.Ok? && length.value.0 > left - length.value.1)
            && (e in {TruncatedVarint, VarintOverflow} ==> key % 8 in {0, 2} && Varint(s[n..]) == Err(e))
  {
  }

  /** The fields of a message. */
  function Parse(s: seq<byte>): Result<seq<Field>, ProtoError>
    decreases |s|
  {
    if s == [] then Ok([])
    else
      var first := ReadField(s);
      if first.Err? then Err(first.error) else
      var rest := Parse(s[first.value.1..]);
      if rest.Err? then rest else Ok([first.value.0] + rest.value)
  }

  lemma ParseStep(s: seq<byte>)
    requires s != [] && ReadField(s).Ok?
    ensures var (f, n) := ReadField(s).value;
            && Parse(s).Ok? == Parse(s[n..]).Ok?
            && (Parse(s).Err? ==> Parse(s) == Parse(s[n..]))
            && (Parse(s).Ok? ==> forall more :: Parse(s).value + more == [f] + (Parse(s[n..]).value + more))
  {
    if Parse(s).Ok? {
      var (f, n) := ReadField(s).value;
      forall more: seq<Field> ensures Parse(s).value + more == [f] + (Parse(s[n..]).value + more) {
      }
    }
  }

  /** Parsing undoes encoding. */
  lemma {:induction false} ParseRoundTrip(fs: seq<Field>)
    requires forall i | 0 <= i < |fs| :: WellFormed(fs[i])
    ensures Parse(EncodeFields(fs)) == Ok(fs)
  {
    if fs != [] {
      FieldRoundTrip(fs[0], EncodeFields(fs[1..]));
      ParseRoundTrip(fs[1..]);
      ParseFirst(EncodeField(fs[0]), EncodeFields(fs[1..]), fs[0], fs[1..]);
      assert fs == [fs[0]] + fs[1..];
    }
  }

  lemma ParseFirst(e: seq<byte>, tail: seq<byte>, f: Field, rest: seq<Field>)
    requires e != [] && ReadField(e + tail) == Ok((f, |e|)) && Parse(tail) == Ok(rest)
    ensures Parse(e + tail) == Ok([f] + rest)
  {
    assert (e + tail)[|e|..] == tail;
  }

  /** A message glued to another has the fields of both, or fails as the second one does. */
  lemma {:induction false} ParseConcat(a: seq<byte>, b: seq<byte>)
    requires Parse(a).Ok?
    ensures Parse(b).Ok? ==> Parse(a + b) == Ok(Parse(a).value + Parse(b).value)
    ensures Parse(b).Err? ==> Parse(a + b) == Parse(b)
    decreases |a|
  {
    if a == [] {
      assert a + b == b;
      assert Parse(b).Ok? ==> [] + Parse(b).value == Parse(b).value;
    } else {
      ReadFieldLocal(a, b);
      var n := ReadField(a).value.1;
      assert (a + b)[n..] == a[n..] + b;
      ParseConcat(a[n..], b);
      ParseStep(a);
      ParseStep(a + b);
    }
  }

  // ---------- the root scanner ----------

  /** What the scanner has gathered; `fields` and `payloadBytes` are its counters. */
  datatype Scan = Scan(fields: nat, payloadBytes: nat, references: seq<seq<byte>>,
                       provisional: Option<seq<byte>>, uri: Option<seq<byte>>)

  const Start := Scan(0, 0, [], None, None)

  /** One counted field taken in. */
  function Absorb(a: Scan, f: Field): (r: Result<Scan, ProtoError>) {
    if !f.Delimited? then Ok(a.(fields := a.fields + 1)) else
    var b := a.(fields := a.fields + 1, payloadBytes := a.payloadBytes + |f.payload|);
    if b.payloadBytes > MAX_PROTO_PAYLOAD_BYTES then Err(PayloadTooLarge)
    else if f.number == 1 then
      if |f.payload| != DIGEST_BYTES then Err(BadDigestLength)
      else if |a.references| + 1 > MAX_MESSAGE_REFERENCES then Err(TooManyReferences)
      else Ok(b.(references := a.references + [f.payload]))
    else if f.number == 4 then
      if |f.payload| > MAX_MESSAGE_BLOB_BYTES then Err(ProvisionalTooLarge) else Ok(b.(provisional := Some(f.payload)))
    else if f.number == 9 then
      if |f.payload| > MAX_WORKSPACE_URI_BYTES then Err(UriTooLarge) else Ok(b.(uri := Some(f.payload)))
    else Ok(b)
  }

  /** The scan of `s` in one pass, errors in the order in which they are met. */
  function ScanFrom(s: seq<byte>, a: Scan): Result<Scan, ProtoError>
    decreases |s|
  {
    if s == [] then Ok(a)
    else if a.fields + 1 > MAX_PROTO_FIELDS then Err(TooManyFields)
    else
      var field := ReadField(s);
      if field.Err? then Err(field.error) else
      var b := Absorb(a, field.value.0);
      if b.Err? then Err(b.error) else ScanFrom(s[field.value.1..], b.value)
  }

  // What the scan means, in terms of the parsed fields.

  function Numbered(fs: seq<Field>, number: nat): seq<seq<byte>> {
    if fs == [] then []
    else (if fs[0].Delimited? && fs[0].number == number then [fs[0].payload] else []) + Numbered(fs[1..], number)
  }

  /** Last one wins. */
  function Last(payloads: seq<seq<byte>>, before: Option<seq<byte>>): Option<seq<byte>> {
    if payloads == [] then before else Some(payloads[|payloads| - 1])
  }

  predicate FieldFits(f: Field) {
    f.Delimited? ==>
      && (f.number == 1 ==> |f.payload| == DIGEST_BYTES)
      && (f.number == 4 ==> |f.payload| <= MAX_MESSAGE_BLOB_BYTES)
      && (f.number == 9 ==> |f.payload| <= MAX_WORKSPACE_URI_BYTES)
  }

  predicate Fits(fs: seq<Field>, fields: nat, references: nat) {
    && fields + |fs| <= MAX_PROTO_FIELDS
    && references + |Numbered(fs, 1)| <= MAX_MESSAGE_REFERENCES
    && forall i | 0 <= i < |fs| :: FieldFits(fs[i])
  }

  ghost predicate Gathers(a: Scan, fs: seq<Field>, b: Scan) {
    && b.fields == a.fields + |fs|
    && Takes(a, Numbered(fs, 1), Numbered(fs, 4), Numbered(fs, 9), b)
  }

  ghost predicate Takes(a: Scan, ones: seq<seq<byte>>, fours: seq<seq<byte>>, nines: seq<seq<byte>>, b: Scan) {
    && b.references == a.references + ones
    && b.provisional == Last(fours, a.provisional)
    && b.uri == Last(nines, a.uri)
  }

  lemma FitsStep(fs: seq<Field>, fields: nat, references: nat)
    requires fs != []
    ensures Fits(fs, fields, references) <==>
              && fields + 1 <= MAX_PROTO_FIELDS && FieldFits(fs[0])
              && Fits(fs[1..], fields + 1, references + |Numbered([fs[0]], 1)|)
  {
    assert fs == [fs[0]] + fs[1..];
    assert [fs[0]][1..] == [];
    if Fits(fs[1..], fields + 1, references + |Numbered([fs[0]], 1)|) && FieldFits(fs[0]) {
      forall i | 0 <= i < |fs| ensures FieldFits(fs[i]) {
        if i > 0 { assert fs[i] == fs[1..][i - 1]; }
      }
    }
  }

  lemma AbsorbFits(a: Scan, f: Field)
    requires a.payloadBytes + (if f.Delimited? then |f.payload| else 0) <= MAX_PROTO_PAYLOAD_BYTES
    ensures Absorb(a, f).Ok?
            <==> FieldFits(f) && (Numbered([f], 1) != [] ==> |a.references| + 1 <= MAX_MESSAGE_REFERENCES)
    ensures Absorb(a, f).Ok? ==> Gathers(a, [f], Absorb(a, f).value)
    ensures Absorb(a, f) != Err(PayloadTooLarge)
  {
    assert [f][1..] == [];
  }

  lemma NumberedFirst(f: Field, rest: seq<Field>, n: nat)
    ensures Numbered([f] + rest, n) == Numbered([f], n) + Numbered(rest, n)
  {
    assert [f][1..] == [] && ([f] + rest)[1..] == rest;
  }

  lemma TakesBoth(a: Scan, ones: seq<seq<byte>>, fours: seq<seq<byte>>, nines: seq<seq<byte>>, b: Scan,
                  ones': seq<seq<byte>>, fours': seq<seq<byte>>, nines': seq<seq<byte>>, c: Scan)
    requires Takes(a, ones, fours, nines, b) && Takes(b, ones', fours', nines', c)
    ensures Takes(a, ones + ones', fours + fours', nines + nines', c)
  {
  }

  lemma GathersStep(a: Scan, f: Field, b: Scan, rest: seq<Field>, c: Scan)
    requires Gathers(a, [f], b) && Gathers(b, rest, c)
    ensures Gathers(a, [f] + rest, c)
  {
    NumberedFirst(f, rest, 1);
    NumberedFirst(f, rest, 4);
    NumberedFirst(f, rest, 9);
    TakesBoth(a, Numbered([f], 1), Numbered([f], 4), Numbered([f], 9), b,
              Numbered(rest, 1), Numbered(rest, 4), Numbered(rest, 9), c);
  }

  lemma FirstThenRest(a: Scan, f: Field, rest: seq<Field>, scan: Result<Scan, ProtoError>)
    requires a.payloadBytes + (if f.Delimited? then |f.payload| else 0) <= MAX_PROTO_PAYLOAD_BYTES
    requires |a.references| <= MAX_MESSAGE_REFERENCES
    requires scan.Ok? <==>
             && a.fields < MAX_PROTO_FIELDS && Absorb(a, f).Ok?
             && Fits(rest, Absorb(a, f).value.fields, |Absorb(a, f).value.references|)
    requires scan.Ok? ==> Gathers(Absorb(a, f).value, rest, scan.value)
    ensures scan.Ok? <==> Fits([f] + rest, a.fields, |a.references|)
    ensures scan.Ok? ==> Gathers(a, [f] + rest, scan.value)
  {
    AbsorbFits(a, f);
    assert ([f] + rest)[1..] == rest;
    FitsStep([f] + rest, a.fields, |a.references|);
    if scan.Ok? {
      GathersStep(a, f, Absorb(a, f).value, rest, scan.value);
    }
  }

  /** The one-pass scan accepts exactly the parsable messages within the limits, and gathers the references
      in order and the last field 4 and 9; the total payload check never fires. */
  lemma {:induction false} ScanFromIsParse(s: seq<byte>, a: Scan)
    requires a.payloadBytes + |s| <= MAX_PROTO_PAYLOAD_BYTES
    requires a.fields <= MAX_PROTO_FIELDS && |a.references| <= MAX_MESSAGE_REFERENCES
    ensures ScanFrom(s, a).Ok? <==> Parse(s).Ok? && Fits(Parse(s).value, a.fields, |a.references|)
    ensures ScanFrom(s, a).Ok? ==> Parse(s).Ok? && Gathers(a, Parse(s).value, ScanFrom(s, a).value)
    ensures ScanFrom(s, a) != Err(PayloadTooLarge)
    decreases |s|
  {
    if s != [] && ReadField(s).Ok? {
      var (f, n) := ReadField(s).value;
      AbsorbFits(a, f);
      if Absorb(a, f).Ok? && a.fields < MAX_PROTO_FIELDS {
        ScanFromIsParse(s[n..], Absorb(a, f).value);
      }
      if Parse(s[n..]).Ok? {
        FirstThenRest(a, f, Parse(s[n..]).value, ScanFrom(s, a));
      }
    }
  }

  /** Why a scan that has counted `fields` and found `references` goes no further than `s`. */
  ghost predicate StopsAt(e: ProtoError, s: seq<byte>, fields: nat, references: nat) {
    if fields >= MAX_PROTO_FIELDS then e == TooManyFields
    else if ReadField(s).Err? then e == ReadField(s).error
    else
      var f := ReadField(s).value.0;
      && f.Delimited?
      && match e
         case BadDigestLength => f.number == 1 && |f.payload| != DIGEST_BYTES
         case TooManyReferences => f.number == 1 && references >= MAX_MESSAGE_REFERENCES
         case ProvisionalTooLarge => f.number == 4 && |f.payload| > MAX_MESSAGE_BLOB_BYTES
         case UriTooLarge => f.number == 9 && |f.payload| > MAX_WORKSPACE_URI_BYTES
         case _ => false
  }

  /** All of `s` before `n` is a message within the limits, and `e` is what is wrong there. */
  ghost predicate Stopped(e: ProtoError, s: seq<byte>, fields: nat, references: nat, fs: seq<Field>, n: nat) {
    && n < |s| && Parse(s[..n]) == Ok(fs) && Fits(fs, fields, references)
    && StopsAt(e, s[n..], fields + |fs|, references + |Numbered(fs, 1)|)
  }

  /** A refused scan reports what is wrong at the first place where something is. */
  lemma {:induction false} ScanStops(s: seq<byte>, a: Scan) returns (fs: seq<Field>, n: nat)
    requires a.payloadBytes + |s| <= MAX_PROTO_PAYLOAD_BYTES && ScanFrom(s, a).Err?
    requires a.fields <= MAX_PROTO_FIELDS && |a.references| <= MAX_MESSAGE_REFERENCES
    ensures Stopped(ScanFrom(s, a).error, s, a.fields, |a.references|, fs, n)
    decreases |s|
  {
    if GoesOn(s, a) {
      var f, k, b := ScanGoesOn(s, a);
      var more, m := ScanStops(s[k..], b);
      fs, n := [f] + more, k + m;
      StopsLater(ScanFrom(s[k..], b).error, s, f, k, a, b, more, m);
    } else {
      fs, n := [], 0;
      StopsHere(s, a);
    }
  }

  ghost predicate GoesOn(s: seq<byte>, a: Scan) {
    a.fields < MAX_PROTO_FIELDS && ReadField(s).Ok? && Absorb(a, ReadField(s).value.0).Ok?
  }

  lemma ScanGoesOn(s: seq<byte>, a: Scan) returns (f: Field, k: nat, b: Scan)
    requires GoesOn(s, a) && a.payloadBytes + |s| <= MAX_PROTO_PAYLOAD_BYTES
    requires |a.references| <= MAX_MESSAGE_REFERENCES
    ensures ReadField(s) == Ok((f, k)) && 0 < k <= |s| && FieldFits(f) && Gathers(a, [f], b)
    ensures s != [] ==> ScanFrom(s, a) == ScanFrom(s[k..], b)
    ensures b.payloadBytes + |s[k..]| <= MAX_PROTO_PAYLOAD_BYTES
    ensures b.fields <= MAX_PROTO_FIELDS && |b.references| <= MAX_MESSAGE_REFERENCES
  {
    f, k := ReadField(s).value.0, ReadField(s).value.1;
    b := Absorb(a, f).value;
    AbsorbFits(a, f);
  }

  lemma StopsLater(e: ProtoError, s: seq<byte>, f: Field, k: nat, a: Scan, b: Scan, more: seq<Field>, m: nat)
    requires ReadField(s) == Ok((f, k)) && a.fields < MAX_PROTO_FIELDS && FieldFits(f) && Gathers(a, [f], b)
    requires Stopped(e, s[k..], b.fields, |b.references|, more, m)
    ensures Stopped(e, s, a.fields, |a.references|, [f] + more, k + m)
  {
    PrefixParses(s, k, m);
    OneMore(a, f, b, more);
    assert s[k..][m..] == s[k + m..];
  }

  lemma OneMore(a: Scan, f: Field, b: Scan, more: seq<Field>)
    requires a.fields < MAX_PROTO_FIELDS && Gathers(a, [f], b) && FieldFits(f)
    requires Fits(more, a.fields + 1, |b.references|)
    ensures Fits([f] + more, a.fields, |a.references|)
    ensures |a.references| + |Numbered([f] + more, 1)| == |b.references| + |Numbered(more, 1)|
  {
    var fs := [f] + more;
    assert fs[1..] == more;
    FitsStep(fs, a.fields, |a.references|);
    NumberedFirst(f, more, 1);
  }

  lemma StopsHere(s: seq<byte>, a: Scan)
    requires a.payloadBytes + |s| <= MAX_PROTO_PAYLOAD_BYTES && ScanFrom(s, a).Err?
    requires !GoesOn(s, a)
    requires a.fields <= MAX_PROTO_FIELDS && |a.references| <= MAX_MESSAGE_REFERENCES
    ensures Stopped(ScanFrom(s, a).error, s, a.fields, |a.references|, [], 0)
  {
    assert s[0..] == s && s[..0] == [];
    if ReadField(s).Ok? {
      AbsorbFits(a, ReadField(s).value.0);
    }
  }

  lemma PrefixParses(s: seq<byte>, k: nat, m: nat)
    requires ReadField(s).Ok? && ReadField(s).value.1 == k && k + m <= |s| && Parse(s[k..][..m]).Ok?
    ensures Parse(s[..k + m]) == Ok([ReadField(s).value.0] + Parse(s[k..][..m]).value)
  {
    var f := ReadField(s).value.0;
    ReadsExactlySpellings(s, f, k);
    assert s[..k + m][..k] == s[..k];
    ReadsExactlySpellings(s[..k + m], f, k);
    assert s[..k + m][k..] == s[k..][..m];
  }

  /** `_scan_root`. */
  function ScanRootOf(data: seq<byte>): Result<Scan, ProtoError> {
    if |data| > MAX_ROOT_BLOB_BYTES then Err(RootTooLarge) else ScanFrom(data, Start)
  }

  /** Scanning inverts encoding: a well-formed field list within the limits is read back as its
      references in order and its last field 4 and 9, unknown fields ignored; any other is refused. */
  lemma ScanInvertsEncoding(fs: seq<Field>)
    requires forall i | 0 <= i < |fs| :: WellFormed(fs[i])
    ensures var r := ScanRootOf(EncodeFields(fs));
            && (r.Ok? <==> |EncodeFields(fs)| <= MAX_ROOT_BLOB_BYTES && Fits(fs, 0, 0))
            && (r.Ok? ==>
                  && r.value.references == Numbered(fs, 1)
                  && r.value.provisional == Last(Numbered(fs, 4), None)
                  && r.value.uri == Last(Numbered(fs, 9), None))
  {
    ParseRoundTrip(fs);
    if |EncodeFields(fs)| <= MAX_ROOT_BLOB_BYTES {
      ScanFromIsParse(EncodeFields(fs), Start);
    }
  }

  /** What the scan finds: reference by reference in order, and the last field 4 and 9, if there is one. */
  lemma ScanFinds(fs: seq<Field>, i: nat)
    requires forall k | 0 <= k < |fs| :: WellFormed(fs[k])
    requires ScanRootOf(EncodeFields(fs)).Ok? && i < |fs| && fs[i].Delimited?
    ensures var r := ScanRootOf(EncodeFields(fs)).value;
            var before := |Numbered(fs[..i], 1)|;
            && (fs[i].number == 1 ==> before < |r.references| && r.references[before] == fs[i].payload)
            && (fs[i].number == 4 && NoneFrom(fs, i + 1, 4) ==> r.provisional == Some(fs[i].payload))
            && (fs[i].number == 9 && NoneFrom(fs, i + 1, 9) ==> r.uri == Some(fs[i].payload))
  {
    ScanInvertsEncoding(fs);
    NumberedAt(fs, i);
  }

  lemma NumberedAt(fs: seq<Field>, i: nat)
    requires i < |fs| && fs[i].Delimited?
    ensures var number := fs[i].number;
            var before, all := |Numbered(fs[..i], number)|, Numbered(fs, number);
            && before < |all| && all[before] == fs[i].payload
            && (NoneFrom(fs, i + 1, number) ==> |all| == before + 1)
  {
    var number, rest := fs[i].number, fs[i + 1..];
    assert fs == fs[..i] + ([fs[i]] + rest);
    NumberedAppend(fs[..i], [fs[i]] + rest, number);
    assert ([fs[i]] + rest)[1..] == rest;
    if NoneFrom(fs, i + 1, number) {
      NumberedNone(rest, number);
    }
  }

  /** And nothing else: as many references as fields 1, and no field 4 or 9 where there is none. */
  lemma ScanInvents(fs: seq<Field>)
    requires forall k | 0 <= k < |fs| :: WellFormed(fs[k])
    requires ScanRootOf(EncodeFields(fs)).Ok?
    ensures var r := ScanRootOf(EncodeFields(fs)).value;
            && |r.references| == |Places(fs, 1)|
            && (NoneFrom(fs, 0, 4) ==> r.provisional == None) && (NoneFrom(fs, 0, 9) ==> r.uri == None)
  {
    ScanInvertsEncoding(fs);
    NumberedCount(fs, 1);
    assert fs[0..] == fs;
    if NoneFrom(fs, 0, 4) { NumberedNone(fs, 4); }
    if NoneFrom(fs, 0, 9) { NumberedNone(fs, 9); }
  }

  predicate NoneFrom(fs: seq<Field>, from: nat, number: nat) {
    forall k | from <= k < |fs| :: !(fs[k].Delimited? && fs[k].number == number)
  }

  lemma {:induction false} NumberedNone(fs: seq<Field>, number: nat)
    requires NoneFrom(fs, 0, number)
    ensures Numbered(fs, number) == []
  {
    if fs != [] {
      NumberedNone(fs[1..], number);
    }
  }

  /** Where the fields with this number stand. */
  function Places(fs: seq<Field>, number: nat): set<nat> {
    set k: nat | k < |fs| && fs[k].Delimited? && fs[k].number == number
  }

  lemma {:induction false} NumberedCount(fs: seq<Field>, number: nat)
    ensures |Numbered(fs, number)| == |Places(fs, number)|
  {
    if fs != [] {
      var init, last := fs[..|fs| - 1], fs[|fs| - 1];
      assert fs == init + [last] && [last][1..] == [];
      NumberedAppend(init, [last], number);
      NumberedCount(init, number);
      PlacesSnoc(init, last, number);
    }
  }

  lemma PlacesSnoc(fs: seq<Field>, f: Field, number: nat)
    ensures |Places(fs + [f], number)| ==
              |Places(fs, number)| + if f.Delimited? && f.number == number then 1 else 0
  {
    var here: set<nat> := if f.Delimited? && f.number == number then {|fs|} else {};
    assert Places(fs + [f], number) == Places(fs, number) + here;
  }

  lemma {:induction false} NumberedAppend(a: seq<Field>, b: seq<Field>, n: nat)
    ensures Numbered(a + b, n) == Numbered(a, n) + Numbered(b, n)
  {
    if a == [] {
      assert a + b == b;
    } else {
      assert (a + b)[1..] == a[1..] + b;
      NumberedAppend(a[1..], b, n);
    }
  }

  /** Scanning two glued messages merges their scans, whenever the joint counts stay within the limits. */
  lemma ScanMerges(a: seq<byte>, b: seq<byte>)
    requires ScanRootOf(a).Ok? && ScanRootOf(b).Ok?
    ensures var x, y, r := ScanRootOf(a).value, ScanRootOf(b).value, ScanRootOf(a + b);
            && (r.Ok? <==> |a| + |b| <= MAX_ROOT_BLOB_BYTES && x.fields + y.fields <= MAX_PROTO_FIELDS
                           && |x.references| + |y.references| <= MAX_MESSAGE_REFERENCES)
            && (r.Ok? ==>
                  && r.value.references == x.references + y.references
                  && r.value.provisional == (if y.provisional.Some? then y.provisional else x.provisional)
                  && r.value.uri == (if y.uri.Some? then y.uri else x.uri))
  {
    ScanFromIsParse(a, Start);
    ScanFromIsParse(b, Start);
    ParseConcat(a, b);
    FitsAppend(Parse(a).value, Parse(b).value);
    if |a| + |b| <= MAX_ROOT_BLOB_BYTES {
      ScanFromIsParse(a + b, Start);
      if ScanRootOf(a + b).Ok? {
        GathersAppend(Parse(a).value, Parse(b).value, ScanRootOf(a).value, ScanRootOf(b).value,
          ScanRootOf(a + b).value);
      }
    }
  }

  lemma FitsAppend(f: seq<Field>, g: seq<Field>)
    requires Fits(f, 0, 0) && Fits(g, 0, 0)
    ensures Fits(f + g, 0, 0) <==>
              |f| + |g| <= MAX_PROTO_FIELDS && |Numbered(f, 1)| + |Numbered(g, 1)| <= MAX_MESSAGE_REFERENCES
  {
    NumberedAppend(f, g, 1);
  }

  lemma GathersAppend(f: seq<Field>, g: seq<Field>, x: Scan, y: Scan, z: Scan)
    requires Gathers(Start, f, x) && Gathers(Start, g, y) && Gathers(Start, f + g, z)
    ensures z.references == x.references + y.references
    ensures z.provisional == if y.provisional.Some? then y.provisional else x.provisional
    ensures z.uri == if y.uri.Some? then y.uri else x.uri
  {
    NumberedAppend(f, g, 1);
    NumberedAppend(f, g, 4);
    NumberedAppend(f, g, 9);
    LastOfBoth(Numbered(f, 4), Numbered(g, 4));
    LastOfBoth(Numbered(f, 9), Numbered(g, 9));
    assert [] + Numbered(f, 1) == Numbered(f, 1) && [] + Numbered(g, 1) == Numbered(g, 1);
  }

  lemma LastOfBoth(a: seq<seq<byte>>, b: seq<seq<byte>>)
    ensures Last(a + b, None) == if Last(b, None).Some? then Last(b, None) else Last(a, None)
  {
    if b == [] {
      assert a + b == a;
    }
  }

  // ---------- the source's loops ----------

  /** Reading seven more bits: a value is its low bits plus the scaled rest. */
  lemma ScaleStep(scale: nat, low: nat, rest: nat)
    ensures Times(low + 128 * rest, scale) == Times(low, scale) + Times(rest, scale * 128)
  {
    TimesIsProduct(low + 128 * rest, scale);
    TimesIsProduct(low, scale);
    TimesIsProduct(rest, scale * 128);
    assert (low + 128 * rest) * scale == low * scale + rest * (scale * 128);
  }

  /** What the loop of `ReadVarint` will return once the bytes before `position` gave `value`. */
  ghost function Completed(value: nat, scale: nat, position: nat, rest: Result<(nat, nat), ProtoError>): Result<(nat,
                           nat), ProtoError> {
    if rest.Err? then rest else Ok((value + Times(rest.value.0, scale), position + rest.value.1))
  }

  lemma CompletedStep(value: nat, scale: nat, position: nat, s: seq<byte>, index: nat)
    requires index <= 9 && s != [] && !(index == 9 && s[0] > 1)
    ensures s[0] < 128 ==>
              Completed(value, scale, position, Varint(s, index)) == Ok((value + Times(s[0], scale), position + 1))
    ensures s[0] >= 128 ==>
              Completed(value, scale, position, Varint(s, index)) ==
              Completed(value + Times(s[0] - 128, scale), scale * 128, position + 1, Varint(s[1..], index + 1))
  {
    if s[0] >= 128 {
      var rest := Varint(s[1..], index + 1);
      if rest.Ok? {
        ScaleStep(scale, s[0] - 128, rest.value.0);
      }
    }
  }

  /** What was read so far lies below the next seven bits. */
  lemma BitsDoNotOverlap(value: nat, scale: nat, bits: nat)
    requires value < scale && bits < 128
    ensures value + Times(bits, scale) < scale * 128
  {
    var most: nat := 128;
    TimesGrows(bits, most - 1, scale);
    TimesIsProduct(most, scale);
  }

  /** For such values the source's bitwise or is a sum. */
  lemma OrIsSum(value: bv64, bits: bv64, index: nat)
    requires index <= 9 && bits < 128 && (index == 9 ==> bits < 2)
    requires value < (1 as bv64) << (7 * index)
    ensures value | (bits << (7 * index)) == value + (bits << (7 * index))
  {
  }

  /** `_read_varint`; the bits of `value |= (byte & 0x7F) << (7 * index)` never overlap, so they are added,
      scaled by 128 to the power `index`.  The result is never "too long". */
  method ReadVarint(data: seq<byte>, start: nat) returns (r: Result<(nat, nat), ProtoError>)
    requires start <= |data|
    ensures var v := Varint(data[start..]);
            if v.Err? then r == Err(v.error) else r == Ok((v.value.0, start + v.value.1))
    ensures r != Err(VarintTooLong)
  {
    var value: nat, scale: nat, position := 0, 1, start;
    var index := 0;
    ghost var v := Varint(data[start..]);
    if v.Ok? {
      TimesIsProduct(v.value.0, 1);
    }
    while index < 10
      invariant index <= 9 && start <= position <= |data| && value < scale
      invariant Completed(0, 1, start, v) == Completed(value, scale, position, Varint(data[position..], index))
    {
      if position >= |data| {
        return Err(TruncatedVarint);
      }
      var b := data[position];
      ghost var rest := data[position..];
      assert rest[1..] == data[position + 1..];
      position := position + 1;
      if index == 9 && b > 1 {
        return Err(VarintOverflow);
      }
      CompletedStep(value, scale, position - 1, rest, index);
      if b < 128 {
        return Ok((value + Times(b, scale), position));
      }
      BitsDoNotOverlap(value, scale, b - 128);
      value := value + Times(b - 128, scale);
      scale := scale * 128;
      index := index + 1;
    }
    assert false;
  }

  /** `_scan_root`: one loop over a position, with every check where the source makes it. */
  method ScanRoot(data: seq<byte>) returns (r: Result<Scan, ProtoError>)
    ensures r == ScanRootOf(data)
    ensures r.Ok? ==> Parse(data).Ok? && Fits(Parse(data).value, 0, 0) && Gathers(Start, Parse(data).value, r.value)
  {
    if |data| > MAX_ROOT_BLOB_BYTES {
      return Err(RootTooLarge);
    }
    ScanFromIsParse(data, Start);
    var position, a := 0, Start;
    while position < |data|
      invariant position <= |data|
      invariant ScanFrom(data, Start) == ScanFrom(data[position..], a)
      decreases |data| - position
    {
      ghost var s := data[position..];
      if a.fields + 1 > MAX_PROTO_FIELDS {
        return Err(TooManyFields);
      }
      var field := NextField(data, position);
      if field.Err? {
        return Err(field.error);
      }
      var next := Absorb(a, field.value.0);
      if next.Err? {
        return Err(next.error);
      }
      assert s[field.value.1 - position..] == data[field.value.1..];
      position, a := field.value.1, next.value;
    }
    r := Ok(a);
  }

  /** The part of one iteration that reads a field: its key, the checks on it, and its body. */
  method NextField(data: seq<byte>, start: nat) returns (r: Result<(Field, nat), ProtoError>)
    requires start < |data|
    ensures var f := ReadField(data[start..]);
            if f.Err? then r == Err(f.error) else r == Ok((f.value.0, start + f.value.1))
  {
    var key := ReadVarint(data, start);
    if key.Err? {
      return Err(key.error);
    }
    var number, wire, position := key.value.0 / 8, key.value.0 % 8, key.value.1;
    ghost var s := data[start..];
    assert s[position - start..] == data[position..];
    if number <= 0 || number > MAX_FIELD_NUMBER {
      return Err(BadFieldNumber);
    }
    if number in {1, 4, 9} && wire != 2 {
      return Err(WrongWireType);
    }
    r := NextBody(number, wire, data, position);
  }

  method NextBody(number: nat, wire: nat, data: seq<byte>, position: nat) returns (r: Result<(Field, nat), ProtoError>)
    requires position <= |data|
    ensures var f := ReadBody(number, wire, data[position..]);
            if f.Err? then r == Err(f.error) else r == Ok((f.value.0, position + f.value.1))
  {
    if wire == 0 {
      var v := ReadVarint(data, position);
      if v.Err? { return Err(v.error); }
      return Ok((VarintField(number, v.value.0), v.value.1));
    }
    if wire == 1 {
      if |data| - position < 8 { return Err(TruncatedFixed64); }
      return Ok((Fixed64(number, data[position..][..8]), position + 8));
    }
    if wire == 5 {
      if |data| - position < 4 { return Err(TruncatedFixed32); }
      return Ok((Fixed32(number, data[position..][..4]), position + 4));
    }
    if wire != 2 {
      return Err(UnsupportedWireType);
    }
    r := NextPayload(number, data, position);
  }

  method NextPayload(number: nat, data: seq<byte>, position: nat) returns (r: Result<(Field, nat), ProtoError>)
    requires position <= |data|
    ensures var f := ReadBody(number, 2, data[position..]);
            if f.Err? then r == Err(f.error) else r == Ok((f.value.0, position + f.value.1))
  {
    var length := ReadVarint(data, position);
    if length.Err? { return Err(length.error); }
    var size, at := length.value.0, length.value.1;
    if size > |data| - at { return Err(LengthExceedsPayload); }
    assert data[position..][at - position..at - position + size] == data[at..at + size];
    r := Ok((Delimited(number, data[at..at + size]), at + size));
  }
}
