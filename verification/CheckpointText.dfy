/**
  The JSON text of a checkpoint (sidecar/cursor_chat.py), as `json.dumps` writes it: compact when it is exported, with a
  space after every comma and colon when it is restored.  Its two lengths are the two sizes that the follower compares
  with its limit.
*/
module CheckpointText {
  import opened Common
  import opened Follower

  const HexDigits: string := "0123456789abcdef"

  /** Sixteen bits as four hexadecimal digits. */
  function Hex4(n: nat): (s: string)
    requires n < 0x1_0000
    ensures |s| == 4
  {
    [HexDigits[n / 0x1000], HexDigits[n / 0x100 % 16], HexDigits[n / 16 % 16], HexDigits[n % 16]]
  }

  function HexBytes(b: seq<byte>): (s: string)
    ensures |s| == 2 * |b|
  {
    if b == [] then "" else [HexDigits[b[0] / 16], HexDigits[b[0] % 16]] + HexBytes(b[1..])
  }

  /** A character inside a JSON string: the short escapes, printable ASCII as it is, and UTF-16 code units for the
      rest (section 7 of RFC 8259). */
  function Escaped(c: char): string {
    var code := c as int;
    if c == '\"' || c == '\\' then ['\\', c]
    else if code == 8 then "\\b"
    else if c == '\t' then "\\t"
    else if c == '\n' then "\\n"
    else if code == 12 then "\\f"
    else if c == '\r' then "\\r"
    else if ' ' <= c <= '~' then [c]
    else if code < 0x1_0000 then "\\u" + Hex4(code)
    else
      var high, low := (code - 0x1_0000) / 0x400, (code - 0x1_0000) % 0x400;
      "\\u" + Hex4(0xD800 + high) + "\\u" + Hex4(0xDC00 + low)
  }

  function EscapedAll(s: string): string {
    if s == "" then "" else Escaped(s[0]) + EscapedAll(s[1..])
  }

  function Quoted(s: string): string {
    "\"" + EscapedAll(s) + "\""
  }

  function Numeral(n: int): string {
    if n < 0 then "-" + Decimal(-n) else Decimal(n)
  }

  function Decimal(n: nat): string {
    if n < 10 then [HexDigits[n]] else Decimal(n / 10) + [HexDigits[n % 10]]
  }

  /** A hash as text, or `null`. */
  function Hash(b: Option<Id>): string {
    if b.None? then "null" else "\"" + HexBytes(b.value) + "\""
  }

  function WhatFor(k: Checkpoint): seq<(string, string)> {
    [("version", Numeral(k.version)), ("kind", Quoted(k.kind)), ("path", Quoted(k.path))]
  }

  function Place(k: Checkpoint, prefix: Id): seq<(string, string)> {
    [("root_blob_id", Hash(k.root)), ("message_count", Numeral(k.count)), ("prefix_hash", Hash(Some(prefix)))]
  }

  function Rest(k: Checkpoint, provisional: Option<Id>): seq<(string, string)> {
    [("provisional_hash", Hash(provisional)), ("initialized", if k.initialized then "true" else "false"),
     ("historical_count", Numeral(k.historical))]
  }

  /** The members of a checkpoint in the order of the source; `raw` gives the bytes of a digest. */
  function Members(k: Checkpoint, raw: Digest -> Id): (ms: seq<(string, string)>)
    ensures |ms| == 9
  {
    var provisional := if k.provisionalHash.None? then None else Some(raw(k.provisionalHash.value));
    WhatFor(k) + (Place(k, raw(k.prefixHash)) + Rest(k, provisional))
  }

  function Pairs(ms: seq<(string, string)>, comma: string, colon: string): string {
    if ms == [] then ""
    else
      "\"" + ms[0].0 + "\"" + colon + ms[0].1 + (if |ms| == 1 then "" else comma) + Pairs(ms[1..], comma, colon)
  }

  /** The text with these separators. */
  function Text(k: Checkpoint, raw: Digest -> Id, comma: string, colon: string): string {
    "{" + Pairs(Members(k, raw), comma, colon) + "}"
  }

  lemma EscapedBytes(c: char)
    ensures |Escaped(c)| == CharacterBytes(c)
  {
  }

  lemma {:induction false} QuotedBytes(s: string)
    ensures |EscapedAll(s)| == CharactersBytes(s) && |Quoted(s)| == TextBytes(s)
  {
    if s != "" {
      EscapedBytes(s[0]);
      QuotedBytes(s[1..]);
    }
  }

  lemma {:induction false} DecimalBytes(n: nat)
    ensures |Decimal(n)| == Digits(n)
  {
    if n >= 10 {
      DecimalBytes(n / 10);
    }
  }

  lemma NumeralBytes(n: int)
    ensures |Numeral(n)| == IntegerBytes(n)
  {
    DecimalBytes(if n < 0 then -n else n);
  }

  /** The bytes of names and values. */
  function Contents(ms: seq<(string, string)>): nat {
    if ms == [] then 0 else |ms[0].0| + |ms[0].1| + Contents(ms[1..])
  }

  lemma {:induction false} PairsBytes(ms: seq<(string, string)>, comma: string, colon: string)
    ensures |Pairs(ms, comma, colon)| + (if ms == [] then 0 else |comma|) ==
              Contents(ms) + Times(|ms|, 2 + |colon| + |comma|)
  {
    if ms != [] {
      PairsBytes(ms[1..], comma, colon);
      var n, each := |ms|, 2 + |colon| + |comma|;
      assert Times(n, each) == each + Times(n - 1, each);
    }
  }

  /** The sizes that `export_checkpoint` and `restore_checkpoint` compare with the limit are those of the two texts. */
  lemma SizesAreOfTexts(k: Checkpoint, raw: Digest -> Id)
    requires k.kind == "cursor_chat"
    ensures |Text(k, raw, ",", ":")| == CompactBytes(k)
    ensures |Text(k, raw, ", ", ": ")| == SpacedBytes(k)
  {
    var ms := Members(k, raw);
    PairsBytes(ms, ",", ":");
    PairsBytes(ms, ", ", ": ");
    TimesIsProduct(|ms|, 4);
    TimesIsProduct(|ms|, 6);
    ContentsBytes(k, raw);
  }

  lemma ContentsBytes(k: Checkpoint, raw: Digest -> Id)
    requires k.kind == "cursor_chat"
    ensures Contents(Members(k, raw)) + 18 + 19 == CompactBytes(k)
  {
    var provisional := if k.provisionalHash.None? then None else Some(raw(k.provisionalHash.value));
    var place, rest := Place(k, raw(k.prefixHash)), Rest(k, provisional);
    ContentsAppend(WhatFor(k), place + rest);
    ContentsAppend(place, rest);
    WhatForBytes(k);
    PlaceBytes(k, raw(k.prefixHash));
    RestBytes(k, provisional);
  }

  lemma WhatForBytes(k: Checkpoint)
    requires k.kind == "cursor_chat"
    ensures Contents(WhatFor(k)) == 15 + IntegerBytes(k.version) + 13 + TextBytes(k.path)
  {
    NumeralBytes(k.version);
    QuotedBytes(k.path);
    QuotedBytes(k.kind);
    KindBytes();
    ContentsOfThree(WhatFor(k));
  }

  lemma PlaceBytes(k: Checkpoint, prefix: Id)
    ensures Contents(Place(k, prefix)) == 36 + (if k.root.None? then 4 else 66) + IntegerBytes(k.count) + 66
  {
    NumeralBytes(k.count);
    ContentsOfThree(Place(k, prefix));
  }

  lemma RestBytes(k: Checkpoint, provisional: Option<Id>)
    ensures Contents(Rest(k, provisional)) ==
              43 + (if provisional.None? then 4 else 66) + (if k.initialized then 4 else 5) + IntegerBytes(k.historical)
  {
    NumeralBytes(k.historical);
    ContentsOfThree(Rest(k, provisional));
  }

  lemma {:induction false} ContentsAppend(a: seq<(string, string)>, b: seq<(string, string)>)
    ensures Contents(a + b) == Contents(a) + Contents(b)
  {
    if a == [] {
      assert a + b == b;
    } else {
      assert (a + b)[1..] == a[1..] + b;
      ContentsAppend(a[1..], b);
    }
  }

  lemma ContentsOfThree(ms: seq<(string, string)>)
    requires |ms| == 3
    ensures Contents(ms) ==
              |ms[0].0| + |ms[0].1| + |ms[1].0| + |ms[1].1| + |ms[2].0| + |ms[2].1|
  {
    var two := ms[1..];
    var one := two[1..];
    assert Contents(one) == |ms[2].0| + |ms[2].1| + Contents(one[1..]) && one[1..] == [];
    assert Contents(two) == |ms[1].0| + |ms[1].1| + Contents(one);
  }

  lemma KindBytes()
    ensures TextBytes("cursor_chat") == 13
  {
  }
}
