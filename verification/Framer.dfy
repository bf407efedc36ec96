/**
  The newline framer of the client (sidecar/client.py): `_read_cancelable_response` and the loop of
  `_subscribe_cancelable` that calls it.  The frames of a byte stream are defined on the stream
  alone; the methods are proved to find them whatever the network does.
*/
module Framer {
  import opened Common

  const CHUNK_BYTES: nat := 64 * 1024

  /** How a subscription ends. */
  datatype End = TooLarge | BadFrame | ConnectionClosed | ReadFailed | Cancelled

  /** What one `recv` does: give up to `n` bytes, time out, fail, or find the subscription cancelled. */
  datatype Receive = Data(n: nat) | Timeout | Failure | Cancel

  /** The index of the first newline, or the length. */
  function FirstNewline(s: seq<byte>): (n: nat)
    ensures n <= |s| && (n < |s| ==> s[n] == NEWLINE) && forall i | 0 <= i < n :: s[i] != NEWLINE
  {
    if s == [] || s[0] == NEWLINE then 0 else 1 + FirstNewline(s[1..])
  }

  /** The first frame of a complete stream: up to and with its newline, or all of it. */
  function FirstFrame(s: seq<byte>): (f: seq<byte>)
    ensures f <= s && (s != [] ==> f != [])
  {
    var n := FirstNewline(s);
    if n < |s| then s[..n + 1] else s
  }

  /** The frames of a complete stream and how it ends, without any reference to reads. */
  function Frames(s: seq<byte>, limit: nat, decodes: seq<byte> -> bool): (r: (seq<seq<byte>>, End))
    decreases |s|
  {
    if s == [] then ([], ConnectionClosed)
    else
      var f := FirstFrame(s);
      if |f| > limit then ([], TooLarge)
      else if !decodes(f) then ([], BadFrame)
      else
        var rest := Frames(s[|f|..], limit, decodes);
        ([f] + rest.0, rest.1)
  }

  ghost predicate Covers(fs: seq<seq<byte>>, end: End, s: seq<byte>, limit: nat, decodes: seq<byte> -> bool) {
    && AreFrames(fs, end, limit, decodes)
    && Join(fs) <= s && StopsAt(end, s[|Join(fs)|..], limit, decodes)
  }

  /** Decodable frames within the limit; only the last one of a closed stream may lack its newline. */
  ghost predicate AreFrames(fs: seq<seq<byte>>, end: End, limit: nat, decodes: seq<byte> -> bool) {
    && (forall i | 0 <= i < |fs| :: IsFrame(fs[i]) && |fs[i]| <= limit && decodes(fs[i]))
    && (forall i | 0 <= i < |fs| && !EndsLine(fs[i]) :: i == |fs| - 1 && end == ConnectionClosed)
  }

  /** What is left of the stream is the reason for the end. */
  ghost predicate StopsAt(end: End, rest: seq<byte>, limit: nat, decodes: seq<byte> -> bool) {
    var next := FirstFrame(rest);
    match end
    case ConnectionClosed => rest == []
    case TooLarge => |next| > limit
    case BadFrame => 0 < |next| <= limit && !decodes(next)
    case _ => false
  }

  /** Some bytes without a newline before the last one. */
  predicate IsFrame(f: seq<byte>) {
    f != [] && forall j | 0 <= j < |f| - 1 :: f[j] != NEWLINE
  }

  predicate EndsLine(f: seq<byte>) {
    f != [] && f[|f| - 1] == NEWLINE
  }

  lemma OneFrameMore(f: seq<byte>, fs: seq<seq<byte>>, end: End, limit: nat, decodes: seq<byte> -> bool)
    requires IsFrame(f) && |f| <= limit && decodes(f) && AreFrames(fs, end, limit, decodes)
    requires EndsLine(f) || (fs == [] && end == ConnectionClosed)
    ensures AreFrames([f] + fs, end, limit, decodes)
  {
    assert forall i | 0 < i < |[f] + fs| :: ([f] + fs)[i] == fs[i - 1];
  }

  lemma NothingLeft(fs: seq<seq<byte>>, end: End, limit: nat, decodes: seq<byte> -> bool)
    requires Covers(fs, end, [], limit, decodes)
    ensures fs == [] && end == ConnectionClosed
  {
  }

  lemma JoinFirst(f: seq<byte>, fs: seq<seq<byte>>, s: seq<byte>)
    requires f <= s && Join(fs) <= s[|f|..]
    ensures Join([f] + fs) <= s && s[|Join([f] + fs)|..] == s[|f|..][|Join(fs)|..]
  {
    var all := [f] + fs;
    assert all[1..] == fs && Join(all) == f + Join(fs);
    Continued(f, Join(fs), s);
  }

  lemma Continued(f: seq<byte>, g: seq<byte>, s: seq<byte>)
    requires f <= s && g <= s[|f|..]
    ensures f + g <= s && s[|f + g|..] == s[|f|..][|g|..]
  {
    assert s == f + s[|f|..];
  }

  lemma CoversMore(f: seq<byte>, fs: seq<seq<byte>>, end: End, s: seq<byte>, limit: nat, decodes: seq<byte> -> bool)
    requires IsFrame(f) && |f| <= limit && decodes(f) && f <= s && (EndsLine(f) || f == s)
    requires Covers(fs, end, s[|f|..], limit, decodes)
    ensures Covers([f] + fs, end, s, limit, decodes)
  {
    if f == s {
      assert s[|f|..] == [];
      NothingLeft(fs, end, limit, decodes);
    }
    OneFrameMore(f, fs, end, limit, decodes);
    JoinFirst(f, fs, s);
  }

  /** Nothing is lost or invented: the frames of a stream that ends cleanly, glued together, are the stream,
      and an oversize error stands exactly where the next frame is too long. */
  lemma {:induction false} FramesCoverStream(s: seq<byte>, limit: nat, decodes: seq<byte> -> bool)
    ensures Covers(Frames(s, limit, decodes).0, Frames(s, limit, decodes).1, s, limit, decodes)
    decreases |s|
  {
    if s != [] {
      var f := FirstFrame(s);
      if |f| <= limit && decodes(f) {
        FramesCoverStream(s[|f|..], limit, decodes);
        var rest := Frames(s[|f|..], limit, decodes);
        CoversMore(f, rest.0, rest.1, s, limit, decodes);
      } else {
        assert s[0..] == s;
      }
    }
  }

  /** A buffered beginning of the stream decides the first frame as soon as it holds a newline or is too long. */
  lemma BufferDecides(buffer: seq<byte>, s: seq<byte>, limit: nat)
    requires buffer <= s
    ensures FirstNewline(buffer) < |buffer| ==> FirstFrame(s) == buffer[..FirstNewline(buffer) + 1]
    ensures FirstNewline(buffer) == |buffer| > limit ==> |FirstFrame(s)| > limit
  {
    assert forall i | 0 <= i < |buffer| :: buffer[i] == s[i];
    var n := FirstNewline(s);
    if FirstNewline(buffer) < |buffer| {
      assert n == FirstNewline(buffer);
      assert s[..n + 1] == buffer[..n + 1];
    }
  }

  /** `frames` followed by the frames of `s` is the whole. */
  ghost predicate Extends(frames: seq<seq<byte>>, whole: (seq<seq<byte>>, End), s: seq<byte>, limit: nat,
                          accepts: seq<byte> -> bool) {
    whole == (frames + Frames(s, limit, accepts).0, Frames(s, limit, accepts).1)
  }

  lemma OneMoreFrame(frames: seq<seq<byte>>, whole: (seq<seq<byte>>, End), s: seq<byte>, limit: nat,
                     accepts: seq<byte> -> bool,
                     f: seq<byte>, rest: seq<byte>)
    requires s != [] && Extends(frames, whole, s, limit, accepts)
    requires f == FirstFrame(s) && |f| <= limit && accepts(f) && rest == s[|f|..]
    ensures Extends(frames + [f], whole, rest, limit, accepts)
  {
    FramesFirst(s, limit, accepts, f, rest);
    Moved(frames, f, Frames(rest, limit, accepts).0);
  }

  lemma FramesFirst(s: seq<byte>, limit: nat, accepts: seq<byte> -> bool, f: seq<byte>, rest: seq<byte>)
    requires s != [] && f == FirstFrame(s) && |f| <= limit && accepts(f) && rest == s[|f|..]
    ensures Frames(s, limit, accepts) == ([f] + Frames(rest, limit, accepts).0, Frames(rest, limit, accepts).1)
  {
  }

  lemma Moved(frames: seq<seq<byte>>, f: seq<byte>, tail: seq<seq<byte>>)
    ensures frames + ([f] + tail) == frames + [f] + tail
  {
  }

  /** A subscription that was not cut off has handed out the whole; one that was, an initial part of it. */
  ghost predicate Ends(frames: seq<seq<byte>>, end: End, whole: (seq<seq<byte>>, End)) {
    if end in {Cancelled, ReadFailed} then frames <= whole.0 else (frames, end) == whole
  }

  lemma LastFrame(frames: seq<seq<byte>>, whole: (seq<seq<byte>>, End), s: seq<byte>, limit: nat,
                  accepts: seq<byte> -> bool, end: End)
    requires Extends(frames, whole, s, limit, accepts)
    ensures frames <= whole.0
    ensures Frames(s, limit, accepts) == ([], end) ==> (frames, end) == whole
  {
    assert frames + [] == frames;
  }

  /** How many reads of a script bring something, if there is anything. */
  function DataReads(script: seq<Receive>): nat {
    if script == [] then 0 else (if script[0].Data? then 1 else 0) + DataReads(script[1..])
  }

  /** Data and timeouts only, and a read for every byte that is `missing`, one to find the end of the stream, and
      one more to find it again behind a last frame without a newline. */
  ghost predicate Suffices(script: seq<Receive>, missing: nat, unread: bool) {
    && (forall k | 0 <= k < |script| :: script[k].Data? || script[k].Timeout?)
    && DataReads(script) >= missing + if unread then 2 else 1
  }

  lemma OneReadLess(script: seq<Receive>, missing: nat, unread: bool)
    requires Suffices(script, missing, unread)
    ensures script != [] && (script[0].Data? || script[0].Timeout?)
    ensures script[0].Timeout? ==> Suffices(script[1..], missing, unread)
    ensures script[0].Data? && missing > 0 ==> Suffices(script[1..], missing - 1, unread)
    ensures script[0].Data? && unread ==> missing == 0 ==> Suffices(script[1..], 0, false)
  {
    assert script == [script[0]] + script[1..];
  }

  lemma NextRead(script: seq<Receive>, step: nat, missing: nat, unread: bool)
    requires step < |script|
    ensures Suffices(script[step..], missing, unread) ==>
              var r := script[step];
              && (r.Data? || r.Timeout?)
              && (r.Timeout? ==> Suffices(script[step + 1..], missing, unread))
              && (r.Data? && missing > 0 ==> Suffices(script[step + 1..], missing - 1, unread))
              && (r.Data? && unread && missing == 0 ==> Suffices(script[step + 1..], 0, false))
  {
    if Suffices(script[step..], missing, unread) {
      OneReadLess(script[step..], missing, unread);
      assert script[step..][1..] == script[step + 1..];
    }
  }

  class FrameReader {
    const limit: nat
    const accepts: seq<byte> -> bool
    /** Everything the peer sends before it closes, how much of it was received, and how much was handed out. */
    const stream: seq<byte>
    var received: nat
    ghost var handedOut: nat
    var pending: seq<byte>
    /** What the network and the canceller do, in order; when it runs out the subscription is cancelled. */
    const script: seq<Receive>
    var step: nat

    /** The buffer is the part of the stream in between, and never longer than the limit plus one. */
    ghost predicate Valid()
      reads this
    {
      && handedOut <= received <= |stream| && step <= |script|
      && pending == stream[handedOut..received] && |pending| <= limit + 1
    }

    constructor (limit: nat, accepts: seq<byte> -> bool, stream: seq<byte>, script: seq<Receive>)
      ensures Valid() && this.limit == limit && this.accepts == accepts && this.stream == stream && handedOut == 0
    {
      this.limit, this.accepts, this.stream, this.script := limit, accepts, stream, script;
      received, handedOut, pending, step := 0, 0, [], 0;
    }

    /** `recv(ask)`: at least one byte while there are any, at most `ask`; empty at the end of the stream. */
    method Recv(ask: nat, n: nat) returns (chunk: seq<byte>)
      requires Valid() && 1 <= ask <= limit + 1 - |pending|
      modifies this`received, this`pending
      ensures Valid() && |chunk| <= ask && pending == old(pending) + chunk && received == old(received) + |chunk|
      ensures chunk == [] <==> old(received) == |stream|
    {
      var size := Min(Max(1, n), Min(ask, |stream| - received));
      chunk := stream[received..received + size];
      assert stream[handedOut..received] + chunk == stream[handedOut..received + size];
      received := received + size;
      pending := pending + chunk;
    }

    /** A subscription is cut off only by the canceller, by the end of the script, or by a failing read. */
    ghost predicate CutOff(end: End)
      reads this
    {
      match end
      case Cancelled => step == |script| || (0 < step < |script| && script[step - 1].Cancel?)
      case ReadFailed => 0 < step <= |script| && script[step - 1].Failure?
      case _ => true
    }

    /** Nobody cancels, no read fails, and enough reads are left to reach the end of the stream. */
    ghost predicate Supplied()
      reads this
    {
      step <= |script| && received <= |stream| && Suffices(script[step..], |stream| - received, handedOut < |stream|)
    }

    /** A returned frame is the first one of what was left of the stream at `from`; an error is true of that one. */
    ghost predicate Answers(r: Result<seq<byte>, End>, from: nat)
      requires from <= |stream|
      reads this
    {
      if r.Ok? then
        && Valid() && from < |stream|
        && r.value == FirstFrame(stream[from..]) && |r.value| <= limit && accepts(r.value)
        && handedOut == from + |r.value|
      else
        && CutOff(r.error)
        && (r.error !in {Cancelled, ReadFailed} ==> Frames(stream[from..], limit, accepts) == ([], r.error))
    }

    /** `_read_cancelable_response`. */
    method ReadResponse() returns (r: Result<seq<byte>, End>)
      requires Valid()
      modifies this`received, this`pending, this`handedOut, this`step
      ensures Answers(r, old(handedOut))
      ensures old(Supplied()) ==> if r.Ok? then Supplied() else r.error !in {Cancelled, ReadFailed}
    {
      while step < |script|
        invariant Valid() && handedOut == old(handedOut) && (old(Supplied()) ==> Supplied())
        decreases |script| - step
      {
        assert pending <= stream[handedOut..];
        BufferDecides(pending, stream[handedOut..], limit);
        var newline := FirstNewline(pending);
        if newline < |pending| {
          r := HandOut(newline + 1);
          return;
        }
        if |pending| > limit {
          return Err(TooLarge);
        }
        var answer := ReadMore();
        if answer.Some? {
          return answer.value;
        }
      }
      r := Err(Cancelled);
    }

    /** One `recv` and what follows from it; `None` is another turn of the loop. */
    method ReadMore() returns (r: Option<Result<seq<byte>, End>>)
      requires Valid() && step < |script| && FirstNewline(pending) == |pending| <= limit
      modifies this`received, this`pending, this`handedOut, this`step
      ensures r.None? ==> Valid() && handedOut == old(handedOut) && step == old(step) + 1
      ensures r.Some? ==> Answers(r.value, old(handedOut))
      ensures old(Supplied()) ==>
                if r.Some? && r.value.Err? then r.value.error !in {Cancelled, ReadFailed} else Supplied()
    {
      var choice := script[step];
      NextRead(script, step, |stream| - received, handedOut < |stream|);
      step := step + 1;
      if choice.Cancel? {
        return Some(Err(Cancelled));
      }
      if choice.Failure? {
        return Some(Err(ReadFailed));
      }
      if choice.Timeout? {
        return None;
      }
      var chunk := Recv(Min(CHUNK_BYTES, limit + 1 - |pending|), choice.n);
      if chunk != [] {
        return None;
      }
      assert received == |stream| && stream[handedOut..received] == stream[handedOut..];
      if pending == [] {
        return Some(Err(ConnectionClosed));
      }
      var last := HandOut(|pending|);
      r := Some(last);
    }

    /** Takes the first `size` bytes of the buffer as a frame. */
    method HandOut(size: nat) returns (r: Result<seq<byte>, End>)
      requires Valid() && 0 < size <= |pending| && pending[..size] == FirstFrame(stream[handedOut..])
      modifies this`pending, this`handedOut
      ensures Valid() && handedOut == old(handedOut) + size && received == old(received)
      ensures r.Ok? ==> r.value == old(pending)[..size] && |r.value| <= limit && accepts(r.value)
      ensures r.Err? ==>
                r.error in {TooLarge, BadFrame} && Frames(stream[old(handedOut)..], limit, accepts) == ([], r.error)
    {
      var raw := pending[..size];
      pending := pending[size..];
      handedOut := handedOut + size;
      if size > limit {
        return Err(TooLarge);
      }
      if !accepts(raw) {
        return Err(BadFrame);
      }
      r := Ok(raw);
    }

    /** One turn of the loop: the next frame joins the ones handed out, or the subscription is over. */
    method NextFrame(frames: seq<seq<byte>>, ghost whole: (seq<seq<byte>>, End)) returns (r: Result<seq<byte>, End>)
      requires Valid() && Extends(frames, whole, stream[handedOut..], limit, accepts)
      modifies this`received, this`pending, this`handedOut, this`step
      ensures r.Ok? ==>
                && Valid() && old(handedOut) < handedOut
                && Extends(frames + [r.value], whole, stream[handedOut..], limit, accepts)
      ensures r.Err? ==> Ends(frames, r.error, whole) && CutOff(r.error)
      ensures old(Supplied()) ==> if r.Ok? then Supplied() else r.error !in {Cancelled, ReadFailed}
    {
      ghost var at := handedOut;
      r := ReadResponse();
      if r.Err? {
        LastFrame(frames, whole, stream[at..], limit, accepts, r.error);
      } else {
        assert stream[at..][|r.value|..] == stream[handedOut..];
        OneMoreFrame(frames, whole, stream[at..], limit, accepts, r.value, stream[handedOut..]);
      }
    }

    /**
      The loop of `_subscribe_cancelable`.  However the stream was cut by the reads, and with any timeouts in
      between, the frames and the way it ends are those of the stream itself; a cancelled or broken
      subscription has handed out an initial part of them.  With enough reads and nobody interfering it gets to the end.
    */
    method Subscribe() returns (frames: seq<seq<byte>>, end: End)
      requires Valid()
      modifies this`received, this`pending, this`handedOut, this`step
      ensures Ends(frames, end, Frames(stream[old(handedOut)..], limit, accepts)) && CutOff(end)
      ensures old(Supplied()) ==> (frames, end) == Frames(stream[old(handedOut)..], limit, accepts)
    {
      frames := [];
      ghost var whole := Frames(stream[handedOut..], limit, accepts);
      assert [] + whole.0 == whole.0;
      while true
        invariant Valid() && Extends(frames, whole, stream[handedOut..], limit, accepts)
                  && (old(Supplied()) ==> Supplied())
        decreases |stream| - handedOut
      {
        var r := NextFrame(frames, whole);
        if r.Err? {
          return frames, r.error;
        }
        frames := frames + [r.value];
      }
    }
  }
}
