/**
  The Kimi ACP driver (sidecar/kimi_acp.py): a JSON-RPC 2.0 client that walks a child process
  through initialize, list, resume, set-mode and exactly one prompt.  The child, the pipe and the
  callbacks are an `Environment` that may answer anything at any point.
*/
module KimiAcp {
  import opened Common

  const ACP_ASSISTANT_BYTES: nat := 4 * 1024 * 1024

  datatype Phase = New | Initialized | Listed | Resumed | ModeSet | PromptWritten | PromptSettled

  datatype Boundary = NoBytes | Part | Complete

  datatype Code =
    | Timeout | ProtocolError | OutputOverflow | Cancelled | SessionBusy | SessionChanged | SessionUnavailable
    | InvalidSession | ContainmentUnsupported | SpawnError | NativeExit | CleanupIncomplete

  /** A `_DriverFailure`, or a process error by the code it is reported under. */
  datatype Failure = Failure(code: Code, busy: bool)

  datatype RpcId = Number(n: int) | Word(s: string)

  datatype IdKey = NoId | BadId | Id(id: RpcId)

  datatype MethodKey = NoMethod | BadMethod | Method(name: string)

  /** The text of an agent message chunk, if the update is one. */
  datatype Chunk = NoText | BadText | Text(bytes: nat)

  /** One parsed line of the child.  `extraKeys` says that it has keys its kind does not allow, `paramsValid`,
      `errorValid` and `resultFault` are the verdicts of the schema checks. */
  datatype Envelope = Envelope(
    versionOk: bool, verb: MethodKey, id: IdKey, hasParams: bool, hasResult: bool, hasError: bool, extraKeys: bool,
    paramsValid: bool, chunk: Chunk, errorValid: bool, errorBusy: bool, resultFault: Option<Code>, stopReason: string)

  /** `Garbage` is a line that is empty, not JSON, or not an object. */
  datatype Read = Line(envelope: Envelope) | Garbage | EndOfOutput | ReadRaised(code: Code)

  datatype Write = Wrote(boundary: Boundary) | WriteRaised(code: Code, reached: Option<Boundary>)

  datatype Observed = Observed(returncode: int, cleanExit: bool, cleanupComplete: bool)

  datatype Environment = Environment(
    spawn: Option<Code>, inputs: seq<Read>, outputs: seq<Write>, callback: Option<Code>, residual: Option<Boundary>,
    wait: Result<Observed, Code>, cleanup: Observed, confirmsNoPrompt: bool)

  datatype Outcome = Outcome(
    phase: Phase, promptWrite: Boundary, stopReason: Option<string>, returncode: Option<int>, cleanExit: bool,
    cleanupComplete: bool, error: Option<Code>, definitiveBusy: bool)

  /** The events that the order of the protocol is about. */
  datatype Milestone = Asked(id: int) | Answered(id: int) | Confirmed | Prompted

  /** A line for the child: a request, the prompt, a reply to one of its own requests. */
  datatype Frame = RequestFrame(id: int) | PromptFrame | ReplyFrame

  function Marks(f: Frame): seq<Milestone> {
    match f
    case RequestFrame(id) => [Asked(id)]
    case PromptFrame => [Prompted]
    case ReplyFrame => []
  }

  /** The only order there is: four answered requests, the callback, one prompt, its answer. */
  const Itinerary: seq<Milestone> := [
    Asked(1), Answered(1), Asked(2), Answered(2), Asked(3), Answered(3), Asked(4), Answered(4), Confirmed, Prompted,
      Answered(5)]

  /** How much of the prompt went out, as far as its write tells. */
  function Reached(attempt: Option<Write>): Boundary {
    match attempt
    case None => NoBytes
    case Some(Wrote(b)) => b
    case Some(WriteRaised(_, reached)) => if reached.Some? then reached.value else NoBytes
  }

  /** How far along the itinerary a phase is. */
  predicate InPhase(phase: Phase, milestones: int) {
    match phase
    case New => milestones <= 2
    case Initialized => 2 <= milestones <= 4
    case Listed => 4 <= milestones <= 6
    case Resumed => 6 <= milestones <= 8
    case ModeSet => 8 <= milestones <= 10
    case PromptWritten => 10 <= milestones <= 11
    case PromptSettled => milestones == 11
  }

  /** How many answers a phase rests on. */
  function Answers(phase: Phase): nat {
    match phase
    case New => 0
    case Initialized => 1
    case Listed => 2
    case Resumed => 3
    case ModeSet => 4
    case PromptWritten => 4
    case PromptSettled => 5
  }

  /** The phase that the result for `id` leads to, with the request behind it. */
  predicate Follows(next: Phase, id: int) {
    InPhase(next, 2 * id) && InPhase(next, 2 * id + 2) && Answers(next) == id && !next.PromptWritten?
  }

  // ---------- what a line of the child is ----------

  /** A notification that the driver accepts. */
  predicate IsUpdate(e: Envelope) {
    && e.versionOk && e.verb == Method("session/update") && e.id.NoId? && e.paramsValid && !e.chunk.BadText?
    && e.hasParams && !e.hasResult && !e.hasError && !e.extraKeys
  }

  /** A request of the child that the driver answers, by refusing the permission. */
  predicate IsPermission(e: Envelope) {
    && e.versionOk && e.verb == Method("session/request_permission") && e.id.Id? && e.paramsValid
    && e.hasParams && !e.hasResult && !e.hasError && !e.extraKeys
  }

  predicate IsResponse(e: Envelope, id: int) {
    && e.versionOk && e.verb.NoMethod? && e.id == Id(Number(id)) && !e.hasParams && !e.extraKeys
    && e.hasResult != e.hasError
  }

  /** A response with a result, whatever the check of that result says. */
  predicate IsAnswer(e: Envelope, id: int) {
    IsResponse(e, id) && e.hasResult
  }

  predicate IsResult(e: Envelope, id: int) {
    IsAnswer(e, id) && e.resultFault.None?
  }

  /** The structured error that says that the session is busy with another turn. */
  predicate IsBusy(e: Envelope) {
    IsResponse(e, 5) && e.hasError && e.errorValid && e.errorBusy
  }

  /** The codes under which a line can end the run; only a reply to a request of the child can fail in other ways. */
  predicate Blames(r: Read, code: Code) {
    match r
    case ReadRaised(c) => code == c
    case Garbage => code == ProtocolError
    case EndOfOutput => code == ProtocolError
    case Line(e) =>
      || (if IsUpdate(e) then code == OutputOverflow else code == ProtocolError)
      || (IsBusy(e) && code == SessionBusy)
      || (e.verb.NoMethod? && e.hasResult && e.resultFault == Some(code))
      || (e.verb.Method? && e.id.Id?)
  }

  // ---------- a child that plays along ----------

  /** The text that a line adds to the response. */
  function Said(r: Read): nat {
    if r.Line? && IsUpdate(r.envelope) && r.envelope.chunk.Text? then r.envelope.chunk.bytes else 0
  }

  function Spoken(inputs: seq<Read>, n: nat): nat
    requires n <= |inputs|
  {
    if n == 0 then 0 else Spoken(inputs, n - 1) + Said(inputs[n - 1])
  }

  lemma {:induction false} SpokenGrows(inputs: seq<Read>, m: nat, n: nat)
    requires m <= n <= |inputs|
    ensures Spoken(inputs, m) <= Spoken(inputs, n) && AskCount(inputs, m) <= AskCount(inputs, n)
  {
    if m < n {
      SpokenGrows(inputs, m, n - 1);
    }
  }

  predicate Asks(r: Read) {
    r.Line? && IsPermission(r.envelope)
  }

  /** How often the child asks for permission in its first `n` lines, and under which ids. */
  function AskCount(inputs: seq<Read>, n: nat): nat
    requires n <= |inputs|
  {
    if n == 0 then 0 else AskCount(inputs, n - 1) + if Asks(inputs[n - 1]) then 1 else 0
  }

  function AskedIds(inputs: seq<Read>, n: nat): set<RpcId>
    requires n <= |inputs|
  {
    if n == 0 then {} else AskedIds(inputs, n - 1) + if Asks(inputs[n - 1]) then {inputs[n - 1].envelope.id.id} else {}
  }

  predicate DistinctAsks(inputs: seq<Read>) {
    forall i, j | 0 <= i < j < |inputs| && Asks(inputs[i]) && Asks(inputs[j]) ::
      inputs[i].envelope.id != inputs[j].envelope.id
  }

  lemma {:induction false} NewAsk(inputs: seq<Read>, n: nat, at: nat)
    requires DistinctAsks(inputs) && n <= at < |inputs| && Asks(inputs[at])
    ensures inputs[at].envelope.id.id !in AskedIds(inputs, n)
  {
    if n > 0 {
      NewAsk(inputs, n - 1, at);
    }
  }

  /** Nothing but session updates and requests for permission. */
  predicate Quiet(inputs: seq<Read>, from: nat, to: nat) {
    && from <= to <= |inputs|
    && forall j | from <= j < to ::
         inputs[j].Line? && (IsUpdate(inputs[j].envelope) || IsPermission(inputs[j].envelope))
  }

  /** The result for `id` stands at `at`, behind updates and requests for permission only. */
  predicate Serves(inputs: seq<Read>, from: nat, id: int, at: nat) {
    Quiet(inputs, from, at) && at < |inputs| && inputs[at].Line? && IsResult(inputs[at].envelope, id)
  }

  /** The output ends at `end`, behind updates and requests for permission only. */
  predicate ClosesAt(inputs: seq<Read>, from: nat, end: nat) {
    Quiet(inputs, from, end) && end < |inputs| && inputs[end] == EndOfOutput
  }

  /** The child says no more than fits and asks under ids of their own, and the pipe takes every frame whole: five
      of the driver's own and a reply for each request. */
  predicate Generous(env: Environment) {
    && Spoken(env.inputs, |env.inputs|) <= ACP_ASSISTANT_BYTES && DistinctAsks(env.inputs)
    && |env.outputs| >= 5 + AskCount(env.inputs, |env.inputs|)
    && forall k | 0 <= k < |env.outputs| :: env.outputs[k] == Wrote(Complete)
  }

  /** Such a child that answers the five requests at `ends` and then closes its output. */
  predicate Smooth(env: Environment, ends: seq<nat>) {
    && env.spawn.None? && env.callback.None? && Generous(env)
    && |ends| == 6 && Serves(env.inputs, 0, 1, ends[0])
    && Serves(env.inputs, ends[0] + 1, 2, ends[1]) && Serves(env.inputs, ends[1] + 1, 3, ends[2])
    && Serves(env.inputs, ends[2] + 1, 4, ends[3]) && Serves(env.inputs, ends[3] + 1, 5, ends[4])
    && ClosesAt(env.inputs, ends[4] + 1, ends[5])
  }

  class AcpDriver {
    const env: Environment
    var nextRead: nat
    var nextWrite: nat
    var pending: set<RpcId>
    var completed: set<RpcId>
    var reverseIds: set<RpcId>
    var responseBytes: nat
    var stopReason: Option<string>
    var phase: Phase
    var promptWrite: Boundary
    /** The milestones passed, and the results accepted for the requests, in order. */
    ghost var trail: seq<Milestone>
    ghost var answers: seq<Envelope>
    /** What the pipe did with the prompt, once it was tried. */
    ghost var attempt: Option<Write>

    ghost predicate OnTrack()
      reads this
    {
      && trail <= Itinerary && InPhase(phase, |trail|)
      && responseBytes <= ACP_ASSISTANT_BYTES
      && (stopReason.Some? <==> phase == PromptSettled)
      && (promptWrite == Complete <==> phase == PromptWritten || phase == PromptSettled)
      && (|trail| > 8 ==> env.callback.None?) && AnswersOk()
      && promptWrite == Reached(attempt) && (attempt.Some? <==> |trail| >= 10)
    }

    /** Every phase rests on results that passed their checks. */
    ghost predicate AnswersOk()
      reads this
    {
      && |answers| >= Answers(phase)
      && (forall i | 0 <= i < |answers| :: IsAnswer(answers[i], i + 1))
      && (forall i | 0 <= i < Answers(phase) :: answers[i].resultFault.None?)
      && (phase == PromptSettled ==> stopReason == Some(answers[4].stopReason))
    }

    /** Everything read and written so far was smooth, `sent` frames of the driver's own among it, and everything
        said was kept. */
    ghost predicate At(read: nat, sent: nat)
      reads this
    {
      && nextRead == read <= |env.inputs| && nextWrite == sent + AskCount(env.inputs, nextRead) && sent <= 5
      && reverseIds == AskedIds(env.inputs, nextRead)
      && responseBytes == Spoken(env.inputs, nextRead) && Generous(env)
    }

    constructor (env: Environment)
      ensures this.env == env && OnTrack() && trail == [] && pending == {} && completed == {}
      ensures phase == New && promptWrite == NoBytes && stopReason == None && Pristine(1)
      ensures nextRead == 0 && nextWrite == 0 && responseBytes == 0 && reverseIds == {} && answers == []
      ensures attempt == None
    {
      this.env := env;
      nextRead, nextWrite, responseBytes := 0, 0, 0;
      pending, completed, reverseIds := {}, {}, {};
      stopReason, phase, promptWrite, trail, answers, attempt := None, New, NoBytes, [], [], None;
    }

    /** What the pipe will do with the next frame. */
    ghost function NextWrite(): Write
      reads this
    {
      if nextWrite < |env.outputs| then env.outputs[nextWrite] else WriteRaised(Timeout, None)
    }

    /** The next frame goes out whole. */
    ghost predicate Writable()
      reads this
    {
      NextWrite() == Wrote(Complete)
    }

    /** `write_line`, which leaves its mark on the trail; a pipe whose script is over times out. */
    method WriteLine(f: Frame) returns (w: Write)
      modifies this`nextWrite, this`trail
      ensures trail == old(trail) + Marks(f) && w == old(NextWrite()) && nextWrite == old(nextWrite) + 1
    {
      trail := trail + Marks(f);
      w := if nextWrite < |env.outputs| then env.outputs[nextWrite] else WriteRaised(Timeout, None);
      nextWrite := nextWrite + 1;
    }

    /** `read_line`; a child whose script is over lets the deadline pass. */
    method ReadLine() returns (r: Read)
      modifies this`nextRead
      ensures nextRead == old(nextRead) + 1
      ensures r == if old(nextRead) < |env.inputs| then env.inputs[old(nextRead)] else ReadRaised(Timeout)
    {
      r := if nextRead < |env.inputs| then env.inputs[nextRead] else ReadRaised(Timeout);
      nextRead := nextRead + 1;
    }

    /** `read_envelope`. */
    method ReadEnvelope() returns (r: Result<Envelope, Failure>)
      modifies this`nextRead
      ensures nextRead == old(nextRead) + 1
      ensures r.Ok? ==> old(nextRead) < |env.inputs| && env.inputs[old(nextRead)] == Line(r.value)
      ensures r.Err? ==>
                !r.error.busy && r.error.code ==
                  if old(nextRead) >= |env.inputs| then Timeout
                  else match env.inputs[old(nextRead)]
                       case ReadRaised(code) => code
                       case _ => ProtocolError
      ensures old(nextRead) < |env.inputs| && env.inputs[old(nextRead)].Line? ==> r.Ok?
    {
      var line := ReadLine();
      match line {
        case Line(e) => r := Ok(e);
        case ReadRaised(code) => r := Err(Failure(code, false));
        case _ => r := Err(Failure(ProtocolError, false));
      }
    }

    /** `_notification`. */
    method Notification(e: Envelope) returns (fault: Option<Failure>)
      requires responseBytes <= ACP_ASSISTANT_BYTES
      modifies this`responseBytes
      ensures responseBytes <= ACP_ASSISTANT_BYTES
      ensures fault.None? <==>
                && e.verb == Method("session/update") && e.paramsValid && !e.chunk.BadText?
                && (e.chunk.Text? ==> old(responseBytes) + e.chunk.bytes <= ACP_ASSISTANT_BYTES)
      ensures fault.None? ==> responseBytes == old(responseBytes) + if e.chunk.Text? then e.chunk.bytes else 0
      ensures fault.Some? ==> responseBytes == old(responseBytes)
      ensures fault.Some? ==>
                !fault.value.busy && fault.value.code ==
                  if e.verb == Method("session/update") && e.paramsValid && e.chunk.Text? then OutputOverflow
                  else ProtocolError
    {
      if e.verb != Method("session/update") || !e.paramsValid || e.chunk.BadText? {
        return Some(Failure(ProtocolError, false));
      }
      if e.chunk.Text? {
        if responseBytes + e.chunk.bytes > ACP_ASSISTANT_BYTES {
          return Some(Failure(OutputOverflow, false));
        }
        responseBytes := responseBytes + e.chunk.bytes;
      }
      fault := None;
    }

    /** `_reverse_request`: a permission request under a new id is refused by one whole frame; anything else ends the
        run. */
    method ReverseRequest(e: Envelope) returns (fault: Option<Failure>)
      modifies this`reverseIds, this`nextWrite, this`trail
      ensures trail == old(trail) && old(nextWrite) <= nextWrite <= old(nextWrite) + 1
      ensures fault.None? <==>
                && e.verb == Method("session/request_permission") && e.paramsValid
                && e.id.Id? && e.id.id !in old(reverseIds) && old(Writable())
      ensures fault.None? ==> reverseIds == old(reverseIds) + {e.id.id} && nextWrite == old(nextWrite) + 1
      ensures fault.Some? ==> !fault.value.busy
      ensures fault.Some? ==>
                fault.value.code ==
                  if e.id.Id? && e.id.id !in old(reverseIds) && old(NextWrite()).WriteRaised?
                     && (e.verb != Method("session/request_permission") || e.paramsValid) then old(NextWrite()).code
                  else ProtocolError
      ensures !e.id.Id? || e.id.id in old(reverseIds) ==> nextWrite == old(nextWrite) && reverseIds == old(reverseIds)
      ensures e.id.Id? && e.id.id !in old(reverseIds) && old(Writable())
              && e.verb != Method("session/request_permission") ==>
                fault == Some(Failure(ProtocolError, false)) && nextWrite == old(nextWrite) + 1
    {
      if !e.id.Id? || e.id.id in reverseIds {
        return Some(Failure(ProtocolError, false));
      }
      reverseIds := reverseIds + {e.id.id};
      if e.verb != Method("session/request_permission") {
        var w := WriteLine(ReplyFrame);
        return Some(if w.WriteRaised? then Failure(w.code, false) else Failure(ProtocolError, false));
      }
      if !e.paramsValid {
        return Some(Failure(ProtocolError, false));
      }
      var w := WriteLine(ReplyFrame);
      if w.WriteRaised? {
        return Some(Failure(w.code, false));
      }
      fault := if w.boundary == Complete then None else Some(Failure(ProtocolError, false));
    }

    /** The update is taken in, or the permission refused. */
    ghost predicate Harmless(e: Envelope)
      reads this
    {
      || (IsUpdate(e) && responseBytes + Said(Line(e)) <= ACP_ASSISTANT_BYTES)
      || (IsPermission(e) && e.id.id !in reverseIds && Writable())
    }

    ghost predicate Awaited(id: int)
      reads this
    {
      Number(id) in pending && Number(id) !in completed
    }

    /**
      `consume`.  It goes on exactly after an update that fits and after a request for permission that it could
      refuse; it returns an envelope exactly when that is the result the caller waits for: pending, not yet completed,
      with a result and no error (section 5 of the JSON-RPC 2.0 specification).  Any other line ends the run, so no id
      is completed twice, and it reports a busy session exactly when the answer to the prompt says so.
    */
    method Consume(e: Envelope, expected: Option<int>) returns (r: Result<Option<Envelope>, Failure>)
      requires responseBytes <= ACP_ASSISTANT_BYTES
      modifies this`pending, this`completed, this`reverseIds, this`responseBytes, this`nextWrite, this`trail,
        this`answers
      ensures responseBytes <= ACP_ASSISTANT_BYTES
      ensures r == Ok(None) <==> old(Harmless(e))
      ensures r.Ok? && r.value.Some? <==> expected.Some? && IsAnswer(e, expected.value) && old(Awaited(expected.value))
      ensures r.Ok? && r.value.Some? ==>
                && r.value.value == e && answers == old(answers) + [e]
                && trail == old(trail) + [Answered(expected.value)]
                && pending == old(pending) - {Number(expected.value)}
                && completed == old(completed) + {Number(expected.value)}
                && responseBytes == old(responseBytes) && nextWrite == old(nextWrite) && reverseIds == old(reverseIds)
      ensures r.Err? || r.value.None? ==> trail == old(trail) && answers == old(answers)
      ensures r == Ok(None) ==>
                && pending == old(pending) && completed == old(completed)
                && responseBytes == old(responseBytes) + Said(Line(e))
                && nextWrite == old(nextWrite) + (if IsPermission(e) then 1 else 0)
                && reverseIds == old(reverseIds) + if IsPermission(e) then {e.id.id} else {}
      ensures expected.None? ==> pending == old(pending) && completed == old(completed)
      ensures r.Err? ==> (r.error.busy <==> expected == Some(5) && IsBusy(e) && old(Awaited(5)))
      ensures r.Err? && r.error.busy ==> r.error.code == SessionBusy
      ensures r.Err? && !r.error.busy && !e.verb.Method? ==> r.error.code == ProtocolError
      ensures r.Err? ==> Blames(Line(e), r.error.code)
    {
      var refused := Err(Failure(ProtocolError, false));
      if !e.versionOk {
        return refused;
      }
      if !e.verb.NoMethod? {
        if e.extraKeys || e.hasResult || e.hasError || !e.hasParams || e.verb.BadMethod? {
          return refused;
        }
        var fault;
        if e.id.NoId? {
          fault := Notification(e);
        } else {
          fault := ReverseRequest(e);
        }
        return if fault.Some? then Err(Failure(fault.value.code, false)) else Ok(None);
      }
      if !e.id.Id? || e.hasParams || e.extraKeys {
        return refused;
      }
      var id := e.id.id;
      if id in completed || id !in pending {
        return refused;
      }
      if expected.None? || id != Number(expected.value) {
        return refused;
      }
      if e.hasResult == e.hasError {
        return refused;
      }
      pending := pending - {id};
      completed := completed + {id};
      if e.hasError {
        if e.errorValid && id == Number(5) && e.errorBusy {
          return Err(Failure(SessionBusy, true));
        }
        return refused;
      }
      trail, answers := trail + [Answered(expected.value)], answers + [e];
      r := Ok(Some(e));
    }

    /** The line that was read last. */
    ghost function LastRead(): Read
      reads this
    {
      if 0 < nextRead <= |env.inputs| then env.inputs[nextRead - 1] else ReadRaised(Timeout)
    }

    /** The line that was read last says that the session is busy. */
    ghost predicate LastSaysBusy()
      reads this
    {
      LastRead().Line? && IsBusy(LastRead().envelope)
    }

    /** A line that is harmless on the way keeps the way smooth. */
    lemma SmoothLine(sent: nat)
      requires At(nextRead, sent) && Quiet(env.inputs, nextRead, nextRead + 1)
      ensures Harmless(env.inputs[nextRead].envelope)
      ensures Spoken(env.inputs, nextRead + 1) == responseBytes + Said(env.inputs[nextRead])
    {
      var inputs, n := env.inputs, nextRead;
      SpokenGrows(inputs, n + 1, |inputs|);
      if Asks(inputs[n]) {
        NewAsk(inputs, n, n);
      }
    }

    /** One turn of the waiting loop. */
    method Turn(id: int, ghost sent: nat) returns (r: Result<Option<Envelope>, Failure>)
      requires responseBytes <= ACP_ASSISTANT_BYTES
      modifies this`nextRead, this`pending, this`completed, this`reverseIds, this`responseBytes, this`nextWrite,
        this`trail, this`answers
      ensures responseBytes <= ACP_ASSISTANT_BYTES && nextRead == old(nextRead) + 1
      ensures trail == old(trail) + if r.Ok? && r.value.Some? then [Answered(id)] else []
      ensures answers == old(answers) + if r.Ok? && r.value.Some? then [r.value.value] else []
      ensures r.Ok? ==> old(nextRead) < |env.inputs| && !LastSaysBusy()
      ensures r.Ok? && r.value.None? ==> pending == old(pending) && completed == old(completed)
      ensures r.Ok? && r.value.Some? ==>
                && env.inputs[old(nextRead)] == Line(r.value.value) && IsAnswer(r.value.value, id) && old(Awaited(id))
                && pending == old(pending) - {Number(id)} && completed == old(completed) + {Number(id)}
      ensures r.Err? ==> Blames(LastRead(), r.error.code) && (r.error.busy ==> id == 5 && r.error.code == SessionBusy)
      ensures r.Err? && old(Awaited(id)) && id == 5 ==> (r.error.busy <==> LastSaysBusy())
      ensures old(At(nextRead, sent)) && Quiet(env.inputs, old(nextRead), old(nextRead) + 1) ==>
                r == Ok(None) && At(old(nextRead) + 1, sent)
      ensures old(At(nextRead, sent)) && Serves(env.inputs, old(nextRead), id, old(nextRead)) && old(Awaited(id)) ==>
                r == Ok(Some(env.inputs[old(nextRead)].envelope)) && At(old(nextRead) + 1, sent)
    {
      if At(nextRead, sent) && Quiet(env.inputs, nextRead, nextRead + 1) { SmoothLine(sent); }
      var e := ReadEnvelope();
      if e.Err? {
        return Err(Failure(e.error.code, false));
      }
      r := Consume(e.value, Some(id));
    }

    /** Reads until the result for `id` arrives or something ends the run. */
    method AwaitResult(id: int, ghost at: nat, ghost sent: nat) returns (r: Result<Envelope, Failure>)
      requires OnTrack() && trail + [Answered(id)] <= Itinerary && InPhase(phase, |trail| + 1) && |answers| == id - 1
      requires Answers(phase) < id && Awaited(id) && (|trail| < 8 || |trail| == 10)
      modifies this`nextRead, this`pending, this`completed, this`reverseIds, this`responseBytes, this`nextWrite,
        this`trail, this`answers
      ensures OnTrack() && trail == old(trail) + if r.Ok? then [Answered(id)] else []
      ensures answers == old(answers) + if r.Ok? then [r.value] else []
      ensures r.Ok? ==> pending == old(pending) - {Number(id)} && completed == old(completed) + {Number(id)}
      ensures r.Ok? ==> IsAnswer(r.value, id) && LastRead() == Line(r.value)
      ensures r.Err? ==> Blames(LastRead(), r.error.code) && (r.error.busy ==> id == 5 && r.error.code == SessionBusy)
      ensures r.Err? && id == 5 ==> (r.error.busy <==> LastSaysBusy())
      ensures Serves(env.inputs, old(nextRead), id, at) && old(At(nextRead, sent)) ==>
                r == Ok(env.inputs[at].envelope) && At(at + 1, sent)
    {
      ghost var smooth := Serves(env.inputs, nextRead, id, at) && At(nextRead, sent);
      while true
        invariant responseBytes <= ACP_ASSISTANT_BYTES && pending == old(pending) && completed == old(completed)
        invariant trail == old(trail) && answers == old(answers)
        invariant smooth ==> old(nextRead) <= nextRead <= at && At(nextRead, sent)
        decreases |env.inputs| - nextRead
      {
        var c := Turn(id, sent);
        if c.Err? {
          return Err(c.error);
        }
        if c.value.Some? {
          return Ok(c.value.value);
        }
      }
    }

    /** No id from `id` on was ever used. */
    ghost predicate Pristine(id: int)
      reads this
    {
      forall n | n >= id :: Number(n) !in pending && Number(n) !in completed
    }

    /** The turn of request `id` has come: those before it were answered and their results accepted. */
    ghost predicate Asking(id: int)
      reads this
    {
      OnTrack() && |trail| == 2 * id - 2 && InPhase(phase, 2 * id) && |answers| == id - 1 == Answers(phase)
    }

    /** The next write will succeed, and the result for `id` is to come at `at`. */
    ghost predicate Next(id: int, at: nat)
      reads this
    {
      1 <= id <= 5 && At(nextRead, id - 1) && Pristine(id) && Serves(env.inputs, nextRead, id, at)
    }

    lemma NextIsWritable(id: int, at: nat)
      requires Next(id, at)
      ensures Writable()
    {
      SpokenGrows(env.inputs, nextRead, |env.inputs|);
    }

    /** The first half of `request_rpc`: the request goes out once, unless its id was used before. */
    method Ask(id: int, ghost at: nat) returns (fault: Option<Failure>)
      modifies this`pending, this`nextWrite, this`trail
      ensures fault.None? <==> old(!(Number(id) in pending || Number(id) in completed) && Writable())
      ensures fault.None? ==> pending == old(pending) + {Number(id)} && nextWrite == old(nextWrite) + 1
      ensures trail == old(trail) + if old(Number(id) in pending || Number(id) in completed) then [] else [Asked(id)]
      ensures fault.Some? ==> !fault.value.busy
      ensures old(Number(id) in pending || Number(id) in completed) ==> fault == Some(Failure(ProtocolError, false))
      ensures old(!(Number(id) in pending || Number(id) in completed)) ==>
                match old(NextWrite())
                case WriteRaised(code, _) => fault == Some(Failure(code, false))
                case Wrote(NoBytes) => fault == Some(Failure(Timeout, false))
                case Wrote(Part) => fault == Some(Failure(ProtocolError, false))
                case Wrote(Complete) => fault.None?
      ensures old(Next(id, at)) ==> fault.None? && At(old(nextRead), id) && Pristine(id + 1)
    {
      if Number(id) in pending || Number(id) in completed {
        return Some(Failure(ProtocolError, false));
      }
      if Next(id, at) { NextIsWritable(id, at); }
      pending := pending + {Number(id)};
      var w := WriteLine(RequestFrame(id));
      if w.WriteRaised? {
        return Some(Failure(w.code, false));
      }
      if w.boundary != Complete {
        pending := pending - {Number(id)};
        return Some(Failure(if w.boundary == NoBytes then Timeout else ProtocolError, false));
      }
      fault := None;
    }

    /** `request_rpc` and the check of its result: the request goes out once, and its milestones follow each other. */
    method Request(id: int, next: Phase, ghost at: nat) returns (fault: Option<Failure>)
      requires Asking(id) && 1 <= id <= 4 && Follows(next, id)
      modifies this
      ensures OnTrack() && promptWrite == old(promptWrite) && (fault.Some? ==> !fault.value.busy && phase == old(phase))
      ensures fault.None? ==>
                && Asking(id + 1) && phase == next && !LastSaysBusy()
                && completed == old(completed) + {Number(id)} && Number(id) !in pending
      ensures |answers| == id && answers[id - 1].resultFault.Some? ==>
                fault == Some(Failure(answers[id - 1].resultFault.value, false))
      ensures fault.Some? && old(Writable()) ==>
                Blames(LastRead(), fault.value.code) || fault.value.code == ProtocolError
      ensures fault.Some? && old(NextWrite()).WriteRaised? ==>
                fault.value.code == old(NextWrite()).code || fault.value.code == ProtocolError
      ensures |trail| <= 2 * id
      ensures old(Next(id, at)) ==> fault.None? && At(at + 1, id) && Pristine(id + 1)
    {
      fault := Ask(id, at);
      if fault.Some? { return; }
      fault := Accept(id, next, at);
    }

    /** The result is awaited and checked; if it passes, the next phase begins. */
    method Accept(id: int, next: Phase, ghost at: nat) returns (fault: Option<Failure>)
      requires 1 <= id <= 4 && Follows(next, id) && OnTrack() && Awaited(id)
      requires |trail| == 2 * id - 1 && InPhase(phase, 2 * id) && |answers| == id - 1 == Answers(phase)
      modifies this`nextRead, this`pending, this`completed, this`reverseIds, this`responseBytes, this`nextWrite,
        this`trail, this`answers, this`phase
      ensures OnTrack() && (fault.Some? ==> !fault.value.busy && phase == old(phase)) && |trail| <= 2 * id
      ensures fault.Some? ==> Blames(LastRead(), fault.value.code)
      ensures fault.None? ==>
                && Asking(id + 1) && phase == next && !LastSaysBusy()
                && pending == old(pending) - {Number(id)} && completed == old(completed) + {Number(id)}
      ensures |answers| == id && answers[id - 1].resultFault.Some? ==>
                fault == Some(Failure(answers[id - 1].resultFault.value, false))
      ensures old(At(nextRead, id)) && Serves(env.inputs, old(nextRead), id, at) ==> fault.None? && At(at + 1, id)
    {
      var r := AwaitResult(id, at, id);
      if r.Err? {
        return Some(r.error);
      }
      if r.value.resultFault.Some? {
        return Some(Failure(r.value.resultFault.value, false));
      }
      phase := next;
      fault := None;
    }

    /** The write of the prompt, behind the callback: its boundary, and the phase if it was complete. */
    method WritePrompt(ghost at: nat) returns (fault: Option<Failure>)
      requires OnTrack() && Asking(5) && phase == ModeSet && env.callback.None?
      modifies this`trail, this`pending, this`nextWrite, this`promptWrite, this`phase, this`attempt
      ensures OnTrack() && trail == Itinerary[..10] && attempt == Some(old(NextWrite()))
      ensures phase == if promptWrite == Complete then PromptWritten else ModeSet
      ensures fault.None? <==> old(Writable())
      ensures fault.None? ==> promptWrite == Complete && pending == old(pending) + {Number(5)}
      ensures fault.Some? ==> !fault.value.busy
      ensures match old(NextWrite())
              case Wrote(b) => b != Complete ==> fault == Some(Failure(Timeout, false))
              case WriteRaised(code, _) => fault == Some(Failure(code, false))
      ensures old(Next(5, at)) ==> fault.None? && At(old(nextRead), 5)
    {
      if Next(5, at) { NextIsWritable(5, at); }
      trail := trail + [Confirmed];
      pending := pending + {Number(5)};
      var w := WriteLine(PromptFrame);
      attempt := Some(w);
      if w.WriteRaised? {
        if w.reached.Some? {
          promptWrite := w.reached.value;
          if promptWrite == Complete {
            phase := PromptWritten;
          }
        }
        return Some(Failure(w.code, false));
      }
      promptWrite := w.boundary;
      if promptWrite != Complete {
        pending := pending - {Number(5)};
        return Some(Failure(Timeout, false));
      }
      phase := PromptWritten;
      fault := None;
    }

    /** From the callback to the answer of the prompt. `tried` says that the write of the prompt was attempted. */
    method Prompt(ghost at: nat) returns (fault: Option<Failure>, tried: bool)
      requires Asking(5) && phase == ModeSet && promptWrite == NoBytes
      requires Number(5) !in completed && !LastSaysBusy()
      modifies this
      ensures OnTrack()
      ensures fault.None? ==> phase == PromptSettled
      ensures fault.Some? ==> phase == ModeSet || phase == PromptWritten
      ensures fault.Some? && fault.value.busy ==> phase == PromptWritten && fault.value.code == SessionBusy
      ensures fault.Some? ==> (fault.value.busy <==> LastSaysBusy())
      ensures env.callback.Some? ==> fault == Some(Failure(env.callback.value, false)) && trail == old(trail)
      ensures fault.Some? && env.callback.None? && old(Writable()) ==> Blames(LastRead(), fault.value.code)
      ensures tried <==> |trail| >= 10
      ensures old(Next(5, at)) && env.callback.None? ==>
                fault.None? && At(at + 1, 5) && stopReason == Some(env.inputs[at].envelope.stopReason)
    {
      tried := env.callback.None?;
      if env.callback.Some? {
        return Some(Failure(env.callback.value, false)), tried;
      }
      fault := WritePrompt(at);
      if fault.Some? { return; }
      var r := AwaitResult(5, at, 5);
      if r.Err? {
        return Some(r.error), tried;
      }
      if r.value.resultFault.Some? {
        return Some(Failure(r.value.resultFault.value, false)), tried;
      }
      stopReason := Some(r.value.stopReason);
      phase := PromptSettled;
    }

    /** One line behind the answer: it must be harmless, or the end of the output. */
    method Trailing() returns (r: Result<bool, Failure>)
      requires responseBytes <= ACP_ASSISTANT_BYTES
      modifies this`nextRead, this`pending, this`completed, this`reverseIds, this`responseBytes, this`nextWrite,
        this`trail, this`answers
      ensures responseBytes <= ACP_ASSISTANT_BYTES && completed == old(completed) && trail == old(trail)
      ensures r.Err? ==> !r.error.busy && Blames(LastRead(), r.error.code)
      ensures r == Ok(false) ==> old(nextRead) < |env.inputs| && nextRead == old(nextRead) + 1
      ensures answers == old(answers)
      ensures r == Ok(true) ==> LastRead() == EndOfOutput
      ensures old(At(nextRead, 5)) && Quiet(env.inputs, old(nextRead), old(nextRead) + 1) ==>
                r == Ok(false) && At(old(nextRead) + 1, 5)
      ensures old(nextRead) < |env.inputs| && env.inputs[old(nextRead)] == EndOfOutput ==>
                r == Ok(true) && responseBytes == old(responseBytes)
    {
      if At(nextRead, 5) && Quiet(env.inputs, nextRead, nextRead + 1) { SmoothLine(5); }
      var line := ReadLine();
      match line {
        case EndOfOutput => return Ok(true);
        case Garbage => return Err(Failure(ProtocolError, false));
        case ReadRaised(code) => return Err(Failure(code, false));
        case Line(e) =>
          var c := Consume(e, None);
          return if c.Err? then Err(Failure(c.error.code, false)) else Ok(false);
      }
    }

    /** After the answer: every further line must be harmless, and the child must close its output. */
    method Drain(ghost end: nat) returns (fault: Option<Failure>)
      requires OnTrack()
      modifies this`nextRead, this`pending, this`completed, this`reverseIds, this`responseBytes, this`nextWrite,
        this`trail, this`answers
      ensures OnTrack() && completed == old(completed) && trail == old(trail) && answers == old(answers)
      ensures fault.Some? ==> !fault.value.busy && Blames(LastRead(), fault.value.code)
      ensures fault.None? ==> LastRead() == EndOfOutput
      ensures old(At(nextRead, 5)) && ClosesAt(env.inputs, old(nextRead), end) ==>
                fault.None? && responseBytes == Spoken(env.inputs, end)
    {
      ghost var smooth := At(nextRead, 5) && ClosesAt(env.inputs, nextRead, end);
      while true
        invariant responseBytes <= ACP_ASSISTANT_BYTES && completed == old(completed) && trail == old(trail)
        invariant answers == old(answers)
        invariant smooth ==> old(nextRead) <= nextRead <= end && At(nextRead, 5)
        decreases |env.inputs| - nextRead
      {
        var r := Trailing();
        if r.Err? {
          return Some(r.error);
        }
        if r.value {
          return None;
        }
      }
    }

    /** Nothing was read, sent or accepted yet. */
    ghost predicate Blank()
      reads this
    {
      && OnTrack() && phase == New && trail == [] && promptWrite == NoBytes && answers == [] && nextRead == 0
      && completed == {}
    }

    /** Initialize and list. */
    method Locate(ghost ends: seq<nat>) returns (fault: Option<Failure>)
      requires Blank() && |ends| >= 2
      modifies this
      ensures OnTrack() && (fault.Some? ==> !fault.value.busy) && promptWrite == NoBytes
      ensures phase != PromptWritten && phase != PromptSettled && |trail| <= 4
      ensures fault.None? ==> phase == Listed && Asking(3) && completed == {Number(1), Number(2)}
      ensures old(Next(1, ends[0])) && Serves(env.inputs, ends[0] + 1, 2, ends[1]) ==>
                fault.None? && At(ends[1] + 1, 2) && Pristine(3)
    {
      fault := Request(1, Initialized, ends[0]);
      if fault.Some? { return; }
      fault := Request(2, Listed, ends[1]);
    }

    /** Resume and set the mode. */
    method Join(ghost ends: seq<nat>) returns (fault: Option<Failure>)
      requires Asking(3) && phase == Listed && promptWrite == NoBytes && |ends| >= 4
      modifies this
      ensures OnTrack() && (fault.Some? ==> !fault.value.busy) && promptWrite == NoBytes
      ensures phase != PromptWritten && phase != PromptSettled && |trail| <= 8
      ensures fault.None? ==> phase == ModeSet && Asking(5) && !LastSaysBusy()
      ensures fault.None? ==> completed == old(completed) + {Number(3), Number(4)}
      ensures old(Next(3, ends[2])) && Serves(env.inputs, ends[2] + 1, 4, ends[3]) ==>
                fault.None? && At(ends[3] + 1, 4) && Pristine(5)
    {
      fault := Request(3, Resumed, ends[2]);
      if fault.Some? { return; }
      fault := Request(4, ModeSet, ends[3]);
    }

    /** The four requests that precede the prompt. */
    method Prepare(ghost ends: seq<nat>) returns (fault: Option<Failure>)
      requires Blank() && |ends| >= 5
      modifies this
      ensures OnTrack() && (fault.Some? ==> !fault.value.busy)
      ensures phase != PromptWritten && phase != PromptSettled && |trail| <= 8
      ensures fault.None? ==> phase == ModeSet && Asking(5) && promptWrite == NoBytes
      ensures fault.None? ==> Number(5) !in completed && !LastSaysBusy()
      ensures old(At(0, 0) && Pristine(1)) && Smooth(env, ends) ==> fault.None? && Next(5, ends[4])
    {
      fault := Locate(ends);
      if fault.Some? { return; }
      fault := Join(ends);
    }

    /** The body of the `try` in `run_kimi_acp`. */
    method Converse(ghost ends: seq<nat>) returns (fault: Option<Failure>, tried: bool, observed: Option<Observed>)
      requires Blank() && |ends| == 6
      modifies this
      ensures OnTrack() && (tried <==> |trail| >= 10)
      ensures fault.None? ==> phase == PromptSettled && env.wait.Ok? && observed == Some(env.wait.value)
      ensures fault.Some? ==> observed == None && (fault.value.busy <==> phase == PromptWritten && LastSaysBusy())
      ensures fault.Some? && fault.value.busy ==> fault.value.code == SessionBusy
      ensures old(At(0, 0) && Pristine(1)) && Smooth(env, ends) ==>
                && phase == PromptSettled && stopReason == Some(env.inputs[ends[4]].envelope.stopReason)
                && responseBytes == Spoken(env.inputs, ends[5])
                && fault == if env.wait.Err? then Some(Failure(env.wait.error, false)) else None
    {
      tried, observed := false, None;
      fault := Prepare(ends);
      if fault.Some? { return; }
      fault, tried := Prompt(ends[4]);
      if fault.Some? { return; }
      fault := Drain(ends[5]);
      if fault.Some? { return; }
      if env.wait.Err? {
        fault := Some(Failure(env.wait.error, false));
        return;
      }
      observed := Some(env.wait.value);
    }

    /**
      `run_kimi_acp`.  Whatever the child sends and however the pipe behaves: the trail is an initial part of the
      itinerary; the prompt counts as written exactly in the two last phases, and a stop reason is there exactly when
      it settled; the error is that of the conversation, or of the exit if there was none, or an incomplete cleanup,
      so no error means a settled prompt of a child that exited cleanly with code zero and was cleaned up; and a
      definitive busy rejection is claimed exactly when the child answered the prompt so and the proof was given. 
      With a child that plays along, whatever updates it sends and permissions it asks for in between, the run does
      succeed.
    */
    method Run(ghost ends: seq<nat>) returns (out: Outcome, ghost fault: Option<Failure>)
      requires Blank() && stopReason == None && |ends| == 6
      modifies this
      ensures trail <= Itinerary && InPhase(out.phase, |trail|) && (|trail| > 8 ==> env.callback.None?)
      ensures |answers| >= Answers(out.phase) && forall i | 0 <= i < Answers(out.phase) :: IsResult(answers[i], i + 1)
      ensures out.promptWrite == Complete <==> out.phase == PromptWritten || out.phase == PromptSettled
      ensures attempt.Some? <==> |trail| >= 10
      ensures out.promptWrite ==
                if attempt.Some? && Reached(attempt) != Complete && env.residual.Some? then env.residual.value
                else Reached(attempt)
      ensures out.stopReason.Some? <==> out.phase == PromptSettled
      ensures out.phase == PromptSettled ==> out.stopReason == Some(answers[4].stopReason)
      ensures out.error.None? ==>
                out.phase == PromptSettled && out.returncode == Some(0) && out.cleanExit && out.cleanupComplete
      ensures ErrorIs(env, fault, out.error)
      ensures env.spawn.Some? ==> out == Outcome(New, NoBytes, None, None, false, false, env.spawn, false)
      ensures env.spawn.None? && fault.None? ==> out.phase == PromptSettled && env.wait.Ok?
      ensures env.spawn.None? ==>
                (out.definitiveBusy <==> fault.Some? && fault.value.busy && env.confirmsNoPrompt)
                && (fault.Some? && fault.value.busy ==> out.phase == PromptWritten && LastSaysBusy())
      ensures env.spawn.None? && out.promptWrite == Complete && out.phase == PromptWritten && LastSaysBusy()
              && env.residual.None? ==>
                fault.Some? && fault.value.busy
      ensures out.returncode.Some? && !out.cleanupComplete ==> out.error == Some(CleanupIncomplete)
      ensures env.spawn.None? ==>
                var last := if fault.None? && env.wait.value.cleanupComplete then env.wait.value else env.cleanup;
                && out.returncode == Some(last.returncode) && out.cleanExit == last.cleanExit
                && out.cleanupComplete == last.cleanupComplete
      ensures old(At(0, 0) && Pristine(1)) && Smooth(env, ends) ==>
                && trail == Itinerary && responseBytes == Spoken(env.inputs, ends[5])
                && out.stopReason == Some(env.inputs[ends[4]].envelope.stopReason)
                && fault == if env.wait.Err? then Some(Failure(env.wait.error, false)) else None
      ensures old(At(0, 0) && Pristine(1)) && Smooth(env, ends) && env.wait == Ok(Observed(0, true, true)) ==>
                out.error.None?
    {
      fault := None;
      if env.spawn.Some? {
        out := Outcome(phase, promptWrite, None, None, false, false, env.spawn, false);
        return;
      }
      var failure, tried, observed := Converse(ends);
      fault := failure;
      var error: Option<Code> := if failure.Some? then Some(failure.value.code) else None;
      var busy := failure.Some? && failure.value.busy && env.confirmsNoPrompt;
      if observed.Some? {
        if !observed.value.cleanupComplete {
          error := Some(CleanupIncomplete);
        } else if observed.value.returncode != 0 || !observed.value.cleanExit {
          error := Some(NativeExit);
        }
      }
      if tried && env.residual.Some? && phase == ModeSet {
        promptWrite := env.residual.value;
        if promptWrite == Complete {
          phase := PromptWritten;
        }
      }
      var last := if observed.None? || !observed.value.cleanupComplete then env.cleanup else observed.value;
      if !last.cleanupComplete {
        error := Some(CleanupIncomplete);
      }
      out := Outcome(phase, promptWrite, stopReason, Some(last.returncode), last.cleanExit, last.cleanupComplete, error,
        busy);
    }
  }

  /** What is reported: a child that could not be started; else a cleanup that stayed incomplete; else the failure
      of the conversation; else, of the exit that was waited for, an incomplete cleanup before any other fault. */
  ghost predicate ErrorIs(env: Environment, fault: Option<Failure>, error: Option<Code>) {
    if env.spawn.Some? then error == env.spawn
    else if fault.Some? then error == Some(if env.cleanup.cleanupComplete then fault.value.code else CleanupIncomplete)
    else if env.wait.Err? then false
    else
      var o := env.wait.value;
      && (!o.cleanupComplete <==> error == Some(CleanupIncomplete))
      && (o.cleanupComplete && (o.returncode != 0 || !o.cleanExit) <==> error == Some(NativeExit))
      && (o.cleanupComplete && o.returncode == 0 && o.cleanExit <==> error == None)
  }

  /** What being on the itinerary means for the prompt: it is tried at most once, and only behind four requests
      that were each answered exactly once, in order, and the callback. */
  lemma PromptComesLast(trail: seq<Milestone>, i: nat)
    requires trail <= Itinerary && i < |trail| && trail[i] == Prompted
    ensures i == 9 && forall j | 0 <= j < |trail| && j != i :: trail[j] != Prompted
    ensures forall id | 1 <= id <= 4 :: trail[2 * id - 2] == Asked(id) && trail[2 * id - 1] == Answered(id)
    ensures trail[8] == Confirmed
    ensures forall j, id | 0 <= j < |trail| && 1 <= id <= 4 && trail[j] == Answered(id) :: j == 2 * id - 1
  {
    assert forall j | 0 <= j < |trail| :: trail[j] == Itinerary[j];
  }
}
