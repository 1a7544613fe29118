/** nir/application_adapter.py: a session with one child process, request after request.

    What the child writes over its whole life is the stream its reader is given; deadlines show
    as writes that expire and as reads the caller no longer waits for. */
module AdapterSessions {
  import opened Ordering
  import opened Results
  import opened Streams
  import opened FrameReaders
  import ReplayStore

  datatype Description = Description(identity: Text, maxInputBytes: nat)

  datatype Case = Case(id: Text, input: Text, seed: Text, timeoutMs: int)

  datatype Answer = Answer(caseId: Text, value: Text)

  datatype Request = Describe(id: Text, seed: Text) | Evaluate(id: Text, asked: Case)

  /** A response object: its result, a remote error, or neither in good order. */
  datatype Body = Returned(bytes: seq<Byte>) | RemoteError(code: Text, message: Text) | Malformed

  datatype Response = Response(formatOk: bool, requestId: Text, body: Body)

  /** Forms and schemas, None or false where the checks raise; `encode` gives a request's JSON. */
  datatype Rules = Rules(
    encode: Request -> Option<seq<Byte>>, decode: Decoder<Response>,
    isSeed: Text -> bool, isCase: Case -> bool, inputSize: Case -> Option<nat>,
    describes: seq<Byte> -> Option<Description>, answers: seq<Byte> -> Option<Answer>)

  datatype SessionError =
    | AlreadyDescribed | NotDescribed | BadSeed | BadCase | InputTooLarge
    | NotRunning | BadRequest | WriteFailed | ReadFailed | OtherRequest | Remote(code: Text, message: Text)
    | BadResult | OtherCase

  // ----- Request identifiers

  /** "r-" and a number */
  function RequestId(n: nat): Text {
    [114, 45] + ReplayStore.Decimal(n)
  }

  lemma {:induction false} DecimalsDiffer(m: nat, n: nat)
    requires ReplayStore.Decimal(m) == ReplayStore.Decimal(n)
    ensures m == n
  {
    var a, b := ReplayStore.Decimal(m), ReplayStore.Decimal(n);
    assert a[|a| - 1] == 48 + m % 10 && b[|b| - 1] == 48 + n % 10;
    if m >= 10 && n >= 10 {
      assert ReplayStore.Decimal(m / 10) == a[..|a| - 1] && ReplayStore.Decimal(n / 10) == b[..|b| - 1];
      DecimalsDiffer(m / 10, n / 10);
    }
  }

  /** No two requests of a session share an identifier. */
  lemma RequestIdsDiffer(m: nat, n: nat)
    requires RequestId(m) == RequestId(n)
    ensures m == n
  {
    assert RequestId(m)[2..] == ReplayStore.Decimal(m) && RequestId(n)[2..] == ReplayStore.Decimal(n);
    DecimalsDiffer(m, n);
  }

  // ----- Which line answers which request

  /** The line of a request, without its newline. */
  function LineOf(rules: Rules, request: Request): Option<seq<Byte>> {
    match rules.encode(request)
    case None => None
    case Some(line) => if line == [] || |line| > MAX_FRAME_BYTES || NEWLINE in line then None else Some(line)
  }

  /** The child was sent these requests, numbered from 1, and nothing else it could take for a line. */
  ghost predicate Sent(rules: Rules, requests: seq<Request>, lines: seq<seq<Byte>>) {
    && |requests| == |lines|
    && forall i | 0 <= i < |requests| :: requests[i].id == RequestId(i + 1) && LineOf(rules, requests[i]) == Some(lines[i])
  }

  /** Answer `i` is line `i` of what the child writes, and names request `i`. */
  ghost predicate Answered(rules: Rules, stream: seq<Byte>, answers: seq<Response>) {
    && |answers| <= |Lines(stream)|
    && forall i | 0 <= i < |answers| ::
         && DecodeFrame(rules.decode, Lines(stream)[i]) == Some(answers[i])
         && answers[i].formatOk && answers[i].requestId == RequestId(i + 1) && answers[i].body.Returned?
  }

  /** Whatever two callers do, and however the child's output reaches them, what they are answered is the same. */
  lemma AnswersAreForced(rules: Rules, stream: seq<Byte>, a: seq<Response>, b: seq<Response>)
    requires Answered(rules, stream, a) && Answered(rules, stream, b) && |a| <= |b|
    ensures a == b[..|a|]
  {
    hide DecodeFrame, Lines;
    forall i | 0 <= i < |a| ensures a[i] == b[i] {
      assert Some(a[i]) == Some(b[i]);
    }
  }

  /** An answer out of its turn, late or early, ends the session: nothing after it is believed. */
  lemma AnswerOutOfTurn(rules: Rules, stream: seq<Byte>, answers: seq<Response>, k: nat, n: nat)
    requires Answered(rules, stream, answers) && k < |Lines(stream)| && n != k + 1
    requires match DecodeFrame(rules.decode, Lines(stream)[k]) { case Some(r) => r.requestId == RequestId(n) case None => true }
    ensures |answers| <= k
  {
    hide DecodeFrame, Lines;
    if |answers| > k {
      RequestIdsDiffer(k + 1, n);
    }
  }

  lemma {:induction false} JoinedNext(lines: seq<seq<Byte>>, line: seq<Byte>)
    ensures Joined(lines + [line]) == Joined(lines) + (line + [NEWLINE])
  {
    if lines == [] {
      assert lines + [line] == [line];
    } else {
      assert (lines + [line])[1..] == lines[1..] + [line];
      JoinedNext(lines[1..], line);
    }
  }

  lemma NoLineYet(s: seq<Byte>)
    requires NEWLINE !in s
    ensures Lines(s) == []
  {
    assert Find(s, 0) == |s|;
  }

  /** What the child has been sent, including a last request cut short: the lines it can read are `lines`. */
  lemma LinesWritten(rules: Rules, requests: seq<Request>, lines: seq<seq<Byte>>, cut: seq<Byte>)
    requires Sent(rules, requests, lines) && NEWLINE !in cut
    ensures Lines(Joined(lines) + cut) == lines
  {
    hide Lines, Joined;
    forall f | f in lines ensures NEWLINE !in f {
      var i :| 0 <= i < |lines| && lines[i] == f;
      assert LineOf(rules, requests[i]) == Some(lines[i]);
    }
    WrittenAreRead(lines, cut);
    NoLineYet(cut);
    assert lines + [] == lines;
  }

  /** What line `k` of the stream answers to this request: the bytes returned, or nothing usable. */
  ghost function Reply(rules: Rules, stream: seq<Byte>, k: nat, id: Text): Option<seq<Byte>> {
    if k >= |Lines(stream)| then None
    else
      match DecodeFrame(rules.decode, Lines(stream)[k])
      case None => None
      case Some(r) => if r.formatOk && r.requestId == id && r.body.Returned? then Some(r.body.bytes) else None
  }

  /** What one exchange gives: the session is open, the request is a line, the pipe takes all of it
      in time, and the next line of the child is the reply to it. */
  ghost function Exchanged(rules: Rules, stream: seq<Byte>, cuts: seq<nat>, closed: bool, answered: nat,
                           request: Request, rounds: seq<Readiness>, waits: bool): Option<seq<Byte>> {
    match LineOf(rules, request)
    case None => None
    case Some(line) =>
      if !closed && Arrives(cuts, |line| + 1, rounds) && waits then Reply(rules, stream, answered, request.id) else None
  }

  function Gives<T>(r: Result<T, SessionError>): Option<T> {
    if r.Success? then Some(r.value) else None
  }

  class ApplicationAdapter {
    const rules: Rules
    const reader: FrameReader<Response>
    const sink: Sink
    var counter: nat
    var closed: bool
    var description: Option<Description>

    ghost const stream: seq<Byte>
    ghost var requests: seq<Request>
    ghost var lines: seq<seq<Byte>>
    ghost var answers: seq<Response>

    /** However the session went so far, requests and answers pair up one to one. */
    ghost predicate Valid()
      reads this, reader, reader.source, sink
    {
      && reader.decode == rules.decode && reader.Valid()
      && Sent(rules, requests, lines) && Answered(rules, stream, answers)
      && |answers| <= |requests| <= |answers| + 1
      && Lines(sink.written) == lines
      && (!closed ==>
            && counter == |requests| == |answers|
            && sink.written == Joined(lines)
            && Lines(reader.Pending()) == Lines(stream)[counter..])
      && (description.Some? ==> answers != [])
    }

    constructor (rules: Rules, source: Source, sink: Sink)
      requires sink.written == []
      ensures Valid() && !closed && description == None && counter == 0
      ensures this.rules == rules && this.sink == sink && stream == source.data && fresh(reader) && reader.source == source
    {
      this.rules := rules;
      this.sink := sink;
      reader := new FrameReader(rules.decode, source);
      counter, closed, description := 0, false, None;
      stream, requests, lines, answers := source.data, [], [], [];
      new;
      NoLineYet([]);
      assert reader.Pending() == stream;
    }

    method Close()
      modifies `closed
      ensures closed
    {
      closed := true;
    }

    /** One request and its answer; any failure closes the session. */
    method Exchange(request: Request, rounds: seq<Readiness>, waits: bool) returns (r: Result<seq<Byte>, SessionError>)
      requires Valid() && request.id == RequestId(counter + 1)
      modifies `counter, `closed, `requests, `lines, `answers, reader`buffer, reader.source, sink
      ensures Valid() && counter == old(counter) + 1
      ensures Gives(r) == Exchanged(rules, stream, old(sink.cuts), old(closed), |old(answers)|, request, rounds, waits)
      ensures r.Success? <==> !closed
      ensures r.Success? ==> !old(closed) && requests == old(requests) + [request]
      ensures r.Success? ==> answers == old(answers) + [Response(true, request.id, Returned(r.value))]
      ensures r.Failure? ==> answers == old(answers)
      ensures old(closed) ==> sink.written == old(sink.written) && requests == old(requests)
    {
      hide Lines, Joined, Reply, Arrives, Sent, Answered, RequestId;
      counter := counter + 1;
      if closed {
        return Failure(NotRunning);
      }
      var line := LineOf(rules, request);
      if line.None? {
        Close();
        return Failure(BadRequest);
      }
      var written := Send(request, line.value, rounds);
      if !written {
        return Failure(WriteFailed);
      }
      r := Receive(request.id, waits);
    }

    /** Writes the request; if that fails, the child has a part of its line at most. */
    method Send(request: Request, line: seq<Byte>, rounds: seq<Readiness>) returns (ok: bool)
      requires reader.decode == rules.decode && reader.Valid() && !closed
      requires Sent(rules, requests, lines) && sink.written == Joined(lines)
      requires request.id == RequestId(|requests| + 1) && LineOf(rules, request) == Some(line)
      modifies `closed, `requests, `lines, sink
      ensures Sent(rules, requests, lines) && Lines(sink.written) == lines
      ensures ok <==> Arrives(old(sink.cuts), |line| + 1, rounds)
      ensures ok ==> !closed && requests == old(requests) + [request] && sink.written == Joined(lines)
      ensures !ok ==> closed && requests == old(requests) && lines == old(lines)
    {
      hide Lines, Joined;
      ok := WriteFrame(sink, line + [NEWLINE], rounds);
      if ok {
        JoinedNext(lines, line);
        requests, lines := requests + [request], lines + [line];
        LinesWritten(rules, requests, lines, []);
        assert Joined(lines) + [] == Joined(lines);
      } else {
        ghost var n :| 0 <= n < |line| + 1 && sink.written == Joined(lines) + (line + [NEWLINE])[..n];
        assert (line + [NEWLINE])[..n] == line[..n];
        LinesWritten(rules, requests, lines, line[..n]);
        Close();
      }
    }

    method Receive(id: Text, waits: bool) returns (r: Result<seq<Byte>, SessionError>)
      requires reader.decode == rules.decode && reader.Valid() && !closed
      requires Answered(rules, stream, answers) && id == RequestId(|answers| + 1)
      requires Lines(reader.Pending()) == Lines(stream)[|answers|..]
      modifies `closed, `answers, reader`buffer, reader.source
      ensures reader.Valid() && Answered(rules, stream, answers)
      ensures Gives(r) == if waits then Reply(rules, stream, |old(answers)|, id) else None
      ensures r.Success? <==> !closed
      ensures r.Success? ==> answers == old(answers) + [Response(true, id, Returned(r.value))]
      ensures r.Success? ==> Lines(reader.Pending()) == Lines(stream)[|answers|..]
      ensures r.Failure? ==> answers == old(answers)
    {
      hide Lines;
      if !waits {
        Close();
        return Failure(ReadFailed);
      }
      LinesOfNext(reader.decode, reader.Pending());
      var response := reader.Read();
      if response.None? {
        Close();
        return Failure(ReadFailed);
      }
      if !response.value.formatOk || response.value.requestId != id {
        Close();
        return Failure(OtherRequest);
      }
      match response.value.body
      case Returned(bytes) =>
        answers := answers + [response.value];
        r := Success(bytes);
      case RemoteError(code, message) =>
        Close();
        r := Failure(Remote(code, message));
      case Malformed =>
        Close();
        r := Failure(BadResult);
    }

    /** The handshake: at most one succeeds, and a failed attempt closes the session unless it was never sent. */
    method DescribeModel(seed: Text, rounds: seq<Readiness>, waits: bool) returns (r: Result<Description, SessionError>)
      requires Valid()
      modifies `counter, `closed, `description, `requests, `lines, `answers, reader`buffer, reader.source, sink
      ensures Valid()
      ensures old(description.Some?) || !rules.isSeed(seed) ==>
                r.Failure? && description == old(description) && closed == old(closed) && requests == old(requests)
                && answers == old(answers) && counter == old(counter) && sink.written == old(sink.written)
      ensures !(old(description.Some?) || !rules.isSeed(seed)) ==>
                var reply := Exchanged(rules, stream, old(sink.cuts), old(closed), |old(answers)|,
                                       Describe(RequestId(old(counter) + 1), seed), rounds, waits);
                Gives(r) == (if reply.Some? then rules.describes(reply.value) else None) && (r.Success? <==> !closed)
      ensures r.Success? ==> !old(closed) && description == Some(r.value) && |answers| == |old(answers)| + 1
      ensures r.Success? ==> rules.describes(answers[|answers| - 1].body.bytes) == Some(r.value)
      ensures r.Success? ==> requests == old(requests) + [Describe(RequestId(counter), seed)]
      ensures r.Failure? ==> description == old(description)
    {
      if description.Some? {
        return Failure(AlreadyDescribed);
      }
      if !rules.isSeed(seed) {
        return Failure(BadSeed);
      }
      var reply := Exchange(Describe(RequestId(counter + 1), seed), rounds, waits);
      if reply.Failure? {
        return Failure(reply.error);
      }
      var found := rules.describes(reply.value);
      if found.None? {
        Close();
        return Failure(BadResult);
      }
      description := found;
      r := Success(found.value);
    }

    /** An answer is to the very request made and for the very case asked, or it is no answer. */
    method EvaluateCase(c: Case, rounds: seq<Readiness>, waits: bool) returns (r: Result<Answer, SessionError>)
      requires Valid()
      modifies `counter, `closed, `requests, `lines, `answers, reader`buffer, reader.source, sink
      ensures Valid()
      ensures Refusal(old(description), c).Some? ==>
                r == Failure(Refusal(old(description), c).value) && closed == old(closed) && requests == old(requests)
                && answers == old(answers) && counter == old(counter) && sink.written == old(sink.written)
      ensures Refusal(old(description), c).None? ==>
                var reply := Exchanged(rules, stream, old(sink.cuts), old(closed), |old(answers)|,
                                       Evaluate(RequestId(old(counter) + 1), c), rounds, waits);
                var answer := if reply.Some? then rules.answers(reply.value) else None;
                Gives(r) == (if answer.Some? && answer.value.caseId == c.id then answer else None) && (r.Success? <==> !closed)
      ensures r.Success? ==> !old(closed) && |answers| == |old(answers)| + 1
      ensures r.Success? ==> requests == old(requests) + [Evaluate(RequestId(counter), c)]
      ensures r.Success? ==> rules.answers(answers[|answers| - 1].body.bytes) == Some(r.value) && r.value.caseId == c.id
    {
      var refusal := Refusal(description, c);
      if refusal.Some? {
        return Failure(refusal.value);
      }
      var reply := Exchange(Evaluate(RequestId(counter + 1), c), rounds, waits);
      if reply.Failure? {
        return Failure(reply.error);
      }
      var found := rules.answers(reply.value);
      if found.None? {
        Close();
        return Failure(BadResult);
      }
      if found.value.caseId != c.id {
        Close();
        return Failure(OtherCase);
      }
      r := Success(found.value);
    }

    /** What is refused before anything is sent, the session left as it was. */
    function Refusal(described: Option<Description>, c: Case): Option<SessionError> {
      if described.None? then Some(NotDescribed)
      else if !rules.isCase(c) then Some(BadCase)
      else
        match rules.inputSize(c)
        case None => Some(BadCase)
        case Some(size) => if size > described.value.maxInputBytes then Some(InputTooLarge) else None
    }
  }
}
