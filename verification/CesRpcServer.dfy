/**
  The CES RPC server of one connection: newline framing over arbitrary chunks, then a dispatcher behind a
  handshake, whose handlers settle in any order. JSON parsing and the schemas are parameters.
 */
module CesRpcServer {
  import opened Options
  import opened Text

  datatype Kind = Request | Response

  datatype Envelope = Envelope(id: string, kind: Kind, rpcMethod: string, payload: string)

  /** What a line parses to; `Rejected` covers bad JSON, invalid messages and unexpected types. */
  datatype Message = Rejected | HandshakeRequest(protocolVersion: string, sessionId: string) | Rpc(envelope: Envelope)

  datatype Code = HandshakeRequired | MethodNotFound | InvalidRequest | HandlerError

  datatype Body = Payload(payload: string) | Failure(code: Code)

  /** What the server writes. */
  datatype Out = Ack(sessionId: string, accepted: bool) | Reply(id: string, rpcMethod: string, body: Body)

  /** A handler invocation: the request it belongs to and the payload it was given. */
  datatype Call = Call(id: string, rpcMethod: string, payload: string)

  /**
    The fixed surroundings: the parser of lines, the own entries of the handler registry and of the table of
    request schemas, the property names that every plain object inherits, and the protocol version.
   */
  datatype Env = Env(
    decode: string -> Message,
    handlers: set<string>,
    schemas: map<string, string -> Option<string>>,
    inherited: set<string>,
    protocolVersion: string)

  /** How the check of a request's payload ends; `Throws` leaves the dispatcher by an exception. */
  datatype Validation = Valid(payload: string) | Invalid | Throws

  /**
    The server's fields, what it has written, and the handler invocations in starting order, of which those in
    `pending` have not settled.
   */
  datatype Server = Server(
    buffer: string,
    handshakeComplete: bool,
    sessionId: string,
    closed: bool,
    calls: seq<Call>,
    pending: set<nat>,
    output: seq<Out>)

  datatype Outcome = Resolved(payload: string) | Threw

  datatype Op = Data(chunk: string) | Settle(call: nat, outcome: Outcome) | Close

  // ----- The steps -----

  function New(): Server {
    Server("", false, "", false, [], {}, [])
  }

  function Send(s: Server, m: Out): Server {
    if s.closed then s else s.(output := s.output + [m])
  }

  function HandleHandshake(env: Env, s: Server, protocolVersion: string, sessionId: string): Server {
    if s.handshakeComplete || protocolVersion != env.protocolVersion then Send(s, Ack(sessionId, false))
    else Send(s.(handshakeComplete := true, sessionId := sessionId), Ack(sessionId, true))
  }

  /** Looking up the name in the registry finds something, be it inherited. */
  predicate Resolves(env: Env, name: string) {
    name in env.handlers || name in env.inherited
  }

  /** A name found in the schema table only by inheritance has no request schema, and calling it throws. */
  predicate SchemaBreaks(env: Env, name: string) {
    name in env.inherited && name !in env.schemas
  }

  /** The payload is checked against the schema of the method, if there is one. */
  function Validate(env: Env, name: string, payload: string): Validation {
    if name in env.schemas then
      match env.schemas[name](payload)
      case None => Invalid
      case Some(parsed) => Valid(parsed)
    else if name in env.inherited then Throws
    else Valid(payload)
  }

  function HandleRpc(env: Env, s: Server, e: Envelope): Server {
    if !s.handshakeComplete then Send(s, Reply(e.id, e.rpcMethod, Failure(HandshakeRequired)))
    else if e.kind != Request then s
    else if !Resolves(env, e.rpcMethod) then Send(s, Reply(e.id, e.rpcMethod, Failure(MethodNotFound)))
    else match Validate(env, e.rpcMethod, e.payload)
      case Throws => s
      case Invalid => Send(s, Reply(e.id, e.rpcMethod, Failure(InvalidRequest)))
      case Valid(payload) =>
        s.(calls := s.calls + [Call(e.id, e.rpcMethod, payload)], pending := s.pending + {|s.calls|})
  }

  function HandleLine(env: Env, s: Server, line: string): Server {
    match env.decode(line)
    case Rejected => s
    case HandshakeRequest(protocolVersion, sessionId) => HandleHandshake(env, s, protocolVersion, sessionId)
    case Rpc(e) => HandleRpc(env, s, e)
  }

  function HandleLines(env: Env, s: Server, lines: seq<string>): Server
    decreases |lines|
  {
    if lines == [] then s
    else HandleLine(env, HandleLines(env, s, lines[..|lines| - 1]), lines[|lines| - 1])
  }

  /** The trimmed pieces that are not empty. */
  function Handled(pieces: seq<string>): seq<string>
    decreases |pieces|
  {
    if pieces == [] then []
    else Handled(pieces[..|pieces| - 1]) + HandledPiece(pieces[|pieces| - 1])
  }

  function HandledPiece(piece: string): seq<string> {
    if Trim(piece) == "" then [] else [Trim(piece)]
  }

  /** The lines a text holds: its newline-terminated pieces, trimmed, without the empty ones. */
  function Lines(text: string): seq<string> {
    Handled(Front(Split(text, '\n')))
  }

  /** What follows the last newline. */
  function Residue(text: string): string {
    Last(Split(text, '\n'))
  }

  function Feed(env: Env, s: Server, chunk: string): Server {
    if s.closed then s
    else HandleLines(env, s.(buffer := Residue(s.buffer + chunk)), Lines(s.buffer + chunk))
  }

  function SettleCall(s: Server, call: nat, outcome: Outcome): Server {
    if call !in s.pending || call >= |s.calls| then s
    else
      var settled := s.(pending := s.pending - {call});
      Send(settled, Reply(s.calls[call].id, s.calls[call].rpcMethod,
        if outcome.Resolved? then Payload(outcome.payload) else Failure(HandlerError)))
  }

  function Step(env: Env, s: Server, op: Op): Server {
    match op
    case Data(chunk) => Feed(env, s, chunk)
    case Settle(call, outcome) => SettleCall(s, call, outcome)
    case Close => s.(closed := true)
  }

  function After(env: Env, ops: seq<Op>): Server
    decreases |ops|
  {
    if ops == [] then New() else Step(env, After(env, ops[..|ops| - 1]), ops[|ops| - 1])
  }

  // ----- What the input says by itself -----

  predicate Closed(ops: seq<Op>) {
    exists i :: 0 <= i < |ops| && ops[i].Close?
  }

  /** The characters received before the connection was closed. */
  function Received(ops: seq<Op>): string
    decreases |ops|
  {
    if ops == [] then ""
    else
      var before := ops[..|ops| - 1];
      var last := ops[|ops| - 1];
      if last.Data? && !Closed(before) then Received(before) + last.chunk else Received(before)
  }

  /** The session of the first handshake with the right version. */
  function Session(env: Env, lines: seq<string>): Option<string>
    decreases |lines|
  {
    if lines == [] then None
    else if Session(env, lines[..|lines| - 1]).Some? then Session(env, lines[..|lines| - 1])
    else Proposed(env, lines[|lines| - 1])
  }

  function Proposed(env: Env, line: string): Option<string> {
    match env.decode(line)
    case HandshakeRequest(protocolVersion, sessionId) =>
      if protocolVersion == env.protocolVersion then Some(sessionId) else None
    case _ => None
  }

  /** What a response is matched by. */
  datatype Tag = Tag(id: string, rpcMethod: string)

  /** What a line should be answered with, `open` telling whether the handshake is done. */
  function DueFor(env: Env, open: bool, line: string): multiset<Tag> {
    match env.decode(line)
    case Rpc(e) => if !open || e.kind == Request then multiset{Tag(e.id, e.rpcMethod)} else multiset{}
    case _ => multiset{}
  }

  /** The ids and methods of all the envelopes in `lines` that should be answered. */
  function Due(env: Env, lines: seq<string>): multiset<Tag>
    decreases |lines|
  {
    if lines == [] then multiset{}
    else
      var before := lines[..|lines| - 1];
      Due(env, before) + DueFor(env, Session(env, before).Some?, lines[|lines| - 1])
  }

  /** A request whose method breaks the schema lookup. */
  predicate BreaksLookup(env: Env, line: string) {
    match env.decode(line)
    case Rpc(e) => e.kind == Request && SchemaBreaks(env, e.rpcMethod)
    case _ => false
  }

  function LostFor(env: Env, open: bool, line: string): multiset<Tag> {
    if open && BreaksLookup(env, line) then DueFor(env, open, line) else multiset{}
  }

  /** The ids and methods of the requests after the handshake that break the schema lookup. */
  function Lost(env: Env, lines: seq<string>): multiset<Tag>
    decreases |lines|
  {
    if lines == [] then multiset{}
    else
      var before := lines[..|lines| - 1];
      Lost(env, before) + LostFor(env, Session(env, before).Some?, lines[|lines| - 1])
  }

  /** No request after the handshake names a method that is found in the schema table by inheritance only. */
  ghost predicate NoneBreaks(env: Env, lines: seq<string>) {
    forall i :: 0 <= i < |lines| && Session(env, lines[..i]).Some? ==> !BreaksLookup(env, lines[i])
  }

  /**
    The handler invocation a line calls for: after the handshake, a request for a method of the registry, with
    what its schema made of the payload or, without a schema, the payload itself.
   */
  function StartFor(env: Env, open: bool, line: string): seq<Call> {
    match env.decode(line)
    case Rpc(e) =>
      if !open || e.kind != Request || (e.rpcMethod !in env.handlers && e.rpcMethod !in env.inherited) then []
      else if e.rpcMethod in env.schemas then ParsedCall(e, env.schemas[e.rpcMethod](e.payload))
      else if e.rpcMethod in env.inherited then []
      else [Call(e.id, e.rpcMethod, e.payload)]
    case _ => []
  }

  function ParsedCall(e: Envelope, parsed: Option<string>): seq<Call> {
    if parsed.Some? then [Call(e.id, e.rpcMethod, parsed.value)] else []
  }

  /** The handler invocations the lines call for: the valid requests after the accepted handshake. */
  function Starts(env: Env, lines: seq<string>): seq<Call>
    decreases |lines|
  {
    if lines == [] then []
    else
      var before := lines[..|lines| - 1];
      Starts(env, before) + StartFor(env, Session(env, before).Some?, lines[|lines| - 1])
  }

  // ----- What the server wrote -----

  function RepliedIn(m: Out): multiset<Tag> {
    if m.Reply? then multiset{Tag(m.id, m.rpcMethod)} else multiset{}
  }

  function Replied(output: seq<Out>): multiset<Tag>
    decreases |output|
  {
    if output == [] then multiset{}
    else Replied(output[..|output| - 1]) + RepliedIn(output[|output| - 1])
  }

  /** The ids and methods of the first `n` calls that are still pending. */
  function Waiting(calls: seq<Call>, pending: set<nat>, n: nat): multiset<Tag>
    requires n <= |calls|
  {
    if n == 0 then multiset{}
    else if n - 1 in pending then Waiting(calls, pending, n - 1) + multiset{TagOf(calls[n - 1])}
    else Waiting(calls, pending, n - 1)
  }

  function TagOf(call: Call): Tag {
    Tag(call.id, call.rpcMethod)
  }

  function Accepts(output: seq<Out>): nat
    decreases |output|
  {
    if output == [] then 0 else Accepts(output[..|output| - 1]) + AcceptedIn(output[|output| - 1])
  }

  function AcceptedIn(m: Out): nat {
    if m.Ack? && m.accepted then 1 else 0
  }

  // ----- Framing -----

  lemma {:induction false} HandledAppend(a: seq<string>, b: seq<string>)
    ensures Handled(a + b) == Handled(a) + Handled(b)
    decreases |b|
  {
    if b == [] {
      assert a + b == a;
    } else {
      assert (a + b)[..|a + b| - 1] == a + b[..|b| - 1];
      HandledAppend(a, b[..|b| - 1]);
    }
  }

  lemma LinesAppend(a: string, b: string)
    ensures Lines(a + b) == Lines(a) + Lines(Residue(a) + b)
    ensures Residue(a + b) == Residue(Residue(a) + b)
  {
    SplitAppend(a, b, '\n');
    var first, second := Split(a, '\n'), Split(Last(Split(a, '\n')) + b, '\n');
    assert Front(Front(first) + second) == Front(first) + Front(second);
    HandledAppend(Front(first), Front(second));
  }

  lemma {:induction false} HandleLinesAppend(env: Env, s: Server, a: seq<string>, b: seq<string>)
    ensures HandleLines(env, s, a + b) == HandleLines(env, HandleLines(env, s, a), b)
    decreases |b|
  {
    if b == [] {
      assert a + b == a;
    } else {
      assert (a + b)[..|a + b| - 1] == a + b[..|b| - 1];
      HandleLinesAppend(env, s, a, b[..|b| - 1]);
    }
  }

  lemma {:induction false} BufferIsApart(env: Env, s: Server, lines: seq<string>, buffer: string)
    ensures HandleLines(env, s.(buffer := buffer), lines) == HandleLines(env, s, lines).(buffer := buffer)
    ensures HandleLines(env, s, lines).buffer == s.buffer && HandleLines(env, s, lines).closed == s.closed
    decreases |lines|
  {
    if lines != [] {
      BufferIsApart(env, s, lines[..|lines| - 1], buffer);
    }
  }

  function FeedAll(env: Env, s: Server, chunks: seq<string>): Server
    decreases |chunks|
  {
    if chunks == [] then s else Feed(env, FeedAll(env, s, chunks[..|chunks| - 1]), chunks[|chunks| - 1])
  }

  /** One chunk after another is one longer chunk. */
  lemma FeedTwice(env: Env, s: Server, a: string, b: string)
    ensures Feed(env, Feed(env, s, a), b) == Feed(env, s, a + b)
  {
    if !s.closed {
      var text := s.buffer + a;
      BufferIsApart(env, s, Lines(text), Residue(text));
      assert s.buffer + (a + b) == text + b;
      LinesAppend(text, b);
      HandleLinesAppend(env, s, Lines(text), Lines(Residue(text) + b));
      BufferIsApart(env, HandleLines(env, s, Lines(text)), Lines(Residue(text) + b), Residue(text + b));
      BufferIsApart(env, s, Lines(text + b), Residue(text + b));
    }
  }

  /** However the stream is cut into chunks, the server ends in the state of one chunk holding all of it. */
  lemma {:induction false} ChunkingIsIrrelevant(env: Env, s: Server, chunks: seq<string>)
    requires '\n' !in s.buffer
    ensures FeedAll(env, s, chunks) == Feed(env, s, Concat(chunks))
    decreases |chunks|
  {
    if chunks == [] {
      SplitNone(s.buffer, '\n');
      assert s.buffer + "" == s.buffer;
    } else {
      ChunkingIsIrrelevant(env, s, chunks[..|chunks| - 1]);
      FeedTwice(env, s, Concat(chunks[..|chunks| - 1]), chunks[|chunks| - 1]);
    }
  }

  // ----- The protocol, over all runs -----

  /** The state against the lines handled so far. */
  ghost predicate Faithful(env: Env, s: Server, lines: seq<string>) {
    && s.handshakeComplete == Session(env, lines).Some?
    && (s.handshakeComplete ==> s.sessionId == Session(env, lines).value)
    && s.calls == Starts(env, lines)
    && (forall c :: c in s.pending ==> c < |s.calls|)
    && (!s.closed ==>
          Replied(s.output) + Waiting(s.calls, s.pending, |s.calls|) + Lost(env, lines) == Due(env, lines))
    && (!s.closed ==> Accepts(s.output) == if s.handshakeComplete then 1 else 0)
    && Accepts(s.output) <= if s.handshakeComplete then 1 else 0
  }

  lemma OutputAppend(output: seq<Out>, m: Out)
    ensures Replied(output + [m]) == Replied(output) + RepliedIn(m)
    ensures Accepts(output + [m]) == Accepts(output) + AcceptedIn(m)
  {
    assert (output + [m])[..|output|] == output;
  }

  lemma {:induction false} WaitingExtends(calls: seq<Call>, more: seq<Call>, pending: set<nat>, pending': set<nat>, n: nat)
    requires n <= |calls|
    requires forall c: nat :: c < n ==> (c in pending <==> c in pending')
    ensures Waiting(calls + more, pending', n) == Waiting(calls, pending, n)
  {
    if n > 0 {
      WaitingExtends(calls, more, pending, pending', n - 1);
    }
  }

  lemma {:induction false} WaitingSettles(calls: seq<Call>, pending: set<nat>, call: nat, n: nat)
    requires n <= |calls| && call in pending && call < n
    ensures Waiting(calls, pending, n) == Waiting(calls, pending - {call}, n) + multiset{TagOf(calls[call])}
  {
    hide TagOf;
    if call < n - 1 {
      WaitingSettles(calls, pending, call, n - 1);
    } else {
      WaitingExtends(calls, [], pending, pending - {call}, n - 1);
      assert calls + [] == calls;
    }
  }

  lemma HistoryAppend(env: Env, lines: seq<string>, line: string)
    ensures Session(env, lines + [line]) == if Session(env, lines).Some? then Session(env, lines) else Proposed(env, line)
    ensures Due(env, lines + [line]) == Due(env, lines) + DueFor(env, Session(env, lines).Some?, line)
    ensures Lost(env, lines + [line]) == Lost(env, lines) + LostFor(env, Session(env, lines).Some?, line)
    ensures Starts(env, lines + [line]) == Starts(env, lines) + StartFor(env, Session(env, lines).Some?, line)
  {
    assert (lines + [line])[..|lines|] == lines;
  }

  /** A line that neither starts a handler nor opens a session, and is answered by `m` or by nothing. */
  lemma AnswerKeeps(env: Env, s: Server, lines: seq<string>, line: string, answer: Option<Out>)
    requires Faithful(env, s, lines) && !s.closed
    requires s.handshakeComplete || Proposed(env, line) == None
    requires StartFor(env, s.handshakeComplete, line) == []
    requires DueFor(env, s.handshakeComplete, line)
          == LostFor(env, s.handshakeComplete, line) + if answer.Some? then RepliedIn(answer.value) else multiset{}
    requires answer.Some? ==> AcceptedIn(answer.value) == 0
    ensures Faithful(env, if answer.Some? then Send(s, answer.value) else s, lines + [line])
  {
    hide Session, Due, Lost, Starts, DueFor, LostFor, StartFor, Proposed, Replied, Accepts, Waiting, RepliedIn;
    HistoryAppend(env, lines, line);
    if answer.Some? {
      OutputAppend(s.output, answer.value);
    }
  }

  lemma HandshakeKeeps(env: Env, s: Server, lines: seq<string>, line: string, version: string, sessionId: string)
    requires Faithful(env, s, lines) && !s.closed && env.decode(line) == HandshakeRequest(version, sessionId)
    ensures Faithful(env, HandleHandshake(env, s, version, sessionId), lines + [line])
  {
    hide Faithful;
    if s.handshakeComplete || version != env.protocolVersion {
      AnswerKeeps(env, s, lines, line, Some(Ack(sessionId, false)));
    } else {
      AcceptKeeps(env, s, lines, line, sessionId);
    }
  }

  lemma AcceptKeeps(env: Env, s: Server, lines: seq<string>, line: string, sessionId: string)
    requires Faithful(env, s, lines) && !s.closed && !s.handshakeComplete
    requires Proposed(env, line) == Some(sessionId)
    ensures Faithful(env, Send(s.(handshakeComplete := true, sessionId := sessionId), Ack(sessionId, true)), lines + [line])
  {
    hide Session, Due, Lost, Starts, Replied, Accepts, Waiting;
    HistoryAppend(env, lines, line);
    OutputAppend(s.output, Ack(sessionId, true));
  }

  lemma StartKeeps(env: Env, s: Server, lines: seq<string>, line: string, call: Call)
    requires Faithful(env, s, lines) && !s.closed && s.handshakeComplete
    requires StartFor(env, true, line) == [call] && DueFor(env, true, line) == multiset{TagOf(call)}
    requires LostFor(env, true, line) == multiset{}
    ensures Faithful(env, s.(calls := s.calls + [call], pending := s.pending + {|s.calls|}), lines + [line])
  {
    hide Session, Due, Lost, Starts, Replied, Accepts, DueFor, LostFor, StartFor;
    HistoryAppend(env, lines, line);
    WaitingExtends(s.calls, [call], s.pending, s.pending + {|s.calls|}, |s.calls|);
  }

  lemma RpcKeeps(env: Env, s: Server, lines: seq<string>, line: string, e: Envelope)
    requires Faithful(env, s, lines) && !s.closed && env.decode(line) == Rpc(e)
    ensures Faithful(env, HandleRpc(env, s, e), lines + [line])
  {
    hide Faithful, Session, Due, Lost, Starts;
    if !s.handshakeComplete {
      AnswerKeeps(env, s, lines, line, Some(Reply(e.id, e.rpcMethod, Failure(HandshakeRequired))));
    } else if e.kind != Request {
      AnswerKeeps(env, s, lines, line, None);
    } else if !Resolves(env, e.rpcMethod) {
      AnswerKeeps(env, s, lines, line, Some(Reply(e.id, e.rpcMethod, Failure(MethodNotFound))));
    } else if Validate(env, e.rpcMethod, e.payload).Throws? {
      AnswerKeeps(env, s, lines, line, None);
    } else if Validate(env, e.rpcMethod, e.payload).Invalid? {
      AnswerKeeps(env, s, lines, line, Some(Reply(e.id, e.rpcMethod, Failure(InvalidRequest))));
    } else {
      StartKeeps(env, s, lines, line, Call(e.id, e.rpcMethod, Validate(env, e.rpcMethod, e.payload).payload));
    }
  }

  lemma LineKeeps(env: Env, s: Server, lines: seq<string>, line: string)
    requires Faithful(env, s, lines) && !s.closed
    ensures Faithful(env, HandleLine(env, s, line), lines + [line]) && !HandleLine(env, s, line).closed
  {
    hide Faithful;
    match env.decode(line)
    case Rejected => AnswerKeeps(env, s, lines, line, None);
    case HandshakeRequest(version, sessionId) => HandshakeKeeps(env, s, lines, line, version, sessionId);
    case Rpc(e) => RpcKeeps(env, s, lines, line, e);
  }

  lemma {:induction false} LinesKeep(env: Env, s: Server, lines: seq<string>, more: seq<string>)
    requires Faithful(env, s, lines) && !s.closed
    ensures Faithful(env, HandleLines(env, s, more), lines + more) && !HandleLines(env, s, more).closed
    decreases |more|
  {
    hide Faithful, HandleLine;
    if more == [] {
      assert lines + more == lines;
    } else {
      var n := |more| - 1;
      LinesKeep(env, s, lines, more[..n]);
      LineKeeps(env, HandleLines(env, s, more[..n]), lines + more[..n], more[n]);
      assert lines + more[..n] + [more[n]] == lines + more;
    }
  }

  lemma SettleKeeps(env: Env, s: Server, lines: seq<string>, call: nat, outcome: Outcome)
    requires Faithful(env, s, lines)
    ensures Faithful(env, SettleCall(s, call, outcome), lines)
  {
    hide Session, Due, Lost, Starts, Replied, Accepts, Waiting;
    if call in s.pending {
      WaitingSettles(s.calls, s.pending, call, |s.calls|);
      OutputAppend(s.output, Reply(s.calls[call].id, s.calls[call].rpcMethod,
        if outcome.Resolved? then Payload(outcome.payload) else Failure(HandlerError)));
    }
  }

  lemma FeedKeeps(env: Env, s: Server, text: string, chunk: string)
    requires Faithful(env, s, Lines(text)) && !s.closed && s.buffer == Residue(text)
    ensures Faithful(env, Feed(env, s, chunk), Lines(text + chunk))
    ensures !Feed(env, s, chunk).closed && Feed(env, s, chunk).buffer == Residue(text + chunk)
  {
    hide Lines, Residue, HandleLines, Session, Due, Lost, Starts, Replied, Accepts, Waiting;
    var more := Lines(s.buffer + chunk);
    LinesAppend(text, chunk);
    LinesKeep(env, s, Lines(text), more);
    BufferIsApart(env, s, more, Residue(s.buffer + chunk));
  }

  lemma CloseKeeps(env: Env, s: Server, lines: seq<string>)
    requires Faithful(env, s, lines)
    ensures Faithful(env, s.(closed := true), lines)
  {
  }

  lemma ClosedAppend(before: seq<Op>, last: Op)
    ensures Closed(before + [last]) == (Closed(before) || last.Close?)
  {
    var ops := before + [last];
    if Closed(before) {
      var i :| 0 <= i < |before| && before[i].Close?;
      assert ops[i].Close?;
    }
    if last.Close? {
      assert ops[|before|].Close?;
    }
  }

  /** In every run: the state is what the received characters and the settled calls make it. */
  lemma {:induction false} RunIsFaithful(env: Env, ops: seq<Op>)
    ensures Faithful(env, After(env, ops), Lines(Received(ops)))
    ensures After(env, ops).closed == Closed(ops)
    ensures After(env, ops).buffer == Residue(Received(ops))
    decreases |ops|
  {
    if ops == [] {
      NewIsFaithful(env);
    } else {
      hide Faithful, Lines, Residue, Feed, Closed;
      var before := ops[..|ops| - 1];
      var last := ops[|ops| - 1];
      var s := After(env, before);
      assert ops == before + [last];
      RunIsFaithful(env, before);
      ClosedAppend(before, last);
      match last
      case Data(chunk) =>
        if !s.closed {
          FeedKeeps(env, s, Received(before), chunk);
        } else {
          ClosedIgnoresData(env, s, chunk);
        }
      case Settle(call, outcome) => SettleKeeps(env, s, Lines(Received(before)), call, outcome);
      case Close => CloseKeeps(env, s, Lines(Received(before)));
    }
  }

  lemma ClosedIgnoresData(env: Env, s: Server, chunk: string)
    requires s.closed
    ensures Feed(env, s, chunk) == s
  {
  }

  lemma NewIsFaithful(env: Env)
    ensures Faithful(env, New(), Lines("")) && Residue("") == ""
  {
    assert Split("", '\n') == [""];
  }

  // ----- The results -----

  /**
    Framing: the lines handled and the buffer left are those of the whole received text, however it came in
    chunks and whatever settled in between.
   */
  lemma HandlersFollowTheText(env: Env, ops: seq<Op>)
    ensures After(env, ops).calls == Starts(env, Lines(Received(ops)))
    ensures After(env, ops).buffer == Residue(Received(ops))
    ensures '\n' !in After(env, ops).buffer
  {
    RunIsFaithful(env, ops);
    SplitPieces(Received(ops), '\n');
  }

  /** No handler starts before the accepted handshake. */
  lemma NoHandlerBeforeHandshake(env: Env, ops: seq<Op>)
    ensures After(env, ops).calls != [] ==> After(env, ops).handshakeComplete
  {
    RunIsFaithful(env, ops);
    NoSessionNoStarts(env, Lines(Received(ops)));
  }

  lemma {:induction false} NoSessionNoStarts(env: Env, lines: seq<string>)
    ensures Session(env, lines).None? ==> Starts(env, lines) == []
    decreases |lines|
  {
    if lines != [] {
      NoSessionNoStarts(env, lines[..|lines| - 1]);
    }
  }

  /** At most one handshake is ever accepted. */
  lemma OneHandshake(env: Env, ops: seq<Op>)
    ensures Accepts(After(env, ops).output) <= 1
    ensures After(env, ops).handshakeComplete && !Closed(ops) ==> Accepts(After(env, ops).output) == 1
  {
    RunIsFaithful(env, ops);
  }

  lemma {:induction false} SessionStays(env: Env, lines: seq<string>, more: seq<string>)
    ensures Session(env, lines).Some? ==> Session(env, lines + more) == Session(env, lines)
    decreases |more|
  {
    if more == [] {
      assert lines + more == lines;
    } else {
      assert (lines + more)[..|lines + more| - 1] == lines + more[..|more| - 1];
      SessionStays(env, lines, more[..|more| - 1]);
    }
  }

  lemma {:induction false} ReceivedGrows(ops: seq<Op>, more: seq<Op>)
    ensures exists rest :: Received(ops + more) == Received(ops) + rest
    decreases |more|
  {
    if more == [] {
      assert ops + more == ops;
      assert Received(ops + more) == Received(ops) + "";
    } else {
      var before := ops + more[..|more| - 1];
      assert (ops + more)[..|ops + more| - 1] == before;
      ReceivedGrows(ops, more[..|more| - 1]);
      var rest :| Received(before) == Received(ops) + rest;
      var last := more[|more| - 1];
      if last.Data? {
        assert Received(ops) + rest + last.chunk == Received(ops) + (rest + last.chunk);
      }
    }
  }

  /** The session id, once set by a handshake, never changes. */
  lemma SessionIsFixed(env: Env, ops: seq<Op>, more: seq<Op>)
    requires After(env, ops).handshakeComplete
    ensures After(env, ops + more).handshakeComplete && After(env, ops + more).sessionId == After(env, ops).sessionId
  {
    hide Lines;
    RunIsFaithful(env, ops);
    RunIsFaithful(env, ops + more);
    ReceivedGrows(ops, more);
    var rest :| Received(ops + more) == Received(ops) + rest;
    LinesAppend(Received(ops), rest);
    SessionStays(env, Lines(Received(ops)), Lines(Residue(Received(ops)) + rest));
  }

  lemma {:induction false} NothingLost(env: Env, lines: seq<string>)
    ensures Lost(env, lines) == multiset{} <==> NoneBreaks(env, lines)
    decreases |lines|
  {
    if lines != [] {
      hide Lost, NoneBreaks, BreaksLookup, DueFor, LostFor;
      var n := |lines| - 1;
      NothingLost(env, lines[..n]);
      assert lines[..n] + [lines[n]] == lines;
      HistoryAppend(env, lines[..n], lines[n]);
      BreaksAppend(env, lines[..n], lines[n]);
      LostForIsEmpty(env, Session(env, lines[..n]).Some?, lines[n]);
    }
  }

  lemma BreaksAppend(env: Env, lines: seq<string>, line: string)
    ensures NoneBreaks(env, lines + [line])
       <==> NoneBreaks(env, lines) && (Session(env, lines).Some? ==> !BreaksLookup(env, line))
  {
    hide Session, BreaksLookup;
    var longer := lines + [line];
    assert longer[..|lines|] == lines && longer[|lines|] == line;
    forall i | 0 <= i < |lines| ensures longer[..i] == lines[..i] && longer[i] == lines[i] {
    }
  }

  lemma LostForIsEmpty(env: Env, open: bool, line: string)
    ensures LostFor(env, open, line) == multiset{} <==> !(open && BreaksLookup(env, line))
  {
    if open && BreaksLookup(env, line) {
      var e := env.decode(line).envelope;
      assert Tag(e.id, e.rpcMethod) in DueFor(env, open, line);
    }
  }

  /** The tags answered and those that still wait for their handler. */
  function Answered(s: Server): multiset<Tag> {
    Replied(s.output) + Waiting(s.calls, s.pending, |s.calls|)
  }

  /**
    On an open connection what has been answered, and what still waits for its handler, is exactly what is due
    without what is lost: one answer, with the id and method it came with, for each request after the handshake
    that does not break the schema lookup and for each envelope before it; none for a response; and never two.
   */
  lemma AnswersWithoutLost(env: Env, ops: seq<Op>)
    requires !Closed(ops)
    ensures var lines := Lines(Received(ops));
      && Answered(After(env, ops)) == Due(env, lines) - Lost(env, lines)
      && Lost(env, lines) <= Due(env, lines)
      && Answered(After(env, ops)) <= Due(env, lines)
  {
    hide Lines, Due, Lost, Replied, Waiting;
    RunIsFaithful(env, ops);
  }

  /**
    Everything that is due is answered or waits for its handler if and only if no request after the handshake
    names a method that plain objects inherit and the schema table does not have itself.
   */
  lemma AnswersAreExact(env: Env, ops: seq<Op>)
    requires !Closed(ops)
    ensures Answered(After(env, ops)) == Due(env, Lines(Received(ops))) <==> NoneBreaks(env, Lines(Received(ops)))
  {
    hide Lines, Due, Lost, Replied, Waiting, NoneBreaks;
    RunIsFaithful(env, ops);
    NothingLost(env, Lines(Received(ops)));
  }

  /** When every handler has settled, everything that is due has been answered, under exactly that condition. */
  lemma AllSettledAllAnswered(env: Env, ops: seq<Op>)
    requires !Closed(ops) && After(env, ops).pending == {}
    ensures Replied(After(env, ops).output) == Due(env, Lines(Received(ops))) <==> NoneBreaks(env, Lines(Received(ops)))
  {
    hide Lines, Due, Replied, NoneBreaks;
    AnswersAreExact(env, ops);
    NothingWaits(After(env, ops).calls, |After(env, ops).calls|);
  }

  /** A server without handlers and schemas whose registry inherits `toString`. */
  function Bare(): Env {
    Env(DecodeBare, {}, map[], {"toString"}, "1")
  }

  function DecodeBare(line: string): Message {
    if line == "h" then HandshakeRequest("1", "s")
    else if line == "r" then Rpc(Envelope("7", Request, "toString", "{}"))
    else Rejected
  }

  /** On an open session such a request changes nothing, though an answer is due. */
  lemma BreakingLineIsIgnored(env: Env, s: Server, line: string)
    requires s.handshakeComplete && BreaksLookup(env, line)
    ensures HandleLine(env, s, line) == s && DueFor(env, true, line) != multiset{}
  {
    LostForIsEmpty(env, true, line);
  }

  /** A request for `toString` after the handshake starts no handler and gets no answer. */
  lemma InheritedMethodIsLost()
    ensures After(Bare(), [Data("h\nr\n")]) == Server("", true, "s", false, [], {}, [Ack("s", true)])
    ensures Due(Bare(), Lines(Received([Data("h\nr\n")]))) == multiset{Tag("7", "toString")}
  {
    hide *;
    var ready := Server("", true, "s", false, [], {}, [Ack("s", true)]);
    assert ["h"] + ["r"] == ["h", "r"] && [] + ["h"] == ["h"];
    assert Lines("h\nr\n") == ["h", "r"] && Residue("h\nr\n") == "" by { BareLines(); }
    assert After(Bare(), [Data("h\nr\n")]) == HandleLines(Bare(), New(), ["h", "r"])
        && Received([Data("h\nr\n")]) == "h\nr\n" by {
      FirstData(Bare(), "h\nr\n");
      BufferIsApart(Bare(), New(), ["h", "r"], "");
      NewBuffer();
    }
    HandleLinesAppend(Bare(), New(), ["h"], ["r"]);
    HandlesOne(Bare(), New(), "h");
    HandlesOne(Bare(), ready, "r");
    assert HandleLine(Bare(), New(), "h") == ready by { BareHandshake(); }
    assert BreaksLookup(Bare(), "r") && DueFor(Bare(), true, "r") == multiset{Tag("7", "toString")} by { BareRequest(); }
    BreakingLineIsIgnored(Bare(), ready, "r");
    HistoryAppend(Bare(), [], "h");
    HistoryAppend(Bare(), ["h"], "r");
    BareHistory();
  }

  lemma BareLines()
    ensures Lines("h\nr\n") == ["h", "r"] && Residue("h\nr\n") == ""
  {
    hide Lines, Residue;
    TwoLines("h", "r");
    assert "h" + "\n" + "r" + "\n" == "h\nr\n";
  }

  lemma BareHandshake()
    ensures HandleLine(Bare(), New(), "h") == Server("", true, "s", false, [], {}, [Ack("s", true)])
  {
  }

  lemma BareRequest()
    ensures BreaksLookup(Bare(), "r") && DueFor(Bare(), true, "r") == multiset{Tag("7", "toString")}
  {
    assert "r" != "h";
  }

  lemma BareHistory()
    ensures Session(Bare(), []) == None && Due(Bare(), []) == multiset{}
    ensures Proposed(Bare(), "h") == Some("s") && DueFor(Bare(), false, "h") == multiset{}
  {
  }

  lemma NewBuffer()
    ensures New().buffer == "" && New().(buffer := "") == New()
  {
  }

  lemma FirstData(env: Env, chunk: string)
    ensures After(env, [Data(chunk)]) == HandleLines(env, New().(buffer := Residue(chunk)), Lines(chunk))
    ensures Received([Data(chunk)]) == chunk
  {
    hide HandleLines, Residue, Lines;
    assert [Data(chunk)][..0] == [];
    assert "" + chunk == chunk;
  }

  /** Two lines without white space and what they leave. */
  lemma TwoLines(a: string, b: string)
    requires |a| == 1 && |b| == 1 && !IsSpace(a[0]) && !IsSpace(b[0])
    ensures Lines(a + "\n" + b + "\n") == [a, b] && Residue(a + "\n" + b + "\n") == ""
  {
    hide Split, Handled, Trim;
    assert a + "\n" + b + "\n" == a + ['\n'] + (b + ['\n'] + "");
    SplitFirst(a, b + ['\n'] + "", '\n');
    SplitFirst(b, "", '\n');
    SplitNone("", '\n');
    assert Split(a + "\n" + b + "\n", '\n') == [a, b, ""];
    assert Front([a, b, ""]) == [a] + [b];
    HandledAppend([a], [b]);
    HandledAlone(a);
    HandledAlone(b);
    TrimOne(a);
    TrimOne(b);
  }

  lemma TrimOne(a: string)
    requires |a| == 1 && !IsSpace(a[0])
    ensures Trim(a) == a
  {
  }

  lemma {:induction false} NothingWaits(calls: seq<Call>, n: nat)
    requires n <= |calls|
    ensures Waiting(calls, {}, n) == multiset{}
  {
    if n > 0 {
      NothingWaits(calls, n - 1);
    }
  }

  /** A handler that settles on an open connection is answered with its own result, once. */
  lemma SettlingAnswersOwnRequest(env: Env, ops: seq<Op>, call: nat, outcome: Outcome)
    requires call in After(env, ops).pending && !Closed(ops)
    ensures var s, s' := After(env, ops), After(env, ops + [Settle(call, outcome)]);
      && call < |s.calls| && call !in s'.pending
      && s'.output == s.output + [Reply(s.calls[call].id, s.calls[call].rpcMethod,
           if outcome.Resolved? then Payload(outcome.payload) else Failure(HandlerError))]
  {
    RunIsFaithful(env, ops);
    assert (ops + [Settle(call, outcome)])[..|ops|] == ops;
  }

  /** Nothing is written after the connection is closed. */
  lemma {:induction false} SilentAfterClose(env: Env, ops: seq<Op>, more: seq<Op>)
    requires Closed(ops)
    ensures After(env, ops + more).output == After(env, ops).output && After(env, ops + more).closed
    decreases |more|
  {
    if more == [] {
      assert ops + more == ops;
      RunIsFaithful(env, ops);
    } else {
      hide Faithful, Closed;
      assert (ops + more)[..|ops + more| - 1] == ops + more[..|more| - 1];
      SilentAfterClose(env, ops, more[..|more| - 1]);
    }
  }

  lemma HandlesNothing(env: Env, s: Server)
    ensures HandleLines(env, s, Handled([])) == s
  {
  }

  /** One round of the buffer loop: the piece before the first newline is cut off and handled. */
  lemma PieceIsHandled(env: Env, s: Server, done: seq<string>, buffer: string, n: nat)
    requires n == IndexOf(buffer, '\n') && n < |buffer|
    ensures done + Split(buffer, '\n') == done + [buffer[..n]] + Split(buffer[n + 1..], '\n')
    ensures var line, rest := Trim(buffer[..n]), buffer[n + 1..];
      var before := HandleLines(env, s, Handled(done)).(buffer := rest);
      HandleLines(env, s, Handled(done + [buffer[..n]])).(buffer := rest)
      == if line == "" then before else HandleLine(env, before, line)
  {
    hide Trim, Split, HandleLine, HandleLines, Handled;
    var piece, rest := buffer[..n], buffer[n + 1..];
    assert buffer == piece + ['\n'] + rest;
    SplitFirst(piece, rest, '\n');
    HandledAppend(done, [piece]);
    HandledAlone(piece);
    HandleLinesAppend(env, s, Handled(done), HandledPiece(piece));
    BufferIsApart(env, HandleLines(env, s, Handled(done)), HandledPiece(piece), rest);
    HandlesOne(env, HandleLines(env, s, Handled(done)).(buffer := rest), Trim(piece));
  }

  lemma HandledAlone(piece: string)
    ensures Handled([piece]) == HandledPiece(piece)
  {
    assert [piece][..0] == [];
  }

  lemma HandlesOne(env: Env, s: Server, line: string)
    ensures HandleLines(env, s, [line]) == HandleLine(env, s, line)
    ensures HandleLines(env, s, []) == s
  {
    assert [line][..0] == [];
  }

  // ----- The object -----

  class CesRpcServer {
    const env: Env
    var buffer: string
    var handshakeComplete: bool
    var sessionId: string
    var closed: bool
    var calls: seq<Call>
    var pending: set<nat>
    var output: seq<Out>

    function Model(): Server
      reads this
    {
      Server(buffer, handshakeComplete, sessionId, closed, calls, pending, output)
    }

    constructor (env: Env)
      ensures Model() == New() && this.env == env
    {
      this.env := env;
      buffer, handshakeComplete, sessionId, closed := "", false, "", false;
      calls, pending, output := [], {}, [];
    }

    method OnData(chunk: string)
      modifies this
      ensures Model() == Step(env, old(Model()), Data(chunk))
    {
      if closed {
        return;
      }
      buffer := buffer + chunk;
      ProcessBuffer();
    }

    method ProcessBuffer()
      modifies this
      ensures Model() == HandleLines(env, old(Model()).(buffer := Residue(old(buffer))), Lines(old(buffer)))
    {
      hide HandleLine, HandleLines, Split, Handled, IsSpace;
      ghost var was := Model();
      ghost var text := buffer;
      ghost var done: seq<string> := [];
      var newlineIdx := IndexOf(buffer, '\n');
      HandlesNothing(env, was);
      while newlineIdx < |buffer|
        invariant newlineIdx == IndexOf(buffer, '\n')
        invariant Split(text, '\n') == done + Split(buffer, '\n')
        invariant Model() == HandleLines(env, was, Handled(done)).(buffer := buffer)
        decreases |buffer|
      {
        PieceIsHandled(env, was, done, buffer, newlineIdx);
        var line := Trim(buffer[..newlineIdx]);
        done := done + [buffer[..newlineIdx]];
        buffer := buffer[newlineIdx + 1..];
        if |line| != 0 {
          ProcessLine(line);
        }
        newlineIdx := IndexOf(buffer, '\n');
      }
      SplitNone(buffer, '\n');
      assert Front(Split(text, '\n')) == done;
      BufferIsApart(env, was, Handled(done), buffer);
    }

    /** `handleLine` in the source. */
    method ProcessLine(line: string)
      modifies this
      ensures Model() == HandleLine(env, old(Model()), line)
    {
      match env.decode(line)
      case Rejected =>
      case HandshakeRequest(protocolVersion, requested) =>
        if handshakeComplete {
          SendMessage(Ack(requested, false));
          return;
        }
        var accepted := protocolVersion == env.protocolVersion;
        if accepted {
          handshakeComplete := true;
          sessionId := requested;
        }
        SendMessage(Ack(requested, accepted));
      case Rpc(envelope) => ProcessEnvelope(envelope);
    }

    /** `handleRpcEnvelope` in the source, up to the handler's first await. */
    method ProcessEnvelope(e: Envelope)
      modifies this
      ensures Model() == HandleRpc(env, old(Model()), e)
    {
      if !handshakeComplete {
        SendMessage(Reply(e.id, e.rpcMethod, Failure(HandshakeRequired)));
        return;
      }
      if e.kind != Request {
        return;
      }
      if !Resolves(env, e.rpcMethod) {
        SendMessage(Reply(e.id, e.rpcMethod, Failure(MethodNotFound)));
        return;
      }
      var validatedPayload := e.payload;
      if e.rpcMethod in env.schemas {
        var parsed := env.schemas[e.rpcMethod](e.payload);
        if parsed.None? {
          SendMessage(Reply(e.id, e.rpcMethod, Failure(InvalidRequest)));
          return;
        }
        validatedPayload := parsed.value;
      } else if e.rpcMethod in env.inherited {
        return; // the inherited property has no request schema: an exception, which is only logged
      }
      pending := pending + {|calls|};
      calls := calls + [Call(e.id, e.rpcMethod, validatedPayload)];
    }

    method OnHandlerSettled(call: nat, outcome: Outcome)
      requires call in pending && call < |calls|
      modifies this
      ensures Model() == Step(env, old(Model()), Settle(call, outcome))
    {
      pending := pending - {call};
      var request := calls[call];
      match outcome
      case Resolved(payload) => SendMessage(Reply(request.id, request.rpcMethod, Payload(payload)));
      case Threw => SendMessage(Reply(request.id, request.rpcMethod, Failure(HandlerError)));
    }

    method SendMessage(m: Out)
      modifies this`output
      ensures Model() == Send(old(Model()), m)
    {
      if closed {
        return;
      }
      output := output + [m];
    }

    method CloseConnection()
      modifies this
      ensures Model() == Step(env, old(Model()), Close)
    {
      if closed {
        return;
      }
      closed := true;
    }
  }
}
