/** Every message the CES RPC server writes, read off the received text and the settled calls. */
module CesRpcAnswers {
  import opened Options
  import opened Text
  import opened CesRpcServer

  // ----- What should be written -----

  /** The message that refuses or acknowledges a line at once, `open` telling whether the handshake is done. */
  function AnswerTo(env: Env, open: bool, line: string): seq<Out> {
    match env.decode(line)
    case Rejected => []
    case HandshakeRequest(protocolVersion, sessionId) => [Ack(sessionId, !open && protocolVersion == env.protocolVersion)]
    case Rpc(e) =>
      if !open then [Reply(e.id, e.rpcMethod, Failure(HandshakeRequired))]
      else if e.kind != Request then []
      else if e.rpcMethod !in env.handlers + env.inherited then [Reply(e.id, e.rpcMethod, Failure(MethodNotFound))]
      else if e.rpcMethod in env.schemas && env.schemas[e.rpcMethod](e.payload) == None
      then [Reply(e.id, e.rpcMethod, Failure(InvalidRequest))]
      else []
  }

  /** The messages for `more`, received after `lines`. */
  function Answers(env: Env, lines: seq<string>, more: seq<string>): seq<Out>
    decreases |more|
  {
    if more == [] then []
    else
      var before := more[..|more| - 1];
      Answers(env, lines, before) + AnswerTo(env, Session(env, lines + before).Some?, more[|more| - 1])
  }

  /** The handler invocations the text received so far calls for. */
  function Started(env: Env, ops: seq<Op>): seq<Call> {
    Starts(env, Lines(Received(ops)))
  }

  /** The calls that have settled: only one that was started can settle. */
  function Settled(env: Env, ops: seq<Op>): set<nat>
    decreases |ops|
  {
    if ops == [] then {}
    else
      var before := ops[..|ops| - 1];
      var last := ops[|ops| - 1];
      Settled(env, before) + if last.Settle? && last.call < |Started(env, before)| then {last.call} else {}
  }

  predicate Waits(env: Env, ops: seq<Op>, call: nat) {
    call < |Started(env, ops)| && call !in Settled(env, ops)
  }

  /** What a handler's outcome is answered with. */
  function ResultOf(call: Call, outcome: Outcome): Out {
    match outcome
    case Resolved(payload) => Reply(call.id, call.rpcMethod, Payload(payload))
    case Threw => Reply(call.id, call.rpcMethod, Failure(HandlerError))
  }

  /** What `last` makes the server write after `before`. */
  function WrittenBy(env: Env, before: seq<Op>, last: Op): seq<Out> {
    match last
    case Data(chunk) => Answers(env, Lines(Received(before)), Lines(Residue(Received(before)) + chunk))
    case Settle(call, outcome) => ResultFor(env, before, call, outcome)
    case Close => []
  }

  function ResultFor(env: Env, before: seq<Op>, call: nat, outcome: Outcome): seq<Out> {
    if Waits(env, before, call) then [ResultOf(Started(env, before)[call], outcome)] else []
  }

  function Written(env: Env, ops: seq<Op>): seq<Out>
    decreases |ops|
  {
    if ops == [] then [] else Written(env, ops[..|ops| - 1]) + WrittenBy(env, ops[..|ops| - 1], ops[|ops| - 1])
  }

  /** The results of the handlers, in the order they settled. */
  function Results(env: Env, ops: seq<Op>): seq<Out>
    decreases |ops|
  {
    if ops == [] then []
    else
      var before := ops[..|ops| - 1];
      var last := ops[|ops| - 1];
      Results(env, before) + if last.Settle? then ResultFor(env, before, last.call, last.outcome) else []
  }

  // ----- It is what is written -----

  lemma LineAnswers(env: Env, s: Server, line: string)
    requires !s.closed
    ensures HandleLine(env, s, line).output == s.output + AnswerTo(env, s.handshakeComplete, line)
  {
  }

  lemma {:induction false} LinesAnswer(env: Env, s: Server, lines: seq<string>, more: seq<string>)
    requires Faithful(env, s, lines) && !s.closed
    ensures HandleLines(env, s, more).output == s.output + Answers(env, lines, more)
    decreases |more|
  {
    hide Faithful, HandleLine, AnswerTo, Session;
    if more != [] {
      var before := more[..|more| - 1];
      LinesAnswer(env, s, lines, before);
      LinesKeep(env, s, lines, before);
      LineAnswers(env, HandleLines(env, s, before), more[|more| - 1]);
      FaithfulSession(env, HandleLines(env, s, before), lines + before);
    }
  }

  lemma FaithfulSession(env: Env, s: Server, lines: seq<string>)
    requires Faithful(env, s, lines)
    ensures s.handshakeComplete == Session(env, lines).Some? && s.calls == Starts(env, lines)
    ensures forall c :: c in s.pending ==> c < |s.calls|
  {
  }

  lemma DataWrites(env: Env, s: Server, text: string, chunk: string)
    requires Faithful(env, s, Lines(text)) && !s.closed && s.buffer == Residue(text)
    ensures Feed(env, s, chunk).output == s.output + Answers(env, Lines(text), Lines(Residue(text) + chunk))
  {
    hide Faithful, Lines, Residue, HandleLines, Answers;
    var more := Lines(s.buffer + chunk);
    LinesAnswer(env, s, Lines(text), more);
    BufferIsApart(env, s, more, Residue(s.buffer + chunk));
  }

  lemma LastOp(env: Env, ops: seq<Op>)
    requires ops != []
    ensures After(env, ops) == Step(env, After(env, ops[..|ops| - 1]), ops[|ops| - 1])
  {
    hide Step;
  }

  lemma ClosedBefore(ops: seq<Op>)
    requires ops != []
    ensures Closed(ops) <==> Closed(ops[..|ops| - 1]) || ops[|ops| - 1].Close?
  {
    hide Closed;
    assert ops == ops[..|ops| - 1] + [ops[|ops| - 1]];
    ClosedAppend(ops[..|ops| - 1], ops[|ops| - 1]);
  }

  lemma {:induction false} MoreLinesMoreStarts(env: Env, lines: seq<string>, more: seq<string>)
    ensures |Starts(env, lines)| <= |Starts(env, lines + more)|
    decreases |more|
  {
    hide StartFor;
    if more == [] {
      assert lines + more == lines;
    } else {
      assert (lines + more)[..|lines + more| - 1] == lines + more[..|more| - 1];
      MoreLinesMoreStarts(env, lines, more[..|more| - 1]);
    }
  }

  lemma StartedGrows(env: Env, ops: seq<Op>)
    requires ops != []
    ensures |Started(env, ops[..|ops| - 1])| <= |Started(env, ops)|
    ensures !ops[|ops| - 1].Data? || Closed(ops[..|ops| - 1]) ==> Started(env, ops) == Started(env, ops[..|ops| - 1])
  {
    hide Lines, Starts, Residue, Closed;
    var before, last := ops[..|ops| - 1], ops[|ops| - 1];
    if last.Data? && !Closed(before) {
      LinesAppend(Received(before), last.chunk);
      MoreLinesMoreStarts(env, Lines(Received(before)), Lines(Residue(Received(before)) + last.chunk));
    }
  }

  lemma LinesPend(env: Env, s: Server, line: string)
    ensures forall c: nat :: c < |s.calls| ==> (c in HandleLine(env, s, line).pending <==> c in s.pending)
    ensures forall c: nat :: |s.calls| <= c < |HandleLine(env, s, line).calls| ==> c in HandleLine(env, s, line).pending
    ensures |s.calls| <= |HandleLine(env, s, line).calls|
  {
  }

  lemma {:induction false} AllLinesPend(env: Env, s: Server, lines: seq<string>)
    ensures forall c: nat :: c < |s.calls| ==> (c in HandleLines(env, s, lines).pending <==> c in s.pending)
    ensures forall c: nat :: |s.calls| <= c < |HandleLines(env, s, lines).calls| ==> c in HandleLines(env, s, lines).pending
    ensures |s.calls| <= |HandleLines(env, s, lines).calls|
    decreases |lines|
  {
    hide HandleLine;
    if lines != [] {
      AllLinesPend(env, s, lines[..|lines| - 1]);
      LinesPend(env, HandleLines(env, s, lines[..|lines| - 1]), lines[|lines| - 1]);
    }
  }

  lemma StepPends(env: Env, s: Server, op: Op)
    ensures var d := Step(env, s, op);
      forall c: nat :: c < |s.calls| ==> (c in d.pending <==> c in s.pending && !(op.Settle? && op.call == c))
    ensures var d := Step(env, s, op);
      forall c: nat :: |s.calls| <= c < |d.calls| ==> c in d.pending
  {
    hide HandleLines, Residue, Lines;
    if op.Data? && !s.closed {
      AllLinesPend(env, s.(buffer := Residue(s.buffer + op.chunk)), Lines(s.buffer + op.chunk));
    }
  }

  /** The pending calls are the started ones that have not settled. */
  lemma {:induction false} PendingWaits(env: Env, ops: seq<Op>)
    ensures forall call: nat :: call in After(env, ops).pending <==> Waits(env, ops, call)
    ensures forall call: nat :: call in Settled(env, ops) ==> call < |Started(env, ops)|
    ensures After(env, ops).calls == Started(env, ops)
    decreases |ops|
  {
    hide Faithful, Step, Started, After;
    RunIsFaithful(env, ops);
    FaithfulSession(env, After(env, ops), Lines(Received(ops)));
    assert After(env, ops).calls == Started(env, ops) by { StartedIs(env, ops); }
    if ops == [] {
      NothingStarted(env);
    } else {
      PendingWaits(env, ops[..|ops| - 1]);
      LastOp(env, ops);
      StartedGrows(env, ops);
      StepPends(env, After(env, ops[..|ops| - 1]), ops[|ops| - 1]);
    }
  }

  lemma StartedIs(env: Env, ops: seq<Op>)
    ensures Started(env, ops) == Starts(env, Lines(Received(ops)))
  {
  }

  lemma NothingStarted(env: Env)
    ensures Started(env, []) == [] && After(env, []) == New()
  {
    NewIsFaithful(env);
  }

  /**
    Everything the server writes while the connection is open, in order: for each chunk the messages its lines
    call for at once, and for each call that settles its result.
   */
  lemma {:induction false} OutputIsWritten(env: Env, ops: seq<Op>)
    requires !Closed(ops)
    ensures After(env, ops).output == Written(env, ops)
    decreases |ops|
  {
    hide Faithful, Feed, Started, Closed, Lines, Residue, Answers;
    if ops != [] {
      var before, last := ops[..|ops| - 1], ops[|ops| - 1];
      ClosedBefore(ops);
      OutputIsWritten(env, before);
      RunIsFaithful(env, before);
      PendingWaits(env, before);
      LastOp(env, ops);
      if last.Data? {
        DataWrites(env, After(env, before), Received(before), last.chunk);
      }
    }
  }

  lemma {:induction false} AnswersAppend(env: Env, lines: seq<string>, more: seq<string>)
    ensures Answers(env, [], lines + more) == Answers(env, [], lines) + Answers(env, lines, more)
    decreases |more|
  {
    hide AnswerTo, Session;
    if more == [] {
      assert lines + more == lines;
    } else {
      var before := more[..|more| - 1];
      assert (lines + more)[..|lines + more| - 1] == lines + before;
      assert [] + (lines + before) == lines + before;
      AnswersAppend(env, lines, before);
    }
  }

  /**
    However the text came in chunks: what has been written is one answer for each line that is refused or
    acknowledged at once, with the code that line calls for, and one result for each call that settled.
   */
  lemma {:induction false} WritesWhatIsCalledFor(env: Env, ops: seq<Op>)
    requires !Closed(ops)
    ensures multiset(After(env, ops).output)
         == multiset(Answers(env, [], Lines(Received(ops)))) + multiset(Results(env, ops))
    decreases |ops|
  {
    hide After, Lines, Residue, ResultFor, Closed;
    OutputIsWritten(env, ops);
    if ops == [] {
      NoLines();
    } else {
      var before, last := ops[..|ops| - 1], ops[|ops| - 1];
      ClosedBefore(ops);
      OutputIsWritten(env, before);
      WritesWhatIsCalledFor(env, before);
      if last.Data? {
        LinesAppend(Received(before), last.chunk);
        AnswersAppend(env, Lines(Received(before)), Lines(Residue(Received(before)) + last.chunk));
      }
    }
  }

  lemma NoLines()
    ensures Lines("") == []
  {
    assert Split("", '\n') == [""];
  }

  lemma {:induction false} AnswersRefuse(env: Env, lines: seq<string>, more: seq<string>, m: Out)
    requires m in Answers(env, lines, more)
    ensures m.Ack? || m.body.Failure?
    decreases |more|
  {
    hide AnswerTo;
    var last := AnswerTo(env, Session(env, lines + more[..|more| - 1]).Some?, more[|more| - 1]);
    if m in last {
      AnswerRefuses(env, Session(env, lines + more[..|more| - 1]).Some?, more[|more| - 1], m);
    } else {
      AnswersRefuse(env, lines, more[..|more| - 1], m);
    }
  }

  lemma AnswerRefuses(env: Env, open: bool, line: string, m: Out)
    requires m in AnswerTo(env, open, line)
    ensures m.Ack? || m.body.Failure?
  {
  }

  /** Call `j` of the history settles a waiting request with the result `m`. */
  predicate SettledWith(env: Env, ops: seq<Op>, j: nat, m: Out) {
    && j < |ops| && ops[j].Settle? && Waits(env, ops[..j], ops[j].call)
    && m == ResultOf(Started(env, ops[..j])[ops[j].call], ops[j].outcome)
  }

  lemma {:induction false} ResultsSettle(env: Env, ops: seq<Op>, m: Out) returns (j: nat)
    requires m in Results(env, ops)
    ensures SettledWith(env, ops, j, m)
    decreases |ops|
  {
    hide Started, Settled;
    var before := ops[..|ops| - 1];
    if m in Results(env, before) {
      j := ResultsSettle(env, before, m);
      assert before[..j] == ops[..j];
    } else {
      j := |ops| - 1;
    }
  }

  /** A success is always what a handler returned for a request of that id and method. */
  lemma SuccessIsAResult(env: Env, ops: seq<Op>, m: Out) returns (j: nat)
    requires !Closed(ops) && m in After(env, ops).output && m.Reply? && m.body.Payload?
    ensures SettledWith(env, ops, j, m) && ops[j].outcome == Resolved(m.body.payload)
  {
    hide After, Answers, Results, Lines, Closed;
    WritesWhatIsCalledFor(env, ops);
    assert m in multiset(After(env, ops).output);
    if m in Answers(env, [], Lines(Received(ops))) {
      AnswersRefuse(env, [], Lines(Received(ops)), m);
      assert false;
    }
    assert m in multiset(Results(env, ops));
    j := ResultsSettle(env, ops, m);
  }
}
