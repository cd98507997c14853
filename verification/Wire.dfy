/** The byte stream a client receives when it stays connected over several replies. */
module Wire {
  import opened CString
  import opened HttpFrame
  import opened HttpRequest
  import opened HttpServing
  import opened IoLifecycle
  import opened Options
  import Query

  /** The buffers sent in a history of exchanges, oldest first. */
  function WireOf(history: seq<Exchange>): seq<seq<char>> {
    if history == [] then [] else WireOf(history[..|history| - 1]) + Emitted(history[|history| - 1])
  }

  lemma WireGrows(history: seq<Exchange>, x: Exchange)
    ensures WireOf(history + [x]) == WireOf(history) + Emitted(x)
  {
    assert (history + [x])[..|history|] == history;
  }

  lemma WireExtends(history: seq<Exchange>, k: nat)
    requires k < |history|
    ensures WireOf(history[..k + 1]) == WireOf(history[..k]) + Emitted(history[k])
  {
    assert history[..k + 1] == history[..k] + [history[k]];
    WireGrows(history[..k], history[k]);
  }

  function Stream(wire: seq<seq<char>>): seq<char> {
    if wire == [] then [] else wire[0] + Stream(wire[1..])
  }

  /** The stream cut after every BUFFERSIZE bytes. */
  function Records(bytes: seq<char>): seq<seq<char>>
    decreases |bytes|
  {
    if |bytes| < BUFFERSIZE then [] else [bytes[..BUFFERSIZE]] + Records(bytes[BUFFERSIZE..])
  }

  /** The answers given in a history of exchanges. */
  function Answers(history: seq<Exchange>): seq<string> {
    if history == [] then []
    else
      var x := history[|history| - 1];
      Answers(history[..|history| - 1]) + if Replied(x) then [Query.Answer(QueryOf(x.msg)).value] else []
  }

  /** One buffer sent: its length, and the payload a client reads out of it. */
  predicate Carries(buffer: seq<char>, payload: string) {
    |payload| < 64 && buffer == SendBuffer(Frame(payload))
  }

  lemma BufferRead(payload: string, more: seq<char>)
    requires |payload| < 64
    ensures var buffer := SendBuffer(Frame(payload));
            && |Frame(payload)| <= 1100
            && |buffer| == BUFFERSIZE
            && buffer == Frame(payload) + buffer[|Frame(payload)|..]
            && Body(buffer) == Some(payload)
            && Body(buffer + more) == Some(payload)
  {
    var buffer := SendBuffer(Frame(payload));
    var padding := buffer[|Frame(payload)|..];
    FrameFits(payload);
    BodyOfFrame(payload, padding);
    BodyOfFrame(payload, padding + more);
    assert buffer + more == Frame(payload) + (padding + more);
  }

  lemma {:induction false} WireCarries(history: seq<Exchange>)
    ensures |WireOf(history)| == |Answers(history)|
    ensures forall i | 0 <= i < |WireOf(history)| :: Carries(WireOf(history)[i], Answers(history)[i])
  {
    if history != [] {
      var x := history[|history| - 1];
      WireCarries(history[..|history| - 1]);
      if Replied(x) {
        Query.AnswerShort(QueryOf(x.msg));
      }
    }
  }

  lemma {:induction false} RecordsOfStream(wire: seq<seq<char>>)
    requires forall b | b in wire :: |b| == BUFFERSIZE
    ensures Records(Stream(wire)) == wire
  {
    if wire != [] {
      RecordsOfStream(wire[1..]);
      assert Stream(wire)[..BUFFERSIZE] == wire[0];
      assert Stream(wire)[BUFFERSIZE..] == Stream(wire[1..]);
      assert wire == [wire[0]] + wire[1..];
    }
  }

  /**
   A client that cuts the stream into records of BUFFERSIZE bytes recovers every answer of every
   history, in order: each record is one reply, and its body the answer.
   */
  lemma AnswersRecovered(history: seq<Exchange>)
    ensures var records := Records(Stream(WireOf(history)));
            && |records| == |Answers(history)|
            && forall i | 0 <= i < |records| :: Body(records[i]) == Some(Answers(history)[i])
  {
    var wire, answers := WireOf(history), Answers(history);
    WireCarries(history);
    forall i | 0 <= i < |wire|
      ensures |wire[i]| == BUFFERSIZE && Body(wire[i]) == Some(answers[i])
    {
      BufferRead(answers[i], "");
    }
    RecordsOfStream(wire);
  }

  /** What is left of the stream once the first body has been read by its Content-Length. */
  function Rest(bytes: seq<char>): Option<seq<char>> {
    match Body(bytes)
    case None => None
    case Some(body) =>
      var at := FindFirst(bytes, CRLFCRLF).value + 4 + |body|;
      if at <= |bytes| then Some(bytes[at..]) else None
  }

  /**
   A client that goes by Content-Length reads the first answer, and then finds NUL bytes where the
   next status line should be, as every buffer is sent whole: whatever follows, it is no reply.
   */
  lemma GapAfterBody(payload: string, more: seq<char>)
    requires |payload| < 64
    ensures var bytes := SendBuffer(Frame(payload)) + more;
            && Body(bytes) == Some(payload)
            && Rest(bytes).Some?
            && var rest := Rest(bytes).value;
            && |rest| >= 400
            && (forall i | 0 <= i < 400 :: rest[i] == NUL)
            && !(STATUS_LINE <= rest)
  {
    var frame, buffer := Frame(payload), SendBuffer(Frame(payload));
    BufferRead(payload, more);
    FrameEnd(payload, buffer[|frame|..] + more);
    assert buffer + more == frame + (buffer[|frame|..] + more);
    assert (buffer + more)[|frame|..] == buffer[|frame|..] + more;
    assert STATUS_LINE[0] == 'H';
  }

  /** The body of a frame ends where the frame ends. */
  lemma FrameEnd(payload: string, padding: string)
    ensures FindFirst(Frame(payload) + padding, CRLFCRLF) == Some(|Frame(payload)| - 4 - |payload|)
  {
    var lines := HeaderLines(payload);
    DigitsAreLine(|payload|);
    HeaderEnd(lines, payload + padding);
    assert Frame(payload) + padding == Lines(lines) + CRLF + (payload + padding);
    FindFirstIs(Frame(payload) + padding, CRLFCRLF, Some(|Lines(lines)| - 2));
  }

  /** So it is on every connection that stays open after a reply. */
  lemma StreamHasGap(history: seq<Exchange>)
    requires WireOf(history) != []
    ensures var bytes := Stream(WireOf(history));
            && Answers(history) != [] && Body(bytes) == Some(Answers(history)[0])
            && Rest(bytes).Some? && |Rest(bytes).value| >= 400
            && Rest(bytes).value[0] == NUL && !(STATUS_LINE <= Rest(bytes).value)
  {
    WireCarries(history);
    GapAfterBody(Answers(history)[0], Stream(WireOf(history)[1..]));
  }

  // ----- a server that receives one message after another -----

  /** A message the buffers take. */
  predicate Receivable(x: Exchange) {
    NUL !in x.msg && 4 <= |x.msg| < BUFFERSIZE && |QueryOf(x.msg)| < HTTP_GET_LENGTH
  }

  /** The posted buffers in which the messages will arrive. */
  ghost predicate Waiting(posted: set<PerIOData>, ios: seq<PerIOData>) {
    && (forall i | 0 <= i < |ios| :: ios[i] in posted && ios[i].Valid())
    && (forall i, j | 0 <= i < j < |ios| :: ios[i] != ios[j] && ios[i].buf != ios[j].buf)
  }

  /** A receive into this buffer completes with this message, and worker t handles it. */
  method Serve(server: HttpServer, t: nat, io: PerIOData, x: Exchange)
    returns (ghost acts: seq<Action<PerIOData, HttpData>>)
    requires io.Valid() && Receivable(x) && io in server.world.posted && t !in server.world.busy
    modifies server, io, io.buf
    ensures server.wire == old(server.wire) + Emitted(x)
    ensures Runs(old(server.world), acts) && server.world == After(old(server.world), acts)
    ensures t !in server.world.busy && old(server.world.posted) - {io} <= server.world.posted
  {
    StrNCpy(io.buf, BUFFERSIZE, x.msg);
    ghost var w := server.world;
    OneRuns(w, Take(t, io));
    server.world := Apply(w, Take(t, io));
    ghost var taken := server.world;
    ghost var data, next;
    var ok;
    ok, data, next := server.DoRecv(t, io, x.accepted);
    ghost var script := Script(t, OutcomeOf(x.msg, x.accepted), data, next);
    ScriptIdles(taken, t, OutcomeOf(x.msg, x.accepted), data, next);
    acts := [Take(t, io)] + script;
    RunsAppend(w, [Take(t, io)], script);
  }

  /**
   Any messages handled one after the other put on the wire exactly the buffers of their history, and
   move the objects by a run of the life-cycle protocol.
   */
  method ServeAll(server: HttpServer, t: nat, ios: seq<PerIOData>, history: seq<Exchange>)
    returns (ghost acts: seq<Action<PerIOData, HttpData>>)
    requires |ios| == |history| && Waiting(server.world.posted, ios)
    requires t !in server.world.busy && forall x | x in history :: Receivable(x)
    modifies server, set io | io in ios, set io | io in ios :: io.buf
    ensures server.wire == old(server.wire) + WireOf(history)
    ensures Runs(old(server.world), acts) && server.world == After(old(server.world), acts)
  {
    ghost var w := server.world;
    acts := [];
    for k := 0 to |history|
      invariant t !in server.world.busy
      invariant forall i | k <= i < |ios| :: ios[i] in server.world.posted
      invariant server.wire == old(server.wire) + WireOf(history[..k])
      invariant Runs(w, acts) && server.world == After(w, acts)
    {
      WireExtends(history, k);
      ghost var more := Serve(server, t, ios[k], history[k]);
      RunsAppend(w, acts, more);
      acts := acts + more;
    }
    assert history[..|history|] == history;
  }
}
