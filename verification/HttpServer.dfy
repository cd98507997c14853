/** The server's side of one exchange: from a received buffer to the bytes handed to WSASend. */
module HttpServing {
  import opened CString
  import opened HttpFrame
  import opened HttpRequest
  import opened IoLifecycle
  import opened Options
  import Decimal
  import Query

  const BUFFERSIZE := 1500
  const HTTP_GET_LENGTH := 256

  datatype OperationType = ACCEPT_POSTED | RECV_POSTED | SEND_POSTED | NULL_POSTED

  class PerIOData {
    const buf: array<char>
    var bytestransfer: nat
    var operationtype: OperationType

    ghost predicate Valid() {
      buf.Length == BUFFERSIZE
    }

    ghost function Message(): string
      reads buf
    {
      Str(buf)
    }

    constructor ()
      ensures Valid() && fresh(buf) && buf.Length == 1500
      ensures IsStr(buf) && Message() == "" && operationtype == NULL_POSTED && bytestransfer == 0
    {
      operationtype := NULL_POSTED;
      var zeros := NewBuffer(BUFFERSIZE);
      buf := zeros;
      bytestransfer := 0;
    }

    method ResetIOBuf()
      requires Valid()
      modifies this`bytestransfer, buf
      ensures Padded(buf[..]) && IsStr(buf) && Message() == "" && bytestransfer == 0
    {
      Clear(buf);
      bytestransfer := 0;
    }
  }

  // ----- finding the query: sscanf_s(buf, "%*[^?]?%s", getbuf) -----

  method ScanSpaces(a: array<char>, start: nat) returns (from: nat)
    requires IsStr(a) && start <= |Str(a)|
    ensures from <= |Str(a)| && SkipSpaces(Str(a)[start..]) == Str(a)[from..]
  {
    ghost var text := Str(a);
    TextStops(a[..]);
    from := start;
    while a[from] != NUL && IsSpace(a[from])
      invariant start <= from <= |text|
      invariant SkipSpaces(text[start..]) == SkipSpaces(text[from..])
      decreases |text| - from
    {
      assert a[from] == a[..][from];
      assert text[from..][0] == a[from] && text[from..][1..] == text[from + 1..];
      from := from + 1;
    }
    assert a[from] == a[..][from];
    assert from < |text| ==> text[from..][0] == a[from];
  }

  method ScanWord(a: array<char>, from: nat) returns (len: nat)
    requires IsStr(a) && from <= |Str(a)|
    ensures from + len <= |Str(a)| && Word(Str(a)[from..]) == Str(a)[from..from + len]
  {
    ghost var text := Str(a);
    TextStops(a[..]);
    len := 0;
    while a[from + len] != NUL && !IsSpace(a[from + len])
      invariant from + len <= |text|
      invariant forall i | from <= i < from + len :: !IsSpace(text[i])
      decreases |text| - len
    {
      assert a[..][from + len] == a[from + len];
      len := len + 1;
    }
    assert a[..][from + len] == a[from + len];
    var word, rest := text[from..from + len], text[from + len..];
    assert text[from..] == word + rest;
    WordIs(word, rest);
  }

  lemma ScanFindsNone(text: string)
    requires SpanNot(text, '?') in {0, |text|}
    ensures ScanQuery(text) == None
  {
  }

  lemma ScanFinds(text: string, from: nat, len: nat)
    requires 0 < SpanNot(text, '?') < |text| && from + len <= |text|
    requires SkipSpaces(text[SpanNot(text, '?') + 1..]) == text[from..]
    requires Word(text[from..]) == text[from..from + len]
    ensures ScanQuery(text) == if len == 0 then None else Some(text[from..from + len])
  {
  }

  method LocateQuery(a: array<char>) returns (from: nat, len: nat)
    requires IsStr(a)
    ensures from + len <= |Str(a)|
    ensures ScanQuery(Str(a)) == if len == 0 then None else Some(Str(a)[from..from + len])
  {
    ghost var text := Str(a);
    TextStops(a[..]);
    assert text[0..] == text;
    var mark := ScanSpan(a, 0, '?');
    assert a[mark] == a[..][mark] && (mark < |text| ==> text[mark] == a[mark]);
    if mark == 0 || a[mark] == NUL {
      ScanFindsNone(text);
      return 0, 0;
    }
    from := ScanSpaces(a, mark + 1);
    len := ScanWord(a, from);
    ScanFinds(text, from, len);
  }

  method SScanQuery(a: array<char>, out: array<char>)
    requires IsStr(a) && IsStr(out) && a != out
    requires Str(out) == "" && |QueryOf(Str(a))| < out.Length
    modifies out
    ensures IsStr(out) && Str(out) == QueryOf(Str(a))
  {
    var from, len := LocateQuery(a);
    if len > 0 {
      TextStops(a[..]);
      assert a[from..from + len] == Str(a)[from..from + len];
      StrNCpy(out, out.Length, a[from..from + len]);
    }
  }

  /** The last four bytes against CRLFCRLF; the message has at least four. */
  method CheckRecvBufEnd(bytestransfer: nat, buf: array<char>) returns (ended: bool)
    requires IsStr(buf) && bytestransfer == |Str(buf)| >= 4
    ensures ended == Complete(Str(buf))
  {
    TextStops(buf[..]);
    var n := bytestransfer;
    var tail := buf[n - 4..n];
    assert tail == Str(buf)[n - 4..];
    ended := tail == CRLFCRLF;
  }

  /** The whole send buffer when it holds this text, which is what WSASend is given. */
  function SendBuffer(text: string): seq<char> {
    text + seq(if |text| < BUFFERSIZE then BUFFERSIZE - |text| else 0, _ => NUL)
  }

  lemma PaddedIs(b: seq<char>)
    requires Padded(b) && |b| == BUFFERSIZE
    ensures b == SendBuffer(Text(b))
  {
    TextStops(b);
  }

  /** What becomes of a message, and of the buffer it came in. */
  function OutcomeOf(msg: string, accepted: bool): (outcome: Outcome)
    ensures outcome == Sent ==> Response(msg).Some?
  {
    if !Complete(msg) then Incomplete
    else if !IsGet(msg) then NotGet
    else if Response(msg).None? then BuildFailed
    else if accepted then Sent else SendFailed
  }

  /** The three letters of GET stand at i. */
  predicate GetAt(msg: string, i: nat) {
    i + 3 <= |msg| && msg[i] == 'G' && msg[i + 1] == 'E' && msg[i + 2] == 'T'
  }

  /**
   Every outcome by the text of the message: incomplete exactly when its last four bytes are not an
   empty line, rejected exactly when they are and "GET" stands nowhere in it, and otherwise decided by
   whether its query has an answer and whether WSASend takes it.
   */
  lemma OutcomeByText(msg: string, accepted: bool)
    requires |msg| >= 4
    ensures var ended := msg[|msg| - 4..] == "\r\n\r\n";
            var get := exists i: nat :: GetAt(msg, i);
            var answered := Query.Answer(QueryOf(msg)).Some?;
            && (OutcomeOf(msg, accepted) == Incomplete <==> !ended)
            && (OutcomeOf(msg, accepted) == NotGet <==> ended && !get)
            && (OutcomeOf(msg, accepted) == BuildFailed <==> ended && get && !answered)
            && (OutcomeOf(msg, accepted) == SendFailed <==> ended && get && answered && !accepted)
            && (OutcomeOf(msg, accepted) == Sent <==> ended && get && answered && accepted)
  {
    GetStands(msg);
    var answer := Query.Answer(QueryOf(msg));
    OutcomeCases(msg, accepted, answer);
  }

  lemma GetStands(msg: string)
    ensures IsGet(msg) <==> exists i: nat :: GetAt(msg, i)
  {
    FindFirstIsFirst(msg, "GET");
    forall i: nat
      ensures OccursAt(msg, "GET", i) <==> GetAt(msg, i)
    {
      if i + 3 <= |msg| {
        assert msg[i..i + 3] == [msg[i], msg[i + 1], msg[i + 2]];
      }
    }
  }

  lemma OutcomeCases(msg: string, accepted: bool, answer: Option<string>)
    requires answer == Query.Answer(QueryOf(msg))
    ensures OutcomeOf(msg, accepted) ==
            if !(|msg| >= 4 && msg[|msg| - 4..] == "\r\n\r\n") then Incomplete
            else if !IsGet(msg) then NotGet
            else if answer.None? then BuildFailed
            else if accepted then Sent else SendFailed
  {
  }

  /** One completed receive: the message, and whether WSASend would take a reply. */
  datatype Exchange = Exchange(msg: string, accepted: bool)

  predicate Replied(x: Exchange) {
    OutcomeOf(x.msg, x.accepted) == Sent
  }

  /** The buffers an exchange puts on the wire: one, or none. */
  function Emitted(x: Exchange): seq<seq<char>> {
    if Replied(x) then [SendBuffer(Response(x.msg).value)] else []
  }

  lemma EmittedOnlySent(msg: string, accepted: bool)
    ensures OutcomeOf(msg, accepted) != Sent ==> Emitted(Exchange(msg, accepted)) == []
  {
  }

  /** What a call does to the objects, by the text of its message. */
  lemma RecvEffect(
    w: World<PerIOData, HttpData>, t: nat, msg: string, accepted: bool, data: Option<HttpData>, next: Option<PerIOData>)
    requires t in w.busy && w.busy[t].Checking? && |msg| >= 4
    requires ScriptObjects(OutcomeOf(msg, accepted), data, next)
    requires Runs(w, Script(t, OutcomeOf(msg, accepted), data, next))
    ensures var outcome := OutcomeOf(msg, accepted);
            var v := After(w, Script(t, outcome, data, next));
            var io := w.busy[t].io;
            var ended := msg[|msg| - 4..] == "\r\n\r\n";
            var get := exists i: nat :: GetAt(msg, i);
            && (!ended ==>
                  && outcome == Incomplete && next.Some? && v.posted == w.posted + {io, next.value}
                  && v.dropped == w.dropped && v.deleted == w.deleted)
            && (ended && !get ==>
                  && outcome == NotGet && next.None? && data.None?
                  && v.posted == w.posted && v.objects == w.objects && v.dropped == w.dropped + {io})
            && (ended && get ==>
                  outcome != NotGet && next.Some? && v.posted == w.posted + {next.value})
            && (!ended || !get ==> Emitted(Exchange(msg, accepted)) == [])
            && v.busy == w.busy - {t}
  {
    OutcomeByText(msg, accepted);
    ScriptFresh(w, t, OutcomeOf(msg, accepted), data, next);
    CallEffect(w, t, OutcomeOf(msg, accepted), data, next);
    EmittedOnlySent(msg, accepted);
  }

  class HttpServer {
    /** The bytes of every message WSASend accepted. */
    var wire: seq<seq<char>>
    /** Which objects exist, and who owns them. */
    ghost var world: World<PerIOData, HttpData>

    method BuildSend(io: PerIOData, httpdata: HttpData) returns (ok: bool)
      requires io.Valid() && Padded(io.buf[..]) && io.Message() == ""
      requires httpdata.Valid() && httpdata.Current() == Query.INITIAL && httpdata.PayloadText() == ""
      requires io.buf !in httpdata.Repr()
      modifies io.buf, httpdata.Repr()
      ensures IsStr(io.buf) && Padded(io.buf[..])
      ensures ok == Query.Answer(old(httpdata.RecvText())).Some?
      ensures ok ==> io.Message() == Frame(Query.Answer(old(httpdata.RecvText())).value)
    {
      AppendHead(io);
      ok := httpdata.HandleHttpData();
      if !ok {
        return;
      }
      AppendPayload(io, httpdata.payloadbuf);
    }

    method AppendHead(io: PerIOData)
      requires io.Valid() && Padded(io.buf[..]) && io.Message() == ""
      modifies io.buf
      ensures IsStr(io.buf) && Padded(io.buf[..])
      ensures io.Message() == STATUS_LINE + CRLF + TYPE_LINE + CRLF
    {
      StrCat(io.buf, BUFFERSIZE, STATUS_LINE);
      StrCat(io.buf, BUFFERSIZE, CRLF);
      StrCat(io.buf, BUFFERSIZE, TYPE_LINE);
      StrCat(io.buf, BUFFERSIZE, CRLF);
    }

    /** The length field, the empty line and whatever text the payload buffer holds. */
    method AppendPayload(io: PerIOData, payloadbuf: array<char>)
      requires io.Valid() && Padded(io.buf[..]) && io.buf != payloadbuf
      requires io.Message() == STATUS_LINE + CRLF + TYPE_LINE + CRLF
      requires payloadbuf.Length == PAYLOAD_BUFFER_LENGTH && IsStr(payloadbuf)
      modifies io.buf
      ensures IsStr(io.buf) && Padded(io.buf[..]) && io.Message() == Frame(Str(payloadbuf))
    {
      ghost var payload := Str(payloadbuf);
      TextStops(payloadbuf[..]);
      FrameFits(payload);
      FrameAppended(payload);
      var n := StrLen(payloadbuf);
      var tmpBuf := NewBuffer(32);
      var field := LENGTH_FIELD + Decimal.Print(n);
      DigitsAreLine(n);
      StrNCpy(tmpBuf, 32, field);
      StrCat(io.buf, BUFFERSIZE, Text(tmpBuf[..]));
      StrCat(io.buf, BUFFERSIZE, CRLFCRLF);
      StrCat(io.buf, BUFFERSIZE, Text(payloadbuf[..]));
    }

    /** Either the incomplete buffer again, or the one just allocated. */
    method PostRecv(t: nat, io: PerIOData)
      requires t in world.busy && world.busy[t] in {Checking(io), Posting(io)}
      modifies this`world, io`operationtype
      ensures io.operationtype == RECV_POSTED
      ensures world == Apply(old(world), if old(world.busy[t]).Checking? then Await(t) else Post(t))
    {
      io.operationtype := RECV_POSTED;
      world := Apply(world, if world.busy[t].Checking? then Await(t) else Post(t));
    }

    method GetNewIOData(t: nat) returns (io: PerIOData)
      requires t in world.busy && world.busy[t].Renewing?
      modifies this`world
      ensures fresh(io) && fresh(io.buf) && io.Valid() && IsStr(io.buf) && io.Message() == ""
      ensures io !in old(world).objects && world == Apply(old(world), Allocate(t, io))
    {
      io := new PerIOData();
      world := Apply(world, Allocate(t, io));
    }

    /**
     Deletes the object its worker holds. While the ownership invariant holds, that object was not
     posted and not deleted before, and afterwards is deleted and in no worker's hands.
     */
    method RemoveIOData(t: nat, io: PerIOData)
      requires t in world.busy && world.busy[t] == Removing(io)
      modifies this`world
      ensures world == old(world).(deleted := old(world).deleted + {io}, busy := old(world).busy[t := Renewing])
      ensures BuffersOwned(old(world)) ==>
                && io !in old(world).posted + old(world).deleted + old(world).dropped
                && io in world.objects && io !in world.posted + world.dropped && !HeldBySome(world, io)
                && |world.deleted| == |old(world).deleted| + 1
                && BuffersOwned(world)
    {
      if BuffersOwned(world) {
        RemovedOnce(world, t);
      }
      world := Apply(world, Remove(t));
    }

    /** WSASend is given the whole buffer. */
    method Transmit(io: PerIOData)
      requires io.Valid() && Padded(io.buf[..])
      modifies this`wire
      ensures wire == old(wire) + [SendBuffer(io.Message())]
    {
      PaddedIs(io.buf[..]);
      wire := wire + [io.buf[..]];
    }

    /** WSASend, whose verdict is `accepted`, and the deletion that follows it. */
    method HandToSocket(t: nat, io: PerIOData, accepted: bool)
      requires t in world.busy && world.busy[t] == Sending(io)
      requires io.Valid() && Padded(io.buf[..])
      modifies this
      ensures wire == old(wire) + if accepted then [SendBuffer(io.Message())] else []
      ensures world == old(world).(
                         deleted := old(world).deleted + (if accepted then {io} else {}),
                         dropped := old(world).dropped + (if accepted then {} else {io}),
                         busy := old(world).busy[t := Renewing])
    {
      if !accepted {
        world := Apply(world, FailSend(t));
        return;
      }
      Transmit(io);
      SameWorker(world.busy, t, Removing(io), Renewing);
      world := Apply(world, Send(t));
      RemoveIOData(t, io);
    }

    /** The HttpData is deleted whether or not the reply was built; only a built reply is sent. */
    method SendBuilt(
      t: nat, io: PerIOData, httpdata: HttpData, built: bool, accepted: bool, ghost reply: Option<string>)
      returns (ok: bool, ghost outcome: Outcome)
      requires t in world.busy && world.busy[t] == Answering(io, httpdata)
      requires io.Valid() && Padded(io.buf[..])
      requires built == reply.Some? && (built ==> io.Message() == Frame(reply.value))
      modifies this
      ensures outcome == (if reply.None? then BuildFailed else if accepted then Sent else SendFailed)
      ensures ok <==> outcome == Sent
      ensures wire == old(wire) + if ok then [SendBuffer(Frame(reply.value))] else []
      ensures world == Settled(old(world), t, outcome)
    {
      if !built {
        world := Apply(world, FailBuild(t));
        return false, BuildFailed;
      }
      ghost var busy := world.busy;
      world := Apply(world, Build(t));
      SameWorker(busy, t, Sending(io), Renewing);
      HandToSocket(t, io, accepted);
      ok, outcome := accepted, if accepted then Sent else SendFailed;
    }

    method PostSend(t: nat, io: PerIOData, httpdata: HttpData, accepted: bool)
      returns (ok: bool, ghost outcome: Outcome)
      requires t in world.busy && world.busy[t] == Answering(io, httpdata)
      requires io.Valid() && Padded(io.buf[..]) && io.Message() == ""
      requires httpdata.Valid() && httpdata.Current() == Query.INITIAL && httpdata.PayloadText() == ""
      requires io.buf !in httpdata.Repr()
      modifies this, io`operationtype, io.buf, httpdata.Repr()
      ensures var reply := Query.Answer(old(httpdata.RecvText()));
              && outcome == (if reply.None? then BuildFailed else if accepted then Sent else SendFailed)
              && (ok <==> outcome == Sent)
              && wire == old(wire) + if ok then [SendBuffer(Frame(reply.value))] else []
      ensures world == Settled(old(world), t, outcome)
      ensures io.operationtype == SEND_POSTED
    {
      io.operationtype := SEND_POSTED;
      ghost var reply := Query.Answer(httpdata.RecvText());
      var built := BuildSend(io, httpdata);
      ok, outcome := SendBuilt(t, io, httpdata, built, accepted, reply);
    }

    /** Every call that does not reject its message ends by posting a new buffer. */
    method Renew(t: nat) returns (ghost next: Option<PerIOData>)
      requires t in world.busy && world.busy[t].Renewing?
      modifies this`world
      ensures next.Some? && fresh(next.value) && next.value !in old(world).objects
      ensures next.value.operationtype == RECV_POSTED && next.value.Message() == ""
      ensures world == Apply(Apply(old(world), Allocate(t, next.value)), Post(t))
    {
      var io := GetNewIOData(t);
      PostRecv(t, io);
      next := Some(io);
    }

    /** The HttpData made from the query found in a message, whose buffer is then cleared for the reply. */
    method TakeRequest(io: PerIOData) returns (httpdata: HttpData)
      requires io.Valid() && IsStr(io.buf) && |QueryOf(io.Message())| < HTTP_GET_LENGTH
      modifies io`bytestransfer, io.buf
      ensures httpdata.Valid() && fresh(httpdata.Repr())
      ensures httpdata.RecvText() == QueryOf(old(io.Message()))
      ensures httpdata.PayloadText() == "" && httpdata.Current() == Query.INITIAL
      ensures Padded(io.buf[..]) && io.Message() == "" && io.bytestransfer == 0
    {
      var getbuf := NewBuffer(HTTP_GET_LENGTH);
      SScanQuery(io.buf, getbuf);
      TextStops(getbuf[..]);
      httpdata := new HttpData(Text(getbuf[..]));
      io.ResetIOBuf();
    }

    /** Extract the query, make the HttpData, and answer with the buffer the request came in. */
    method Answer(t: nat, io: PerIOData, accepted: bool) returns (ghost data: Option<HttpData>, ghost outcome: Outcome)
      requires io.Valid() && IsStr(io.buf) && |QueryOf(io.Message())| < HTTP_GET_LENGTH
      requires t in world.busy && world.busy[t] == Checking(io)
      modifies this, io, io.buf
      ensures var reply := Response(old(io.Message()));
              && outcome == (if reply.None? then BuildFailed else if accepted then Sent else SendFailed)
              && wire == old(wire) + if outcome == Sent then [SendBuffer(reply.value)] else []
      ensures data.Some? && data.value !in old(world).created
      ensures world == Settled(Apply(old(world), Create(t, data.value)), t, outcome)
      ensures io.operationtype == SEND_POSTED && io.bytestransfer == 0
    {
      var httpdata := TakeRequest(io);
      world := Apply(world, Create(t, httpdata));
      var ok;
      ok, outcome := PostSend(t, io, httpdata, accepted);
      data := Some(httpdata);
    }

    /**
     One completed receive on worker t: the outcome follows from the message alone (and from
     whether WSASend takes the reply), and the objects move as the protocol of IoLifecycle says.
     */
    method HandleRecv(t: nat, io: PerIOData, accepted: bool)
      returns (ok: bool, ghost data: Option<HttpData>, ghost next: Option<PerIOData>)
      requires io.Valid() && IsStr(io.buf)
      requires |io.Message()| >= 4 && |QueryOf(io.Message())| < HTTP_GET_LENGTH
      requires t in world.busy && world.busy[t] == Checking(io)
      modifies this, io, io.buf
      ensures var msg := old(io.Message());
              var outcome := OutcomeOf(msg, accepted);
              && ok == (outcome != NotGet)
              && wire == old(wire) + Emitted(Exchange(msg, accepted))
              && ScriptObjects(outcome, data, next)
              && Runs(old(world), Script(t, outcome, data, next))
              && world == After(old(world), Script(t, outcome, data, next))
              && (outcome in {Incomplete, NotGet} ==> io.Message() == msg && io.bytestransfer == |msg|)
              && io.operationtype == (if outcome == Incomplete then RECV_POSTED
                                      else if outcome == NotGet then old(io.operationtype)
                                      else SEND_POSTED)
      ensures next.Some? ==> fresh(next.value) && next.value.operationtype == RECV_POSTED
    {
      ghost var w := world;
      io.bytestransfer := StrLen(io.buf);
      var ended := CheckRecvBufEnd(io.bytestransfer, io.buf);
      if !ended {
        PostRecv(t, io);
        next := Renew(t);
        ok, data := true, None;
        AwaitedCall(w, t, next.value);
        return;
      }
      var get := StrStr(io.buf, "GET");
      if get.None? {
        world := Apply(world, Reject(t));
        OneRuns(w, Reject(t));
        return false, None, None;
      }
      ghost var outcome;
      data, outcome := Answer(t, io, accepted);
      next := Renew(t);
      ok := true;
      AnsweredCall(w, t, outcome, data.value, next.value);
    }

    /**
     DoRecv in terms of the message's text: an incomplete message leaves its buffer and a new one
     posted, a complete one without GET is dropped and renewed by none, and after any other a new
     buffer is posted.
     */
    method DoRecv(t: nat, io: PerIOData, accepted: bool)
      returns (ok: bool, ghost data: Option<HttpData>, ghost next: Option<PerIOData>)
      requires io.Valid() && IsStr(io.buf)
      requires |io.Message()| >= 4 && |QueryOf(io.Message())| < HTTP_GET_LENGTH
      requires t in world.busy && world.busy[t] == Checking(io)
      modifies this, io, io.buf
      ensures var msg := old(io.Message());
              var outcome := OutcomeOf(msg, accepted);
              && ok == (outcome != NotGet)
              && wire == old(wire) + Emitted(Exchange(msg, accepted))
              && ScriptObjects(outcome, data, next)
              && Runs(old(world), Script(t, outcome, data, next))
              && world == After(old(world), Script(t, outcome, data, next))
              && (outcome in {Incomplete, NotGet} ==> io.Message() == msg && io.bytestransfer == |msg|)
              && io.operationtype == (if outcome == Incomplete then RECV_POSTED
                                      else if outcome == NotGet then old(io.operationtype)
                                      else SEND_POSTED)
      ensures next.Some? ==> fresh(next.value) && next.value.operationtype == RECV_POSTED
      ensures var msg := old(io.Message());
              var ended := msg[|msg| - 4..] == "\r\n\r\n";
              var get := exists i: nat :: GetAt(msg, i);
              && (!ended ==>
                    && ok && wire == old(wire) && next.Some? && io.operationtype == RECV_POSTED
                    && world.posted == old(world).posted + {io, next.value}
                    && world.dropped == old(world).dropped && world.deleted == old(world).deleted)
              && (ended && !get ==>
                    && !ok && wire == old(wire) && next.None? && data.None?
                    && world.posted == old(world).posted && world.objects == old(world).objects
                    && world.dropped == old(world).dropped + {io})
              && (ended && get ==>
                    && ok && next.Some? && world.posted == old(world).posted + {next.value})
              && world.busy == old(world).busy - {t}
    {
      ghost var w, msg := world, io.Message();
      ok, data, next := HandleRecv(t, io, accepted);
      RecvEffect(w, t, msg, accepted, data, next);
    }
  }
}
