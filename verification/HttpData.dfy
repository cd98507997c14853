/** The object that holds one request: parsed in place, then answered into its payload buffer. */
module HttpRequest {
  import opened CString
  import opened Options
  import opened Query

  const RECV_BUFFER_LENGTH := 1024
  const PAYLOAD_BUFFER_LENGTH := 1024

  class HttpData {
    const recvdatabuf: array<char>
    const payloadbuf: array<char>
    const projectid: array<char>
    const vendorid: array<char>
    const stbid: array<char>
    const chipid: array<char>
    const macaddr: array<char>
    var sendflag: SendFlag
    var errorcode: Errorcode

    // The buffers allocated in the constructor; buffers of different lengths are different buffers.
    ghost predicate Shape() {
      && recvdatabuf.Length == RECV_BUFFER_LENGTH
      && payloadbuf.Length == PAYLOAD_BUFFER_LENGTH
      && projectid.Length == PROJECTID_LENGTH + 1
      && vendorid.Length == VENDORID_LENGTH + 1
      && stbid.Length == STBID_LENGTH + 1
      && chipid.Length == CHIPID_LENGTH + 1
      && macaddr.Length == MAC_LENGTH + 1
      && recvdatabuf != payloadbuf && projectid != vendorid && stbid != chipid
    }

    ghost function Repr(): set<object> {
      {this, recvdatabuf, payloadbuf, projectid, vendorid, stbid, chipid, macaddr}
    }

    ghost predicate Valid()
      reads Repr()
    {
      && Shape()
      && IsStr(recvdatabuf)
      && IsStr(payloadbuf)
      && IsStr(projectid)
      && IsStr(vendorid)
      && IsStr(stbid)
      && IsStr(chipid)
      && IsStr(macaddr)
    }

    ghost function RecvText(): string
      reads recvdatabuf
    {
      Str(recvdatabuf)
    }

    ghost function PayloadText(): string
      reads payloadbuf
    {
      Str(payloadbuf)
    }

    ghost function Held(): Fields
      reads projectid, vendorid, stbid, chipid, macaddr
    {
      Fields(Str(projectid), Str(vendorid), Str(stbid), Str(chipid), Str(macaddr))
    }

    /** What the object currently says about its request. */
    ghost function Current(): State
      reads Repr()
    {
      State(sendflag, errorcode, Held())
    }

    constructor (comedata: string)
      requires NUL !in comedata && |comedata| < RECV_BUFFER_LENGTH
      ensures Valid() && fresh(Repr())
      ensures RecvText() == comedata && PayloadText() == "" && Current() == INITIAL
      ensures recvdatabuf.Length == payloadbuf.Length == 1024 && projectid.Length == vendorid.Length == 9
      ensures stbid.Length == chipid.Length == 33 && macaddr.Length == 13
    {
      sendflag := NullFlag;
      errorcode := NullError;
      var recv := NewBuffer(RECV_BUFFER_LENGTH);
      var payload := NewBuffer(PAYLOAD_BUFFER_LENGTH);
      var project := NewBuffer(PROJECTID_LENGTH + 1);
      var vendor := NewBuffer(VENDORID_LENGTH + 1);
      var stb := NewBuffer(STBID_LENGTH + 1);
      var chip := NewBuffer(CHIPID_LENGTH + 1);
      var mac := NewBuffer(MAC_LENGTH + 1);
      recvdatabuf, payloadbuf := recv, payload;
      projectid, vendorid, stbid, chipid, macaddr := project, vendor, stb, chip, mac;
      new;
      CopyRequest(recvdatabuf, comedata);
    }

    static method CopyRequest(recv: array<char>, comedata: string)
      requires NUL !in comedata && |comedata| < RECV_BUFFER_LENGTH == recv.Length
      modifies recv
      ensures IsStr(recv) && Str(recv) == comedata
    {
      StrNCpy(recv, RECV_BUFFER_LENGTH, comedata);
      SetLastNul(recv);
    }

    /** `*(buf + length - 1) = 0`, which changes nothing in a buffer already terminated. */
    static method SetLastNul(buf: array<char>)
      requires IsStr(buf)
      modifies buf
      ensures IsStr(buf) && Str(buf) == old(Str(buf))
    {
      ghost var was := Str(buf);
      TextStops(buf[..]);
      buf[buf.Length - 1] := NUL;
      assert buf[..|was|] == was;
      TextIs(buf[..], was);
    }

    // ----- parsing -----

    method ParseItem(itemvalue: array<char>, location: string)
      requires Valid() && IsKey(location)
      requires itemvalue !in Repr() && itemvalue.Length == RECV_BUFFER_LENGTH
      requires IsStr(itemvalue)
      modifies itemvalue
      ensures IsStr(itemvalue)
      ensures FindFirst(RecvText(), location).None? ==> Str(itemvalue) == ""
      ensures FindFirst(RecvText(), location).Some? ==>
                Str(itemvalue) == if ItemValue(RecvText(), location) != "" then ItemValue(RecvText(), location)
                                       else old(Str(itemvalue))
    {
      var bufpointer := StrStr(recvdatabuf, location);
      match bufpointer
      case None =>
        itemvalue[0] := NUL;
        TextIs(itemvalue[..], "");
      case Some(i) =>
        FoundItem(RecvText(), location, i);
        SScanPair(recvdatabuf, i, itemvalue);
    }

    /** A search into the cleared scratch buffer, as ParseQueryAuth repeats it for each field. */
    method FetchItem(tmp: array<char>, location: string) returns (len: nat)
      requires Valid() && IsKey(location)
      requires tmp !in Repr() && tmp.Length == RECV_BUFFER_LENGTH
      modifies tmp
      ensures IsStr(tmp) && Str(tmp) == ItemValue(RecvText(), location)
      ensures len == |Str(tmp)|
    {
      Clear(tmp);
      ParseItem(tmp, location);
      SetLastNul(tmp);
      len := StrLen(tmp);
    }

    /** A field is stored only when it fits the buffer kept for it. */
    method StoreItem(tmp: array<char>, location: string, field: array<char>) returns (stored: bool)
      requires Valid() && IsKey(location)
      requires tmp !in Repr() && tmp.Length == RECV_BUFFER_LENGTH
      requires field in {projectid, vendorid, stbid, chipid}
      modifies tmp, field
      ensures Valid()
      ensures stored <==> |ItemValue(RecvText(), location)| < field.Length
      ensures Str(field) == if stored then ItemValue(RecvText(), location) else old(Str(field))
    {
      var len := FetchItem(tmp, location);
      stored := !(field.Length - 1 < len);
      if stored {
        TextStops(tmp[..]);
        StrNCpy(field, field.Length, Text(tmp[..]));
      }
    }

    /** The first k checks are passed, no flag is set, and the fields are the ones stored by then. */
    ghost predicate Holding(sent: Fields, k: nat)
      requires k <= CHECK_COUNT
      reads Repr()
    {
      && Valid()
      && Passes(sent, k)
      && sendflag == NullFlag && errorcode == NullError
      && Held() == StoredAt(sent, k)
    }

    /** Check k is the first one failed, and the object says so. */
    ghost predicate Stopped(sent: Fields, k: nat)
      reads Repr()
    {
      && Valid()
      && k < CHECK_COUNT && Passes(sent, k) && Deserves(sent, Check(k))
      && Current() == State(ErrorFlag, Check(k), StoredAt(sent, k))
    }

    method ParseProjectID(tmp: array<char>, ghost sent: Fields) returns (ok: bool, ghost k: nat)
      requires Holding(sent, 0) && tmp !in Repr() && tmp.Length == RECV_BUFFER_LENGTH
      requires sent.projectid == ItemValue(RecvText(), "ProjectID=")
      modifies this`sendflag, this`errorcode, tmp, projectid
      ensures if ok then Holding(sent, 2) else Stopped(sent, k)
    {
      ok := StoreItem(tmp, "ProjectID=", projectid);
      if !ok {
        k := 0;
        sendflag, errorcode := ErrorFlag, ProjectIDTooLong;
        return;
      }
      PassesNext(sent, 0);
      var len := StrLen(projectid);
      if 0 == len {
        k := 1;
        sendflag, errorcode := ErrorFlag, NoProjectID;
        ok := false;
        return;
      }
      PassesNext(sent, 1);
      k := 2;
    }

    method ParseVendorID(tmp: array<char>, ghost sent: Fields) returns (ok: bool, ghost k: nat)
      requires Holding(sent, 2) && tmp !in Repr() && tmp.Length == RECV_BUFFER_LENGTH
      requires sent.vendorid == ItemValue(RecvText(), "VendorID=")
      modifies this`sendflag, this`errorcode, tmp, vendorid
      ensures if ok then Holding(sent, 4) else Stopped(sent, k)
    {
      ok := StoreItem(tmp, "VendorID=", vendorid);
      if !ok {
        k := 2;
        sendflag, errorcode := ErrorFlag, VendorIDTooLong;
        return;
      }
      PassesNext(sent, 2);
      var len := StrLen(vendorid);
      if 0 == len {
        k := 3;
        sendflag, errorcode := ErrorFlag, NoVendorID;
        ok := false;
        return;
      }
      PassesNext(sent, 3);
      k := 4;
    }

    method ParseSTBID(tmp: array<char>, ghost sent: Fields) returns (ok: bool, ghost k: nat)
      requires Holding(sent, 4) && tmp !in Repr() && tmp.Length == RECV_BUFFER_LENGTH
      requires sent.stbid == ItemValue(RecvText(), "STBID=")
      modifies this`sendflag, this`errorcode, tmp, stbid
      ensures if ok then Holding(sent, 5) else Stopped(sent, k)
    {
      ok := StoreItem(tmp, "STBID=", stbid);
      if !ok {
        k := 4;
        sendflag, errorcode := ErrorFlag, STBIDTooLong;
        return;
      }
      PassesNext(sent, 4);
      k := 5;
    }

    method ParseChipID(tmp: array<char>, ghost sent: Fields) returns (ok: bool, ghost k: nat)
      requires Holding(sent, 5) && tmp !in Repr() && tmp.Length == RECV_BUFFER_LENGTH
      requires sent.chipid == ItemValue(RecvText(), "ChipID=")
      modifies this`sendflag, this`errorcode, tmp, chipid
      ensures if ok then Holding(sent, 6) else Stopped(sent, k)
    {
      ok := StoreItem(tmp, "ChipID=", chipid);
      if !ok {
        k := 5;
        sendflag, errorcode := ErrorFlag, ChipIDTooLong;
        return;
      }
      PassesNext(sent, 5);
      k := 6;
    }

    method ParseMAC(tmp: array<char>, ghost sent: Fields) returns (ok: bool, ghost k: nat)
      requires Holding(sent, 6) && tmp !in Repr() && tmp.Length == RECV_BUFFER_LENGTH
      requires sent.macaddr == ItemValue(RecvText(), "MAC=")
      modifies this`sendflag, this`errorcode, tmp, macaddr
      ensures if ok then Holding(sent, 7) else Stopped(sent, k)
    {
      var len := FetchItem(tmp, "MAC=");
      if 12 != len && 0 != len {
        k := 6;
        sendflag, errorcode := ErrorFlag, MACLenIsWrong;
        ok := false;
        return;
      }
      PassesNext(sent, 6);
      TextStops(tmp[..]);
      StrNCpy(macaddr, MAC_LENGTH + 1, Text(tmp[..]));
      ok, k := true, 7;
    }

    /** The two required fields. */
    method ParseNames(tmp: array<char>, ghost sent: Fields) returns (ok: bool, ghost k: nat)
      requires Holding(sent, 0) && tmp !in Repr() && tmp.Length == RECV_BUFFER_LENGTH
      requires sent.projectid == ItemValue(RecvText(), "ProjectID=")
      requires sent.vendorid == ItemValue(RecvText(), "VendorID=")
      modifies this`sendflag, this`errorcode, tmp, projectid, vendorid
      ensures if ok then Holding(sent, 4) else Stopped(sent, k)
    {
      ok, k := ParseProjectID(tmp, sent);
      if !ok {
        return;
      }
      ok, k := ParseVendorID(tmp, sent);
    }

    /** The three optional ones. */
    method ParseDevice(tmp: array<char>, ghost sent: Fields) returns (ok: bool, ghost k: nat)
      requires Holding(sent, 4) && tmp !in Repr() && tmp.Length == RECV_BUFFER_LENGTH
      requires sent.stbid == ItemValue(RecvText(), "STBID=")
      requires sent.chipid == ItemValue(RecvText(), "ChipID=")
      requires sent.macaddr == ItemValue(RecvText(), "MAC=")
      modifies this`sendflag, this`errorcode, tmp, stbid, chipid, macaddr
      ensures if ok then Holding(sent, 7) else Stopped(sent, k)
    {
      ok, k := ParseSTBID(tmp, sent);
      if !ok {
        return;
      }
      ok, k := ParseChipID(tmp, sent);
      if !ok {
        return;
      }
      ok, k := ParseMAC(tmp, sent);
    }

    /** All five, up to the first check failed. */
    method ParseItems(ghost sent: Fields) returns (ok: bool, ghost k: nat)
      requires Holding(sent, 0) && sent == Sent(RecvText())
      modifies this`sendflag, this`errorcode, projectid, vendorid, stbid, chipid, macaddr
      ensures if ok then Holding(sent, 7) else Stopped(sent, k)
    {
      var tmp := NewBuffer(RECV_BUFFER_LENGTH);
      ok, k := ParseNames(tmp, sent);
      if ok {
        ok, k := ParseDevice(tmp, sent);
      }
    }

    /** The flags for a record that passed all checks, or stopped at one. */
    method ParseRecord(ghost sent: Fields)
      requires Holding(sent, 0) && sent == Sent(RecvText())
      modifies this`sendflag, this`errorcode, projectid, vendorid, stbid, chipid, macaddr
      ensures Valid() && Current() == AuthOutcome(sent)
    {
      var ok, k := ParseItems(sent);
      if ok {
        ChooseAnswer(sent);
      } else {
        StopsAt(sent, k);
      }
    }

    method ParseQueryAuth()
      requires Valid() && Current() == INITIAL
      modifies this`sendflag, this`errorcode, projectid, vendorid, stbid, chipid, macaddr
      ensures Valid() && Current() == AuthOutcome(Sent(RecvText()))
    {
      ParseRecord(Sent(RecvText()));
    }

    /** Without any of the three device fields, the client wants the sum. */
    method ChooseAnswer(ghost sent: Fields)
      requires Holding(sent, 7)
      modifies this`sendflag
      ensures Valid() && Current() == AuthOutcome(sent)
    {
      StopsNowhere(sent);
      var stblen := StrLen(stbid);
      var chiplen := StrLen(chipid);
      var maclen := StrLen(macaddr);
      if 0 == stblen && 0 == chiplen && 0 == maclen {
        sendflag := QueryAuthSum;
      } else {
        sendflag := QueryAuthState;
      }
    }

    /** Empty in the source: the request keeps its initial flags. */
    method ParseQueryActivate() {
    }

    /** Empty in the source. */
    method ParseActivate() {
    }

    method ParseQuery()
      requires Valid() && Current() == INITIAL && IsQuery(RecvText())
      modifies this`sendflag, this`errorcode, projectid, vendorid, stbid, chipid, macaddr
      ensures Valid() && Current() == Parsed(RecvText())
    {
      var querytype := NewBuffer(RECV_BUFFER_LENGTH);
      assert RecvText()[0..] == RecvText();
      SScanPair(recvdatabuf, 0, querytype);
      ParseByType(querytype);
    }

    /** The value of the leading item decides how the text is parsed. */
    method ParseByType(querytype: array<char>)
      requires Valid() && Current() == INITIAL
      requires IsStr(querytype) && querytype.Length > 1 && querytype !in Repr()
      modifies this`sendflag, this`errorcode, projectid, vendorid, stbid, chipid, macaddr
      ensures Valid() && Current() == QueryOutcome(Str(querytype), Sent(RecvText()))
    {
      var len := StrLen(querytype);
      if 1 != len {
        sendflag, errorcode := ErrorFlag, QueryLenIsWrong;
        return;
      }
      var zero := StrCmpOne(querytype, '0');
      if zero {
        ParseQueryAuth();
        return;
      }
      var one := StrCmpOne(querytype, '1');
      if one {
        ParseQueryActivate();
        return;
      }
      sendflag, errorcode := ErrorFlag, QueryNumberUndefine;
    }

    /** 0 == strcmp(a, [c]) */
    static method StrCmpOne(a: array<char>, c: char) returns (same: bool)
      requires IsStr(a) && c != NUL && a.Length > 1
      ensures same <==> Str(a) == [c]
    {
      TextStops(a[..]);
      same := a[0] == c && a[1] == NUL;
      if same {
        TextIs(a[..], [c]);
      }
      assert Str(a) == [c] ==> a[..][0] == Str(a)[0];
    }

    method ParseRecvBuf()
      requires Valid() && Current() == INITIAL
      modifies this`sendflag, this`errorcode, projectid, vendorid, stbid, chipid, macaddr
      ensures Valid() && Current() == Parsed(RecvText())
    {
      var query := StrNICmpEqual(recvdatabuf, "Query=");
      if query {
        ParseQuery();
        return;
      }
      var activate := StrNICmpEqual(recvdatabuf, "Activate=");
      if activate {
        ParseActivate();
        return;
      }
      sendflag, errorcode := ErrorFlag, NoField;
    }

    // ----- building the payload -----

    method Append(s: string)
      requires Valid() && NUL !in s && |PayloadText()| + |s| < PAYLOAD_BUFFER_LENGTH
      modifies payloadbuf
      ensures Valid() && PayloadText() == old(PayloadText()) + s
    {
      StrCat(payloadbuf, PAYLOAD_BUFFER_LENGTH, s);
    }

    /** A title and a name, one after the other, into the empty payload. */
    method AppendNamed(title: string, name: string)
      requires Valid() && PayloadText() == ""
      requires NUL !in title && NUL !in name && |title| + |name| < PAYLOAD_BUFFER_LENGTH
      modifies payloadbuf
      ensures Valid() && PayloadText() == title + name
    {
      Append(title);
      Append(name);
    }

    method BuildErrorPayLoad() returns (ok: bool)
      requires Valid() && PayloadText() == ""
      modifies payloadbuf
      ensures Valid() && ok == (errorcode != NullError) == ErrorPayload(errorcode).Some?
      ensures PayloadText() == if ok then ErrorPayload(errorcode).value else ""
    {
      if NullError == errorcode {
        return false;
      }
      ghost var name := ErrorParts(errorcode);
      AppendNamed("ErrorCode=", ERROR_CONTEXT[Ordinal(errorcode)].value);
      ok := true;
    }

    method BuildQueryActivateSumPayLoad() returns (ok: bool)
      requires Valid() && PayloadText() == ""
      modifies payloadbuf
      ensures Valid() && ok && PayloadText() == "ActivateSum=0"
    {
      Append("ActivateSum=0");
      ok := true;
    }

    method AppendIfSent(field: array<char>, answer: string)
      requires Valid() && field in {stbid, chipid, macaddr}
      requires NUL !in answer && |PayloadText()| + |answer| < PAYLOAD_BUFFER_LENGTH
      modifies payloadbuf
      ensures Valid() && PayloadText() == old(PayloadText()) + if Str(field) != "" then answer else ""
    {
      var len := StrLen(field);
      if 0 != len {
        Append(answer);
      }
    }

    /** Unlike the Auth case, every identifier present adds its answer. */
    method BuildQueryActivateStatePayLoad() returns (ok: bool)
      requires Valid() && PayloadText() == ""
      modifies payloadbuf
      ensures Valid() && ok && PayloadText() == ActivateStatePayload(Held())
    {
      AppendIfSent(stbid, "ActivateState=StbId");
      ghost var first := PayloadText();
      AppendIfSent(chipid, "ActivateState=ChipId");
      AppendIfSent(macaddr, "ActivateState=Mac");
      assert first == if Str(stbid) != "" then "ActivateState=StbId" else "";
      ok := true;
    }

    method BuildQueryAuthSumPayLoad() returns (ok: bool)
      requires Valid() && PayloadText() == ""
      modifies payloadbuf
      ensures Valid() && ok && PayloadText() == "AuthSum=0"
    {
      Append("AuthSum=0");
      ok := true;
    }

    method BuildQueryAuthStatePayLoad() returns (ok: bool)
      requires Valid() && PayloadText() == ""
      modifies payloadbuf
      ensures Valid() && ok == AuthStatePayload(Held()).Some?
      ensures PayloadText() == if ok then AuthStatePayload(Held()).value else ""
    {
      var len := StrLen(stbid);
      if 0 != len {
        Append("AuthState=StbId");
        return true;
      }
      len := StrLen(chipid);
      if 0 != len {
        Append("AuthState=ChipId");
        return true;
      }
      len := StrLen(macaddr);
      if 0 != len {
        Append("AuthState=Mac");
        return true;
      }
      ok := false;
    }

    method BuildPayLoad() returns (ok: bool)
      requires Valid() && PayloadText() == ""
      modifies payloadbuf
      ensures Valid() && ok == Payload(Current()).Some?
      ensures PayloadText() == if ok then Payload(Current()).value else ""
    {
      match sendflag {
        case ErrorFlag => ok := BuildErrorPayLoad();
        case QueryAuthState => ok := BuildQueryAuthStatePayLoad();
        case QueryAuthSum => ok := BuildQueryAuthSumPayLoad();
        case QueryActivateState => ok := BuildQueryActivateStatePayLoad();
        case QueryActivateSum => ok := BuildQueryActivateSumPayLoad();
        case ActivateSucceed => ok := true;
        case ActivateFailed => ok := true;
        case NullFlag => ok := false;
      }
    }

    /** The answer to the request the object was made with, in its payload buffer. */
    method HandleHttpData() returns (ok: bool)
      requires Valid() && Current() == INITIAL && PayloadText() == ""
      modifies Repr()
      ensures Valid() && RecvText() == old(RecvText())
      ensures ok == Answer(RecvText()).Some?
      ensures PayloadText() == if ok then Answer(RecvText()).value else ""
    {
      ParseRecvBuf();
      ok := BuildPayLoad();
    }
  }
}
