/** HttpData with the database step between parsing and building, on fixed name and query buffers. */
module MySqlRequest {
  import opened CString
  import opened Database
  import opened HttpRequest
  import opened Options
  import opened Query
  import Decimal

  class MySqlHttpData {
    /** The HttpData this object extends. */
    const http: HttpData
    const databasename: array<char>
    const tablename: array<char>

    ghost function Repr(): set<object> {
      {this, databasename, tablename} + http.Repr()
    }

    ghost predicate Valid()
      reads Repr()
    {
      && http.Valid()
      && databasename.Length == NAME_LENGTH && IsStr(databasename)
      && tablename.Length == NAME_LENGTH && IsStr(tablename)
      && databasename != tablename
      && databasename !in http.Repr() && tablename !in http.Repr()
    }

    /** The names of the state s, as far as ConnectDatabase has built them. */
    ghost predicate NamesBuilt(f: Fields)
      reads databasename, tablename
    {
      Str(databasename) == DatabaseName(f) && Str(tablename) == TableName(f)
    }

    constructor (comedata: string)
      requires NUL !in comedata && |comedata| < RECV_BUFFER_LENGTH
      ensures Valid() && fresh(Repr())
      ensures http.RecvText() == comedata && http.PayloadText() == "" && http.Current() == INITIAL
      ensures Str(databasename) == "" && Str(tablename) == ""
      ensures databasename.Length == tablename.Length == 32
    {
      var base := new HttpData(comedata);
      var database := NewBuffer(NAME_LENGTH);
      var table := NewBuffer(NAME_LENGTH);
      http, databasename, tablename := base, database, table;
    }

    /** The literal pieces appended one after the other to a cleared local query buffer. */
    static method MakeQuery(head: string, name: string) returns (query: array<char>)
      requires NUL !in head && NUL !in name && |head| + |name| < QUERY_STRING_LEN
      ensures fresh(query) && query.Length == QUERY_STRING_LEN
      ensures IsStr(query) && Str(query) == head + name
    {
      query := NewBuffer(QUERY_STRING_LEN);
      StrCat(query, QUERY_STRING_LEN, head);
      StrCat(query, QUERY_STRING_LEN, name);
    }

    /** sprintf_s(quoted, size, "\"%s\"", name) */
    static method MakeQuoted(name: array<char>, size: nat) returns (quoted: array<char>)
      requires IsStr(name) && |Quoted(Str(name))| < size
      ensures fresh(quoted) && quoted.Length == size
      ensures IsStr(quoted) && Str(quoted) == Quoted(Str(name))
    {
      TextStops(name[..]);
      quoted := NewBuffer(size);
      StrNCpy(quoted, size, Quoted(Text(name[..])));
    }

    /** strcat_s is told QUERY_STRING_LEN for a buffer of NAME_LENGTH. */
    static method BuildName(buf: array<char>, header: string, id: array<char>)
      requires buf.Length == NAME_LENGTH && IsStr(buf) && Str(buf) == "" && IsStr(id) && buf != id
      requires NUL !in header && |header| + |Str(id)| < NAME_LENGTH
      modifies buf
      ensures IsStr(buf) && Str(buf) == header + Str(id)
    {
      TextStops(id[..]);
      StrCat(buf, QUERY_STRING_LEN, header);
      StrCat(buf, QUERY_STRING_LEN, Text(id[..]));
    }

    /** Name the database and ask for it; the USE statement is built as well but never sent. */
    method AskSchema(db: Session) returns (reply: Reply)
      requires Valid() && http.Held().Bounded() && Str(databasename) == ""
      modifies databasename
      ensures Valid() && Str(databasename) == DatabaseName(http.Held())
      ensures reply == db.answers(SchemaQuery(http.Held()))
    {
      NamesFit(http.Held());
      LiteralsPlain();
      BuildName(databasename, "ProjectID_", http.projectid);
      var quoted := MakeQuoted(databasename, NAME_LENGTH + 3);
      TextStops(quoted[..]);
      var query := MakeQuery(SELECT_SCHEMA, Text(quoted[..]));
      var use := MakeQuery("USE ", Text(quoted[..]));
      reply := db.answers(Text(query[..]));
    }

    method AskTable(db: Session) returns (reply: Reply)
      requires Valid() && http.Held().Bounded() && Str(tablename) == ""
      modifies tablename
      ensures Valid() && Str(tablename) == TableName(http.Held())
      ensures reply == db.answers(TableQuery(http.Held()))
    {
      NamesFit(http.Held());
      LiteralsPlain();
      BuildName(tablename, "VendorID_", http.vendorid);
      var quoted := MakeQuoted(tablename, NAME_LENGTH + 3);
      TextStops(quoted[..]);
      var query := MakeQuery(SELECT_TABLE, Text(quoted[..]));
      reply := db.answers(Text(query[..]));
    }

    /** The step between parsing and building; it may replace the flags by an error of its own. */
    method ConnectDatabase(db: Session) returns (ok: bool)
      requires Valid() && Consistent(http.Current())
      requires Str(databasename) == "" && Str(tablename) == ""
      modifies databasename, tablename, http`sendflag, http`errorcode
      ensures Valid()
      ensures ok == Connected(db, old(http.Current())).Some?
      ensures ok ==> http.Current() == Connected(db, old(http.Current())).value
      ensures ok && http.sendflag != ErrorFlag ==> NamesBuilt(http.Held())
    {
      if !db.connects {
        return false;
      }
      var schemas := AskSchema(db);
      if !schemas.Rows? {
        return false;
      }
      if 0 == schemas.n {
        http.sendflag, http.errorcode := ErrorFlag, ProjectIDIsWrong;
        return true;
      }
      TextStops(databasename[..]);
      if !db.selects(Text(databasename[..])) {
        return false;
      }
      var tables := AskTable(db);
      if !tables.Rows? {
        return false;
      }
      if 0 == tables.n {
        http.sendflag, http.errorcode := ErrorFlag, VendorIDIsWrong;
      }
      ok := true;
    }

    // ----- payload builders -----

    /** A label and a row count printed by _itoa_s into SUM_LENGTH bytes; a failure leaves the label alone. */
    method AppendCount(title: string, rows: nat) returns (ok: bool)
      requires Valid() && http.PayloadText() == "" && NUL !in title && |title| < 32
      modifies http.payloadbuf
      ensures Valid() && ok == CountPayload(title, rows).Some?
      ensures ok ==> http.PayloadText() == CountPayload(title, rows).value
    {
      http.Append(title);
      var count := Decimal.ToInt32(rows);
      var numeral := Decimal.PrintInt(count);
      ok := |numeral| < SUM_LENGTH;
      if ok {
        Decimal.NumeralPlain(count);
        http.Append(numeral);
      }
    }

    method BuildQueryAuthSumPayLoad(db: Session) returns (ok: bool)
      requires Valid() && http.PayloadText() == "" && NamesBuilt(http.Held()) && http.Held().Bounded()
      modifies http.payloadbuf
      ensures Valid() && ok == SumPayload(db, http.Held()).Some?
      ensures ok ==> http.PayloadText() == SumPayload(db, http.Held()).value
    {
      NamesFit(http.Held());
      LiteralsPlain();
      TextStops(tablename[..]);
      var query := MakeQuery(SELECT_ALL, Text(tablename[..]));
      var reply := db.answers(Text(query[..]));
      if !reply.Rows? {
        return false;
      }
      ok := AppendCount("AuthSum=", reply.n);
    }

    method MakeDeviceQuery() returns (query: array<char>)
      requires Valid() && NamesBuilt(http.Held()) && http.Held().Bounded()
      ensures fresh(query) && IsStr(query) && Str(query) == DeviceQuery(http.Held())
    {
      NamesFit(http.Held());
      LiteralsPlain();
      TextStops(tablename[..]);
      query := MakeQuery(SELECT_ALL, Text(tablename[..]));
      StrCat(query, QUERY_STRING_LEN, WHERE_STBID);
      var tempstbid := MakeQuoted(http.stbid, STBID_LENGTH + 3);
      TextStops(tempstbid[..]);
      StrCat(query, QUERY_STRING_LEN, Text(tempstbid[..]));
    }

    method BuildQueryAuthPayLoadByStbId(db: Session) returns (ok: bool)
      requires Valid() && http.PayloadText() == "" && NamesBuilt(http.Held()) && http.Held().Bounded()
      modifies http.payloadbuf
      ensures Valid() && ok == DevicePayload(db, http.Held()).Some?
      ensures ok ==> http.PayloadText() == DevicePayload(db, http.Held()).value
    {
      var query := MakeDeviceQuery();
      var reply := db.answers(Text(query[..]));
      if !reply.Rows? {
        return false;
      }
      if 1 > Decimal.ToInt32(reply.n) {
        return false;
      }
      ok := AppendCount("AuthState=", reply.n);
    }

    /** The inherited dispatch, with the two builders this class overrides. */
    method BuildPayLoad(db: Session) returns (ok: bool)
      requires Valid() && http.PayloadText() == "" && http.Held().Bounded()
      requires http.sendflag != ErrorFlag ==> NamesBuilt(http.Held())
      modifies http.payloadbuf
      ensures Valid() && ok == DbPayload(db, http.Current()).Some?
      ensures ok ==> http.PayloadText() == DbPayload(db, http.Current()).value
    {
      if http.sendflag == QueryAuthSum {
        ok := BuildQueryAuthSumPayLoad(db);
        return;
      }
      var len := StrLen(http.stbid);
      if http.sendflag == QueryAuthState && 0 != len {
        ok := BuildQueryAuthPayLoadByStbId(db);
        return;
      }
      ok := http.BuildPayLoad();
    }

    method HandleHttpData(db: Session) returns (ok: bool)
      requires Valid() && http.Current() == INITIAL && http.PayloadText() == ""
      requires Str(databasename) == "" && Str(tablename) == ""
      modifies Repr()
      ensures Valid()
      ensures ok == DbAnswer(db, old(http.RecvText())).Some?
      ensures ok ==> http.PayloadText() == DbAnswer(db, old(http.RecvText())).value
    {
      http.ParseRecvBuf();
      ParseIsConsistent(http.RecvText());
      ok := ConnectDatabase(db);
      if !ok {
        return;
      }
      ok := BuildPayLoad(db);
    }
  }
}
