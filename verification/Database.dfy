/**
 How the database decides an answer: the names and queries made from a parsed request, and what
 their replies do to it.
 */
module Database {
  import opened Options
  import opened Query
  import opened SqlLiteral
  import Decimal

  const NAME_LENGTH := 32
  const QUERY_STRING_LEN := 256
  const SUM_LENGTH := 8

  /** One query: mysql_real_query fails, mysql_store_result yields nothing, or a number of rows. */
  datatype Reply = QueryError | NoResult | Rows(n: nat)

  /** Everything the MySQL server may do during one request. */
  datatype Session = Session(connects: bool, selects: string -> bool, answers: string -> Reply)

  function DatabaseName(f: Fields): string {
    "ProjectID_" + f.projectid
  }

  function TableName(f: Fields): string {
    "VendorID_" + f.vendorid
  }

  function Quoted(s: string): string {
    "\"" + s + "\""
  }

  const SELECT_SCHEMA := "SELECT schema_name " + "FROM SCHEMATA " + "WHERE schema_name="
  const SELECT_TABLE := "SELECT table_name " + "FROM information_schema.TABLES " + "WHERE table_name="
  const SELECT_ALL := "SELECT * FROM "
  const WHERE_STBID := " WHERE stbid="

  function SchemaQuery(f: Fields): string {
    SELECT_SCHEMA + Quoted(DatabaseName(f))
  }

  function TableQuery(f: Fields): string {
    SELECT_TABLE + Quoted(TableName(f))
  }

  function SumQuery(f: Fields): string {
    SELECT_ALL + TableName(f)
  }

  function DeviceQuery(f: Fields): string {
    SELECT_ALL + TableName(f) + WHERE_STBID + Quoted(f.stbid)
  }

  /** The names and queries of bounded fields fit the buffers really allocated for them. */
  lemma NamesFit(f: Fields)
    requires f.Bounded()
    ensures |DatabaseName(f)| < NAME_LENGTH && |Quoted(DatabaseName(f))| < NAME_LENGTH + 3
    ensures |TableName(f)| < NAME_LENGTH && |Quoted(TableName(f))| < NAME_LENGTH + 3
    ensures |Quoted(f.stbid)| < STBID_LENGTH + 3
    ensures |SchemaQuery(f)| < QUERY_STRING_LEN && |TableQuery(f)| < QUERY_STRING_LEN
    ensures |SumQuery(f)| < QUERY_STRING_LEN && |DeviceQuery(f)| < QUERY_STRING_LEN
    ensures |"USE " + Quoted(DatabaseName(f))| < QUERY_STRING_LEN
    ensures NAME_LENGTH == 32 && QUERY_STRING_LEN == 256 && SUM_LENGTH == 8
  {
    assert |SELECT_SCHEMA| < 64 && |SELECT_TABLE| < 80 && |SELECT_ALL| < 20 && |WHERE_STBID| < 20;
  }

  lemma LiteralsPlain()
    ensures '\0' !in SELECT_SCHEMA && '\0' !in SELECT_TABLE && '\0' !in SELECT_ALL && '\0' !in WHERE_STBID
  {
    assert '\0' !in "SELECT schema_name " && '\0' !in "FROM SCHEMATA " && '\0' !in "WHERE schema_name=";
    assert '\0' !in "SELECT table_name " && '\0' !in "FROM information_schema.TABLES " && '\0' !in "WHERE table_name=";
  }

  // ----- the names as the database reads them -----

  /** A name built from a plain header and an identifier is safe when the identifier is. */
  lemma NameExact(query: string, head: string, header: string, id: string)
    requires LiteralSafe(header) && query == head + Quoted(header + id)
    ensures query == (head + "\"") + ((header + id) + "\"")
    ensures ReadLiteral((header + id) + "\"") == Some(Literal(header + id, "")) <==> LiteralSafe(id)
  {
    var name := header + id;
    LiteralExact(name);
    assert name[..|header|] == header && name[|header|..] == id;
    SafeTail(name, |header|);
  }

  /** The literal at the end of the device query reads as the STBID exactly when that is safe. */
  lemma DeviceLiteral(f: Fields)
    ensures DeviceQuery(f) == (SELECT_ALL + TableName(f) + WHERE_STBID + "\"") + (f.stbid + "\"")
    ensures ReadLiteral(f.stbid + "\"") == Some(Literal(f.stbid, "")) <==> LiteralSafe(f.stbid)
  {
    NameExact(DeviceQuery(f), SELECT_ALL + TableName(f) + WHERE_STBID, "", f.stbid);
    assert "" + f.stbid == f.stbid;
  }

  /** The parts of the table queries around the vendor. */
  const TABLE_HEAD := SELECT_ALL + "VendorID_"

  lemma AroundVendor()
    ensures Around(TABLE_HEAD, WHERE_STBID)
  {
    SelectIsPlain();
    VendorIsPlain();
    PlainJoined(SELECT_ALL, "VendorID_");
    PlainIsCode(TABLE_HEAD);
    WhereIsPlain();
    PlainIsCode(WHERE_STBID);
  }

  lemma SelectIsPlain()
    ensures PlainText(SELECT_ALL)
  {
  }

  lemma VendorIsPlain()
    ensures PlainText("VendorID_")
  {
  }

  lemma WhereIsPlain()
    ensures PlainText(WHERE_STBID) && WHERE_STBID[0] == ' '
  {
  }

  lemma DeviceQueryParts(f: Fields)
    ensures DeviceQuery(f) == TABLE_HEAD + (f.vendorid + (WHERE_STBID + ("\"" + f.stbid + "\"")))
    ensures SumQuery(f) == TABLE_HEAD + f.vendorid
  {
    Reordered(SELECT_ALL, "VendorID_", f.vendorid, WHERE_STBID, Quoted(f.stbid));
  }

  lemma Reordered(a: string, b: string, c: string, d: string, e: string)
    ensures a + (b + c) + d + e == (a + b) + (c + (d + e))
    ensures a + (b + c) == (a + b) + c
  {
  }

  /**
   The device query is code and one literal at its end that reads as the STBID sent, if and only if the
   STBID has no double quote and no backslash but before % or _, and the vendor opens no quote and no
   comment.
   */
  lemma DeviceNamedExactly(f: Fields)
    ensures OnlyLiteral(DeviceQuery(f)) == Some(f.stbid) <==> LiteralSafe(f.stbid) && OnlyCode(f.vendorid)
  {
    AroundVendor();
    DeviceQueryParts(f);
    OnlyLiteralExact(TABLE_HEAD, f.vendorid, WHERE_STBID, f.stbid);
  }

  /** The sum query holds no literal and no comment exactly when the vendor opens none. */
  lemma SumIsCode(f: Fields)
    ensures OnlyCode(SumQuery(f)) <==> OnlyCode(f.vendorid)
  {
    AroundVendor();
    DeviceQueryParts(f);
    OnlyCodeExact(TABLE_HEAD, f.vendorid);
  }

  /** A vendor with a quote after code: the device query is code up to that quote. */
  lemma VendorOpens(f: Fields, before: string, after: string)
    requires f.vendorid == before + ("\"" + after) && OnlyCode(before)
    ensures CodeLength(DeviceQuery(f)) == |TABLE_HEAD| + |before| < |DeviceQuery(f)|
    ensures DeviceQuery(f) == (TABLE_HEAD + before) + ("\"" + ((after + WHERE_STBID) + ("\"" + (f.stbid + "\""))))
  {
    AroundVendor();
    DeviceQueryParts(f);
    var query, n := DeviceQuery(f), |TABLE_HEAD| + |before|;
    forall i | 0 <= i <= n
      ensures OpensAt(query, i) <==> i == n
    {
      OpensInQuery(TABLE_HEAD, f.vendorid, WHERE_STBID, f.stbid, i);
      if |TABLE_HEAD| <= i < n {
        OpensBeforeQuote(before, "\"" + after, i - |TABLE_HEAD|);
        assert !OpensAt(before, i - |TABLE_HEAD|);
      }
    }
    assert OpensAt(query, n) && CodeLength(query) == n;
  }

  /** What the database then reads from that quote on, in the device and in the table query. */
  lemma VendorQuote(f: Fields, before: string, after: string)
    requires f.vendorid == before + ("\"" + after) && OnlyCode(before)
    requires '"' !in before && '\\' !in before && '"' !in after && '\\' !in after
    requires f.stbid != "" && f.stbid[0] != '"' && after != ""
    ensures var at := CodeLength(DeviceQuery(f));
            && at < |DeviceQuery(f)|
            && ReadLiteral(DeviceQuery(f)[at + 1..]) == Some(Literal(after + WHERE_STBID, f.stbid + "\""))
    ensures ReadLiteral(TableName(f) + "\"") == Some(Literal("VendorID_" + before, after + "\""))
  {
    VendorOpens(f, before, after);
    WhereIsPlain();
    VendorIsPlain();
    var read, left := after + WHERE_STBID, f.stbid + "\"";
    AfterHead(TABLE_HEAD + before, '"', read + ("\"" + left));
    LiteralEnds(read, left);
    assert TableName(f) + "\"" == ("VendorID_" + before) + ("\"" + (after + "\""));
    LiteralEnds("VendorID_" + before, after + "\"");
  }

  lemma AfterHead(head: string, c: char, tail: string)
    ensures (head + ([c] + tail))[|head| + 1..] == tail
  {
  }

  lemma SchemaNamedExactly(f: Fields)
    ensures SchemaQuery(f) == (SELECT_SCHEMA + "\"") + (DatabaseName(f) + "\"")
    ensures ReadLiteral(DatabaseName(f) + "\"") == Some(Literal(DatabaseName(f), "")) <==> LiteralSafe(f.projectid)
  {
    NameExact(SchemaQuery(f), SELECT_SCHEMA, "ProjectID_", f.projectid);
  }

  lemma TableNamedExactly(f: Fields)
    ensures TableQuery(f) == (SELECT_TABLE + "\"") + (TableName(f) + "\"")
    ensures ReadLiteral(TableName(f) + "\"") == Some(Literal(TableName(f), "")) <==> LiteralSafe(f.vendorid)
  {
    NameExact(TableQuery(f), SELECT_TABLE, "VendorID_", f.vendorid);
  }

  // ----- the step between parsing and building -----

  /** The state after ConnectDatabase, or None when it fails. */
  function Connected(db: Session, s: State): Option<State> {
    if !db.connects then None
    else
      match db.answers(SchemaQuery(s.fields))
      case QueryError => None
      case NoResult => None
      case Rows(n) =>
        if n == 0 then Some(s.(flag := ErrorFlag, error := ProjectIDIsWrong))
        else if !db.selects(DatabaseName(s.fields)) then None
        else
          match db.answers(TableQuery(s.fields))
          case QueryError => None
          case NoResult => None
          case Rows(m) => Some(if m == 0 then s.(flag := ErrorFlag, error := VendorIDIsWrong) else s)
  }

  /** A row count as text, when it fits SUM_LENGTH. */
  function CountPayload(prefix: string, n: nat): Option<string> {
    var count := Decimal.ToInt32(n);
    if Decimal.Fits(count, SUM_LENGTH) then Some(prefix + Decimal.PrintInt(count)) else None
  }

  function SumPayload(db: Session, f: Fields): Option<string> {
    match db.answers(SumQuery(f))
    case QueryError => None
    case NoResult => None
    case Rows(n) => CountPayload("AuthSum=", n)
  }

  function DevicePayload(db: Session, f: Fields): Option<string> {
    match db.answers(DeviceQuery(f))
    case QueryError => None
    case NoResult => None
    case Rows(n) => if 1 > Decimal.ToInt32(n) then None else CountPayload("AuthState=", n)
  }

  /** The payload of the derived class: sums and STBID states are counted, the rest is inherited. */
  function DbPayload(db: Session, s: State): Option<string> {
    if s.flag == QueryAuthSum then SumPayload(db, s.fields)
    else if s.flag == QueryAuthState && s.fields.stbid != "" then DevicePayload(db, s.fields)
    else Payload(s)
  }

  function DbAnswer(db: Session, text: string): Option<string> {
    match Connected(db, Parsed(text))
    case None => None
    case Some(s) => DbPayload(db, s)
  }

  // ----- the database step keeps what the builder relies on -----

  lemma ConnectedConsistent(db: Session, s: State)
    requires Consistent(s) && Connected(db, s).Some?
    ensures Consistent(Connected(db, s).value) && Connected(db, s).value.fields == s.fields
  {
  }

  /**
   Counts of 2^31 rows and more are wrapped to 32 bits first. So a payload is made exactly when the
   wrapped count fits, and shows the true count exactly up to 9999999 rows.
   */
  lemma CountExact(prefix: string, n: nat)
    ensures CountPayload(prefix, n).Some? <==> -999999 <= Decimal.ToInt32(n) <= 9999999
  {
    Decimal.FitsEight(Decimal.ToInt32(n));
  }

  lemma CountTrue(prefix: string, n: nat)
    ensures CountPayload(prefix, n) == Some(prefix + Decimal.Print(n)) <==> n <= 9999999
  {
    var count := Decimal.ToInt32(n);
    Decimal.FitsEight(count);
    SmallCount(n);
    Decimal.PrintIntIsPrint(count, n);
    SamePrefix(prefix, Decimal.PrintInt(count), Decimal.Print(n));
  }

  lemma SmallCount(n: nat)
    ensures Decimal.ToInt32(n) == n <==> n < 0x8000_0000
  {
  }

  /** A count read back from the payload: exact for every row count the buffer can show, refused for every other. */
  lemma CountReadBack(prefix: string, n: nat)
    requires n < 0x8000_0000
    ensures CountPayload(prefix, n).Some? <==> n <= 9999999
    ensures n <= 9999999 ==>
              && CountPayload(prefix, n) == Some(prefix + Decimal.Print(n))
              && (prefix + Decimal.Print(n))[|prefix|..] == Decimal.Print(n)
              && Decimal.Read(Decimal.Print(n)) == n
  {
    SmallCount(n);
    CountExact(prefix, n);
    CountTrue(prefix, n);
    Decimal.ReadPrint(n);
  }

  /** A payload shows a wrong number exactly for counts from 2^31 on that wrap to one that fits. */
  lemma CountWrong(prefix: string, n: nat)
    ensures CountPayload(prefix, n).Some? && CountPayload(prefix, n) != Some(prefix + Decimal.Print(n)) <==>
            n >= 0x8000_0000 &&
            (n % 0x1_0000_0000 <= 9999999 || n % 0x1_0000_0000 >= 0x1_0000_0000 - 999999)
  {
    CountExact(prefix, n);
    CountTrue(prefix, n);
    WrapsIntoRange(n);
  }

  lemma WrapsIntoRange(n: nat)
    ensures n > 9999999 && -999999 <= Decimal.ToInt32(n) <= 9999999 <==>
            n >= 0x8000_0000 &&
            (n % 0x1_0000_0000 <= 9999999 || n % 0x1_0000_0000 >= 0x1_0000_0000 - 999999)
  {
    if n < 0x8000_0000 {
      SmallCount(n);
    }
  }

  /** So 2^32 rows are reported as none. */
  lemma WrappedCount(prefix: string)
    ensures CountPayload(prefix, 0x1_0000_0000) == Some(prefix + "0")
  {
    assert Decimal.ToInt32(0x1_0000_0000) == 0;
    assert Decimal.Print(0) == "0";
  }

  /** For one device no row is an error, so the true count is shown exactly from 1 to 9999999 rows ... */
  lemma DeviceTrue(db: Session, f: Fields, n: nat)
    requires db.answers(DeviceQuery(f)) == Rows(n)
    ensures DevicePayload(db, f) == Some("AuthState=" + Decimal.Print(n)) <==> 1 <= n <= 9999999
  {
    SmallCount(n);
    CountTrue("AuthState=", n);
  }

  /** ... and a wrong one exactly for counts from 2^31 on that wrap into that range. */
  lemma DeviceWrong(db: Session, f: Fields, n: nat)
    requires db.answers(DeviceQuery(f)) == Rows(n)
    ensures DevicePayload(db, f).Some? && DevicePayload(db, f) != Some("AuthState=" + Decimal.Print(n)) <==>
            n >= 0x8000_0000 && 1 <= n % 0x1_0000_0000 <= 9999999
  {
    CountExact("AuthState=", n);
    CountWrong("AuthState=", n);
    DeviceTrue(db, f, n);
    SmallCount(n);
  }

  /** A server without failures: it connects, selects, answers every query, and its counts fit. */
  ghost predicate Faultless(db: Session) {
    && db.connects
    && (forall name :: db.selects(name))
    && (forall q :: db.answers(q).Rows? && db.answers(q).n <= 9999999)
  }

  predicate KnowsNames(db: Session, f: Fields) {
    db.answers(SchemaQuery(f)) != Rows(0) && db.answers(TableQuery(f)) != Rows(0)
  }

  /** The database can be asked and has a schema and a table of the record's names. */
  predicate Recognised(db: Session, f: Fields) {
    && db.connects && db.selects(DatabaseName(f))
    && db.answers(SchemaQuery(f)).Rows? && db.answers(SchemaQuery(f)).n > 0
    && db.answers(TableQuery(f)).Rows? && db.answers(TableQuery(f)).n > 0
  }

  lemma FaultlessRecognised(db: Session, f: Fields)
    requires Faultless(db)
    ensures Recognised(db, f) <==> KnowsNames(db, f)
  {
  }

  /** The two codes of the database step are never a parser's. */
  lemma ParserSparesNames(text: string)
    ensures Parsed(text).error !in {ProjectIDIsWrong, VendorIDIsWrong}
  {
    if IsQuery(text) && QueryType(text) == "0" {
      AuthSparesNames(Sent(text));
      assert Parsed(text) == AuthOutcome(Sent(text));
    }
  }

  lemma AuthSparesNames(sent: Fields)
    ensures AuthOutcome(sent).error !in {ProjectIDIsWrong, VendorIDIsWrong}
  {
  }

  /** A refused state passes the step unchanged when the names are recognised, and is answered differently if not. */
  lemma ConnectedAnswer(db: Session, s: State)
    requires Consistent(s) && s.flag == ErrorFlag && s.error !in {ProjectIDIsWrong, VendorIDIsWrong}
    ensures var v := Connected(db, s);
            && (Recognised(db, s.fields) ==> v == Some(s))
            && (!Recognised(db, s.fields) ==> v.None? || DbPayload(db, v.value) != Payload(s))
            && Payload(s).Some?
  {
    BuilderTotal(s);
    ErrorsDistinct(s.error, ProjectIDIsWrong);
    ErrorsDistinct(s.error, VendorIDIsWrong);
  }

  /**
   A client whose request is refused learns the parser's error exactly when the database can be asked
   and recognises the names; without failures of the server, exactly when the names are known.
   */
  lemma OwnErrorLearned(db: Session, text: string)
    requires Parsed(text).flag == ErrorFlag
    ensures DbAnswer(db, text) == Answer(text) <==> Recognised(db, Parsed(text).fields)
    ensures Faultless(db) ==> (DbAnswer(db, text) == Answer(text) <==> KnowsNames(db, Parsed(text).fields))
  {
    var s := Parsed(text);
    ParseIsConsistent(text);
    ParserSparesNames(text);
    ConnectedAnswer(db, s);
    if Faultless(db) {
      FaultlessRecognised(db, s.fields);
    }
  }

  /** Which answer every request gets when a name is unknown, refused requests and unanswered ones included. */
  lemma UnknownNameAnswered(db: Session, text: string)
    requires Faultless(db)
    ensures var f := Parsed(text).fields;
            DbAnswer(db, text) ==
              if db.answers(SchemaQuery(f)) == Rows(0) then Some("ErrorCode=ProjectIDIsWrong")
              else if db.answers(TableQuery(f)) == Rows(0) then Some("ErrorCode=VendorIDIsWrong")
              else DbPayload(db, Parsed(text))
  {
    NameErrors();
  }

  lemma NameErrors()
    ensures ErrorPayload(ProjectIDIsWrong) == Some("ErrorCode=ProjectIDIsWrong")
    ensures ErrorPayload(VendorIDIsWrong) == Some("ErrorCode=VendorIDIsWrong")
  {
    assert "ErrorCode=" + "ProjectIDIsWrong" == "ErrorCode=ProjectIDIsWrong";
    assert "ErrorCode=" + "VendorIDIsWrong" == "ErrorCode=VendorIDIsWrong";
  }

  /** A server that never fails and has no schema at all. */
  const BARE_SERVER := Session(true, (name: string) => true, (query: string) => Rows(0))

  /** There a request that is no query at all, refused as such by the plain class, is told of a wrong project. */
  lemma ErrorReplaced()
    ensures Faultless(BARE_SERVER)
    ensures Answer("x") == Some("ErrorCode=NoField")
    ensures DbAnswer(BARE_SERVER, "x") == Some("ErrorCode=ProjectIDIsWrong")
  {
    assert Parsed("x") == Refused(NoField);
    assert "ErrorCode=" + "NoField" == "ErrorCode=NoField";
    UnknownNameAnswered(BARE_SERVER, "x");
  }

  /** Without failures the step changes nothing, or reports the name that is missing. */
  lemma FaultlessConnected(db: Session, s: State)
    requires Faultless(db)
    ensures Connected(db, s).Some?
    ensures KnowsNames(db, s.fields) ==> Connected(db, s).value == s
    ensures !KnowsNames(db, s.fields) ==>
              var v := Connected(db, s).value;
              v.flag == ErrorFlag && v.error in {ProjectIDIsWrong, VendorIDIsWrong}
  {
  }

  lemma FaultlessCounts(db: Session, f: Fields)
    requires Faultless(db)
    ensures SumPayload(db, f).Some?
    ensures DevicePayload(db, f).None? <==> db.answers(DeviceQuery(f)) == Rows(0)
  {
    var n, m := db.answers(SumQuery(f)).n, db.answers(DeviceQuery(f)).n;
    SmallCount(n);
    SmallCount(m);
    CountExact("AuthSum=", n);
    CountExact("AuthState=", m);
  }

  lemma FaultlessPayload(db: Session, s: State)
    requires Faultless(db)
    ensures DbPayload(db, s).None? <==>
            if s.flag == QueryAuthSum then false
            else if s.flag == QueryAuthState && s.fields.stbid != "" then db.answers(DeviceQuery(s.fields)) == Rows(0)
            else Payload(s).None?
  {
    FaultlessCounts(db, s.fields);
  }

  /**
   With a faultless server whose names match, exactly three kinds of request stay unanswered:
   Activate, Query=1, and an STBID that no row has. Without a match even those are answered, by an error.
   */
  lemma FaultlessUnanswered(db: Session, text: string)
    requires Faultless(db)
    ensures var s := Parsed(text);
            DbAnswer(db, text).None? <==>
            && KnowsNames(db, s.fields)
            && (Answer(text).None? ||
                (s.flag == QueryAuthState && s.fields.stbid != "" && db.answers(DeviceQuery(s.fields)) == Rows(0)))
  {
    var s := Parsed(text);
    ParseIsConsistent(text);
    BuilderTotal(s);
    FaultlessConnected(db, s);
    FaultlessPayload(db, Connected(db, s).value);
    ErrorNamed(Connected(db, s).value.error);
  }

  // ----- every answer, by the database's replies alone -----

  /** The four queries, written out. */
  lemma QueryTexts(f: Fields)
    ensures SchemaQuery(f) ==
            "SELECT schema_name " + "FROM SCHEMATA " + "WHERE schema_name="
            + ("\"" + ("ProjectID_" + f.projectid) + "\"")
    ensures TableQuery(f) ==
            "SELECT table_name " + "FROM information_schema.TABLES " + "WHERE table_name="
            + ("\"" + ("VendorID_" + f.vendorid) + "\"")
    ensures SumQuery(f) == "SELECT * FROM " + ("VendorID_" + f.vendorid)
    ensures DeviceQuery(f) ==
            "SELECT * FROM " + ("VendorID_" + f.vendorid) + " WHERE stbid=" + ("\"" + f.stbid + "\"")
    ensures DatabaseName(f) == "ProjectID_" + f.projectid
  {
  }

  /** Payloads of the plain class never name the two errors of the database step. */
  lemma PayloadSparesNames(s: State)
    requires Consistent(s) && s.error !in {ProjectIDIsWrong, VendorIDIsWrong}
    ensures Payload(s) != ErrorPayload(ProjectIDIsWrong) && Payload(s) != ErrorPayload(VendorIDIsWrong)
  {
    var project := ErrorParts(ProjectIDIsWrong);
    var vendor := ErrorParts(VendorIDIsWrong);
    if s.flag == ErrorFlag {
      ErrorsDistinct(s.error, ProjectIDIsWrong);
      ErrorsDistinct(s.error, VendorIDIsWrong);
    } else {
      AnswerHead(s, project);
      AnswerHead(s, vendor);
    }
  }

  lemma AnswerHead(s: State, name: string)
    requires Consistent(s) && s.flag != ErrorFlag
    ensures Payload(s) != Some("ErrorCode=" + name)
  {
    assert ("ErrorCode=" + name)[0] == 'E';
    assert Payload(s).Some? ==> |Payload(s).value| > 0 && Payload(s).value[0] == 'A';
  }

  lemma CountSparesNames(prefix: string, n: nat, name: string)
    requires |prefix| > 0 && prefix[0] == 'A'
    ensures CountPayload(prefix, n) != Some("ErrorCode=" + name)
  {
    assert ("ErrorCode=" + name)[0] == 'E';
    assert CountPayload(prefix, n).Some? ==> CountPayload(prefix, n).value[0] == 'A';
  }

  lemma DbPayloadSparesNames(db: Session, s: State)
    requires Consistent(s) && s.error !in {ProjectIDIsWrong, VendorIDIsWrong}
    ensures DbPayload(db, s) != ErrorPayload(ProjectIDIsWrong) && DbPayload(db, s) != ErrorPayload(VendorIDIsWrong)
  {
    var project := ErrorParts(ProjectIDIsWrong);
    var vendor := ErrorParts(VendorIDIsWrong);
    PayloadSparesNames(s);
    var sum, device := db.answers(SumQuery(s.fields)), db.answers(DeviceQuery(s.fields));
    if sum.Rows? {
      CountSparesNames("AuthSum=", sum.n, project);
      CountSparesNames("AuthSum=", sum.n, vendor);
    }
    if device.Rows? {
      CountSparesNames("AuthState=", device.n, project);
      CountSparesNames("AuthState=", device.n, vendor);
    }
  }

  /** The database step on a state, by the replies it gets. */
  lemma ConnectedByReplies(db: Session, s: State)
    ensures var schema, table := db.answers(SchemaQuery(s.fields)), db.answers(TableQuery(s.fields));
            Connected(db, s) ==
              if !db.connects || schema == QueryError || schema == NoResult then None
              else if schema == Rows(0) then Some(State(ErrorFlag, ProjectIDIsWrong, s.fields))
              else if !db.selects("ProjectID_" + s.fields.projectid) then None
              else if table == QueryError || table == NoResult then None
              else if table == Rows(0) then Some(State(ErrorFlag, VendorIDIsWrong, s.fields))
              else Some(s)
  {
  }

  /**
   For every database and every text: no reply when the database cannot be reached, when the schema
   query gives no rows to count, or when the schema is there and cannot be selected or its table query
   gives none; and the two errors of the step are replied exactly when the schema, or in it the table,
   is counted and not there.
   */
  lemma AnswerByReplies(db: Session, text: string)
    ensures var f := Parsed(text).fields;
            var schema, table := db.answers(SchemaQuery(f)), db.answers(TableQuery(f));
            var found := db.connects && schema.Rows? && schema.n > 0;
            var chosen := found && db.selects("ProjectID_" + f.projectid);
            && (!db.connects ==> DbAnswer(db, text) == None)
            && (!schema.Rows? ==> DbAnswer(db, text) == None)
            && (found && !chosen ==> DbAnswer(db, text) == None)
            && (found && !table.Rows? ==> DbAnswer(db, text) == None)
            && (DbAnswer(db, text) == Some("ErrorCode=ProjectIDIsWrong") <==> db.connects && schema == Rows(0))
            && (DbAnswer(db, text) == Some("ErrorCode=VendorIDIsWrong") <==> chosen && table == Rows(0))
            && (chosen && table.Rows? && table.n > 0 ==> DbAnswer(db, text) == DbPayload(db, Parsed(text)))
  {
    var s := Parsed(text);
    ParseIsConsistent(text);
    ParserSparesNames(text);
    ConnectedByReplies(db, s);
    DbPayloadSparesNames(db, s);
    NameErrors();
    ErrorsDistinct(ProjectIDIsWrong, VendorIDIsWrong);
  }

  /** The payload on a recognised name, for every reply to the counting queries. */
  lemma PayloadByReplies(db: Session, s: State)
    ensures s.flag == QueryAuthSum ==>
              match db.answers(SumQuery(s.fields))
              case Rows(n) =>
                var shown := Decimal.ToInt32(n);
                DbPayload(db, s) ==
                (if -999999 <= shown <= 9999999 then Some("AuthSum=" + Decimal.PrintInt(shown)) else None)
              case _ => DbPayload(db, s) == None
    ensures s.flag == QueryAuthState && s.fields.stbid != "" ==>
              match db.answers(DeviceQuery(s.fields))
              case Rows(n) =>
                var shown := Decimal.ToInt32(n);
                DbPayload(db, s) ==
                (if 1 <= shown <= 9999999 then Some("AuthState=" + Decimal.Print(shown)) else None)
              case _ => DbPayload(db, s) == None
    ensures s.flag != QueryAuthSum && !(s.flag == QueryAuthState && s.fields.stbid != "") ==>
              DbPayload(db, s) == Payload(s)
  {
    var sum, device := db.answers(SumQuery(s.fields)), db.answers(DeviceQuery(s.fields));
    if sum.Rows? {
      CountExact("AuthSum=", sum.n);
    }
    if device.Rows? {
      CountExact("AuthState=", device.n);
    }
  }
}
