/** From the record a client prints to the answer it reads out of the bytes it receives. */
module EndToEnd {
  import opened HttpFrame
  import opened HttpServing
  import opened Options
  import opened QueryRoundTrip
  import Database
  import Decimal
  import IoLifecycle
  import Query
  import SqlLiteral

  function GetMessage(path: string, q: string, rest: string): string {
    "GET " + path + "?" + q + rest
  }

  /** The part of a GET message after its query: white space first, CRLFCRLF last. */
  predicate IsRest(rest: string) {
    rest != "" && IsSpace(rest[0]) && Complete(rest)
  }

  /**
   For every complete GET message, what is sent depends on the query alone: the reply framed as
   Frame says, from which a client reads back exactly Query.Answer, or nothing.
   */
  lemma QueryDecides(path: string, q: string, rest: string)
    requires '?' !in path && q != "" && Unspaced(q) && IsRest(rest)
    ensures var msg := GetMessage(path, q, rest);
            && QueryOf(msg) == q
            && OutcomeOf(msg, true) == (if Query.Answer(q).Some? then IoLifecycle.Sent else IoLifecycle.BuildFailed)
            && (Query.Answer(q).Some? ==>
                  && Response(msg) == Some(Frame(Query.Answer(q).value))
                  && Body(SendBuffer(Response(msg).value)) == Query.Answer(q)
                  && ReadReply(SendBuffer(Response(msg).value)) == Query.Answer(q)
                  && |SendBuffer(Response(msg).value)| == 1500)
  {
    var msg := GetMessage(path, q, rest);
    QueryFound(path, q, rest);
    assert msg[|msg| - 4..] == rest[|rest| - 4..];
    if Query.Answer(q).Some? {
      var payload := Query.Answer(q).value;
      var padding := SendBuffer(Frame(payload))[|Frame(payload)|..];
      assert SendBuffer(Frame(payload)) == Frame(payload) + padding;
      BodyOfFrame(payload, padding);
      ReplyRead(payload, padding);
      Query.AnswerShort(q);
      FrameFits(payload);
    }
  }

  predicate NoSpaces(f: Query.Fields) {
    forall id: FieldId :: Unspaced(Value(f, id))
  }

  lemma {:induction false} PrintUnspaced(items: seq<Item>)
    requires items != [] && forall item | item in items :: Unspaced(item.name) && Unspaced(item.value)
    ensures Unspaced(Print(items))
  {
    assert Unspaced(items[0].Print());
    if |items| > 1 {
      PrintUnspaced(items[1..]);
    }
  }

  lemma NameUnspaced(id: FieldId)
    ensures Unspaced(Name(id))
  {
  }

  lemma RequestUnspaced(order: seq<FieldId>, f: Query.Fields)
    requires NoSpaces(f)
    ensures Unspaced(Request(order, f)) && Request(order, f) != ""
  {
    var items := [Item("Query", "0")] + FieldItems(order, f);
    forall item | item in items
      ensures Unspaced(item.name) && Unspaced(item.value)
    {
      if item != Item("Query", "0") {
        var i :| 0 <= i < |order| && item == FieldItems(order, f)[i];
        NameUnspaced(order[i]);
      }
    }
    PrintUnspaced(items);
    RequestHead(order, f);
  }

  /** The answer a record deserves. */
  function Expected(f: Query.Fields): string {
    if f.NoDevice() then "AuthSum=0"
    else if f.stbid != "" then "AuthState=StbId"
    else if f.chipid != "" then "AuthState=ChipId"
    else "AuthState=Mac"
  }

  /** A client that prints a record in any field order and reads the reply learns what the record deserves. */
  lemma RecordAnswered(path: string, order: seq<FieldId>, f: Query.Fields, rest: string)
    requires Printable(f) && NoSpaces(f)
    requires Covers(order, f)
    requires '?' !in path && IsRest(rest)
    ensures var msg := GetMessage(path, Request(order, f), rest);
            && OutcomeOf(msg, true) == IoLifecycle.Sent
            && Body(SendBuffer(Response(msg).value)) == Some(Expected(f))
            && ReadReply(SendBuffer(Response(msg).value)) == Some(Expected(f))
            && (|order| <= 5 ==> |QueryOf(msg)| < 256 == HTTP_GET_LENGTH)
  {
    RequestFits(order, f);
    ParseUndoesPrint(order, f);
    RequestUnspaced(order, f);
    QueryDecides(path, Request(order, f), rest);
  }

  lemma SumCounted(db: Database.Session, s: Query.State)
    requires Database.Faultless(db) && s.flag == Query.QueryAuthSum
    ensures var n := db.answers(Database.SumQuery(s.fields)).n;
            Database.DbPayload(db, s) == Some("AuthSum=" + Decimal.Print(n)) && Decimal.Read(Decimal.Print(n)) == n
  {
    Database.CountReadBack("AuthSum=", db.answers(Database.SumQuery(s.fields)).n);
  }

  lemma DeviceCounted(db: Database.Session, s: Query.State)
    requires Database.Faultless(db) && s.flag == Query.QueryAuthState && s.fields.stbid != ""
    ensures var n := db.answers(Database.DeviceQuery(s.fields)).n;
            && Database.DbPayload(db, s) == (if n == 0 then None else Some("AuthState=" + Decimal.Print(n)))
            && Decimal.Read(Decimal.Print(n)) == n
  {
    var n := db.answers(Database.DeviceQuery(s.fields)).n;
    Database.SmallCount(n);
    Database.CountReadBack("AuthState=", n);
  }

  lemma OthersInherited(db: Database.Session, s: Query.State)
    requires s.flag == Query.QueryAuthState && s.fields.stbid == "" && !s.fields.NoDevice()
    ensures Database.DbPayload(db, s) == Some(if s.fields.chipid != "" then "AuthState=ChipId" else "AuthState=Mac")
  {
  }

  /** The names being known, the state parsed is the one answered. */
  lemma KnownAnswered(db: Database.Session, text: string, s: Query.State)
    requires Database.Faultless(db) && Query.Parsed(text) == s && Database.KnowsNames(db, s.fields)
    ensures Database.DbAnswer(db, text) == Database.DbPayload(db, s)
  {
    Database.FaultlessConnected(db, s);
  }

  /**
   With a faultless database that knows the record's names, the same client gets the row count of the
   query its record stands for: all rows of the vendor's table, or those with its STBID. A record with
   only a chip or a network address gets the answer the plain class gives.
   */
  lemma RecordCounted(db: Database.Session, order: seq<FieldId>, f: Query.Fields)
    requires Printable(f) && Database.Faultless(db) && Database.KnowsNames(db, f)
    requires Covers(order, f)
    ensures f.NoDevice() ==>
              var n := db.answers(Database.SumQuery(f)).n;
              && Database.DbAnswer(db, Request(order, f)) == Some("AuthSum=" + Decimal.Print(n))
              && Decimal.Read(Decimal.Print(n)) == n
    ensures f.stbid != "" ==>
              var n := db.answers(Database.DeviceQuery(f)).n;
              && Database.DbAnswer(db, Request(order, f)) ==
                 (if n == 0 then None else Some("AuthState=" + Decimal.Print(n)))
              && Decimal.Read(Decimal.Print(n)) == n
    ensures !f.NoDevice() && f.stbid == "" ==>
              Database.DbAnswer(db, Request(order, f)) ==
              Some(if f.chipid != "" then "AuthState=ChipId" else "AuthState=Mac")
    ensures Database.DbAnswer(db, Request(order, f)).None? <==>
            f.stbid != "" && db.answers(Database.DeviceQuery(f)) == Database.Rows(0)
  {
    var s := Query.State(if f.NoDevice() then Query.QueryAuthSum else Query.QueryAuthState, Query.NullError, f);
    ParseUndoesPrint(order, f);
    KnownAnswered(db, Request(order, f), s);
    if f.NoDevice() {
      SumCounted(db, s);
    } else if f.stbid != "" {
      DeviceCounted(db, s);
    } else {
      OthersInherited(db, s);
    }
  }

  /** A short record of a project, a vendor and an STBID is accepted as a question about that STBID. */
  lemma ShortAccepted(f: Query.Fields)
    requires f.Bounded() && f.projectid != "" && f.vendorid != "" && f.stbid != ""
    requires f.chipid == "" && f.macaddr == ""
    requires forall id: FieldId :: PlainValue(Value(f, id))
    ensures Query.Parsed(Request([ProjectID, VendorID, STBID], f)) ==
            Query.State(Query.QueryAuthState, Query.NullError, f)
  {
    PlainUndisturbed(f);
    ParseUndoesPrint([ProjectID, VendorID, STBID], f);
  }

  /** A record whose STBID is one double quote is accepted, but its query does not name that STBID. */
  lemma QuoteAccepted()
    ensures var f := Query.Fields("1", "1", "\"", "", "");
            && Query.Parsed(Request([ProjectID, VendorID, STBID], f)) ==
               Query.State(Query.QueryAuthState, Query.NullError, f)
            && SqlLiteral.ReadLiteral(f.stbid + "\"") != Some(SqlLiteral.Literal(f.stbid, ""))
            && SqlLiteral.OnlyLiteral(Database.DeviceQuery(f)) != Some(f.stbid)
  {
    var f := Query.Fields("1", "1", "\"", "", "");
    ShortAccepted(f);
    Database.DeviceLiteral(f);
    Database.DeviceNamedExactly(f);
    assert !SqlLiteral.SafeAt(f.stbid, 0);
  }

  /**
   So is one whose vendor opens a literal before the one for its STBID: what is read there is the text
   between, with the STBID left over. The table query for it reads as the vendor cut short.
   */
  lemma VendorAccepted()
    ensures var f := Query.Fields("1", "1\"#", "X", "", "");
            var at := SqlLiteral.CodeLength(Database.DeviceQuery(f));
            && Query.Parsed(Request([ProjectID, VendorID, STBID], f)) ==
               Query.State(Query.QueryAuthState, Query.NullError, f)
            && SqlLiteral.LiteralSafe(f.stbid)
            && SqlLiteral.OnlyLiteral(Database.DeviceQuery(f)) != Some(f.stbid)
            && at < |Database.DeviceQuery(f)|
            && SqlLiteral.ReadLiteral(Database.DeviceQuery(f)[at + 1..]) ==
               Some(SqlLiteral.Literal("#" + Database.WHERE_STBID, "X\""))
            && SqlLiteral.ReadLiteral(Database.TableName(f) + "\"") == Some(SqlLiteral.Literal("VendorID_1", "#\""))
  {
    var f := Query.Fields("1", "1\"#", "X", "", "");
    ShortAccepted(f);
    assert SqlLiteral.OpensAt(f.vendorid, 1);
    Database.DeviceNamedExactly(f);
    VendorOpens(f);
  }

  /** A vendor `1"#` opens a literal at its quote, in the device and in the table query. */
  lemma VendorOpens(f: Query.Fields)
    requires f.vendorid == "1\"#" && f.stbid == "X"
    ensures var at := SqlLiteral.CodeLength(Database.DeviceQuery(f));
            && at < |Database.DeviceQuery(f)|
            && SqlLiteral.ReadLiteral(Database.DeviceQuery(f)[at + 1..]) ==
               Some(SqlLiteral.Literal("#" + Database.WHERE_STBID, "X\""))
    ensures SqlLiteral.ReadLiteral(Database.TableName(f) + "\"") == Some(SqlLiteral.Literal("VendorID_1", "#\""))
  {
    assert "1" + ("\"" + "#") == "1\"#" && "#" + "\"" == "#\"";
    assert "VendorID_" + "1" == "VendorID_1" && "X" + "\"" == "X\"";
    Database.VendorQuote(f, "1", "#");
  }
}
