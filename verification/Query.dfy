/**
 What a query string means: the flags and fields a parse leaves behind and the payload that
 answers it, as functions of the text alone. HttpData.dfy proves the buffer code against these.
 */
module Query {
  import opened CString
  import opened Options

  datatype SendFlag =
    | ErrorFlag
    | QueryAuthState
    | QueryAuthSum
    | QueryActivateState
    | QueryActivateSum
    | ActivateSucceed
    | ActivateFailed
    | NullFlag

  datatype Errorcode =
    | NoField
    | QueryLenIsWrong
    | QueryNumberUndefine
    | NoProjectID
    | ProjectIDIsWrong
    | NoVendorID
    | VendorIDIsWrong
    | ProjectIDTooLong
    | VendorIDTooLong
    | STBIDTooLong
    | ChipIDTooLong
    | MACLenIsWrong
    | NullError

  /** The table of error names; its first and last entries are NULL. */
  const ERROR_CONTEXT: seq<Option<string>> := [
    None,
    Some("NoField"),
    Some("QueryLenIsWrong"),
    Some("QueryNumberUndefine"),
    Some("NoProjectID"),
    Some("ProjectIDIsWrong"),
    Some("NoVendorID"),
    Some("VendorIDIsWrong"),
    Some("ProjectIDTooLong"),
    Some("VendorIDTooLong"),
    Some("STBIDTooLong"),
    Some("ChipIDTooLong"),
    Some("MACLenIsWrong"),
    None
  ]

  /** The enumerators start at one. */
  function Ordinal(e: Errorcode): (n: nat)
    ensures 1 <= n < |ERROR_CONTEXT|
  {
    match e
    case NoField => 1
    case QueryLenIsWrong => 2
    case QueryNumberUndefine => 3
    case NoProjectID => 4
    case ProjectIDIsWrong => 5
    case NoVendorID => 6
    case VendorIDIsWrong => 7
    case ProjectIDTooLong => 8
    case VendorIDTooLong => 9
    case STBIDTooLong => 10
    case ChipIDTooLong => 11
    case MACLenIsWrong => 12
    case NullError => 13
  }

  const PROJECTID_LENGTH := 8
  const VENDORID_LENGTH := 8
  const STBID_LENGTH := 32
  const CHIPID_LENGTH := 32
  const MAC_LENGTH := 12

  /** The five identifiers agreed with the client. */
  datatype Fields = Fields(projectid: string, vendorid: string, stbid: string, chipid: string, macaddr: string)
  {
    predicate NoDevice() {
      stbid == "" && chipid == "" && macaddr == ""
    }

    /** Each identifier fits the buffer the object keeps it in. */
    predicate Bounded() {
      && |projectid| <= PROJECTID_LENGTH
      && |vendorid| <= VENDORID_LENGTH
      && |stbid| <= STBID_LENGTH
      && |chipid| <= CHIPID_LENGTH
      && |macaddr| <= MAC_LENGTH
    }
  }

  const NO_FIELDS := Fields("", "", "", "", "")

  /** The part of an HttpData object that parsing sets and building reads. */
  datatype State = State(flag: SendFlag, error: Errorcode, fields: Fields)

  const INITIAL := State(NullFlag, NullError, NO_FIELDS)

  // ----- one item -----

  /** The text between the leftmost occurrence of key and the next '&' or the end. */
  function ItemValue(text: string, key: string): string {
    match FindFirst(text, key)
    case None => ""
    case Some(i) => Before(text[i + |key|..], '&')
  }

  /** A field name followed by its only '='. */
  predicate IsKey(key: string) {
    |key| >= 2 && key[|key| - 1] == '=' && '=' !in key[..|key| - 1]
  }

  /** The scanset reads the item at a key occurrence, and assigns nothing iff the item is empty. */
  lemma ScanReadsItem(text: string, key: string, i: nat)
    requires IsKey(key) && OccursAt(text, key, i)
    ensures ScanPair(text[i..]) ==
            var v := Before(text[i + |key|..], '&'); if v == "" then None else Some(v)
  {
    var s := text[i..];
    assert s[..|key|] == key;
    assert s[|key| - 1] == '=';
    assert s[..|key| - 1] == key[..|key| - 1];
    BeforeIs(s, '=', s[..|key| - 1]);
    assert SpanNot(s, '=') == |key| - 1;
    assert s[|key|..] == text[i + |key|..];
  }

  /** So scanning at the place found gives the item's value. */
  lemma FoundItem(text: string, key: string, i: nat)
    requires IsKey(key) && FindFirst(text, key) == Some(i)
    ensures i + |key| <= |text|
    ensures ScanPair(text[i..]) ==
            if ItemValue(text, key) == "" then None else Some(ItemValue(text, key))
  {
    FindFirstIsFirst(text, key);
    ScanReadsItem(text, key, i);
  }

  // ----- the checks of an authentication query, in the order the code makes them -----

  const CHECK_COUNT := 7

  function Check(k: nat): (e: Errorcode)
    requires k < CHECK_COUNT
    ensures e != NullError
  {
    match k
    case 0 => ProjectIDTooLong
    case 1 => NoProjectID
    case 2 => VendorIDTooLong
    case 3 => NoVendorID
    case 4 => STBIDTooLong
    case 5 => ChipIDTooLong
    case _ => MACLenIsWrong
  }

  /** The five items as the client sent them, of any length. */
  function Sent(text: string): Fields {
    Fields(
      ItemValue(text, "ProjectID="),
      ItemValue(text, "VendorID="),
      ItemValue(text, "STBID="),
      ItemValue(text, "ChipID="),
      ItemValue(text, "MAC="))
  }

  /** Does the record deserve this complaint? */
  predicate Deserves(sent: Fields, e: Errorcode) {
    match e
    case ProjectIDTooLong => |sent.projectid| > PROJECTID_LENGTH
    case NoProjectID => sent.projectid == ""
    case VendorIDTooLong => |sent.vendorid| > VENDORID_LENGTH
    case NoVendorID => sent.vendorid == ""
    case STBIDTooLong => |sent.stbid| > STBID_LENGTH
    case ChipIDTooLong => |sent.chipid| > CHIPID_LENGTH
    case MACLenIsWrong => |sent.macaddr| != MAC_LENGTH && sent.macaddr != ""
    case _ => false
  }

  /** The first check from k on that the record fails, or CHECK_COUNT. */
  function FirstComplaint(sent: Fields, k: nat := 0): (r: nat)
    requires k <= CHECK_COUNT
    ensures k <= r <= CHECK_COUNT
    ensures forall j | k <= j < r :: !Deserves(sent, Check(j))
    ensures r < CHECK_COUNT ==> Deserves(sent, Check(r))
    decreases CHECK_COUNT - k
  {
    if k == CHECK_COUNT || Deserves(sent, Check(k)) then k else FirstComplaint(sent, k + 1)
  }

  /** The fields already stored when check k stops the parse: each follows the last check on it that must pass. */
  function StoredAt(sent: Fields, k: nat): Fields {
    Fields(
      if k >= 1 then sent.projectid else "",
      if k >= 3 then sent.vendorid else "",
      if k >= 5 then sent.stbid else "",
      if k >= 6 then sent.chipid else "",
      if k >= 7 then sent.macaddr else "")
  }

  function AuthOutcome(sent: Fields): State {
    var k := FirstComplaint(sent);
    var fields := StoredAt(sent, k);
    if k < CHECK_COUNT then State(ErrorFlag, Check(k), fields)
    else State(if fields.NoDevice() then QueryAuthSum else QueryAuthState, NullError, fields)
  }

  /** The record passes the first k checks. */
  predicate Passes(sent: Fields, k: nat)
    requires k <= CHECK_COUNT
  {
    forall j | 0 <= j < k :: !Deserves(sent, Check(j))
  }

  lemma PassesNext(sent: Fields, k: nat)
    requires k < CHECK_COUNT && Passes(sent, k) && !Deserves(sent, Check(k))
    ensures Passes(sent, k + 1)
  {
  }

  /** The first check failed decides the outcome. */
  lemma StopsAt(sent: Fields, k: nat)
    requires k < CHECK_COUNT && Passes(sent, k) && Deserves(sent, Check(k))
    ensures AuthOutcome(sent) == State(ErrorFlag, Check(k), StoredAt(sent, k))
  {
    assert FirstComplaint(sent) == k;
  }

  lemma StopsNowhere(sent: Fields)
    requires Passes(sent, CHECK_COUNT)
    ensures var fields := StoredAt(sent, CHECK_COUNT);
            AuthOutcome(sent) == State(if fields.NoDevice() then QueryAuthSum else QueryAuthState, NullError, fields)
  {
    assert FirstComplaint(sent) == CHECK_COUNT;
  }

  // ----- the whole request text -----

  /** The value of the leading Query= item. */
  function QueryType(text: string): string {
    match ScanPair(text)
    case None => ""
    case Some(v) => v
  }

  predicate IsQuery(text: string) {
    StartsWithIgnoreCase(text, "Query=")
  }

  predicate IsActivate(text: string) {
    StartsWithIgnoreCase(text, "Activate=")
  }

  /** A parse refused before any field is read. */
  function Refused(e: Errorcode): State {
    INITIAL.(flag := ErrorFlag, error := e)
  }

  /** The outcome of a Query= text by the value of its leading item. */
  function QueryOutcome(querytype: string, sent: Fields): State {
    if |querytype| != 1 then Refused(QueryLenIsWrong)
    else if querytype == "0" then AuthOutcome(sent)
    else if querytype == "1" then INITIAL
    else Refused(QueryNumberUndefine)
  }

  function Parsed(text: string): State {
    if IsQuery(text) then QueryOutcome(QueryType(text), Sent(text))
    else if IsActivate(text) then INITIAL
    else Refused(NoField)
  }

  // ----- the reply -----

  /** The answer about one device: the first identifier present decides. */
  function AuthStatePayload(f: Fields): Option<string> {
    if f.stbid != "" then Some("AuthState=StbId")
    else if f.chipid != "" then Some("AuthState=ChipId")
    else if f.macaddr != "" then Some("AuthState=Mac")
    else None
  }

  function ErrorPayload(e: Errorcode): Option<string> {
    match ERROR_CONTEXT[Ordinal(e)]
    case None => None
    case Some(name) => Some("ErrorCode=" + name)
  }

  /** The Activate cases append one answer per identifier present. */
  function ActivateStatePayload(f: Fields): string {
    (if f.stbid != "" then "ActivateState=StbId" else "")
    + (if f.chipid != "" then "ActivateState=ChipId" else "")
    + (if f.macaddr != "" then "ActivateState=Mac" else "")
  }

  function Payload(s: State): Option<string> {
    match s.flag
    case ErrorFlag => ErrorPayload(s.error)
    case QueryAuthState => AuthStatePayload(s.fields)
    case QueryAuthSum => Some("AuthSum=0")
    case QueryActivateState => Some(ActivateStatePayload(s.fields))
    case QueryActivateSum => Some("ActivateSum=0")
    case ActivateSucceed => Some("")
    case ActivateFailed => Some("")
    case NullFlag => None
  }

  /** The payload that answers a request text, or None where the server builds no answer. */
  function Answer(text: string): Option<string> {
    Payload(Parsed(text))
  }

  // ----- parser and builder agree -----

  /** What parsing, and the database step after it, must leave for the builder to be total. */
  predicate Consistent(s: State) {
    && (s.flag == ErrorFlag <==> s.error != NullError)
    && (s.flag == QueryAuthState ==> !s.fields.NoDevice())
    && s.flag in {ErrorFlag, QueryAuthState, QueryAuthSum, NullFlag}
    && s.fields.Bounded()
  }

  /** The fields held when the parse stops have passed their length checks; later ones are still empty. */
  lemma StoredBounded(sent: Fields)
    ensures StoredAt(sent, FirstComplaint(sent)).Bounded()
  {
    var k := FirstComplaint(sent);
    assert k >= 1 ==> !Deserves(sent, Check(0));
    assert k >= 3 ==> !Deserves(sent, Check(2));
    assert k >= 5 ==> !Deserves(sent, Check(4));
    assert k >= 6 ==> !Deserves(sent, Check(5));
    assert k >= 7 ==> !Deserves(sent, Check(6));
  }

  lemma AuthIsConsistent(sent: Fields)
    ensures Consistent(AuthOutcome(sent))
  {
    StoredBounded(sent);
  }

  lemma ParseIsConsistent(text: string)
    ensures Consistent(Parsed(text))
  {
    if IsQuery(text) && QueryType(text) == "0" {
      AuthIsConsistent(Sent(text));
      assert Parsed(text) == AuthOutcome(Sent(text));
    } else {
      assert Parsed(text).fields == NO_FIELDS;
    }
  }

  lemma QueryIsNotActivate(text: string)
    ensures !IsQuery(text) || !IsActivate(text)
  {
    assert IsQuery(text) ==> Lower(text[0]) == 'q' by { assert Lower("Query="[0]) == 'q'; }
    assert IsActivate(text) ==> Lower(text[0]) == 'a' by { assert Lower("Activate="[0]) == 'a'; }
  }

  /** On every consistent state the only failure is the flag nobody set: no NULL table entry, no stray exit. */
  lemma BuilderTotal(s: State)
    requires Consistent(s)
    ensures Payload(s).None? <==> s.flag == NullFlag
    ensures s.flag == ErrorFlag ==> ERROR_CONTEXT[Ordinal(s.error)].Some?
    ensures s.flag == QueryAuthState ==> AuthStatePayload(s.fields).Some?
  {
  }

  /** Exactly the Activate requests and the Query=1 requests go unanswered. */
  lemma Unanswered(text: string)
    ensures Answer(text).None? <==> IsActivate(text) || (IsQuery(text) && QueryType(text) == "1")
  {
    ParseIsConsistent(text);
    BuilderTotal(Parsed(text));
    QueryIsNotActivate(text);
  }

  /**
   An authentication query is refused with complaint k exactly when it deserves k and none that is
   checked earlier, and then holds the values stored before that check and nothing after them; it is
   accepted exactly when it deserves none, and then holds all five values.
   */
  lemma FirstFailureDecides(sent: Fields, k: nat)
    requires k < CHECK_COUNT
    ensures AuthOutcome(sent).error == Check(k) ==>
              AuthOutcome(sent).fields == StoredAt(sent, k) && AuthOutcome(sent).fields.Bounded()
    ensures AuthOutcome(sent).flag == ErrorFlag && AuthOutcome(sent).error == Check(k) <==>
            Deserves(sent, Check(k)) && forall j | 0 <= j < k :: !Deserves(sent, Check(j))
    ensures AuthOutcome(sent).error == NullError <==> forall j | 0 <= j < CHECK_COUNT :: !Deserves(sent, Check(j))
    ensures AuthOutcome(sent).error == NullError ==> AuthOutcome(sent).fields == StoredAt(sent, CHECK_COUNT)
  {
    var r := FirstComplaint(sent);
    CheckInjective(r, k);
    StoredBounded(sent);
    if Deserves(sent, Check(k)) && forall j | 0 <= j < k :: !Deserves(sent, Check(j)) {
      assert r == k;
    }
  }

  lemma CheckInjective(r: nat, k: nat)
    requires k < CHECK_COUNT && r <= CHECK_COUNT
    ensures r < CHECK_COUNT && Check(r) == Check(k) <==> r == k
  {
  }

  /** The name of a code is appended to the label. */
  lemma ErrorParts(e: Errorcode) returns (name: string)
    requires e != NullError
    ensures ERROR_CONTEXT[Ordinal(e)] == Some(name) && ErrorPayload(e) == Some("ErrorCode=" + name)
    ensures |name| < 32 && NUL !in name
  {
    ErrorNamed(e);
    name := ERROR_CONTEXT[Ordinal(e)].value;
  }

  /** Every code but the terminal one has a short name in the table. */
  lemma ErrorNamed(e: Errorcode)
    ensures ERROR_CONTEXT[Ordinal(e)].Some? <==> e != NullError
    ensures e != NullError ==>
              && |ERROR_CONTEXT[Ordinal(e)].value| < 32
              && NUL !in ERROR_CONTEXT[Ordinal(e)].value
  {
    match e
    case NoField => assert ERROR_CONTEXT[1] == Some("NoField");
    case QueryLenIsWrong => assert ERROR_CONTEXT[2] == Some("QueryLenIsWrong");
    case QueryNumberUndefine => assert ERROR_CONTEXT[3] == Some("QueryNumberUndefine");
    case NoProjectID => assert ERROR_CONTEXT[4] == Some("NoProjectID");
    case ProjectIDIsWrong => assert ERROR_CONTEXT[5] == Some("ProjectIDIsWrong");
    case NoVendorID => assert ERROR_CONTEXT[6] == Some("NoVendorID");
    case VendorIDIsWrong => assert ERROR_CONTEXT[7] == Some("VendorIDIsWrong");
    case ProjectIDTooLong => assert ERROR_CONTEXT[8] == Some("ProjectIDTooLong");
    case VendorIDTooLong => assert ERROR_CONTEXT[9] == Some("VendorIDTooLong");
    case STBIDTooLong => assert ERROR_CONTEXT[10] == Some("STBIDTooLong");
    case ChipIDTooLong => assert ERROR_CONTEXT[11] == Some("ChipIDTooLong");
    case MACLenIsWrong => assert ERROR_CONTEXT[12] == Some("MACLenIsWrong");
    case NullError =>
  }

  /** Every answer is short. */
  lemma AnswerShort(text: string)
    ensures Answer(text).Some? ==> |Answer(text).value| < 64
  {
    ParseIsConsistent(text);
    PayloadShort(Parsed(text));
  }

  lemma PayloadShort(s: State)
    requires Consistent(s)
    ensures Payload(s).Some? ==> |Payload(s).value| < 64
  {
    if s.flag == ErrorFlag {
      var name := ErrorParts(s.error);
    }
  }

  /** Length, first letter and fourth letter from the end of a name tell the codes apart. */
  datatype Look = Look(length: nat, first: char, late: char)

  function LookOf(name: string): Look
    requires |name| >= 4
  {
    Look(|name|, name[0], name[|name| - 4])
  }

  function LookOfCode(e: Errorcode): Look {
    match e
    case NoField => Look(7, 'N', 'i')
    case QueryLenIsWrong => Look(15, 'Q', 'r')
    case QueryNumberUndefine => Look(19, 'Q', 'f')
    case NoProjectID => Look(11, 'N', 'c')
    case ProjectIDIsWrong => Look(16, 'P', 'r')
    case NoVendorID => Look(10, 'N', 'o')
    case VendorIDIsWrong => Look(15, 'V', 'r')
    case ProjectIDTooLong => Look(16, 'P', 'L')
    case VendorIDTooLong => Look(15, 'V', 'L')
    case STBIDTooLong => Look(12, 'S', 'L')
    case ChipIDTooLong => Look(13, 'C', 'L')
    case MACLenIsWrong => Look(13, 'M', 'r')
    case NullError => Look(0, 'N', 'N')
  }

  lemma NameLooks(e: Errorcode)
    requires e != NullError
    ensures var name := ERROR_CONTEXT[Ordinal(e)];
            name.Some? && |name.value| >= 4 && LookOf(name.value) == LookOfCode(e)
  {
    ErrorNamed(e);
  }

  /** A client can tell every error code from the reply. */
  lemma ErrorsDistinct(a: Errorcode, b: Errorcode)
    requires a != NullError && b != NullError
    ensures ErrorPayload(a) == ErrorPayload(b) <==> a == b
  {
    var x := ErrorParts(a);
    var y := ErrorParts(b);
    NameLooks(a);
    NameLooks(b);
    LooksDistinct(a, b);
    assert ("ErrorCode=" + x)[10..] == x && ("ErrorCode=" + y)[10..] == y;
  }

  lemma LooksDistinct(a: Errorcode, b: Errorcode)
    requires a != NullError && b != NullError
    ensures LookOfCode(a) == LookOfCode(b) <==> a == b
  {
  }
}
