/**
 The bytes around a query: where it sits in a GET request, how the reply is framed, and how a
 client takes the payload out again (sections 3 and 3.3.2 of RFC 7230).
 */
module HttpFrame {
  import opened CString
  import opened Options
  import Decimal
  import Powers
  import Query

  const CRLF := "\r\n"
  const CRLFCRLF := "\r\n\r\n"

  // ----- the request -----

  /** isspace in the C locale. */
  predicate IsSpace(c: char) {
    c == ' ' || 9 <= c as int <= 13
  }

  function SkipSpaces(s: string): (r: string)
    ensures |r| <= |s|
  {
    if s != "" && IsSpace(s[0]) then SkipSpaces(s[1..]) else s
  }

  /** The leading run of characters that are not white space. */
  function Word(s: string): (w: string)
    ensures |w| <= |s|
  {
    if s == "" || IsSpace(s[0]) then "" else [s[0]] + Word(s[1..])
  }

  /** What the format `%*[^?]?%s` assigns when it reads the message. */
  function ScanQuery(msg: string): Option<string> {
    var mark := SpanNot(msg, '?');
    if mark == 0 || mark == |msg| then None
    else
      var word := Word(SkipSpaces(msg[mark + 1..]));
      if word == "" then None else Some(word)
  }

  /** The text handed to HttpData: empty when the scan assigns nothing. */
  function QueryOf(msg: string): string {
    match ScanQuery(msg)
    case None => ""
    case Some(q) => q
  }

  predicate Complete(msg: string) {
    |msg| >= 4 && msg[|msg| - 4..] == CRLFCRLF
  }

  predicate IsGet(msg: string) {
    FindFirst(msg, "GET").Some?
  }

  predicate Unspaced(s: string) {
    forall i | 0 <= i < |s| :: !IsSpace(s[i])
  }

  lemma {:induction false} WordIs(w: string, rest: string)
    requires Unspaced(w) && (rest == "" || IsSpace(rest[0]))
    ensures Word(w + rest) == w
  {
    if w == "" {
      assert w + rest == rest;
    } else {
      assert (w + rest)[1..] == w[1..] + rest;
      WordIs(w[1..], rest);
      assert w == [w[0]] + w[1..];
    }
  }

  lemma {:induction false} SpacesSkipped(gap: string, rest: string)
    requires forall i | 0 <= i < |gap| :: IsSpace(gap[i])
    requires rest == "" || !IsSpace(rest[0])
    ensures SkipSpaces(gap + rest) == rest
  {
    if gap == "" {
      assert gap + rest == rest;
    } else {
      assert (gap + rest)[1..] == gap[1..] + rest;
      SpacesSkipped(gap[1..], rest);
    }
  }

  /** The scan stops at the first '?' of the whole message and takes the word after it. */
  lemma WordAfterMark(msg: string, before: string, gap: string, q: string, rest: string)
    requires msg == before + "?" + gap + q + rest
    requires before != "" && '?' !in before && q != "" && Unspaced(q)
    requires forall i | 0 <= i < |gap| :: IsSpace(gap[i])
    requires rest == "" || IsSpace(rest[0])
    ensures ScanQuery(msg) == Some(q)
  {
    BeforeIs(msg, '?', before);
    assert SpanNot(msg, '?') == |before|;
    assert msg[|before| + 1..] == gap + (q + rest);
    assert !IsSpace((q + rest)[0]);
    SpacesSkipped(gap, q + rest);
    WordIs(q, rest);
  }

  /** In `GET path?q ...` with no '?' in the path, the query is q. */
  lemma QueryFound(path: string, q: string, rest: string)
    requires '?' !in path && q != "" && Unspaced(q)
    requires rest == "" || IsSpace(rest[0])
    ensures IsGet("GET " + path + "?" + q + rest)
    ensures ScanQuery("GET " + path + "?" + q + rest) == Some(q)
  {
    var msg := "GET " + path + "?" + q + rest;
    assert msg[..3] == "GET";
    FindFirstIsFirst(msg, "GET");
    assert OccursAt(msg, "GET", 0);
    assert msg == "GET " + path + "?" + "" + q + rest;
    WordAfterMark(msg, "GET " + path, "", q, rest);
  }

  /** White space is these six characters. */
  lemma SpacesAre(c: char)
    ensures IsSpace(c) <==>
            c == ' ' || c == '\t' || c == '\n' || c == '\r' || c == 11 as char || c == 12 as char
  {
  }

  lemma {:induction false} NothingLeft(s: string)
    ensures SkipSpaces(s) == "" <==> forall i | 0 <= i < |s| :: IsSpace(s[i])
  {
    if s != "" && IsSpace(s[0]) {
      NothingLeft(s[1..]);
      assert forall i | 0 < i < |s| :: s[i] == s[1..][i - 1];
    }
  }

  lemma WordIsEmpty(s: string)
    requires s == "" || !IsSpace(s[0])
    ensures Word(s) == "" <==> s == ""
  {
  }

  lemma {:induction false} SkipStops(s: string)
    ensures SkipSpaces(s) == "" || !IsSpace(SkipSpaces(s)[0])
  {
    if s != "" && IsSpace(s[0]) {
      SkipStops(s[1..]);
    }
  }

  /** No query is found exactly when there is no '?', or it comes first, or only white space follows it. */
  lemma NoQueryFound(msg: string)
    ensures var mark := SpanNot(msg, '?');
            ScanQuery(msg).None? <==>
            '?' !in msg || msg[0] == '?' || forall i | mark < i < |msg| :: IsSpace(msg[i])
  {
    var mark := SpanNot(msg, '?');
    SpanNotStops(msg, '?');
    if mark == |msg| {
      assert forall c | c in msg :: c != '?';
    } else {
      assert msg[mark] in msg;
      if mark > 0 {
        var tail := msg[mark + 1..];
        NothingLeft(tail);
        SkipStops(tail);
        WordIsEmpty(SkipSpaces(tail));
        assert forall i | mark < i < |msg| :: msg[i] == tail[i - mark - 1];
        assert forall i | 0 <= i < |tail| :: tail[i] == msg[i + mark + 1];
      }
    }
  }

  // ----- whose query it is -----

  /** The request target of a message that starts with `GET `. */
  function Target(msg: string): string
    requires |msg| >= 4
  {
    Word(msg[4..])
  }

  /** The place the scan reads the query from. */
  function QueryStart(msg: string): (n: nat)
    requires SpanNot(msg, '?') < |msg|
    ensures n <= |msg|
  {
    |msg| - |SkipSpaces(msg[SpanNot(msg, '?') + 1..])|
  }

  lemma {:induction false} WordStops(s: string)
    ensures Word(s) <= s && Unspaced(Word(s))
    ensures |Word(s)| < |s| ==> IsSpace(s[|Word(s)|])
  {
    if s != "" && !IsSpace(s[0]) {
      WordStops(s[1..]);
      assert s == [s[0]] + s[1..];
    }
  }

  lemma {:induction false} SkipSpacesIsSuffix(s: string)
    ensures SkipSpaces(s) == s[|s| - |SkipSpaces(s)|..]
  {
    if s != "" && IsSpace(s[0]) {
      SkipSpacesIsSuffix(s[1..]);
    }
  }

  lemma StandsAt(msg: string, n: nat, tail: string, q: string)
    requires n <= |msg| && msg[n..] == tail && q <= tail
    ensures n + |q| <= |msg| && msg[n..n + |q|] == q
  {
    assert msg[n..][..|q|] == msg[n..n + |q|];
  }

  lemma SuffixOfSuffix(msg: string, k: nat, tail: string)
    requires k <= |msg| && |tail| <= |msg| - k && tail == msg[k..][|msg| - k - |tail|..]
    ensures msg[|msg| - |tail|..] == tail
  {
  }

  lemma WordStandsAt(msg: string, k: nat)
    requires k <= |msg|
    ensures var tail := SkipSpaces(msg[k..]);
            var n := |msg| - |tail|;
            n + |Word(tail)| <= |msg| && msg[n..n + |Word(tail)|] == Word(tail)
  {
    var tail := SkipSpaces(msg[k..]);
    SkipSpacesIsSuffix(msg[k..]);
    SuffixOfSuffix(msg, k, tail);
    WordStops(tail);
    StandsAt(msg, |msg| - |tail|, tail, Word(tail));
  }

  /** The query stands in the message where QueryStart says. */
  lemma QueryStandsThere(msg: string)
    requires ScanQuery(msg).Some?
    ensures var q := ScanQuery(msg).value;
            && QueryStart(msg) + |q| <= |msg|
            && msg[QueryStart(msg)..QueryStart(msg) + |q|] == q
  {
    WordStandsAt(msg, SpanNot(msg, '?') + 1);
  }

  lemma MarkIs(msg: string, mark: nat)
    requires mark < |msg| && msg[mark] == '?' && '?' !in msg[..mark]
    ensures SpanNot(msg, '?') == mark
  {
    BeforeIs(msg, '?', msg[..mark]);
  }

  /** The first '?' of the message is that of the target, or lies beyond it. */
  lemma MarkPlace(head: string, target: string, rest: string)
    requires '?' !in head
    ensures var i := SpanNot(target, '?');
            var mark := SpanNot(head + (target + rest), '?');
            if i < |target| then mark == |head| + i else mark >= |head| + |target|
  {
    var msg := head + (target + rest);
    var i := SpanNot(target, '?');
    SpanNotStops(target, '?');
    SpanNotStops(msg, '?');
    if i < |target| {
      assert msg[..|head| + i] == head + target[..i];
      MarkIs(msg, |head| + i);
    } else {
      assert msg[..|head| + i] == head + target;
      assert forall j | 0 <= j < |head| + i :: msg[j] == msg[..|head| + i][j];
    }
  }

  lemma CutAt(s: string, i: nat)
    requires i < |s| && s[i] == '?'
    ensures s == s[..i] + "?" + s[i + 1..]
  {
  }

  lemma Regrouped(head: string, a: string, mark: string, q: string, rest: string)
    ensures head + ((a + mark + q) + rest) == head + a + mark + "" + q + rest
  {
  }

  /** The message cut at the first '?' of its target. */
  lemma TargetCut(head: string, target: string, rest: string, i: nat)
    requires i == SpanNot(target, '?') < |target|
    ensures '?' !in target[..i]
    ensures head + (target + rest) == head + target[..i] + "?" + "" + target[i + 1..] + rest
  {
    SpanNotStops(target, '?');
    CutAt(target, i);
    Regrouped(head, target[..i], "?", target[i + 1..], rest);
  }

  lemma TargetTaken(head: string, target: string, rest: string, i: nat)
    requires i == SpanNot(target, '?') && i + 1 < |target|
    requires '?' !in head && head != "" && Unspaced(target) && (rest == "" || IsSpace(rest[0]))
    ensures ScanQuery(head + (target + rest)) == Some(target[i + 1..])
  {
    TargetCut(head, target, rest, i);
    WordAfterMark(head + (target + rest), head + target[..i], "", target[i + 1..], rest);
  }

  lemma TargetLeft(head: string, target: string, rest: string)
    requires '?' !in head && Unspaced(target) && SpanNot(head + (target + rest), '?') < |head + (target + rest)|
    ensures QueryStart(head + (target + rest)) < |head| + |target| <==> SpanNot(target, '?') + 1 < |target|
  {
    var msg := head + (target + rest);
    var i := SpanNot(target, '?');
    MarkPlace(head, target, rest);
    if i + 1 < |target| {
      var tail := msg[|head| + i + 1..];
      assert tail[0] == target[i + 1];
      assert SkipSpaces(tail) == tail;
    }
  }

  /**
   In every message that starts with `GET `, the query is taken from the request target exactly when
   the target has a '?' that is not its last character, and then it is what follows the first one.
   Otherwise whatever is taken stands beyond the target.
   */
  lemma QueryInTarget(msg: string)
    requires |msg| >= 4 && msg[..4] == "GET "
    ensures var target := Target(msg);
            var i := SpanNot(target, '?');
            && (i + 1 < |target| ==> ScanQuery(msg) == Some(target[i + 1..]))
            && (ScanQuery(msg).Some? ==> (QueryStart(msg) < 4 + |target| <==> i + 1 < |target|))
  {
    var target, rest := Target(msg), msg[4 + |Target(msg)|..];
    WordStops(msg[4..]);
    assert msg == msg[..4] + (target + rest);
    if SpanNot(target, '?') + 1 < |target| {
      TargetTaken(msg[..4], target, rest, SpanNot(target, '?'));
    }
    if ScanQuery(msg).Some? {
      TargetLeft(msg[..4], target, rest);
    }
  }

  /** A target without '?' is answered for a later header's text, one that ends with '?' for what comes next. */
  lemma QueryBeyondTarget(q: string)
    requires q != "" && Unspaced(q)
    ensures ScanQuery("GET / HTTP/1.1\r\nReferer: /" + "?" + "" + q + CRLFCRLF) == Some(q)
    ensures ScanQuery("GET /" + "?" + " " + "HTTP/1.1" + CRLFCRLF) == Some("HTTP/1.1")
  {
    var before := "GET / HTTP/1.1\r\nReferer: /";
    WordAfterMark(before + "?" + "" + q + CRLFCRLF, before, "", q, CRLFCRLF);
    WordAfterMark("GET /" + "?" + " " + "HTTP/1.1" + CRLFCRLF, "GET /", " ", "HTTP/1.1", CRLFCRLF);
  }

  // ----- the reply -----

  const STATUS_LINE := "HTTP/1.1 200 OK"
  const TYPE_LINE := "Content-Type: text/html"
  const LENGTH_FIELD := "Content-Length: "

  /** Header lines, each closed by CRLF. */
  function Lines(lines: seq<string>): string {
    if lines == [] then "" else lines[0] + CRLF + Lines(lines[1..])
  }

  function HeaderLines(payload: string): seq<string> {
    [STATUS_LINE, TYPE_LINE, LENGTH_FIELD + Decimal.Print(|payload|)]
  }

  /** Status line, headers, an empty line, and the payload. */
  function Frame(payload: string): string {
    Lines(HeaderLines(payload)) + CRLF + payload
  }

  /** The response to a complete GET message, or None where the server builds none. */
  function Response(msg: string): Option<string> {
    match Query.Answer(QueryOf(msg))
    case None => None
    case Some(payload) => Some(Frame(payload))
  }

  /** Every payload the 1024-byte payload buffer can hold gives a frame well below 1500 bytes. */
  lemma FrameFits(payload: string)
    requires |payload| < 1024
    ensures |Decimal.Print(|payload|)| <= 4
    ensures |Frame(payload)| <= 1100
  {
    Decimal.DigitCount(|payload|, 4);
    assert Powers.Pow(10, 4) == 10000 by { assert Powers.Pow(10, 2) == 100; }
    ThreeLines(STATUS_LINE, TYPE_LINE, LENGTH_FIELD + Decimal.Print(|payload|));
  }

  /** The frame in the order the server appends it. */
  lemma FrameAppended(payload: string)
    ensures Frame(payload) == STATUS_LINE + CRLF + TYPE_LINE + CRLF +
                              (LENGTH_FIELD + Decimal.Print(|payload|)) + CRLFCRLF + payload
  {
    ThreeThenBody(STATUS_LINE, TYPE_LINE, LENGTH_FIELD + Decimal.Print(|payload|), payload);
  }

  lemma ThreeThenBody(a: string, b: string, c: string, body: string)
    ensures Lines([a, b, c]) + CRLF + body == a + CRLF + b + CRLF + c + CRLFCRLF + body
  {
    ThreeLines(a, b, c);
    TwoLineEnds();
    Merge(a + CRLF + b + CRLF + c, CRLF, CRLF, body);
  }

  lemma TwoLineEnds()
    ensures CRLF + CRLF == CRLFCRLF
  {
  }

  lemma Merge(a: string, b: string, c: string, d: string)
    ensures a + b + c + d == a + (b + c) + d
  {
  }

  // ----- a client reading the reply -----

  function DigitRun(s: string): (r: string)
    ensures forall c | c in r :: Decimal.IsDigit(c)
  {
    if s == "" || !Decimal.IsDigit(s[0]) then "" else [s[0]] + DigitRun(s[1..])
  }

  /** The Content-Length field of a header, which is not its first line. */
  function ContentLength(header: string): Option<nat> {
    match FindFirst(header, CRLF + LENGTH_FIELD)
    case None => None
    case Some(i) =>
      var digits := DigitRun(header[i + |CRLF + LENGTH_FIELD|..]);
      if digits == "" then None else Some(Decimal.Read(digits))
  }

  /** Split at the first empty line, then take as many bytes as Content-Length says. */
  function Body(message: string): Option<string> {
    match FindFirst(message, CRLFCRLF)
    case None => None
    case Some(i) =>
      match ContentLength(message[..i])
      case None => None
      case Some(n) => if i + 4 + n <= |message| then Some(message[i + 4..i + 4 + n]) else None
  }

  // ----- decoding undoes framing -----

  predicate IsLine(s: string) {
    s != "" && '\r' !in s
  }

  lemma LineTooSoon(s: string, line: string, i: nat)
    requires IsLine(line) && line <= s && i < |line|
    ensures !OccursAt(s, CRLFCRLF, i)
  {
    if i + 4 <= |s| {
      assert s[i..i + 4][0] == s[i] == line[i];
    }
  }

  /** Before the last line, an occurrence would have to lie in what follows the first line. */
  lemma NotAtLineEnd(s: string, line: string, next: string, t: string, i: nat)
    requires IsLine(line) && IsLine(next) && next <= t && s == line + CRLF + t
    requires i >= |line| + 2 ==> !OccursAt(t, CRLFCRLF, i - |line| - 2)
    ensures !OccursAt(s, CRLFCRLF, i)
  {
    if i < |line| {
      LineTooSoon(s, line, i);
    } else if i + 4 <= |s| {
      if i == |line| {
        assert s[i..i + 4][2] == s[i + 2] == t[0] == next[0];
        assert next[0] in next && CRLFCRLF[2] == '\r';
      } else if i == |line| + 1 {
        assert s[i..i + 4][0] == '\n';
      } else {
        assert s[i..i + 4] == t[i - |line| - 2..i - |line| - 2 + 4];
      }
    }
  }

  lemma LastLineEnd(line: string, rest: string)
    requires IsLine(line)
    ensures IsFirst(line + CRLF + CRLF + rest, CRLFCRLF, 0, Some(|line|))
  {
    var s := line + CRLF + CRLF + rest;
    assert s[|line|..|line| + 4] == CRLFCRLF;
    forall i: nat | i < |line| ensures !OccursAt(s, CRLFCRLF, i) { LineTooSoon(s, line, i); }
  }

  /** A line in front moves the first occurrence by its length. */
  lemma LineInFront(line: string, next: string, t: string, end: nat)
    requires IsLine(line) && IsLine(next) && next <= t
    requires IsFirst(t, CRLFCRLF, 0, Some(end))
    ensures IsFirst(line + CRLF + t, CRLFCRLF, 0, Some(|line| + 2 + end))
  {
    var s := line + CRLF + t;
    assert s[|line| + 2 + end..|line| + 2 + end + 4] == t[end..end + 4];
    forall i: nat | i < |line| + 2 + end
      ensures !OccursAt(s, CRLFCRLF, i)
    {
      NotAtLineEnd(s, line, next, t, i);
    }
  }

  /** The empty line after the headers is the first place CRLFCRLF occurs. */
  lemma {:induction false} HeaderEnd(lines: seq<string>, rest: string)
    requires lines != [] && forall line | line in lines :: IsLine(line)
    ensures |Lines(lines)| >= 2
    ensures IsFirst(Lines(lines) + CRLF + rest, CRLFCRLF, 0, Some(|Lines(lines)| - 2))
  {
    var line := lines[0];
    if |lines| == 1 {
      assert Lines(lines) == line + CRLF by { assert Lines(lines[1..]) == ""; }
      LastLineEnd(line, rest);
    } else {
      var t := Lines(lines[1..]) + CRLF + rest;
      HeaderEnd(lines[1..], rest);
      LineInFront(line, lines[1], t, |Lines(lines[1..])| - 2);
      assert Lines(lines) + CRLF + rest == line + CRLF + t;
    }
  }

  /** In `a CRLF b CRLF name...` a field that b does not start with is found on the third line. */
  lemma FieldFound(a: string, b: string, name: string, rest: string)
    requires '\r' !in a && '\r' !in b && '\r' !in name && !(name <= b)
    ensures FindFirst(a + CRLF + b + (CRLF + name) + rest, CRLF + name) == Some(|a| + 2 + |b|)
  {
    var s, key, end := a + CRLF + b + (CRLF + name) + rest, CRLF + name, |a| + 2 + |b|;
    assert s[end..end + |key|] == key;
    forall i: nat | i < end
      ensures !OccursAt(s, key, i)
    {
      if i + |key| <= |s| {
        if i == |a| {
          assert key[2..] == name && s[i..i + |key|][2..] == s[i + 2..i + |key|];
          if |name| <= |b| {
            assert s[i + 2..i + |key|] == b[..|name|];
          } else {
            assert s[i + 2..i + |key|][|b|] == s[end] == '\r';
          }
        } else {
          assert s[i..i + |key|][0] == s[i] == if i < |a| then a[i] else if i == |a| + 1 then '\n' else b[i - |a| - 2];
        }
      }
    }
    FindFirstIs(s, key, Some(end));
  }

  lemma {:induction false} DigitRunAll(s: string)
    requires forall c | c in s :: Decimal.IsDigit(c)
    ensures DigitRun(s) == s
  {
    if s != "" {
      assert s[0] in s;
      DigitRunAll(s[1..]);
      assert s == [s[0]] + s[1..];
    }
  }

  lemma FieldTail(a: string, b: string, field: string, rest: string)
    ensures |a| + 2 + |b| + |field| <= |a + CRLF + b + field + rest|
    ensures (a + CRLF + b + field + rest)[|a| + 2 + |b| + |field|..] == rest
  {
  }

  lemma FieldsApart()
    ensures '\r' !in STATUS_LINE && '\r' !in TYPE_LINE && '\r' !in LENGTH_FIELD
    ensures !(LENGTH_FIELD <= TYPE_LINE)
  {
    assert LENGTH_FIELD[8] != TYPE_LINE[8];
  }

  lemma LengthRead(n: nat)
    ensures ContentLength(STATUS_LINE + CRLF + TYPE_LINE + (CRLF + LENGTH_FIELD) + Decimal.Print(n)) == Some(n)
  {
    var digits := Decimal.Print(n);
    FieldsApart();
    FieldFound(STATUS_LINE, TYPE_LINE, LENGTH_FIELD, digits);
    FieldTail(STATUS_LINE, TYPE_LINE, CRLF + LENGTH_FIELD, digits);
    DigitRunAll(digits);
    Decimal.ReadPrint(n);
  }

  lemma DigitsAreLine(n: nat)
    ensures IsLine(LENGTH_FIELD + Decimal.Print(n))
  {
    assert forall c | c in Decimal.Print(n) :: Decimal.IsDigit(c);
  }

  lemma ThreeLines(a: string, b: string, c: string)
    ensures Lines([a, b, c]) == a + CRLF + b + CRLF + c + CRLF
  {
    assert [a, b, c][1..] == [b, c] && [b, c][1..] == [c] && [c][1..] == [];
    assert Lines([c]) == c + CRLF;
    assert Lines([b, c]) == b + CRLF + (c + CRLF);
  }

  lemma FrameShape(payload: string)
    ensures Lines(HeaderLines(payload)) ==
            STATUS_LINE + CRLF + TYPE_LINE + (CRLF + LENGTH_FIELD) + Decimal.Print(|payload|) + CRLF
  {
    ThreeLines(STATUS_LINE, TYPE_LINE, LENGTH_FIELD + Decimal.Print(|payload|));
    Regroup(STATUS_LINE + CRLF + TYPE_LINE, CRLF, LENGTH_FIELD, Decimal.Print(|payload|));
  }

  lemma Regroup(a: string, b: string, c: string, d: string)
    ensures a + b + (c + d) == a + (b + c) + d
  {
  }

  /**
   A client that splits the received bytes at the first empty line and believes Content-Length
   gets exactly the payload back, whatever follows it in the buffer.
   */
  lemma BodyOfFrame(payload: string, padding: string)
    ensures Body(Frame(payload) + padding) == Some(payload)
  {
    var lines := HeaderLines(payload);
    var head := Lines(lines);
    var message := Frame(payload) + padding;
    DigitsAreLine(|payload|);
    assert message == head + CRLF + (payload + padding);
    HeaderEnd(lines, payload + padding);
    var i := |head| - 2;
    FindFirstIs(message, CRLFCRLF, Some(i));
    FrameShape(payload);
    LengthRead(|payload|);
    assert message[..i] == STATUS_LINE + CRLF + TYPE_LINE + (CRLF + LENGTH_FIELD) + Decimal.Print(|payload|);
    assert message[i + 4..i + 4 + |payload|] == payload;
  }

  // ----- a client that knows nothing of the server: sections 3 and 3.3.2 of RFC 7230 -----

  /** The number in decimal digits at the front of s, which end with a line end or with s. */
  function Number(s: string, read: nat := 0): Option<nat> {
    if s == "" || s[0] == '\r' then Some(read)
    else if '0' <= s[0] <= '9' then Number(s[1..], 10 * read + (s[0] as int - '0' as int))
    else None
  }

  /** A reply with the right status and type, split at its first empty line, its body as long as its field says. */
  function ReadReply(message: string): Option<string> {
    match FindFirst(message, "\r\n\r\n")
    case None => None
    case Some(end) =>
      var head := message[..end];
      if !("HTTP/1.1 200 OK\r\n" <= head) then None
      else if FindFirst(head, "\r\nContent-Type: text/html\r\n").None? then None
      else
        match FindFirst(head, "\r\nContent-Length: ")
        case None => None
        case Some(i) =>
          match Number(head[i + 18..])
          case None => None
          case Some(n) => if end + 4 + n <= |message| then Some(message[end + 4..end + 4 + n]) else None
  }

  /** The frame of every payload, written out. */
  lemma FrameText(payload: string)
    ensures Frame(payload) ==
            "HTTP/1.1 200 OK" + "\r\n" + "Content-Type: text/html" + "\r\n"
            + ("Content-Length: " + Decimal.Print(|payload|)) + "\r\n\r\n" + payload
  {
    FrameAppended(payload);
  }

  lemma {:induction false} NumberAppend(digits: string, d: char, read: nat)
    requires '0' <= d <= '9' && Number(digits, read).Some? && '\r' !in digits
    ensures Number(digits + [d], read) == Some(10 * Number(digits, read).value + (d as int - '0' as int))
  {
    if digits == "" {
      assert (digits + [d])[1..] == "";
    } else {
      assert (digits + [d])[1..] == digits[1..] + [d];
      NumberAppend(digits[1..], d, 10 * read + (digits[0] as int - '0' as int));
    }
  }

  lemma {:induction false} NumberOfPrint(n: nat)
    ensures Number(Decimal.Print(n)) == Some(n)
  {
    var digits := Decimal.Print(n);
    if n >= 10 {
      NumberOfPrint(n / 10);
      assert forall c | c in Decimal.Print(n / 10) :: Decimal.IsDigit(c);
      NumberAppend(Decimal.Print(n / 10), Decimal.Digit(n % 10), 0);
    } else {
      assert digits[1..] == "";
    }
  }

  /** The type field stands right after the status line. */
  lemma TypeFound(a: string, b: string, rest: string)
    requires '\r' !in a
    ensures FindFirst(a + CRLF + b + CRLF + rest, CRLF + b + CRLF) == Some(|a|)
  {
    var s, key := a + CRLF + b + CRLF + rest, CRLF + b + CRLF;
    assert s[|a|..|a| + |key|] == key;
    forall i: nat | i < |a|
      ensures !OccursAt(s, key, i)
    {
      if i + |key| <= |s| {
        assert s[i..i + |key|][0] == s[i] == a[i];
      }
    }
    FindFirstIs(s, key, Some(|a|));
  }

  lemma HeadText(digits: string)
    ensures STATUS_LINE + CRLF + TYPE_LINE + (CRLF + LENGTH_FIELD) + digits ==
            STATUS_LINE + CRLF + TYPE_LINE + CRLF + (LENGTH_FIELD + digits)
  {
    Regroup(STATUS_LINE + CRLF + TYPE_LINE, CRLF, LENGTH_FIELD, digits);
  }

  /** That client's own texts are the ones the server sends. */
  lemma ClientTexts()
    ensures "HTTP/1.1 200 OK\r\n" == STATUS_LINE + CRLF
    ensures "\r\nContent-Type: text/html\r\n" == CRLF + TYPE_LINE + CRLF
    ensures "\r\nContent-Length: " == CRLF + LENGTH_FIELD && |CRLF + LENGTH_FIELD| == 18
  {
  }

  lemma HeadRead(n: nat)
    ensures var head := STATUS_LINE + CRLF + TYPE_LINE + (CRLF + LENGTH_FIELD) + Decimal.Print(n);
            && STATUS_LINE + CRLF <= head
            && FindFirst(head, CRLF + TYPE_LINE + CRLF).Some?
            && FindFirst(head, CRLF + LENGTH_FIELD) == Some(|STATUS_LINE| + 2 + |TYPE_LINE|)
            && |STATUS_LINE| + 2 + |TYPE_LINE| + |CRLF + LENGTH_FIELD| <= |head|
            && Number(head[|STATUS_LINE| + 2 + |TYPE_LINE| + |CRLF + LENGTH_FIELD|..]) == Some(n)
  {
    var digits := Decimal.Print(n);
    FieldsApart();
    HeadText(digits);
    TypeFound(STATUS_LINE, TYPE_LINE, LENGTH_FIELD + digits);
    FieldFound(STATUS_LINE, TYPE_LINE, LENGTH_FIELD, digits);
    FieldTail(STATUS_LINE, TYPE_LINE, CRLF + LENGTH_FIELD, digits);
    NumberOfPrint(n);
  }

  /** It gets exactly the payload of every frame, whatever follows. */
  lemma ReplyRead(payload: string, padding: string)
    ensures ReadReply(Frame(payload) + padding) == Some(payload)
  {
    var message := Frame(payload) + padding;
    var head := STATUS_LINE + CRLF + TYPE_LINE + (CRLF + LENGTH_FIELD) + Decimal.Print(|payload|);
    FrameCut(payload, padding);
    HeadRead(|payload|);
    ClientTexts();
  }

  /** The first empty line of a frame and what stands before and after it. */
  lemma FrameCut(payload: string, padding: string)
    ensures var message := Frame(payload) + padding;
            var head := STATUS_LINE + CRLF + TYPE_LINE + (CRLF + LENGTH_FIELD) + Decimal.Print(|payload|);
            && FindFirst(message, "\r\n\r\n") == Some(|head|)
            && |head| + 4 + |payload| <= |message|
            && message[..|head|] == head && message[|head| + 4..|head| + 4 + |payload|] == payload
  {
    var lines := HeaderLines(payload);
    DigitsAreLine(|payload|);
    HeaderEnd(lines, payload + padding);
    FrameShape(payload);
    assert Frame(payload) + padding == Lines(lines) + CRLF + (payload + padding);
    FindFirstIs(Frame(payload) + padding, CRLFCRLF, Some(|Lines(lines)| - 2));
  }
}
