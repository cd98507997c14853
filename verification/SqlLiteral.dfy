/**
 What MySQL reads between double quotes, in its default mode (sections "String Literals" and
 "Comments" of the MySQL Reference Manual), and when that is the text that was put there.
 */
module SqlLiteral {
  import opened Options

  /** The character a backslash sequence stands for. */
  function Escape(c: char): char {
    match c
    case '0' => '\0'
    case 'b' => 8 as char
    case 'n' => '\n'
    case 'r' => '\r'
    case 't' => '\t'
    case 'Z' => 26 as char
    case _ => c
  }

  /** Before % and _ the backslash stays. */
  function Unescaped(c: char): string {
    if c == '%' || c == '_' then ['\\', c] else [Escape(c)]
  }

  datatype Literal = Literal(value: string, rest: string)

  /** Reads on after an opening double quote; None when the literal has no end. */
  function ReadLiteral(s: string): Option<Literal> {
    if s == "" then None
    else if s[0] == '"' then
      if |s| > 1 && s[1] == '"' then Prepended("\"", ReadLiteral(s[2..])) else Some(Literal("", s[1..]))
    else if s[0] == '\\' then
      if |s| == 1 then None else Prepended(Unescaped(s[1]), ReadLiteral(s[2..]))
    else Prepended([s[0]], ReadLiteral(s[1..]))
  }

  function Prepended(head: string, l: Option<Literal>): Option<Literal> {
    match l
    case None => None
    case Some(Literal(value, rest)) => Some(Literal(head + value, rest))
  }

  lemma SamePrefix(prefix: string, a: string, b: string)
    ensures prefix + a == prefix + b <==> a == b
  {
    assert (prefix + a)[|prefix|..] == a && (prefix + b)[|prefix|..] == b;
  }

  /** The character at i is not a double quote, and a backslash only before % or _. */
  predicate SafeAt(s: string, i: nat)
    requires i < |s|
  {
    s[i] != '"' && (s[i] == '\\' ==> i + 1 < |s| && (s[i + 1] == '%' || s[i + 1] == '_'))
  }

  predicate LiteralSafe(s: string) {
    forall i | 0 <= i < |s| :: SafeAt(s, i)
  }

  /** Only the two escapes that keep their backslash read as many characters as they take. */
  lemma {:induction false} LiteralShrinks(s: string)
    ensures match ReadLiteral(s)
            case None => true
            case Some(l) => |l.value| + |l.rest| < |s|
  {
    if s == "" {
    } else if s[0] == '"' {
      if |s| > 1 && s[1] == '"' {
        LiteralShrinks(s[2..]);
      }
    } else if s[0] == '\\' {
      if |s| > 1 {
        LiteralShrinks(s[2..]);
      }
    } else {
      LiteralShrinks(s[1..]);
    }
  }

  lemma PrependedExact(head: string, l: Option<Literal>, value: string)
    ensures Prepended(head, l) == Some(Literal(head + value, "")) <==> l == Some(Literal(value, ""))
  {
    if l.Some? {
      SamePrefix(head, l.value.value, value);
    }
  }

  /** A text put between double quotes reads back as itself exactly when it is safe. */
  lemma {:induction false} LiteralExact(s: string)
    ensures ReadLiteral(s + "\"") == Some(Literal(s, "")) <==> LiteralSafe(s)
  {
    var t := s + "\"";
    assert s != "" && !SafeAt(s, 0) ==> !LiteralSafe(s);
    if s == "" {
      assert t[1..] == "";
    } else if s[0] == '"' {
      LiteralShrinks(t[2..]);
    } else if s[0] == '\\' {
      EscapeExact(s);
    } else {
      assert t[1..] == s[1..] + "\"";
      LiteralExact(s[1..]);
      SafeTail(s, 1);
      PrependedExact([s[0]], ReadLiteral(t[1..]), s[1..]);
      assert s == [s[0]] + s[1..];
    }
  }

  lemma {:induction false} EscapeExact(s: string)
    requires s != "" && s[0] == '\\'
    ensures ReadLiteral(s + "\"") == Some(Literal(s, "")) <==> LiteralSafe(s)
    decreases s, 0
  {
    var t := s + "\"";
    assert !SafeAt(s, 0) ==> !LiteralSafe(s);
    if |s| == 1 {
      assert t[2..] == "";
    } else {
      assert t[2..] == s[2..] + "\"";
      LiteralShrinks(t[2..]);
      if s[1] == '%' || s[1] == '_' {
        LiteralExact(s[2..]);
        SafeTail(s, 2);
        PrependedExact(Unescaped(s[1]), ReadLiteral(t[2..]), s[2..]);
        assert s == Unescaped(s[1]) + s[2..];
      }
    }
  }

  lemma SafeTail(s: string, k: nat)
    requires k <= |s|
    requires LiteralSafe(s[..k])
    ensures LiteralSafe(s) <==> LiteralSafe(s[k..])
  {
    assert forall i | 0 <= i < k :: SafeAt(s[..k], i) ==> SafeAt(s, i);
    assert forall i | k <= i < |s| :: SafeAt(s, i) <==> SafeAt(s[k..], i - k);
    assert forall i | 0 <= i < |s| - k :: SafeAt(s[k..], i) <==> SafeAt(s, i + k);
  }

  // ----- a whole query: code up to the first quote or comment -----

  /** isspace or iscntrl in the C locale. */
  predicate Blank(c: char) {
    c <= ' ' || c as int == 127
  }

  /** A string literal, a quoted identifier or a comment starts at i; `--` needs a blank or the end after it. */
  predicate OpensAt(s: string, i: nat)
    requires i < |s|
  {
    || s[i] == '"' || s[i] == '\'' || s[i] == '`' || s[i] == '#'
    || (s[i] == '/' && i + 1 < |s| && s[i + 1] == '*')
    || (s[i] == '-' && i + 1 < |s| && s[i + 1] == '-' && (i + 2 == |s| || Blank(s[i + 2])))
  }

  /** Code and nothing else. */
  predicate OnlyCode(s: string) {
    forall i | 0 <= i < |s| :: !OpensAt(s, i)
  }

  /** How far the query is code. */
  function CodeLength(s: string, from: nat := 0): (n: nat)
    requires from <= |s|
    ensures from <= n <= |s|
    ensures n < |s| ==> OpensAt(s, n)
    ensures forall i | from <= i < n :: !OpensAt(s, i)
    decreases |s| - from
  {
    if from == |s| || OpensAt(s, from) then from else CodeLength(s, from + 1)
  }

  /** The value of the query's only literal, when it is code up to that literal and ends with it. */
  function OnlyLiteral(query: string): Option<string> {
    var n := CodeLength(query);
    if n == |query| || query[n] != '"' then None
    else
      match ReadLiteral(query[n + 1..])
      case Some(Literal(value, rest)) => if rest == "" then Some(value) else None
      case None => None
  }

  /** Before a blank, what opens in a text is decided by the text alone. */
  lemma OpensAlone(s: string, rest: string, i: nat)
    requires i < |s| && rest != "" && Blank(rest[0])
    ensures OpensAt(s + rest, i) <==> OpensAt(s, i)
  {
  }

  /** After code that does not end like the start of a comment, likewise. */
  lemma OpensAfter(head: string, s: string, i: nat)
    requires i < |s|
    ensures OpensAt(head + s, |head| + i) <==> OpensAt(s, i)
  {
  }

  lemma OpensInHead(head: string, s: string, i: nat)
    requires i < |head| && head[|head| - 1] == '_' && OnlyCode(head)
    ensures !OpensAt(head + s, i)
  {
    assert !OpensAt(head, i);
  }

  /** No character that can open anything. */
  predicate PlainText(s: string) {
    '"' !in s && '\\' !in s && '\'' !in s && '`' !in s && '#' !in s && '/' !in s && '-' !in s
  }

  lemma PlainIsCode(s: string)
    requires PlainText(s)
    ensures OnlyCode(s)
  {
  }

  lemma PlainJoined(a: string, b: string)
    requires PlainText(a) && PlainText(b)
    ensures PlainText(a + b)
  {
  }

  // ----- no earlier quote reads as the text that is quoted last -----

  /** A character that stands for itself in a literal, also after a backslash. */
  predicate Itself(c: char) {
    c != '"' && c != '\\' && Unescaped(c) == [c]
  }

  lemma PrependedTwice(a: string, b: string, l: Option<Literal>)
    ensures Prepended(a, Prepended(b, l)) == Prepended(a + b, l)
  {
    if l.Some? {
      assert a + (b + l.value.value) == (a + b) + l.value.value;
    }
  }

  /** Reading x and then b either ends within x, or reads something out of x and goes on with b. */
  lemma {:induction false} ReadThrough(x: string, b: string) returns (d: string)
    requires b != "" && Itself(b[0])
    ensures || ReadLiteral(x + b) == Prepended(d, ReadLiteral(b))
            || (ReadLiteral(x + b).Some? && |ReadLiteral(x + b).value.rest| >= |b|)
  {
    var s := x + b;
    d := "";
    if x == "" {
      assert s == b;
      PrependedNothing(ReadLiteral(b));
    } else if |x| == 1 && s[0] == '"' {
      assert s[1..] == b;
    } else if |x| == 1 && s[0] == '\\' {
      assert s[2..] == b[1..] && s[1] == b[0];
      PrependedNothing(ReadLiteral(b));
    } else {
      var k := if s[0] == '"' && s[1] != '"' then 0 else if s[0] == '"' || s[0] == '\\' then 2 else 1;
      if k == 0 {
        assert |s[1..]| >= |b|;
      } else {
        assert s[k..] == x[k..] + b;
        var more := ReadThrough(x[k..], b);
        var head := if s[0] == '"' then "\"" else if s[0] == '\\' then Unescaped(s[1]) else [s[0]];
        d := head + more;
        PrependedTwice(head, more, ReadLiteral(b));
      }
    }
  }

  lemma PrependedNothing(l: Option<Literal>)
    ensures Prepended("", l) == l
  {
    if l.Some? {
      assert "" + l.value.value == l.value.value;
    }
  }

  /** Plain text is read as it stands. */
  lemma {:induction false} ReadPlain(m: string, t: string)
    requires '"' !in m && '\\' !in m
    ensures ReadLiteral(m + t) == Prepended(m, ReadLiteral(t))
  {
    if m == "" {
      assert m + t == t;
      PrependedNothing(ReadLiteral(t));
    } else {
      assert (m + t)[1..] == m[1..] + t;
      ReadPlain(m[1..], t);
      PrependedTwice([m[0]], m[1..], ReadLiteral(t));
      assert [m[0]] + m[1..] == m;
    }
  }

  /** A quote after plain text ends the literal, unless another follows. */
  lemma LiteralEnds(m: string, rest: string)
    requires '"' !in m && '\\' !in m && rest != "" && rest[0] != '"'
    ensures ReadLiteral(m + ("\"" + rest)) == Some(Literal(m, rest))
  {
    ReadPlain(m, "\"" + rest);
    assert ("\"" + rest)[1..] == rest;
    assert ReadLiteral("\"" + rest) == Some(Literal("", rest));
    assert m + "" == m;
  }

  /** After a quote and w, the closing quote: only a w that starts with a quote is read on. */
  lemma ReadQuoted(w: string)
    ensures var l := ReadLiteral("\"" + w + "\"");
            if w != "" && w[0] == '"' then l == Prepended("\"", ReadLiteral(w[1..] + "\""))
            else l.None? || l.value.rest != ""
  {
    var s := "\"" + w + "\"";
    if w == "" {
      assert s[2..] == "";
    } else {
      assert s[1] == w[0] && s[2..] == w[1..] + "\"";
    }
  }

  /** No literal that starts before `m"w"` reads as w and ends there. */
  lemma {:induction false} EarlierQuoteDiffers(x: string, m: string, w: string)
    requires m != "" && Itself(m[0]) && '"' !in m && '\\' !in m
    ensures ReadLiteral(x + (m + ("\"" + w + "\""))) != Some(Literal(w, ""))
    decreases |w|
  {
    var tail := "\"" + w + "\"";
    var b := m + tail;
    var d := ReadThrough(x, b);
    ReadPlain(m, tail);
    ReadQuoted(w);
    PrependedTwice(d, m, ReadLiteral(tail));
    if ReadLiteral(x + b) == Prepended(d + m, ReadLiteral(tail)) && w != "" && w[0] == '"' {
      var inner := ReadLiteral(w[1..] + "\"");
      PrependedTwice(d + m, "\"", inner);
      if inner.Some? && (d + m) + "\"" + inner.value.value == w && inner.value.rest == "" {
        SelfReading(d, m, w, inner.value.value);
        EarlierQuoteDiffers(d[1..], m, inner.value.value);
      }
    }
  }

  lemma SelfReading(d: string, m: string, w: string, v: string)
    requires m != "" && m[0] != '"' && w != "" && w[0] == '"' && (d + m) + "\"" + v == w
    ensures d != "" && |v| < |w| && w[1..] + "\"" == d[1..] + (m + ("\"" + v + "\""))
  {
    assert w[0] == (d + m)[0];
  }

  /** In front of a quote, what opens in a text opens in it alone. */
  lemma OpensBeforeQuote(s: string, rest: string, i: nat)
    requires i < |s| && rest != "" && rest[0] == '"'
    ensures OpensAt(s + rest, i) ==> OpensAt(s, i)
  {
  }

  /** The fixed parts of a query `head id m"w"`: code around an identifier and before a literal. */
  predicate Around(head: string, m: string) {
    && head != "" && head[|head| - 1] == '_' && OnlyCode(head)
    && m != "" && Blank(m[0]) && Itself(m[0]) && '"' !in m && '\\' !in m && OnlyCode(m)
  }

  /** Up to the last literal, only the identifier can open anything. */
  lemma OpensInQuery(head: string, id: string, m: string, w: string, i: nat)
    requires Around(head, m) && i < |head| + |id| + |m|
    ensures OpensAt(head + (id + (m + ("\"" + w + "\""))), i) <==>
            |head| <= i < |head| + |id| && OpensAt(id, i - |head|)
  {
    var quoted := "\"" + w + "\"";
    var tail := m + quoted;
    if i < |head| {
      OpensInHead(head, id + tail, i);
    } else {
      OpensAfter(head, id + tail, i - |head|);
      if i < |head| + |id| {
        assert tail[0] == m[0];
        OpensAlone(id, tail, i - |head|);
      } else {
        var k := i - |head| - |id|;
        OpensAfter(id, tail, k);
        OpensBeforeQuote(m, quoted, k);
        assert !OpensAt(m, k);
      }
    }
  }

  /** An identifier that opens nothing leaves the query code up to the last literal. */
  lemma LastLiteralRead(head: string, id: string, m: string, w: string)
    requires Around(head, m) && OnlyCode(id)
    ensures OnlyLiteral(head + (id + (m + ("\"" + w + "\"")))) == Some(w) <==> LiteralSafe(w)
  {
    var query := head + (id + (m + ("\"" + w + "\"")));
    var n := |head| + |id| + |m|;
    forall i | 0 <= i < n
      ensures !OpensAt(query, i)
    {
      OpensInQuery(head, id, m, w, i);
      assert |head| <= i < |head| + |id| ==> !OpensAt(id, i - |head|);
    }
    assert query[n] == '"' && OpensAt(query, n);
    assert CodeLength(query) == n;
    assert query[n + 1..] == w + "\"";
    LiteralExact(w);
  }

  /** One that opens something makes it read otherwise. */
  lemma LastLiteralMissed(head: string, id: string, m: string, w: string)
    requires Around(head, m) && !OnlyCode(id)
    ensures OnlyLiteral(head + (id + (m + ("\"" + w + "\"")))) != Some(w)
  {
    var query := head + (id + (m + ("\"" + w + "\"")));
    var n := CodeLength(query);
    var k :| 0 <= k < |id| && OpensAt(id, k);
    OpensInQuery(head, id, m, w, |head| + k);
    assert n <= |head| + k;
    OpensInQuery(head, id, m, w, n);
    var j := n - |head|;
    assert query[n + 1..] == id[j + 1..] + (m + ("\"" + w + "\""));
    EarlierQuoteDiffers(id[j + 1..], m, w);
  }

  /** The query's only literal is w exactly when the identifier opens nothing and w is safe. */
  lemma OnlyLiteralExact(head: string, id: string, m: string, w: string)
    requires Around(head, m)
    ensures OnlyLiteral(head + (id + (m + ("\"" + w + "\"")))) == Some(w) <==> OnlyCode(id) && LiteralSafe(w)
  {
    if OnlyCode(id) {
      LastLiteralRead(head, id, m, w);
    } else {
      LastLiteralMissed(head, id, m, w);
    }
  }

  /** A query that ends with the identifier is code exactly when the identifier is. */
  lemma OnlyCodeExact(head: string, id: string)
    requires head != "" && head[|head| - 1] == '_' && OnlyCode(head)
    ensures OnlyCode(head + id) <==> OnlyCode(id)
  {
    forall i | 0 <= i < |head| + |id|
      ensures OpensAt(head + id, i) <==> |head| <= i && OpensAt(id, i - |head|)
    {
      if i < |head| {
        OpensInHead(head, id, i);
      } else {
        OpensAfter(head, id, i - |head|);
      }
    }
    assert forall k | 0 <= k < |id| :: OpensAt(head + id, |head| + k) <==> OpensAt(id, k);
  }
}
