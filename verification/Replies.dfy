/**
 What every request text is answered, in literal texts and lengths: what a query must look like,
 which of its faults is reported, and what the reply says.
 */
module Replies {
  import opened CString
  import opened Options
  import opened Query
  import opened QueryRoundTrip

  // ----- the head of a request -----

  /** The text starts with a word in any mixture of the two spellings. */
  predicate Spells(text: string, small: string, large: string)
    requires |small| == |large|
  {
    |text| >= |small| && forall i | 0 <= i < |small| :: text[i] == small[i] || text[i] == large[i]
  }

  lemma LetterCase(c: char, d: char)
    requires 'a' <= d <= 'z'
    ensures Lower(c) == d <==> c == d || c == (d as int - 32) as char
    ensures Lower((d as int - 32) as char) == d
  {
  }

  /** One letter of a word in both spellings. */
  predicate BothCases(small: char, large: char) {
    if 'a' <= small <= 'z' then large == (small as int - 32) as char
    else small == large && !('A' <= small <= 'Z')
  }

  lemma SpellsWord(text: string, word: string, small: string, large: string)
    requires |word| == |small| == |large|
    requires forall i | 0 <= i < |small| :: BothCases(small[i], large[i]) && word[i] in [small[i], large[i]]
    ensures StartsWithIgnoreCase(text, word) <==> Spells(text, small, large)
  {
    forall i | 0 <= i < |small| && i < |text|
      ensures Lower(text[i]) == Lower(word[i]) <==> text[i] == small[i] || text[i] == large[i]
    {
      assert BothCases(small[i], large[i]) && word[i] in [small[i], large[i]];
      if 'a' <= small[i] <= 'z' {
        LetterCase(text[i], small[i]);
        LetterCase(word[i], small[i]);
      } else {
        NoLetter(text[i], small[i]);
      }
    }
  }

  lemma NoLetter(c: char, d: char)
    requires !('a' <= d <= 'z') && !('A' <= d <= 'Z')
    ensures Lower(c) == Lower(d) <==> c == d
  {
  }

  lemma QuerySpelled(text: string)
    ensures IsQuery(text) <==> Spells(text, "query=", "QUERY=")
  {
    SpellsWord(text, "Query=", "query=", "QUERY=");
  }

  lemma ActivateSpelled(text: string)
    ensures IsActivate(text) <==> Spells(text, "activate=", "ACTIVATE=")
  {
    SpellsWord(text, "Activate=", "activate=", "ACTIVATE=");
  }

  // ----- the leading item -----

  /** The scan of a text that starts with six characters up to the first '='. */
  lemma LeadingValue(head: string, q: string, rest: string)
    requires |head| == 6 && Spells(head, "query=", "QUERY=")
    requires '&' !in q && (rest == "" || rest[0] == '&')
    ensures QueryType(head + q + rest) == q
  {
    var text := head + q + rest;
    assert head[5] == '=';
    assert forall i | 0 <= i < 5 :: head[i] != '=' by { SpelledLetters(head); }
    assert text[..5] == head[..5];
    BeforeIs(text, '=', text[..5]);
    assert SpanNot(text, '=') == 5;
    assert text[6..] == q + rest;
    BeforeIs(text[6..], '&', q);
  }

  lemma SpelledLetters(head: string)
    requires |head| == 6 && Spells(head, "query=", "QUERY=")
    ensures head[0] != '=' && head[1] != '=' && head[2] != '=' && head[3] != '=' && head[4] != '='
  {
    assert "query="[0] == 'q' && "query="[1] == 'u' && "query="[2] == 'e' && "query="[3] == 'r' && "query="[4] == 'y';
    assert "QUERY="[0] == 'Q' && "QUERY="[1] == 'U' && "QUERY="[2] == 'E' && "QUERY="[3] == 'R' && "QUERY="[4] == 'Y';
  }

  lemma QueryErrors()
    ensures ErrorPayload(NoField) == Some("ErrorCode=NoField")
    ensures ErrorPayload(QueryLenIsWrong) == Some("ErrorCode=QueryLenIsWrong")
    ensures ErrorPayload(QueryNumberUndefine) == Some("ErrorCode=QueryNumberUndefine")
  {
    assert "ErrorCode=" + "NoField" == "ErrorCode=NoField";
    assert "ErrorCode=" + "QueryLenIsWrong" == "ErrorCode=QueryLenIsWrong";
    assert "ErrorCode=" + "QueryNumberUndefine" == "ErrorCode=QueryNumberUndefine";
  }

  lemma ProjectErrors()
    ensures ErrorPayload(NoProjectID) == Some("ErrorCode=NoProjectID")
    ensures ErrorPayload(ProjectIDIsWrong) == Some("ErrorCode=ProjectIDIsWrong")
    ensures ErrorPayload(ProjectIDTooLong) == Some("ErrorCode=ProjectIDTooLong")
  {
    assert "ErrorCode=" + "NoProjectID" == "ErrorCode=NoProjectID";
    assert "ErrorCode=" + "ProjectIDIsWrong" == "ErrorCode=ProjectIDIsWrong";
    assert "ErrorCode=" + "ProjectIDTooLong" == "ErrorCode=ProjectIDTooLong";
  }

  lemma VendorErrors()
    ensures ErrorPayload(NoVendorID) == Some("ErrorCode=NoVendorID")
    ensures ErrorPayload(VendorIDIsWrong) == Some("ErrorCode=VendorIDIsWrong")
    ensures ErrorPayload(VendorIDTooLong) == Some("ErrorCode=VendorIDTooLong")
  {
    assert "ErrorCode=" + "NoVendorID" == "ErrorCode=NoVendorID";
    assert "ErrorCode=" + "VendorIDIsWrong" == "ErrorCode=VendorIDIsWrong";
    assert "ErrorCode=" + "VendorIDTooLong" == "ErrorCode=VendorIDTooLong";
  }

  lemma DeviceErrors()
    ensures ErrorPayload(STBIDTooLong) == Some("ErrorCode=STBIDTooLong")
    ensures ErrorPayload(ChipIDTooLong) == Some("ErrorCode=ChipIDTooLong")
    ensures ErrorPayload(MACLenIsWrong) == Some("ErrorCode=MACLenIsWrong")
    ensures ErrorPayload(NullError) == None
  {
    assert "ErrorCode=" + "STBIDTooLong" == "ErrorCode=STBIDTooLong";
    assert "ErrorCode=" + "ChipIDTooLong" == "ErrorCode=ChipIDTooLong";
    assert "ErrorCode=" + "MACLenIsWrong" == "ErrorCode=MACLenIsWrong";
  }

  /** The reply to every text that starts with a Query= item, by the value of that item. */
  lemma TypeReplies(head: string, q: string, rest: string)
    requires |head| == 6 && Spells(head, "query=", "QUERY=")
    requires '&' !in q && (rest == "" || rest[0] == '&')
    ensures var text := head + q + rest;
            && (|q| != 1 ==> Answer(text) == Some("ErrorCode=QueryLenIsWrong"))
            && (|q| == 1 && q[0] != '0' && q[0] != '1' ==> Answer(text) == Some("ErrorCode=QueryNumberUndefine"))
            && (q == "1" ==> Answer(text) == None)
            && (q == "0" ==> Parsed(text) == AuthOutcome(Sent(text)))
  {
    var text := head + q + rest;
    assert Spells(text, "query=", "QUERY=") by {
      assert forall i | 0 <= i < 6 :: text[i] == head[i];
    }
    QuerySpelled(text);
    LeadingValue(head, q, rest);
    TypeAnswer(text, q);
  }

  lemma TypeAnswer(text: string, q: string)
    requires IsQuery(text) && QueryType(text) == q
    ensures |q| != 1 ==> Answer(text) == Some("ErrorCode=QueryLenIsWrong")
    ensures |q| == 1 && q[0] != '0' && q[0] != '1' ==> Answer(text) == Some("ErrorCode=QueryNumberUndefine")
    ensures q == "1" ==> Answer(text) == None
    ensures q == "0" ==> Parsed(text) == AuthOutcome(Sent(text))
  {
    TypeOutcome(q, Sent(text));
    QueryErrors();
  }

  lemma TypeOutcome(q: string, sent: Fields)
    ensures |q| != 1 ==> QueryOutcome(q, sent) == State(ErrorFlag, QueryLenIsWrong, NO_FIELDS)
    ensures |q| == 1 && q[0] != '0' && q[0] != '1' ==>
              QueryOutcome(q, sent) == State(ErrorFlag, QueryNumberUndefine, NO_FIELDS)
    ensures q == "1" ==> QueryOutcome(q, sent) == State(NullFlag, NullError, NO_FIELDS)
    ensures q == "0" ==> QueryOutcome(q, sent) == AuthOutcome(sent)
  {
  }

  /** The reply to every other text. */
  lemma OtherReplies(text: string)
    requires !Spells(text, "query=", "QUERY=")
    ensures Spells(text, "activate=", "ACTIVATE=") ==> Answer(text) == None
    ensures !Spells(text, "activate=", "ACTIVATE=") ==> Answer(text) == Some("ErrorCode=NoField")
  {
    QuerySpelled(text);
    ActivateSpelled(text);
    QueryErrors();
  }

  // ----- a record's faults, by the lengths of its five values -----

  /** What an authentication query leaves behind, for all values of all lengths. */
  lemma RecordByLengths(p: string, v: string, s: string, c: string, m: string)
    ensures AuthOutcome(Fields(p, v, s, c, m)) ==
            if |p| > 8 then State(ErrorFlag, ProjectIDTooLong, Fields("", "", "", "", ""))
            else if |p| == 0 then State(ErrorFlag, NoProjectID, Fields("", "", "", "", ""))
            else if |v| > 8 then State(ErrorFlag, VendorIDTooLong, Fields(p, "", "", "", ""))
            else if |v| == 0 then State(ErrorFlag, NoVendorID, Fields(p, "", "", "", ""))
            else if |s| > 32 then State(ErrorFlag, STBIDTooLong, Fields(p, v, "", "", ""))
            else if |c| > 32 then State(ErrorFlag, ChipIDTooLong, Fields(p, v, s, "", ""))
            else if |m| != 0 && |m| != 12 then State(ErrorFlag, MACLenIsWrong, Fields(p, v, s, c, ""))
            else if |s| == 0 && |c| == 0 && |m| == 0 then State(QueryAuthSum, NullError, Fields(p, v, s, c, m))
            else State(QueryAuthState, NullError, Fields(p, v, s, c, m))
  {
    var sent := Fields(p, v, s, c, m);
    if |p| > 8 {
      StopsAt(sent, 0);
    } else if |p| == 0 {
      StopsAt(sent, 1);
    } else if |v| > 8 {
      StopsAt(sent, 2);
    } else if |v| == 0 {
      StopsAt(sent, 3);
    } else if |s| > 32 {
      StopsAt(sent, 4);
    } else if |c| > 32 {
      StopsAt(sent, 5);
    } else if |m| != 0 && |m| != 12 {
      StopsAt(sent, 6);
    } else {
      StopsNowhere(sent);
    }
  }

  /** A record is accepted if and only if its five values have the lengths agreed. */
  lemma RecordAccepted(p: string, v: string, s: string, c: string, m: string)
    ensures AuthOutcome(Fields(p, v, s, c, m)).flag != ErrorFlag <==>
            1 <= |p| <= 8 && 1 <= |v| <= 8 && |s| <= 32 && |c| <= 32 && (|m| == 0 || |m| == 12)
  {
    RecordByLengths(p, v, s, c, m);
  }

  /** Each of the seven faults is reported if and only if it is there and none of those before it. */
  lemma RecordRefused(p: string, v: string, s: string, c: string, m: string)
    ensures var e := AuthOutcome(Fields(p, v, s, c, m)).error;
            && (e == ProjectIDTooLong <==> |p| > 8)
            && (e == NoProjectID <==> |p| == 0)
            && (e == VendorIDTooLong <==> 1 <= |p| <= 8 && |v| > 8)
            && (e == NoVendorID <==> 1 <= |p| <= 8 && |v| == 0)
            && (e == STBIDTooLong <==> 1 <= |p| <= 8 && 1 <= |v| <= 8 && |s| > 32)
            && (e == ChipIDTooLong <==> 1 <= |p| <= 8 && 1 <= |v| <= 8 && |s| <= 32 && |c| > 32)
            && (e == MACLenIsWrong <==>
                  1 <= |p| <= 8 && 1 <= |v| <= 8 && |s| <= 32 && |c| <= 32 && |m| != 0 && |m| != 12)
  {
    RecordByLengths(p, v, s, c, m);
  }

  /** The five values an authentication query sends are those of its five items. */
  lemma ValuesSent(text: string)
    ensures Sent(text) == Fields(ItemValue(text, "ProjectID="), ItemValue(text, "VendorID="),
                                 ItemValue(text, "STBID="), ItemValue(text, "ChipID="), ItemValue(text, "MAC="))
  {
  }

  /** A text that starts with `Query=0`, in any spelling of the word, and then a separator or its end. */
  predicate AsksAuth(text: string) {
    |text| >= 7 && Spells(text, "query=", "QUERY=") && text[6] == '0' && (|text| > 7 ==> text[7] == '&')
  }

  lemma AuthParsed(text: string)
    requires AsksAuth(text)
    ensures Parsed(text) ==
            AuthOutcome(Fields(ItemValue(text, "ProjectID="), ItemValue(text, "VendorID="),
                               ItemValue(text, "STBID="), ItemValue(text, "ChipID="), ItemValue(text, "MAC=")))
  {
    var head, rest := text[..6], text[7..];
    assert text == head + "0" + rest;
    assert forall i | 0 <= i < 6 :: head[i] == text[i];
    TypeReplies(head, "0", rest);
    ValuesSent(text);
  }

  /**
   An authentication query is accepted if and only if the values of its five items have the lengths
   agreed: 1 to 8 for project and vendor, up to 32 for the two device names, 0 or 12 for the address.
   */
  lemma AuthAccepted(text: string)
    requires AsksAuth(text)
    ensures var p, v := ItemValue(text, "ProjectID="), ItemValue(text, "VendorID=");
            var s, c, m := ItemValue(text, "STBID="), ItemValue(text, "ChipID="), ItemValue(text, "MAC=");
            Parsed(text).flag != ErrorFlag <==>
            1 <= |p| <= 8 && 1 <= |v| <= 8 && |s| <= 32 && |c| <= 32 && (|m| == 0 || |m| == 12)
  {
    AuthParsed(text);
    RecordAccepted(ItemValue(text, "ProjectID="), ItemValue(text, "VendorID="),
                   ItemValue(text, "STBID="), ItemValue(text, "ChipID="), ItemValue(text, "MAC="));
  }

  /** The reply to every authentication query, by its five values alone. */
  lemma AuthReplies(text: string)
    requires AsksAuth(text)
    ensures var p, v := ItemValue(text, "ProjectID="), ItemValue(text, "VendorID=");
            var s, c, m := ItemValue(text, "STBID="), ItemValue(text, "ChipID="), ItemValue(text, "MAC=");
            Answer(text) ==
              if |p| > 8 then Some("ErrorCode=ProjectIDTooLong")
              else if |p| == 0 then Some("ErrorCode=NoProjectID")
              else if |v| > 8 then Some("ErrorCode=VendorIDTooLong")
              else if |v| == 0 then Some("ErrorCode=NoVendorID")
              else if |s| > 32 then Some("ErrorCode=STBIDTooLong")
              else if |c| > 32 then Some("ErrorCode=ChipIDTooLong")
              else if |m| != 0 && |m| != 12 then Some("ErrorCode=MACLenIsWrong")
              else if |s| > 0 then Some("AuthState=StbId")
              else if |c| > 0 then Some("AuthState=ChipId")
              else if |m| > 0 then Some("AuthState=Mac")
              else Some("AuthSum=0")
  {
    AuthParsed(text);
    RecordReplies(ItemValue(text, "ProjectID="), ItemValue(text, "VendorID="),
                  ItemValue(text, "STBID="), ItemValue(text, "ChipID="), ItemValue(text, "MAC="));
  }

  lemma RecordReplies(p: string, v: string, s: string, c: string, m: string)
    ensures Payload(AuthOutcome(Fields(p, v, s, c, m))) ==
            if |p| > 8 then Some("ErrorCode=ProjectIDTooLong")
            else if |p| == 0 then Some("ErrorCode=NoProjectID")
            else if |v| > 8 then Some("ErrorCode=VendorIDTooLong")
            else if |v| == 0 then Some("ErrorCode=NoVendorID")
            else if |s| > 32 then Some("ErrorCode=STBIDTooLong")
            else if |c| > 32 then Some("ErrorCode=ChipIDTooLong")
            else if |m| != 0 && |m| != 12 then Some("ErrorCode=MACLenIsWrong")
            else if |s| > 0 then Some("AuthState=StbId")
            else if |c| > 0 then Some("AuthState=ChipId")
            else if |m| > 0 then Some("AuthState=Mac")
            else Some("AuthSum=0")
  {
    RecordByLengths(p, v, s, c, m);
    ProjectErrors();
    VendorErrors();
    DeviceErrors();
  }

  /** What the builder makes of flags no parse sets, one answer after the other for each identifier. */
  lemma ActivateReplies(f: Fields)
    ensures Payload(State(QueryActivateSum, NullError, f)) == Some("ActivateSum=0")
    ensures Payload(State(ActivateSucceed, NullError, f)) == Some("")
    ensures Payload(State(ActivateFailed, NullError, f)) == Some("")
    ensures Payload(State(QueryActivateState, NullError, f)) ==
            Some((if |f.stbid| > 0 then "ActivateState=StbId" else "")
                 + (if |f.chipid| > 0 then "ActivateState=ChipId" else "")
                 + (if |f.macaddr| > 0 then "ActivateState=Mac" else ""))
  {
  }
}
