# Verification of the AMSServer request path

AMSServer is a small HTTP server for Windows. A client sends a GET request whose query string names a
project, a vendor and up to three device identifiers; the server answers with an authentication state, a
count, or an error name. This project models that path in Dafny, from the bytes of a received buffer to the
bytes handed to WSASend, together with the database step between parsing and answering, the life cycle of the
server's buffer objects under several worker threads, the shared log file, the table printed for a query
result, and the self-contained arithmetic of the vendored headers.

| file | what it models |
|---|---|
| `CString.dfy` | `strlen`, `strstr`, `strcat_s`, `strncpy_s`, `_strnicmp` and the `%*[^=]=%[^&]` scanset as loops over fixed NUL-terminated arrays |
| `Decimal.dfy` | `%d` and `_itoa_s` |
| `Query.dfy` | what a query text means: fields, flags, error codes and reply, as functions of the text |
| `QueryRoundTrip.dfy` | printing a record as a query and parsing it back |
| `Replies.dfy` | what every request text is answered, in literal texts and lengths |
| `HttpData.dfy` | the `HttpData` class, method by method, proved against `Query.dfy` |
| `HttpFrame.dfy` | finding the query in a request, framing a reply, and a client that reads it |
| `IoLifecycle.dfy` | buffer and request objects under interleaved `DoRecv` calls, as a transition system |
| `HttpServer.dfy` | `PerIOData`, `CheckRecvBufEnd`, `BuildSend`, `PostSend` and `DoRecv` |
| `Wire.dfy` | a server that handles one message after another, and the byte stream of its replies |
| `EndToEnd.dfy` | from the record a client prints to the answer it reads |
| `SqlLiteral.dfy` | what MySQL reads between double quotes |
| `Database.dfy`, `MySqlHttpData.dfy` | the names, queries, flags and payloads of `MySqlHttpData`, for any database |
| `QueryTable.dfy` | the printing loops of `ShowQueryDetails` and the layout they produce |
| `TableText.dfy` | the printed table read back from the text, line by line |
| `LogFile.dfy` | interleaved `WirteLogFile` calls, as a transition system |
| `Bignum.dfy`, `Bits.dfy`, `ByteCodec.dfy`, `Rint.dfy`, `Powers.dfy` | `bn_correct_top` and the tests on it, `MY_ALIGN`, the store and load macros, `rint` |

Conventions. A C string call that could overrun its buffer has a precondition that it fits, so each use proves
that it does. A scanset assigns nothing unless it reads at least one character (section 7.21.6.2 of ISO C11);
`strstr` is leftmost (section 7.24.5.7). `WSASend`, the database and the failing of a log write are parameters
with arbitrary values.

The functions that say what the code computes are themselves pinned by laws in literal texts and numbers, which do not
use them: `Replies.dfy` for the parser and the builder, `HttpServing.OutcomeByText` and `HttpServer.DoRecv` for the
fate of a message, `HttpFrame.ReplyRead` for the frame, `Database.AnswerByReplies`, `PayloadByReplies` and
`QueryTexts` for the database step, `TableText.TableRead` for the table, and the digit, byte and bit laws of
`Decimal.dfy`, `ByteCodec.dfy` and `Bits.dfy`.

Things the code does that a reader may not expect, all kept in the model, each with the condition that decides
it and an input that shows it:

- A key is searched anywhere in the text, so it is also found at the end of a longer name and inside a value. The
  search stops at the item meant exactly when no earlier item holds the key in either way
  (`QueryRoundTrip.ExactItemRead`; in any text at all, exactly when the key stands nowhere before that item,
  `QueryRoundTrip.MeantItemRead`). `Query=0&OldProjectID=1&ProjectID=2` and `Query=0&Note=ProjectID=1&ProjectID=2`
  are both read as naming project 1 (`QueryRoundTrip.OtherProjectRead`, `QueryRoundTrip.NotedProjectRead`). A record
  of values without '&' is read back in every order of its fields exactly when none of its values has another
  field's key in it with something else after it (`QueryRoundTrip.OrdersReadBack`).
- The query is looked for after the first '?' of the whole message. It is the request target's exactly when the
  target has a '?' that is not its last character (`HttpFrame.QueryInTarget`); a '?' in a later header, or white
  space after the target's, gives other text (`HttpFrame.QueryBeyondTarget`).
- With a database that does not fail, every request gets an error reply when the project or vendor is unknown, even
  one the plain class leaves unanswered (`Database.UnknownNameAnswered`). A refused request therefore reports its own
  error exactly when the names are recognised (`Database.OwnErrorLearned`); on a server without schemas the
  text `x` is told of a wrong project (`Database.ErrorReplaced`).
- Row counts above 9999999 do not fit the eight-byte buffer, and counts from 2^31 on are wrapped first, so some
  of them print as a wrong number: which ones is `Database.CountWrong` for the sum and `Database.DeviceWrong` for
  one device, where counts that wrap below 1 are refused; in the sum 2^32 rows print as 0 (`Database.WrappedCount`).
- Identifiers are put into the queries unescaped, and the vendor unquoted before the STBID's literal. The device
  query is code and one literal, which reads as the STBID sent, exactly when the STBID has no double quote and no
  backslash except before % or _, and the vendor opens no quote and no comment (`Database.DeviceNamedExactly`). An
  STBID that is one double quote, and a vendor `1"#` with the STBID `X`, are accepted and break one half each
  (`EndToEnd.QuoteAccepted`, `EndToEnd.VendorAccepted`).
- Every reply is sent as 1500 bytes whatever its Content-Length, so on a connection that stays open a reader of
  Content-Length finds NUL bytes after the first body (`Wire.StreamHasGap`), while a reader of 1500-byte records
  recovers every answer (`Wire.AnswersRecovered`).

## Model

| member | source | states |
|---|---|---|
| `CString.StrCat` | AMSServer/src/HttpData.cpp:330-331 | the text grows by exactly the appended string, within both the size told and the real buffer, and cleared bytes stay NUL |
| `CString.StrNCpy` | AMSServer/src/HttpData.cpp:202 | the buffer holds exactly the copied text |
| `CString.StrStr` | AMSServer/src/HttpData.cpp:309 | the double loop finds the leftmost occurrence, or reports that there is none |
| `CString.FindFromIsFirst` | AMSServer/src/HttpData.cpp:309 | the search function is the leftmost occurrence: an occurrence, and none earlier; none found means none anywhere |
| `CString.LocatePair` | AMSServer/src/HttpData.cpp:316 | the scan loops find the value the scanset assigns, or nothing |
| `CString.PairScanned` | AMSServer/src/HttpData.cpp:316 | in name=value and what follows an '&', the scanset assigns the value exactly when neither is empty |
| `CString.SScanPair` | AMSServer/src/HttpData.cpp:305-319 | the destination holds that value, and is untouched when nothing is assigned |
| `CString.StrNICmpEqual` | AMSServer/src/HttpData.cpp:117-122 | true exactly when the text starts with the prefix up to letter case |
| `Decimal.ReadPrint` | AMSServer/src/HttpServer.cpp:131 | reading a printed decimal numeral gives the number back |
| `Decimal.DigitCount` | AMSServer/src/HttpServer.cpp:130-131 | a numeral has at most k digits exactly when the number is below 10^k |
| `Decimal.DigitAt` | AMSServer/src/HttpServer.cpp:131 | the k-th digit from the end is 0123456789[n / 10^k % 10], and no numeral but 0 starts with 0 |
| `Decimal.WrapsAround` | AMSServer/src/MySqlHttpData.cpp:306 | the 32-bit number assigned is the one in range with the same low 32 bits |
| `Decimal.FitsEight` | AMSServer/src/MySqlHttpData.cpp:310-312 | conversion into eight bytes succeeds exactly from -999999 to 9999999 |
| `Query.ScanReadsItem` | AMSServer/src/HttpData.cpp:305-319 | scanning at a key gives the text between the key and the next '&' or the end, and assigns nothing exactly when that is empty |
| `Query.FirstComplaint` | AMSServer/src/HttpData.cpp:183-302 | the first check a record fails, all earlier ones being passed |
| `Query.FirstFailureDecides` | AMSServer/src/HttpData.cpp:183-302 | a query is refused with a code exactly when it fails that check and none before, holding then the earlier fields within bounds and no later one; accepted exactly when it fails none, holding all five |
| `Query.StoredBounded` | AMSServer/src/HttpData.cpp:193-290 | whatever check stops the parse, the stored fields fit their buffers |
| `Query.ParseIsConsistent` | AMSServer/src/HttpData.cpp:115-180 | after parsing any text the error flag is set exactly when an error code is, and a state query has a device field |
| `Query.ErrorNamed` | AMSServer/src/HttpData.cpp:11-27 | every code but the terminal one has a short name in the table; the terminal one has none |
| `Query.ErrorsDistinct` | AMSServer/src/HttpData.cpp:11-27 | a client can tell every error code from the reply |
| `Query.BuilderTotal` | AMSServer/src/HttpData.cpp:322-413 | on such states the builder fails only for the unset flag: no NULL table entry and no stray exit is reached |
| `Query.Unanswered` | AMSServer/src/HttpData.cpp:96-180 | a text goes unanswered exactly when it starts with Activate= or is a Query= whose value is 1 |
| `Query.AnswerShort` | AMSServer/src/HttpData.cpp:322-413 | every answer to every text is shorter than 64 bytes |
| `QueryRoundTrip.OccursOnOneSide` | AMSServer/src/HttpData.cpp:309 | a key without '&' never occurs across a separator |
| `QueryRoundTrip.OccursInItem` | AMSServer/src/HttpData.cpp:309 | inside one item a key occurs only just before the first '=', and there exactly when the item's name ends with the key's, or inside the value |
| `QueryRoundTrip.OccursInOne` | AMSServer/src/HttpData.cpp:309 | when the value has no '=', only just before the item's '=' |
| `QueryRoundTrip.SearchIsLookup` | AMSServer/src/HttpData.cpp:305-319 | on any printed list of items without '&', names being what stands before the first '=', the search reads the first item that holds the key, at the end of its name or in its value |
| `QueryRoundTrip.SearchLands` | AMSServer/src/HttpData.cpp:309 | and stops at the place of the key in that item |
| `QueryRoundTrip.ExactItemRead` | AMSServer/src/HttpData.cpp:305-319 | the search stops at the start of an item of exactly the searched name if and only if no earlier item holds the key, and then its value is read; otherwise the first one that does is read |
| `QueryRoundTrip.PlainItemRead` | AMSServer/src/HttpData.cpp:305-319 | when no value has an '=', if and only if no earlier item's name ends with the searched name |
| `QueryRoundTrip.MeantItemRead` | AMSServer/src/HttpData.cpp:305-319 | in every text, an item that starts with the key is the one read if and only if the key stands nowhere before it |
| `QueryRoundTrip.NamesApart` | AMSServer/src/HttpData.cpp:190-276 | no field name ends with another field's name |
| `QueryRoundTrip.PrefixedFieldRead` | AMSServer/src/HttpData.cpp:305-319 | for every field, an item named with any prefix before the field's name and put first replaces its value |
| `QueryRoundTrip.OtherProjectRead` | AMSServer/src/HttpData.cpp:305-319 | a request that names project 2 and is read as naming project 1 |
| `QueryRoundTrip.QuotedFieldRead` | AMSServer/src/HttpData.cpp:305-319 | for every field, an earlier item with that field's key in its value replaces the field's value |
| `QueryRoundTrip.NotedProjectRead` | AMSServer/src/HttpData.cpp:305-319 | a request with a note about project 1 that names project 2 and is read as naming project 1 |
| `QueryRoundTrip.FieldReadBack` | AMSServer/src/HttpData.cpp:190-290 | each field printed is read back, wherever it was put, unless a value misleads the search; a field left out reads as empty |
| `QueryRoundTrip.OrdersReadBack` | AMSServer/src/HttpData.cpp:190-319 | a record is read back in every order of its fields if and only if no value has another field's key in it with anything but that field's value after it |
| `QueryRoundTrip.ParseUndoesPrint` | AMSServer/src/HttpData.cpp:115-319 | for every such record within the limits, in particular every one without '=' in its values, and every order of its fields, parsing the printed request leaves exactly those fields, asking for the sum exactly when all three device fields are empty |
| `QueryRoundTrip.RequestFits` | AMSServer/src/HttpServer.cpp:77-78 | such a request has no NUL and, with at most five fields, fits the 256-byte request buffer |
| `Replies.QuerySpelled` | AMSServer/src/HttpData.cpp:117-122 | a text is a query exactly when its first six characters spell query= in any mixture of cases |
| `Replies.ActivateSpelled` | AMSServer/src/HttpData.cpp:124-129 | and an activation when the first nine spell activate= so |
| `Replies.TypeReplies` | AMSServer/src/HttpData.cpp:143-175 | the reply to every text with a Query= head: QueryLenIsWrong unless its value is one character, QueryNumberUndefine unless that is 0 or 1, none for 1, and for 0 the outcome of the record sent |
| `Replies.OtherReplies` | AMSServer/src/HttpData.cpp:115-135 | none for an activation, NoField for every other text |
| `Replies.RecordByLengths` | AMSServer/src/HttpData.cpp:183-302 | flag, error and stored fields for five values of any lengths, by the limits 8, 8, 32, 32 and 12 in the order of the checks |
| `Replies.RecordAccepted` | AMSServer/src/HttpData.cpp:183-302 | a record is accepted if and only if project and vendor have 1 to 8 characters, the device names up to 32, and the address 0 or 12 |
| `Replies.RecordRefused` | AMSServer/src/HttpData.cpp:183-302 | each of the seven codes if and only if its fault is there and none of those checked before |
| `Replies.AuthAccepted` | AMSServer/src/HttpData.cpp:183-302 | the same for every text with a Query=0 head and the values of its five items |
| `Replies.AuthReplies` | AMSServer/src/HttpData.cpp:96-106 | the reply to every such text by those values alone: the first fault's name, the first identifier's answer, or the sum |
| `Replies.ActivateReplies` | AMSServer/src/HttpData.cpp:337-413 | the payloads of the flags that no parse sets |
| `HttpRequest.HttpData.constructor` | AMSServer/src/HttpData.cpp:29-56 | fresh cleared buffers of the declared sizes, the request text copied, no flag set |
| `HttpRequest.HttpData.ParseItem` | AMSServer/src/HttpData.cpp:305-319 | empty when the key is absent, the item's value when it has one, and otherwise unchanged |
| `HttpRequest.HttpData.StoreItem` | AMSServer/src/HttpData.cpp:190-203 | a field is stored exactly when its value fits, and otherwise left alone |
| `HttpRequest.HttpData.ParseQueryAuth` | AMSServer/src/HttpData.cpp:183-302 | flags and fields become the first-failure outcome of the five items sent, which is Replies.RecordByLengths in lengths |
| `HttpRequest.HttpData.ParseByType` | AMSServer/src/HttpData.cpp:149-174 | the value of the leading item selects between an authentication, an empty parse and two errors |
| `HttpRequest.HttpData.ParseQuery` | AMSServer/src/HttpData.cpp:143-175 | the outcome of a Query= text by the value of its first item |
| `HttpRequest.HttpData.ParseRecvBuf` | AMSServer/src/HttpData.cpp:115-135 | flags and fields become what the text means |
| `HttpRequest.HttpData.BuildErrorPayLoad` | AMSServer/src/HttpData.cpp:322-334 | the label and name of the error, or failure exactly for the terminal code |
| `HttpRequest.HttpData.BuildQueryAuthStatePayLoad` | AMSServer/src/HttpData.cpp:493-530 | the first identifier present decides the answer; failure exactly when there is none |
| `HttpRequest.HttpData.BuildQueryActivateStatePayLoad` | AMSServer/src/HttpData.cpp:424-458 | every identifier present adds its answer |
| `HttpRequest.HttpData.BuildPayLoad` | AMSServer/src/HttpData.cpp:337-413 | the payload the flags and fields call for, or failure and an empty payload |
| `HttpRequest.HttpData.HandleHttpData` | AMSServer/src/HttpData.cpp:96-106 | the payload is the answer to the request text; failure exactly when it has none |
| `HttpFrame.QueryFound` | AMSServer/src/HttpServer.cpp:71-78 | in GET path?q with no '?' in the path, the query extracted is q |
| `HttpFrame.NoQueryFound` | AMSServer/src/HttpServer.cpp:77-78 | no query is found exactly when the message has no '?', starts with one, or has only white space after the first |
| `HttpFrame.SpacesAre` | AMSServer/src/HttpServer.cpp:77-78 | white space is the six characters of the C locale |
| `HttpFrame.QueryInTarget` | AMSServer/src/HttpServer.cpp:77-78 | for every message starting with GET and a space, the query is the request target's exactly when the target has a '?' before its last character, and is then what follows the first; otherwise it stands beyond the target |
| `HttpFrame.QueryStandsThere` | AMSServer/src/HttpServer.cpp:77-78 | whatever query is found stands in the message at the place the scan reached |
| `HttpFrame.QueryBeyondTarget` | AMSServer/src/HttpServer.cpp:77-78 | a target without '?' is answered for a header's text, one that ends with '?' for the protocol version |
| `HttpFrame.FrameFits` | AMSServer/src/HttpServer.cpp:114-135 | the frame of any payload of up to 1023 bytes stays below 1500 bytes, and its length field below 32 |
| `HttpFrame.HeaderEnd` | AMSServer/src/HttpServer.cpp:116-133 | the empty line after the header lines is the first CRLFCRLF of the message |
| `HttpFrame.LengthRead` | AMSServer/src/HttpServer.cpp:130-132 | the Content-Length field is found in the header and reads as the length written |
| `HttpFrame.BodyOfFrame` | AMSServer/src/HttpServer.cpp:114-144 | a client that splits at the first empty line and takes Content-Length bytes gets exactly the payload, whatever follows it |
| `HttpFrame.FrameText` | AMSServer/src/HttpServer.cpp:114-135 | the frame of every payload, written out |
| `HttpFrame.ReplyRead` | AMSServer/src/HttpServer.cpp:114-144 | a client with its own texts, which demands the status line HTTP/1.1 200 OK and the type field text/html and takes as many bytes as the digits of Content-Length say, gets exactly the payload of every frame, whatever follows |
| `HttpServing.PerIOData.constructor` | AMSServer/src/PerIOData.cpp:8-17 | a cleared buffer of 1500 bytes, nothing posted |
| `HttpServing.PerIOData.ResetIOBuf` | AMSServer/src/PerIOData.cpp:30-35 | the whole buffer is NUL again |
| `HttpServing.LocateQuery` | AMSServer/src/HttpServer.cpp:77-78 | the scan loops find the query the format assigns, or nothing |
| `HttpServing.CheckRecvBufEnd` | AMSServer/src/HttpServer.cpp:31-50 | true exactly when the message ends with CRLFCRLF |
| `HttpServing.OutcomeByText` | AMSServer/src/HttpServer.cpp:52-105 | for every message of at least four bytes: incomplete exactly when the last four are not CRLFCRLF, rejected exactly when they are and GET stands nowhere, otherwise by the answer to its query and WSASend's verdict |
| `HttpServing.HttpServer.HandleRecv` | AMSServer/src/HttpServer.cpp:52-105 | the outcome and the bytes sent follow from the message alone and WSASend's verdict; the objects move along the script of that outcome, a run of the life-cycle protocol |
| `HttpServing.HttpServer.BuildSend` | AMSServer/src/HttpServer.cpp:114-144 | the buffer holds the framed answer, all bytes after it NUL; failure exactly when there is no answer |
| `HttpServing.HttpServer.AppendPayload` | AMSServer/src/HttpServer.cpp:128-135 | the same for any payload text the payload buffer can hold; no append exceeds its buffer |
| `HttpServing.HttpServer.GetNewIOData` | AMSServer/src/SocketHandle.cpp:24-28 | a new cleared object joins the allocated ones, held by the caller |
| `HttpServing.HttpServer.RemoveIOData` | AMSServer/src/SocketHandle.cpp:36-50 | the caller's object joins the deleted ones and every other set stays; while ownership holds, it was in none of the sets of posted, deleted and dropped before, afterwards no worker holds it, and ownership still holds |
| `HttpServing.HttpServer.TakeRequest` | AMSServer/src/HttpServer.cpp:77-85 | a new HttpData for the query found in the message, and the message's buffer cleared for the reply |
| `HttpServing.HttpServer.SendBuilt` | AMSServer/src/HttpServer.cpp:163-193 | the HttpData is deleted whether or not a reply was built; the whole buffer goes out exactly when one was built and WSASend takes it |
| `HttpServing.HttpServer.PostSend` | AMSServer/src/HttpServer.cpp:147-194 | the framed answer goes out exactly when there is one and WSASend takes it; the HttpData is deleted in every case, the buffer exactly after a send |
| `HttpServing.HttpServer.DoRecv` | AMSServer/src/HttpServer.cpp:52-105 | all that, and by the text itself: an incomplete message leaves its buffer and a new one posted, a complete one without GET is dropped, renews nothing and returns false, and any other leaves a new buffer posted |
| `IoLifecycle.BuffersStay` | AMSServer/src/HttpServer.cpp:52-105 | every step of every worker keeps each buffer in exactly one place and with at most one holder |
| `IoLifecycle.DataStays` | AMSServer/src/HttpServer.cpp:82-173 | every step keeps each HttpData deleted or carried by the one worker that will delete it |
| `IoLifecycle.BalanceStays` | AMSServer/src/HttpServer.cpp:92-104 | every step keeps the balance of posted receives, busy workers, incomplete and rejected messages |
| `IoLifecycle.OwnedAlways` | AMSServer/src/HttpServer.cpp:52-194 | the three invariants hold after every interleaved run |
| `IoLifecycle.QuiescentAccount` | AMSServer/src/HttpServer.cpp:52-194 | with no worker busy, the buffers are the disjoint union of posted, deleted and dropped, every HttpData is deleted, and posted receives are the initial ones plus incomplete minus rejected messages |
| `IoLifecycle.DeletedOnce` | AMSServer/src/SocketHandle.cpp:36-50 | in every reachable state, what a step deletes was not deleted before and is not posted, and what it posts was never deleted |
| `IoLifecycle.RemovedOnce` | AMSServer/src/SocketHandle.cpp:36-50 | a buffer about to be removed is posted, deleted and dropped nowhere, and afterwards is one more deleted buffer that no worker holds |
| `IoLifecycle.EveryObjectOnce` | AMSServer/src/HttpServer.cpp:52-194 | over every run each deletion deletes a different buffer, each failure or rejection leaves a different one behind, and each creation makes a new HttpData |
| `IoLifecycle.CallEffect` | AMSServer/src/HttpServer.cpp:52-105 | what one whole call does to every set of objects, by outcome |
| `IoLifecycle.CallsEnd` | AMSServer/src/HttpServer.cpp:52-105 | in every interleaving of any number of workers, each completed receive costs at most seven steps |
| `IoLifecycle.WorkerIdles` | AMSServer/src/HttpServer.cpp:52-105 | as long as a buffer object can be allocated, a busy worker can go on alone until it is idle, whatever the others hold |
| `IoLifecycle.AllIdle` | AMSServer/src/HttpServer.cpp:52-105 | from every state, with an unallocated buffer object per busy worker, some run leaves no worker busy |
| `EndToEnd.QueryDecides` | AMSServer/src/HttpServer.cpp:61-144 | for every complete message GET path?q with no '?' in the path and a q without white space, the reply is the framed answer to q, and the client reads that answer out of the 1500 bytes sent |
| `EndToEnd.RecordAnswered` | AMSServer/src/HttpServer.cpp:61-144 | a client that prints a record in any field order and reads the reply learns the answer the record deserves |
| `EndToEnd.RecordCounted` | AMSServer/src/MySqlHttpData.cpp:43-60 | with a faultless database that knows the names, that client gets the row count its record stands for, or the state of its chip or network address when it sends only those; nothing exactly for an STBID without rows |
| `EndToEnd.QuoteAccepted` | AMSServer/src/MySqlHttpData.cpp:322-332 | a record the parser accepts and whose device query does not name its STBID |
| `EndToEnd.VendorAccepted` | AMSServer/src/MySqlHttpData.cpp:322-332 | a record with a harmless STBID that the parser accepts and whose vendor makes the database read another text as the literal, in a table query that reads as an ordinary vendor's |
| `Wire.Serve` | AMSServer/src/HttpServer.cpp:52-105 | a receive that completes in a posted buffer and its DoRecv put on the wire what that exchange emits, and leave the worker idle after a run of the life-cycle protocol |
| `Wire.ServeAll` | AMSServer/src/IOCPServer.cpp:371-386 | any list of messages handled one after the other puts on the wire exactly the buffers of that history, by a run of the protocol |
| `Wire.AnswersRecovered` | AMSServer/src/HttpServer.cpp:114-193 | for every history of exchanges, cutting the stream of all bytes sent into 1500-byte records recovers every answer in order |
| `Wire.GapAfterBody` | AMSServer/src/HttpServer.cpp:114-193 | after the first body read by Content-Length at least 400 NUL bytes follow, and no status line, whatever is sent next |
| `Wire.StreamHasGap` | AMSServer/src/HttpServer.cpp:114-193 | so it is in the stream of every history with a reply |
| `Database.NamesFit` | AMSServer/src/MySqlHttpData.cpp:186-195 | the names fit 32 bytes, their quoted forms 35 and all queries 256, for all fields a parse can leave |
| `SqlLiteral.LiteralExact` | AMSServer/src/MySqlHttpData.cpp:329-331 | a text put between double quotes reads back as itself, with nothing left over, if and only if it has no double quote and no backslash except before % or _ |
| `SqlLiteral.EarlierQuoteDiffers` | AMSServer/src/MySqlHttpData.cpp:324-332 | no literal that starts before a quoted text reads as that text, whatever the two are |
| `SqlLiteral.OnlyLiteralExact` | AMSServer/src/MySqlHttpData.cpp:324-332 | a query of fixed code, an identifier, fixed code and a quoted text holds that text as its only literal if and only if the identifier opens nothing and the text is safe |
| `Database.DeviceNamedExactly` | AMSServer/src/MySqlHttpData.cpp:322-332 | the device query, read from its start, is code and one literal at its end that reads as the STBID, if and only if the STBID has no double quote and no backslash except before % or _, and the vendor opens no quote and no comment |
| `Database.SumIsCode` | AMSServer/src/MySqlHttpData.cpp:284-289 | the sum query holds no literal and no comment if and only if the vendor opens none |
| `Database.VendorQuote` | AMSServer/src/MySqlHttpData.cpp:240-332 | for every vendor with a quote in it, between plain texts, what the database reads from that quote on in the device query and in the table query |
| `Database.SchemaNamedExactly` | AMSServer/src/MySqlHttpData.cpp:186-195 | the literal of the schema query reads as the database name exactly when the project is safe in that sense |
| `Database.TableNamedExactly` | AMSServer/src/MySqlHttpData.cpp:240-249 | the same for the table name in the table query and the vendor |
| `Database.ConnectedConsistent` | AMSServer/src/MySqlHttpData.cpp:178-281 | whatever the database answers, the flags stay consistent and the fields unchanged |
| `Database.CountReadBack` | AMSServer/src/MySqlHttpData.cpp:306-317 | for every non-negative count a payload is made exactly up to 9999999, and its digits read back as the count |
| `Database.CountExact` | AMSServer/src/MySqlHttpData.cpp:306-317 | for every row count, a payload is made exactly when the count wrapped to 32 bits fits |
| `Database.CountTrue` | AMSServer/src/MySqlHttpData.cpp:306-317 | the payload shows the true count exactly up to 9999999 rows |
| `Database.CountWrong` | AMSServer/src/MySqlHttpData.cpp:306-317 | a wrong number is shown exactly for counts from 2^31 on that wrap to between -999999 and 9999999 |
| `Database.WrappedCount` | AMSServer/src/MySqlHttpData.cpp:306-317 | 2^32 rows are shown as 0 |
| `Database.DeviceTrue` | AMSServer/src/MySqlHttpData.cpp:349-366 | for one device, the true count is shown exactly from 1 to 9999999 rows |
| `Database.DeviceWrong` | AMSServer/src/MySqlHttpData.cpp:349-366 | and a wrong one exactly for counts from 2^31 on that wrap to between 1 and 9999999 |
| `Database.QueryTexts` | AMSServer/src/MySqlHttpData.cpp:186-332 | the four queries and the database name, written out |
| `Database.AnswerByReplies` | AMSServer/src/MySqlHttpData.cpp:43-60 | for every database and text: no reply when it cannot be reached, when the schema query gives no rows to count, or when the schema is there and cannot be selected or its table query gives none; ProjectIDIsWrong exactly when the schema, VendorIDIsWrong exactly when in it the table is counted as none |
| `Database.PayloadByReplies` | AMSServer/src/MySqlHttpData.cpp:284-369 | for every reply to the counting queries, the payload or none, by the count wrapped to 32 bits |
| `Database.FaultlessUnanswered` | AMSServer/src/MySqlHttpData.cpp:43-60 | with a faultless database, exactly which requests stay unanswered |
| `Database.OwnErrorLearned` | AMSServer/src/MySqlHttpData.cpp:43-60 | a refused request is answered by its own error if and only if the database can be asked and recognises the names; without failures, if and only if it knows them |
| `Database.UnknownNameAnswered` | AMSServer/src/MySqlHttpData.cpp:178-281 | with a faultless database, an unknown schema gives ProjectIDIsWrong and otherwise an unknown table VendorIDIsWrong, for every text; known names change nothing |
| `Database.ErrorReplaced` | AMSServer/src/MySqlHttpData.cpp:178-281 | a text the plain class refuses as NoField and a server on which it is told ProjectIDIsWrong |
| `MySqlRequest.MySqlHttpData.constructor` | AMSServer/src/MySqlHttpData.cpp:16-26 | a new HttpData and two cleared name buffers |
| `MySqlRequest.MySqlHttpData.AskSchema` | AMSServer/src/MySqlHttpData.cpp:186-230 | the database name is built in its buffer and exactly the schema query is sent |
| `MySqlRequest.MySqlHttpData.AskTable` | AMSServer/src/MySqlHttpData.cpp:240-264 | the table name is built in its buffer and exactly the table query is sent |
| `MySqlRequest.MySqlHttpData.ConnectDatabase` | AMSServer/src/MySqlHttpData.cpp:178-281 | flags and result follow from the database's answers; the names are built whenever no error is flagged |
| `MySqlRequest.MySqlHttpData.AppendCount` | AMSServer/src/MySqlHttpData.cpp:309-317 | label and count, or failure exactly when the numeral does not fit |
| `MySqlRequest.MySqlHttpData.BuildQueryAuthSumPayLoad` | AMSServer/src/MySqlHttpData.cpp:284-320 | the count of the vendor's table |
| `MySqlRequest.MySqlHttpData.MakeDeviceQuery` | AMSServer/src/MySqlHttpData.cpp:324-332 | the query for one STBID, piece by piece within its buffers |
| `MySqlRequest.MySqlHttpData.BuildQueryAuthPayLoadByStbId` | AMSServer/src/MySqlHttpData.cpp:322-369 | the count the database replies to the device query, or failure when it is none; for which STBIDs the query names exactly the one sent is `Database.DeviceNamedExactly` |
| `MySqlRequest.MySqlHttpData.BuildPayLoad` | AMSServer/src/HttpData.cpp:337-413 | the inherited dispatch with the overriding builders: the payload the flags, fields and database call for |
| `MySqlRequest.MySqlHttpData.HandleHttpData` | AMSServer/src/MySqlHttpData.cpp:43-60 | for every database and every text, the payload the two decide together |
| `QueryTable.PrintCell` | AMSServer/src/MySqlHttpData.cpp:122-127 | the padding loop ends with the length counted up to the column width |
| `QueryTable.MeasureColumns` | AMSServer/src/MySqlHttpData.cpp:79-85 | the column widths, in unsigned chars |
| `QueryTable.PrintBorder` | AMSServer/src/MySqlHttpData.cpp:141-150 | the nested loops print the border of the columns |
| `QueryTable.PrintRow` | AMSServer/src/MySqlHttpData.cpp:152-161 | the loops print the padded row and count every length up |
| `QueryTable.ShowQueryDetails` | AMSServer/src/MySqlHttpData.cpp:62-176 | the text printed: names and every row each under a border, a border at the end |
| `TableText.TableRead` | AMSServer/src/MySqlHttpData.cpp:62-176 | the output cut at its newlines: an empty line, the names and every row each under a border, a border, two empty ends; every border and row holds, at the places its column widths give, '+' and dashes or a bar, a blank, the cell and blanks |
| `TableText.NoTable` | AMSServer/src/MySqlHttpData.cpp:64-76 | nothing is printed at level 0, an empty line without rows |
| `TableText.SmallTable` | AMSServer/src/MySqlHttpData.cpp:62-176 | a table of one column and one row, written out |
| `QueryTable.BorderLayout` | AMSServer/src/MySqlHttpData.cpp:87-96 | every border has width 1 + sum(columnlen + 3) and a '+' where each column starts |
| `QueryTable.RowLayout` | AMSServer/src/MySqlHttpData.cpp:152-161 | every row has width 1 + sum(max(cell, columnlen) + 3) and a bar where each of its columns starts |
| `QueryTable.RowAligned` | AMSServer/src/MySqlHttpData.cpp:137-162 | a row is as wide as the border, with its separators under the border's, exactly when no cell exceeds its column |
| `QueryTable.HeadAligned` | AMSServer/src/MySqlHttpData.cpp:79-129 | names and first row fit their columns exactly when none of them is longer than 255 |
| `LogFile.FaithfulAlways` | AMSServer/src/FileLog.cpp:102-120 | in every interleaving the file is the settled messages and the owner's part, only the mutex owner is inside, and each thread's logged and remaining messages make up its program |
| `LogFile.LogNotTorn` | AMSServer/src/FileLog.cpp:102-120 | the file is its old content, whole messages in the order the mutex was taken (cut only where a write itself failed), and a prefix of the owner's |
| `LogFile.LogIsMessages` | AMSServer/src/FileLog.cpp:102-120 | when writes succeed, the messages end to end and that prefix |
| `LogFile.LogComplete` | AMSServer/src/FileLog.cpp:102-120 | when all threads are done, each one's messages are all in the log, once and in its order |
| `LogFile.LogFinishes` | AMSServer/src/FileLog.cpp:102-120 | no interleaving has more steps than its messages account for, some thread can step exactly while a message is left, and from every state reached some run logs everything |
| `LogFile.CallRuns` | AMSServer/src/FileLog.cpp:102-120 | with the mutex free a call can run to its end, and then has appended exactly its message, or the part written before a failure, noted which in the log and freed the mutex |
| `LogFile.FileLog.WirteLogFile` | AMSServer/src/FileLog.cpp:102-120 | one call appends its message, or the part written before a failure, and its steps are a run of the protocol, failing write included |
| `Bignum.TrimKeepsValue` | AMSServer/include/openssl/bn.h:796-807 | dropping zero top words keeps the number |
| `Bignum.ValueIsSum` | AMSServer/include/openssl/bn.h:318-326 | the number is the sum of d[i] * 2^(width*i) |
| `Bignum.TrimmedSize` | AMSServer/include/openssl/bn.h:767-775 | without a zero top word the number is zero only with no words, and at least the base with two or more |
| `Bignum.TrimmedUnique` | AMSServer/include/openssl/bn.h:767-775 | such a number has only one representation |
| `Bignum.Bignum.CorrectTop` | AMSServer/include/openssl/bn.h:796-807 | the loop ends with no zero top word, the same number and no word changed |
| `Bignum.Bignum.AbsIsWordDecides` | AMSServer/include/openssl/bn.h:405-406 | on checked numbers of any length the one-word test decides the magnitude |
| `Bignum.Bignum.ZeroOneWordDecide` | AMSServer/include/openssl/bn.h:407-409 | the zero, one and word tests decide the signed number |
| `Bignum.Bignum.OddDecides` | AMSServer/include/openssl/bn.h:410 | the low bit of the low word decides parity, checked or not |
| `Bignum.Bignum.TestsWithoutTrimming` | AMSServer/include/openssl/bn.h:404-407 | exactly when the tests still decide an unchecked number |
| `Bits.OrDisjoint` | AMSServer/include/mysql/my_global.h:1406-1410 | or-ing fields that do not overlap adds them |
| `Bits.BitByBit` | AMSServer/include/mysql/my_global.h:1406-1410 | bit i of a conjunction is set exactly when it is in both numbers, of a disjunction when it is in one |
| `Bits.AndHigh` | AMSServer/include/mysql/my_global.h:938 | and-ing with all but the k low bits rounds down to a multiple of 2^k |
| `Bits.AlignIsLeastMultiple` | AMSServer/include/mysql/my_global.h:938 | the result is the least multiple of L not below A exactly for A at most 2^w - L, where the sum does not wrap |
| `Bits.AlignIdempotentMonotone` | AMSServer/include/mysql/my_global.h:938 | there, aligning is idempotent and monotone |
| `ByteCodec.LoadStore` | AMSServer/include/mysql/my_global.h:1224-1240 | loading n stored bytes gives the number modulo 2^(8n), for every n |
| `ByteCodec.StoreLoad` | AMSServer/include/mysql/my_global.h:1196-1223 | storing a loaded number gives the bytes back |
| `ByteCodec.ByteValue` | AMSServer/include/mysql/my_global.h:1310-1338 | byte k of every store is x / 256^k modulo 256 |
| `ByteCodec.LoadValue` | AMSServer/include/mysql/my_global.h:1210 | a load of four bytes is their sum, the first worth one, the last 2^24 |
| `ByteCodec.NetValue` | AMSServer/include/mysql/my_global.h:1406-1410 | int4net is the signed number whose first byte is worth most |
| `ByteCodec.Int2Store` | AMSServer/include/mysql/my_global.h:1310-1313 | the two low bytes in place, the rest of the buffer untouched |
| `ByteCodec.Int3Store` | AMSServer/include/mysql/my_global.h:1314-1318 | the three low bytes in place, the rest untouched |
| `ByteCodec.Int4Store` | AMSServer/include/mysql/my_global.h:1319-1322 | the four low bytes in place, the rest untouched |
| `ByteCodec.Int5Store` | AMSServer/include/mysql/my_global.h:1323-1328 | the five low bytes in place, the rest untouched |
| `ByteCodec.Int6Store` | AMSServer/include/mysql/my_global.h:1329-1335 | the six low bytes in place, the rest untouched |
| `ByteCodec.Int8Store` | AMSServer/include/mysql/my_global.h:1336-1338 | the eight low bytes in place by two four-byte stores, the rest untouched |
| `ByteCodec.StoresAgree` | AMSServer/include/mysql/my_global.h:1224-1240 | the x86 stores write the same bytes |
| `ByteCodec.StoredReadsBack` | AMSServer/include/mysql/my_global.h:1281-1309 | every uintNkorr after intNstore gives the number modulo 2^(8N), in both forms |
| `ByteCodec.Uint3Reads` | AMSServer/include/mysql/my_global.h:1197-1208 | the three-byte load reads its bytes, and the x86 form that reads four and masks one agrees |
| `ByteCodec.Sint3ReadsBack` | AMSServer/include/mysql/my_global.h:1187-1194 | sint3korr undoes int3store exactly from -2^23 to 2^23 - 1 |
| `ByteCodec.Int4NetReads` | AMSServer/include/mysql/my_global.h:1406-1410 | int4net reads the four bytes in reverse order |
| `Rint.Rint` | AMSServer/include/mysql/my_global.h:1569-1586 | the branches on the fractional part compute the rounding function |
| `Rint.RoundedNearest` | AMSServer/include/mysql/my_global.h:1569-1586 | for every x the result is within one half of it |
| `Rint.RoundedWithin` | AMSServer/include/mysql/my_global.h:1569-1586 | on the exact range that is round-half-to-even, and nothing else is |
| `Rint.RoundedHalfToEven` | AMSServer/include/mysql/my_global.h:1569-1586 | beyond it, exactly the ties next to odd integers are not rounded to even |
| `Rint.RoundedTies` | AMSServer/include/mysql/my_global.h:1569-1586 | ties on both sides of zero and around 2^53, in numbers |
| `Rint.RoundedMonotone` | AMSServer/include/mysql/my_global.h:1569-1586 | rounding is monotone |
| `Rint.RoundedOdd` | AMSServer/include/mysql/my_global.h:1569-1586 | rounding is odd |

## Left out

- HttpServing.HttpServer.DoRecv: requires a received buffer with a NUL, at least four bytes of text and a query below 256 bytes, because the source gives the scan no destination size and reads four bytes back from the end without a check; longer queries have no defined behaviour there.
- HttpServing.CheckRecvBufEnd: requires at least four bytes of text, because for fewer the source reads bytes before the buffer, whose values nothing defines.
- LogFile.FileLog.WirteLogFile: is called with the mutex free; waiting for it is a state of the protocol in which the Acquire step is not enabled.
- Database.DeviceNamedExactly: takes the default mode of MySQL; modes that change the meaning of quotes or backslashes are not modelled, nor what other characters of a vendor mean in the code of a statement.
- LogFile.LogNotTorn: assumes that no other process writes the log file, although it is opened with FILE_SHARE_WRITE (AMSServer/src/FileLog.cpp:90).
- Wire.ServeAll: takes the bytes as they are when WSASend is called, although the buffer is deleted right after an overlapped send (AMSServer/src/HttpServer.cpp:178-191); the same holds for EndToEnd. The messages come one at a time; interleaved workers are the subject of IoLifecycle.
- HttpRequest.HttpData.constructor: requires a request text below 1024 bytes, because a longer one makes strncpy_s call the invalid-parameter handler.
- HttpRequest.HttpData.ParseQueryAuth: starts from an object as the constructor leaves it, because the source makes a new object for every request.
- MySqlRequest.MySqlHttpData.ConnectDatabase: starts from empty name buffers, because a second call on the same object would append to them; the source never makes one.
- IoLifecycle.OwnedAlways: says nothing about the kernel's use of a buffer after WSASend accepted it; a completed receive is an arbitrary step.
- QueryTable.ShowQueryDetails: requires at most 20 columns, the size of the arrays in the source, and cells that are text; NULL cells are not modelled.
- The deletion of memory: deleted objects are members of a set, so a use after deletion shows as a broken invariant, not as a fault.
- Inheritance: MySqlHttpData holds its HttpData as a field, and its two overriding builders are chosen in its own BuildPayLoad; the server itself only makes HttpData objects.
- PostRecv's call of WSARecv, its buffer address and its failure; AcceptEx, completion ports and worker threads.
- The hooks DeriveCheckRecv and DeriveBuildSend, which return TRUE in this class, and ResetOverLapped.
- ParseActivate and ParseQueryActivate are empty in the source; only their leaving the flags unset is modelled.
- Debug-build behaviour of strcat_s, which fills the rest of the size it is told.
- MySQL client calls beyond their outcomes; the tables' contents are arbitrary.
- Single-instance bookkeeping of FileLog and HeapProtectMutex, opening the log file, and the MFC windows.
- Floating-point rounding of doubles: rint is modelled over exact reals.
- The sint2korr, sint4korr and sint8korr macros, the floating-point macros, and all other vendored headers.
- The tests for NULL handles, buffers and objects: references in the model are never null.
- The AMS_DBUG log lines along the request path.
