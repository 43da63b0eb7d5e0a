# QuickBase client core, modelled in Dafny

This project models the logic of `quickbase.go`, a thin Go client for the QuickBase
HTTP/XML API. HTTP and the XML libraries are replaced by abstract inputs. What is left
is deterministic, and the project models it and proves properties of it:

- **Streaming DoQuery** (`DoQueryChan`). The response is a finite sequence of XML tokens.
  - The outer loop insists on a `qdbapi` envelope.
  - The envelope loop tracks `errcode`/`errtext`.
  - The record loop fills one shared record map and emits a snapshot of it at every `</record>`.
  - The outcome is an error, the panic at the end of the function, or the emitted records plus whether the channel was closed.
  - The model is `StreamDecoder` (the three loops) and `StreamResponses`. `StreamResponses` renders well-formed responses as tokens and proves what the decoder makes of them.
- **Tree-based DoQuery and DoStructuredQuery** (`RecordTrees`).
  - DoQuery rebuilds field values from text fragments and `BR` elements, and rejects anything else.
  - DoStructuredQuery keys each value by field id, and the last write wins.
- **executeApiCall** (`ApiCall`). It turns the parameter map into a list of request elements, and classifies the response by `errcode`: success, `QuickBaseError`, or a number-parse error.
- **Per-operation requests** (`Params`). These cover the endpoint, the action name and the parameter map of:
  - EditRecord, AddRecord, DeleteRecord and ChangeRecordOwner;
  - DoQueryCount, DoQuery, DoStructuredQuery and DoQueryChan;
  - GenResultsTable and ImportFromCSV.

  `Params` also models the dot-joined column list (`clist`) and how the DoQueryCount and AddRecord replies are read.
- **Timestamps and GetAppDTMInfo** (`AppDtm`). This covers `selectNodeToTime`, the first un-namespaced `id` attribute, and the table loop, which stops at the first bad table and keeps the ones before it.
- **Go semantics** (`Strconv`, `Wrappers`). These model `strconv.ParseInt`, `Atoi` and `Itoa`, Go's truncating `/` and `%`, and reading a missing map key as `""`.

All `.dfy` files form one program with no entry point.

## Model

| member | source | states |
|---|---|---|
| StreamDecoder.Decode | quickbase.go:450-463 | The outer loop. A stream without start tags ends in the final panic. An "expected qdbapi" error names a start tag that occurs in the stream and is not `qdbapi`. |
| StreamDecoder.Envelope | quickbase.go:465-491 | The envelope loop never reports a missing envelope. An API error's message is the errtext seen before the loop was entered or the character data of one of its tokens. |
| StreamDecoder.Records | quickbase.go:493-526 | The record loop emits something only if a `</record>` token occurs. It closes the channel only if a token occurs that closes outside a record: a start tag other than `record`, or `</qdbapi>`. |
| StreamDecoder.FirstStartDecides | quickbase.go:450-461 | Tokens before the first start tag are skipped. A first start tag other than `qdbapi` fails with "qdbapi expected; X found", whatever follows. A `qdbapi` start hands the remaining tokens to the envelope loop with the flag cleared and the text empty. |
| StreamDecoder.NoRecordNoStream | quickbase.go:451-535 | A token stream with no `record` start tag never yields a stream: it ends in an error or in the final panic. |
| StreamDecoder.EnvelopeNeedsRecord | quickbase.go:465-535 | In the envelope loop, without a later `record` start tag there is no stream. |
| StreamDecoder.EnvelopeVerdict | quickbase.go:462-489 | For status tags followed by character data, the envelope loop fails exactly when a non-"0" errcode and an errtext have both been seen, in either order. The failure's message is the errtext. If it does not fail, the outcome is decided by what follows: the record loop from the `record` tag, or the panic. |
| StreamDecoder.EmptyErrTextOrderMatters | quickbase.go:465-488 | With an empty errtext, which only an empty CDATA section gives, the order matters. Errtext before a failing errcode streams and the error is lost. Errcode first fails with an empty message. |
| StreamDecoder.FirstClose | quickbase.go:498-515 | Finds the first token at which the record loop closes the channel. Nothing before it closes. |
| StreamDecoder.RecordsFrom | quickbase.go:498-526 | Until the channel closes, the record loop is a plain left fold. The emissions up to any non-closing point are exactly the snapshots taken at `</record>` tokens so far. |
| StreamDecoder.StreamedInOrder | quickbase.go:498-526 | The records emitted are the map snapshots at each `</record>` before the first closing token, in stream order. Nothing is emitted after closing. The channel is closed exactly when such a token exists. |
| StreamDecoder.ClosedIff | quickbase.go:500-515 | The channel is closed iff some token is a non-`record` start tag or a `qdbapi` end tag met outside a record. Otherwise running out of tokens leaves it open. |
| StreamDecoder.KeysPersist | quickbase.go:493-522 | The record map is never cleared. Every emitted record holds all keys of the earlier emissions and of the starting map. |
| StreamDecoder.LineBreakSplitsField | quickbase.go:500-524 | In the streaming path a `BR` inside a field is itself a field. `a<BR/>b` stores `BR := ""` and then `"" := "b"`. |
| StreamResponses.ApplyLastWins | quickbase.go:516-522 | Storing a record's fields adds exactly their names to the map. For each name the last occurrence wins. Other keys keep their earlier values. |
| StreamResponses.OneFieldStored | quickbase.go:500-524 | Within a record, `<f>text</f>` sets `f` to the text and resets the current field to "". |
| StreamResponses.FieldsStored | quickbase.go:498-524 | A record's fields are stored one after another, leaving the loop inside the record. |
| StreamResponses.RowsStreamed | quickbase.go:498-526 | The rows of a well-formed response, followed by `</qdbapi>`, stream as the cumulative snapshots, one per row, and then close. |
| StreamResponses.StatusPart | quickbase.go:465-488 | The status tags of a well-formed response carry an errtext. They signal failure iff the code is not "0". Their only errtext is the response's text. |
| StreamResponses.DecodeResponse | quickbase.go:450-535 | Round trip for well-formed responses. A code other than "0" fails with the errtext. Code "0" with no rows panics. Code "0" with rows streams the cumulative record snapshots and closes the channel. |
| StreamResponses.StaleFieldsCarryOver | quickbase.go:493-520 | A field set in one record and absent from later ones keeps its old value in every later emission. |
| StreamResponses.CumulativeStep | quickbase.go:493-518 | Each emission is the previous emission with the next row's fields applied. |
| RecordTrees.AppendValue | quickbase.go:384-397 | One field's value nodes are appended to its entry. An error names the field. On success only the field's key can be new, and every other key keeps its value. AppendValueReads characterises the result fully: accepted iff every node is text or `BR`, the appended text, or the first bad node's error. |
| RecordTrees.FieldsToMap | quickbase.go:376-398 | A record's fields are folded into the map. Keys are never dropped, and a key that labels no field keeps its value. FieldsToMapReads characterises the result against the reference reading. |
| RecordTrees.DoQueryRecords | quickbase.go:374-401 | On success there is one map per `record` element, in order, each built from that record's fields alone, starting from an empty map. DoQueryReads characterises success and the first error. |
| RecordTrees.AppendValueReads | quickbase.go:384-397 | One field's children are accepted iff each is text or a `BR` element. Otherwise the error is the one of the first offending child in document order: every child before it is text or `BR`. An accepted field with children appends the texts, with "\r" for each `BR`, to the value read so far. |
| RecordTrees.FieldsToMapReads | quickbase.go:375-399 | A record builds iff every field's children are allowed. A failure is the error of the first disallowed grandchild in document order: every earlier field, and every earlier child of its own field, is allowed. A built map has a key exactly for the labels of fields with children. Each value is the concatenation over all fields with that label. |
| RecordTrees.DoQueryReads | quickbase.go:374-401 | DoQuery succeeds iff every record's fields are allowed, with one map per record in order. One bad grandchild anywhere fails the whole call. The error is that of the first bad grandchild of the first record that has one, and every earlier record is well formed. |
| RecordTrees.MultiLineField | quickbase.go:384-391 | A field `a<BR/>b` reads as `a + "\r" + b`. |
| RecordTrees.StructuredRecord | quickbase.go:335-339 | The id-keyed map has exactly the ids of the record's children, every child counting, not only field elements. Each id holds the value of its last occurrence. |
| RecordTrees.DoStructuredQueryRecords | quickbase.go:334-341 | One id-keyed map per record, in order, each with the last value written for each id. |
| ApiCall.ParamList | quickbase.go:92-101 | The request carries one element per map key, with that key's value and no duplicates. Reading the elements back gives the map, whatever order the map iteration took. |
| ApiCall.CheckStatus | quickbase.go:127-134 | Only errcode exactly "0" is success. Otherwise a decimal code gives `QuickBaseError` with that code and the errtext as message, and any other code gives the `Atoi` error. |
| ApiCall.ExecuteApiCall | quickbase.go:122-137 | The reply yields the document iff it was parsed and its errcode is "0". Otherwise a transport failure or an unparsable body is returned as that error. A parsed reply with another errcode gives CheckStatus's error: `QuickBaseError(errtext, code)` for a decimal code, or the `Atoi` error. |
| ApiCall.StatusCodeRoundTrip | quickbase.go:129-133 | A non-zero 64-bit code written in decimal comes back as exactly that code, with the errtext as message. |
| ApiCall.ZeroPaddedCodeFails | quickbase.go:127-133 | "00" is not success. It is a `QuickBaseError` with code 0. |
| ApiCall.NonNumericCode | quickbase.go:129-131 | A code that, after an optional sign, meets a non-digit before its digits overflow gives the `Atoi` syntax error, not a `QuickBaseError`. This includes a code whose first character after the optional sign is a non-digit. |
| Params.Credentials | quickbase.go:275-278 | `ticket` is always sent. `apptoken` is sent iff it is non-empty. |
| Params.FieldParams | quickbase.go:280-282 | Each field label is sent as `_fnm_` + label with its value. Every such key reads back to its label. |
| Params.FieldKeysAreFresh | quickbase.go:275-282 | A field key can never be `ticket`, `apptoken`, `rid`, `newowner` or a query option. |
| Params.EditRecord | quickbase.go:274-285 | The keys are exactly the credentials, `rid` (the decimal record id) and the field keys. Each field keeps its value. |
| Params.AddRecord | quickbase.go:563-570 | The keys are exactly the credentials and the field keys. |
| Params.DeleteRecord | quickbase.go:584-589 | The keys are exactly the credentials and the decimal `rid`. |
| Params.ChangeRecordOwner | quickbase.go:597-603 | The keys are exactly the credentials, the decimal `rid` and `newowner`. |
| Params.DoQueryCount | quickbase.go:289-297 | `query` is sent iff it is non-empty, with nothing else beyond the credentials. |
| Params.DoQuery | quickbase.go:353-370 | Each of `query`, `clist`, `slist` and `options` is sent iff it is non-empty. `fmt` is never sent. |
| Params.DoStructuredQuery | quickbase.go:313-330 | Sends DoQuery's parameters plus `fmt=structured`, to the same action. |
| Params.DoQueryChan | quickbase.go:410-436 | Sends the request DoQuery sends without options. |
| Params.GenResultsTable | quickbase.go:542-557 | `clist` is the dot-joined columns, with `options=csv` and `slist=3`. `apptoken` is always present, even when empty. `query` is sent iff it is non-empty. The endpoint is `url + "/db/" + dbid`. |
| Params.ImportFromCSV | quickbase.go:703-713 | The keys are exactly the credentials, `clist`, `skipfirst=1` and `records_csv` holding the whole CSV text. |
| Params.ColumnList | quickbase.go:543-547 | The `clist` is empty iff there are no columns. Otherwise splitting it at dots gives each column's decimal spelling, in order. |
| Params.SplitDots | quickbase.go:547 | Splitting at dots loses nothing: joining the pieces with dots gives back the string. The pieces are dot-free when the piece being collected is. |
| Params.SplitJoin | quickbase.go:547 | Splitting a dot-join of dot-free pieces returns the pieces. |
| Params.ColumnListRoundTrip | quickbase.go:543-547 | Any list of 64-bit column ids, sent as a `clist`, parses back to the same list. |
| Params.QueryCount | quickbase.go:297-305 | The count is returned iff the call succeeded, `numMatches` is present and it parses as a 64-bit integer. |
| Params.NewRecordId | quickbase.go:571-578 | The new record id is returned iff the call succeeded, `rid` is present and it parses via `Atoi`. |
| Params.QueryCountRoundTrip | quickbase.go:301-305 | A successful reply with a decimal count yields that count. |
| Params.NewRecordIdRoundTrip | quickbase.go:574-578 | A successful reply with a decimal rid yields that rid. |
| Strconv.ParseIntNamed | quickbase.go:264 | A parsed value lies in the 64-bit range. An error names its function and input. The empty string is a syntax error. |
| Strconv.ParseItoa | quickbase.go:545 | The decimal form of any 64-bit integer parses back to it. |
| Strconv.ParseAcceptsDigits | quickbase.go:129 | An optional sign followed by digits parses to the signed value of the digits whenever that value fits in 64 bits, -2^63 included. |
| AppDtm.MillisToTimeAsWritten | quickbase.go:267 | As written: seconds*1000 plus the sub-second argument/1000 is the millisecond count, and the sub-second argument is a multiple of 1000. Go's truncating division fixes the sign: the argument lies in [0, 1,000,000) for a non-negative count and in (-1,000,000, 0] for a negative one. |
| AppDtm.AsWrittenExactOnlyOnWholeSeconds | quickbase.go:267 | The as-written time equals the intended instant iff the count is a whole number of seconds. |
| AppDtm.AsWrittenCounterexample | quickbase.go:267 | 1500 ms comes out as 1 s plus 500,000 ns instead of 1 s plus 500,000,000 ns. |
| AppDtm.MillisToTime | quickbase.go:264-267 | Corrected: the time denotes exactly the millisecond count, as nanoseconds. The sub-second part is a whole number of milliseconds below one second, with the sign of the count, as Go's truncating division gives. |
| AppDtm.SelectNodeToTime | quickbase.go:256-268 | A nil root or a missing tag is an error. Otherwise the text's `ParseInt` error, or a time denoting exactly that many milliseconds, which is the corrected conversion of line 267. |
| AppDtm.SelectNodeToTimeAsWritten | quickbase.go:256-268 | As written: the same errors as the corrected version. The time is line 267's conversion. It equals the corrected time iff the count is a whole number of seconds. |
| AppDtm.TimeRoundTrip | quickbase.go:264-267 | With the corrected conversion, a 64-bit millisecond count written in decimal is read back as that instant. |
| AppDtm.FirstId | quickbase.go:201-207 | The value of the first attribute with no namespace and local name `id`, or "" when none exists. |
| AppDtm.ReadTable | quickbase.go:226-245 | A table reads iff it has a non-empty id and both times parse. The result carries that id and those instants, by the corrected conversion. |
| AppDtm.ReadTables | quickbase.go:224-247 | The table loop ends without error iff every table reads cleanly. Every returned entry is the reading of the table at the same position. ReadTablesPrefix adds that the loop stops at the first bad table, with that table's error. |
| AppDtm.ReadTablesPrefix | quickbase.go:224-247 | Tables are read in order. The result is the prefix before the first bad table, with that table's error, or all of them. |
| AppDtm.GetAppDtmInfo | quickbase.go:188-249 | No error iff every time, the app id, the tables element and every table are present and well formed. `received` and `nextAllowed` are the two request times, and each is kept through every later failure. The app's result is its id and its two times. Each app field is kept once read, and is zero when it was not reached. A failure in a request time or the app leaves the tables empty. Otherwise the tables are the table loop's prefix, with its error. |
| AppDtm.MissingTableIdStops | quickbase.go:226-236 | A table without an id stops the loop there. Exactly the tables before it are returned. |

## Left out

- Strconv.ParseIntNamed: `strconv.Atoi` is modelled as the 64-bit `ParseInt`, which it is on a platform where Go's `int` has 64 bits. Only the function name in the error differs. A 32-bit `int` range is not modelled.
- Params.ImportFromCSV: takes the CSV body as a ready string. The `ioutil.ReadAll` error returned at quickbase.go:716-718 is I/O and is not modelled.
- ApiCall.CheckStatus: a missing `errtext` element, when the errcode is a non-zero number, calls `GetValue` on a nil node at quickbase.go:133. This is like a missing `errcode` and is not modelled: the reply always carries an errtext string.
- HTTP is not modelled: requests, headers, `http.Client`, URL parsing, response bodies and `executeRawApiCall`. GenResultsTable's request stops at the parameter map.
- The goroutines and `io.Pipe` of DoQueryChan and Upload are not modelled. The channel becomes a sequence of map snapshots, one per send. Aliasing between the producer's map and the receiver is a concurrency effect and is not modelled.
- `encoding/xml` and `go-pkg-xmlx` are foreign libraries, so their internals are not modelled: tokenising, `Marshal`, `SelectNode(s)`, `GetValue` and `Ai`. Tokens, trees, attribute lists and name-to-text maps are the inputs instead. As a result, a missing `errcode` element (a nil node) is not modelled.
- Decoder errors other than end of input are not modelled. Inputs are finite, error-free token lists. An `errcode`/`errtext` tag as the last token models the end-of-input error. Running out of tokens anywhere else stands for the end of a complete document. A truncated document, on which `encoding/xml` keeps reporting "unexpected EOF" and the loops at quickbase.go:465 and 498 never stop, is not modelled. Non-text data after it models the failed type assertion as a distinct panic outcome.
- `fmt.Errorf(qb_errtext)` treats the error text as a format string. The model keeps the text verbatim as the message.
- `time.Time` and `time.Unix` normalisation are not modelled. A time is the raw (seconds, nanoseconds) pair, or Go's zero time.
- The following are outside the modelled core, and their parameter maps are not modelled: Authenticate, UserRoles, Download, Upload (base64 body streaming) and GetAppDTMInfo's request (`dbid` and the `/db/main` path).
- GetAppDtmInfo starts from the parsed reply. A failure to parse the base URL or to make the call is a transport error of `executeApiCall`.
- AppDtm.SelectNodeToTime: uses the corrected millisecond conversion of the Findings row for quickbase.go:267, not the one written there. AppDtm.SelectNodeToTimeAsWritten models the written one.
- AppDtm.TimeRoundTrip: holds for the corrected conversion only. As written, a count reads back as that instant only when it is a whole number of seconds (AppDtm.AsWrittenExactOnlyOnWholeSeconds).
- AppDtm.ReadTable: its two times come from the corrected conversion, not line 267's.
- AppDtm.GetAppDtmInfo: every time it returns comes from the corrected conversion, not line 267's.
- StreamDecoder.EnvelopeVerdict: assumes the character data after a status tag is non-empty. Plain text between tags is never empty, so an empty errtext would take an empty CDATA section, which the server does not send. Without that assumption the verdict depends on order: an empty errtext before a failing errcode does not fail, and after it fails with an empty message (StreamDecoder.EmptyErrTextOrderMatters).

## Findings

| source | as written | input that shows it | evidently intended | confidence | as-written member | corrected member |
|---|---|---|---|---|---|---|
| quickbase.go:267 | `time.Unix(msecs/1000, (msecs%1000)*1000)`: the sub-second milliseconds times 1000 are microseconds, but `time.Unix` takes nanoseconds | `RequestTime` of 1500 gives 1 s + 500,000 ns (1.0005 s) instead of 1.5 s | `(msecs%1000)*1000000`, so the time denotes exactly `msecs` milliseconds | high; not executed | AppDtm.MillisToTimeAsWritten (with AppDtm.SelectNodeToTimeAsWritten, AppDtm.AsWrittenCounterexample and AppDtm.AsWrittenExactOnlyOnWholeSeconds) | AppDtm.MillisToTime (used by AppDtm.SelectNodeToTime) |
