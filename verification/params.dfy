/**
 The requests each client operation sends (quickbase.go): the endpoint, the
 `QUICKBASE-ACTION` name and the parameter map, plus the reading of the few
 replies that carry a value back (DoQueryCount, AddRecord).
 */
module Params {
  import opened Wrappers
  import opened Strconv
  import opened ApiCall

  /** An authentication ticket; `apptoken`, when non-empty, goes with every call. */
  datatype Ticket = Ticket(ticket: string, userid: string, url: string, apptoken: string)

  /** A prepared call: where it goes, which action it names, and its parameters. */
  datatype Request = Request(endpoint: string, action: string, params: map<string, string>)

  /** The parameters every ticketed call starts from. */
  function Credentials(t: Ticket): (p: map<string, string>)
    ensures "ticket" in p && p["ticket"] == t.ticket
    ensures Optional(p, "apptoken", t.apptoken)
    ensures p.Keys <= {"ticket", "apptoken"}
  {
    var p := map["ticket" := t.ticket];
    if t.apptoken != "" then p["apptoken" := t.apptoken] else p
  }

  /** `key` is sent exactly when `v` is non-empty, and then carries `v`. */
  predicate Optional(p: map<string, string>, key: string, v: string) {
    (key in p <==> v != "") && (key in p ==> p[key] == v)
  }

  /** Adds `key := v` only when `v` is non-empty, as the `if x != ""` guards do. */
  function AddIfSet(p: map<string, string>, key: string, v: string): map<string, string> {
    if v != "" then p[key := v] else p
  }

  /** The table endpoint all calls but GenResultsTable use. */
  function TableUrl(t: Ticket, dbid: string): string {
    t.url + "db/" + dbid
  }

  /** The parameter name a field label is sent under. */
  function FieldKey(fieldLabel: string): string {
    "_fnm_" + fieldLabel
  }

  predicate IsFieldKey(k: string) {
    |k| >= 5 && k[..5] == "_fnm_"
  }

  /** Field labels as parameters: each label prefixed with `_fnm_`. */
  function FieldParams(fields: map<string, string>): (p: map<string, string>)
    ensures forall f :: f in fields ==> FieldKey(f) in p && p[FieldKey(f)] == fields[f]
    ensures forall k :: k in p ==> IsFieldKey(k) && k[5..] in fields && FieldKey(k[5..]) == k
  {
    FieldKeyInjective();
    map k | k in (set f | f in fields :: FieldKey(f)) :: fields[k[5..]]
  }

  /** Distinct labels get distinct parameter names, and a label can be read back. */
  lemma FieldKeyInjective()
    ensures forall f :: IsFieldKey(FieldKey(f)) && FieldKey(f)[5..] == f
  {
    forall f ensures IsFieldKey(FieldKey(f)) && FieldKey(f)[5..] == f {
      assert FieldKey(f)[..5] == "_fnm_";
    }
  }

  /** No field label can overwrite the ticket, the token, the record id or the owner. */
  lemma FieldKeysAreFresh(fieldLabel: string)
    ensures FieldKey(fieldLabel) !in {"ticket", "apptoken", "rid", "newowner", "query", "clist", "slist", "options", "fmt"}
  {
    assert FieldKey(fieldLabel)[0] == '_';
  }

  /** API_EditRecord (lines 274-285). */
  function EditRecord(t: Ticket, dbid: string, rid: int, fields: map<string, string>): (r: Request)
    ensures r.endpoint == TableUrl(t, dbid) && r.action == "API_EditRecord"
    ensures r.params.Keys == Credentials(t).Keys + {"rid"} + FieldParams(fields).Keys
    ensures r.params["ticket"] == t.ticket && Optional(r.params, "apptoken", t.apptoken)
    ensures r.params["rid"] == Itoa(rid)
    ensures forall f :: f in fields ==> r.params[FieldKey(f)] == fields[f]
  {
    var base := Credentials(t)["rid" := Itoa(rid)];
    var fs := FieldParams(fields);
    assert forall k :: k in fs ==> k != "ticket" && k != "apptoken" && k != "rid" by {
      forall k | k in fs ensures k != "ticket" && k != "apptoken" && k != "rid" {
        FieldKeysAreFresh(k[5..]);
      }
    }
    Request(TableUrl(t, dbid), "API_EditRecord", base + fs)
  }

  /** API_AddRecord (lines 563-570): the same field convention, no record id. */
  function AddRecord(t: Ticket, dbid: string, fields: map<string, string>): (r: Request)
    ensures r.endpoint == TableUrl(t, dbid) && r.action == "API_AddRecord"
    ensures r.params.Keys == Credentials(t).Keys + FieldParams(fields).Keys
    ensures r.params["ticket"] == t.ticket && Optional(r.params, "apptoken", t.apptoken)
    ensures forall f :: f in fields ==> r.params[FieldKey(f)] == fields[f]
  {
    var base := Credentials(t);
    var fs := FieldParams(fields);
    assert forall k :: k in fs ==> k != "ticket" && k != "apptoken" && k != "rid" by {
      forall k | k in fs ensures k != "ticket" && k != "apptoken" && k != "rid" {
        FieldKeysAreFresh(k[5..]);
      }
    }
    Request(TableUrl(t, dbid), "API_AddRecord", base + fs)
  }

  /** API_DeleteRecord (lines 584-589). */
  function DeleteRecord(t: Ticket, dbid: string, rid: int): (r: Request)
    ensures r.endpoint == TableUrl(t, dbid) && r.action == "API_DeleteRecord"
    ensures r.params.Keys == Credentials(t).Keys + {"rid"}
    ensures r.params["ticket"] == t.ticket && Optional(r.params, "apptoken", t.apptoken)
    ensures r.params["rid"] == Itoa(rid)
  {
    Request(TableUrl(t, dbid), "API_DeleteRecord", Credentials(t)["rid" := Itoa(rid)])
  }

  /** API_ChangeRecordOwner (lines 597-603). */
  function ChangeRecordOwner(t: Ticket, dbid: string, rid: int, owner: string): (r: Request)
    ensures r.endpoint == TableUrl(t, dbid) && r.action == "API_ChangeRecordOwner"
    ensures r.params.Keys == Credentials(t).Keys + {"rid", "newowner"}
    ensures r.params["ticket"] == t.ticket && Optional(r.params, "apptoken", t.apptoken)
    ensures r.params["rid"] == Itoa(rid) && r.params["newowner"] == owner
  {
    Request(TableUrl(t, dbid), "API_ChangeRecordOwner", Credentials(t)["rid" := Itoa(rid)]["newowner" := owner])
  }

  /** API_DoQueryCount (lines 289-296): the query is sent only when given. */
  function DoQueryCount(t: Ticket, dbid: string, query: string): (r: Request)
    ensures r.endpoint == TableUrl(t, dbid) && r.action == "API_DoQueryCount"
    ensures r.params.Keys <= {"ticket", "apptoken", "query"}
    ensures "ticket" in r.params && r.params["ticket"] == t.ticket && Optional(r.params, "apptoken", t.apptoken)
    ensures Optional(r.params, "query", query)
  {
    Request(TableUrl(t, dbid), "API_DoQueryCount", AddIfSet(Credentials(t), "query", query))
  }

  /** The optional query arguments shared by the three DoQuery variants. */
  function QueryParams(t: Ticket, query: string, clist: string, slist: string): (p: map<string, string>)
    ensures p.Keys <= {"ticket", "apptoken", "query", "clist", "slist"}
    ensures "ticket" in p && p["ticket"] == t.ticket && Optional(p, "apptoken", t.apptoken)
    ensures Optional(p, "query", query) && Optional(p, "clist", clist) && Optional(p, "slist", slist)
  {
    AddIfSet(AddIfSet(AddIfSet(Credentials(t), "query", query), "clist", clist), "slist", slist)
  }

  /** API_DoQuery as DoQuery sends it (lines 353-369). */
  function DoQuery(t: Ticket, dbid: string, query: string, clist: string, slist: string, options: string): (r: Request)
    ensures r.endpoint == TableUrl(t, dbid) && r.action == "API_DoQuery"
    ensures r.params.Keys <= {"ticket", "apptoken", "query", "clist", "slist", "options"}
    ensures "ticket" in r.params && r.params["ticket"] == t.ticket && Optional(r.params, "apptoken", t.apptoken)
    ensures Optional(r.params, "query", query) && Optional(r.params, "clist", clist)
    ensures Optional(r.params, "slist", slist) && Optional(r.params, "options", options)
    ensures "fmt" !in r.params
  {
    Request(TableUrl(t, dbid), "API_DoQuery", AddIfSet(QueryParams(t, query, clist, slist), "options", options))
  }

  /** API_DoQuery as DoStructuredQuery sends it (lines 313-329): DoQuery's parameters plus `fmt=structured`. */
  function DoStructuredQuery(t: Ticket, dbid: string, query: string, clist: string, slist: string, options: string): (r: Request)
    ensures r.endpoint == TableUrl(t, dbid) && r.action == "API_DoQuery"
    ensures "fmt" in r.params && r.params["fmt"] == "structured"
    ensures r.params - {"fmt"} == DoQuery(t, dbid, query, clist, slist, options).params
  {
    var p := AddIfSet(QueryParams(t, query, clist, slist), "options", options);
    assert p - {"fmt"} == p;
    Request(TableUrl(t, dbid), "API_DoQuery", p["fmt" := "structured"])
  }

  /** API_DoQuery as DoQueryChan sends it (lines 410-430): no `options` argument exists. */
  function DoQueryChan(t: Ticket, dbid: string, query: string, clist: string, slist: string): (r: Request)
    ensures r.endpoint == TableUrl(t, dbid) && r.action == "API_DoQuery"
    ensures r == DoQuery(t, dbid, query, clist, slist, "")
  {
    Request(TableUrl(t, dbid), "API_DoQuery", QueryParams(t, query, clist, slist))
  }

  /** `strings.Join(parts, ".")`. */
  function JoinDots(parts: seq<string>): string
    decreases |parts|
  {
    if parts == [] then "" else if |parts| == 1 then parts[0] else parts[0] + "." + JoinDots(parts[1..])
  }

  /** `strings.Split(s, ".")`, with the piece collected so far in `cur`. */
  function SplitDots(s: string, cur: string): (parts: seq<string>)
    ensures |parts| > 0
    ensures JoinDots(parts) == cur + s
    ensures NoDot(cur) ==> forall i :: 0 <= i < |parts| ==> NoDot(parts[i])
    decreases |s|
  {
    if s == [] then [cur]
    else if s[0] == '.' then
      var rest := SplitDots(s[1..], "");
      assert JoinDots([cur] + rest) == cur + "." + JoinDots(rest) by {
        assert ([cur] + rest)[1..] == rest;
      }
      assert cur + "." + ("" + s[1..]) == cur + s by {
        assert s == "." + s[1..];
      }
      [cur] + rest
    else
      assert (cur + [s[0]]) + s[1..] == cur + s by {
        assert s == [s[0]] + s[1..];
      }
      SplitDots(s[1..], cur + [s[0]])
  }

  predicate NoDot(s: string) {
    forall i :: 0 <= i < |s| ==> s[i] != '.'
  }

  /** The decimal spelling of each column id (lines 543-546 and 708-711). */
  function ColumnStrings(columns: seq<int>): (ss: seq<string>)
    ensures |ss| == |columns|
    ensures forall i :: 0 <= i < |ss| ==> ss[i] == Itoa(columns[i])
    ensures forall i :: 0 <= i < |ss| ==> ss[i] != "" && NoDot(ss[i])
    decreases |columns|
  {
    if columns == [] then []
    else
      ItoaHasNoDot(columns[0]);
      [Itoa(columns[0])] + ColumnStrings(columns[1..])
  }

  /** The `clist` a column list is sent as: decimal ids joined by dots. */
  function ColumnList(columns: seq<int>): (clist: string)
    ensures clist == "" <==> columns == []
    ensures columns != [] ==> SplitDots(clist, "") == ColumnStrings(columns)
  {
    var ss := ColumnStrings(columns);
    if ss == [] then ""
    else
      SplitJoin(ss);
      assert JoinDots(ss) != "" by {
        if |ss| > 1 {
          assert JoinDots(ss) == ss[0] + "." + JoinDots(ss[1..]);
        }
      }
      JoinDots(ss)
  }

  /** How the server reads a `clist` back: split at dots, each piece a decimal integer. */
  function ParseColumns(pieces: seq<string>): Result<seq<int>, NumError>
    decreases |pieces|
  {
    if pieces == [] then Ok([])
    else match ParseInt(pieces[0])
      case Err(e) => Err(e)
      case Ok(c) =>
        match ParseColumns(pieces[1..])
        case Err(e) => Err(e)
        case Ok(cs) => Ok([c] + cs)
  }

  function ReadColumnList(clist: string): Result<seq<int>, NumError> {
    if clist == "" then Ok([]) else ParseColumns(SplitDots(clist, ""))
  }

  lemma {:induction false} SplitSkipsPiece(p: string, rest: string, cur: string)
    requires NoDot(p)
    ensures SplitDots(p + rest, cur) == SplitDots(rest, cur + p)
    decreases |p|
  {
    if p == [] {
      assert p + rest == rest && cur + p == cur;
    } else {
      assert (p + rest)[0] == p[0] && (p + rest)[1..] == p[1..] + rest;
      SplitSkipsPiece(p[1..], rest, cur + [p[0]]);
      assert cur + [p[0]] + p[1..] == cur + p;
    }
  }

  /** Splitting a dot-join of dot-free pieces gives the pieces back. */
  lemma {:induction false} SplitJoin(parts: seq<string>)
    requires parts != []
    requires forall i :: 0 <= i < |parts| ==> NoDot(parts[i])
    ensures SplitDots(JoinDots(parts), "") == parts
    decreases |parts|
  {
    if |parts| == 1 {
      SplitSkipsPiece(parts[0], "", "");
      assert parts[0] + "" == parts[0] && "" + parts[0] == parts[0];
    } else {
      var rest := JoinDots(parts[1..]);
      assert JoinDots(parts) == parts[0] + ("." + rest);
      SplitSkipsPiece(parts[0], "." + rest, "");
      assert "" + parts[0] == parts[0];
      assert ("." + rest)[0] == '.' && ("." + rest)[1..] == rest;
      SplitJoin(parts[1..]);
      assert [parts[0]] + parts[1..] == parts;
    }
  }

  lemma ItoaHasNoDot(n: int)
    ensures NoDot(Itoa(n)) && Itoa(n) != ""
  {
    var d := Digits(if n < 0 then -n else n);
    assert AllDigits(d);
    assert forall i :: 0 <= i < |d| ==> IsDigit(d[i]);
  }

  lemma {:induction false} ParseColumnStrings(columns: seq<int>)
    requires forall i :: 0 <= i < |columns| ==> IsInt64(columns[i])
    ensures ParseColumns(ColumnStrings(columns)) == Ok(columns)
    decreases |columns|
  {
    if columns != [] {
      ParseItoa("ParseInt", columns[0]);
      assert ColumnStrings(columns)[1..] == ColumnStrings(columns[1..]);
      assert ColumnStrings(columns)[0] == Itoa(columns[0]);
      ParseColumnStrings(columns[1..]);
      assert [columns[0]] + columns[1..] == columns;
    }
  }

  /** Every list of 64-bit column ids survives being sent as a `clist`. */
  lemma ColumnListRoundTrip(columns: seq<int>)
    requires forall i :: 0 <= i < |columns| ==> IsInt64(columns[i])
    ensures ReadColumnList(ColumnList(columns)) == Ok(columns)
  {
    ParseColumnStrings(columns);
  }

  /** API_GenResultsTable (lines 542-557): the token is always sent, CSV sorted by field 3. */
  function GenResultsTable(t: Ticket, dbid: string, query: string, columns: seq<int>): (r: Request)
    ensures r.action == "API_GenResultsTable" && r.endpoint == t.url + "/db/" + dbid
    ensures r.params.Keys <= {"clist", "options", "slist", "ticket", "apptoken", "query"}
    ensures {"clist", "options", "slist", "ticket", "apptoken"} <= r.params.Keys
    ensures r.params["clist"] == ColumnList(columns)
    ensures r.params["options"] == "csv" && r.params["slist"] == "3"
    ensures r.params["ticket"] == t.ticket && r.params["apptoken"] == t.apptoken
    ensures Optional(r.params, "query", query)
  {
    var p := map["clist" := ColumnList(columns), "options" := "csv", "slist" := "3",
                 "ticket" := t.ticket, "apptoken" := t.apptoken];
    Request(t.url + "/db/" + dbid, "API_GenResultsTable", AddIfSet(p, "query", query))
  }

  /** API_ImportFromCSV (lines 703-713): the CSV body goes whole into `records_csv`. */
  function ImportFromCSV(t: Ticket, dbid: string, columns: seq<int>, csv: string): (r: Request)
    ensures r.endpoint == TableUrl(t, dbid) && r.action == "API_ImportFromCSV"
    ensures r.params.Keys == Credentials(t).Keys + {"clist", "skipfirst", "records_csv"}
    ensures r.params["ticket"] == t.ticket && Optional(r.params, "apptoken", t.apptoken)
    ensures r.params["clist"] == ColumnList(columns)
    ensures r.params["skipfirst"] == "1" && r.params["records_csv"] == csv
  {
    var p := Credentials(t)["clist" := ColumnList(columns)]["skipfirst" := "1"]["records_csv" := csv];
    Request(TableUrl(t, dbid), "API_ImportFromCSV", p)
  }

  datatype ReadError = Call(error: CallError) | NoValue(message: string) | BadNumber(num: NumError)

  /** DoQueryCount's reading of the reply (lines 297-304). */
  function QueryCount(reply: Reply): (r: Result<int, ReadError>)
    ensures r.Ok? ==> IsInt64(r.value)
    ensures r.Ok? <==> ExecuteApiCall(reply).Ok? && "numMatches" in reply.doc.values
                       && ParseInt(reply.doc.values["numMatches"]).Ok?
    ensures r.Ok? ==> ParseInt(reply.doc.values["numMatches"]) == Ok(r.value)
  {
    match ExecuteApiCall(reply)
    case Err(e) => Err(Call(e))
    case Ok(doc) =>
      if "numMatches" !in doc.values then Err(NoValue("Invalid replay from QuickBase"))
      else match ParseInt(doc.values["numMatches"])
        case Err(e) => Err(BadNumber(e))
        case Ok(n) => Ok(n)
  }

  /** AddRecord's reading of the reply (lines 571-578). */
  function NewRecordId(reply: Reply): (r: Result<int, ReadError>)
    ensures r.Ok? ==> IsInt64(r.value)
    ensures r.Ok? <==> ExecuteApiCall(reply).Ok? && "rid" in reply.doc.values
                       && Atoi(reply.doc.values["rid"]).Ok?
    ensures r.Ok? ==> Atoi(reply.doc.values["rid"]) == Ok(r.value)
  {
    match ExecuteApiCall(reply)
    case Err(e) => Err(Call(e))
    case Ok(doc) =>
      if "rid" !in doc.values then Err(NoValue("No rid returned from API_AddRecord"))
      else match Atoi(doc.values["rid"])
        case Err(e) => Err(BadNumber(e))
        case Ok(n) => Ok(n)
  }

  /** A successful reply carrying a record id in decimal yields that id. */
  lemma NewRecordIdRoundTrip(doc: Doc, rid: int)
    requires doc.errcode == "0" && IsInt64(rid)
    requires "rid" in doc.values && doc.values["rid"] == Itoa(rid)
    ensures NewRecordId(Parsed(doc)) == Ok(rid)
  {
    ParseItoa("Atoi", rid);
  }

  /** A successful reply carrying a match count in decimal yields that count. */
  lemma QueryCountRoundTrip(doc: Doc, n: int)
    requires doc.errcode == "0" && IsInt64(n)
    requires "numMatches" in doc.values && doc.values["numMatches"] == Itoa(n)
    ensures QueryCount(Parsed(doc)) == Ok(n)
  {
    ParseItoa("ParseInt", n);
  }
}
