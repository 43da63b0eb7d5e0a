/**
 Well-formed `API_DoQuery` responses, written out as the token stream the server
 sends, and what the streaming decoder makes of them.
 */
module StreamResponses {
  import opened StreamDecoder

  datatype Field = Field(name: string, value: string)

  type Row = seq<Field>

  /**
   A response envelope: the status pair (in either order) and the rows. Each field
   element holds plain text.
   */
  datatype Response = Response(codeFirst: bool, code: string, text: string, rows: seq<Row>)

  predicate RowOk(row: Row) {
    forall i :: 0 <= i < |row| ==> row[i].name != "record"
  }

  /**
   The status elements carry non-empty text: empty character data takes an empty
   CDATA section, which the server does not send. A field called `record` would be
   read as a record boundary.
   */
  predicate WellFormed(r: Response) {
    && r.code != ""
    && r.text != ""
    && forall j :: 0 <= j < |r.rows| ==> RowOk(r.rows[j])
  }

  /** Element content as tokens: an empty element has no character data token. */
  function Text(s: string): seq<Token> {
    if s == "" then [] else [CharData(s)]
  }

  function RenderField(f: Field): seq<Token> {
    [Start(f.name)] + Text(f.value) + [End(f.name)]
  }

  function RenderFields(fs: Row): seq<Token> {
    if fs == [] then [] else RenderField(fs[0]) + RenderFields(fs[1..])
  }

  function RenderRows(rows: seq<Row>): seq<Token> {
    if rows == [] then []
    else [Start("record")] + RenderFields(rows[0]) + [End("record")] + RenderRows(rows[1..])
  }

  function StatusTokens(r: Response): seq<Token> {
    var code := [Start("errcode"), CharData(r.code), End("errcode")];
    var text := [Start("errtext"), CharData(r.text), End("errtext")];
    if r.codeFirst then code + text else text + code
  }

  function Render(r: Response): seq<Token> {
    [ProcInst, Start("qdbapi")] + StatusTokens(r) + RenderRows(r.rows) + [End("qdbapi")]
  }

  /** The record map after storing the fields of one row in order. */
  function Apply(m: Record, fs: Row): Record
    decreases |fs|
  {
    if fs == [] then m else Apply(m[fs[0].name := fs[0].value], fs[1..])
  }

  /** The snapshot sent after each row: the one map, never cleared, updated row by row. */
  function Cumulative(m: Record, rows: seq<Row>): (e: seq<Record>)
    ensures |e| == |rows|
    decreases |rows|
  {
    if rows == [] then []
    else
      var m' := Apply(m, rows[0]);
      [m'] + Cumulative(m', rows[1..])
  }

  function Names(fs: Row): set<string> {
    set i | 0 <= i < |fs| :: fs[i].name
  }

  /** Storing a row's fields: every field name becomes a key, the last field of a name wins, other keys keep their value. */
  lemma {:induction false} ApplyLastWins(m: Record, fs: Row)
    ensures Apply(m, fs).Keys == m.Keys + Names(fs)
    ensures forall i :: 0 <= i < |fs| && (forall j :: i < j < |fs| ==> fs[j].name != fs[i].name)
              ==> Apply(m, fs)[fs[i].name] == fs[i].value
    ensures forall n :: n in m && n !in Names(fs) ==> Apply(m, fs)[n] == m[n]
    decreases |fs|
  {
    if fs != [] {
      var m' := m[fs[0].name := fs[0].value];
      ApplyLastWins(m', fs[1..]);
      assert Names(fs) == {fs[0].name} + Names(fs[1..]) by {
        forall n | n in Names(fs) ensures n in {fs[0].name} + Names(fs[1..]) {
          var i :| 0 <= i < |fs| && fs[i].name == n;
          if i > 0 {
            assert fs[1..][i - 1] == fs[i];
          }
        }
        forall n | n in Names(fs[1..]) ensures n in Names(fs) {
          var i :| 0 <= i < |fs[1..]| && fs[1..][i].name == n;
          assert fs[i + 1] == fs[1..][i];
        }
      }
      forall i | 0 <= i < |fs| && (forall j :: i < j < |fs| ==> fs[j].name != fs[i].name)
        ensures Apply(m, fs)[fs[i].name] == fs[i].value
      {
        if i > 0 {
          assert fs[1..][i - 1] == fs[i];
          forall j | i - 1 < j < |fs[1..]| ensures fs[1..][j].name != fs[1..][i - 1].name {
            assert fs[1..][j] == fs[j + 1];
          }
        } else {
          assert fs[0].name !in Names(fs[1..]) by {
            forall k | 0 <= k < |fs[1..]| ensures fs[1..][k].name != fs[0].name {
              assert fs[1..][k] == fs[k + 1];
            }
          }
        }
      }
    }
  }

  /** The tokens of one field store its text under its name, whatever field or text came before. */
  lemma OneFieldStored(f: Field, after: seq<Token>, c: Cursor)
    requires c.inRecord && f.name != "record"
    ensures Records(RenderField(f) + after, c) == Records(after, Cursor(c.rec[f.name := f.value], "", f.value, true))
  {
    var toks := RenderField(f) + after;
    var c0 := c.(data := "", field := f.name);
    var c1 := Cursor(c.rec[f.name := f.value], "", f.value, true);
    if f.value == "" {
      assert toks == [Start(f.name), End(f.name)] + after;
      assert toks[1..] == [End(f.name)] + after;
      assert Records(toks, c) == Records(toks[1..], c0);
      assert Records(toks[1..], c0) == Records(after, c1);
    } else {
      assert toks == [Start(f.name), CharData(f.value), End(f.name)] + after;
      assert toks[1..] == [CharData(f.value), End(f.name)] + after;
      assert toks[1..][1..] == [End(f.name)] + after;
      assert "" + f.value == f.value;
      assert Records(toks, c) == Records(toks[1..], c0);
      assert Records(toks[1..], c0) == Records(toks[1..][1..], c0.(data := f.value));
      assert Records(toks[1..][1..], c0.(data := f.value)) == Records(after, c1);
    }
  }

  /** The tokens of a row's fields store every field, in order, into the one map. */
  lemma {:induction false} FieldsStored(fs: Row, tail: seq<Token>, c: Cursor)
    requires c.inRecord && RowOk(fs)
    ensures fs != [] ==> exists d :: Records(RenderFields(fs) + tail, c)
                                     == Records(tail, Cursor(Apply(c.rec, fs), "", d, true))
    decreases |fs|
  {
    if fs != [] {
      var f := fs[0];
      var after := RenderFields(fs[1..]) + tail;
      var c1 := Cursor(c.rec[f.name := f.value], "", f.value, true);
      assert RenderFields(fs) + tail == RenderField(f) + after;
      OneFieldStored(f, after, c);
      assert RowOk(fs[1..]) by {
        forall i | 0 <= i < |fs[1..]| ensures fs[1..][i].name != "record" {
          assert fs[1..][i] == fs[i + 1];
        }
      }
      if fs[1..] == [] {
        assert after == tail;
        assert Records(RenderFields(fs) + tail, c) == Records(tail, Cursor(Apply(c.rec, fs), "", f.value, true));
      } else {
        FieldsStored(fs[1..], tail, c1);
        var d :| Records(after, c1) == Records(tail, Cursor(Apply(c1.rec, fs[1..]), "", d, true));
        assert Records(RenderFields(fs) + tail, c) == Records(tail, Cursor(Apply(c.rec, fs), "", d, true));
      }
    }
  }

  /** From inside a row (its `record` start tag consumed) to the envelope's end. */
  lemma {:induction false} RowBodyStreamed(row: Row, rows: seq<Row>, c: Cursor)
    requires c.inRecord && RowOk(row)
    requires forall j :: 0 <= j < |rows| ==> RowOk(rows[j])
    ensures Records(RenderFields(row) + [End("record")] + RenderRows(rows) + [End("qdbapi")], c)
         == Stream(Cumulative(c.rec, [row] + rows), true)
    decreases |rows|
  {
    var m' := Apply(c.rec, row);
    var tail := [End("record")] + RenderRows(rows) + [End("qdbapi")];
    assert RenderFields(row) + [End("record")] + RenderRows(rows) + [End("qdbapi")] == RenderFields(row) + tail;
    var d: string;
    if row == [] {
      d := c.data;
      assert RenderFields(row) + tail == tail;
      assert c.(rec := m', field := c.field) == c;
    } else {
      FieldsStored(row, tail, c);
      d :| Records(RenderFields(row) + tail, c) == Records(tail, Cursor(m', "", d, true));
    }
    var c1 := Cursor(m', if row == [] then c.field else "", d, true);
    assert Records(RenderFields(row) + tail, c) == Records(tail, c1);
    var more := RenderRows(rows) + [End("qdbapi")];
    assert tail[0] == End("record") && tail[1..] == more;
    RowsStreamed(rows, c1.(inRecord := false));
    assert ([row] + rows)[1..] == rows;
  }

  /** From outside a row to the envelope's end: one send per row, then the channel closes. */
  lemma {:induction false} RowsStreamed(rows: seq<Row>, c: Cursor)
    requires !c.inRecord
    requires forall j :: 0 <= j < |rows| ==> RowOk(rows[j])
    ensures Records(RenderRows(rows) + [End("qdbapi")], c) == Stream(Cumulative(c.rec, rows), true)
    decreases |rows|, 0
  {
    if rows != [] {
      var toks := RenderRows(rows) + [End("qdbapi")];
      RowsSplit(rows);
      assert Records(toks, c) == Records(toks[1..], c.(inRecord := true));
      RowBodyStreamed(rows[0], rows[1..], c.(inRecord := true));
      assert [rows[0]] + rows[1..] == rows;
    } else {
      assert RenderRows(rows) + [End("qdbapi")] == [End("qdbapi")];
    }
  }

  lemma StatusPart(r: Response)
    requires WellFormed(r)
    ensures StatusPayloads(StatusTokens(r))
    ensures HasErrText(StatusTokens(r))
    ensures HasFailureCode(StatusTokens(r)) <==> r.code != "0"
    ensures forall m :: IsErrText(StatusTokens(r), m) ==> m == r.text
  {
    var s := StatusTokens(r);
    assert |s| == 6;
    forall i | 0 <= i < |s| ensures StatusTagAt(s, i) {
    }
    if r.codeFirst {
      assert s[3] == Start("errtext");
      if r.code != "0" {
        assert s[0] == Start("errcode") && s[1] == CharData(r.code);
      }
    } else {
      assert s[0] == Start("errtext");
      if r.code != "0" {
        assert s[3] == Start("errcode") && s[4] == CharData(r.code);
      }
    }
  }

  /** A response without rows: the status part and the envelope end reach the end of the tokens. */
  lemma DecodeWithoutRows(r: Response)
    requires WellFormed(r) && r.rows == []
    ensures r.code != "0" ==> Decode(Render(r)) == Failed(ApiError(r.text))
    ensures r.code == "0" ==> Decode(Render(r)) == Panicked(NoRecordSeen)
  {
    var status := StatusTokens(r);
    var mid := status + [End("qdbapi")];
    assert Render(r) == [ProcInst] + [Start("qdbapi")] + mid;
    FirstStartDecides([ProcInst], "qdbapi", mid);
    StatusPart(r);
    assert StatusPayloads(mid) by {
      forall i | 0 <= i < |mid| ensures StatusTagAt(mid, i) {
        if i < |status| {
          assert StatusTagAt(status, i);
          assert mid[i] == status[i];
          if i + 1 < |status| {
            assert mid[i + 1] == status[i + 1];
          }
        }
      }
    }
    assert mid[..|status|] == status;
    assert mid[|status|] == End("qdbapi");
    StatusFactsExtend(status, [End("qdbapi")]);
    assert mid + [] == mid;
    EnvelopeVerdict(mid, [], false, "");
    if r.code != "0" {
      assert IsErrText(status, Decode(Render(r)).error.text);
    }
  }

  /** Appending a token that is not a status tag or character data adds no status facts. */
  lemma StatusFactsExtend(status: seq<Token>, more: seq<Token>)
    requires more == [End("qdbapi")]
    ensures HasErrText(status + more) <==> HasErrText(status)
    ensures HasFailureCode(status + more) <==> HasFailureCode(status)
    ensures forall m :: IsErrText(status + more, m) ==> IsErrText(status, m)
  {
    var t := status + more;
    if HasErrText(t) {
      var i :| 0 <= i < |t| && t[i] == Start("errtext");
      assert t[i] == status[i];
    }
    if HasErrText(status) {
      var i :| 0 <= i < |status| && status[i] == Start("errtext");
      assert t[i] == status[i];
    }
    if HasFailureCode(t) {
      var i :| 0 <= i < |t| - 1 && t[i] == Start("errcode") && t[i + 1].CharData? && t[i + 1].text != "0";
      assert t[i] == status[i] && t[i + 1] == status[i + 1];
    }
    if HasFailureCode(status) {
      var i :| 0 <= i < |status| - 1 && status[i] == Start("errcode") && status[i + 1].CharData? && status[i + 1].text != "0";
      assert t[i] == status[i] && t[i + 1] == status[i + 1];
    }
    forall m | IsErrText(t, m) ensures IsErrText(status, m) {
      var i :| 0 <= i < |t| - 1 && t[i] == Start("errtext") && t[i + 1] == CharData(m);
      assert t[i] == status[i] && t[i + 1] == status[i + 1];
    }
  }

  /** Rendering puts the status elements and then the rows straight after the `qdbapi` start tag. */
  lemma RenderedEnvelope(r: Response)
    ensures Decode(Render(r)) == Envelope(StatusTokens(r) + (RenderRows(r.rows) + [End("qdbapi")]), false, "")
  {
    var rest := RenderRows(r.rows) + [End("qdbapi")];
    assert Render(r) == [ProcInst] + [Start("qdbapi")] + (StatusTokens(r) + rest);
    FirstStartDecides([ProcInst], "qdbapi", StatusTokens(r) + rest);
  }

  /** A failing response with rows fails before the first row is read. */
  lemma DecodeFailingWithRows(r: Response)
    requires WellFormed(r) && r.rows != [] && r.code != "0"
    ensures Decode(Render(r)) == Failed(ApiError(r.text))
  {
    var status := StatusTokens(r);
    var rest := RenderRows(r.rows) + [End("qdbapi")];
    RenderedEnvelope(r);
    StatusPart(r);
    assert rest[0] == Start("record");
    EnvelopeVerdict(status, rest, false, "");
    assert IsErrText(status, Decode(Render(r)).error.text);
  }

  /** A status part without a failing code hands the stream over to the record loop. */
  lemma StatusPassesThrough(status: seq<Token>, rest: seq<Token>)
    requires StatusPayloads(status) && !HasFailureCode(status)
    requires rest != [] && rest[0] == Start("record")
    ensures Envelope(status + rest, false, "") == AfterEnvelope(rest)
  {
    EnvelopeVerdict(status, rest, false, "");
  }

  /** A successful response with rows streams every row and closes the channel. */
  lemma DecodeStreamingRows(r: Response)
    requires WellFormed(r) && r.rows != [] && r.code == "0"
    ensures Decode(Render(r)) == Streamed(Cumulative(map[], r.rows), true)
  {
    var rest := RenderRows(r.rows) + [End("qdbapi")];
    RenderedEnvelope(r);
    StatusPart(r);
    RowsAfterEnvelope(r.rows);
    StatusPassesThrough(StatusTokens(r), rest);
  }

  lemma Associative(a: seq<Token>, b: seq<Token>, c: seq<Token>)
    ensures (a + b) + c == a + (b + c)
  {
  }

  /** The rendered rows open with the first row's `record` tag, followed by the rest. */
  lemma RowsSplit(rows: seq<Row>)
    requires rows != []
    ensures (RenderRows(rows) + [End("qdbapi")])[0] == Start("record")
    ensures (RenderRows(rows) + [End("qdbapi")])[1..]
         == RenderFields(rows[0]) + [End("record")] + RenderRows(rows[1..]) + [End("qdbapi")]
  {
    var a, b := RenderFields(rows[0]), RenderRows(rows[1..]);
    var body := a + [End("record")] + b;
    Associative([Start("record")], a, [End("record")]);
    Associative([Start("record")], a + [End("record")], b);
    assert RenderRows(rows) == [Start("record")] + body;
    Associative([Start("record")], body, [End("qdbapi")]);
  }

  /** Rows after the status part stream as the cumulative snapshots and close the channel. */
  lemma RowsAfterEnvelope(rows: seq<Row>)
    requires rows != [] && forall j :: 0 <= j < |rows| ==> RowOk(rows[j])
    ensures (RenderRows(rows) + [End("qdbapi")])[0] == Start("record")
    ensures AfterEnvelope(RenderRows(rows) + [End("qdbapi")]) == Streamed(Cumulative(map[], rows), true)
  {
    var rest := RenderRows(rows) + [End("qdbapi")];
    var outside := Cursor(map[], "", "", false);
    RowsSplit(rows);
    AfterEnvelopeEnters(rest);
    RowsStreamed(rows, outside);
  }

  /**
   Decoding a well-formed response: a status other than exactly "0" fails the call
   with the error text, whichever status element comes first; success with rows
   yields one send per row in server order, each the map accumulated so far, and a
   closed channel; success with zero rows panics.
   */
  lemma DecodeResponse(r: Response)
    requires WellFormed(r)
    ensures r.code != "0" ==> Decode(Render(r)) == Failed(ApiError(r.text))
    ensures r.code == "0" && r.rows == [] ==> Decode(Render(r)) == Panicked(NoRecordSeen)
    ensures r.code == "0" && r.rows != [] ==> Decode(Render(r)) == Streamed(Cumulative(map[], r.rows), true)
  {
    if r.rows == [] {
      DecodeWithoutRows(r);
    } else if r.code == "0" {
      DecodeStreamingRows(r);
    } else {
      DecodeFailingWithRows(r);
    }
  }

  /**
   The map is never cleared: a key present in the send for row `j` keeps its value in
   every later send until a later row carries a field of that name.
   */
  lemma {:induction false} StaleFieldsCarryOver(m: Record, rows: seq<Row>, j: nat, k: nat, n: string)
    requires j <= k < |rows|
    requires n in Cumulative(m, rows)[j]
    requires forall i :: j < i <= k ==> n !in Names(rows[i])
    ensures n in Cumulative(m, rows)[k] && Cumulative(m, rows)[k][n] == Cumulative(m, rows)[j][n]
    decreases k
  {
    if j < k {
      StaleFieldsCarryOver(m, rows, j, k - 1, n);
      CumulativeStep(m, rows, k);
      ApplyLastWins(Cumulative(m, rows)[k - 1], rows[k]);
    }
  }

  /** Each send is the previous one with the next row's fields stored. */
  lemma {:induction false} CumulativeStep(m: Record, rows: seq<Row>, k: nat)
    requires 0 < k < |rows|
    ensures Cumulative(m, rows)[k] == Apply(Cumulative(m, rows)[k - 1], rows[k])
    decreases k
  {
    var m' := Apply(m, rows[0]);
    assert Cumulative(m, rows)[k] == Cumulative(m', rows[1..])[k - 1];
    if k == 1 {
      assert Cumulative(m, rows)[0] == m';
    } else {
      CumulativeStep(m', rows[1..], k - 1);
      assert Cumulative(m, rows)[k - 1] == Cumulative(m', rows[1..])[k - 2];
    }
  }
}
