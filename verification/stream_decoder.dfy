/**
 The streaming query decoder of `DoQueryChan` (quickbase.go): one pass over the
 response's XML tokens. The three nested token loops of the source are three
 functions over the remaining tokens, so all phases share one cursor into the
 stream, as the source's single `xml.Decoder` does. Each send on the unbuffered
 output channel is modelled as appending a snapshot of the record map.
 */
module StreamDecoder {

  /** The tokens `encoding/xml` hands out, after successful tokenisation. */
  datatype Token =
    | ProcInst
    | Start(name: string)
    | End(name: string)
    | CharData(text: string)
    | Comment

  /** One streamed row: field label to field text. */
  type Record = map<string, string>

  /** The errors `DoQueryChan` returns before any record is streamed. */
  datatype QueryError =
    | EnvelopeExpected(found: string)  // "qdbapi expected; <found> found"
    | ApiError(text: string)           // fmt.Errorf(errtext)
    | UnexpectedEof                    // the decoder's error when the input ends where a status payload was due

  /** Why `DoQueryChan` panics instead of returning. */
  datatype PanicReason =
    | NoRecordSeen      // "should never have gotten here": both loops ran out of tokens
    | PayloadNotText    // the unchecked `token.(xml.CharData)` assertion failed

  datatype Outcome =
    | Failed(error: QueryError)
    | Panicked(reason: PanicReason)
    | Streamed(emitted: seq<Record>, closed: bool)

  /** What the consumer of the channel observes: the sends, and whether it was closed. */
  datatype Stream = Stream(emitted: seq<Record>, closed: bool)

  /** The record goroutine's locals: `record`, `last_field`, `last_data`, `in_record`. */
  datatype Cursor = Cursor(rec: Record, field: string, data: string, inRecord: bool)

  /** The goroutine starts just after the first `record` start tag, with one map for the whole stream. */
  const FirstRecord := Cursor(map[], "", "", true)

  /** The outer loop: skip everything up to the first start tag, which must be `qdbapi`. */
  function Decode(toks: seq<Token>): (r: Outcome)
    ensures NoStart(toks) ==> r == Panicked(NoRecordSeen)
    ensures r.Failed? && r.error.EnvelopeExpected? ==>
              r.error.found != "qdbapi" && exists i :: 0 <= i < |toks| && toks[i] == Start(r.error.found)
    decreases |toks|
  {
    if toks == [] then Panicked(NoRecordSeen)
    else match toks[0]
      case Start(n) =>
        if n != "qdbapi" then Failed(EnvelopeExpected(n)) else Envelope(toks[1..], false, "")
      case _ => Decode(toks[1..])
  }

  /**
   The envelope loop: `failing` is `qb_errcode`, `text` is `qb_errtext`. A status tag
   consumes the token after it as its payload; a `record` start tag hands the rest of
   the stream to the record loop and returns the channel.
   */
  function Envelope(toks: seq<Token>, failing: bool, text: string): (r: Outcome)
    ensures r.Failed? ==> !r.error.EnvelopeExpected?
    ensures r.Failed? && r.error.ApiError? ==>
              r.error.text == text || exists i :: 0 <= i < |toks| && toks[i] == CharData(r.error.text)
    decreases |toks|
  {
    if toks == [] then Panicked(NoRecordSeen)
    else match toks[0]
      case Start(n) =>
        if n == "errcode" then
          if |toks| == 1 then Failed(UnexpectedEof)
          else if !toks[1].CharData? then Panicked(PayloadNotText)
          else if toks[1].text != "0" then
            if text != "" then Failed(ApiError(text)) else Envelope(toks[2..], true, text)
          else Envelope(toks[2..], failing, text)
        else if n == "errtext" then
          if |toks| == 1 then Failed(UnexpectedEof)
          else if !toks[1].CharData? then Panicked(PayloadNotText)
          else if failing then Failed(ApiError(toks[1].text))
          else Envelope(toks[2..], failing, toks[1].text)
        else if n == "record" then
          var s := Records(toks[1..], FirstRecord);
          Streamed(s.emitted, s.closed)
        else Envelope(toks[1..], failing, text)
      case _ => Envelope(toks[1..], failing, text)
  }

  /** The tokens on which the record goroutine closes the channel and stops. */
  predicate Closes(c: Cursor, t: Token) {
    !c.inRecord && ((t.Start? && t.name != "record") || (t.End? && t.name == "qdbapi"))
  }

  /** The token on which the record goroutine sends the map. */
  predicate Emits(c: Cursor, t: Token) {
    c.inRecord && t == End("record")
  }

  /** The goroutine's state change on a token that does not close the channel. */
  function Step(c: Cursor, t: Token): Cursor {
    match t
    case Start(n) => if c.inRecord then c.(data := "", field := n) else c.(inRecord := true)
    case End(n) =>
      if c.inRecord && n == "record" then c.(inRecord := false)
      else c.(rec := c.rec[c.field := c.data], field := "")
    case CharData(s) => c.(data := c.data + s)
    case _ => c
  }

  /** Some token of `toks` satisfies `p`. */
  predicate Occurs(toks: seq<Token>, p: Token -> bool)
    decreases |toks|
  {
    toks != [] && (p(toks[0]) || Occurs(toks[1..], p))
  }

  /** A token that closes the channel whenever it is met outside a record. */
  predicate ClosingKind(t: Token) {
    (t.Start? && t.name != "record") || t == End("qdbapi")
  }

  /** The record loop: runs until a closing token or the end of the tokens. */
  function Records(toks: seq<Token>, c: Cursor): (s: Stream)
    ensures s.emitted != [] ==> Occurs(toks, t => t == End("record"))
    ensures s.closed ==> Occurs(toks, ClosingKind)
    decreases |toks|
  {
    if toks == [] then Stream([], false)
    else if Closes(c, toks[0]) then Stream([], true)
    else
      var rest := Records(toks[1..], Step(c, toks[0]));
      if Emits(c, toks[0]) then Stream([c.rec] + rest.emitted, rest.closed) else rest
  }

  // ---------------------------------------------------------------------------
  // Before the envelope
  // ---------------------------------------------------------------------------

  predicate NoStart(toks: seq<Token>) {
    forall i :: 0 <= i < |toks| ==> !toks[i].Start?
  }

  /** Only the first start tag matters to the outer loop: `qdbapi` opens the envelope, anything else fails. */
  lemma {:induction false} FirstStartDecides(pre: seq<Token>, n: string, post: seq<Token>)
    requires NoStart(pre)
    ensures n != "qdbapi" ==> Decode(pre + [Start(n)] + post) == Failed(EnvelopeExpected(n))
    ensures n == "qdbapi" ==> Decode(pre + [Start(n)] + post) == Envelope(post, false, "")
    decreases |pre|
  {
    var toks := pre + [Start(n)] + post;
    if pre == [] {
      assert toks[0] == Start(n) && toks[1..] == post;
    } else {
      assert toks[0] == pre[0] && toks[1..] == pre[1..] + [Start(n)] + post;
      FirstStartDecides(pre[1..], n, post);
    }
  }

  predicate HasRecordStart(toks: seq<Token>) {
    exists i :: 0 <= i < |toks| && toks[i] == Start("record")
  }

  /** Without a `record` start tag the envelope loop never hands over: there is no stream. */
  lemma {:induction false} EnvelopeNeedsRecord(toks: seq<Token>, failing: bool, text: string)
    requires !HasRecordStart(toks)
    ensures !Envelope(toks, failing, text).Streamed?
    decreases |toks|
  {
    if toks != [] {
      assert toks[0] != Start("record");
      assert !HasRecordStart(toks[1..]) by {
        forall i | 0 <= i < |toks[1..]| ensures toks[1..][i] != Start("record") {
          assert toks[1..][i] == toks[i + 1];
        }
      }
      if |toks| >= 2 {
        assert !HasRecordStart(toks[2..]) by {
          forall i | 0 <= i < |toks[2..]| ensures toks[2..][i] != Start("record") {
            assert toks[2..][i] == toks[i + 2];
          }
        }
        EnvelopeNeedsRecord(toks[2..], true, text);
        EnvelopeNeedsRecord(toks[2..], failing, text);
        if toks[1].CharData? {
          EnvelopeNeedsRecord(toks[2..], failing, toks[1].text);
        }
      }
      EnvelopeNeedsRecord(toks[1..], failing, text);
    }
  }

  /**
   A response that never reaches a `record` start tag, including a successful
   response with zero rows, never yields a channel.
   */
  lemma {:induction false} NoRecordNoStream(toks: seq<Token>)
    requires !HasRecordStart(toks)
    ensures !Decode(toks).Streamed?
    decreases |toks|
  {
    if toks != [] {
      assert !HasRecordStart(toks[1..]) by {
        forall i | 0 <= i < |toks[1..]| ensures toks[1..][i] != Start("record") {
          assert toks[1..][i] == toks[i + 1];
        }
      }
      if toks[0].Start? {
        EnvelopeNeedsRecord(toks[1..], false, "");
      } else {
        NoRecordNoStream(toks[1..]);
      }
    }
  }

  // ---------------------------------------------------------------------------
  // The envelope status
  // ---------------------------------------------------------------------------

  /**
   Envelope tokens as the server writes them: every status start tag is followed by
   its character data, non-empty for `errtext`, and no record has started. Plain
   text between tags is never empty; only an empty CDATA section gives empty
   character data, and the server does not write `errtext` that way.
   */
  predicate StatusPayloads(toks: seq<Token>) {
    forall i :: 0 <= i < |toks| ==> StatusTagAt(toks, i)
  }

  predicate StatusTagAt(toks: seq<Token>, i: nat)
    requires i < |toks|
  {
    toks[i].Start? ==>
      && toks[i].name != "record"
      && (toks[i].name == "errcode" || toks[i].name == "errtext" ==> i + 1 < |toks| && toks[i + 1].CharData?)
      && (toks[i].name == "errtext" ==> toks[i + 1].text != "")
  }

  /** Some `errcode` carries a code other than exactly "0". */
  predicate HasFailureCode(toks: seq<Token>) {
    exists i :: 0 <= i < |toks| - 1 && toks[i] == Start("errcode") && toks[i + 1].CharData? && toks[i + 1].text != "0"
  }

  predicate HasErrText(toks: seq<Token>) {
    exists i :: 0 <= i < |toks| && toks[i] == Start("errtext")
  }

  /** `m` is the text of some `errtext` element. */
  predicate IsErrText(toks: seq<Token>, m: string) {
    exists i :: 0 <= i < |toks| - 1 && toks[i] == Start("errtext") && toks[i + 1] == CharData(m)
  }

  /** What the envelope loop does once the status part is behind it. */
  function AfterEnvelope(rest: seq<Token>): Outcome {
    if rest == [] then Panicked(NoRecordSeen)
    else
      var s := Records(rest[1..], FirstRecord);
      Streamed(s.emitted, s.closed)
  }

  /** Handing over at the `record` tag is the record loop run from outside any record, with an empty map. */
  lemma AfterEnvelopeEnters(rest: seq<Token>)
    requires rest != [] && rest[0] == Start("record")
    ensures AfterEnvelope(rest) == Streamed(Records(rest, Cursor(map[], "", "", false)).emitted,
                                            Records(rest, Cursor(map[], "", "", false)).closed)
  {
    var outside := Cursor(map[], "", "", false);
    assert !Closes(outside, rest[0]) && !Emits(outside, rest[0]) && Step(outside, rest[0]) == FirstRecord;
  }

  lemma SuffixFacts(toks: seq<Token>, k: nat)
    requires k <= |toks|
    ensures HasFailureCode(toks[k..]) ==> HasFailureCode(toks)
    ensures HasErrText(toks[k..]) ==> HasErrText(toks)
    ensures forall m :: IsErrText(toks[k..], m) ==> IsErrText(toks, m)
    ensures StatusPayloads(toks) ==> StatusPayloads(toks[k..])
  {
    var t := toks[k..];
    if HasFailureCode(t) {
      var i :| 0 <= i < |t| - 1 && t[i] == Start("errcode") && t[i + 1].CharData? && t[i + 1].text != "0";
      assert toks[i + k] == t[i] && toks[i + k + 1] == t[i + 1];
    }
    if HasErrText(t) {
      var i :| 0 <= i < |t| && t[i] == Start("errtext");
      assert toks[i + k] == t[i];
    }
    forall m | IsErrText(t, m) ensures IsErrText(toks, m) {
      var i :| 0 <= i < |t| - 1 && t[i] == Start("errtext") && t[i + 1] == CharData(m);
      assert toks[i + k] == t[i] && toks[i + k + 1] == t[i + 1];
    }
    if StatusPayloads(toks) {
      forall i | 0 <= i < |t| ensures StatusTagAt(t, i) {
        assert StatusTagAt(toks, i + k);
        assert t[i] == toks[i + k];
        if i + 1 < |t| {
          assert t[i + 1] == toks[i + k + 1];
        }
      }
    }
  }

  /** Status facts found past the first `k` tokens, when none of those `k` starts a status tag. */
  lemma PrefixFacts(toks: seq<Token>, k: nat)
    requires k <= |toks|
    requires forall i :: 0 <= i < k ==> toks[i] != Start("errcode") && toks[i] != Start("errtext")
    ensures HasFailureCode(toks) ==> HasFailureCode(toks[k..])
    ensures HasErrText(toks) ==> HasErrText(toks[k..])
    ensures forall m :: IsErrText(toks, m) ==> IsErrText(toks[k..], m)
  {
    var t := toks[k..];
    if HasFailureCode(toks) {
      var i :| 0 <= i < |toks| - 1 && toks[i] == Start("errcode") && toks[i + 1].CharData? && toks[i + 1].text != "0";
      assert toks[i] == t[i - k] && toks[i + 1] == t[i - k + 1];
    }
    if HasErrText(toks) {
      var i :| 0 <= i < |toks| && toks[i] == Start("errtext");
      assert toks[i] == t[i - k];
    }
    forall m | IsErrText(toks, m) ensures IsErrText(t, m) {
      var i :| 0 <= i < |toks| - 1 && toks[i] == Start("errtext") && toks[i + 1] == CharData(m);
      assert toks[i] == t[i - k] && toks[i + 1] == t[i - k + 1];
    }
  }

  /** How a status tag and its payload at the front of the envelope contribute to the status facts. */
  lemma StatusTagFacts(toks: seq<Token>)
    requires |toks| >= 2 && toks[1].CharData?
    requires toks[0] == Start("errcode") || toks[0] == Start("errtext")
    ensures HasFailureCode(toks)
        <==> (toks[0] == Start("errcode") && toks[1].text != "0") || HasFailureCode(toks[2..])
    ensures HasErrText(toks) <==> toks[0] == Start("errtext") || HasErrText(toks[2..])
    ensures forall m :: (IsErrText(toks, m)
                         <==> (toks[0] == Start("errtext") && toks[1] == CharData(m)) || IsErrText(toks[2..], m))
  {
    SuffixFacts(toks, 2);
    var t := toks[2..];
    if HasFailureCode(toks) && !(toks[0] == Start("errcode") && toks[1].text != "0") {
      var i :| 0 <= i < |toks| - 1 && toks[i] == Start("errcode") && toks[i + 1].CharData? && toks[i + 1].text != "0";
      assert i >= 2;
      assert toks[i] == t[i - 2] && toks[i + 1] == t[i - 1];
    }
    if HasErrText(toks) && toks[0] != Start("errtext") {
      var i :| 0 <= i < |toks| && toks[i] == Start("errtext");
      assert i >= 2;
      assert toks[i] == t[i - 2];
    }
    forall m | IsErrText(toks, m) && !(toks[0] == Start("errtext") && toks[1] == CharData(m))
      ensures IsErrText(t, m)
    {
      var i :| 0 <= i < |toks| - 1 && toks[i] == Start("errtext") && toks[i + 1] == CharData(m);
      assert i >= 2;
      assert toks[i] == t[i - 2] && toks[i + 1] == t[i - 1];
    }
    if toks[0] == Start("errcode") && toks[1].text != "0" {
      assert HasFailureCode(toks) by {
        assert 0 < |toks| - 1;
      }
    }
    if toks[0] == Start("errtext") {
      assert HasErrText(toks);
      assert IsErrText(toks, toks[1].text);
    }
  }

  /**
   The status verdict, whatever the order of `errcode` and `errtext`: the call fails
   exactly when a code other than "0" and an error text have both been seen before the
   first record, and then with an error text as message; otherwise the status part
   leaves no trace and the stream (or the zero-row panic) follows.
   */
  lemma {:induction false} EnvelopeVerdict(mid: seq<Token>, rest: seq<Token>, failing: bool, text: string)
    requires StatusPayloads(mid)
    requires rest == [] || rest[0] == Start("record")
    requires !(failing && text != "")
    ensures Envelope(mid + rest, failing, text).Failed?
        <==> (failing || HasFailureCode(mid)) && (text != "" || HasErrText(mid))
    ensures Envelope(mid + rest, failing, text).Failed? ==>
              var e := Envelope(mid + rest, failing, text).error;
              e.ApiError? && ((e.text == text && text != "") || IsErrText(mid, e.text))
    ensures !Envelope(mid + rest, failing, text).Failed? ==> Envelope(mid + rest, failing, text) == AfterEnvelope(rest)
    decreases |mid|, 1
  {
    var toks := mid + rest;
    if mid == [] {
      assert toks == rest;
    } else if mid[0] == Start("errcode") {
      CodeVerdict(mid, rest, failing, text);
    } else if mid[0] == Start("errtext") {
      TextVerdict(mid, rest, failing, text);
    } else {
      SkipVerdict(mid, rest, failing, text);
    }
  }

  /** The verdict when the status part opens with any other token: it is skipped. */
  lemma {:induction false} SkipVerdict(mid: seq<Token>, rest: seq<Token>, failing: bool, text: string)
    requires StatusPayloads(mid) && mid != [] && mid[0] != Start("errcode") && mid[0] != Start("errtext")
    requires rest == [] || rest[0] == Start("record")
    requires !(failing && text != "")
    ensures Verdict(mid, rest, failing, text)
    decreases |mid|, 0
  {
    var toks := mid + rest;
    assert toks[0] == mid[0] && toks[1..] == mid[1..] + rest;
    assert StatusTagAt(mid, 0);
    assert Envelope(toks, failing, text) == Envelope(mid[1..] + rest, failing, text);
    SkipFacts(mid);
    EnvelopeVerdict(mid[1..], rest, failing, text);
  }

  /** A leading token other than a status tag adds nothing to the status facts. */
  lemma SkipFacts(mid: seq<Token>)
    requires mid != [] && mid[0] != Start("errcode") && mid[0] != Start("errtext")
    ensures StatusPayloads(mid) ==> StatusPayloads(mid[1..])
    ensures HasFailureCode(mid) <==> HasFailureCode(mid[1..])
    ensures HasErrText(mid) <==> HasErrText(mid[1..])
    ensures forall m :: IsErrText(mid, m) <==> IsErrText(mid[1..], m)
  {
    SuffixFacts(mid, 1);
    PrefixFacts(mid, 1);
  }

  /**
   An empty errtext, which only an empty CDATA section can give, makes the verdict
   depend on order: before a failing errcode it is not remembered as a message and
   the error is lost; after it, the call fails with an empty message.
   */
  lemma EmptyErrTextOrderMatters()
    ensures Envelope([Start("errtext"), CharData(""), End("errtext"), Start("errcode"), CharData("5"), End("errcode"),
                      Start("record"), End("qdbapi")], false, "")
         == Streamed([], false)
    ensures Envelope([Start("errcode"), CharData("5"), End("errcode"), Start("errtext"), CharData(""), End("errtext"),
                      Start("record"), End("qdbapi")], false, "")
         == Failed(ApiError(""))
  {
    var tail := [Start("record"), End("qdbapi")];
    assert Records(tail[1..], FirstRecord) == Stream([], false);
  }

  /** The envelope verdict for one status part followed by `rest`, as one predicate. */
  predicate Verdict(mid: seq<Token>, rest: seq<Token>, failing: bool, text: string) {
    var o := Envelope(mid + rest, failing, text);
    && (o.Failed? <==> (failing || HasFailureCode(mid)) && (text != "" || HasErrText(mid)))
    && (o.Failed? ==> o.error.ApiError? && ((o.error.text == text && text != "") || IsErrText(mid, o.error.text)))
    && (!o.Failed? ==> o == AfterEnvelope(rest))
  }

  /** The verdict when the status part opens with `errcode`. */
  lemma {:induction false} CodeVerdict(mid: seq<Token>, rest: seq<Token>, failing: bool, text: string)
    requires StatusPayloads(mid) && mid != [] && mid[0] == Start("errcode")
    requires rest == [] || rest[0] == Start("record")
    requires !(failing && text != "")
    ensures Verdict(mid, rest, failing, text)
    decreases |mid|, 0
  {
    var toks := mid + rest;
    assert StatusTagAt(mid, 0);
    assert toks[0] == mid[0] && toks[1] == mid[1] && toks[2..] == mid[2..] + rest;
    SuffixFacts(mid, 2);
    StatusTagFacts(mid);
    if mid[1].text != "0" {
      if text == "" {
        EnvelopeVerdict(mid[2..], rest, true, text);
      }
    } else {
      EnvelopeVerdict(mid[2..], rest, failing, text);
    }
  }

  /** The verdict when the status part opens with `errtext`. */
  lemma {:induction false} TextVerdict(mid: seq<Token>, rest: seq<Token>, failing: bool, text: string)
    requires StatusPayloads(mid) && mid != [] && mid[0] == Start("errtext")
    requires rest == [] || rest[0] == Start("record")
    requires !(failing && text != "")
    ensures Verdict(mid, rest, failing, text)
    decreases |mid|, 0
  {
    var toks := mid + rest;
    assert StatusTagAt(mid, 0);
    assert toks[0] == mid[0] && toks[1] == mid[1] && toks[2..] == mid[2..] + rest;
    SuffixFacts(mid, 2);
    StatusTagFacts(mid);
    if !failing {
      EnvelopeVerdict(mid[2..], rest, failing, mid[1].text);
    }
  }

  // ---------------------------------------------------------------------------
  // The record phase
  // ---------------------------------------------------------------------------

  /** The goroutine's state after the first `k` tokens, had nothing closed the channel. */
  function After(toks: seq<Token>, c: Cursor, k: nat): Cursor
    requires k <= |toks|
  {
    if k == 0 then c else Step(After(toks, c, k - 1), toks[k - 1])
  }

  /** The map sent at each emitting token among the first `n`, in stream order. */
  function Snapshots(toks: seq<Token>, c: Cursor, n: nat): seq<Record>
    requires n <= |toks|
  {
    if n == 0 then []
    else
      var a := After(toks, c, n - 1);
      Snapshots(toks, c, n - 1) + (if Emits(a, toks[n - 1]) then [a.rec] else [])
  }

  /** The position of the first closing token at or after `from`, or `|toks|` if there is none. */
  function FirstClose(toks: seq<Token>, c: Cursor, from: nat): (n: nat)
    requires from <= |toks|
    ensures from <= n <= |toks|
    ensures forall k :: from <= k < n ==> !Closes(After(toks, c, k), toks[k])
    ensures n < |toks| ==> Closes(After(toks, c, n), toks[n])
    decreases |toks| - from
  {
    if from == |toks| then from
    else if Closes(After(toks, c, from), toks[from]) then from
    else FirstClose(toks, c, from + 1)
  }

  lemma {:induction false} RecordsFrom(toks: seq<Token>, c: Cursor, n: nat)
    requires n <= |toks|
    requires forall k :: 0 <= k < n ==> !Closes(After(toks, c, k), toks[k])
    ensures Records(toks, c).emitted == Snapshots(toks, c, n) + Records(toks[n..], After(toks, c, n)).emitted
    ensures Records(toks, c).closed == Records(toks[n..], After(toks, c, n)).closed
  {
    if n == 0 {
      assert toks[0..] == toks;
    } else {
      RecordsFrom(toks, c, n - 1);
      var a := After(toks, c, n - 1);
      var u := toks[n - 1..];
      assert u[0] == toks[n - 1] && u[1..] == toks[n..];
      assert !Closes(a, u[0]);
    }
  }

  /**
   The stream the consumer sees: the map as it stood at every `record` end tag inside
   a record, in stream order, up to the first closing token and none after it; the
   channel is closed exactly when such a closing token occurs.
   */
  lemma StreamedInOrder(toks: seq<Token>, c: Cursor)
    ensures var n := FirstClose(toks, c, 0);
            Records(toks, c) == Stream(Snapshots(toks, c, n), n < |toks|)
  {
    var n := FirstClose(toks, c, 0);
    RecordsFrom(toks, c, n);
    var u := toks[n..];
    if n < |toks| {
      assert u[0] == toks[n];
    } else {
      assert u == [];
    }
  }

  /** The channel is closed iff some token met outside a record is a non-`record` start tag or the `qdbapi` end tag. */
  lemma ClosedIff(toks: seq<Token>, c: Cursor)
    ensures Records(toks, c).closed <==> exists k :: 0 <= k < |toks| && Closes(After(toks, c, k), toks[k])
  {
    StreamedInOrder(toks, c);
  }

  predicate KeysGrow(base: Record, e: seq<Record>) {
    && (forall j :: 0 <= j < |e| ==> base.Keys <= e[j].Keys)
    && (forall j, k :: 0 <= j <= k < |e| ==> e[j].Keys <= e[k].Keys)
  }

  /** Keys are only ever added to the map: a field stored once is in every later send. */
  lemma {:induction false} KeysPersist(toks: seq<Token>, c: Cursor)
    ensures KeysGrow(c.rec, Records(toks, c).emitted)
    decreases |toks|
  {
    if toks != [] && !Closes(c, toks[0]) {
      var c' := Step(c, toks[0]);
      assert c.rec.Keys <= c'.rec.Keys;
      KeysPersist(toks[1..], c');
      var rest := Records(toks[1..], c').emitted;
      assert forall j :: 0 <= j < |rest| ==> c'.rec.Keys <= rest[j].Keys;
      assert forall j, k :: 0 <= j <= k < |rest| ==> rest[j].Keys <= rest[k].Keys;
      var e := Records(toks, c).emitted;
      if Emits(c, toks[0]) {
        assert e == [c.rec] + rest;
        assert c'.rec == c.rec;
        forall j | 0 <= j < |e| ensures c.rec.Keys <= e[j].Keys {
          if j > 0 {
            assert e[j] == rest[j - 1];
          }
        }
        forall j, k | 0 <= j <= k < |e| ensures e[j].Keys <= e[k].Keys {
          if j > 0 {
            assert e[j] == rest[j - 1] && e[k] == rest[k - 1];
          } else if k > 0 {
            assert e[k] == rest[k - 1];
            assert c.rec.Keys <= rest[k - 1].Keys;
          }
        }
      } else {
        assert e == rest;
        forall j | 0 <= j < |e| ensures c.rec.Keys <= e[j].Keys {
          assert c'.rec.Keys <= rest[j].Keys;
        }
      }
    }
  }

  /**
   A multi-line field (text, a `BR` element, text) is not reassembled by the stream:
   the `BR` tag takes over as field name and the trailing text lands under "".
   */
  lemma LineBreakSplitsField()
    ensures Records([Start("f"), CharData("a"), Start("BR"), End("BR"), CharData("b"), End("f"), End("record"), End("qdbapi")], FirstRecord)
         == Stream([map["BR" := "", "" := "b"]], true)
  {
    var toks := [Start("f"), CharData("a"), Start("BR"), End("BR"), CharData("b"), End("f"), End("record"), End("qdbapi")];
    var m := map["BR" := "", "" := "b"];
    assert Records(toks[7..], Cursor(m, "", "b", false)) == Stream([], true);
    assert Records(toks[6..], Cursor(m, "", "b", true)) == Stream([m], true);
    assert Records(toks[5..], Cursor(map["BR" := ""], "", "b", true)) == Stream([m], true);
    assert "" + "b" == "b";
    assert Records(toks[4..], Cursor(map["BR" := ""], "", "", true)) == Stream([m], true);
    assert Records(toks[3..], Cursor(map[], "BR", "", true)) == Stream([m], true);
    assert Records(toks[1..], Cursor(map[], "f", "", true)) == Stream([m], true);
  }
}
