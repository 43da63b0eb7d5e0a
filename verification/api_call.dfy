/**
 The shared request/response plumbing of `executeApiCall` (quickbase.go): the
 parameter map becomes one envelope child per key, and the response status
 decides between the document, a `QuickBaseError` and a number-parse error.
 */
module ApiCall {
  import opened Wrappers
  import opened Strconv

  /** One child element of the request envelope, `<key>value</key>`. */
  datatype ApiParam = ApiParam(key: string, value: string)

  /** The API's own error: errtext and the numeric errcode. */
  datatype QuickBaseError = QuickBaseError(message: string, code: int)

  datatype CallError =
    | Transport(reason: string)       // the HTTP request could not be made or answered
    | Malformed(reason: string)       // the response body is not XML
    | Api(error: QuickBaseError)
    | BadCode(num: NumError)          // errcode is not a decimal integer

  /** The parsed response as the client reads it: the status pair and the text of other named elements. */
  datatype Doc = Doc(errcode: string, errtext: string, values: map<string, string>)

  datatype Reply = TransportFailed(reason: string) | Unparsable(reason: string) | Parsed(doc: Doc)

  /** The parameters an envelope carries, read back element by element. */
  function ParamsToMap(ps: seq<ApiParam>): map<string, string>
    decreases |ps|
  {
    if ps == [] then map[] else ParamsToMap(ps[..|ps| - 1])[ps[|ps| - 1].key := ps[|ps| - 1].value]
  }

  predicate DistinctKeys(ps: seq<ApiParam>) {
    forall i, j :: 0 <= i < j < |ps| ==> ps[i].key != ps[j].key
  }

  /**
   The parameter list built from the map (lines 92-101, repeated at 140-149 and
   425-430): Go ranges over a map in no fixed order, so any order may come out,
   but every key appears exactly once with its value.
   */
  method ParamList(params: map<string, string>) returns (ps: seq<ApiParam>)
    ensures |ps| == |params|
    ensures DistinctKeys(ps)
    ensures forall i :: 0 <= i < |ps| ==> ps[i].key in params && ps[i].value == params[ps[i].key]
    ensures ParamsToMap(ps) == params
  {
    var left := params.Keys;
    ps := [];
    while left != {}
      invariant left <= params.Keys
      invariant |ps| + |left| == |params|
      invariant DistinctKeys(ps)
      invariant forall i :: 0 <= i < |ps| ==> ps[i].key in params && ps[i].key !in left && ps[i].value == params[ps[i].key]
      invariant ParamsToMap(ps) == map k | k in params && k !in left :: params[k]
      decreases left
    {
      var k :| k in left;
      var before := ps;
      ps := ps + [ApiParam(k, params[k])];
      left := left - {k};
      // Reading the envelope back sees the earlier elements, then the new one.
      assert ps[..|ps| - 1] == before;
    }
    assert params.Keys - {} == params.Keys;
    assert |params.Keys| == |params|;
  }

  /** The status check of lines 127-134: anything but exactly "0" is an error. */
  function CheckStatus(errcode: string, errtext: string): (r: Option<CallError>)
    ensures r.None? <==> errcode == "0"
    ensures r.Some? ==> r.value.Api? || r.value.BadCode?
    ensures r.Some? && r.value.Api? ==> r.value.error.message == errtext && Atoi(errcode) == Ok(r.value.error.code)
    ensures r.Some? && r.value.BadCode? ==> Atoi(errcode) == Err(r.value.num)
  {
    if errcode == "0" then None
    else match Atoi(errcode)
      case Err(e) => Some(BadCode(e))
      case Ok(code) => Some(Api(QuickBaseError(errtext, code)))
  }

  /** `executeApiCall` after the request has gone out: the reply becomes the document or an error. */
  function ExecuteApiCall(reply: Reply): (r: Result<Doc, CallError>)
    ensures r.Ok? <==> reply.Parsed? && reply.doc.errcode == "0"
    ensures r.Ok? ==> r.value == reply.doc
    ensures reply.TransportFailed? ==> r == Err(Transport(reply.reason))
    ensures reply.Unparsable? ==> r == Err(Malformed(reply.reason))
    ensures reply.Parsed? && reply.doc.errcode != "0" ==> r == Err(CheckStatus(reply.doc.errcode, reply.doc.errtext).value)
  {
    match reply
    case TransportFailed(why) => Err(Transport(why))
    case Unparsable(why) => Err(Malformed(why))
    case Parsed(doc) =>
      match CheckStatus(doc.errcode, doc.errtext)
      case None => Ok(doc)
      case Some(e) => Err(e)
  }

  /** A non-zero code written in decimal comes back as that code, with the error text as message. */
  lemma StatusCodeRoundTrip(code: int, text: string)
    requires IsInt64(code) && code != 0
    ensures CheckStatus(Itoa(code), text) == Some(Api(QuickBaseError(text, code)))
  {
    ParseItoa("Atoi", code);
  }

  /** Only the exact string "0" means success: "00" is an API error whose code is 0. */
  lemma ZeroPaddedCodeFails(text: string)
    ensures CheckStatus("00", text) == Some(Api(QuickBaseError(text, 0)))
  {
    ParseAcceptsDigits("Atoi", "", "00");
    assert "" + "00" == "00";
  }

  /**
   A code whose digits, after an optional sign, meet a non-digit before they
   overflow fails with the parse error instead of a `QuickBaseError`.
   */
  lemma NonNumericCode(sign: string, body: string, text: string, i: nat)
    requires sign == "" || sign == "+" || sign == "-"
    requires i < |body| && !IsDigit(body[i]) && AllDigits(body[..i])
    requires sign == "" ==> body[0] != '+' && body[0] != '-'
    requires Value(0, body[..i]) <= MaxUint64
    ensures CheckStatus(sign + body, text) == Some(BadCode(NumError("Atoi", sign + body, InvalidSyntax)))
  {
    ScanRejectsNonDigit(0, body, i);
    if sign == "" {
      assert sign + body == body;
    } else {
      assert (sign + body)[1..] == body;
    }
  }
}
