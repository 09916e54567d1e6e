/**
 * The decision part of Handler.do_GET: the content-type check, the
 * amount check, and the reply that follows from them and from the rate
 * fetch. The HTTP plumbing (status line, headers, body stream) is reduced
 * to the status that is sent and the JSON object that is written.
 */
module Handler {
  import opened Wrappers
  import opened Json
  import opened RateFetcher

  const JsonMediaType: string := "application/json"
  const UnsupportedMediaTypeMessage: string := "Unsupported Media Type"
  const BadRequestMessage: string := "Bad Request"
  const UsdKey: string := "usd"

  /** What a request without a "usd" key is read as: the string '0', not a number. */
  const UsdDefault: Json := JString("0")

  function Pow2(n: nat): nat
  {
    if n == 0 then 1 else 2 * Pow2(n - 1)
  }

  /**
   * float() of an int raises OverflowError from this magnitude on: it is halfway
   * between the largest double, 2^1024 - 2^971, and 2^1024, and ties round
   * to the even neighbour 2^1024, which is out of range (and likewise for
   * negative ints).
   */
  const FloatOverflowBound: int := Pow2(1024) - Pow2(970)

  lemma {:induction false} Pow2Doubles(a: nat, b: nat)
    requires a < b
    ensures Pow2(b) >= 2 * Pow2(a)
    decreases b - a
  {
    if b > a + 1 {
      Pow2Doubles(a, b - 1);
    }
  }

  lemma {:induction false} Pow2Exceeds(n: nat)
    ensures Pow2(n) > n
  {
    if n > 0 {
      Pow2Exceeds(n - 1);
    }
  }

  /** Every int a JSON body can reasonably carry converts; only enormous ones overflow. */
  lemma FloatOverflowBoundIsLarge()
    ensures FloatOverflowBound >= Pow2(970) > 970
  {
    Pow2Doubles(970, 1024);
    Pow2Exceeds(970);
  }

  /** The request body: decoded by json.loads, or not decodable (a raised exception). */
  datatype Body = Parsed(value: Json) | Malformed

  /** Exceptions that escape do_GET. */
  datatype Failure =
    | BodyNotJson            // json.loads (or reading Content-Length) raised
    | NotADict               // AttributeError: the decoded body has no .get
    | IntTooLarge            // OverflowError from float(usd)
    | RateFailed(cause: RateError)  // get_usd_rate raised

  /** What do_GET decides before it fetches the rate. */
  datatype Decision =
    | RejectMediaType
    | RejectAmount
    | Accept(usd: Float)
    | Raise(failure: Failure)

  /**
   * What the client sees: a complete response, or an exception that ended
   * the handler, possibly after a status line was already sent.
   */
  datatype Reply =
    | Responded(status: int, body: Json)
    | Aborted(statusSent: Option<int>, failure: Failure)

  /** The status line that went out, if any. */
  function StatusSent(r: Reply): Option<int>
  {
    match r
    case Responded(status, _) => Some(status)
    case Aborted(sent, _) => sent
  }

  /** isinstance(v, float) or isinstance(v, int); a bool is an int in Python. */
  predicate IsNumber(v: Json)
  {
    v.JBool? || v.JInt? || v.JFloat?
  }

  /** v >= 0 for a Python number. */
  predicate AtLeastZero(v: Json)
    requires IsNumber(v)
  {
    match v
    case JBool(_) => true
    case JInt(i) => i >= 0
    case JFloat(f) =>
      match f
      case Finite(x) => x >= 0.0
      case Infinity => true
      case NegInfinity => false
      case NaN => false
  }

  /** The amount check of do_GET. */
  predicate AcceptableAmount(v: Json)
  {
    IsNumber(v) && AtLeastZero(v)
  }

  /**
   * float(v) for a Python number: only an int too large in magnitude for
   * a double fails, an int keeps its value, and the result passes the ">= 0" test
   * exactly when v did.
   */
  function ToFloat(v: Json): (r: Result<Float, Failure>)
    requires IsNumber(v)
    ensures r.Err? <==> v.JInt? && (v.i >= FloatOverflowBound || v.i <= -FloatOverflowBound)
    ensures r.Err? ==> r.error == IntTooLarge
    ensures r.Ok? && v.JInt? ==> r.value == Finite(v.i as real)
    ensures r.Ok? ==> (AtLeastZero(v) <==> (r.value.Finite? && r.value.value >= 0.0) || r.value.Infinity?)
  {
    match v
    case JBool(b) => Ok(Finite(if b then 1.0 else 0.0))
    case JInt(i) =>
      if i >= FloatOverflowBound || i <= -FloatOverflowBound then Err(IntTooLarge) else Ok(Finite(i as real))
    case JFloat(f) => Ok(f)
  }

  /** The amount do_GET examines: the "usd" entry, or the default. */
  function Amount(fields: map<string, Json>): Json
  {
    Get(fields, UsdKey, UsdDefault)
  }

  function ErrorBody(message: string): Json
  {
    JObject(map["error" := JString(message)])
  }

  /** The 200 body; the "rub" entry is not modelled (floating-point rounding). */
  function ConversionBody(usd: Float, rate: Decimal): Json
  {
    JObject(map["currency" := JString("usd"), "usd" := JFloat(usd),
                "rub/usd" := JFloat(Finite(DecimalValue(rate)))])
  }

  /**
   * The checks of do_GET in their order: the content type, then the body
   * (JSON, then a dict), then the amount; an accepted amount is converted
   * by float().
   */
  function Classify(contentType: Option<string>, body: Body): (d: Decision)
    ensures d.RejectMediaType? <==> contentType != Some(JsonMediaType)
    ensures d == Raise(BodyNotJson) <==> contentType == Some(JsonMediaType) && body.Malformed?
    ensures d == Raise(NotADict) <==>
              contentType == Some(JsonMediaType) && body.Parsed? && !body.value.JObject?
    ensures d.RejectAmount? <==>
              contentType == Some(JsonMediaType) && body.Parsed? && body.value.JObject? &&
              !AcceptableAmount(Amount(body.value.fields))
    ensures d == Raise(IntTooLarge) <==>
              contentType == Some(JsonMediaType) && body.Parsed? && body.value.JObject? &&
              AcceptableAmount(Amount(body.value.fields)) && ToFloat(Amount(body.value.fields)).Err?
    ensures d.Accept? ==>
              body.Parsed? && body.value.JObject? && AcceptableAmount(Amount(body.value.fields)) &&
              ToFloat(Amount(body.value.fields)) == Ok(d.usd)
    ensures d.Raise? ==> !d.failure.RateFailed?
  {
    if contentType != Some(JsonMediaType) then RejectMediaType
    else match body
      case Malformed => Raise(BodyNotJson)
      case Parsed(j) =>
        if !j.JObject? then Raise(NotADict)
        else
          var usd := Amount(j.fields);
          if AcceptableAmount(usd) then
            match ToFloat(usd)
            case Ok(f) => Accept(f)
            case Err(e) => Raise(e)
          else RejectAmount
  }

  /** Status 200 is sent first; only then is the rate fetched. */
  function Serve(usd: Float, page: Fetch): (r: Reply)
    ensures StatusSent(r) == Some(200)
    ensures r.Responded? <==> GetUsdRate(page).Ok?
    ensures r.Aborted? ==> r.failure.RateFailed?
  {
    match GetUsdRate(page)
    case Ok(rate) => Responded(200, ConversionBody(usd, rate))
    case Err(e) => Aborted(Some(200), RateFailed(e))
  }

  /**
   * do_GET for one request: 415 and 400 carry an error body, an accepted
   * amount is served, and an exception in the checks ends the handler
   * before any status is sent.
   */
  function Handle(contentType: Option<string>, body: Body, page: Fetch): (r: Reply)
    ensures StatusSent(r) == Some(415) <==> Classify(contentType, body).RejectMediaType?
    ensures StatusSent(r) == Some(400) <==> Classify(contentType, body).RejectAmount?
    ensures StatusSent(r) == Some(200) <==> Classify(contentType, body).Accept?
    ensures StatusSent(r).None? <==> Classify(contentType, body).Raise?
    ensures r.Responded? && r.status != 200 ==>
              r.body == ErrorBody(if r.status == 415 then UnsupportedMediaTypeMessage else BadRequestMessage)
  {
    match Classify(contentType, body)
    case RejectMediaType => Responded(415, ErrorBody(UnsupportedMediaTypeMessage))
    case RejectAmount => Responded(400, ErrorBody(BadRequestMessage))
    case Accept(usd) => Serve(usd, page)
    case Raise(f) => Aborted(None, f)
  }

  // ---------------------------------------------------------------------
  // Properties

  /**
   * Any content type other than exactly application/json, or none, gives
   * 415, whatever the body and the page are.
   */
  lemma MediaTypeCheckedFirst(contentType: Option<string>, body: Body, page: Fetch, body': Body, page': Fetch)
    requires contentType != Some(JsonMediaType)
    ensures Handle(contentType, body, page) == Responded(415, ErrorBody(UnsupportedMediaTypeMessage))
    ensures Handle(contentType, body, page) == Handle(contentType, body', page')
  {
  }

  /** An int amount: 400 below zero, served from zero on, OverflowError past the float range. */
  lemma IntAmount(fields: map<string, Json>, i: int, page: Fetch)
    requires UsdKey in fields && fields[UsdKey] == JInt(i)
    ensures var r := Handle(Some(JsonMediaType), Parsed(JObject(fields)), page);
      && (i < 0 ==> r == Responded(400, ErrorBody(BadRequestMessage)))
      && (0 <= i < FloatOverflowBound ==> r == Serve(Finite(i as real), page))
      && (i >= FloatOverflowBound ==> r == Aborted(None, IntTooLarge))
  {
    FloatOverflowBoundIsLarge();
  }

  /** A float amount is served unchanged when >= 0 (infinity included); negative or NaN gives 400. */
  lemma FloatAmount(fields: map<string, Json>, f: Float, page: Fetch)
    requires UsdKey in fields && fields[UsdKey] == JFloat(f)
    ensures var r := Handle(Some(JsonMediaType), Parsed(JObject(fields)), page);
      && ((f.Finite? && f.value >= 0.0) || f.Infinity? ==> r == Serve(f, page))
      && ((f.Finite? && f.value < 0.0) || f.NegInfinity? || f.NaN? ==>
            r == Responded(400, ErrorBody(BadRequestMessage)))
  {
  }

  /** true is served as 1.0 and false as 0.0. */
  lemma BoolAmount(fields: map<string, Json>, b: bool, page: Fetch)
    requires UsdKey in fields && fields[UsdKey] == JBool(b)
    ensures Handle(Some(JsonMediaType), Parsed(JObject(fields)), page) ==
            Serve(Finite(if b then 1.0 else 0.0), page)
  {
  }

  /** A missing amount, or one that is null, a string, a list or an object, gives 400. */
  lemma NonNumberAmountRejected(fields: map<string, Json>, page: Fetch)
    requires UsdKey !in fields || fields[UsdKey].JNull? || fields[UsdKey].JString? ||
             fields[UsdKey].JArray? || fields[UsdKey].JObject?
    ensures Handle(Some(JsonMediaType), Parsed(JObject(fields)), page) ==
            Responded(400, ErrorBody(BadRequestMessage))
  {
  }

  /** A body that is not a JSON object, or not JSON at all, ends do_GET with nothing sent. */
  lemma NonObjectBodyRaises(body: Body, page: Fetch)
    requires body.Malformed? || !body.value.JObject?
    ensures Handle(Some(JsonMediaType), body, page) ==
            Aborted(None, if body.Malformed? then BodyNotJson else NotADict)
  {
  }

  /** When accepted, the reply carries the amount and the rate, or the rate failure after 200. */
  lemma ServeSpec(usd: Float, page: Fetch)
    ensures StatusSent(Serve(usd, page)) == Some(200)
    ensures GetUsdRate(page).Ok? ==>
      Serve(usd, page).Responded? &&
      var body := Serve(usd, page).body;
      body.JObject? && body.fields.Keys == {"currency", "usd", "rub/usd"} &&
      body.fields["currency"] == JString("usd") && body.fields["usd"] == JFloat(usd) &&
      body.fields["rub/usd"] == JFloat(Finite(DecimalValue(GetUsdRate(page).value)))
    ensures GetUsdRate(page).Err? ==> Serve(usd, page) == Aborted(Some(200), RateFailed(GetUsdRate(page).error))
  {
  }

  /**
   * Every request ends in exactly one of: a 415, a 400, a 200 status, or an
   * exception before any status; and each status goes with its conditions.
   */
  lemma StatusPartition(contentType: Option<string>, body: Body, page: Fetch)
    ensures var r := Handle(contentType, body, page);
      var jsonType := contentType == Some(JsonMediaType);
      var isObject := body.Parsed? && body.value.JObject?;
      && (StatusSent(r) == Some(415) <==> !jsonType)
      && (StatusSent(r) == Some(400) <==> jsonType && isObject && !AcceptableAmount(Amount(body.value.fields)))
      && (StatusSent(r) == Some(200) <==> jsonType && isObject && AcceptableAmount(Amount(body.value.fields)) &&
                                          ToFloat(Amount(body.value.fields)).Ok?)
      && (StatusSent(r).None? <==> jsonType && (!isObject || (AcceptableAmount(Amount(body.value.fields)) &&
                                                            ToFloat(Amount(body.value.fields)).Err?)))
      && (r.Responded? ==> r.status == 200 || r.status == 400 || r.status == 415)
  {
  }

  /** The page is consulted only once a 200 was sent. */
  lemma RateReadOnlyAfterAccept(contentType: Option<string>, body: Body, page: Fetch, page': Fetch)
    requires StatusSent(Handle(contentType, body, page)) != Some(200)
    ensures Handle(contentType, body, page) == Handle(contentType, body, page')
  {
  }

  /** The three request scenarios of the server's tests, with a fixed page. */
  lemma TestScenarios(page: string, first: string, tail: string)
    requires AllRateChars(first) && (tail == [] || !IsRateChar(tail[0]))
    requires page == Prefix + first + Prefix + "73,3092" + tail
    ensures Handle(Some(JsonMediaType), Parsed(JObject(map[UsdKey := JInt(-10)])), Fetched(page)) ==
            Responded(400, ErrorBody(BadRequestMessage))
    ensures Handle(None, Malformed, Fetched(page)) ==
            Responded(415, ErrorBody(UnsupportedMediaTypeMessage))
    ensures Handle(Some("text/plain"), Parsed(JObject(map[UsdKey := JInt(10)])), Fetched(page)) ==
            Responded(415, ErrorBody(UnsupportedMediaTypeMessage))
    ensures Handle(Some(JsonMediaType), Parsed(JObject(map[UsdKey := JInt(10)])), Fetched(page)) ==
            Responded(200, ConversionBody(Finite(10.0), Decimal(733092, 4)))
  {
    RateOfSamplePage(page, first, "73,3092", tail);
    FloatOverflowBoundIsLarge();
  }
}
