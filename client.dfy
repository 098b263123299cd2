/**
 * The command-line prediction client: it loads a request body (a file or
 * the built-in sample), posts it, formats the prediction as dollars and
 * turns each kind of failure into its own exit code.
 *
 * The network exchange and the reading of the input file are inputs: the
 * model receives what `session.post` and `json.load` produced.
 */
module Client {
  import opened Wrappers
  import opened Json
  import Currency
  import Reals
  import FeatureContract

  /** The built-in request body, used when no input file is named. */
  const SampleData: map<string, Value> := map[
    "MedInc" := Float(4.8036),
    "HouseAge" := Float(4.0),
    "AveRooms" := Float(3.9246575342465753),
    "AveBedrms" := Float(1.0359589041095891),
    "Population" := Float(1050.0),
    "AveOccup" := Float(1.797945205479452),
    "Latitude" := Float(37.39),
    "Longitude" := Float(-122.08),
    "RoomsPerHousehold" := Float(2.182857142857143)
  ]

  lemma SampleDataHasTheFeatureKeys()
    ensures SampleData.Keys == set k | k in FeatureContract.Features
    ensures forall k :: k in SampleData ==> SampleData[k].Float?
  {
  }

  // ---------------------------------------------------------------- input

  /** What opening and decoding the named JSON file produced. */
  datatype FileRead =
    | OpenFailed(msg: string)
    | DecodeFailed(msg: string)
    | Decoded(data: Value)

  const NotAnObject: string := "Input JSON must be an object/dictionary"

  /**
   * The request body: the sample when no path or an empty one is given,
   * otherwise the file's top-level object; anything else is an error
   * carrying the message of the exception raised.
   */
  function LoadInput(path: Option<string>, file: FileRead): (r: Result<map<string, Value>, string>)
    ensures (path == None || path == Some("")) ==> r == Success(SampleData)
    ensures path != None && path != Some("") ==>
      && (r.Success? <==> file.Decoded? && file.data.Object?)
      && (r.Success? ==> file == Decoded(Object(r.value)))
      && (file.Decoded? && !file.data.Object? ==> r == Failure(NotAnObject))
      && (file.OpenFailed? || file.DecodeFailed? ==> r == Failure(file.msg))
  {
    if path == None || path == Some("") then Success(SampleData)
    else
      match file
      case OpenFailed(msg) => Failure(msg)
      case DecodeFailed(msg) => Failure(msg)
      case Decoded(data) => if data.Object? then Success(data.fields) else Failure(NotAnObject)
  }

  // -------------------------------------------------------------- request

  /**
   * The exceptions `session.post` raises, with the class hierarchy of the
   * requests library: ProxyError and SSLError are ConnectionErrors,
   * ReadTimeout is a Timeout, and ConnectTimeout is both.
   */
  datatype RequestError =
    | ConnectionRefused(msg: string)
    | ProxyError(msg: string)
    | SslError(msg: string)
    | ConnectTimeout(msg: string)
    | ReadTimeout(msg: string)
    | TooManyRedirects(msg: string)
    | InvalidUrl(msg: string)
    | OtherRequestError(msg: string)

  predicate IsConnectionError(e: RequestError)
  {
    e.ConnectionRefused? || e.ProxyError? || e.SslError? || e.ConnectTimeout?
  }

  predicate IsTimeout(e: RequestError)
  {
    e.ConnectTimeout? || e.ReadTimeout?
  }

  /** The response body, as `resp.json()` sees it. */
  datatype Body = JsonBody(value: Value) | NotJson

  /** What posting the request body produced. */
  datatype Exchange =
    | TransportFailed(error: RequestError)
    | Received(status: nat, reason: string, url: string, body: Body)

  /** The exceptions `predict` lets escape. */
  datatype PredictError =
    | RequestFailed(error: RequestError)
    | HttpError(status: nat, reason: string, url: string)
    | InvalidJson

  /** The statuses `raise_for_status` rejects. */
  predicate IsErrorStatus(status: nat)
  {
    400 <= status < 600
  }

  /** `predict`: the decoded body of a response whose status is not an error. */
  function Predict(exchange: Exchange): (r: Result<Value, PredictError>)
    ensures r.Success? <==> exchange.Received? && !IsErrorStatus(exchange.status) && exchange.body.JsonBody?
    ensures r.Success? ==> r.value == exchange.body.value
    ensures exchange.TransportFailed? ==> r == Failure(RequestFailed(exchange.error))
    ensures exchange.Received? && IsErrorStatus(exchange.status) ==>
      r == Failure(HttpError(exchange.status, exchange.reason, exchange.url))
    ensures exchange.Received? && !IsErrorStatus(exchange.status) && exchange.body.NotJson? ==>
      r == Failure(InvalidJson)
  {
    match exchange
    case TransportFailed(e) => Failure(RequestFailed(e))
    case Received(status, reason, url, body) =>
      if IsErrorStatus(status) then Failure(HttpError(status, reason, url))
      else
        match body
        case JsonBody(v) => Success(v)
        case NotJson => Failure(InvalidJson)
  }

  /**
   * The exit code of a failed request, from the first `except` clause that
   * matches: ConnectionError, then Timeout, then HTTPError, then anything.
   */
  function RequestFailureCode(e: PredictError): (code: int)
    ensures code == 3 <==> e.RequestFailed? && IsConnectionError(e.error)
    ensures code == 4 <==> e.RequestFailed? && IsTimeout(e.error) && !IsConnectionError(e.error)
    ensures code == 5 <==> e.HttpError?
    ensures code == 6 <==> e.InvalidJson? || (e.RequestFailed? && !IsConnectionError(e.error) && !IsTimeout(e.error))
  {
    if e.RequestFailed? && IsConnectionError(e.error) then 3
    else if e.RequestFailed? && IsTimeout(e.error) then 4
    else if e.HttpError? then 5
    else 6
  }

  const ClientErrorText: string := " Client Error: "
  const ServerErrorText: string := " Server Error: "
  const ForUrl: string := " for url: "

  /**
   * `str(e)` of the HTTPError `raise_for_status` raises: the status in
   * decimal, whether it is a client or a server error, the reason and the URL.
   */
  function HttpErrorText(status: nat, reason: string, url: string): (r: string)
    ensures var d := Currency.Digits(status);
      var k := |d| + |ClientErrorText|;
      && Currency.DigitsValue(d) == status && Currency.AllDigits(d)
      && |r| == k + |reason| + |ForUrl| + |url|
      && r[..|d|] == d
      && (status < 500 <==> r[|d|..k] == ClientErrorText)
      && (status >= 500 ==> r[|d|..k] == ServerErrorText)
      && r[k..k + |reason|] == reason
      && r[k + |reason|..|r| - |url|] == ForUrl
      && r[|r| - |url|..] == url
  {
    Currency.DigitsValueOfDigits(status);
    var d := Currency.Digits(status);
    var kind := if status < 500 then ClientErrorText else ServerErrorText;
    var k := |d| + |ClientErrorText|;
    var head := d + kind + reason;
    var r := head + ForUrl + url;
    assert r == head + (ForUrl + url);
    assert |head| == k + |reason| && |r| - |url| == |head| + |ForUrl|;
    assert r[..|d|] == d && r[|d|..k] == kind;
    assert ClientErrorText[1] != ServerErrorText[1];
    assert r[k..k + |reason|] == head[k..] == reason;
    assert r[|head|..|head| + |ForUrl|] == ForUrl;
    r
  }

  const CouldNotConnect: string := "Error: Could not connect to API at "
  const TimedOut: string := "Error: Request timed out"
  const HttpErrorPrefix: string := "HTTP error: "
  const RequestErrorPrefix: string := "Error during request: "
  const NotJsonMessage: string := "Response is not valid JSON"

  /**
   * The diagnostic `main` writes to stderr for a failed request; which one
   * follows the same `except` clause as the exit code.
   */
  function RequestFailureMessage(url: string, e: PredictError): (r: string)
    ensures RequestFailureCode(e) == 3 ==> r == CouldNotConnect + url
    ensures RequestFailureCode(e) == 4 ==> r == TimedOut
    ensures e.HttpError? ==>
      var head := HttpErrorPrefix + HttpErrorText(e.status, e.reason, e.url);
      |r| > |head| && r[..|head|] == head
    ensures e.HttpError? ==>
      r == HttpErrorPrefix + HttpErrorText(e.status, e.reason, e.url) + ResponseText(e.status)
    ensures e.InvalidJson? ==> r == RequestErrorPrefix + NotJsonMessage
    ensures e.RequestFailed? && RequestFailureCode(e) == 6 ==> r == RequestErrorPrefix + e.error.msg
  {
    if e.RequestFailed? && IsConnectionError(e.error) then CouldNotConnect + url
    else if e.RequestFailed? && IsTimeout(e.error) then TimedOut
    else
      match e
      case HttpError(status, reason, responseUrl) =>
        var head := HttpErrorPrefix + HttpErrorText(status, reason, responseUrl);
        var r := head + ResponseText(status);
        assert r[..|head|] == head;
        r
      case InvalidJson => RequestErrorPrefix + NotJsonMessage
      case RequestFailed(error) => RequestErrorPrefix + error.msg
  }

  /** The text after the error: the `repr` of the response, which shows its status code. */
  function ResponseText(status: nat): (r: string)
    ensures var d := Currency.Digits(status);
      && |r| == |ResponseOpen| + |d| + 2
      && r[..|ResponseOpen|] == ResponseOpen
      && Currency.DigitsValue(r[|ResponseOpen|..|r| - 2]) == status
      && r[|r| - 2..] == "]>"
  {
    Currency.DigitsValueOfDigits(status);
    var r := ResponseOpen + Currency.Digits(status) + "]>";
    assert r[|ResponseOpen|..|r| - 2] == Currency.Digits(status);
    r
  }

  const ResponseOpen: string := " - Response: <Response ["

  // ----------------------------------------------------------- formatting

  /** The exceptions `format_prediction` raises. */
  datatype FormatError =
    | MissingPrediction              // KeyError
    | EmptyPredictionList            // ValueError
    | NotConvertible(msg: string)    // TypeError or ValueError from float() or from indexing

  const MissingPredictionMessage: string := "Missing 'prediction' in response"
  const EmptyListMessage: string := "Empty prediction list"

  /**
   * `str(e)`. A KeyError shows the `repr` of its message: the message holds a
   * single quote, so `repr` encloses it in double quotes. The other
   * exceptions show their message as it is.
   */
  function FormatErrorText(e: FormatError): (r: string)
    ensures e.MissingPrediction? ==>
      && |r| == |MissingPredictionMessage| + 2
      && r[0] == '"' && r[|r| - 1] == '"'
      && r[1..|r| - 1] == MissingPredictionMessage
    ensures e.EmptyPredictionList? ==> r == EmptyListMessage
    ensures e.NotConvertible? ==> r == e.msg
  {
    match e
    case MissingPrediction =>
      var r := "\"" + MissingPredictionMessage + "\"";
      assert r[1..|r| - 1] == MissingPredictionMessage;
      r
    case EmptyPredictionList => EmptyListMessage
    case NotConvertible(msg) => msg
  }

  /** `float(v)` for a decoded JSON value. */
  function ToFloat(v: Value): (r: Result<real, FormatError>)
    ensures v.Int? ==> r == Success(v.i as real)
    ensures v.Float? ==> r == Success(v.x)
    ensures v.Bool? ==> r == Success(if v.b then 1.0 else 0.0)
    ensures r.Success? <==> v.Int? || v.Float? || v.Bool?
    ensures r.Failure? ==> r.error.NotConvertible?
  {
    match v
    case Int(i) => Success(i as real)
    case Float(x) => Success(x)
    case Bool(b) => Success(if b then 1.0 else 0.0)
    case Str(s) => Failure(NotConvertible("could not convert string to float: '" + s + "'"))
    case _ => Failure(NotConvertible("float() argument must be a string or a real number, not '" + TypeName(v) + "'"))
  }

  /** The number a `prediction` field stands for: itself, or the first element of a list. */
  function PredictionValue(pred: Value): (r: Result<real, FormatError>)
    ensures pred == Array([]) <==> r == Failure(EmptyPredictionList)
    ensures pred.Array? && |pred.items| > 0 ==> r == ToFloat(pred.items[0])
    ensures !pred.Array? ==> r == ToFloat(pred)
  {
    match pred
    case Array(items) => if |items| == 0 then Failure(EmptyPredictionList) else ToFloat(items[0])
    case _ => ToFloat(pred)
  }

  const PredictionPrefix: string := "Predicted house value: $"

  /** The model's output is in units of 100,000 dollars. */
  const UnitDollars: real := 100000.0

  const ListIndexMessage: string := "list indices must be integers or slices, not str"
  const StrIndexMessage: string := "string indices must be integers, not 'str'"

  /** `format_prediction`: the prediction in dollars, or the exception raised. */
  function FormatPrediction(result: Value): (r: Result<string, FormatError>)
    ensures result.Object? && "prediction" !in result.fields ==> r == Failure(MissingPrediction)
    ensures result.Object? && "prediction" in result.fields && result.fields["prediction"] == Array([]) ==>
      r == Failure(EmptyPredictionList)
    ensures r.Success? ==>
      && result.Object? && "prediction" in result.fields
      && PredictionValue(result.fields["prediction"]).Success?
      && r.value == PredictionPrefix + Currency.FixedTwo(PredictionValue(result.fields["prediction"]).value * UnitDollars)
    ensures result.Object? && "prediction" in result.fields && PredictionValue(result.fields["prediction"]).Success? ==>
      r.Success?
    ensures result.Object? && "prediction" in result.fields && PredictionValue(result.fields["prediction"]).Failure? ==>
      r == Failure(PredictionValue(result.fields["prediction"]).error)
    ensures result.Array? ==>
      r == Failure(if Str("prediction") in result.items then NotConvertible(ListIndexMessage) else MissingPrediction)
    ensures result.Str? ==>
      r == Failure(if HasSubstring(result.s, "prediction") then NotConvertible(StrIndexMessage) else MissingPrediction)
    ensures result.Null? || result.Bool? || result.Int? || result.Float? ==>
      r == Failure(NotConvertible("argument of type '" + TypeName(result) + "' is not iterable"))
  {
    match result
    case Object(fields) =>
      if "prediction" !in fields then Failure(MissingPrediction)
      else
        var value := PredictionValue(fields["prediction"]);
        if value.Failure? then Failure(value.error)
        else Success(PredictionPrefix + Currency.FixedTwo(value.value * UnitDollars))
    case Array(items) =>
      // `"prediction" in a_list` is membership; indexing a list by a string then fails
      if Str("prediction") in items then Failure(NotConvertible(ListIndexMessage))
      else Failure(MissingPrediction)
    case Str(s) =>
      // `in` on a string is a substring test; indexing a string by a string then fails
      if HasSubstring(s, "prediction") then Failure(NotConvertible(StrIndexMessage))
      else Failure(MissingPrediction)
    case _ =>
      Failure(NotConvertible("argument of type '" + TypeName(result) + "' is not iterable"))
  }

  /** A response that is not a JSON object never formats. */
  lemma OnlyObjectsFormat(result: Value)
    requires !result.Object?
    ensures FormatPrediction(result).Failure?
  {
  }

  /** A one-element list (or a longer one: only the head counts) formats like its element. */
  lemma ListFormatsLikeScalar(fields: map<string, Value>, p: Value, rest: seq<Value>)
    requires !p.Array?
    ensures FormatPrediction(Object(fields["prediction" := Array([p] + rest)]))
         == FormatPrediction(Object(fields["prediction" := p]))
  {
  }

  /** The dollar amount the line shows is the prediction times 100,000, to the nearest cent. */
  lemma FormatDenotesDollars(result: Value)
    requires FormatPrediction(result).Success?
    ensures var line := FormatPrediction(result).value;
      var amount := line[|PredictionPrefix|..];
      var dollars := PredictionValue(result.fields["prediction"]).value * UnitDollars;
      && |line| >= |PredictionPrefix| + 4
      && line[..|PredictionPrefix|] == PredictionPrefix
      && (dollars < 0.0 ==> amount[0] == '-' && Currency.TwoDecimalShape(amount[1..]))
      && (dollars >= 0.0 ==> Currency.TwoDecimalShape(amount))
      && -0.5 <= Currency.DigitsValue(amount) as real - Reals.Abs(dollars) * 100.0 <= 0.5
  {
    var line := FormatPrediction(result).value;
    var dollars := PredictionValue(result.fields["prediction"]).value * UnitDollars;
    Currency.FixedTwoDenotes(dollars);
    assert line == PredictionPrefix + Currency.FixedTwo(dollars);
    assert line[|PredictionPrefix|..] == Currency.FixedTwo(dollars);
  }

  /** No other text of that shape spells the same cents: the line is determined by the prediction. */
  lemma FormatDetermined(result: Value, amount: string)
    requires FormatPrediction(result).Success?
    requires var dollars := PredictionValue(result.fields["prediction"]).value * UnitDollars;
      && (dollars < 0.0 ==> |amount| >= 1 && amount[0] == '-' && Currency.TwoDecimalShape(amount[1..]))
      && (dollars >= 0.0 ==> Currency.TwoDecimalShape(amount))
      && Currency.DigitsValue(amount) == Currency.Cents(dollars)
    ensures FormatPrediction(result).value == PredictionPrefix + amount
  {
    Currency.RenderingDetermined(PredictionValue(result.fields["prediction"]).value * UnitDollars, amount);
  }

  lemma GroupedExamples()
    ensures Currency.Grouped(452600) == "452,600"
    ensures Currency.Grouped(200000) == "200,000"
  {
    DigitsExamples();
    assert Currency.Grouped(452600) == Currency.Digits(452) + "," + Currency.Padded(600, 3);
    assert Currency.Grouped(200000) == Currency.Digits(200) + "," + Currency.Padded(0, 3);
  }

  lemma DigitsExamples()
    ensures Currency.Digits(452) == "452" && Currency.Padded(600, 3) == "600"
    ensures Currency.Digits(200) == "200" && Currency.Padded(0, 3) == "000"
  {
    assert Currency.Digits(45) == "45";
    assert Currency.Digits(20) == "20";
  }

  lemma FixedTwoExamples()
    ensures Currency.FixedTwo(4.526 * UnitDollars) == "452,600.00"
    ensures Currency.FixedTwo(2.0 * UnitDollars) == "200,000.00"
  {
    GroupedExamples();
    assert Currency.Padded(0, 2) == "00";
    assert Currency.Cents(4.526 * UnitDollars) == 45260000 by {
      assert Reals.Abs(4.526 * UnitDollars) * 100.0 == 45260000.0;
      assert (45260000.0).Floor == 45260000;
    }
    assert Currency.Cents(2.0 * UnitDollars) == 20000000 by {
      assert Reals.Abs(2.0 * UnitDollars) * 100.0 == 20000000.0;
      assert (20000000.0).Floor == 20000000;
    }
  }

  /** 4.526 shows as $452,600.00; a one-element list [2.0] as $200,000.00. */
  lemma FormatExample()
    ensures FormatPrediction(Object(map["prediction" := Float(4.526)]))
         == Success(PredictionPrefix + "452,600.00")
    ensures FormatPrediction(Object(map["prediction" := Array([Float(2.0)])]))
         == Success(PredictionPrefix + "200,000.00")
  {
    FixedTwoExamples();
  }

  // ----------------------------------------------------------------- main

  datatype Args = Args(url: string, jsonPath: Option<string>)

  /** One printed line: stdout, the optional `Status:` line, or stderr. */
  datatype Line =
    | Stdout(text: string)
    | StatusLine(status: Value)
    | Stderr(text: string)

  /**
   * What `main` returns and prints, given what reading the input file and
   * posting the request body produced.
   */
  function Exit(args: Args, file: FileRead, send: map<string, Value> -> Exchange): (r: (int, seq<Line>))
    ensures r.0 in {0, 2, 3, 4, 5, 6, 7}
    ensures r.0 == 0 ==> 1 <= |r.1| <= 2 && r.1[0].Stdout? && (|r.1| == 2 ==> r.1[1].StatusLine?)
    ensures r.0 != 0 ==> |r.1| == 1 && r.1[0].Stderr?
  {
    match LoadInput(args.jsonPath, file)
    case Failure(msg) => (2, [Stderr("Error loading input data: " + msg)])
    case Success(payload) =>
      match Predict(send(payload))
      case Failure(e) => (RequestFailureCode(e), [Stderr(RequestFailureMessage(args.url, e))])
      case Success(result) =>
        match FormatPrediction(result)
        case Failure(fe) => (7, [Stderr("Error processing response: " + FormatErrorText(fe))])
        case Success(line) =>
          (0, [Stdout(line)] + (if "status" in result.fields then [StatusLine(result.fields["status"])] else []))
  }

  /** `main`, step by step with its early returns. */
  method Run(args: Args, file: FileRead, send: map<string, Value> -> Exchange) returns (code: int, lines: seq<Line>)
    ensures (code, lines) == Exit(args, file, send)
  {
    var loaded := LoadInput(args.jsonPath, file);
    if loaded.Failure? {
      return 2, [Stderr("Error loading input data: " + loaded.error)];
    }
    var payload := loaded.value;

    var response := Predict(send(payload));
    if response.Failure? {
      return RequestFailureCode(response.error), [Stderr(RequestFailureMessage(args.url, response.error))];
    }
    var result := response.value;

    var formatted := FormatPrediction(result);
    if formatted.Failure? {
      return 7, [Stderr("Error processing response: " + FormatErrorText(formatted.error))];
    }
    lines := [Stdout(formatted.value)];
    if "status" in result.fields {
      lines := lines + [StatusLine(result.fields["status"])];
    }
    // Exit appends an empty list when there is no status line; the verifier needs this step to see both branches agree.
    assert lines == [Stdout(formatted.value)] + (if "status" in result.fields then [StatusLine(result.fields["status"])] else []);
    code := 0;
  }

  // ------------------------------------------------------ main's promises

  /** The response `main` works on, when loading the input succeeded. */
  function Response(args: Args, file: FileRead, send: map<string, Value> -> Exchange): Result<Value, PredictError>
    requires LoadInput(args.jsonPath, file).Success?
  {
    Predict(send(LoadInput(args.jsonPath, file).value))
  }

  /** An input that cannot be loaded ends with 2 before any request is made. */
  lemma LoadFailureStopsBeforeRequest(args: Args, file: FileRead, send: map<string, Value> -> Exchange, other: map<string, Value> -> Exchange)
    requires LoadInput(args.jsonPath, file).Failure?
    ensures Exit(args, file, send) == (2, [Stderr("Error loading input data: " + LoadInput(args.jsonPath, file).error)])
    ensures Exit(args, file, send) == Exit(args, file, other)
  {
  }

  /** A request that failed ends with the code of its first matching clause. */
  lemma RequestFailureExits(args: Args, file: FileRead, send: map<string, Value> -> Exchange)
    requires LoadInput(args.jsonPath, file).Success?
    requires Response(args, file, send).Failure?
    ensures Exit(args, file, send) ==
      (RequestFailureCode(Response(args, file, send).error),
       [Stderr(RequestFailureMessage(args.url, Response(args, file, send).error))])
  {
  }

  /** A connect timeout is caught by the ConnectionError clause, which comes first. */
  lemma ConnectTimeoutExits3(msg: string)
    ensures IsTimeout(ConnectTimeout(msg))
    ensures RequestFailureCode(RequestFailed(ConnectTimeout(msg))) == 3
  {
  }

  /** A successful response whose body is not JSON ends with 6, not 7. */
  lemma NotJsonExits6(args: Args, file: FileRead, send: map<string, Value> -> Exchange)
    requires LoadInput(args.jsonPath, file).Success?
    requires send(LoadInput(args.jsonPath, file).value).Received?
    requires !IsErrorStatus(send(LoadInput(args.jsonPath, file).value).status)
    requires send(LoadInput(args.jsonPath, file).value).body.NotJson?
    ensures Exit(args, file, send) == (6, [Stderr(RequestErrorPrefix + NotJsonMessage)])
  {
  }

  /** A response without `prediction`, or with an empty list there, ends with 7. */
  lemma BadPredictionExits7(args: Args, file: FileRead, send: map<string, Value> -> Exchange)
    requires LoadInput(args.jsonPath, file).Success?
    requires Response(args, file, send).Success?
    requires Response(args, file, send).value.Object?
    requires var fields := Response(args, file, send).value.fields;
      "prediction" !in fields || fields["prediction"] == Array([])
    ensures Exit(args, file, send).0 == 7
    ensures var fields := Response(args, file, send).value.fields;
      "prediction" !in fields ==>
        Exit(args, file, send).1 == [Stderr("Error processing response: " + FormatErrorText(MissingPrediction))]
    ensures var fields := Response(args, file, send).value.fields;
      "prediction" in fields ==>
        Exit(args, file, send).1 == [Stderr("Error processing response: " + EmptyListMessage)]
  {
  }

  /** Every exception `format_prediction` raises ends with 7 and its text on stderr. */
  lemma FormatFailureExits7(args: Args, file: FileRead, send: map<string, Value> -> Exchange)
    requires LoadInput(args.jsonPath, file).Success?
    requires Response(args, file, send).Success?
    requires FormatPrediction(Response(args, file, send).value).Failure?
    ensures Exit(args, file, send) ==
      (7, [Stderr("Error processing response: " + FormatErrorText(FormatPrediction(Response(args, file, send).value).error))])
  {
  }

  /**
   * `main` returns 0 exactly when the input loads, the request succeeds and
   * the prediction formats; it then prints the prediction line, followed by
   * the status line exactly when the response has a `status`.
   */
  lemma SuccessExits0(args: Args, file: FileRead, send: map<string, Value> -> Exchange)
    ensures Exit(args, file, send).0 == 0 <==>
      && LoadInput(args.jsonPath, file).Success?
      && Response(args, file, send).Success?
      && FormatPrediction(Response(args, file, send).value).Success?
    ensures Exit(args, file, send).0 == 0 ==>
      var result := Response(args, file, send).value;
      && Exit(args, file, send).1[0] == Stdout(FormatPrediction(result).value)
      && (|Exit(args, file, send).1| == 2 <==> "status" in result.fields)
      && ("status" in result.fields ==> Exit(args, file, send).1[1] == StatusLine(result.fields["status"]))
  {
  }
}
