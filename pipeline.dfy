/**
 * How the parts fit together: the client talking to the service, and the
 * evaluation job reading what the preprocessing job wrote.
 */
module Pipeline {
  import opened Wrappers
  import opened Json
  import opened Regressor
  import Client
  import Server
  import Currency
  import Tables
  import Preprocessing
  import Evaluation
  import Metrics
  import FeatureContract

  /** The HTTP reason phrase of the two statuses the service answers with. */
  function ReasonPhrase(status: nat): string
  {
    if status == 200 then "OK" else "Bad Request"
  }

  /** `session.post` against the running service: the handler's response, sent back as JSON. */
  function Transport(service: Server.Service, url: string): map<string, Value> -> Client.Exchange
  {
    payload =>
      var response := Server.Handle(service, Server.Parsed(Object(payload)));
      Client.Received(response.status, ReasonPhrase(response.status), url, Client.JsonBody(response.body))
  }

  /** The client's built-in body reaches the model as one row holding exactly the nine features. */
  lemma SampleReachesModelAsFeatureRow()
    ensures var row := Server.ToRow(Object(Client.SampleData));
      && row.Keys == (set f | f in FeatureContract.Features :: Server.Key(f))
      && forall f :: f in FeatureContract.Features ==> row[Server.Key(f)] == Client.SampleData[f]
  {
    Client.SampleDataHasTheFeatureKeys();
    var row := Server.ToRow(Object(Client.SampleData));
    assert row.Keys == (set k | k in Client.SampleData :: Server.Key(k));
  }

  /** What the transport delivers for one body: the handler's status, its reason and its JSON body. */
  lemma TransportDelivers(service: Server.Service, url: string, payload: map<string, Value>)
    ensures var response := Server.Handle(service, Server.Parsed(Object(payload)));
      Transport(service, url)(payload) ==
        Client.Received(response.status, ReasonPhrase(response.status), url, Client.JsonBody(response.body))
  {
  }

  /** A body the model predicts comes back as a 200 with the first prediction. */
  lemma TransportSucceeds(service: Server.Service, url: string, payload: map<string, Value>)
    requires var p := service.predict([Server.ToRow(Object(payload))]); p.Predicted? && |p.values| > 0
    ensures var v := service.predict([Server.ToRow(Object(payload))]).values[0];
      Transport(service, url)(payload) == Client.Received(200, "OK", url, Client.JsonBody(Server.SuccessBody(v)))
  {
    var v := service.predict([Server.ToRow(Object(payload))]).values[0];
    var response := Server.Handle(service, Server.Parsed(Object(payload)));
    assert response == Server.Response(200, Server.SuccessBody(v));
    TransportDelivers(service, url, payload);
  }

  /** The client formats the service's success body as the first prediction in dollars. */
  lemma SuccessBodyFormats(v: real)
    ensures Client.FormatPrediction(Server.SuccessBody(v)) ==
      Success(Client.PredictionPrefix + Currency.FixedTwo(v * Client.UnitDollars))
  {
    var body := Server.SuccessBody(v);
    assert "prediction" in body.fields && body.fields["prediction"] == Float(v);
    assert Client.PredictionValue(Float(v)) == Success(v);
  }

  /** The two lines the client prints for the prediction v and the `success` status. */
  function PrintedPrediction(v: real): seq<Client.Line>
  {
    [Client.Stdout(Client.PredictionPrefix + Currency.FixedTwo(v * Client.UnitDollars)),
     Client.StatusLine(Str("success"))]
  }

  /** A 200 answer carrying the success body makes the client print it with its status and exit 0. */
  lemma ClientAcceptsSuccessBody(args: Client.Args, file: Client.FileRead, send: map<string, Value> -> Client.Exchange,
                                 payload: map<string, Value>, v: real)
    requires Client.LoadInput(args.jsonPath, file) == Success(payload)
    requires send(payload) == Client.Received(200, "OK", args.url, Client.JsonBody(Server.SuccessBody(v)))
    ensures Client.Exit(args, file, send) == (0, PrintedPrediction(v))
  {
    var body := Server.SuccessBody(v);
    assert Client.Response(args, file, send) == Success(body);
    SuccessBodyFormats(v);
    assert "status" in body.fields && body.fields["status"] == Str("success");
    var line := Client.PredictionPrefix + Currency.FixedTwo(v * Client.UnitDollars);
    assert Client.FormatPrediction(body) == Success(line);
    Client.SuccessExits0(args, file, send);
    var exit := Client.Exit(args, file, send);
    assert exit.0 == 0;
    assert exit.1[0] == Client.Stdout(line);
    assert |exit.1| == 2;
    assert exit.1[1] == Client.StatusLine(Str("success"));
    assert exit.1 == PrintedPrediction(v);
  }

  /**
   * When the service predicts, the client exits 0 and prints the first
   * prediction in dollars followed by the `success` status.
   */
  lemma ServedPredictionIsPrinted(args: Client.Args, file: Client.FileRead, service: Server.Service, payload: map<string, Value>)
    requires Client.LoadInput(args.jsonPath, file) == Success(payload)
    requires var p := service.predict([Server.ToRow(Object(payload))]); p.Predicted? && |p.values| > 0
    ensures Client.Exit(args, file, Transport(service, args.url)) ==
      (0, PrintedPrediction(service.predict([Server.ToRow(Object(payload))]).values[0]))
  {
    TransportSucceeds(service, args.url, payload);
    ClientAcceptsSuccessBody(args, file, Transport(service, args.url), payload,
                             service.predict([Server.ToRow(Object(payload))]).values[0]);
  }

  lemma DigitsOf400()
    ensures Currency.Digits(400) == "400"
  {
    assert Currency.Digits(4) == "4";
    assert Currency.Digits(40) == Currency.Digits(4) + [Currency.DigitChar(0)];
  }

  lemma BadRequestText(url: string)
    ensures Client.HttpErrorText(400, "Bad Request", url) == "400 Client Error: Bad Request for url: " + url
  {
    DigitsOf400();
    var text: string := "400" + " Client Error: " + "Bad Request" + " for url: ";
    assert text == "400 Client Error: Bad Request for url: ";
    assert Client.HttpErrorText(400, "Bad Request", url) == text + url;
  }

  /** When the service answers 400, the client reports the HTTP error and exits 5. */
  lemma ServedErrorExits5(args: Client.Args, file: Client.FileRead, service: Server.Service, payload: map<string, Value>)
    requires Client.LoadInput(args.jsonPath, file) == Success(payload)
    requires var p := service.predict([Server.ToRow(Object(payload))]); p.Raised? || p.values == []
    ensures Client.Exit(args, file, Transport(service, args.url)) ==
      (5, [Client.Stderr(Client.RequestFailureMessage(args.url, Client.HttpError(400, "Bad Request", args.url)))])
    ensures Client.HttpErrorText(400, "Bad Request", args.url) == "400 Client Error: Bad Request for url: " + args.url
  {
    TransportDelivers(service, args.url, payload);
    var response := Server.Handle(service, Server.Parsed(Object(payload)));
    assert response.status == 400;
    assert Client.Response(args, file, Transport(service, args.url)) ==
      Failure(Client.HttpError(400, "Bad Request", args.url));
    BadRequestText(args.url);
  }

  /** Against the service, a client whose input loads exits only with 0 or 5. */
  lemma ServedExitCodes(args: Client.Args, file: Client.FileRead, service: Server.Service)
    requires Client.LoadInput(args.jsonPath, file).Success?
    ensures Client.Exit(args, file, Transport(service, args.url)).0 in {0, 5}
  {
    var payload := Client.LoadInput(args.jsonPath, file).value;
    var p := service.predict([Server.ToRow(Object(payload))]);
    if p.Predicted? && |p.values| > 0 {
      ServedPredictionIsPrinted(args, file, service, payload);
    } else {
      ServedErrorExits5(args, file, service, payload);
    }
  }

  /** The evaluation job as written fails on every test table the preprocessing job writes. */
  lemma AsWrittenEvaluationMissesTarget(t: Tables.Table, perm: seq<nat>, predict: Tables.Table -> Prediction, sqrt: real -> real)
    requires Tables.WellFormed(t) && Preprocessing.IsPermutation(perm, t.rows)
    requires Preprocessing.Preprocess(t, perm).Success? && Metrics.IsSquareRoot(sqrt)
    ensures Evaluation.Evaluate(Preprocessing.Preprocess(t, perm).value.test, predict, sqrt) ==
      Failure(Evaluation.MissingTarget("target"))
  {
    var test := Preprocessing.Preprocess(t, perm).value.test;
    Preprocessing.OutputShape(t, perm);
    TargetLabelAbsent();
    assert Evaluation.TargetName !in test.names;
  }

  lemma TargetLabelAbsent()
    ensures Evaluation.TargetName !in Preprocessing.OutputColumns
  {
  }

  /** On a table shaped like the preprocessing output, the corrected job reaches the model with the features. */
  lemma CorrectedEvaluationOnOutputTable(test: Tables.Table, predict: Tables.Table -> Prediction, sqrt: real -> real)
    requires Tables.WellFormed(test) && test.names == Preprocessing.OutputColumns && test.rows > 0
    requires Metrics.IsSquareRoot(sqrt)
    ensures var x := Evaluation.SplitTarget(test, Preprocessing.TargetColumn).value.0;
      var r := Evaluation.EvaluateCorrected(test, predict, sqrt);
      && Evaluation.SplitTarget(test, Preprocessing.TargetColumn).Success?
      && x.names == FeatureContract.Features
      && (r.Success? || r.error.ModelFailed? || r.error.InconsistentSamples?)
      && (predict(x).Predicted? && |predict(x).values| == test.rows ==> r.Success?)
  {
    assert Preprocessing.TargetColumn !in FeatureContract.Features;
    Evaluation.DroppedLast(FeatureContract.Features, Preprocessing.TargetColumn);
  }

  /**
   * Read under `MedHouseVal`, the test table gives the model exactly the
   * nine features in order, and the report is produced whenever the model
   * returns one prediction per row.
   */
  lemma CorrectedEvaluationReachesModel(t: Tables.Table, perm: seq<nat>, predict: Tables.Table -> Prediction, sqrt: real -> real)
    requires Tables.WellFormed(t) && Preprocessing.IsPermutation(perm, t.rows)
    requires Preprocessing.Preprocess(t, perm).Success? && Metrics.IsSquareRoot(sqrt)
    ensures var test := Preprocessing.Preprocess(t, perm).value.test;
      var x := Evaluation.SplitTarget(test, Preprocessing.TargetColumn).value.0;
      var r := Evaluation.EvaluateCorrected(test, predict, sqrt);
      && Evaluation.SplitTarget(test, Preprocessing.TargetColumn).Success?
      && x.names == FeatureContract.Features
      && (r.Success? || r.error.ModelFailed? || r.error.InconsistentSamples?)
      && (predict(x).Predicted? && |predict(x).values| == test.rows ==> r.Success?)
  {
    var test := Preprocessing.Preprocess(t, perm).value.test;
    Preprocessing.OutputShape(t, perm);
    Preprocessing.CountsPartition(t.rows);
    CorrectedEvaluationOnOutputTable(test, predict, sqrt);
  }
}
