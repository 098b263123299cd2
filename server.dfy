/**
 * The `POST /predict` handler. The request body becomes a one-row frame,
 * the model loaded at start-up predicts it, and every failure on the way
 * becomes a 400 whose detail is the exception's message.
 */
module Server {
  import opened Json
  import opened Regressor

  /** A DataFrame column label: a dict key, or a position for list and scalar rows. */
  datatype Column = Key(name: string) | Position(index: nat)

  type Row = map<Column, Value>

  /**
   * The model assigned once when the module is loaded; the handler only
   * calls its `predict`, so no request can change what later requests see.
   */
  datatype Service = Service(predict: seq<Row> -> Prediction)

  /** What `await request.json()` produced. */
  datatype Request = Parsed(features: Value) | Malformed(msg: string)

  datatype Response = Response(status: nat, body: Value)

  /** `str(e)` of the IndexError that `[0]` raises on an empty prediction array. */
  const EmptyPredictionMessage: string := "index 0 is out of bounds for axis 0 with size 0"

  /** The single row of `pd.DataFrame([features])`. */
  function ToRow(features: Value): (row: Row)
    ensures features.Object? ==>
      && row.Keys == (set k | k in features.fields :: Key(k))
      && forall k :: k in features.fields ==> row[Key(k)] == features.fields[k]
    ensures features.Array? ==>
      && row.Keys == (set i | 0 <= i < |features.items| :: Position(i))
      && forall i :: 0 <= i < |features.items| ==> row[Position(i)] == features.items[i]
    ensures !features.Object? && !features.Array? ==> row == map[Position(0) := features]
  {
    match features
    case Object(fields) => map k | k in fields :: Key(k) := fields[k]
    case Array(items) => map i | 0 <= i < |items| :: Position(i) := items[i]
    case _ => map[Position(0) := features]
  }

  /** The 200 body: the prediction as a float and the status `success`. */
  function SuccessBody(prediction: real): (body: Value)
    ensures body.Object? && body.fields.Keys == {"prediction", "status"}
    ensures body.fields["prediction"] == Float(prediction) && body.fields["status"] == Str("success")
  {
    Object(map["prediction" := Float(prediction), "status" := Str("success")])
  }

  /** The body FastAPI sends for an HTTPException: only its detail, and no prediction. */
  function ErrorBody(detail: string): (body: Value)
    ensures body.Object? && body.fields.Keys == {"detail"} && body.fields["detail"] == Str(detail)
    ensures "prediction" !in body.fields
  {
    Object(map["detail" := Str(detail)])
  }

  /** The handler: 200 with the first prediction, or 400 with the error's message. */
  function Handle(service: Service, request: Request): (r: Response)
    ensures r.status == 200 || r.status == 400
    ensures r.status == 200 <==>
      request.Parsed? && service.predict([ToRow(request.features)]).Predicted?
      && |service.predict([ToRow(request.features)]).values| > 0
    ensures r.status == 200 ==> r.body == SuccessBody(service.predict([ToRow(request.features)]).values[0])
    ensures request.Malformed? ==> r == Response(400, ErrorBody(request.msg))
    ensures request.Parsed? && service.predict([ToRow(request.features)]).Raised? ==>
      r == Response(400, ErrorBody(service.predict([ToRow(request.features)]).msg))
    ensures request.Parsed? && service.predict([ToRow(request.features)]) == Predicted([]) ==>
      r == Response(400, ErrorBody(EmptyPredictionMessage))
    ensures r.status == 400 ==> exists detail :: r.body == ErrorBody(detail)
  {
    match request
    case Malformed(msg) => Response(400, ErrorBody(msg))
    case Parsed(features) =>
      match service.predict([ToRow(features)])
      case Raised(msg) => Response(400, ErrorBody(msg))
      case Predicted(values) =>
        if |values| == 0 then Response(400, ErrorBody(EmptyPredictionMessage))
        else Response(200, SuccessBody(values[0]))
  }

  /** The responses to a run of requests, each handled on its own. */
  function Serve(service: Service, requests: seq<Request>): (responses: seq<Response>)
    ensures |responses| == |requests|
  {
    if requests == [] then []
    else [Handle(service, requests[0])] + Serve(service, requests[1..])
  }

  /** Every response depends only on its own request and the fixed model. */
  lemma {:induction false} ServeEach(service: Service, requests: seq<Request>, i: nat)
    requires i < |requests|
    ensures Serve(service, requests)[i] == Handle(service, requests[i])
  {
    if i > 0 {
      ServeEach(service, requests[1..], i - 1);
    }
  }

  /** Serving one batch of requests does not change how the next batch is served. */
  lemma {:induction false} ServeConcatenation(service: Service, first: seq<Request>, second: seq<Request>)
    ensures Serve(service, first + second) == Serve(service, first) + Serve(service, second)
  {
    if first != [] {
      assert (first + second)[1..] == first[1..] + second;
      ServeConcatenation(service, first[1..], second);
    } else {
      assert first + second == second;
    }
  }

  /** A request object with every feature key reaches the model as one row holding exactly those values. */
  lemma RequestBecomesOneRow(features: map<string, Value>, keys: seq<string>)
    requires forall i :: 0 <= i < |keys| ==> keys[i] in features
    ensures forall i :: 0 <= i < |keys| ==>
      (Key(keys[i]) in ToRow(Object(features)) && ToRow(Object(features))[Key(keys[i])] == features[keys[i]])
  {
  }
}
