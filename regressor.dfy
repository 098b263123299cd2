/**
 * The trained regressor is opaque: each job receives its `predict` as a
 * function, and only what that call returned or raised is modelled.
 */
module Regressor {

  /** The outcome of one `model.predict(frame)` call. */
  datatype Prediction = Predicted(values: seq<real>) | Raised(msg: string)
}
