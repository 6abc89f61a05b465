/** The trained classifier as the core sees it: an opaque value written to and read from disk by joblib. */
module Artifacts {

  /** A deserialised classifier. Two handles are equal exactly when they stand for the same trained model. */
  datatype Model = Model(handle: nat)
}
