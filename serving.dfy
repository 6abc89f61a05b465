/**
 * The serving layer: a lazily filled, never invalidated one-slot cache of
 * the model at MODEL_PATH, the prediction endpoint that maps a missing
 * model to status 503, and the constant root and health endpoints.
 *
 * The file at MODEL_PATH is an input to each call (what joblib.load would
 * find there at that moment); the model's own prediction is an input
 * function `classify`.
 */
module Serving {
  import opened Wrappers
  import opened Artifacts
  import opened Schemas

  /** What is at MODEL_PATH: nothing, a file that does not deserialise, or a model. */
  datatype ArtifactFile = Missing | Unreadable | Present(model: Model)

  /** How get_model fails: FileNotFoundError with its message, or an error raised by the deserialiser. */
  datatype LoadError = ModelNotFound(message: string) | LoadFailed

  /** MODEL_PATH: PROJECT_ROOT / "artifacts" / "model.joblib". */
  function ModelPath(projectRoot: string): string {
    projectRoot + "/artifacts/model.joblib"
  }

  function NotFoundMessage(path: string): (m: string)
    ensures |m| >= 15 && m[..15] == "Model not found"
  {
    "Model not found at " + path + ". Train it first: python -m src.train"
  }

  /** A cache state and the result of one get_model call. */
  datatype CacheStep = CacheStep(cache: Option<Model>, result: Result<Model, LoadError>)

  /**
   * One get_model call: a filled cache answers without looking at the file;
   * an empty one loads the file and keeps the model, or fails and stays empty.
   */
  function GetModelSpec(cache: Option<Model>, disk: ArtifactFile, path: string): (s: CacheStep)
    ensures cache.Some? ==> s == CacheStep(cache, Success(cache.value))
    ensures cache.None? ==> (s.result.Success? <==> disk.Present?)
    ensures s.result.Success? ==> s.cache == Some(s.result.value)
    ensures s.result.Failure? ==> s.cache.None?
    ensures cache.None? && disk.Present? ==> s.result == Success(disk.model)
    ensures cache.None? && disk.Missing? ==> s.result == Failure(ModelNotFound(NotFoundMessage(path)))
    ensures cache.None? && disk.Unreadable? ==> s.result == Failure(LoadFailed)
  {
    match cache
    case Some(m) => CacheStep(cache, Success(m))
    case None =>
      match disk
      case Missing => CacheStep(None, Failure(ModelNotFound(NotFoundMessage(path))))
      case Unreadable => CacheStep(None, Failure(LoadFailed))
      case Present(m) => CacheStep(Some(m), Success(m))
  }

  /** The results of successive get_model calls, the i-th of which finds disks[i] at MODEL_PATH. */
  function Replay(cache: Option<Model>, disks: seq<ArtifactFile>, path: string): (rs: seq<Result<Model, LoadError>>)
    ensures |rs| == |disks|
    decreases |disks|
  {
    if disks == [] then []
    else
      var s := GetModelSpec(cache, disks[0], path);
      [s.result] + Replay(s.cache, disks[1..], path)
  }

  /** Once the cache holds a model, every later call returns that model, whatever becomes of the file. */
  lemma {:induction false} CachedModelSticks(m: Model, disks: seq<ArtifactFile>, path: string)
    ensures forall i :: 0 <= i < |disks| ==> Replay(Some(m), disks, path)[i] == Success(m)
    decreases |disks|
  {
    if disks != [] {
      CachedModelSticks(m, disks[1..], path);
      forall i | 1 <= i < |disks| ensures Replay(Some(m), disks, path)[i] == Success(m) {
        assert Replay(Some(m), disks, path)[i] == Replay(Some(m), disks[1..], path)[i - 1];
      }
    }
  }

  /**
   * From an empty cache, calls fail until the first one that finds a model
   * (a failed load does not stick), and from that call on every call returns
   * the model that was loaded then.
   */
  lemma {:induction false} FirstLoadSticks(disks: seq<ArtifactFile>, path: string, i: nat)
    requires i < |disks| && disks[i].Present?
    requires forall j :: 0 <= j < i ==> !disks[j].Present?
    ensures forall j :: 0 <= j < i ==> Replay(None, disks, path)[j].Failure?
    ensures forall j :: i <= j < |disks| ==> Replay(None, disks, path)[j] == Success(disks[i].model)
    decreases i
  {
    var rs := Replay(None, disks, path);
    if i == 0 {
      CachedModelSticks(disks[0].model, disks[1..], path);
      forall j | 1 <= j < |disks| ensures rs[j] == Success(disks[0].model) {
        assert rs[j] == Replay(Some(disks[0].model), disks[1..], path)[j - 1];
      }
    } else {
      assert GetModelSpec(None, disks[0], path).cache.None?;
      forall j | 0 <= j < i - 1 ensures !disks[1..][j].Present? {
        assert disks[1..][j] == disks[j + 1];
      }
      FirstLoadSticks(disks[1..], path, i - 1);
      forall j | 1 <= j < |disks| ensures rs[j] == Replay(None, disks[1..], path)[j - 1] {
      }
    }
  }

  /** The response of the prediction endpoint: the body, a refused request (422), or an HTTP error. */
  datatype Response = Prediction(body: PredictResponse) | Unprocessable(error: ValidationError) | HttpError(status: nat, detail: string)

  function StatusCode(r: Response): nat {
    match r
    case Prediction(_) => 200
    case Unprocessable(_) => 422
    case HttpError(status, _) => status
  }

  /**
   * One request to the prediction endpoint: the body is validated before
   * the handler runs; the handler loads the model (a missing file becomes
   * 503 with the error's message, any other load error 500) and answers
   * the model's class for the single row of features.
   */
  function PredictSpec(cache: Option<Model>, features: seq<real>, disk: ArtifactFile,
                       classify: (Model, seq<real>) -> int, path: string): (r: (Option<Model>, Response))
    ensures |features| != 4 ==> r.0 == cache && StatusCode(r.1) == 422
    ensures |features| == 4 && cache.Some? ==> r == (cache, Prediction(PredictResponse(classify(cache.value, features))))
    ensures |features| == 4 && cache.None? && disk.Present? ==>
              r == (Some(disk.model), Prediction(PredictResponse(classify(disk.model, features))))
    ensures |features| == 4 && cache.None? && disk.Missing? ==>
              && r.0.None? && StatusCode(r.1) == 503 && r.1.HttpError?
              && |r.1.detail| >= 15 && r.1.detail[..15] == "Model not found"
    ensures |features| == 4 && cache.None? && disk.Unreadable? ==> r.0.None? && StatusCode(r.1) == 500
  {
    match ValidateRequest(features)
    case Failure(e) => (cache, Unprocessable(e))
    case Success(req) =>
      var s := GetModelSpec(cache, disk, path);
      match s.result
      case Failure(ModelNotFound(message)) => (s.cache, HttpError(503, message))
      case Failure(LoadFailed) => (s.cache, HttpError(500, "Internal Server Error"))
      case Success(m) => (s.cache, Prediction(PredictResponse(classify(m, req.features))))
  }

  /** The body of the root endpoint. */
  datatype RootInfo = RootInfo(message: string, endpoints: seq<string>)

  /** The root endpoint: a fixed message and the list of endpoints, which does not include "/metrics". */
  function Root(): (r: RootInfo)
    ensures r.message == "MLOps API is running"
    ensures r.endpoints == ["/health", "/predict", "/docs"] && "/metrics" !in r.endpoints
  {
    RootInfo("MLOps API is running", ["/health", "/predict", "/docs"])
  }

  /** The health endpoint: {"status": "ok"} whatever the state of the model. */
  function Health(): (r: map<string, string>)
    ensures r == map["status" := "ok"]
  {
    map["status" := "ok"]
  }

  /** The favicon endpoint: status 200 and a fixed message. */
  function Favicon(): (r: (nat, map<string, string>))
    ensures r.0 == 200 && r.1 == map["message" := "No favicon"]
  {
    (200, map["message" := "No favicon"])
  }

  /** The application's module-level state: the cached model. */
  class ModelService {
    const modelPath: string
    var cache: Option<Model>

    /** The application at start-up: nothing loaded yet. */
    constructor (projectRoot: string)
      ensures modelPath == ModelPath(projectRoot) && cache.None?
    {
      modelPath := ModelPath(projectRoot);
      cache := None;
    }

    /** get_model: the cached model, or the model loaded now from MODEL_PATH. */
    method GetModel(disk: ArtifactFile) returns (r: Result<Model, LoadError>)
      modifies this
      ensures GetModelSpec(old(cache), disk, modelPath) == CacheStep(cache, r)
    {
      if cache.None? {
        match disk {
          case Missing =>
            return Failure(ModelNotFound(NotFoundMessage(modelPath)));
          case Unreadable =>
            return Failure(LoadFailed);
          case Present(m) =>
            cache := Some(m);
        }
      }
      return Success(cache.value);
    }

    /** The prediction endpoint, request validation included. */
    method Predict(features: seq<real>, disk: ArtifactFile, classify: (Model, seq<real>) -> int) returns (response: Response)
      modifies this
      ensures PredictSpec(old(cache), features, disk, classify, modelPath) == (cache, response)
    {
      var request := ValidateRequest(features);
      if request.Failure? {
        return Unprocessable(request.error);
      }
      var loaded := GetModel(disk);
      match loaded {
        case Failure(ModelNotFound(message)) =>
          return HttpError(503, message);
        case Failure(LoadFailed) =>
          return HttpError(500, "Internal Server Error");
        case Success(model) =>
          return Prediction(PredictResponse(classify(model, request.value.features)));
      }
    }
  }
}
