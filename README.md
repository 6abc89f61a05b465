# A verified model of an MLOps model pipeline

This project models the core of a small MLOps pipeline for an iris classifier in Dafny, and proves properties of that model. The pipeline has five parts:

- **Model registry** (`src/model_registry.py`). It stores versioned model artifacts and a JSON metadata document that maps each version id to a record. A record holds the artifact path, the metrics, the creation time and an `is_active` flag. The registry also keeps an "active model" alias, a symbolic link at `artifacts/model.joblib`.
- **Training script's deployment step** (`src/train.py`). It saves a freshly fitted model as a new version and activates it when no model is active or when its accuracy is above 0.9.
- **Drift detector** (`src/detect_drift.py`). It simulates a "current" dataset from the reference dataset and compares every numeric column of the two with a two-sample Kolmogorov-Smirnov test. It then builds a report.
- **Serving application** (`app/main.py`). It caches the model lazily in a single slot that is never invalidated. Its prediction endpoint answers 503 when the model file is missing. Its root, health and favicon endpoints are constant.
- **Request and response schemas** (`app/schemas.py`). A request must carry exactly four features, and a response carries an integer prediction.

## Layout

| file | module | models |
|---|---|---|
| `wrappers.dfy` | `Wrappers` | `Option`, `Result` and `Outcome` (an operation that returns nothing, or raises) |
| `artifacts.dfy` | `Artifacts` | a fitted model as an opaque handle |
| `clock.dfy` | `Clock` | a `datetime.now()` reading, its `%Y%m%d_%H%M%S` stamp and its `isoformat()` |
| `registry.dfy` | `Registry` | the registry's files as a `Store` value, one specification function per operation, and the class `ModelRegistry` whose methods are proved against them |
| `training.dfy` | `Training` | the save / look up / deploy sequence of the training script |
| `drift.dfy` | `Drift` | the simulation of the current data and the report-building loop |
| `schemas.dfy` | `Schemas` | request validation and the response body |
| `serving.dfy` | `Serving` | the model cache (the class `ModelService`) and the endpoints |
| `deployment.dfy` | `Deployment` | what the serving application sees after the registry has moved the alias |

### How the model is built

- **Registry state.** The registry's on-disk state is a `Store` with three parts:
  - the metadata file (absent, or a dictionary);
  - the artifact files, keyed by path;
  - the alias, given by the link's target text.
- **Dictionary order.** The dictionary keeps its insertion order as a sequence of keys beside the map. `get_active_model` scans in that order.
- **How the alias resolves.**
  - A relative link target is resolved against the link's own directory, `artifacts`.
  - `Path.exists()` follows the link. So the alias "exists" only when its target leads to an artifact file.
  - `unlink` removes the link. `symlink_to` raises `FileExistsError` when a link is already there, dangling or not.
- **Serving.** The file at `MODEL_PATH` is an input to every serving call. `MODEL_PATH` is the alias path seen from the project root.
- **Registry loops.** The flag loop of `set_active_model` and the scan of `get_active_model` are the methods `RewriteFlags` and `ScanForActive`, which the class's methods call.
- **Registry methods.** Every method of `ModelRegistry` ensures that its new state is the matching specification function applied to its old state. The properties are proved as lemmas about those functions:
  - at most one record is active;
  - every record's artifact is present;
  - insertion order is kept;
  - each operation is idempotent where it should be.
- **Drift report.** `Drift.CompareColumns` keeps the source's loop over the columns, and `Drift.DetectDrift` runs it after loading and simulating. Their postconditions say that the report **describes** the data:
  - it has one entry per numeric column, with that column's test result;
  - a column is flagged exactly when its p-value is below 0.05;
  - the drifted features are exactly the flagged entries;
  - the overall flag is set exactly when one entry is flagged.

  A separate lemma shows that this description determines the report.

### Where the tests and the code disagree

The model follows the code in each case:

- `tests/test_app.py:9` expects `"/metrics"` among the root endpoints. `app/main.py:26` does not list it, and `Serving.Root` states that it is absent.
- `tests/test_drift.py:11-15` runs the training script and then expects the drift detector to find `artifacts/reference_dataset.csv`. `src/train.py` never writes that file. In the model, the missing reference is the `MissingReference` error of `Drift.DetectDrift`.

## Model

| member | source | states |
|---|---|---|
| Clock.Pad | src/model_registry.py:15 | a zero-padded field has exactly the requested width and consists of digits only |
| Clock.PadRoundTrip | src/model_registry.py:15 | reading back a padded field gives the number, when the number fits the width |
| Clock.VersionStamp | src/model_registry.py:15 | the default version id is 15 characters: 8 digits, `_`, 6 digits |
| Clock.StampRoundTrip | src/model_registry.py:15 | the version id determines the time up to the second (parsing it back gives the time truncated to seconds) |
| Clock.StampCollidesIffSameSecond | src/model_registry.py:15 | two default version ids are equal if and only if the two clock readings fall in the same second |
| Clock.IsoFormat | src/model_registry.py:24 | `created_at` is 19 characters, or 26 when the microseconds are non-zero, with `-`, `T` and `:` at their fixed positions |
| Registry.LoadMetadata | src/model_registry.py:52-56 | the metadata is the file's content, or the empty dictionary when there is no file |
| Registry.Upsert | src/model_registry.py:21-26 | assigning a key adds it at the end of the insertion order if it is new, and keeps its place if it already exists |
| Registry.ArtifactPath | src/model_registry.py:17 | the artifact path is the registry directory, then `/model_v`, the version and `.joblib`, and the version can be read back from it |
| Registry.ArtifactPathInjective | src/model_registry.py:17 | distinct versions are stored in distinct artifact files, when the path is plain concatenation (versions without `/`; see Left out) |
| Registry.ResolveAlias | src/model_registry.py:37-40 | the alias's target is read from the link's directory `artifacts`. An absolute target is kept, and a `../` target drops that prefix. Any other relative target gets `artifacts/` in front, so it never names the path it spells |
| Registry.AliasExists | src/model_registry.py:38 | `exists()` on the alias is true exactly when the link is present and its target, resolved from `artifacts`, is an artifact file. A missing link never exists |
| Registry.AssignedVersion | src/model_registry.py:14-15 | the caller's version is used when given; otherwise the 15-character stamp of the clock |
| Registry.SaveSpec | src/model_registry.py:13-28 | save_model adds exactly the version's key. Its record has path `<dir>/model_v<version>.joblib`, the metrics, `created_at` and an inactive flag. Other records, the alias and the other artifacts are unchanged, and a new key goes at the end of the order. A re-saved version loses its active flag and no other flag changes. It keeps the invariants "at most one active" and "every artifact present" |
| Registry.SavedVersionNotActive | src/model_registry.py:21-26 | get_active_model never returns a version that was just saved |
| Registry.OnlyActive | src/model_registry.py:31-33 | after the flag loop each record is active exactly when its key is the requested version, and nothing else in the record changes |
| Registry.SetActiveSpec | src/model_registry.py:30-40 | set_active_model always rewrites the flags so that only the requested version is active, and saves them. The call succeeds if and only if the version exists and the old alias is absent or resolves to a file; the alias then holds the record's path. An unknown version gives KeyError after every flag has been cleared, with the alias unlinked only if it resolved. A known version with a dangling alias gives FileExistsError |
| Registry.SetActiveIdempotent | src/model_registry.py:30-40 | activating a version twice leaves the same metadata as activating it once. When the first link resolves, the second call changes nothing |
| Registry.RewriteFlags | src/model_registry.py:32-33 | the flag loop, visiting the keys in order, yields exactly the records of `OnlyActive` |
| Registry.FirstActive | src/model_registry.py:44-45 | the scan finds nothing if and only if no key is active; otherwise it finds an active key |
| Registry.FirstActiveIsFirst | src/model_registry.py:44-46 | the key the scan finds is the earliest active one in insertion order |
| Registry.ScanForActive | src/model_registry.py:44-46 | the loop that stops at the first active record returns exactly `FirstActive` of the insertion order |
| Registry.GetActiveSpec | src/model_registry.py:42-47 | get_active_model returns (None, None) if and only if no record is active. Otherwise it returns an active version with the model loaded from that version's path. It raises FileNotFoundError only for an active record whose artifact is gone, which cannot happen under the invariant |
| Registry.GetActiveFindsTheActive | src/model_registry.py:42-47 | under the at-most-one-active invariant, get_active_model returns the active version whatever the insertion order |
| Registry.RunKeepsInvariant | src/model_registry.py:13-40 | any interleaving of saves and activations keeps at most one record active and every record's artifact present, including calls that raised |
| Registry.SaveAllListsEveryVersion | src/model_registry.py:20-27 | saving N new, distinct versions lists them in the metadata in the order they were saved, after the old ones |
| Registry.SaveAllActivatesNothing | src/model_registry.py:21-26 | after any sequence of saves, the active records are those active before, minus the re-saved versions |
| Registry.AliasTarget | src/model_registry.py:40 | the corrected link target resolves from the alias's directory to the artifact path |
| Registry.SetActiveCorrected | src/model_registry.py:30-40 | corrected activation: an unknown version gives KeyError and changes nothing. A known version becomes the only active record, and the alias resolves to its artifact |
| Registry.SetActiveCorrectedIdempotent | src/model_registry.py:30-40 | corrected activation is idempotent on the whole store, alias included, and leaves an alias that exists |
| Registry.ReactivationFailsWithDefaultDir | src/model_registry.py:36-40 | as written, with the default registry directory, the first activation of any version in a fresh registry writes a dangling link, and activating that version again raises FileExistsError |
| Registry.UnknownVersionDeactivatesAll | src/model_registry.py:30-40 | as written, activating an unknown version raises KeyError and leaves no model active where one was active before |
| Registry.ModelRegistry.constructor | src/model_registry.py:8-11 | the registry is bound to its directory and to the files already there |
| Registry.ModelRegistry.SaveModel | src/model_registry.py:13-28 | returns the assigned version, and the new files are those of `SaveSpec` |
| Registry.ModelRegistry.SetActiveModel | src/model_registry.py:30-40 | the flag loop and the alias steps give the state and the outcome of `SetActiveSpec` |
| Registry.ModelRegistry.GetActiveModel | src/model_registry.py:42-47 | the scan in insertion order and the artifact load return exactly `GetActiveSpec` |
| Registry.ModelRegistry.ListModels | src/model_registry.py:49-50 | returns the whole metadata document, which is empty when there is no file |
| Training.TrainMetrics | src/train.py:30-33 | the saved metrics are exactly `accuracy` (a float) and `test_samples` (an integer) |
| Training.TrainSpec | src/train.py:37-48 | one run records the new version under the clock's stamp, with these metrics and its artifact. It adds no other key, and it leaves the alias alone unless it deploys |
| Training.TrainSteps | src/train.py:37-48 | a run deploys exactly when the lookup after saving succeeds and the rule holds. A deployed run ends as the activation does; an undeployed run whose lookup succeeded keeps the saved state and raises nothing |
| Training.DeployRule | src/train.py:41-45 | the new version is deployed if and only if no other version was active or the accuracy exceeds 0.9 |
| Training.DeployedIsSoleActive | src/train.py:44-46 | a deployed version is the only active record afterwards. When activation succeeded, the alias holds its artifact path |
| Training.NotDeployedKeepsActive | src/train.py:44-48 | a version that is not deployed leaves the previously active version as the only active record, and leaves the alias unchanged |
| Training.ExactThresholdNotDeployed | src/train.py:44 | with another version active, an accuracy of exactly 0.9 is not deployed |
| Training.TrainAndDeploy | src/train.py:30-48 | the script's save, lookup and conditional activation on a registry object have exactly the effect of `TrainSpec` |
| Drift.SimulateCurrent | src/detect_drift.py:28-30 | the current data is the last min(50, n) rows, with sepal length multiplied by 1.5 and petal width increased by 0.2. Other columns are copied unchanged. A missing altered column is an error, and sepal length is checked first |
| Drift.CompareColumns | src/detect_drift.py:42-61 | the loop over the columns fails on empty samples exactly when the reference has no rows and a numeric column. Otherwise it builds the report that describes the data: one entry per numeric column holding its test result, flagged exactly when p < 0.05, with the drifted features and the overall flag summarising the flags |
| Drift.DetectDrift | src/detect_drift.py:17-61 | a missing reference, a missing altered column and empty samples are errors. Otherwise the report describes the data: one entry per numeric column; a column flagged exactly when p < 0.05; the drifted features exactly the flagged columns with their p-values; the flag set exactly when one column drifted |
| Drift.ReportDetermined | src/detect_drift.py:35-61 | two reports that both describe the same data and test are equal |
| Drift.DetectedIffSomeFeatureDrifted | src/detect_drift.py:59-61 | drift is reported if and only if the drifted-features map is non-empty |
| Schemas.ValidateRequest | app/schemas.py:4-5 | a request is accepted if and only if it has exactly 4 features. Shorter lists fail the minimum-length check and longer ones the maximum-length check |
| Schemas.ExampleIsValid | app/schemas.py:7-15 | the schema's example request is accepted |
| Schemas.TwoFeaturesRejected | app/schemas.py:4-5 | a two-feature request is rejected as too short |
| Serving.NotFoundMessage | app/main.py:18-20 | the missing-model message starts with "Model not found" |
| Serving.GetModelSpec | app/main.py:14-22 | a filled cache is returned without reading the file. An empty cache succeeds if and only if the file holds a model, which it then keeps. A missing file gives FileNotFoundError with the message, an unreadable file gives a load error, and after a failure the cache stays empty |
| Serving.CachedModelSticks | app/main.py:14-22 | once the cache holds a model, every later call returns it whatever happens to the file |
| Serving.FirstLoadSticks | app/main.py:14-22 | from an empty cache, calls fail until the first one that finds a model, because failures are retried. From then on, every call returns that model |
| Serving.PredictSpec | app/main.py:32-39 | a request without exactly 4 features gets 422 and the model is not loaded. A missing model gives 503 with a detail starting "Model not found", and an unreadable one gives 500. Otherwise the response is the model's class for the features |
| Serving.Root | app/main.py:24-26 | the root endpoint lists /health, /predict and /docs, and not /metrics |
| Serving.Health | app/main.py:28-30 | the health endpoint always answers `{"status": "ok"}` |
| Serving.Favicon | app/main.py:41-43 | the favicon endpoint answers 200 with a fixed message |
| Serving.ModelService.constructor | app/main.py:10-12 | the application starts with an empty cache and `MODEL_PATH` under the project root |
| Serving.ModelService.GetModel | app/main.py:14-22 | get_model's result and new cache are those of `GetModelSpec` |
| Serving.ModelService.Predict | app/main.py:32-39 | the endpoint's response and new cache are those of `PredictSpec` |
| Deployment.RelativeDirAliasDangles | src/model_registry.py:36-40 | as written, with any relative registry directory that does not begin with `.`, a successful activation leaves the app nothing to load at `MODEL_PATH`, unless another file stands at `artifacts/<artifact path>` |
| Deployment.FirstDeploymentUnservable | src/model_registry.py:37-40 | as written, the first training run in a fresh project deploys without error, yet the app then answers every valid request with 503 |
| Deployment.CorrectedActivationServes | src/model_registry.py:30-40 | after corrected activation, the app serves exactly the model saved for the activated version |

## Left out

- File I/O. The metadata JSON file, the joblib artifacts and the alias link are fields of a value. Reads and writes do not fail, except where the code raises (`KeyError`, `FileExistsError`, `FileNotFoundError`).
- `mkdir` of the registry and artifact directories is not modelled. The directories are assumed to exist.
- Path normalisation: the registry directory is taken in normal form (no `.`, `..` or doubled `/`). The working directory is the project root, so `MODEL_PATH` and `artifacts/model.joblib` name the same file.
- Registry.ArtifactPathInjective: holds only for version ids without `/`. pathlib collapses `//` and `/./` inside a caller-given version, so in the source "a//b" and "a/b" share one file; the model's plain concatenation does not capture this. A clock-stamped version never contains `/`, and `joblib.dump` would also need the subdirectory to exist.
- A regular file, rather than a link, standing at the alias path is not modelled.
- Version keys are strings. The JSON round trip of non-string keys, and the rewriting of metric values by `json.dump`/`json.load`, are not modelled.
- Floating-point arithmetic: the scaling by 1.5, the shift by 0.2, the accuracy and the p-values are reals.
- The Kolmogorov-Smirnov test is an input function `ks`. Only its failure on empty samples is modelled.
- Columns are either selected as numeric or not; pandas dtype inference and CSV parsing are left out. The reference table is an input (None when the file is missing).
- Writing the drift report file and the console messages of all scripts are left out.
- Data loading, the train/test split, fitting and scoring are left out. The fitted model and its accuracy are inputs of `Training.TrainAndDeploy`.
- The model's `predict` is an input function `classify`. The failures it might raise are not modelled.
- The clock is a parameter: `now` gives the version id and `savedAt` gives `created_at`.
- Concurrent requests and concurrent registry writers are not modelled.
- FastAPI and pydantic machinery is reduced to what the endpoints answer: routing, JSON encoding, the OpenAPI `/docs` page and the exact 422 error body. An error other than `FileNotFoundError` while loading becomes the framework's 500 response.
- `Training.TrainAndDeploy` calls the as-written `SetActiveModel`, as `src/train.py` does. Only `Deployment.CorrectedActivationServes` uses the corrected activation.
- The context files `schemas.py` (a copy of the request schema without the example), `train.py` (an older training script) and `tests/test_mlflow.py` (MLflow tracking) are not part of this model.

## Findings

| source | as written | input that shows it | evidently intended | confidence | as-written member | corrected member |
|---|---|---|---|---|---|---|
| src/model_registry.py:40 | the alias is created with the artifact path as its target text. That path is relative to the working directory, but a symbolic link's relative target resolves against the link's own directory (`artifacts`) | default registry directory: activate version "1", then activate "1" again. The first link leads to `artifacts/artifacts/registry/model_v1.joblib`, which does not exist, so `exists()` is false, the link is not unlinked, and `symlink_to` raises `FileExistsError`. The app also never finds the model | the alias leads to the activated artifact and can be replaced on every activation (`tests/test_model.py:10-12` expects `MODEL_PATH` to exist after training) | high for the dangling link, given a relative registry directory; not executed | Registry.ReactivationFailsWithDefaultDir | Registry.SetActiveCorrected |
| src/model_registry.py:31-40 | the flags are cleared and saved before `metadata[version]` is looked up | version "1" active, then activate the unknown version "2": `KeyError` is raised, and afterwards no model is active | an unknown version is refused before anything is written | medium; not executed | Registry.UnknownVersionDeactivatesAll | Registry.SetActiveCorrected |
