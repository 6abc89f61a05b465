/**
 * Training and serving meet at the alias: the app loads whatever the file
 * at MODEL_PATH (the alias, with the project root as working directory)
 * resolves to.
 */
module Deployment {
  import opened Wrappers
  import opened Artifacts
  import opened Registry
  import opened Serving
  import Training
  import Clock

  /** What the app finds at MODEL_PATH for a registry state: the model the alias leads to, or nothing. */
  function ServedFile(st: Store): ArtifactFile {
    if AliasExists(st) then Present(st.artifacts[ResolveAlias(st.alias.value)]) else Missing
  }

  /**
   * As written, with any registry directory given as a relative path that
   * does not begin with "." (so it does not climb out of the working
   * directory): a successful activation leaves the app with nothing to load,
   * unless a file happens to stand at "artifacts/<artifact path>" as well.
   */
  lemma RelativeDirAliasDangles(dir: string, st: Store, v: string)
    requires StoreOk(st) && v in LoadMetadata(st).records
    requires LoadMetadata(st).records[v].path == ArtifactPath(dir, v)
    requires |dir| > 0 && !IsAbsolute(dir) && dir[0] != '.'
    requires AliasDir + "/" + ArtifactPath(dir, v) !in st.artifacts
    ensures SetActiveSpec(st, v).outcome.Pass? ==> ServedFile(SetActiveSpec(st, v).store) == Missing
  {
    var path := ArtifactPath(dir, v);
    assert path[0] == dir[0];
    assert ResolveAlias(path) == AliasDir + "/" + path;
  }

  /**
   * The first training run in a fresh project with the default registry
   * directory deploys its model without error, yet the app then answers
   * every valid request with 503: the alias it wrote does not resolve.
   */
  lemma FirstDeploymentUnservable(model: Model, accuracy: real, testSamples: nat,
                                  now: Clock.DateTime, savedAt: Clock.DateTime,
                                  features: seq<real>, classify: (Model, seq<real>) -> int, path: string)
    requires |features| == 4
    ensures var r := Training.TrainSpec(DefaultDir, Store(None, map[], None), model, accuracy, testSamples, now, savedAt);
            && r.deployed && r.outcome == Pass
            && StatusCode(PredictSpec(None, features, ServedFile(r.store), classify, path).1) == 503
  {
    var empty := Store(None, map[], None);
    var v := Clock.VersionStamp(now);
    var saved := SaveSpec(DefaultDir, empty, model, Training.TrainMetrics(accuracy, testSamples), v, Clock.IsoFormat(savedAt));
    Training.DeployRule(DefaultDir, empty, model, accuracy, testSamples, now, savedAt);
    Training.TrainSteps(DefaultDir, empty, model, accuracy, testSamples, now, savedAt);
    var target := ArtifactPath(DefaultDir, v);
    assert saved.artifacts == map[target := model];
    assert |AliasDir + "/" + target| != |target|;
    RelativeDirAliasDangles(DefaultDir, saved, v);
  }

  /** With the corrected activation, the app serves exactly the model saved for the activated version. */
  lemma CorrectedActivationServes(st: Store, v: string, features: seq<real>,
                                  classify: (Model, seq<real>) -> int, path: string)
    requires StoreOk(st) && ArtifactsPresent(st) && v in LoadMetadata(st).records
    ensures var a := SetActiveCorrected(st, v);
            var m := st.artifacts[LoadMetadata(st).records[v].path];
            && ServedFile(a.store) == Present(m)
            && PredictSpec(None, features, ServedFile(a.store), classify, path).1 ==
               if |features| == 4 then Prediction(Schemas.PredictResponse(classify(m, features)))
               else Unprocessable(Schemas.ValidateRequest(features).error)
  {
    var a := SetActiveCorrected(st, v);
    assert a.store.artifacts == st.artifacts;
  }
}
