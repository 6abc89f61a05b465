/**
 * The deployment step of the training script: after a model has been fitted
 * and scored, it is saved as a new version and made active when no model is
 * active yet or when its accuracy is above 0.9. Fitting and scoring are
 * outside the model; the fitted model and its accuracy are inputs.
 */
module Training {
  import opened Wrappers
  import opened Artifacts
  import opened Registry
  import Clock

  /** A new model replaces an active one only when its accuracy is strictly above this. */
  const DeployThreshold: real := 0.9

  /** The metrics saved with the version: the test accuracy and the size of the test split. */
  function TrainMetrics(accuracy: real, testSamples: nat): (m: Metrics)
    ensures m.Keys == {"accuracy", "test_samples"}
    ensures m["accuracy"] == Float(accuracy) && m["test_samples"] == Int(testSamples)
  {
    map["accuracy" := Float(accuracy), "test_samples" := Int(testSamples)]
  }

  /** The deployment rule: no model is active, or the new one is accurate enough. */
  predicate ShouldDeploy(current: Option<(string, Model)>, accuracy: real) {
    current.None? || accuracy > DeployThreshold
  }

  /** What one run of the script leaves behind, and whether it raised. */
  datatype TrainRun = TrainRun(store: Store, version: string, deployed: bool, outcome: Outcome<RegistryError>)

  /**
   * One run of the script's main: save under the clock's version id, look up
   * the active model, and activate the new version when the rule says so.
   */
  function TrainSpec(dir: string, st: Store, model: Model, accuracy: real, testSamples: nat,
                     now: Clock.DateTime, savedAt: Clock.DateTime): (r: TrainRun)
    requires StoreOk(st)
    ensures StoreOk(r.store)
    ensures r.version == Clock.VersionStamp(now)
    ensures r.version in LoadMetadata(r.store).records
    ensures LoadMetadata(r.store).records[r.version].metrics == TrainMetrics(accuracy, testSamples)
    ensures LoadMetadata(r.store).records[r.version].path == ArtifactPath(dir, r.version)
    ensures LoadMetadata(r.store).records.Keys == LoadMetadata(st).records.Keys + {r.version}
    ensures r.store.artifacts == st.artifacts[ArtifactPath(dir, r.version) := model]
    ensures !r.deployed ==> r.store.alias == st.alias
  {
    var v := Clock.VersionStamp(now);
    var saved := SaveSpec(dir, st, model, TrainMetrics(accuracy, testSamples), v, Clock.IsoFormat(savedAt));
    match GetActiveSpec(saved)
    case Failure(e) => TrainRun(saved, v, false, Fail(e))
    case Success(current) =>
      if ShouldDeploy(current, accuracy) then
        var a := SetActiveSpec(saved, v);
        TrainRun(a.store, v, true, a.outcome)
      else
        TrainRun(saved, v, false, Pass)
  }

  /**
   * One run in steps: after saving, the lookup decides; a deployed run's
   * state and outcome are those of the activation, and an undeployed run
   * whose lookup succeeded leaves the saved state and does not raise.
   */
  lemma TrainSteps(dir: string, st: Store, model: Model, accuracy: real, testSamples: nat,
                   now: Clock.DateTime, savedAt: Clock.DateTime)
    requires StoreOk(st)
    ensures var v := Clock.VersionStamp(now);
            var saved := SaveSpec(dir, st, model, TrainMetrics(accuracy, testSamples), v, Clock.IsoFormat(savedAt));
            var current := GetActiveSpec(saved);
            var r := TrainSpec(dir, st, model, accuracy, testSamples, now, savedAt);
            && (r.deployed <==> (current.Success? && ShouldDeploy(current.value, accuracy)))
            && (r.deployed ==> r.store == SetActiveSpec(saved, v).store && r.outcome == SetActiveSpec(saved, v).outcome)
            && (!r.deployed && current.Success? ==> r.store == saved && r.outcome == Pass)
  {
  }

  /**
   * The new version is deployed exactly when, apart from a record it
   * overwrote, no version was active before the run, or its accuracy
   * exceeds 0.9.
   */
  lemma DeployRule(dir: string, st: Store, model: Model, accuracy: real, testSamples: nat,
                   now: Clock.DateTime, savedAt: Clock.DateTime)
    requires StoreOk(st) && AtMostOneActive(LoadMetadata(st).records) && ArtifactsPresent(st)
    ensures var r := TrainSpec(dir, st, model, accuracy, testSamples, now, savedAt);
            r.deployed <==> (forall k :: IsActive(LoadMetadata(st).records, k) ==> k == r.version) || accuracy > DeployThreshold
  {
    var v := Clock.VersionStamp(now);
    var saved := SaveSpec(dir, st, model, TrainMetrics(accuracy, testSamples), v, Clock.IsoFormat(savedAt));
    TrainSteps(dir, st, model, accuracy, testSamples, now, savedAt);
    var before := LoadMetadata(st).records;
    var after := LoadMetadata(saved).records;
    assert forall k :: IsActive(after, k) <==> k != v && IsActive(before, k);
    assert GetActiveSpec(saved).Success?;
    assert GetActiveSpec(saved).value.None? <==> forall k :: !IsActive(after, k);
  }

  /**
   * A deployed version is the only active record afterwards (the metadata is
   * written before the alias is touched, so this holds even when the alias
   * step raised); when the whole run succeeded the alias names its artifact.
   */
  lemma DeployedIsSoleActive(dir: string, st: Store, model: Model, accuracy: real, testSamples: nat,
                             now: Clock.DateTime, savedAt: Clock.DateTime)
    requires StoreOk(st)
    ensures var r := TrainSpec(dir, st, model, accuracy, testSamples, now, savedAt);
            r.deployed ==> && (forall k :: IsActive(LoadMetadata(r.store).records, k) <==> k == r.version)
                           && (r.outcome.Pass? ==> r.store.alias == Some(ArtifactPath(dir, r.version)))
  {
    var r := TrainSpec(dir, st, model, accuracy, testSamples, now, savedAt);
    if r.deployed {
      assert r.version in LoadMetadata(r.store).records;
    }
  }

  /**
   * A version that is not deployed leaves the previously active version as
   * the only active record, and the alias as it was.
   */
  lemma NotDeployedKeepsActive(dir: string, st: Store, model: Model, accuracy: real, testSamples: nat,
                               now: Clock.DateTime, savedAt: Clock.DateTime)
    requires StoreOk(st) && AtMostOneActive(LoadMetadata(st).records) && ArtifactsPresent(st)
    ensures var r := TrainSpec(dir, st, model, accuracy, testSamples, now, savedAt);
            !r.deployed ==> && r.outcome == Pass
                            && r.store.alias == st.alias
                            && exists p :: && p != r.version && IsActive(LoadMetadata(st).records, p)
                                           && forall k :: IsActive(LoadMetadata(r.store).records, k) <==> k == p
  {
    var v := Clock.VersionStamp(now);
    var saved := SaveSpec(dir, st, model, TrainMetrics(accuracy, testSamples), v, Clock.IsoFormat(savedAt));
    TrainSteps(dir, st, model, accuracy, testSamples, now, savedAt);
    var current := GetActiveSpec(saved);
    assert current.Success?;
    if !TrainSpec(dir, st, model, accuracy, testSamples, now, savedAt).deployed {
      var p := current.value.value.0;
      assert IsActive(LoadMetadata(saved).records, p);
      assert IsActive(LoadMetadata(st).records, p) && p != v;
      assert forall k :: IsActive(LoadMetadata(saved).records, k) <==> k == p;
    }
  }

  /** With another version active, an accuracy of exactly 0.9 is not enough to deploy. */
  lemma ExactThresholdNotDeployed(dir: string, st: Store, model: Model, testSamples: nat,
                                  now: Clock.DateTime, savedAt: Clock.DateTime, p: string)
    requires StoreOk(st) && AtMostOneActive(LoadMetadata(st).records) && ArtifactsPresent(st)
    requires IsActive(LoadMetadata(st).records, p) && p != Clock.VersionStamp(now)
    ensures !TrainSpec(dir, st, model, 0.9, testSamples, now, savedAt).deployed
  {
    DeployRule(dir, st, model, 0.9, testSamples, now, savedAt);
  }

  /**
   * The script's main after fitting: save (a new, inactive version), look up
   * the active model (raising if its artifact is gone), and activate the new
   * version when the rule says so.
   */
  method TrainAndDeploy(registry: ModelRegistry, model: Model, accuracy: real, testSamples: nat,
              now: Clock.DateTime, savedAt: Clock.DateTime)
    returns (version: string, deployed: bool, outcome: Outcome<RegistryError>)
    requires registry.Valid()
    modifies registry
    ensures registry.Valid()
    ensures TrainSpec(registry.dir, old(registry.State()), model, accuracy, testSamples, now, savedAt)
            == TrainRun(registry.State(), version, deployed, outcome)
  {
    var metrics := TrainMetrics(accuracy, testSamples);
    version := registry.SaveModel(model, metrics, None, now, savedAt);
    var current := registry.GetActiveModel();
    if current.Failure? {
      return version, false, Fail(current.error);
    }
    if current.value.None? || accuracy > DeployThreshold {
      outcome := registry.SetActiveModel(version);
      deployed := true;
    } else {
      deployed := false;
      outcome := Pass;
    }
  }
}
