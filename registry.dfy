/**
 * The model registry: a metadata document mapping version ids to version
 * records, the serialised artifacts those records point at, and an "active
 * model" alias (a symbolic link) that set_active_model repoints.
 *
 * The on-disk state is a Store value. Pure functions on Store say what each
 * registry operation does to it; the class ModelRegistry performs the same
 * operations step by step on its fields and is proved against them.
 */
module Registry {
  import opened Wrappers
  import opened Artifacts
  import Clock

  // ---------------------------------------------------------------------------
  // Data model
  // ---------------------------------------------------------------------------

  /** A metric value as the JSON document holds it. */
  datatype Metric = Float(x: real) | Int(n: int)

  type Metrics = map<string, Metric>

  /** One version record: {path, metrics, created_at, is_active}. */
  datatype Record = Record(path: string, metrics: Metrics, createdAt: string, isActive: bool)

  /**
   * The metadata document. `records` is the dictionary; `order` lists its keys
   * in insertion order, which the dictionary (and its JSON form) keeps and
   * get_active_model scans in.
   */
  datatype Snapshot = Snapshot(order: seq<string>, records: map<string, Record>)

  /** `order` lists every key of the dictionary exactly once. */
  ghost predicate WellFormed(s: Snapshot) {
    && (forall i, j :: 0 <= i < j < |s.order| ==> s.order[i] != s.order[j])
    && (forall k :: k in s.records <==> k in s.order)
  }

  /**
   * What the registry keeps on disk: the metadata file (None while it does
   * not exist), the artifact files written by joblib keyed by path, and the
   * symbolic link at AliasPath given by its target text (None when absent).
   */
  datatype Store = Store(metadataFile: Option<Snapshot>, artifacts: map<string, Model>, alias: Option<string>)

  ghost predicate StoreOk(st: Store) {
    st.metadataFile.Some? ==> WellFormed(st.metadataFile.value)
  }

  /** The errors the registry's operations raise. */
  datatype RegistryError =
    | KeyError(key: string)            // metadata[version] on a missing version
    | FileExistsError(path: string)    // symlink_to where a link already stands
    | FileNotFoundError(path: string)  // joblib.load of a missing artifact

  /** The registry directory ModelRegistry() uses when none is given. */
  const DefaultDir := "artifacts/registry"

  /** The alias link, and the directory its relative target is resolved against. */
  const AliasDir := "artifacts"
  const AliasPath := "artifacts/model.joblib"

  // ---------------------------------------------------------------------------
  // Dictionary operations
  // ---------------------------------------------------------------------------

  /** The metadata as _load_metadata reads it: the file's content, or the empty map when there is no file. */
  function LoadMetadata(st: Store): (s: Snapshot)
    requires StoreOk(st)
    ensures WellFormed(s)
    ensures st.metadataFile.None? ==> s.records == map[] && s.order == []
    ensures st.metadataFile.Some? ==> s == st.metadataFile.value
  {
    st.metadataFile.GetOr(Snapshot([], map[]))
  }

  /** metadata[k] = r: a new key goes to the end of the order, an existing key keeps its place. */
  function Upsert(s: Snapshot, k: string, r: Record): (t: Snapshot)
    requires WellFormed(s)
    ensures WellFormed(t)
    ensures t.records == s.records[k := r]
    ensures t.order == if k in s.records then s.order else s.order + [k]
  {
    Snapshot(if k in s.records then s.order else s.order + [k], s.records[k := r])
  }

  predicate IsActive(m: map<string, Record>, k: string) {
    k in m && m[k].isActive
  }

  /** The registry's invariant: no two records are active. */
  ghost predicate AtMostOneActive(m: map<string, Record>) {
    forall a, b :: IsActive(m, a) && IsActive(m, b) ==> a == b
  }

  /** Every record's artifact file exists. */
  ghost predicate ArtifactsPresent(st: Store)
    requires StoreOk(st)
  {
    var m := LoadMetadata(st).records;
    forall k :: k in m ==> m[k].path in st.artifacts
  }

  // ---------------------------------------------------------------------------
  // Paths
  // ---------------------------------------------------------------------------

  /**
   * str(registry_path / f"model_v{version}.joblib") for a registry directory
   * given in normal form: the directory, then the file name, from which the
   * version can be read back.
   */
  function ArtifactPath(dir: string, version: string): (p: string)
    ensures |p| == |dir| + |version| + 15
    ensures p[..|dir| + 8] == dir + "/model_v"
    ensures p[|dir| + 8..|dir| + 8 + |version|] == version
    ensures p[|dir| + 8 + |version|..] == ".joblib"
  {
    dir + "/model_v" + version + ".joblib"
  }

  /** Distinct versions are stored in distinct files. */
  lemma ArtifactPathInjective(dir: string, a: string, b: string)
    requires ArtifactPath(dir, a) == ArtifactPath(dir, b)
    ensures a == b
  {
    assert |a| == |b|;
  }

  predicate IsAbsolute(p: string) {
    |p| > 0 && p[0] == '/'
  }

  /** A relative path that climbs one directory up. */
  predicate ClimbsUp(p: string) {
    |p| >= 3 && p[..3] == "../"
  }

  /**
   * The file a link at AliasPath with target text `target` leads to: an
   * absolute target as it is, a relative one from the link's own directory
   * (so "../x" leads to "x" and "x" to "artifacts/x"). A relative target
   * that does not climb up never leads to the path it spells.
   */
  function ResolveAlias(target: string): (r: string)
    ensures IsAbsolute(target) ==> r == target
    ensures ClimbsUp(target) ==> r == target[3..]
    ensures !IsAbsolute(target) && !ClimbsUp(target) ==> r == AliasDir + "/" + target && r != target
  {
    if IsAbsolute(target) then target
    else if ClimbsUp(target) then target[3..]
    else
      assert |AliasDir + "/" + target| != |target|;
      AliasDir + "/" + target
  }

  /**
   * Path.exists() on the alias, which follows the link: true exactly when
   * the link is there and its target, resolved from the link's directory,
   * is an artifact file. A missing link never exists, and a relative link
   * that does not climb up exists only through a file under "artifacts/".
   */
  predicate AliasExists(st: Store)
    ensures AliasExists(st) <==> st.alias.Some? && ResolveAlias(st.alias.value) in st.artifacts
    ensures st.alias.None? ==> !AliasExists(st)
    ensures st.alias.Some? && !IsAbsolute(st.alias.value) && !ClimbsUp(st.alias.value) ==>
              (AliasExists(st) <==> AliasDir + "/" + st.alias.value in st.artifacts)
  {
    st.alias.Some? && ResolveAlias(st.alias.value) in st.artifacts
  }

  // ---------------------------------------------------------------------------
  // save_model
  // ---------------------------------------------------------------------------

  /** The version save_model uses: the caller's, or the clock's second-resolution stamp. */
  function AssignedVersion(requested: Option<string>, now: Clock.DateTime): (v: string)
    ensures requested.Some? ==> v == requested.value
    ensures requested.None? ==> |v| == 15 && v == Clock.VersionStamp(now)
  {
    match requested
    case Some(v) => v
    case None => Clock.VersionStamp(now)
  }

  /** The state after save_model stores `model` under version `v`. */
  function SaveSpec(dir: string, st: Store, model: Model, metrics: Metrics, v: string, createdAt: string): (r: Store)
    requires StoreOk(st)
    ensures StoreOk(r) && r.metadataFile.Some?
    ensures LoadMetadata(r).records.Keys == LoadMetadata(st).records.Keys + {v}
    ensures LoadMetadata(r).records[v] == Record(ArtifactPath(dir, v), metrics, createdAt, false)
    ensures forall k :: k in LoadMetadata(st).records && k != v ==> LoadMetadata(r).records[k] == LoadMetadata(st).records[k]
    ensures v !in LoadMetadata(st).records ==> LoadMetadata(r).order == LoadMetadata(st).order + [v]
    ensures v in LoadMetadata(st).records ==> LoadMetadata(r).order == LoadMetadata(st).order
    ensures r.artifacts == st.artifacts[ArtifactPath(dir, v) := model] && r.alias == st.alias
    ensures forall k :: IsActive(LoadMetadata(r).records, k) <==> k != v && IsActive(LoadMetadata(st).records, k)
    ensures AtMostOneActive(LoadMetadata(st).records) ==> AtMostOneActive(LoadMetadata(r).records)
    ensures ArtifactsPresent(st) ==> ArtifactsPresent(r)
  {
    var path := ArtifactPath(dir, v);
    var meta := Upsert(LoadMetadata(st), v, Record(path, metrics, createdAt, false));
    Store(Some(meta), st.artifacts[path := model], st.alias)
  }

  // ---------------------------------------------------------------------------
  // set_active_model
  // ---------------------------------------------------------------------------

  /** The metadata after the flag-rewriting loop: each record is active exactly when its key is `v`. */
  function OnlyActive(s: Snapshot, v: string): (t: Snapshot)
    requires WellFormed(s)
    ensures WellFormed(t) && t.order == s.order && t.records.Keys == s.records.Keys
    ensures forall k :: k in t.records ==> t.records[k] == s.records[k].(isActive := k == v)
  {
    Snapshot(s.order, map k | k in s.records :: s.records[k].(isActive := k == v))
  }

  /** A new state together with the way the operation ended. */
  datatype Activation = Activation(store: Store, outcome: Outcome<RegistryError>)

  /**
   * The state after set_active_model(v) and whether it raised. The metadata
   * is rewritten and saved first; then the alias is unlinked if it leads to
   * a file; then metadata[v] is looked up (KeyError) and the link created
   * (FileExistsError if a dangling link is still standing there).
   */
  function SetActiveSpec(st: Store, v: string): (a: Activation)
    requires StoreOk(st)
    ensures StoreOk(a.store) && a.store.metadataFile.Some? && a.store.artifacts == st.artifacts
    ensures LoadMetadata(a.store).order == LoadMetadata(st).order
    ensures LoadMetadata(a.store).records.Keys == LoadMetadata(st).records.Keys
    ensures forall k :: k in LoadMetadata(a.store).records ==>
              && LoadMetadata(a.store).records[k].isActive == (k == v)
              && LoadMetadata(a.store).records[k].path == LoadMetadata(st).records[k].path
              && LoadMetadata(a.store).records[k].metrics == LoadMetadata(st).records[k].metrics
              && LoadMetadata(a.store).records[k].createdAt == LoadMetadata(st).records[k].createdAt
    ensures AtMostOneActive(LoadMetadata(a.store).records)
    ensures ArtifactsPresent(st) ==> ArtifactsPresent(a.store)
    ensures a.outcome.Pass? <==> v in LoadMetadata(st).records && (st.alias.None? || AliasExists(st))
    ensures a.outcome.Pass? ==> a.store.alias == Some(LoadMetadata(st).records[v].path)
    ensures v !in LoadMetadata(st).records ==>
              && a.outcome == Fail(KeyError(v))
              && (forall k :: !IsActive(LoadMetadata(a.store).records, k))
              && a.store.alias == (if AliasExists(st) then None else st.alias)
    ensures v in LoadMetadata(st).records && a.outcome.Fail? ==>
              a.outcome == Fail(FileExistsError(AliasPath)) && a.store.alias == st.alias
  {
    var meta := OnlyActive(LoadMetadata(st), v);
    var alias := if AliasExists(st) then None else st.alias;
    if v !in meta.records then
      Activation(Store(Some(meta), st.artifacts, alias), Fail(KeyError(v)))
    else if alias.Some? then
      Activation(Store(Some(meta), st.artifacts, alias), Fail(FileExistsError(AliasPath)))
    else
      Activation(Store(Some(meta), st.artifacts, Some(meta.records[v].path)), Pass)
  }

  /**
   * Activating the same version twice leaves the same metadata as activating
   * it once; and when the link written by the first call leads to the
   * artifact, the second call succeeds and changes nothing at all.
   */
  lemma SetActiveIdempotent(st: Store, v: string)
    requires StoreOk(st)
    ensures SetActiveSpec(SetActiveSpec(st, v).store, v).store.metadataFile == SetActiveSpec(st, v).store.metadataFile
    ensures SetActiveSpec(st, v).outcome.Pass? && AliasExists(SetActiveSpec(st, v).store) ==>
              SetActiveSpec(SetActiveSpec(st, v).store, v) == SetActiveSpec(st, v)
  {
    var s1 := SetActiveSpec(st, v).store;
    var m1 := LoadMetadata(s1);
    var m2 := OnlyActive(m1, v);
    assert m2.records == m1.records;
  }

  // ---------------------------------------------------------------------------
  // get_active_model
  // ---------------------------------------------------------------------------

  /** The first key, in `order`, whose record is active. */
  function FirstActive(order: seq<string>, m: map<string, Record>): (r: Option<string>)
    ensures r.None? <==> forall k :: k in order ==> !IsActive(m, k)
    ensures r.Some? ==> r.value in order && IsActive(m, r.value)
  {
    if order == [] then None
    else if IsActive(m, order[0]) then Some(order[0])
    else
      assert forall k :: k in order ==> k == order[0] || k in order[1..];
      FirstActive(order[1..], m)
  }

  /** FirstActive returns the earliest active key: every key before it is inactive. */
  lemma {:induction false} FirstActiveIsFirst(order: seq<string>, m: map<string, Record>, i: nat)
    requires i < |order| && FirstActive(order, m) == Some(order[i])
    requires forall a, b :: 0 <= a < b < |order| ==> order[a] != order[b]
    ensures forall j :: 0 <= j < i ==> !IsActive(m, order[j])
  {
    if i > 0 && !IsActive(m, order[0]) {
      assert order[1..][i - 1] == order[i];
      FirstActiveIsFirst(order[1..], m, i - 1);
      forall j | 0 < j < i ensures !IsActive(m, order[j]) {
        assert order[j] == order[1..][j - 1];
      }
    }
  }

  /** What get_active_model returns: the first active version and its loaded model, or (None, None). */
  function GetActiveSpec(st: Store): (r: Result<Option<(string, Model)>, RegistryError>)
    requires StoreOk(st)
    ensures r == Success(None) <==> forall k :: !IsActive(LoadMetadata(st).records, k)
    ensures r.Success? && r.value.Some? ==>
              && IsActive(LoadMetadata(st).records, r.value.value.0)
              && LoadMetadata(st).records[r.value.value.0].path in st.artifacts
              && r.value.value.1 == st.artifacts[LoadMetadata(st).records[r.value.value.0].path]
    ensures r.Failure? ==> exists k :: && IsActive(LoadMetadata(st).records, k)
                                       && r.error == FileNotFoundError(LoadMetadata(st).records[k].path)
                                       && LoadMetadata(st).records[k].path !in st.artifacts
    ensures ArtifactsPresent(st) ==> r.Success?
  {
    var meta := LoadMetadata(st);
    match FirstActive(meta.order, meta.records)
    case None => Success(None)
    case Some(v) =>
      var path := meta.records[v].path;
      if path in st.artifacts then Success(Some((v, st.artifacts[path])))
      else Failure(FileNotFoundError(path))
  }

  /** Under the invariant, get_active_model finds the one active version whatever the insertion order. */
  lemma GetActiveFindsTheActive(st: Store, k: string)
    requires StoreOk(st) && AtMostOneActive(LoadMetadata(st).records)
    requires IsActive(LoadMetadata(st).records, k) && LoadMetadata(st).records[k].path in st.artifacts
    ensures GetActiveSpec(st) == Success(Some((k, st.artifacts[LoadMetadata(st).records[k].path])))
  {
  }

  /** A version that was saved and not activated since is never the one get_active_model returns. */
  lemma SavedVersionNotActive(dir: string, st: Store, model: Model, metrics: Metrics, v: string, createdAt: string)
    requires StoreOk(st)
    ensures var r := GetActiveSpec(SaveSpec(dir, st, model, metrics, v, createdAt));
            r.Success? && r.value.Some? ==> r.value.value.0 != v
  {
  }

  // ---------------------------------------------------------------------------
  // Sequences of registry operations
  // ---------------------------------------------------------------------------

  /** A registry call that changes the store. */
  datatype Op =
    | Save(model: Model, metrics: Metrics, version: string, createdAt: string)
    | Activate(version: string)

  function Apply(dir: string, st: Store, op: Op): (r: Store)
    requires StoreOk(st)
    ensures StoreOk(r)
  {
    match op
    case Save(model, metrics, v, createdAt) => SaveSpec(dir, st, model, metrics, v, createdAt)
    case Activate(v) => SetActiveSpec(st, v).store
  }

  /** The state after the calls in `ops`, in order (a call that raised has still left its writes behind). */
  function Run(dir: string, st: Store, ops: seq<Op>): (r: Store)
    requires StoreOk(st)
    ensures StoreOk(r)
    decreases |ops|
  {
    if ops == [] then st else Run(dir, Apply(dir, st, ops[0]), ops[1..])
  }

  /** However saves and activations interleave, at most one record is active and every record's artifact exists. */
  lemma {:induction false} RunKeepsInvariant(dir: string, st: Store, ops: seq<Op>)
    requires StoreOk(st) && AtMostOneActive(LoadMetadata(st).records) && ArtifactsPresent(st)
    ensures AtMostOneActive(LoadMetadata(Run(dir, st, ops)).records) && ArtifactsPresent(Run(dir, st, ops))
    decreases |ops|
  {
    if ops != [] {
      RunKeepsInvariant(dir, Apply(dir, st, ops[0]), ops[1..]);
    }
  }

  /** save_model called once per version of `vs`, in order. */
  function SaveAll(dir: string, st: Store, model: Model, metrics: Metrics, vs: seq<string>, createdAt: string): (r: Store)
    requires StoreOk(st)
    ensures StoreOk(r)
    decreases |vs|
  {
    if vs == [] then st else SaveAll(dir, SaveSpec(dir, st, model, metrics, vs[0], createdAt), model, metrics, vs[1..], createdAt)
  }

  ghost predicate Distinct(vs: seq<string>) {
    forall i, j :: 0 <= i < j < |vs| ==> vs[i] != vs[j]
  }

  /**
   * Saving N new, distinct versions adds exactly N records, listed in the
   * order they were saved.
   */
  lemma {:induction false} SaveAllListsEveryVersion(dir: string, st: Store, model: Model, metrics: Metrics, vs: seq<string>, createdAt: string)
    requires StoreOk(st) && Distinct(vs)
    requires forall i :: 0 <= i < |vs| ==> vs[i] !in LoadMetadata(st).records
    ensures LoadMetadata(SaveAll(dir, st, model, metrics, vs, createdAt)).order == LoadMetadata(st).order + vs
    decreases |vs|
  {
    if vs != [] {
      var s1 := SaveSpec(dir, st, model, metrics, vs[0], createdAt);
      var o := LoadMetadata(st).order;
      assert LoadMetadata(s1).order == o + [vs[0]];
      assert forall i :: 0 <= i < |vs[1..]| ==> vs[1..][i] !in LoadMetadata(s1).records by {
        forall i | 0 <= i < |vs[1..]| ensures vs[1..][i] !in LoadMetadata(s1).records {
          assert vs[1..][i] == vs[i + 1];
        }
      }
      assert Distinct(vs[1..]) by {
        forall i, j | 0 <= i < j < |vs[1..]| ensures vs[1..][i] != vs[1..][j] {
          assert vs[1..][i] == vs[i + 1] && vs[1..][j] == vs[j + 1];
        }
      }
      SaveAllListsEveryVersion(dir, s1, model, metrics, vs[1..], createdAt);
      calc {
        LoadMetadata(SaveAll(dir, st, model, metrics, vs, createdAt)).order;
        LoadMetadata(SaveAll(dir, s1, model, metrics, vs[1..], createdAt)).order;
        (o + [vs[0]]) + vs[1..];
        { AppendFirst(o, vs); }
        o + vs;
      }
    }
  }

  lemma AppendFirst(o: seq<string>, vs: seq<string>)
    requires vs != []
    ensures (o + [vs[0]]) + vs[1..] == o + vs
  {
    assert [vs[0]] + vs[1..] == vs;
  }

  /** Saving never activates anything: the active records after a run of saves are those before it, minus the re-saved ones. */
  lemma {:induction false} SaveAllActivatesNothing(dir: string, st: Store, model: Model, metrics: Metrics, vs: seq<string>, createdAt: string)
    requires StoreOk(st)
    ensures forall k :: IsActive(LoadMetadata(SaveAll(dir, st, model, metrics, vs, createdAt)).records, k) <==>
                          k !in vs && IsActive(LoadMetadata(st).records, k)
    decreases |vs|
  {
    if vs != [] {
      var s1 := SaveSpec(dir, st, model, metrics, vs[0], createdAt);
      SaveAllActivatesNothing(dir, s1, model, metrics, vs[1..], createdAt);
      assert forall k :: k in vs <==> k == vs[0] || k in vs[1..];
    }
  }

  // ---------------------------------------------------------------------------
  // set_active_model, corrected
  // ---------------------------------------------------------------------------

  /** A link target that leads from the alias's directory to `path`. */
  function AliasTarget(path: string): (t: string)
    ensures ResolveAlias(t) == path
  {
    if IsAbsolute(path) then path
    else
      var t := "../" + path;
      assert ClimbsUp(t) && t[3..] == path;
      t
  }

  /**
   * set_active_model as it is evidently meant to behave: an unknown version
   * fails before anything is written, and the alias is replaced whether or
   * not its old target still exists, by a link that leads to the artifact.
   */
  function SetActiveCorrected(st: Store, v: string): (a: Activation)
    requires StoreOk(st)
    ensures StoreOk(a.store)
    ensures v !in LoadMetadata(st).records ==> a == Activation(st, Fail(KeyError(v)))
    ensures v in LoadMetadata(st).records ==>
              && a.outcome == Pass
              && a.store.artifacts == st.artifacts
              && LoadMetadata(a.store).order == LoadMetadata(st).order
              && LoadMetadata(a.store).records.Keys == LoadMetadata(st).records.Keys
              && (forall k :: IsActive(LoadMetadata(a.store).records, k) <==> k == v)
              && a.store.alias.Some?
              && ResolveAlias(a.store.alias.value) == LoadMetadata(st).records[v].path
  {
    var meta := LoadMetadata(st);
    if v !in meta.records then Activation(st, Fail(KeyError(v)))
    else
      var meta' := OnlyActive(meta, v);
      Activation(Store(Some(meta'), st.artifacts, Some(AliasTarget(meta'.records[v].path))), Pass)
  }

  /** The corrected activation is idempotent on the whole store, alias included, and its alias leads to the artifact. */
  lemma SetActiveCorrectedIdempotent(st: Store, v: string)
    requires StoreOk(st)
    ensures SetActiveCorrected(SetActiveCorrected(st, v).store, v) == SetActiveCorrected(st, v)
    ensures ArtifactsPresent(st) && v in LoadMetadata(st).records ==> AliasExists(SetActiveCorrected(st, v).store)
  {
    var a := SetActiveCorrected(st, v);
    if v in LoadMetadata(st).records {
      var m1 := LoadMetadata(a.store);
      assert OnlyActive(m1, v).records == m1.records;
    }
  }

  /**
   * As written, with the default relative registry directory: in a fresh
   * registry, the link written by the first activation of any version does
   * not lead to its artifact, so activating it again raises FileExistsError.
   */
  lemma ReactivationFailsWithDefaultDir(m: Model, v: string, createdAt: string)
    ensures var s1 := SaveSpec(DefaultDir, Store(None, map[], None), m, map[], v, createdAt);
            var a1 := SetActiveSpec(s1, v);
            && a1.outcome == Pass
            && !AliasExists(a1.store)
            && SetActiveSpec(a1.store, v).outcome == Fail(FileExistsError(AliasPath))
  {
    var path := ArtifactPath(DefaultDir, v);
    assert path[0] == 'a' && path[..3] != "../";
    assert |ResolveAlias(path)| != |path|;
  }

  /**
   * As written: activating an unknown version clears the flag of the active
   * one and saves that, so the registry is left with no active model.
   */
  lemma UnknownVersionDeactivatesAll(m: Model, createdAt: string)
    ensures var s1 := SaveSpec(DefaultDir, Store(None, map[], None), m, map[], "1", createdAt);
            var s2 := SetActiveSpec(s1, "1").store;
            var a := SetActiveSpec(s2, "2");
            && GetActiveSpec(s2) == Success(Some(("1", m)))
            && a.outcome == Fail(KeyError("2"))
            && GetActiveSpec(a.store) == Success(None)
  {
    var s1 := SaveSpec(DefaultDir, Store(None, map[], None), m, map[], "1", createdAt);
    var s2 := SetActiveSpec(s1, "1").store;
    assert IsActive(LoadMetadata(s2).records, "1");
    GetActiveFindsTheActive(s2, "1");
  }

  // ---------------------------------------------------------------------------
  // The loops of set_active_model and get_active_model
  // ---------------------------------------------------------------------------

  /** Records whose flags have all been rewritten are those of OnlyActive. */
  lemma AllFlagsRewritten(metadata: Snapshot, version: string, records: map<string, Record>)
    requires WellFormed(metadata) && records.Keys == metadata.records.Keys
    requires forall j :: 0 <= j < |metadata.order| ==>
               records[metadata.order[j]] == metadata.records[metadata.order[j]].(isActive := metadata.order[j] == version)
    ensures records == OnlyActive(metadata, version).records
  {
    forall k | k in records ensures records[k] == metadata.records[k].(isActive := k == version) {
      var j :| 0 <= j < |metadata.order| && metadata.order[j] == k;
    }
  }

  /** The flag loop of set_active_model: visits the keys in order and sets each record's flag to `k == version`. */
  method RewriteFlags(metadata: Snapshot, version: string) returns (records: map<string, Record>)
    requires WellFormed(metadata)
    ensures records == OnlyActive(metadata, version).records
  {
    var order := metadata.order;
    records := metadata.records;
    var i := 0;
    while i < |order|
      invariant 0 <= i <= |order|
      invariant records.Keys == metadata.records.Keys
      invariant forall j :: 0 <= j < i ==> records[order[j]] == metadata.records[order[j]].(isActive := order[j] == version)
      invariant forall j :: i <= j < |order| ==> records[order[j]] == metadata.records[order[j]]
    {
      var v := order[i];
      assert forall j :: 0 <= j < |order| && j != i ==> order[j] != v;
      records := records[v := records[v].(isActive := v == version)];
      i := i + 1;
    }
    AllFlagsRewritten(metadata, version, records);
  }

  /** The scan of get_active_model: the first key in `order` whose record is active, stopping there. */
  method ScanForActive(order: seq<string>, m: map<string, Record>) returns (r: Option<string>)
    ensures r == FirstActive(order, m)
  {
    var i := 0;
    while i < |order|
      invariant 0 <= i <= |order|
      invariant FirstActive(order, m) == FirstActive(order[i..], m)
    {
      assert order[i..][0] == order[i];
      if order[i] in m && m[order[i]].isActive {
        return Some(order[i]);
      }
      assert order[i..][1..] == order[i + 1..];
      i := i + 1;
    }
    return None;
  }

  // ---------------------------------------------------------------------------
  // The registry object
  // ---------------------------------------------------------------------------

  /**
   * ModelRegistry: every operation reads the metadata file afresh, changes
   * it and writes it back, so the fields below are the files themselves.
   */
  class ModelRegistry {
    const dir: string
    var metadataFile: Option<Snapshot>
    var artifacts: map<string, Model>
    var alias: Option<string>

    ghost predicate Valid()
      reads this
    {
      StoreOk(State())
    }

    function State(): Store
      reads this
    {
      Store(metadataFile, artifacts, alias)
    }

    /** A registry over directory `dir` whose files are in state `disk`. */
    constructor (dir: string, disk: Store)
      requires StoreOk(disk)
      ensures this.dir == dir && State() == disk && Valid()
    {
      this.dir := dir;
      metadataFile := disk.metadataFile;
      artifacts := disk.artifacts;
      alias := disk.alias;
    }

    /**
     * save_model: writes the artifact and an inactive record under the given
     * version, or under the stamp of `now`; `savedAt` is the later clock
     * reading that becomes created_at.
     */
    method SaveModel(model: Model, metrics: Metrics, version: Option<string>, now: Clock.DateTime, savedAt: Clock.DateTime)
      returns (v: string)
      requires Valid()
      modifies this
      ensures Valid()
      ensures v == AssignedVersion(version, now)
      ensures State() == SaveSpec(dir, old(State()), model, metrics, v, Clock.IsoFormat(savedAt))
    {
      if version.None? {
        v := Clock.VersionStamp(now);
      } else {
        v := version.value;
      }
      var path := ArtifactPath(dir, v);
      artifacts := artifacts[path := model];
      var metadata := LoadMetadata(State());
      var order := metadata.order;
      if v !in metadata.records {
        order := order + [v];
      }
      var records := metadata.records[v := Record(path, metrics, Clock.IsoFormat(savedAt), false)];
      metadataFile := Some(Snapshot(order, records));
    }

    /** set_active_model: rewrites every record's flag, saves, then repoints the alias. */
    method SetActiveModel(version: string) returns (outcome: Outcome<RegistryError>)
      requires Valid()
      modifies this
      ensures Valid()
      ensures State() == SetActiveSpec(old(State()), version).store
      ensures outcome == SetActiveSpec(old(State()), version).outcome
    {
      var metadata := LoadMetadata(State());
      var records := RewriteFlags(metadata, version);
      metadataFile := Some(Snapshot(metadata.order, records));

      if alias.Some? && ResolveAlias(alias.value) in artifacts {
        alias := None;
      }
      if version !in records {
        return Fail(KeyError(version));
      }
      if alias.Some? {
        return Fail(FileExistsError(AliasPath));
      }
      alias := Some(records[version].path);
      return Pass;
    }

    /** get_active_model: scans the records in insertion order for the first active one and loads its artifact. */
    method GetActiveModel() returns (r: Result<Option<(string, Model)>, RegistryError>)
      requires Valid()
      ensures r == GetActiveSpec(State())
    {
      var metadata := LoadMetadata(State());
      var active := ScanForActive(metadata.order, metadata.records);
      if active.None? {
        return Success(None);
      }
      var version := active.value;
      var path := metadata.records[version].path;
      if path !in artifacts {
        return Failure(FileNotFoundError(path));
      }
      return Success(Some((version, artifacts[path])));
    }

    /** list_models: the whole metadata document, empty when there is no file. */
    method ListModels() returns (s: Snapshot)
      requires Valid()
      ensures WellFormed(s) && s == LoadMetadata(State())
      ensures metadataFile.None? ==> s.records == map[]
    {
      s := LoadMetadata(State());
    }
  }
}
