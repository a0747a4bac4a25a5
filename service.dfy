/**
 * The prediction service's process state: the module-level `_model` cache,
 * filled lazily from the latest artifact, the `/predict` handler that uses it,
 * and the health probe.
 */
module Service {
  import opened Results
  import Clock
  import Naming
  import Store
  import Latest
  import Inference
  import Trainer

  datatype LoadError =
    | Unresolved(cause: Latest.ResolveError)  // the `RuntimeError` of `_get_latest_model_path`
    | LoadFailed(path: string)                // `joblib.load` raised

  /** `joblib.load` of the file `p` holding `a`: the model it holds, or an error naming `p`. */
  function LoadEntry<M>(p: string, a: Store.Artifact<M>): (r: Result<M, LoadError>)
    ensures r.Ok? <==> a.Intact?
    ensures r.Ok? ==> r.value == a.model
    ensures r.Err? ==> r.error == LoadFailed(p)
  {
    match a
    case Intact(m) => Ok(m)
    case Unreadable => Err(LoadFailed(p))
  }

  /**
   * `r` is what resolving the latest artifact of a directory in this state and
   * loading it gives; it does not depend on the order the directory is listed in.
   */
  ghost predicate ResolvesTo<M>(present: bool, files: map<string, Store.Artifact<M>>, r: Result<M, LoadError>)
  {
    if !present then r == Err(Unresolved(Latest.DirectoryNotFound))
    else if Latest.Artifacts(files.Keys) == {} then r == Err(Unresolved(Latest.NoArtifacts))
    else exists p :: Latest.IsLatestIn(p, files.Keys) && r == LoadEntry(p, files[p])
  }

  /** `GET /health`: a fixed answer that reads neither the cache nor the directory. */
  function Health(): (status: map<string, string>)
    ensures status.Keys == {"status"} && status["status"] == "ok"
  {
    map["status" := "ok"]
  }

  class Service<M> {
    /** `_model`: `None` until a load succeeds, then the loaded model for good. */
    var model: Option<M>

    constructor ()
      ensures model == None
    {
      model := None;
    }

    /**
     * `load_model`: with a model cached, return it without looking at the
     * directory; otherwise resolve the latest artifact and load it, caching
     * the model only when both steps succeed.
     */
    method LoadModel(dir: Store.ModelsDir<M>) returns (r: Result<M, LoadError>)
      requires dir.Valid()
      modifies this
      ensures old(model).Some? ==> r == Ok(old(model).value) && model == old(model)
      ensures old(model).None? ==> ResolvesTo(dir.present, dir.files, r)
      ensures old(model).None? ==> model == (if r.Ok? then Some(r.value) else None)
    {
      if model.Some? {
        return Ok(model.value);
      }
      var listing := dir.List();
      var path := Latest.GetLatestModelPath(listing);
      if path.Err? {
        return Err(Unresolved(path.error));
      }
      var p := path.value;
      assert Latest.Elems(listing.value) == dir.files.Keys;
      r := LoadEntry(p, dir.files[p]);
      if r.Ok? {
        model := Some(r.value);
      }
    }

    /**
     * `POST /predict`: request validation first (an empty row is rejected
     * before the handler runs), then `load_model` (whose failure escapes as a
     * server error, even for an empty request), then the handler body.
     */
    method Predict<F, S>(dir: Store.ModelsDir<M>, rows: seq<seq<F>>,
                         labelsOf: (M, seq<seq<F>>) -> Result<seq<int>, Inference.Exc>,
                         scoresOf: (M, seq<seq<F>>) -> Result<seq<seq<S>>, Inference.Exc>)
      returns (resp: Inference.Response<S>)
      requires dir.Valid()
      modifies this
      ensures Inference.EmptyRows(rows) != [] ==>
        resp == Inference.Unprocessable(Inference.EmptyRows(rows)) && model == old(model)
      ensures Inference.EmptyRows(rows) == [] && old(model).Some? ==>
        model == old(model) && resp == Inference.Infer(old(model).value, rows, labelsOf, scoresOf)
      ensures Inference.EmptyRows(rows) == [] && old(model).None? ==>
        exists r :: ResolvesTo(dir.present, dir.files, r)
          && model == (if r.Ok? then Some(r.value) else None)
          && resp == (if r.Ok? then Inference.Infer(r.value, rows, labelsOf, scoresOf) else Inference.InternalError)
    {
      var invalid := Inference.EmptyRows(rows);
      if invalid != [] {
        return Inference.Unprocessable(invalid);
      }
      var loaded := LoadModel(dir);
      if loaded.Err? {
        resp := Inference.InternalError;
      } else {
        resp := Inference.Infer(loaded.value, rows, labelsOf, scoresOf);
      }
    }
  }

  /**
   * A request before any training fails and caches nothing; after a save, the
   * retry loads that artifact.
   */
  method RetryAfterTraining(now: Clock.Timestamp, fitted: int)
    returns (first: Result<int, LoadError>, retry: Result<int, LoadError>)
    requires Clock.Valid(now)
    ensures first == Err(Unresolved(Latest.DirectoryNotFound))
    ensures retry == Ok(fitted)
  {
    var dir := new Store.ModelsDir<int>(false, map[]);
    var svc := new Service<int>();

    first := svc.LoadModel(dir);
    assert first == Err(Unresolved(Latest.DirectoryNotFound)) && svc.model == None;

    var path := Trainer.SaveArtifact(dir, fitted, now);
    retry := svc.LoadModel(dir);
    assert Latest.Artifacts(dir.files.Keys) == {path};
    assert retry == Ok(fitted) && svc.model == Some(fitted);
  }

  /**
   * Once loaded, the cached model stays: a newer artifact saved later is what
   * resolution would now pick, but the running service keeps the old model.
   */
  method NoReloadOnceLoaded(svc: Service<int>, dir: Store.ModelsDir<int>, fitted: int, later: Clock.Timestamp)
    returns (resolved: Result<string, Latest.ResolveError>, again: Result<int, LoadError>)
    requires dir.Valid() && Naming.FourDigitYear(later) && svc.model.Some?
    requires forall n :: n in dir.files && Naming.MatchesArtifactPattern(n) ==>
      exists t :: Naming.FourDigitYear(t) && n == Naming.ArtifactName(t) && Clock.EpochSecond(t) <= Clock.EpochSecond(later)
    modifies svc, dir
    ensures resolved == Ok(Naming.ArtifactName(later))
    ensures again == Ok(old(svc.model).value) && svc.model == old(svc.model)
  {
    var before := dir.files;
    var path := Trainer.SaveArtifact(dir, fitted, later);
    var listing := dir.List();
    Trainer.ResolveAfterSave(before, fitted, later, listing.value);
    resolved := Latest.GetLatestModelPath(listing);
    again := svc.LoadModel(dir);
  }
}
