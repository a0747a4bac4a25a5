/**
 * The training entry point: its configuration, the estimator it builds, and
 * the step that saves the fitted model under a timestamped name. Splitting,
 * fitting, evaluation and experiment tracking are library calls, folded into
 * one opaque `fit` function here.
 */
module Trainer {
  import opened Results
  import Lex
  import Clock
  import Naming
  import Store
  import Latest

  /** `TrainConfig`; the two float fields are passed on unchanged and never computed with. */
  datatype TrainConfig = TrainConfig(testSize: real, randomState: int, maxIter: int, c: real)

  /** The keyword arguments `create_model` gives `LogisticRegression`. */
  datatype LogRegParams = LogRegParams(maxIter: int, c: real, solver: string)

  /** The split arguments `train` gives `train_test_split`. */
  datatype SplitParams = SplitParams(testSize: real, randomState: int)

  /** `TrainConfig()`. */
  function DefaultConfig(): (cfg: TrainConfig)
    ensures cfg.testSize == 0.2 && cfg.randomState == 42 && cfg.maxIter == 1000 && cfg.c == 1.0
  {
    TrainConfig(0.2, 42, 1000, 1.0)
  }

  /**
   * The ranges the configuration fields are meant to have; documentation
   * only. The code checks none of them, and scikit-learn's own checks inside
   * `fit` differ (it also accepts max_iter 0 and an integer test size).
   */
  predicate Sensible(cfg: TrainConfig)
  {
    0.0 < cfg.testSize < 1.0 && cfg.maxIter > 0 && cfg.c > 0.0
  }

  lemma DefaultConfigIsSensible()
    ensures Sensible(DefaultConfig())
  {
  }

  function CreateModel(cfg: TrainConfig): LogRegParams
  {
    LogRegParams(cfg.maxIter, cfg.c, "lbfgs")
  }

  /**
   * The estimator is configured by `max_iter` and `C` alone, always with the
   * lbfgs solver: two configurations give the same estimator exactly when
   * those two fields agree.
   */
  lemma CreateModelUsesIterationsAndC(cfg1: TrainConfig, cfg2: TrainConfig)
    ensures CreateModel(cfg1).solver == "lbfgs"
    ensures CreateModel(cfg1).maxIter == cfg1.maxIter && CreateModel(cfg1).c == cfg1.c
    ensures CreateModel(cfg1) == CreateModel(cfg2) <==> cfg1.maxIter == cfg2.maxIter && cfg1.c == cfg2.c
  {
  }

  /**
   * The directory contents after saving `model` at time `now`: one entry, the
   * name of `now`, is added or replaced; every other entry is kept as it was.
   */
  function Saved<M>(files: map<string, Store.Artifact<M>>, model: M, now: Clock.Timestamp): (after: map<string, Store.Artifact<M>>)
    requires Clock.Valid(now)
    ensures after.Keys == files.Keys + {Naming.ArtifactName(now)}
    ensures after[Naming.ArtifactName(now)] == Store.Intact(model)
    ensures forall n :: n in files && n != Naming.ArtifactName(now) ==> after[n] == files[n]
  {
    files[Naming.ArtifactName(now) := Store.Intact(model)]
  }

  /** The save step of `train`: create the directory, name the file after `now`, write the model, return the name. */
  method SaveArtifact<M>(dir: Store.ModelsDir<M>, model: M, now: Clock.Timestamp) returns (path: string)
    requires dir.Valid() && Clock.Valid(now)
    modifies dir
    ensures dir.Valid() && dir.present
    ensures path == Naming.ArtifactName(now) && Naming.MatchesArtifactPattern(path)
    ensures dir.files == Saved(old(dir.files), model, now)
    ensures path in dir.files && dir.files[path] == Store.Intact(model)
    ensures forall n :: n in old(dir.files) && n != path ==> n in dir.files && dir.files[n] == old(dir.files)[n]
  {
    dir.MakeDir();
    path := Naming.ArtifactName(now);
    dir.Write(path, Store.Intact(model));
  }

  /**
   * How the MLflow block before the save ends: it completes, or one of its
   * calls raises (an unreachable tracking server, say) and the exception
   * leaves `train`.
   */
  datatype Tracking = Logged | TrackingFailed(cause: string)

  /**
   * `train`: split the data and fit the estimator built from the
   * configuration (one opaque `fit`, which fails when scikit-learn rejects the
   * split or the fit, e.g. test_size 0.0 or C <= 0), log to MLflow, then save
   * and return the path. Nothing before the save has a `try`, so when the fit
   * or tracking raises the save is never reached and the directory is left
   * untouched.
   */
  method Train<M>(cfg: TrainConfig, fit: (LogRegParams, SplitParams) -> Result<M, string>, tracking: Tracking,
                  dir: Store.ModelsDir<M>, now: Clock.Timestamp) returns (r: Result<string, string>)
    requires dir.Valid() && Clock.Valid(now)
    modifies dir
    ensures dir.Valid()
    ensures var fitted := fit(CreateModel(cfg), SplitParams(cfg.testSize, cfg.randomState));
      fitted.Err? ==> r == Err(fitted.error) && dir.present == old(dir.present) && dir.files == old(dir.files)
    ensures var fitted := fit(CreateModel(cfg), SplitParams(cfg.testSize, cfg.randomState));
      fitted.Ok? && tracking.TrackingFailed? ==>
        r == Err(tracking.cause) && dir.present == old(dir.present) && dir.files == old(dir.files)
    ensures var fitted := fit(CreateModel(cfg), SplitParams(cfg.testSize, cfg.randomState));
      fitted.Ok? && tracking.Logged? ==>
        r == Ok(Naming.ArtifactName(now)) && dir.present && dir.files == Saved(old(dir.files), fitted.value, now)
  {
    var fitted := fit(CreateModel(cfg), SplitParams(cfg.testSize, cfg.randomState));
    if fitted.Err? {
      return Err(fitted.error);
    }
    if tracking.TrackingFailed? {
      return Err(tracking.cause);
    }
    var path := SaveArtifact(dir, fitted.value, now);
    r := Ok(path);
  }

  /**
   * Two saves in the same second: the second replaces the first under the same
   * name, and the first model is no longer in the directory unless it was there before.
   */
  lemma SameSecondSaveOverwrites<M>(files: map<string, Store.Artifact<M>>, m1: M, m2: M,
                                    t1: Clock.Timestamp, t2: Clock.Timestamp)
    requires Clock.Valid(t1) && Clock.Valid(t2) && Clock.SameSecond(t1, t2)
    ensures Saved(Saved(files, m1, t1), m2, t2) == Saved(files, m2, t1)
    ensures Saved(Saved(files, m1, t1), m2, t2).Keys == files.Keys + {Naming.ArtifactName(t1)}
  {
  }

  /** Saves in different seconds (four-digit years) keep both models. */
  lemma DistinctSecondsKeepBoth<M>(files: map<string, Store.Artifact<M>>, m1: M, m2: M,
                                   t1: Clock.Timestamp, t2: Clock.Timestamp)
    requires Naming.FourDigitYear(t1) && Naming.FourDigitYear(t2) && !Clock.SameSecond(t1, t2)
    ensures var after := Saved(Saved(files, m1, t1), m2, t2);
      && Naming.ArtifactName(t1) != Naming.ArtifactName(t2)
      && after[Naming.ArtifactName(t1)] == Store.Intact(m1)
      && after[Naming.ArtifactName(t2)] == Store.Intact(m2)
  {
    Naming.NameOrderIsChronological(t1, t2);
    Clock.FieldsOrderIsChronological(t1, t2);
  }

  /**
   * If every artifact already in the directory was saved by a run no later
   * than `now` (four-digit years), the file saved at `now` is the latest: the
   * selection rule picks the most recent save.
   */
  lemma NewestSaveIsLatest<M>(files: map<string, Store.Artifact<M>>, model: M, now: Clock.Timestamp)
    requires Naming.FourDigitYear(now)
    requires forall n :: n in files && Naming.MatchesArtifactPattern(n) ==>
      exists t :: Naming.FourDigitYear(t) && n == Naming.ArtifactName(t) && Clock.EpochSecond(t) <= Clock.EpochSecond(now)
    ensures Latest.IsLatestIn(Naming.ArtifactName(now), Saved(files, model, now).Keys)
  {
    var p := Naming.ArtifactName(now);
    var after := Saved(files, model, now).Keys;
    forall n | n in Latest.Artifacts(after)
      ensures Lex.LessEq(n, p)
    {
      if n != p {
        var t :| Naming.FourDigitYear(t) && n == Naming.ArtifactName(t) && Clock.EpochSecond(t) <= Clock.EpochSecond(now);
        Naming.NameOrderIsChronological(t, now);
      }
    }
  }

  /**
   * Saving into a directory listed in any order and resolving again returns
   * the new file, under the same assumption on earlier artifacts.
   */
  lemma ResolveAfterSave<M>(files: map<string, Store.Artifact<M>>, model: M, now: Clock.Timestamp, listing: seq<string>)
    requires Naming.FourDigitYear(now)
    requires forall n :: n in files && Naming.MatchesArtifactPattern(n) ==>
      exists t :: Naming.FourDigitYear(t) && n == Naming.ArtifactName(t) && Clock.EpochSecond(t) <= Clock.EpochSecond(now)
    requires forall n :: n in listing <==> n in Saved(files, model, now)
    ensures Latest.GetLatestModelPath(Some(listing)) == Ok(Naming.ArtifactName(now))
  {
    NewestSaveIsLatest(files, model, now);
    var names := Saved(files, model, now).Keys;
    assert Latest.Elems(listing) == names;
    var r := Latest.GetLatestModelPath(Some(listing));
    assert Naming.ArtifactName(now) in Latest.Artifacts(names);
    Latest.LatestIsUnique(r.value, Naming.ArtifactName(now), names);
  }
}
