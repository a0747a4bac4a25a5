# NimbusOps model artifact lifecycle, in Dafny

NimbusOps trains a logistic-regression classifier, saves it under `models/` as
`model_logreg_YYYYMMDD_HHMMSS.joblib` (the UTC time of the save), and serves the
newest such file behind `POST /predict`. This project models the part of that
system with real logic:

- **Naming** (`naming.dfy`, `clock.dfy`, `lex.dfy`): the timestamp rendered by
  `strftime("%Y%m%d_%H%M%S")`, the artifact name built from it, and Python's
  string order. The central result is `Naming.NameOrderIsChronological`: for
  four-digit years, one name sorts before another exactly when its save fell in
  an earlier second, and two names are equal exactly when the saves fell in the
  same second. Chronology is an independent reference, `Clock.EpochSecond`
  (seconds since 0001-01-01 on the proleptic Gregorian calendar).
- **The models directory** (`store.dfy`): a class whose fields say whether the
  directory exists and map each file name to its content (a model as
  `joblib.dump` wrote it, or a file `joblib.load` cannot read). Listing it yields
  every name once, in an order the model leaves open.
- **Saving** (`trainer.dfy`): `TrainConfig` and its defaults, the estimator
  parameters `create_model` passes on, and the save step of `train`, which
  creates the directory and writes the map entry for the new name, replacing a
  file of the same name. The same-second overwrite hazard is proved
  (`Trainer.SameSecondSaveOverwrites`), as is the fact that the newest save is
  the one resolution then picks (`Trainer.ResolveAfterSave`).
- **Resolution** (`latest.dfy`): `_get_latest_model_path`, as a function of the
  listing: the missing-directory and no-match errors, the `model_logreg_*.joblib`
  filter, and the lexicographic maximum. The result depends only on the set of
  matching names (`Latest.OnlyMatchingNamesMatter`).
- **Serving** (`service.dfy`, `inference.dfy`): the module-level `_model` cache as
  a class with an `Option` field and a `LoadModel` method (empty until a load
  succeeds, then fixed), the `/predict` handler (request validation, the
  empty-request error, the mapping of model exceptions to a 400 whose detail is
  `"Model inference failed: "` plus the exception text, and the per-row outputs),
  and the health probe. The classifier is a pair of opaque functions; scores are
  a type parameter, not reals.

Inputs that the source takes from the environment are parameters here: the
current time (`now`), the fitted model (an opaque `fit` function of the
estimator parameters and split parameters, which may fail), the directory contents (a
`Store.ModelsDir` object), and the classifier's `predict` and `predict_proba`.
Paths are file names relative to `models/`.

Behaviour of the code worth knowing, which the model reproduces:

- `np.array(req.features, dtype=float)` (src/predict.py:78) is outside the `try`
  block, so rows of unequal length raise an uncaught `ValueError` and the
  service answers 500. `Inference.Infer` returns `InternalError` for that case.
- A second save in the same second overwrites the first file; nothing prevents
  it.
- The MLflow block (src/train.py:91-106) has no `try`: when a tracking call
  raises, `train` ends before the save and no artifact is written.
- `TrainConfig` itself validates nothing. scikit-learn rejects bad values when
  `train` runs: `train_test_split` raises for a test size such as 0.0
  (src/train.py:68-74) and `fit` raises for C <= 0 or a negative max_iter
  (src/train.py:77). `train` then stops before the save and writes nothing;
  `Trainer.Train` models this as a failing `fit`. `Trainer.Sensible` only
  documents the ranges the fields are meant to have.
- `load_model` has no locking; concurrent first calls may each load.
- `%Y` as glibc's `strftime` renders it does not zero-pad years below 1000, so
  the fixed-width format and the ordering hold for years 1000 to 9999 only.
  `Naming.ShortYearBreaksOrder` shows where the order fails: 0999-12-31 23:59:59
  is named after 1000-01-01 00:00:00. This is the rendering of CPython releases
  that hand `%Y` to the platform unchanged; releases that include gh-120713
  (CPython 3.13 among them) pad `%Y` to four digits on Linux, and there every
  year from 1 to 9999 gives a fixed-width name.

## Model

| member | source | states |
|---|---|---|
| `Lex.Less` | src/predict.py:46 | the order `sorted` uses on the names; `Lex.LessIsFirstDifference` states its meaning, and `Lex.Irreflexive`, `Lex.Asymmetric`, `Lex.Transitive`, `Lex.Trichotomy` that it is a strict total order |
| `Lex.LessIsFirstDifference` | src/predict.py:46 | a sorts before b iff a is a proper prefix of b, or at the first index where they differ a's character is smaller |
| `Lex.Irreflexive` | src/predict.py:46 | no name sorts before itself under Python's string order |
| `Lex.Asymmetric` | src/predict.py:46 | if a sorts before b, b does not sort before a |
| `Lex.Transitive` | src/predict.py:46 | the string order is transitive |
| `Lex.Trichotomy` | src/predict.py:46 | any two names are equal or one sorts before the other, so `sorted` has a well-defined last element |
| `Lex.Concat` | src/train.py:110-111 | concatenations with equal-length first parts compare by the first parts, then by the second; they are equal iff both parts are |
| `Clock.FieldsOrderIsChronological` | src/train.py:110 | dictionary order on year, month, day, hour, minute, second is the order on the time line at second resolution; same second iff same epoch second |
| `Clock.SecondsFollowMicroseconds` | src/train.py:110 | dropping the microseconds never reverses the order of two instants |
| `Naming.Padded` | src/train.py:110 | the zero-padded field has exactly the requested width and only digit characters |
| `Naming.Decimal` | src/train.py:110 | the unpadded year has at least one character, all digits |
| `Naming.YearIsFourDigits` | src/train.py:110 | a year from 1000 to 9999 is rendered as its four-digit zero-padded form |
| `Naming.PaddedOrder` | src/train.py:110 | on numbers below 10^w, the order of their w-digit renderings is numeric order, and equal renderings mean equal numbers |
| `Naming.TimestampText` | src/train.py:110 | whatever the year, the timestamp starts with the year's digits and is followed by eleven characters: digits everywhere except one `_` seven from the end |
| `Naming.TimestampTextShape` | src/train.py:110 | for four-digit years the timestamp has 15 characters, `_` at index 8, digits elsewhere, and each field at its fixed position |
| `Naming.TextOrderAtSeconds` | src/train.py:110 | timestamp text order is dictionary order on the fields; equal text iff same second |
| `Naming.ArtifactName` | src/train.py:111 | every artifact name, whatever the year, matches `model_logreg_*.joblib`, and the text between prefix and extension is the timestamp of the save |
| `Naming.MatchesArtifactPattern` | src/predict.py:46 | the glob `model_logreg_*.joblib`; `Naming.PatternIsGlob` states its meaning and `Latest.Candidates` its use |
| `Naming.PatternIsGlob` | src/predict.py:46 | a name matches iff it is `model_logreg_`, then any text, then `.joblib` |
| `Naming.NameOrderIsChronological` | src/train.py:110-111 | for four-digit years, name(t1) < name(t2) iff t1 is in an earlier second; name(t1) == name(t2) iff same second |
| `Naming.LaterSaveSortsNoEarlier` | src/train.py:110-111 | a save at a later or equal instant gets a name that sorts after or equals the earlier one |
| `Naming.SameSecondSameName` | src/train.py:110-111 | any two instants in the same second, whatever their microseconds, get the same name |
| `Naming.ShortYearBreaksOrder` | src/train.py:110 | for years below 1000 the order breaks: the last second of 0999 is named after the first second of 1000 |
| `Latest.Candidates` | src/predict.py:46 | a name is a candidate iff it is in the listing and matches the prefix and extension |
| `Latest.LastSorted` | src/predict.py:46-49 | the last element of the sorted candidates is a candidate and every candidate sorts before or equals it |
| `Latest.GetLatestModelPath` | src/predict.py:42-49 | fails with DirectoryNotFound iff the directory is missing; with NoArtifacts iff it exists and nothing matches; otherwise returns a matching listed name that no matching name sorts after |
| `Latest.LatestIsUnique` | src/predict.py:46-49 | at most one name is the latest of a set of names |
| `Latest.OnlyMatchingNamesMatter` | src/predict.py:46-49 | two listings with the same matching names resolve to the same result, whatever their order and other entries |
| `Latest.NonMatchingEntriesIgnored` | src/predict.py:46 | removing every non-matching entry from the listing does not change the result |
| `Store.ModelsDir.List` | src/predict.py:43-46 | no listing iff the directory is missing; otherwise each file name exactly once |
| `Store.ModelsDir.MakeDir` | src/train.py:109 | afterwards the directory exists and its files are unchanged |
| `Store.ModelsDir.Write` | src/train.py:112 | the named entry now holds the content, replacing any earlier file of that name; no other entry changes |
| `Trainer.DefaultConfig` | src/train.py:38-43 | the defaults are test_size 0.2, random_state 42, max_iter 1000, C 1.0 |
| `Trainer.DefaultConfigIsSensible` | src/train.py:38-43 | the defaults lie in the ranges the fields are meant to have |
| `Trainer.CreateModel` | src/train.py:57-62 | the estimator parameters; `Trainer.CreateModelUsesIterationsAndC` states which fields of the configuration they take |
| `Trainer.CreateModelUsesIterationsAndC` | src/train.py:57-62 | the estimator gets max_iter and C unchanged and the lbfgs solver; two configurations give the same estimator iff their max_iter and C agree |
| `Trainer.Saved` | src/train.py:111-112 | the directory after a save has the old names plus the name of `now`, that name holds the model, and every other entry is unchanged |
| `Trainer.SaveArtifact` | src/train.py:109-115 | the directory exists afterwards; the returned name is the artifact name of `now`, matches the pattern and holds the model; every other entry is unchanged |
| `Trainer.Train` | src/train.py:65-115 | if the split or the fit raises, or then the MLflow block raises, the exception leaves `train` and the directory is unchanged; otherwise the directory gains, under the name of `now`, the model fitted from the estimator parameters and the split parameters of the configuration |
| `Trainer.SameSecondSaveOverwrites` | src/train.py:110-112 | a second save in the same second leaves the directory as if only the second save had happened; it adds at most one entry |
| `Trainer.DistinctSecondsKeepBoth` | src/train.py:110-112 | saves in different seconds (four-digit years) use different names and both models remain |
| `Trainer.NewestSaveIsLatest` | src/train.py:110-111 | if every existing artifact was saved no later than `now`, the file saved at `now` is the latest in the directory |
| `Trainer.ResolveAfterSave` | src/predict.py:42-49 | under the same assumption, resolving any listing of the directory after the save returns the new name |
| `Inference.EmptyRows` | src/predict.py:33-34 | lists, in increasing order, exactly the indices of the rows with no feature |
| `Inference.Rectangular` | src/predict.py:78 | the rows `np.array(..., dtype=float)` turns into a matrix: every two rows have the same length |
| `Inference.PositiveColumn` | src/predict.py:81 | succeeds iff every score row has at least two entries, and then returns the second entry of each row in order; otherwise an IndexError naming a short row's width |
| `Inference.Infer` | src/predict.py:75-88 | empty request: 400 "No feature rows provided."; ragged rows: 500; success iff both model calls succeed and every score row has two entries, with the labels and the second scores in model order; every other failure is a 400 whose detail starts with "Model inference failed: " |
| `Inference.EmptyRequestNeverCallsModel` | src/predict.py:75-76 | the answer to an empty request is the same whatever the classifier does |
| `Inference.FailureCarriesCause` | src/predict.py:79-83 | a failing `predict` or `predict_proba` gives the 400 detail "Model inference failed: " followed by that exception's text |
| `Inference.RowwiseModelKeepsRowOrder` | src/predict.py:85-88 | for a classifier that works row by row, the response has one label and one probability per input row, in input order |
| `Service.LoadEntry` | src/predict.py:56 | `joblib.load` succeeds iff the file holds a model, returns that model, and otherwise fails naming the path |
| `Service.Health` | src/predict.py:66-68 | the answer is `{"status": "ok"}`, read from no state |
| `Service.Service.constructor` | src/predict.py:30 | the cache starts empty |
| `Service.Service.LoadModel` | src/predict.py:52-58 | with a cached model: returns it and the cache is unchanged; with an empty cache: the result is resolution then loading of the directory's latest artifact, and the cache holds the model iff that succeeded |
| `Service.Service.Predict` | src/predict.py:71-88 | a request with an empty row gets 422 and leaves the cache alone; otherwise the model is loaded first, a load failure gives 500 (even for an empty request), and the answer is the handler's result on the loaded model |
| `Service.RetryAfterTraining` | src/predict.py:52-58 | a property of `load_model`, not of a deployed server: before any save it fails with DirectoryNotFound and caches nothing; after a save, the next call returns the saved model |
| `Service.NoReloadOnceLoaded` | src/predict.py:53-58 | after a newer save, resolution picks the new name, but a loaded service still returns its cached model |

## Left out

- scikit-learn: `train_test_split` with stratification, fitting, `predict`,
  `predict_proba`, `accuracy_score`, `roc_auc_score` and its NaN fallback
  (src/train.py:68-88). These are library numerics; splitting and fitting are
  the opaque `fit` parameter, which returns the model or the text of the
  exception it raised, and the classifier is a pair of opaque functions.
- MLflow tracking (src/train.py:91-106): the calls themselves and what they
  record. The block is reduced to its outcome, `Trainer.Tracking`: it completes,
  or it raises and `train` ends before the save; `Trainer.Train` models both.
- joblib serialization. A file holds either a model or unreadable content; how
  bytes are produced and parsed is not modelled.
- FastAPI routing, the body of the 422 and 500 answers (only the indices of the
  empty rows are kept), and pydantic's float coercion of feature values.
- The startup hook (src/predict.py:61-63): it calls `load_model`, and when that
  raises (no `models/` directory, no artifact, an unreadable file) Starlette
  reports that lifespan start-up failed and uvicorn exits. A server started
  normally therefore never answers `/predict` with an empty cache; the model's
  `Predict` and `RetryAfterTraining` cover an empty cache, which only an app
  run without its start-up event reaches.
- `print` calls, the project-root path computation, and the full paths returned
  by `train`; names are relative to `models/`.
- The real clock: the save time is the `now` parameter.
- Concurrency: concurrent first calls to `load_model`.
- A directory entry that matches the pattern but is itself a directory: entries
  are files.
- A regular file named `models`: `present` always means a directory. With such
  a file, resolution fails with "No model artifacts" (`exists()` holds, `glob`
  yields nothing, src/predict.py:43-48), and `mkdir(exist_ok=True)` in `train`
  raises `FileExistsError` (src/train.py:109).
- Non-POSIX file systems: names are compared as strings, which is how `Path`
  objects under one parent compare on POSIX. Windows paths compare case-folded
  and glob there ignores case; the model assumes POSIX.
- Sorting itself: `sorted(candidates)[-1]` is modelled as the maximum of the
  candidates under the string order, which is the same value because the names
  of one directory are distinct and the order is total.
- src/pipeline.py: a wrapper that calls `train` and prints.
- Naming.NameOrderIsChronological: holds for years 1000 to 9999 only, because `%Y` on glibc does not pad shorter years (on CPython releases without gh-120713).
- Service.Service.LoadModel: does not state that storage is not read when the cache is full; it states that the result and the cache do not depend on the directory then.
