/**
 * The `models/` directory shared by training and serving: whether it exists,
 * and a map from file name to what the file holds.
 */
module Store {
  import opened Results

  /** A file that `joblib.load` turns into model `model`, or one it cannot read. */
  datatype Artifact<M> = Intact(model: M) | Unreadable

  class ModelsDir<M> {
    var present: bool
    var files: map<string, Artifact<M>>

    /**
     * A directory that does not exist holds no files. No operation depends on
     * it; it records what a file system guarantees, and every method keeps it.
     */
    ghost predicate Valid()
      reads this
    {
      present || files == map[]
    }

    constructor (present: bool, files: map<string, Artifact<M>>)
      requires present || files == map[]
      ensures Valid() && this.present == present && this.files == files
    {
      this.present := present;
      this.files := files;
    }

    /** Lists the directory: `None` when it does not exist, otherwise every name once, in no particular order. */
    method List() returns (listing: Option<seq<string>>)
      requires Valid()
      ensures listing.None? <==> !present
      ensures listing.Some? ==> (forall n :: n in listing.value <==> n in files)
      ensures listing.Some? ==> forall i, j :: 0 <= i < j < |listing.value| ==> listing.value[i] != listing.value[j]
    {
      if !present {
        return None;
      }
      var names: seq<string> := [];
      var rest := files.Keys;
      while rest != {}
        invariant rest <= files.Keys
        invariant forall n :: n in names ==> n in files && n !in rest
        invariant forall n :: n in files ==> n in names || n in rest
        invariant forall i, j :: 0 <= i < j < |names| ==> names[i] != names[j]
        decreases rest
      {
        var n :| n in rest;
        names := names + [n];
        rest := rest - {n};
      }
      listing := Some(names);
    }

    /** `MODELS_DIR.mkdir(exist_ok=True)`: create the directory if it is missing, keep its files. */
    method MakeDir()
      requires Valid()
      modifies this
      ensures Valid() && present && files == old(files)
    {
      present := true;
    }

    /** Writes `name`, replacing any file already called so. */
    method Write(name: string, content: Artifact<M>)
      requires Valid() && present
      modifies this
      ensures Valid() && present && files == old(files)[name := content]
    {
      files := files[name := content];
    }
  }
}
