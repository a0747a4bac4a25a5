/**
 * `_get_latest_model_path`: filter the directory listing by the artifact
 * pattern, sort, take the last. The listing is `None` when the models
 * directory does not exist, otherwise its entry names in whatever order the
 * file system yields them.
 */
module Latest {
  import opened Results
  import Lex
  import Naming

  datatype ResolveError = DirectoryNotFound | NoArtifacts

  function Elems(s: seq<string>): set<string>
  {
    set n | n in s
  }

  /** The names in `names` that match `model_logreg_*.joblib`. */
  function Artifacts(names: set<string>): set<string>
  {
    set n | n in names && Naming.MatchesArtifactPattern(n)
  }

  /** `p` is a matching name of `names` that no other matching name sorts after. */
  predicate IsLatestIn(p: string, names: set<string>)
  {
    p in Artifacts(names) && forall n :: n in Artifacts(names) ==> Lex.LessEq(n, p)
  }

  /** The glob: the matching entries of the listing. */
  function Candidates(listing: seq<string>): (c: seq<string>)
    ensures forall n :: n in c <==> n in listing && Naming.MatchesArtifactPattern(n)
  {
    if listing == [] then []
    else (if Naming.MatchesArtifactPattern(listing[0]) then [listing[0]] else [])
         + Candidates(listing[1..])
  }

  lemma RaiseUpperBound(s: seq<string>, lo: string, hi: string)
    requires forall n :: n in s ==> Lex.LessEq(n, lo)
    requires Lex.Less(lo, hi)
    ensures forall n :: n in s ==> Lex.LessEq(n, hi)
  {
    forall n | n in s
      ensures Lex.LessEq(n, hi)
    {
      if n != lo {
        Lex.Transitive(n, lo, hi);
      }
    }
  }

  /** `sorted(candidates)[-1]`: the member of `c` that every member sorts before or equals. */
  function LastSorted(c: seq<string>): (m: string)
    requires c != []
    ensures m in c
    ensures forall n :: n in c ==> Lex.LessEq(n, m)
  {
    if |c| == 1 then c[0]
    else
      var rest := LastSorted(c[1..]);
      Lex.Trichotomy(c[0], rest);
      if Lex.Less(c[0], rest) then rest
      else if c[0] == rest then c[0]
      else
        RaiseUpperBound(c[1..], rest, c[0]);
        c[0]
  }

  function GetLatestModelPath(listing: Option<seq<string>>): (r: Result<string, ResolveError>)
    ensures r == Err(DirectoryNotFound) <==> listing.None?
    ensures r == Err(NoArtifacts) <==> listing.Some? && Artifacts(Elems(listing.value)) == {}
    ensures r.Ok? ==> listing.Some? && IsLatestIn(r.value, Elems(listing.value))
  {
    match listing
    case None => Err(DirectoryNotFound)
    case Some(names) =>
      var candidates := Candidates(names);
      if candidates == [] then
        assert forall n :: n in Artifacts(Elems(names)) ==> n in candidates;
        Err(NoArtifacts)
      else
        assert candidates[0] in Artifacts(Elems(names));
        Ok(LastSorted(candidates))
  }

  /** At most one name can be the latest: the result of resolution is determined by the set of names. */
  lemma LatestIsUnique(p: string, q: string, names: set<string>)
    requires IsLatestIn(p, names) && IsLatestIn(q, names)
    ensures p == q
  {
    if p != q {
      assert Lex.Less(p, q) && Lex.Less(q, p);
      Lex.Asymmetric(p, q);
    }
  }

  /**
   * Resolution sees only the set of matching names: neither the listing order
   * nor any non-matching entry affects the result.
   */
  lemma OnlyMatchingNamesMatter(listing1: seq<string>, listing2: seq<string>)
    requires Artifacts(Elems(listing1)) == Artifacts(Elems(listing2))
    ensures GetLatestModelPath(Some(listing1)) == GetLatestModelPath(Some(listing2))
  {
    var r1, r2 := GetLatestModelPath(Some(listing1)), GetLatestModelPath(Some(listing2));
    if r1.Ok? && r2.Ok? {
      LatestIsUnique(r1.value, r2.value, Elems(listing1));
    }
  }

  /** Dropping every non-matching entry from the listing changes nothing. */
  lemma NonMatchingEntriesIgnored(listing: seq<string>)
    ensures GetLatestModelPath(Some(listing)) == GetLatestModelPath(Some(Candidates(listing)))
  {
    assert Artifacts(Elems(listing)) == Artifacts(Elems(Candidates(listing)));
    OnlyMatchingNamesMatter(listing, Candidates(listing));
  }
}
