/**
 * How a training run names its artifact: the UTC timestamp rendered by
 * `strftime("%Y%m%d_%H%M%S")`, wrapped in a fixed prefix and extension, and
 * the file pattern the serving side looks for.
 */
module Naming {
  import Lex
  import Clock

  const Prefix: string := "model_logreg_"
  const Suffix: string := ".joblib"

  function Digit(n: nat): (c: char)
    requires n < 10
    ensures '0' <= c <= '9'
  {
    (48 + n) as char
  }

  function Pow10(w: nat): nat
  {
    if w == 0 then 1 else 10 * Pow10(w - 1)
  }

  /** `n` with exactly `w` decimal digits, zero-padded on the left (`%m`, `%d`, `%H`, `%M`, `%S`). */
  function Padded(n: nat, w: nat): (s: string)
    ensures |s| == w
    ensures forall i :: 0 <= i < w ==> '0' <= s[i] <= '9'
  {
    if w == 0 then "" else Padded(n / 10, w - 1) + [Digit(n % 10)]
  }

  /** `n` in decimal without padding; glibc's `%Y` renders the year this way. */
  function Decimal(n: nat): (s: string)
    ensures |s| >= 1
    ensures forall i :: 0 <= i < |s| ==> '0' <= s[i] <= '9'
  {
    if n < 10 then [Digit(n)] else Decimal(n / 10) + [Digit(n % 10)]
  }

  /**
   * `t.strftime("%Y%m%d_%H%M%S")`: the year's digits, then ten more digits
   * with one `_` after the day.
   */
  function TimestampText(t: Clock.Timestamp): (s: string)
    requires Clock.Valid(t)
    ensures |s| == |Decimal(t.year)| + 11 && s[..|Decimal(t.year)|] == Decimal(t.year)
    ensures s[|s| - 7] == '_'
    ensures forall i :: 0 <= i < |s| && i != |s| - 7 ==> '0' <= s[i] <= '9'
  {
    Decimal(t.year) + (Padded(t.month, 2) + (Padded(t.day, 2) + ("_" +
      (Padded(t.hour, 2) + (Padded(t.minute, 2) + Padded(t.second, 2))))))
  }

  /**
   * `f"model_logreg_{ts}.joblib"` for the timestamp `t`: whatever the year, it
   * matches the pattern resolution filters on, and the timestamp can be read
   * back from between the prefix and the extension.
   */
  function ArtifactName(t: Clock.Timestamp): (n: string)
    requires Clock.Valid(t)
    ensures MatchesArtifactPattern(n)
    ensures n[|Prefix|..|n| - |Suffix|] == TimestampText(t)
  {
    Prefix + TimestampText(t) + Suffix
  }

  /** The glob `model_logreg_*.joblib`: the fixed prefix, anything, the fixed extension. */
  predicate MatchesArtifactPattern(name: string)
  {
    && |name| >= |Prefix| + |Suffix|
    && name[..|Prefix|] == Prefix
    && name[|name| - |Suffix|..] == Suffix
  }

  /**
   * The predicate is the glob: a name matches exactly when it is the prefix,
   * then anything, then the extension.
   */
  lemma PatternIsGlob(name: string)
    ensures MatchesArtifactPattern(name) <==> exists mid :: name == Prefix + mid + Suffix
  {
    if MatchesArtifactPattern(name) {
      var mid := name[|Prefix|..|name| - |Suffix|];
      assert name == name[..|Prefix|] + mid + name[|name| - |Suffix|..];
    }
    forall mid | name == Prefix + mid + Suffix
      ensures MatchesArtifactPattern(name)
    {
      assert name[..|Prefix|] == Prefix && name[|name| - |Suffix|..] == Suffix;
    }
  }

  lemma {:induction false} DecimalIsPadded(n: nat, w: nat)
    requires 1 <= w && Pow10(w - 1) <= n < Pow10(w)
    ensures Decimal(n) == Padded(n, w)
  {
    if w == 1 {
      assert Padded(n / 10, 0) == "";
    } else {
      assert Pow10(w - 1) == 10 * Pow10(w - 2);
      assert Pow10(w) == 10 * Pow10(w - 1);
      assert Pow10(w - 2) <= n / 10 < Pow10(w - 1);
      DecimalIsPadded(n / 10, w - 1);
    }
  }

  /** Every year from 1000 to 9999 is written with four digits. */
  lemma YearIsFourDigits(y: nat)
    requires 1000 <= y <= 9999
    ensures Decimal(y) == Padded(y, 4)
  {
    assert Pow10(3) == 1000 && Pow10(4) == 10000;
    DecimalIsPadded(y, 4);
  }

  lemma NumberSplit(a: nat, b: nat)
    ensures a < b <==> a / 10 < b / 10 || (a / 10 == b / 10 && a % 10 < b % 10)
    ensures a == b <==> a / 10 == b / 10 && a % 10 == b % 10
  {
    assert a == 10 * (a / 10) + a % 10;
    assert b == 10 * (b / 10) + b % 10;
  }

  /**
   * On zero-padded numbers of one width, string order is numeric order and
   * equal strings mean equal numbers.
   */
  lemma {:induction false} PaddedOrder(a: nat, b: nat, w: nat)
    requires a < Pow10(w) && b < Pow10(w)
    ensures Lex.Less(Padded(a, w), Padded(b, w)) <==> a < b
    ensures Padded(a, w) == Padded(b, w) <==> a == b
  {
    if w == 0 {
      assert a == 0 && b == 0;
    } else {
      assert a / 10 < Pow10(w - 1) && b / 10 < Pow10(w - 1);
      PaddedOrder(a / 10, b / 10, w - 1);
      Lex.Concat(Padded(a / 10, w - 1), [Digit(a % 10)], Padded(b / 10, w - 1), [Digit(b % 10)]);
      assert Lex.Less([Digit(a % 10)], [Digit(b % 10)]) <==> a % 10 < b % 10;
      assert [Digit(a % 10)] == [Digit(b % 10)] <==> a % 10 == b % 10;
      NumberSplit(a, b);
    }
  }

  predicate FourDigitYear(t: Clock.Timestamp)
  {
    Clock.Valid(t) && 1000 <= t.year
  }

  /** The timestamp text is 15 characters, `YYYYMMDD_HHMMSS`, every field zero-padded. */
  lemma TimestampTextShape(t: Clock.Timestamp)
    requires FourDigitYear(t)
    ensures var s := TimestampText(t);
      && |s| == 15
      && s[8] == '_'
      && (forall i :: 0 <= i < 15 && i != 8 ==> '0' <= s[i] <= '9')
      && s[..4] == Padded(t.year, 4)
      && s[4..6] == Padded(t.month, 2) && s[6..8] == Padded(t.day, 2)
      && s[9..11] == Padded(t.hour, 2) && s[11..13] == Padded(t.minute, 2)
      && s[13..] == Padded(t.second, 2)
  {
    YearIsFourDigits(t.year);
  }

  /** For four-digit years, text order on timestamps is dictionary order on their fields. */
  lemma TextOrderAtSeconds(t1: Clock.Timestamp, t2: Clock.Timestamp)
    requires FourDigitYear(t1) && FourDigitYear(t2)
    ensures Lex.Less(TimestampText(t1), TimestampText(t2)) <==> Clock.FieldsBefore(t1, t2)
    ensures TimestampText(t1) == TimestampText(t2) <==> Clock.SameSecond(t1, t2)
  {
    YearIsFourDigits(t1.year);
    YearIsFourDigits(t2.year);
    assert Pow10(2) == 100 && Pow10(4) == 10000;
    PaddedOrder(t1.year, t2.year, 4);
    PaddedOrder(t1.month, t2.month, 2);
    PaddedOrder(t1.day, t2.day, 2);
    PaddedOrder(t1.hour, t2.hour, 2);
    PaddedOrder(t1.minute, t2.minute, 2);
    PaddedOrder(t1.second, t2.second, 2);
    var mi1, mi2 := Padded(t1.minute, 2) + Padded(t1.second, 2), Padded(t2.minute, 2) + Padded(t2.second, 2);
    Lex.Concat(Padded(t1.minute, 2), Padded(t1.second, 2), Padded(t2.minute, 2), Padded(t2.second, 2));
    var h1, h2 := Padded(t1.hour, 2) + mi1, Padded(t2.hour, 2) + mi2;
    Lex.Concat(Padded(t1.hour, 2), mi1, Padded(t2.hour, 2), mi2);
    var u1, u2 := "_" + h1, "_" + h2;
    Lex.Concat("_", h1, "_", h2);
    Lex.Irreflexive("_");
    var d1, d2 := Padded(t1.day, 2) + u1, Padded(t2.day, 2) + u2;
    Lex.Concat(Padded(t1.day, 2), u1, Padded(t2.day, 2), u2);
    var m1, m2 := Padded(t1.month, 2) + d1, Padded(t2.month, 2) + d2;
    Lex.Concat(Padded(t1.month, 2), d1, Padded(t2.month, 2), d2);
    Lex.Concat(Decimal(t1.year), m1, Decimal(t2.year), m2);
  }

  lemma CommonAffixes(x: string, y: string)
    requires |x| == |y|
    ensures Lex.Less(Prefix + x + Suffix, Prefix + y + Suffix) <==> Lex.Less(x, y)
    ensures Prefix + x + Suffix == Prefix + y + Suffix <==> x == y
  {
    assert Prefix + x + Suffix == Prefix + (x + Suffix);
    assert Prefix + y + Suffix == Prefix + (y + Suffix);
    Lex.Concat(Prefix, x + Suffix, Prefix, y + Suffix);
    Lex.Irreflexive(Prefix);
    Lex.Concat(x, Suffix, y, Suffix);
    Lex.Irreflexive(Suffix);
  }

  /**
   * For four-digit years, name order is chronological order at second
   * resolution, and two names coincide exactly when the saves fall in the same
   * second.
   */
  lemma NameOrderIsChronological(t1: Clock.Timestamp, t2: Clock.Timestamp)
    requires FourDigitYear(t1) && FourDigitYear(t2)
    ensures Lex.Less(ArtifactName(t1), ArtifactName(t2)) <==> Clock.EpochSecond(t1) < Clock.EpochSecond(t2)
    ensures ArtifactName(t1) == ArtifactName(t2) <==> Clock.EpochSecond(t1) == Clock.EpochSecond(t2)
  {
    TimestampTextShape(t1);
    TimestampTextShape(t2);
    CommonAffixes(TimestampText(t1), TimestampText(t2));
    TextOrderAtSeconds(t1, t2);
    Clock.FieldsOrderIsChronological(t1, t2);
  }

  /** A save made later never gets a name that sorts before an earlier one's. */
  lemma LaterSaveSortsNoEarlier(t1: Clock.Timestamp, t2: Clock.Timestamp)
    requires FourDigitYear(t1) && FourDigitYear(t2)
    requires Clock.EpochMicrosecond(t1) <= Clock.EpochMicrosecond(t2)
    ensures Lex.LessEq(ArtifactName(t1), ArtifactName(t2))
  {
    Clock.SecondsFollowMicroseconds(t1, t2);
    NameOrderIsChronological(t1, t2);
  }

  /**
   * The overwrite hazard: any two instants in the same second, whatever their
   * microseconds, get the same artifact name.
   */
  lemma SameSecondSameName(t1: Clock.Timestamp, t2: Clock.Timestamp)
    requires Clock.Valid(t1) && Clock.Valid(t2) && Clock.SameSecond(t1, t2)
    ensures ArtifactName(t1) == ArtifactName(t2)
  {
  }

  /**
   * Without four-digit years the order breaks: the last second of year 999
   * is named after the first second of year 1000, since `%Y` writes "999".
   */
  lemma ShortYearBreaksOrder()
    ensures var early, late := Clock.Timestamp(999, 12, 31, 23, 59, 59, 0), Clock.Timestamp(1000, 1, 1, 0, 0, 0, 0);
      && Clock.Valid(early) && Clock.Valid(late)
      && Clock.EpochSecond(early) < Clock.EpochSecond(late)
      && Lex.Less(ArtifactName(late), ArtifactName(early))
  {
    var early, late := Clock.Timestamp(999, 12, 31, 23, 59, 59, 0), Clock.Timestamp(1000, 1, 1, 0, 0, 0, 0);
    Clock.FieldsOrderIsChronological(early, late);
    LeadingDigits(early, late);
  }

  lemma LeadingDigits(early: Clock.Timestamp, late: Clock.Timestamp)
    requires Clock.Valid(early) && Clock.Valid(late)
    requires early.year == 999 && late.year == 1000
    ensures Lex.Less(ArtifactName(late), ArtifactName(early))
  {
    assert Decimal(999) == Decimal(99) + [Digit(9)] && Decimal(99) == Decimal(9) + [Digit(9)];
    assert Decimal(1000) == Decimal(100) + [Digit(0)] && Decimal(100) == Decimal(10) + [Digit(0)];
    assert Decimal(10) == Decimal(1) + [Digit(0)];
    var e, l := TimestampText(early) + Suffix, TimestampText(late) + Suffix;
    YearLeads(early);
    YearLeads(late);
    Lex.FirstCharDecides(l, e);
    Lex.Concat(Prefix, l, Prefix, e);
  }

  /** The name is the prefix followed by text that starts with the year's first digit. */
  lemma YearLeads(t: Clock.Timestamp)
    requires Clock.Valid(t)
    ensures ArtifactName(t) == Prefix + (TimestampText(t) + Suffix)
    ensures (TimestampText(t) + Suffix)[0] == Decimal(t.year)[0]
  {
  }
}
