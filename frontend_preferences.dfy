/**
 * The browser-side preferences service: its own validator (which collects
 * every complaint instead of stopping at the first), the summary shown on
 * the preferences page, the completeness percentage, and the local
 * defaults used when the server has no row for the user.
 */
module FrontendPreferences {
  import opened JsValues
  import opened PreferenceRow
  import PreferencesBackend

  // ---------------------------------------------------------------------
  // The genre list of the UI
  // ---------------------------------------------------------------------

  /** The display name of a genre in `getGenreList`; the list itself has
      the same order as `AllGenres`. */
  function GenreName(g: Genre): string
  {
    match g
    case Action => "Action"
    case Adventure => "Adventure"
    case Animation => "Animation"
    case Comedy => "Comedy"
    case Crime => "Crime"
    case Documentary => "Documentary"
    case Drama => "Drama"
    case Family => "Family"
    case Fantasy => "Fantasy"
    case History => "History"
    case Horror => "Horror"
    case Music => "Music"
    case Mystery => "Mystery"
    case Romance => "Romance"
    case ScienceFiction => "Science Fiction"
    case Thriller => "Thriller"
    case War => "War"
    case Western => "Western"
    case Anime => "Anime"
  }

  /** No two genres share a display name. */
  lemma GenreNameInjective(g: Genre, h: Genre)
    requires GenreName(g) == GenreName(h)
    ensures g == h
  {
    assert GenreName(g)[0] == GenreName(h)[0];
    if |GenreName(g)| > 1 {
      assert GenreName(g)[1] == GenreName(h)[1];
    }
  }

  /** A preferences object as the browser holds it. Its `genre_*` members
      are kept by genre; every other member under its own name. The two
      never collide, since no other member name starts with `genre_`. */
  datatype PrefsObject = PrefsObject(genres: map<Genre, JsValue>, others: map<string, JsValue>)

  /** `preferences[genre.key]`. */
  function GenreValue(p: PrefsObject, g: Genre): JsValue
  {
    if g in p.genres then p.genres[g] else Undefined
  }

  /** `preferences.<key>` for a member that is not a genre flag. */
  function Field(p: PrefsObject, key: string): JsValue
  {
    Get(p.others, key)
  }

  // ---------------------------------------------------------------------
  // validatePreferences
  // ---------------------------------------------------------------------

  /** JavaScript `a > b` for two values. Arrays and objects first become
      their text; when both sides are then strings they compare by character
      codes, otherwise numerically (NaN compares false). */
  predicate JsGreater(a: JsValue, b: JsValue)
  {
    if Textual(a) && Textual(b) then StrLess(ToText(b), ToText(a))
    else NumericGreater(ToNumber(a), ToNumber(b))
  }

  /** A value that ToPrimitive turns into a string: a string, array or object. */
  predicate Textual(v: JsValue)
  {
    v.Str? || v.Arr? || v.Obj?
  }

  /** Lexicographic order of strings by character code. */
  predicate StrLess(a: string, b: string)
  {
    if b == [] then false
    else if a == [] then true
    else if a[0] != b[0] then a[0] < b[0]
    else StrLess(a[1..], b[1..])
  }

  const MinYearMessage := "Minimum year must be between 1900 and current year"
  const MaxYearMessage := "Maximum year must be between 1900 and current year + 5"
  const OrderMessage := "Minimum year cannot be greater than maximum year"
  const RatingMessage := "Minimum rating must be between 0 and 8.5"
  const RuntimeMessage := "Invalid runtime preference"

  function GenreMessage(key: string): string
  {
    "Invalid value for " + key + ". Must be null, 0, or 1"
  }

  predicate MinYearBad(p: PrefsObject, currentYear: int)
  {
    var v := Field(p, "min_year");
    Truthy(v) && (LessThan(v, 1900.0) || GreaterThan(v, currentYear as real))
  }

  predicate MaxYearBad(p: PrefsObject, currentYear: int)
  {
    var v := Field(p, "max_year");
    Truthy(v) && (LessThan(v, 1900.0) || GreaterThan(v, (currentYear + 5) as real))
  }

  predicate OrderBad(p: PrefsObject)
  {
    Truthy(Field(p, "min_year")) && Truthy(Field(p, "max_year")) && JsGreater(Field(p, "min_year"), Field(p, "max_year"))
  }

  predicate RatingBad(p: PrefsObject)
  {
    var v := Field(p, "min_rating");
    Truthy(v) && (LessThan(v, 0.0) || GreaterThan(v, 8.5))
  }

  /** `validRuntimes.includes(v)` compares with SameValueZero, so only the
      four strings themselves are accepted. */
  predicate RuntimeBad(p: PrefsObject)
  {
    var v := Field(p, "runtime_preference");
    Truthy(v) && v != Str("short") && v != Str("medium") && v != Str("long") && v != Str("any")
  }

  /** A defined genre value other than null, 0 and 1. */
  predicate GenreBad(p: PrefsObject, g: Genre)
  {
    var v := GenreValue(p, g);
    v != Undefined && v != Null && v != Num(0.0) && v != Num(1.0)
  }

  /** The messages of the five field checks, in the order they run. */
  function FieldErrors(p: PrefsObject, currentYear: int): seq<string>
  {
    var e1 := Push([], MinYearBad(p, currentYear), MinYearMessage);
    var e2 := Push(e1, MaxYearBad(p, currentYear), MaxYearMessage);
    var e3 := Push(e2, OrderBad(p), OrderMessage);
    var e4 := Push(e3, RatingBad(p), RatingMessage);
    Push(e4, RuntimeBad(p), RuntimeMessage)
  }

  /** The messages of the genre checks over the first `k` genres of the list. */
  function GenreErrors(p: PrefsObject, k: nat): seq<string>
    requires k <= |AllGenres|
  {
    if k == 0 then []
    else
      var g := AllGenres[k - 1];
      GenreErrors(p, k - 1) + (if GenreBad(p, g) then [GenreMessage(GenreField(g))] else [])
  }

  lemma GenreErrorsStep(p: PrefsObject, i: nat)
    requires i < |AllGenres|
    ensures var g := AllGenres[i];
            GenreErrors(p, i + 1) == GenreErrors(p, i) + (if GenreBad(p, g) then [GenreMessage(GenreField(g))] else [])
  {
  }

  /** Every complaint `validatePreferences` collects, in order. */
  function Errors(p: PrefsObject, currentYear: int): seq<string>
  {
    FieldErrors(p, currentYear) + GenreErrors(p, |AllGenres|)
  }

  /** No genre message among the first `k` genres iff none of them is bad;
      a bad one always has its message there. */
  lemma {:induction false} GenreErrorsIff(p: PrefsObject, k: nat)
    requires k <= |AllGenres|
    ensures GenreErrors(p, k) == [] <==> forall i :: 0 <= i < k ==> !GenreBad(p, AllGenres[i])
    ensures forall i :: 0 <= i < k && GenreBad(p, AllGenres[i]) ==>
              GenreMessage(GenreField(AllGenres[i])) in GenreErrors(p, k)
  {
    if k > 0 {
      var g := AllGenres[k - 1];
      var prev := GenreErrors(p, k - 1);
      var tail := if GenreBad(p, g) then [GenreMessage(GenreField(g))] else [];
      assert GenreErrors(p, k) == prev + tail;
      GenreErrorsIff(p, k - 1);
      assert GenreErrors(p, k) == [] <==> prev == [] && !GenreBad(p, g);
      forall i | 0 <= i < k && GenreBad(p, AllGenres[i])
        ensures GenreMessage(GenreField(AllGenres[i])) in GenreErrors(p, k)
      {
        if i < k - 1 {
          assert GenreMessage(GenreField(AllGenres[i])) in prev;
        } else {
          assert tail == [GenreMessage(GenreField(AllGenres[i]))];
        }
      }
    }
  }

  /** The five field checks of `validatePreferences`, in order. */
  method CheckFields(p: PrefsObject, currentYear: int) returns (errors: seq<string>)
    ensures errors == FieldErrors(p, currentYear)
  {
    errors := [];
    if MinYearBad(p, currentYear) {
      errors := errors + [MinYearMessage];
    }
    ghost var e1 := errors;
    assert e1 == Push([], MinYearBad(p, currentYear), MinYearMessage);
    if MaxYearBad(p, currentYear) {
      errors := errors + [MaxYearMessage];
    }
    ghost var e2 := errors;
    assert e2 == Push(e1, MaxYearBad(p, currentYear), MaxYearMessage);
    if OrderBad(p) {
      errors := errors + [OrderMessage];
    }
    ghost var e3 := errors;
    assert e3 == Push(e2, OrderBad(p), OrderMessage);
    if RatingBad(p) {
      errors := errors + [RatingMessage];
    }
    ghost var e4 := errors;
    assert e4 == Push(e3, RatingBad(p), RatingMessage);
    if RuntimeBad(p) {
      errors := errors + [RuntimeMessage];
    }
  }

  /** The genre checks of `validatePreferences`, pushing onto the messages
      collected so far. */
  method CheckGenres(p: PrefsObject, collected: seq<string>) returns (errors: seq<string>)
    ensures errors == collected + GenreErrors(p, |AllGenres|)
  {
    errors := collected;
    for i := 0 to |AllGenres|
      invariant errors == collected + GenreErrors(p, i)
    {
      var g := AllGenres[i];
      GenreErrorsStep(p, i);
      if GenreBad(p, g) {
        errors := errors + [GenreMessage(GenreField(g))];
      }
    }
  }

  /** `validatePreferences`: runs every check and pushes each failure's
      message; the preferences are valid iff nothing was pushed. */
  method ValidatePreferences(p: PrefsObject, currentYear: int) returns (isValid: bool, errors: seq<string>)
    ensures errors == Errors(p, currentYear)
    ensures isValid <==> errors == []
  {
    errors := CheckFields(p, currentYear);
    errors := CheckGenres(p, errors);
    isValid := |errors| == 0;
  }

  /** The validator accepts exactly the preferences that pass every check. */
  lemma ValidIff(p: PrefsObject, currentYear: int)
    ensures Errors(p, currentYear) == [] <==>
              !MinYearBad(p, currentYear) && !MaxYearBad(p, currentYear) && !OrderBad(p) &&
              !RatingBad(p) && !RuntimeBad(p) && forall g :: !GenreBad(p, g)
  {
    GenreErrorsIff(p, |AllGenres|);
    if GenreErrors(p, |AllGenres|) == [] {
      forall g ensures !GenreBad(p, g) {
        var i := GenreRank(g);
      }
    }
  }

  /** A rating of 9 is refused here although the server accepts ratings up
      to 10. */
  lemma RatingTighterThanServer()
    ensures RatingBad(PrefsObject(map[], map["min_rating" := Num(9.0)]))
    ensures PreferencesBackend.RatingOk(Num(9.0))
  {
  }

  /** An inverted year range is refused here although the server stores it. */
  lemma InvertedRangeRejected(currentYear: int)
    ensures OrderMessage in Errors(PrefsObject(map[], map["min_year" := Num(2020.0), "max_year" := Num(1950.0)]), currentYear)
  {
  }

  /** Zero and empty values skip the year and rating checks: they read as
      "not set". */
  lemma FalsyValuesSkipChecks(currentYear: int)
    ensures FieldErrors(PrefsObject(map[], map["min_year" := Num(0.0), "max_year" := Str(""), "min_rating" := Null]), currentYear) == []
  {
  }

  /** `<` and `>` convert a text year with `Number`, which reads a
      hexadecimal text: "0x7D0" is the year 2000 and passes the check. */
  lemma HexTextYearAccepted(s: string, currentYear: int)
    requires s == "0x7D0" && currentYear >= 2000
    ensures !MinYearBad(PrefsObject(map[], map["min_year" := Str(s)]), currentYear)
  {
    HexNumber(s);
  }

  /** Two text years are ordered by their characters, not their values:
      "10000" is not greater than "2000". */
  lemma TextYearsCompareByCharacters()
    ensures !OrderBad(PrefsObject(map[], map["min_year" := Str("10000"), "max_year" := Str("2000")]))
  {
    assert !StrLess("2000", "10000");
  }

  // ---------------------------------------------------------------------
  // getPreferencesSummary and calculateCompleteness
  // ---------------------------------------------------------------------

  /** The genres among the first `k` of the list whose value is strictly
      the number `v`, in list order. */
  function GenresWithValue(p: PrefsObject, k: nat, v: real): (r: seq<Genre>)
    requires k <= |AllGenres|
    ensures forall g :: g in r <==> GenreRank(g) < k && GenreValue(p, g) == Num(v)
    ensures forall i, j :: 0 <= i < j < |r| ==> GenreRank(r[i]) < GenreRank(r[j])
    ensures forall i :: 0 <= i < |r| ==> GenreRank(r[i]) < k
  {
    if k == 0 then []
    else
      var g := AllGenres[k - 1];
      var rest := GenresWithValue(p, k - 1, v);
      var tail := if GenreValue(p, g) == Num(v) then [g] else [];
      RankOfIndex(k - 1);
      assert forall h :: h in rest + tail <==> h in rest || h in tail;
      rest + tail
  }

  function Names(gs: seq<Genre>): (r: seq<string>)
    ensures |r| == |gs|
    ensures forall i :: 0 <= i < |gs| ==> r[i] == GenreName(gs[i])
  {
    if gs == [] then [] else [GenreName(gs[0])] + Names(gs[1..])
  }

  /** `min_year`, `max_year`, `min_rating` truthy, and a truthy runtime
      other than 'any', as 0 or 1 each. */
  function OtherCompleted(p: PrefsObject): (c: nat)
    ensures c <= 4
  {
    (if Truthy(Field(p, "min_year")) then 1 else 0)
    + (if Truthy(Field(p, "max_year")) then 1 else 0)
    + (if Truthy(Field(p, "min_rating")) then 1 else 0)
    + (var r := Field(p, "runtime_preference"); if Truthy(r) && r != Str("any") then 1 else 0)
  }

  /** The number of genres among the first `k` whose value is neither null
      nor undefined. */
  function GenresSet(p: PrefsObject, k: nat): (c: nat)
    requires k <= |AllGenres|
    ensures c <= k
  {
    if k == 0 then 0
    else GenresSet(p, k - 1) + (if GenreValue(p, AllGenres[k - 1]) != Null && GenreValue(p, AllGenres[k - 1]) != Undefined then 1 else 0)
  }

  /** The completed fields out of the 23 the percentage is taken over. */
  function Completed(p: PrefsObject): (c: nat)
    ensures c <= |AllGenres| + 4
  {
    GenresSet(p, |AllGenres|) + OtherCompleted(p)
  }

  /** `Math.round(completed / 23 * 100)`, computed exactly. */
  function Completeness(p: PrefsObject): int
  {
    RoundDiv(100 * Completed(p), |AllGenres| + 4)
  }

  /** `calculateCompleteness`: counts the set genres in a loop, then the
      four other fields. */
  method CalculateCompleteness(p: PrefsObject) returns (percent: int)
    ensures percent == Completeness(p)
  {
    var totalFields := |AllGenres| + 4;
    var completedFields := 0;
    for i := 0 to |AllGenres|
      invariant completedFields == GenresSet(p, i)
    {
      var v := GenreValue(p, AllGenres[i]);
      if v != Null && v != Undefined {
        completedFields := completedFields + 1;
      }
    }
    if Truthy(Field(p, "min_year")) { completedFields := completedFields + 1; }
    if Truthy(Field(p, "max_year")) { completedFields := completedFields + 1; }
    if Truthy(Field(p, "min_rating")) { completedFields := completedFields + 1; }
    var r := Field(p, "runtime_preference");
    if Truthy(r) && r != Str("any") { completedFields := completedFields + 1; }
    percent := RoundDiv(100 * completedFields, totalFields);
  }

  /** Every genre among the first `k` is set iff all `k` count. */
  lemma {:induction false} GenresSetFull(p: PrefsObject, k: nat)
    requires k <= |AllGenres|
    ensures GenresSet(p, k) == k <==>
              forall i :: 0 <= i < k ==> GenreValue(p, AllGenres[i]) != Null && GenreValue(p, AllGenres[i]) != Undefined
  {
    if k > 0 {
      GenresSetFull(p, k - 1);
    }
  }

  /** The percentage lies in [0, 100]; it is 0 exactly when nothing is
      filled in and 100 exactly when every one of the 23 fields is. */
  lemma CompletenessBounds(p: PrefsObject)
    ensures 0 <= Completeness(p) <= 100
    ensures Completeness(p) == 0 <==> Completed(p) == 0
    ensures Completeness(p) == 100 <==> Completed(p) == |AllGenres| + 4
  {
    var c := Completed(p);
    RoundDivBounds(100 * c, 23, 0, 100);
    var r := Completeness(p);
    assert 2 * 23 * r - 23 <= 200 * c < 2 * 23 * r + 23;
  }

  /** Fully complete means every genre is set, both years and the rating are
      truthy, and a runtime other than 'any' is chosen. */
  lemma FullyComplete(p: PrefsObject)
    ensures Completeness(p) == 100 <==>
              (forall g :: GenreValue(p, g) != Null && GenreValue(p, g) != Undefined) &&
              Truthy(Field(p, "min_year")) && Truthy(Field(p, "max_year")) && Truthy(Field(p, "min_rating")) &&
              Truthy(Field(p, "runtime_preference")) && Field(p, "runtime_preference") != Str("any")
  {
    CompletenessBounds(p);
    GenresSetFull(p, |AllGenres|);
    if GenresSet(p, |AllGenres|) == |AllGenres| {
      forall g ensures GenreValue(p, g) != Null && GenreValue(p, g) != Undefined {
        var i := GenreRank(g);
      }
    }
  }

  /** The names of the genres whose value is exactly 1, in list order. */
  function LikedGenres(p: PrefsObject): seq<string>
  {
    Names(GenresWithValue(p, |AllGenres|, 1.0))
  }

  /** The names of the genres whose value is exactly 0, in list order. */
  function DislikedGenres(p: PrefsObject): seq<string>
  {
    Names(GenresWithValue(p, |AllGenres|, 0.0))
  }

  /** A genre's name is among the names of `gs` iff the genre is in `gs`. */
  lemma NameListed(gs: seq<Genre>, g: Genre)
    ensures GenreName(g) in Names(gs) <==> g in gs
  {
    var ns := Names(gs);
    if GenreName(g) in ns {
      var i :| 0 <= i < |ns| && ns[i] == GenreName(g);
      GenreNameInjective(gs[i], g);
    }
    if g in gs {
      var i :| 0 <= i < |gs| && gs[i] == g;
      assert ns[i] == GenreName(g);
    }
  }

  /** A genre name is listed as liked iff its value is exactly 1, and as
      disliked iff exactly 0; so no genre is in both lists. Each list follows
      the order of the genre list. */
  lemma SummaryLists(p: PrefsObject, g: Genre)
    ensures GenreName(g) in LikedGenres(p) <==> GenreValue(p, g) == Num(1.0)
    ensures GenreName(g) in DislikedGenres(p) <==> GenreValue(p, g) == Num(0.0)
    ensures !(GenreName(g) in LikedGenres(p) && GenreName(g) in DislikedGenres(p))
  {
    NameListed(GenresWithValue(p, |AllGenres|, 1.0), g);
    NameListed(GenresWithValue(p, |AllGenres|, 0.0), g);
  }

  /** Some genre is exactly 0 (disliked) or exactly 1 (liked). */
  predicate AnyGenreRated(p: PrefsObject)
  {
    exists g :: GenreValue(p, g) == Num(1.0) || GenreValue(p, g) == Num(0.0)
  }

  /** The template text `${min_year} - ${max_year}`. */
  function YearRangeText(p: PrefsObject): string
  {
    ToText(Field(p, "min_year")) + " - " + ToText(Field(p, "max_year"))
  }

  datatype Summary = Summary(
    likedGenres: seq<string>,
    dislikedGenres: seq<string>,
    yearRange: string,
    minRating: JsValue,
    runtimePreference: JsValue,
    hasPreferences: bool,
    completeness: int)

  /** `getPreferencesSummary`: the liked and disliked names, the year range
      as the template text `${min_year} - ${max_year}`, the rating and
      runtime as stored, whether any genre is rated, and the completeness
      percentage. */
  function GetPreferencesSummary(p: PrefsObject): (s: Summary)
    ensures s.likedGenres == LikedGenres(p) && s.dislikedGenres == DislikedGenres(p)
    ensures s.yearRange == ToText(Field(p, "min_year")) + " - " + ToText(Field(p, "max_year"))
    ensures s.minRating == Field(p, "min_rating") && s.runtimePreference == Field(p, "runtime_preference")
    ensures s.hasPreferences <==> AnyGenreRated(p)
    ensures 0 <= s.completeness <= 100 && s.completeness == Completeness(p)
  {
    var liked := LikedGenres(p);
    var disliked := DislikedGenres(p);
    assert |liked| > 0 || |disliked| > 0 <==> AnyGenreRated(p) by {
      HasPreferencesIff(p);
    }
    assert 0 <= Completeness(p) <= 100 by {
      CompletenessBounds(p);
    }
    Summary(liked, disliked, YearRangeText(p),
            Field(p, "min_rating"), Field(p, "runtime_preference"),
            |liked| > 0 || |disliked| > 0,
            Completeness(p))
  }

  /** Whole-number years render as their decimal digits around " - ". */
  lemma WholeYearRange(p: PrefsObject, lo: int, hi: int)
    requires Field(p, "min_year") == Num(lo as real) && Field(p, "max_year") == Num(hi as real)
    ensures GetPreferencesSummary(p).yearRange == IntToString(lo) + " - " + IntToString(hi)
  {
    assert GetPreferencesSummary(p).yearRange == ToText(Num(lo as real)) + " - " + ToText(Num(hi as real));
    assert ToText(Num(lo as real)) + " - " + ToText(Num(hi as real)) == IntToString(lo) + " - " + IntToString(hi) by {
      WholeNumberText(lo);
      WholeNumberText(hi);
    }
  }

  /** The filtered list is non-empty iff some genre in range has the value. */
  lemma SomeWithValue(p: PrefsObject, k: nat, v: real)
    requires k <= |AllGenres|
    ensures |GenresWithValue(p, k, v)| > 0 <==> exists g :: GenreRank(g) < k && GenreValue(p, g) == Num(v)
  {
    var r := GenresWithValue(p, k, v);
    if |r| > 0 {
      assert r[0] in r;
    }
  }

  /** Some genre is liked or disliked iff some genre is exactly 0 or 1. */
  lemma HasPreferencesIff(p: PrefsObject)
    ensures |LikedGenres(p)| > 0 || |DislikedGenres(p)| > 0 <==> AnyGenreRated(p)
  {
    SomeWithValue(p, |AllGenres|, 1.0);
    SomeWithValue(p, |AllGenres|, 0.0);
    if AnyGenreRated(p) {
      var g :| GenreValue(p, g) == Num(1.0) || GenreValue(p, g) == Num(0.0);
      assert GenreRank(g) < |AllGenres|;
    }
  }

  // ---------------------------------------------------------------------
  // getPreferences and getDefaultPreferences
  // ---------------------------------------------------------------------

  /** The local defaults: every genre unset, 1990 to the current year,
      rating 6.0, any runtime, no languages, and the three period switches. */
  function DefaultData(userId: int, currentYear: int): (d: PrefsObject)
    ensures forall g :: GenreValue(d, g) == Null
    ensures Field(d, "min_year") == Num(1990.0) && Field(d, "max_year") == Num(currentYear as real)
    ensures Field(d, "min_rating") == Num(6.0) && Field(d, "runtime_preference") == Str("any")
  {
    var genres := map g | g in AllGenres :: Null;
    forall g ensures g in genres {
      assert AllGenres[GenreRank(g)] == g;
    }
    PrefsObject(genres, map[
      "user_id" := Num(userId as real),
      "min_year" := Num(1990.0),
      "max_year" := Num(currentYear as real),
      "min_rating" := Num(6.0),
      "runtime_preference" := Str("any"),
      "preferred_languages" := Null,
      "prefer_classic" := Num(0.0),
      "prefer_modern" := Num(1.0),
      "prefer_recent" := Num(1.0)])
  }

  /** The defaults pass the validator once the current year is at least
      1990, are 13% complete, and state no genre preference. */
  lemma DefaultsAreValid(userId: int, currentYear: int)
    requires currentYear >= 1990
    ensures Errors(DefaultData(userId, currentYear), currentYear) == []
    ensures Completeness(DefaultData(userId, currentYear)) == 13
    ensures !GetPreferencesSummary(DefaultData(userId, currentYear)).hasPreferences
  {
    DefaultsPassValidation(userId, currentYear);
    DefaultsCompleteness(userId, currentYear);
    HasPreferencesIff(DefaultData(userId, currentYear));
  }

  lemma DefaultsPassValidation(userId: int, currentYear: int)
    requires currentYear >= 1990
    ensures Errors(DefaultData(userId, currentYear), currentYear) == []
  {
    ValidIff(DefaultData(userId, currentYear), currentYear);
  }

  lemma DefaultsCompleteness(userId: int, currentYear: int)
    requires currentYear >= 1990
    ensures Completeness(DefaultData(userId, currentYear)) == 13
  {
    var d := DefaultData(userId, currentYear);
    GenresSetNone(d, |AllGenres|);
    assert Truthy(Field(d, "max_year"));
    assert OtherCompleted(d) == 3;
    assert Completed(d) == 3;
    var r := RoundDiv(100 * 3, |AllGenres| + 4);
    assert 46 * r - 23 <= 600 < 46 * r + 23;
  }

  lemma {:induction false} GenresSetNone(p: PrefsObject, k: nat)
    requires k <= |AllGenres|
    requires forall g :: GenreValue(p, g) == Null
    ensures GenresSet(p, k) == 0
  {
    if k > 0 {
      GenresSetNone(p, k - 1);
    }
  }

  /** The local defaults start the year range at 1990 and the rating at
      6.0, where the server's start at 1900 and 0. */
  lemma DefaultsDifferFromServer(userId: int, currentYear: int)
    ensures Field(DefaultData(userId, currentYear), "min_year") == Num(1990.0)
    ensures Defaults(currentYear).minYear == Some(1900)
    ensures Field(DefaultData(userId, currentYear), "min_rating") == Num(6.0)
    ensures Defaults(currentYear).minRating == Some(0.0)
  {
  }

  /** What the preferences request came back with: the body of the
      server's answer, or a failure with its HTTP status. */
  datatype Response = Answered(body: map<string, JsValue>) | Failed(status: Option<int>)

  /** The body `ApiResponse.success` sends: `{success: true, message}`, then
      `Object.assign` copies the data's members over it, so a member of the
      data named `success` or `message` wins. A falsy data adds nothing. */
  function SuccessBody(message: string, data: map<string, JsValue>): (b: map<string, JsValue>)
    ensures b.Keys == data.Keys + {"success", "message"}
    ensures forall k :: k in data ==> b[k] == data[k]
    ensures "success" !in data ==> b["success"] == Bool(true)
    ensures "message" !in data ==> b["message"] == Str(message)
  {
    map["success" := Bool(true), "message" := Str(message)] + data
  }

  /** What `getPreferences` resolves to or throws. The server's answer gives
      its members without `success` and `message`, flat; the 404 fallback
      `getDefaultPreferences` gives the defaults wrapped as `{data: ...}`. */
  datatype Loaded = Flat(fields: map<string, JsValue>) | WithData(data: PrefsObject) | FetchError(message: string)

  const FetchFailedMessage := "Failed to fetch preferences"

  /** `getPreferences`: the answer without its `success` and `message`
      members; on a 404 `getDefaultPreferences`, the local defaults under
      `data`; any other failure is an error. */
  function GetPreferences(userId: int, response: Response, currentYear: int): (r: Loaded)
    ensures r.Flat? <==> response.Answered?
    ensures r.WithData? <==> response.Failed? && response.status == Some(404)
    ensures response.Answered? ==>
              r.fields.Keys == response.body.Keys - {"success", "message"} &&
              forall k :: k in r.fields ==> r.fields[k] == response.body[k]
    ensures r.WithData? ==>
              r.data == DefaultData(userId, currentYear) && Field(r.data, "min_year") == Num(1990.0) &&
              Field(r.data, "min_rating") == Num(6.0)
    ensures r.FetchError? ==> r.message == FetchFailedMessage
  {
    match response
    case Answered(body) => Flat(body - {"success", "message"})
    case Failed(status) =>
      if status == Some(404) then WithData(DefaultData(userId, currentYear))
      else FetchError(FetchFailedMessage)
  }

  /** Taking `success` and `message` back off the server's body gives the
      stored preferences exactly, as long as no preference is itself named
      `success` or `message`. */
  lemma AnswerRoundTrip(userId: int, message: string, data: map<string, JsValue>, currentYear: int)
    requires "success" !in data && "message" !in data
    ensures GetPreferences(userId, Answered(SuccessBody(message, data)), currentYear) == Flat(data)
  {
    var b := SuccessBody(message, data);
    assert b - {"success", "message"} == data;
  }
}
