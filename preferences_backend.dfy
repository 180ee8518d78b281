/**
 * The preferences controller: the request-body validator that turns a
 * body into a partial row (`data`) or an error, the defaults answered for a
 * user without a row, and the handlers that create, update or delete the
 * row.
 */
module PreferencesBackend {
  import opened JsValues
  import opened PreferenceRow

  /** `data[key] !== undefined`. */
  predicate Present(body: map<string, JsValue>, key: string)
  {
    Get(body, key) != Undefined
  }

  // ---------------------------------------------------------------------
  // What the validator accepts
  // ---------------------------------------------------------------------

  /** A genre flag must be exactly null, 0 or 1. */
  predicate FlagOk(v: JsValue)
  {
    v == Null || v == Num(0.0) || v == Num(1.0)
  }

  function FlagOf(v: JsValue): Option<int>
  {
    if v == Num(1.0) then Some(1) else if v == Num(0.0) then Some(0) else None
  }

  /** A year must parse to an integer in [1900, hi]. */
  predicate YearOk(v: JsValue, hi: int)
  {
    var y := ParseInt(v); y.Some? && 1900 <= y.value <= hi
  }

  predicate RatingOk(v: JsValue)
  {
    var r := ParseFloat(v); r.Some? && 0.0 <= r.value <= 10.0
  }

  const Runtimes: set<string> := {"short", "medium", "long", "any"}

  predicate RuntimeOk(v: JsValue)
  {
    v.Str? && v.s in Runtimes
  }

  predicate LanguagesOk(v: JsValue)
  {
    v.Null? || v.Arr?
  }

  /** A switch accepts 0, 1, true and false. */
  predicate SwitchOk(v: JsValue)
  {
    v == Num(0.0) || v == Num(1.0) || v == Bool(true) || v == Bool(false)
  }

  /** `data[pref] ? 1 : 0`. */
  function SwitchOf(v: JsValue): int
  {
    if Truthy(v) then 1 else 0
  }

  predicate FlagsOk(body: map<string, JsValue>, gs: seq<Genre>)
  {
    forall k :: 0 <= k < |gs| && Present(body, GenreField(gs[k])) ==> FlagOk(Get(body, GenreField(gs[k])))
  }

  predicate SwitchesOk(body: map<string, JsValue>, ss: seq<Switch>)
  {
    forall k :: 0 <= k < |ss| && Present(body, SwitchField(ss[k])) ==> SwitchOk(Get(body, SwitchField(ss[k])))
  }

  /** The year, rating, runtime and language fields, each checked only
      when present; nothing relates `min_year` to `max_year`. */
  predicate ScalarsOk(body: map<string, JsValue>, currentYear: int)
  {
    && (Present(body, "min_year") ==> YearOk(Get(body, "min_year"), currentYear))
    && (Present(body, "max_year") ==> YearOk(Get(body, "max_year"), currentYear + 5))
    && (Present(body, "min_rating") ==> RatingOk(Get(body, "min_rating")))
    && (Present(body, "runtime_preference") ==> RuntimeOk(Get(body, "runtime_preference")))
    && (Present(body, "preferred_languages") ==> LanguagesOk(Get(body, "preferred_languages")))
  }

  /** Every field the body carries is valid; absent fields are not checked. */
  predicate ValidBody(body: map<string, JsValue>, currentYear: int)
  {
    FlagsOk(body, AllGenres) && ScalarsOk(body, currentYear) && SwitchesOk(body, AllSwitches)
  }

  /** The accepted genre flags among `gs`. */
  function AcceptedFlags(body: map<string, JsValue>, gs: seq<Genre>): (m: map<Genre, Option<int>>)
    ensures forall g :: g in m ==> Present(body, GenreField(g))
  {
    if gs == [] then map[]
    else
      var m := AcceptedFlags(body, gs[..|gs| - 1]);
      var g := gs[|gs| - 1];
      var v := Get(body, GenreField(g));
      if v != Undefined && FlagOk(v) then m[g := FlagOf(v)] else m
  }

  /** The accepted switches among `ss`, stored as 1/0. */
  function AcceptedSwitches(body: map<string, JsValue>, ss: seq<Switch>): (m: map<Switch, int>)
    ensures forall s :: s in m ==> Present(body, SwitchField(s))
  {
    if ss == [] then map[]
    else
      var m := AcceptedSwitches(body, ss[..|ss| - 1]);
      var s := ss[|ss| - 1];
      var v := Get(body, SwitchField(s));
      if v != Undefined && SwitchOk(v) then m[s := SwitchOf(v)] else m
  }

  /** `d` with the carried scalar fields of a valid body set. */
  function WithScalars(body: map<string, JsValue>, d: Patch): Patch
  {
    var minYear := Get(body, "min_year");
    var maxYear := Get(body, "max_year");
    var minRating := Get(body, "min_rating");
    var runtime := Get(body, "runtime_preference");
    var languages := Get(body, "preferred_languages");
    d.(minYear := if minYear != Undefined then ParseInt(minYear) else d.minYear,
       maxYear := if maxYear != Undefined then ParseInt(maxYear) else d.maxYear,
       minRating := if minRating != Undefined then ParseFloat(minRating) else d.minRating,
       runtime := if runtime.Str? then Some(runtime.s) else d.runtime,
       languages := if languages != Undefined then Some(languages) else d.languages)
  }

  /** The `data` of a valid body: exactly the fields it carries, converted. */
  function Expected(body: map<string, JsValue>): Patch
  {
    WithScalars(body, EmptyPatch.(flags := AcceptedFlags(body, AllGenres)))
      .(switches := AcceptedSwitches(body, AllSwitches))
  }

  // ---------------------------------------------------------------------
  // The validator
  // ---------------------------------------------------------------------

  datatype Validation = Validation(data: Patch, error: Option<string>)

  const MinYearError := "min_year must be between 1900 and current year"
  const MaxYearError := "max_year must be between 1900 and current year + 5"
  const RatingError := "min_rating must be between 0.0 and 10.0"
  const RuntimeError := "runtime_preference must be one of: short, medium, long, any"
  const LanguagesError := "preferred_languages must be null or an array of language codes"

  lemma FlagsStep(body: map<string, JsValue>, gs: seq<Genre>, k: int)
    requires 0 <= k < |gs|
    ensures AcceptedFlags(body, gs[..k + 1]) ==
            (var v := Get(body, GenreField(gs[k]));
             if v != Undefined && FlagOk(v) then AcceptedFlags(body, gs[..k])[gs[k] := FlagOf(v)]
             else AcceptedFlags(body, gs[..k]))
  {
    assert gs[..k + 1][..k] == gs[..k];
  }

  lemma FlagsOkStep(body: map<string, JsValue>, gs: seq<Genre>, k: int)
    requires 0 <= k < |gs|
    ensures FlagsOk(body, gs[..k + 1]) <==>
            FlagsOk(body, gs[..k]) && (Present(body, GenreField(gs[k])) ==> FlagOk(Get(body, GenreField(gs[k]))))
  {
    var ok := FlagsOk(body, gs[..k]) && (Present(body, GenreField(gs[k])) ==> FlagOk(Get(body, GenreField(gs[k]))));
    if FlagsOk(body, gs[..k + 1]) {
      assert gs[..k + 1][k] == gs[k];
      forall j | 0 <= j < k && Present(body, GenreField(gs[..k][j]))
        ensures FlagOk(Get(body, GenreField(gs[..k][j])))
      {
        assert gs[..k][j] == gs[..k + 1][j];
      }
    }
    if ok {
      var pre := gs[..k + 1];
      forall j | 0 <= j < |pre| && Present(body, GenreField(pre[j]))
        ensures FlagOk(Get(body, GenreField(pre[j])))
      {
        if j < k {
          assert pre[j] == gs[..k][j];
        }
      }
    }
  }

  lemma SwitchesStep(body: map<string, JsValue>, ss: seq<Switch>, k: int)
    requires 0 <= k < |ss|
    ensures AcceptedSwitches(body, ss[..k + 1]) ==
            (var v := Get(body, SwitchField(ss[k]));
             if v != Undefined && SwitchOk(v) then AcceptedSwitches(body, ss[..k])[ss[k] := SwitchOf(v)]
             else AcceptedSwitches(body, ss[..k]))
  {
    assert ss[..k + 1][..k] == ss[..k];
  }

  lemma SwitchesOkStep(body: map<string, JsValue>, ss: seq<Switch>, k: int)
    requires 0 <= k < |ss|
    ensures SwitchesOk(body, ss[..k + 1]) <==>
            SwitchesOk(body, ss[..k]) && (Present(body, SwitchField(ss[k])) ==> SwitchOk(Get(body, SwitchField(ss[k]))))
  {
    var ok := SwitchesOk(body, ss[..k]) && (Present(body, SwitchField(ss[k])) ==> SwitchOk(Get(body, SwitchField(ss[k]))));
    if SwitchesOk(body, ss[..k + 1]) {
      assert ss[..k + 1][k] == ss[k];
      forall j | 0 <= j < k && Present(body, SwitchField(ss[..k][j]))
        ensures SwitchOk(Get(body, SwitchField(ss[..k][j])))
      {
        assert ss[..k][j] == ss[..k + 1][j];
      }
    }
    if ok {
      var pre := ss[..k + 1];
      forall j | 0 <= j < |pre| && Present(body, SwitchField(pre[j]))
        ensures SwitchOk(Get(body, SwitchField(pre[j])))
      {
        if j < k {
          assert pre[j] == ss[..k][j];
        }
      }
    }
  }

  /** The genre `forEach`: an invalid flag records an error but the loop
      goes on (its `return` only leaves the callback). */
  method CheckGenres(body: map<string, JsValue>) returns (flags: map<Genre, Option<int>>, error: Option<string>)
    ensures flags == AcceptedFlags(body, AllGenres)
    ensures error.None? <==> FlagsOk(body, AllGenres)
  {
    flags, error := map[], None;
    for k := 0 to |AllGenres|
      invariant flags == AcceptedFlags(body, AllGenres[..k])
      invariant error.None? <==> FlagsOk(body, AllGenres[..k])
    {
      FlagsStep(body, AllGenres, k);
      FlagsOkStep(body, AllGenres, k);
      var g := AllGenres[k];
      var v := Get(body, GenreField(g));
      if v != Undefined {
        if FlagOk(v) {
          flags := flags[g := FlagOf(v)];
        } else {
          error := Some(GenreField(g) + " must be null, 0, or 1");
        }
      }
    }
    assert AllGenres[..|AllGenres|] == AllGenres;
  }

  /** The boolean `forEach`, with the same carry-on behaviour. */
  method CheckSwitches(body: map<string, JsValue>, error0: Option<string>)
    returns (switches: map<Switch, int>, error: Option<string>)
    ensures switches == AcceptedSwitches(body, AllSwitches)
    ensures error.None? <==> error0.None? && SwitchesOk(body, AllSwitches)
  {
    switches, error := map[], error0;
    for k := 0 to |AllSwitches|
      invariant switches == AcceptedSwitches(body, AllSwitches[..k])
      invariant error.None? <==> error0.None? && SwitchesOk(body, AllSwitches[..k])
    {
      SwitchesStep(body, AllSwitches, k);
      SwitchesOkStep(body, AllSwitches, k);
      var s := AllSwitches[k];
      var v := Get(body, SwitchField(s));
      if v != Undefined {
        if SwitchOk(v) {
          switches := switches[s := SwitchOf(v)];
        } else {
          error := Some(SwitchField(s) + " must be boolean or 0/1");
        }
      }
    }
    assert AllSwitches[..|AllSwitches|] == AllSwitches;
  }

  /** The sequential checks of the scalar fields: the first invalid one
      ends the validation with its own message. */
  method CheckScalars(body: map<string, JsValue>, currentYear: int, data0: Patch)
    returns (data: Patch, error: Option<string>)
    ensures error.None? <==> ScalarsOk(body, currentYear)
    ensures error.None? ==> data == WithScalars(body, data0)
    ensures data.flags == data0.flags && data.switches == data0.switches
    ensures Present(body, "min_year") && !YearOk(Get(body, "min_year"), currentYear) ==>
              error == Some(MinYearError)
  {
    data, error := CheckYears(body, currentYear, data0);
    if error.Some? {
      return;
    }
    data, error := CheckOthers(body, data);
  }

  /** The year checks: `min_year` up to the current year, `max_year` up to
      five years later. */
  method CheckYears(body: map<string, JsValue>, currentYear: int, data0: Patch)
    returns (data: Patch, error: Option<string>)
    ensures error.None? <==>
              (Present(body, "min_year") ==> YearOk(Get(body, "min_year"), currentYear))
              && (Present(body, "max_year") ==> YearOk(Get(body, "max_year"), currentYear + 5))
    ensures error.None? ==> data == data0.(
              minYear := if Present(body, "min_year") then ParseInt(Get(body, "min_year")) else data0.minYear,
              maxYear := if Present(body, "max_year") then ParseInt(Get(body, "max_year")) else data0.maxYear)
    ensures data.flags == data0.flags && data.switches == data0.switches
    ensures Present(body, "min_year") && !YearOk(Get(body, "min_year"), currentYear) ==>
              error == Some(MinYearError)
  {
    data, error := data0, None;

    var minYear := Get(body, "min_year");
    if minYear != Undefined {
      var y := ParseInt(minYear);
      if y.None? || y.value < 1900 || y.value > currentYear {
        return data, Some(MinYearError);
      }
      data := data.(minYear := ParseInt(minYear));
    }

    var maxYear := Get(body, "max_year");
    if maxYear != Undefined {
      var y := ParseInt(maxYear);
      if y.None? || y.value < 1900 || y.value > currentYear + 5 {
        return data, Some(MaxYearError);
      }
      data := data.(maxYear := ParseInt(maxYear));
    }
  }

  /** The rating, runtime and language checks. */
  method CheckOthers(body: map<string, JsValue>, data0: Patch)
    returns (data: Patch, error: Option<string>)
    ensures error.None? <==>
              (Present(body, "min_rating") ==> RatingOk(Get(body, "min_rating")))
              && (Present(body, "runtime_preference") ==> RuntimeOk(Get(body, "runtime_preference")))
              && (Present(body, "preferred_languages") ==> LanguagesOk(Get(body, "preferred_languages")))
    ensures error.None? ==> data == data0.(
              minRating := if Present(body, "min_rating") then ParseFloat(Get(body, "min_rating")) else data0.minRating,
              runtime := if Get(body, "runtime_preference").Str? then Some(Get(body, "runtime_preference").s) else data0.runtime,
              languages := if Present(body, "preferred_languages") then Some(Get(body, "preferred_languages")) else data0.languages)
    ensures data.flags == data0.flags && data.switches == data0.switches
  {
    data, error := data0, None;

    var minRating := Get(body, "min_rating");
    if minRating != Undefined {
      var r := ParseFloat(minRating);
      if r.None? || r.value < 0.0 || r.value > 10.0 {
        return data, Some(RatingError);
      }
      data := data.(minRating := ParseFloat(minRating));
    }

    var runtime := Get(body, "runtime_preference");
    if runtime != Undefined {
      if !(runtime.Str? && runtime.s in Runtimes) {
        return data, Some(RuntimeError);
      }
      data := data.(runtime := Some(runtime.s));
    }

    var languages := Get(body, "preferred_languages");
    if languages != Undefined {
      if !(languages == Null || languages.Arr?) {
        return data, Some(LanguagesError);
      }
      data := data.(languages := Some(languages));
    }
  }

  /** `validatePreferencesData`: the error is set exactly when some field
      the body carries is invalid; on success `data` holds exactly the
      carried fields. A bad year, rating, runtime or language list ends the
      validation with its own message. */
  method ValidatePreferencesData(body: map<string, JsValue>, currentYear: int) returns (result: Validation)
    ensures result.error.None? <==> ValidBody(body, currentYear)
    ensures result.error.None? ==> result.data == Expected(body)
    ensures forall g :: g in result.data.flags ==> Present(body, GenreField(g))
    ensures forall s :: s in result.data.switches ==> Present(body, SwitchField(s))
    ensures Present(body, "min_year") && !YearOk(Get(body, "min_year"), currentYear) ==>
              result.error == Some(MinYearError)
  {
    var flags, error := CheckGenres(body);
    var data, scalarError := CheckScalars(body, currentYear, EmptyPatch.(flags := flags));
    if scalarError.Some? {
      return Validation(data, scalarError);
    }
    var switches;
    switches, error := CheckSwitches(body, error);
    result := Validation(data.(switches := switches), error);
  }

  /** Flags are compared strictly: `true` and "1" are not flags. */
  lemma LooseFlagRejected(body: map<string, JsValue>, g: Genre, currentYear: int)
    requires Get(body, GenreField(g)) == Bool(true) || Get(body, GenreField(g)) == Str("1")
    ensures !ValidBody(body, currentYear)
  {
    var k := GenreRank(g);
    assert Present(body, GenreField(AllGenres[k]));
  }

  /** A present null year fails: `parseInt(null)` is NaN. */
  lemma NullYearRejected(body: map<string, JsValue>, currentYear: int)
    requires Get(body, "min_year") == Null
    ensures !ValidBody(body, currentYear)
  {
  }

  /** A range whose floor lies after its ceiling is accepted. */
  lemma InvertedRangeAccepted()
    ensures ValidBody(map["min_year" := Num(2020.0), "max_year" := Num(1950.0)], 2025)
  {
    var body := map["min_year" := Num(2020.0), "max_year" := Num(1950.0)];
    assert Trunc(2020.0) == 2020 && Trunc(1950.0) == 1950;
    assert YearOk(Get(body, "min_year"), 2025) && YearOk(Get(body, "max_year"), 2025 + 5);
    OnlyYearsValid(body, 2025);
  }

  /** A hexadecimal year text passes as the year it denotes: "0x7D0" is 2000. */
  lemma HexYearAccepted(currentYear: int)
    requires currentYear >= 2000
    ensures ParseInt(Str("0x7D0")) == Some(2000) && YearOk(Str("0x7D0"), currentYear)
  {
    HexYear();
  }

  /** A one-item array passes as the year it holds. */
  lemma ArrayYearAccepted(currentYear: int)
    requires currentYear >= 2000
    ensures ParseInt(Arr([Num(2000.0)])) == Some(2000) && YearOk(Arr([Num(2000.0)]), currentYear)
  {
    ArrayYear();
  }

  /** A rating text is read with its exponent: "5e1" is 50 and is refused. */
  lemma ExponentRatingRejected()
    ensures ParseFloat(Str("5e1")) == Some(50.0) && !RatingOk(Str("5e1"))
  {
    FloatExponent();
  }

  /** A body that carries at most the two year fields is valid exactly
      when each year it carries is in its own range. */
  lemma OnlyYearsValid(body: map<string, JsValue>, currentYear: int)
    requires forall key :: key in body ==> key == "min_year" || key == "max_year"
    requires Present(body, "min_year") ==> YearOk(Get(body, "min_year"), currentYear)
    requires Present(body, "max_year") ==> YearOk(Get(body, "max_year"), currentYear + 5)
    ensures ValidBody(body, currentYear)
  {
    forall k | 0 <= k < |AllGenres| ensures !Present(body, GenreField(AllGenres[k])) {
      assert |GenreField(AllGenres[k])| != 8;
    }
    forall k | 0 <= k < |AllSwitches| ensures !Present(body, SwitchField(AllSwitches[k])) {
      assert |SwitchField(AllSwitches[k])| != 8;
    }
    assert |"min_rating"| != 8 && |"runtime_preference"| != 8 && |"preferred_languages"| != 8;
  }

  // ---------------------------------------------------------------------
  // Handlers
  // ---------------------------------------------------------------------

  /** `getPreferences`: the stored row, or the defaults when there is none. */
  function GetPreferences(rows: map<int, Prefs>, userId: int, currentYear: int): Prefs
  {
    if userId in rows then rows[userId] else Defaults(currentYear)
  }

  /** The table after writing a valid patch: created from the column
      defaults when the user has no row, otherwise only the carried fields
      change. */
  function Written(rows: map<int, Prefs>, userId: int, d: Patch, currentYear: int): map<int, Prefs>
  {
    rows[userId := Apply(GetPreferences(rows, userId, currentYear), d)]
  }

  /** What `getPreferences` answers after a write is the patch applied to
      what it answered before, whether or not a row existed. */
  lemma ReadAfterWrite(rows: map<int, Prefs>, userId: int, d: Patch, currentYear: int, other: int)
    ensures GetPreferences(Written(rows, userId, d, currentYear), userId, currentYear)
            == Apply(GetPreferences(rows, userId, currentYear), d)
    ensures other != userId ==>
            GetPreferences(Written(rows, userId, d, currentYear), other, currentYear)
            == GetPreferences(rows, other, currentYear)
  {
  }

  /** Writing the same patch twice is writing it once. */
  lemma WriteIdempotent(rows: map<int, Prefs>, userId: int, d: Patch, currentYear: int)
    ensures Written(Written(rows, userId, d, currentYear), userId, d, currentYear)
            == Written(rows, userId, d, currentYear)
  {
    ApplyIdempotent(GetPreferences(rows, userId, currentYear), d);
  }

  datatype Outcome = MissingFields | UserNotFound | ValidationFailed | Saved(row: Prefs, created: bool)

  /** `updatePreferences`: a validation error writes nothing; otherwise
      the row is created or updated with exactly the carried fields. */
  method UpdatePreferences(table: PreferenceTable, userId: int, body: map<string, JsValue>, currentYear: int)
    returns (r: Outcome)
    modifies table
    ensures !ValidBody(body, currentYear) ==> r == ValidationFailed && table.rows == old(table.rows)
    ensures ValidBody(body, currentYear) ==>
              && table.rows == Written(old(table.rows), userId, Expected(body), currentYear)
              && r == Saved(table.rows[userId], userId !in old(table.rows))
  {
    var v := ValidatePreferencesData(body, currentYear);
    if v.error.Some? {
      return ValidationFailed;
    }
    var created := userId !in table.rows;
    var row := if created then Apply(Defaults(currentYear), v.data) else Apply(table.rows[userId], v.data);
    table.rows := table.rows[userId := row];
    r := Saved(row, created);
  }

  /** `setPreferences`: a falsy user id and an unknown account are refused
      before validation; a valid body is upserted like an update. */
  method SetPreferences(table: PreferenceTable, userId: Option<int>, accounts: set<int>,
                        body: map<string, JsValue>, currentYear: int)
    returns (r: Outcome)
    modifies table
    ensures !IntTruthy(userId) ==> r == MissingFields && table.rows == old(table.rows)
    ensures IntTruthy(userId) && userId.value !in accounts ==> r == UserNotFound && table.rows == old(table.rows)
    ensures IntTruthy(userId) && userId.value in accounts ==>
              if ValidBody(body, currentYear) then
                && table.rows == Written(old(table.rows), userId.value, Expected(body), currentYear)
                && r == Saved(table.rows[userId.value], userId.value !in old(table.rows))
              else r == ValidationFailed && table.rows == old(table.rows)
  {
    if !IntTruthy(userId) {
      return MissingFields;
    }
    if userId.value !in accounts {
      return UserNotFound;
    }
    r := UpdatePreferences(table, userId.value, body, currentYear);
  }

  /** `deletePreferences`: always succeeds; `deleted` tells whether a row
      was removed. */
  method DeletePreferences(table: PreferenceTable, userId: int) returns (deleted: bool)
    modifies table
    ensures deleted <==> userId in old(table.rows)
    ensures table.rows == old(table.rows) - {userId}
  {
    deleted := userId in table.rows;
    table.rows := table.rows - {userId};
  }

  /** After a delete the user reads the defaults again. */
  lemma ReadAfterDelete(rows: map<int, Prefs>, userId: int, currentYear: int)
    ensures GetPreferences(rows - {userId}, userId, currentYear) == Defaults(currentYear)
  {
  }
}
