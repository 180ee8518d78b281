/**
 * The year-range helper: named presets that overwrite the caller's bounds
 * before the two year columns of the preferences row are written, and the
 * release-date filters derived from a row.
 */
module YearRange {
  import opened JsValues
  import opened PreferenceRow
  import MovieDiscovery

  /** The bounds a known preset stands for; `None` for any other name. */
  function PresetRange(preset: string): Option<(Option<int>, Option<int>)>
  {
    if preset == "all_time" then Some((None, None))
    else if preset == "modern" then Some((Some(2000), None))
    else if preset == "recent" then Some((Some(2015), None))
    else if preset == "latest" then Some((Some(2020), None))
    else if preset == "classics" then Some((Some(1970), Some(1999)))
    else None
  }

  /** `if (preset)`: a missing or empty preset name is falsy. */
  predicate PresetGiven(preset: Option<string>)
  {
    preset.Some? && preset.value != ""
  }

  /** Every preset is a range the preferences validator would accept once
      the current year has reached the newest preset floor. */
  lemma PresetsAreValidRanges(preset: string, currentYear: int)
    requires currentYear >= 2020
    requires PresetRange(preset).Some?
    ensures var (lo, hi) := PresetRange(preset).value;
            && (lo.Some? ==> 1900 <= lo.value <= currentYear)
            && (hi.Some? ==> 1900 <= hi.value <= currentYear + 5)
            && (lo.Some? && hi.Some? ==> lo.value <= hi.value)
  {
  }

  /** Only the classics preset caps the range; all the others leave the
      upper bound open. */
  lemma OnlyClassicsIsBounded(preset: string)
    requires PresetRange(preset).Some?
    ensures PresetRange(preset).value.1.Some? <==> preset == "classics"
  {
  }

  /** A year as the request body carries it: left out (undefined), null, or
      a whole number. */
  datatype YearArg = Absent | Cleared | Year(year: int)

  /** A preset bound as a year argument: no bound is null. */
  function Bound(b: Option<int>): (a: YearArg)
    ensures a.Absent? == false
    ensures a.Year? <==> b.Some?
    ensures a.Year? ==> a.year == b.value
  {
    if b.Some? then Year(b.value) else Cleared
  }

  /** The years `setYearRange` writes: a known preset replaces both, and an
      unknown or missing preset keeps the caller's. */
  function ChosenYears(fromYear: YearArg, toYear: YearArg, preset: Option<string>): (r: (YearArg, YearArg))
    ensures PresetGiven(preset) && PresetRange(preset.value).Some? ==>
              r == (Bound(PresetRange(preset.value).value.0), Bound(PresetRange(preset.value).value.1))
    ensures !(PresetGiven(preset) && PresetRange(preset.value).Some?) ==> r == (fromYear, toYear)
  {
    if PresetGiven(preset) && PresetRange(preset.value).Some? then
      var (lo, hi) := PresetRange(preset.value).value;
      (Bound(lo), Bound(hi))
    else (fromYear, toYear)
  }

  /** The column validators: a written year must lie in `[lo, hi]`; null is
      allowed, and a left-out year is not validated. */
  predicate Accepted(a: YearArg, lo: int, hi: int)
  {
    a.Year? ==> lo <= a.year <= hi
  }

  /** The column after `update`: a left-out year keeps the stored value,
      null clears it and a year replaces it. */
  function Written(a: YearArg, stored: Option<int>): (c: Option<int>)
    ensures a.Absent? ==> c == stored
    ensures a.Cleared? ==> c == None
    ensures a.Year? ==> c == Some(a.year)
  {
    match a
    case Absent => stored
    case Cleared => None
    case Year(y) => Some(y)
  }

  /** The `{ success: true, minYear, maxYear, preset }` the helper returns. */
  datatype YearRangeResult = YearRangeResult(minYear: YearArg, maxYear: YearArg, preset: Option<string>)

  /** `setYearRange`: the chosen years go through the column validators
      (`min_year` in [1900, currentYear], `max_year` in [1900, currentYear +
      5]) before anything is written. A rejected update throws, which the
      helper rethrows and the route answers with status 500: `None`, and no
      row changes. Otherwise only the two year columns of an existing row
      are written, a left-out year keeps its column, and no row is created. */
  method SetYearRange(table: PreferenceTable, userId: int, fromYear: YearArg, toYear: YearArg,
                      preset: Option<string>, currentYear: int)
    returns (r: Option<YearRangeResult>)
    modifies table
    ensures var (lo, hi) := ChosenYears(fromYear, toYear, preset);
            r.Some? <==> Accepted(lo, 1900, currentYear) && Accepted(hi, 1900, currentYear + 5)
    ensures r.Some? ==> r.value == YearRangeResult(ChosenYears(fromYear, toYear, preset).0,
                                                   ChosenYears(fromYear, toYear, preset).1, preset)
    ensures r.Some? && userId in old(table.rows) ==>
              var row := old(table.rows)[userId];
              table.rows == old(table.rows)[userId := row.(minYear := Written(r.value.minYear, row.minYear),
                                                           maxYear := Written(r.value.maxYear, row.maxYear))]
    ensures r.None? || userId !in old(table.rows) ==> table.rows == old(table.rows)
  {
    var minYear := fromYear;
    var maxYear := toYear;
    if PresetGiven(preset) {
      var p := preset.value;
      if p == "all_time" {
        minYear, maxYear := Cleared, Cleared;
      } else if p == "modern" {
        minYear, maxYear := Year(2000), Cleared;
      } else if p == "recent" {
        minYear, maxYear := Year(2015), Cleared;
      } else if p == "latest" {
        minYear, maxYear := Year(2020), Cleared;
      } else if p == "classics" {
        minYear, maxYear := Year(1970), Year(1999);
      }
    }
    if !Accepted(minYear, 1900, currentYear) || !Accepted(maxYear, 1900, currentYear + 5) {
      return None;
    }
    if userId in table.rows {
      var row := table.rows[userId];
      table.rows := table.rows[userId := row.(minYear := Written(minYear, row.minYear),
                                              maxYear := Written(maxYear, row.maxYear))];
    }
    r := Some(YearRangeResult(minYear, maxYear, preset));
  }

  /** Once the current year has reached 2020, every known preset passes the
      column validators, so choosing one never fails. */
  lemma PresetsAccepted(fromYear: YearArg, toYear: YearArg, preset: string, currentYear: int)
    requires currentYear >= 2020
    requires preset != "" && PresetRange(preset).Some?
    ensures var (lo, hi) := ChosenYears(fromYear, toYear, Some(preset));
            Accepted(lo, 1900, currentYear) && Accepted(hi, 1900, currentYear + 5)
  {
    PresetsAreValidRanges(preset, currentYear);
  }

  const GteKey := "primary_release_date.gte"
  const LteKey := "primary_release_date.lte"

  /** `getYearFilters`: a key per truthy year, rendered as the first or the
      last day of that year; a missing row or zero years give no key. */
  method GetYearFilters(prefs: Option<Prefs>) returns (filters: map<string, JsValue>)
    ensures filters.Keys <= {GteKey, LteKey}
    ensures GteKey in filters <==> prefs.Some? && IntTruthy(prefs.value.minYear)
    ensures LteKey in filters <==> prefs.Some? && IntTruthy(prefs.value.maxYear)
    ensures GteKey in filters ==> filters[GteKey] == Str(MovieDiscovery.YearDate(prefs.value.minYear.value, "-01-01"))
    ensures LteKey in filters ==> filters[LteKey] == Str(MovieDiscovery.YearDate(prefs.value.maxYear.value, "-12-31"))
  {
    filters := map[];
    if prefs.Some? && IntTruthy(prefs.value.minYear) {
      filters := filters[GteKey := Str(MovieDiscovery.YearDate(prefs.value.minYear.value, "-01-01"))];
    }
    if prefs.Some? && IntTruthy(prefs.value.maxYear) {
      filters := filters[LteKey := Str(MovieDiscovery.YearDate(prefs.value.maxYear.value, "-12-31"))];
    }
  }

  /** Choosing the all_time preset leaves the row with no year filter. */
  method AllTimeClearsFilters(table: PreferenceTable, userId: int, fromYear: YearArg, toYear: YearArg,
                              currentYear: int)
    returns (filters: map<string, JsValue>)
    modifies table
    requires userId in table.rows
    ensures filters == map[]
  {
    var r := SetYearRange(table, userId, fromYear, toYear, Some("all_time"), currentYear);
    filters := GetYearFilters(Some(table.rows[userId]));
  }
}
