/**
 * The browser's movie normaliser: a raw movie from either API shape (TMDB
 * or the application's own rows) becomes one display record, with image
 * URLs resolved, text defaults filled in and genres turned into
 * `{id, name}` objects with Hungarian names.
 */
module FrontendMovie {
  import opened JsValues
  import opened HungarianGenres

  const PosterPrefix := "https://image.tmdb.org/t/p/w500"
  const BackdropPrefix := "https://image.tmdb.org/t/p/w780"
  const PlaceholderPoster := "/placeholder-movie.jpg"
  const UnknownTitle := "Ismeretlen cím"
  const NoOverview := "Nincs leírás elérhető."
  const GenrePrefix := "Műfaj "

  /** `a || b`. */
  function Or(a: JsValue, b: JsValue): (r: JsValue)
    ensures Truthy(a) ==> r == a
    ensures !Truthy(a) ==> r == b
  {
    if Truthy(a) then a else b
  }

  // ---------------------------------------------------------------------
  // Genres
  // ---------------------------------------------------------------------

  /** `{id: id, name: GENRE_MAP[id] || `Műfaj ${id}`}`. */
  function GenreEntry(id: JsValue): JsValue
  {
    Obj(map["id" := id, "name" := Str(NameOr(id, GenrePrefix))])
  }

  /** `ids.map(GenreEntry)`. */
  function GenreEntries(ids: seq<JsValue>): (r: seq<JsValue>)
    ensures |r| == |ids|
    ensures forall i :: 0 <= i < |ids| ==> r[i] == GenreEntry(ids[i])
  {
    if ids == [] then [] else [GenreEntry(ids[0])] + GenreEntries(ids[1..])
  }

  /** The maximal runs of decimal digits in `s`, left to right: what
      `s.match(/\d+/g)` finds (or an empty list where it gives null). */
  function DigitRuns(s: string): (runs: seq<string>)
    ensures forall i :: 0 <= i < |runs| ==> runs[i] != [] && forall j :: 0 <= j < |runs[i]| ==> IsDigit(runs[i][j])
    decreases |s|
  {
    if s == [] then []
    else if !IsDigit(s[0]) then DigitRuns(s[1..])
    else
      var run := DigitPrefix(s);
      [run] + DigitRuns(s[|run|..])
  }

  /** The digits of `s`, in order. */
  function DigitsOf(s: string): (r: string)
  {
    if s == [] then [] else (if IsDigit(s[0]) then [s[0]] else []) + DigitsOf(s[1..])
  }

  function Concat(runs: seq<string>): string
  {
    if runs == [] then [] else runs[0] + Concat(runs[1..])
  }

  lemma {:induction false} DigitsOfAppend(a: string, b: string)
    ensures DigitsOf(a + b) == DigitsOf(a) + DigitsOf(b)
    decreases |a|
  {
    if a == [] {
      assert a + b == b;
    } else {
      assert (a + b)[0] == a[0];
      assert (a + b)[1..] == a[1..] + b;
      DigitsOfAppend(a[1..], b);
    }
  }

  lemma {:induction false} DigitsOfDigits(ds: string)
    requires forall j :: 0 <= j < |ds| ==> IsDigit(ds[j])
    ensures DigitsOf(ds) == ds
    decreases |ds|
  {
    if ds != [] {
      DigitsOfDigits(ds[1..]);
    }
  }

  /** The runs hold every digit of the string and nothing else, in order. */
  lemma {:induction false} RunsCoverDigits(s: string)
    ensures Concat(DigitRuns(s)) == DigitsOf(s)
    decreases |s|
  {
    if s == [] {
    } else if !IsDigit(s[0]) {
      RunsCoverDigits(s[1..]);
    } else {
      var run := DigitPrefix(s);
      var rest := s[|run|..];
      RunsCoverDigits(rest);
      assert s == run + rest;
      DigitsOfAppend(run, rest);
      DigitsOfDigits(run);
      var runs := [run] + DigitRuns(rest);
      assert runs[1..] == DigitRuns(rest);
    }
  }

  /** Runs are maximal: a non-digit separates the runs on either side of it,
      and two runs are never merged across it. */
  lemma {:induction false} RunsSplitAtNonDigit(a: string, c: char, b: string)
    requires !IsDigit(c)
    ensures DigitRuns(a + [c] + b) == DigitRuns(a) + DigitRuns(b)
    decreases |a|
  {
    var s := a + [c] + b;
    if a == [] {
      assert s[1..] == b;
    } else if !IsDigit(a[0]) {
      assert s[1..] == a[1..] + [c] + b;
      RunsSplitAtNonDigit(a[1..], c, b);
    } else {
      var run := DigitPrefix(a);
      DigitPrefixStopsAt(a, c, b);
      assert DigitPrefix(s) == run;
      assert s[|run|..] == a[|run|..] + [c] + b;
      if |run| < |a| {
        RunsSplitAtNonDigit(a[|run|..], c, b);
        assert DigitRuns(a) == [run] + DigitRuns(a[|run|..]);
      } else {
        assert a[|run|..] == [];
        assert a == run;
        assert s[|run|..] == [c] + b;
        assert ([c] + b)[1..] == b;
        assert DigitRuns(a[|run|..]) == [];
        assert DigitRuns(a) == [run] + DigitRuns(a[|run|..]);
      }
    }
  }

  /** A block of digits with no digit on either side of it is found as one
      run, whole: `/\d+/g` neither splits it nor extends it. */
  lemma {:induction false} MaximalBlockIsOneRun(a: string, ds: string, b: string)
    requires ds != [] && forall j :: 0 <= j < |ds| ==> IsDigit(ds[j])
    requires a == [] || !IsDigit(a[|a| - 1])
    requires b == [] || !IsDigit(b[0])
    ensures DigitRuns(a + ds + b) == DigitRuns(a) + [ds] + DigitRuns(b)
  {
    if a == [] {
      assert a + ds + b == ds + b;
      DigitBlockLeads(ds, b);
    } else {
      BlockAfterNonDigit(a, ds, b);
    }
  }

  lemma {:induction false} BlockAfterNonDigit(a: string, ds: string, b: string)
    requires ds != [] && forall j :: 0 <= j < |ds| ==> IsDigit(ds[j])
    requires a != [] && !IsDigit(a[|a| - 1])
    requires b == [] || !IsDigit(b[0])
    ensures DigitRuns(a + ds + b) == DigitRuns(a) + [ds] + DigitRuns(b)
  {
    var before := DigitRuns(a[..|a| - 1]);
    var after := [ds] + DigitRuns(b);
    assert DigitRuns(a) == before by {
      DropNonDigitEnd(a, []);
      assert a + [] == a;
    }
    assert DigitRuns(a + ds + b) == before + after by {
      DigitBlockLeads(ds, b);
      DropNonDigitEnd(a, ds + b);
      assert a + ds + b == a + (ds + b);
    }
    assert before + after == before + [ds] + DigitRuns(b);
  }

  /** A string ending in a non-digit contributes its runs before the end. */
  lemma {:induction false} DropNonDigitEnd(a: string, x: string)
    requires a != [] && !IsDigit(a[|a| - 1])
    ensures DigitRuns(a + x) == DigitRuns(a[..|a| - 1]) + DigitRuns(x)
  {
    var a' := a[..|a| - 1];
    assert a + x == a' + [a[|a| - 1]] + x;
    RunsSplitAtNonDigit(a', a[|a| - 1], x);
  }

  lemma DigitBlockLeads(ds: string, b: string)
    requires ds != [] && forall j :: 0 <= j < |ds| ==> IsDigit(ds[j])
    requires b == [] || !IsDigit(b[0])
    ensures DigitRuns(ds + b) == [ds] + DigitRuns(b)
  {
    var tail := ds + b;
    DigitPrefixOfBlock(ds, b);
    assert tail[0] == ds[0];
    assert tail[|ds|..] == b;
  }

  lemma {:induction false} DigitPrefixOfBlock(ds: string, b: string)
    requires forall j :: 0 <= j < |ds| ==> IsDigit(ds[j])
    requires b == [] || !IsDigit(b[0])
    ensures DigitPrefix(ds + b) == ds
    decreases |ds|
  {
    if ds == [] {
      assert ds + b == b;
    } else {
      assert (ds + b)[1..] == ds[1..] + b;
      DigitPrefixOfBlock(ds[1..], b);
    }
  }

  /** The digit prefix of `a + [c] + b` ends inside `a` when `c` is not a digit. */
  lemma {:induction false} DigitPrefixStopsAt(a: string, c: char, b: string)
    requires !IsDigit(c)
    ensures DigitPrefix(a + [c] + b) == DigitPrefix(a)
    decreases |a|
  {
    var s := a + [c] + b;
    if a == [] {
    } else if IsDigit(a[0]) {
      assert s[1..] == a[1..] + [c] + b;
      DigitPrefixStopsAt(a[1..], c, b);
    }
  }

  /** `parseInt` of each run, as a number. */
  function RunIds(runs: seq<string>): (ids: seq<JsValue>)
    requires forall i :: 0 <= i < |runs| ==> forall j :: 0 <= j < |runs[i]| ==> IsDigit(runs[i][j])
    ensures |ids| == |runs|
    ensures forall i :: 0 <= i < |runs| ==> ids[i] == Num(DigitsValue(runs[i]) as real)
  {
    if runs == [] then [] else [Num(DigitsValue(runs[0]) as real)] + RunIds(runs[1..])
  }

  /** `processGenres`. `parsed` is what `JSON.parse` makes of the trimmed
      genres text (`None` when it is not JSON). A truthy `genre_ids` that is
      not an array throws when `.map` is called on it. */
  function ProcessGenres(raw: JsValue, parsed: Option<JsValue>): (r: Completion<seq<JsValue>>)
    ensures Truthy(Prop(raw, "genres")) ==> r.Normal?
    ensures var g := Prop(raw, "genres");
            g.Arr? && |g.items| > 0 && g.items[0].Num? ==> r == Normal(GenreEntries(g.items))
    ensures var g := Prop(raw, "genres");
            g.Arr? && !(|g.items| > 0 && g.items[0].Num?) ==> r == Normal(g.items)
    ensures var g := Prop(raw, "genres");
            g.Str? && g.s != "" && !(parsed.Some? && parsed.value.Arr?) ==>
              r == Normal(GenreEntries(RunIds(DigitRuns(g.s))))
    ensures var g := Prop(raw, "genres");
            g.Str? && g.s != "" && parsed.Some? && parsed.value.Arr? ==>
              r == Normal(GenreEntries(parsed.value.items))
    ensures var g := Prop(raw, "genres");
            Truthy(g) && !g.Arr? && !g.Str? ==> r == Normal([])
    ensures !Truthy(Prop(raw, "genres")) && !Truthy(Prop(raw, "genre_ids")) ==> r == Normal([])
    ensures !Truthy(Prop(raw, "genres")) && Truthy(Prop(raw, "genre_ids")) ==>
              (r.Throw? <==> !Prop(raw, "genre_ids").Arr?)
  {
    var genres := Prop(raw, "genres");
    if Truthy(genres) then
      match genres
      case Arr(items) =>
        if |items| > 0 && items[0].Num? then Normal(GenreEntries(items)) else Normal(items)
      case Str(s) =>
        if parsed.Some? && parsed.value.Arr? then Normal(GenreEntries(parsed.value.items))
        else Normal(GenreEntries(RunIds(DigitRuns(s))))
      case _ => Normal([])
    else
      var ids := Prop(raw, "genre_ids");
      if !Truthy(ids) then Normal([])
      else if ids.Arr? then Normal(GenreEntries(ids.items))
      else Throw
  }

  /** `genre_ids` is consulted only when `genres` is falsy: with truthy
      genres, any `genre_ids` gives the same result. */
  lemma GenreIdsIgnored(fields: map<string, JsValue>, ids: JsValue, parsed: Option<JsValue>)
    requires Truthy(Get(fields, "genres"))
    ensures ProcessGenres(Obj(fields["genre_ids" := ids]), parsed) == ProcessGenres(Obj(fields), parsed)
  {
    assert Get(fields["genre_ids" := ids], "genres") == Get(fields, "genres");
  }

  /** The digit runs of the malformed genre text `[28, 12`. */
  lemma SampleRuns()
    ensures DigitRuns("[28, 12") == ["28", "12"]
  {
    var s := "[28, 12";
    assert DigitPrefix(s[3..]) == [];
    assert DigitPrefix(s[2..]) == [s[2]] + DigitPrefix(s[3..]);
    assert DigitPrefix(s[1..]) == [s[1]] + DigitPrefix(s[2..]);
    assert DigitPrefix(s[1..]) == "28";
    assert s[1..][2..] == s[3..];
    assert DigitRuns(s[1..]) == ["28"] + DigitRuns(s[3..]);
    assert DigitRuns(s[3..]) == DigitRuns(s[4..]);
    assert DigitRuns(s[4..]) == DigitRuns(s[5..]);
    assert DigitPrefix(s[7..]) == [];
    assert DigitPrefix(s[6..]) == [s[6]] + DigitPrefix(s[7..]);
    assert DigitPrefix(s[5..]) == [s[5]] + DigitPrefix(s[6..]);
    assert DigitPrefix(s[5..]) == "12";
    assert s[5..][2..] == [];
    assert DigitRuns(s[5..]) == ["12"] + DigitRuns([]);
  }

  /** The text of a two-digit whole number. */
  lemma TwoDigitText(n: nat)
    requires 10 <= n < 100
    ensures ToText(Num(n as real)) == [DigitChar(n / 10), DigitChar(n % 10)]
  {
    assert Trunc(n as real) == n;
    assert NatToString(n) == NatToString(n / 10) + [DigitChar(n % 10)];
  }

  /** A malformed genre text such as `[28, 12` falls back to its digit
      runs, in order. */
  lemma MalformedTextUsesRuns()
    ensures ProcessGenres(Obj(map["genres" := Str("[28, 12")]), None) ==
              Normal([GenreEntry(Num(28.0)), GenreEntry(Num(12.0))])
  {
    TextGenres("[28, 12");
    SampleRuns();
    SampleIds();
    PairEntries(Num(28.0), Num(12.0));
  }

  /** A non-JSON genre text stored alone on a movie goes through its digit runs. */
  lemma TextGenres(text: string)
    requires text != ""
    ensures ProcessGenres(Obj(map["genres" := Str(text)]), None) == Normal(GenreEntries(RunIds(DigitRuns(text))))
  {
    assert Prop(Obj(map["genres" := Str(text)]), "genres") == Str(text);
  }

  lemma PairEntries(a: JsValue, b: JsValue)
    ensures GenreEntries([a, b]) == [GenreEntry(a), GenreEntry(b)]
  {
    assert [a, b][1..] == [b];
  }

  /** A two-digit run is read as tens and units. */
  lemma TwoDigitValue(s: string)
    requires |s| == 2 && IsDigit(s[0]) && IsDigit(s[1])
    ensures DigitsValue(s) == DigitValue(s[0]) * 10 + DigitValue(s[1])
  {
    assert s[..1] == [s[0]];
    assert s[..1][..0] == [];
    assert DigitsValue(s[..1]) == DigitValue(s[0]);
  }

  lemma SampleIds()
    ensures RunIds(["28", "12"]) == [Num(28.0), Num(12.0)]
  {
    var runs := ["28", "12"];
    TwoDigitValue(runs[0]);
    TwoDigitValue(runs[1]);
    var ids := RunIds(runs);
    assert ids[0] == Num(28.0) && ids[1] == Num(12.0);
  }

  /** Those two ids are named Akció and Kaland. */
  lemma SampleNames()
    ensures GenreEntry(Num(28.0)) == Obj(map["id" := Num(28.0), "name" := Str("Akció")])
    ensures GenreEntry(Num(12.0)) == Obj(map["id" := Num(12.0), "name" := Str("Kaland")])
  {
    TwoDigitText(28);
    TwoDigitText(12);
  }

  /** An id missing from the map gets the `Műfaj <id>` fallback. */
  lemma UnknownIdFallback()
    ensures GenreEntry(Num(7.0)) == Obj(map["id" := Num(7.0), "name" := Str("Műfaj 7")])
  {
    assert Trunc(7.0) == 7;
    assert ToText(Num(7.0)) == "7";
    assert "7" !in GenreMap;
    assert GenrePrefix + "7" == "Műfaj 7";
  }

  // ---------------------------------------------------------------------
  // processMovieData
  // ---------------------------------------------------------------------

  /** Where the display year comes from: `new Date(release_date).getFullYear()`
      for a truthy release date (date parsing itself is not modelled), else
      `year || null`. */
  datatype Year = DateYear(date: JsValue) | PlainYear(year: JsValue)

  /** The fields the display record copies from the raw movie unchanged. */
  const CopiedKeys: set<string> := {"imdb_id", "original_title", "popularity", "poster_path",
    "backdrop_path", "original_language", "certification", "director", "cast", "country", "awards"}

  /** The display record. `voteAverage` and `voteCount` are `None` where
      `parseFloat` or `parseInt` gives NaN. */
  datatype Movie = Movie(
    id: JsValue,
    tmdbId: JsValue,
    title: JsValue,
    overview: JsValue,
    releaseDate: JsValue,
    year: Year,
    voteAverage: Option<real>,
    voteCount: Option<int>,
    posterUrl: JsValue,
    backdropUrl: JsValue,
    genres: seq<JsValue>,
    adult: JsValue,
    runtime: JsValue,
    copied: map<string, JsValue>)

  /** The display year's source. */
  function YearOf(raw: JsValue): (y: Year)
    ensures Truthy(Prop(raw, "release_date")) <==> y.DateYear?
    ensures y.DateYear? ==> y.date == Prop(raw, "release_date")
    ensures y.PlainYear? ==> (Truthy(y.year) <==> Truthy(Prop(raw, "year"))) &&
                             (Truthy(y.year) ==> y.year == Prop(raw, "year")) &&
                             (!Truthy(y.year) ==> y.year == Null)
  {
    var date := Prop(raw, "release_date");
    if Truthy(date) then DateYear(date) else PlainYear(Or(Prop(raw, "year"), Null))
  }

  /** The poster URL: `poster_url`, else an absolute `poster_path` as is,
      else the TMDB w500 URL of the path, else the placeholder; a truthy
      path that is not a string throws at `startsWith`. */
  function PosterUrl(raw: JsValue): Completion<JsValue>
  {
    var url := Prop(raw, "poster_url");
    var path := Prop(raw, "poster_path");
    if Truthy(url) then Normal(url)
    else if Truthy(path) then
      if !path.Str? then Throw
      else if StartsWith(path.s, "http") then Normal(path)
      else Normal(Str(PosterPrefix + path.s))
    else Normal(Str(PlaceholderPoster))
  }

  /** The backdrop URL: `backdrop_url`, else the TMDB w780 URL of a relative
      `backdrop_path`, else an absolute path as is, else null. */
  function BackdropUrl(raw: JsValue): Completion<JsValue>
  {
    var url := Prop(raw, "backdrop_url");
    var path := Prop(raw, "backdrop_path");
    if Truthy(url) then Normal(url)
    else if Truthy(path) then
      if !path.Str? then Throw
      else if !StartsWith(path.s, "http") then Normal(Str(BackdropPrefix + path.s))
      else Normal(path)
    else Normal(Null)
  }

  /** `processMovieData`: null for a falsy movie; otherwise the display
      record, unless one of the member calls throws. */
  function ProcessMovieData(raw: JsValue, parsed: Option<JsValue>): (r: Completion<Option<Movie>>)
    ensures !Truthy(raw) ==> r == Normal(None)
    ensures Truthy(raw) ==>
              (r.Throw? <==> PosterUrl(raw).Throw? || BackdropUrl(raw).Throw? || ProcessGenres(raw, parsed).Throw?)
    ensures r.Normal? && r.value.Some? ==>
              var m := r.value.value;
              && Normal(m.posterUrl) == PosterUrl(raw)
              && Normal(m.backdropUrl) == BackdropUrl(raw)
              && Normal(m.genres) == ProcessGenres(raw, parsed)
              && m.tmdbId == Or(Prop(raw, "tmdb_id"), Prop(raw, "id"))
              && m.title == Or(Prop(raw, "title"), Str(UnknownTitle))
              && m.overview == Or(Prop(raw, "overview"), Str(NoOverview))
              && m.adult == Or(Prop(raw, "adult"), Bool(false))
              && m.runtime == Or(Prop(raw, "runtime"), Prop(raw, "runtime_minutes"))
              && m.id == Prop(raw, "id") && m.releaseDate == Prop(raw, "release_date")
              && m.year == YearOf(raw)
              && m.voteAverage == ParseFloat(Or(Or(Prop(raw, "vote_average"), Prop(raw, "tmdb_rating")), Num(0.0)))
              && m.voteCount == ParseInt(Or(Or(Prop(raw, "vote_count"), Prop(raw, "tmdb_vote_count")), Num(0.0)))
              && m.copied.Keys == CopiedKeys
              && forall k :: k in CopiedKeys ==> m.copied[k] == Prop(raw, k)
  {
    if !Truthy(raw) then Normal(None)
    else
      var poster := PosterUrl(raw);
      var backdrop := BackdropUrl(raw);
      var genres := ProcessGenres(raw, parsed);
      if poster.Throw? || backdrop.Throw? || genres.Throw? then Throw
      else
        Normal(Some(Movie(
          Prop(raw, "id"),
          Or(Prop(raw, "tmdb_id"), Prop(raw, "id")),
          Or(Prop(raw, "title"), Str(UnknownTitle)),
          Or(Prop(raw, "overview"), Str(NoOverview)),
          Prop(raw, "release_date"),
          YearOf(raw),
          ParseFloat(Or(Or(Prop(raw, "vote_average"), Prop(raw, "tmdb_rating")), Num(0.0))),
          ParseInt(Or(Or(Prop(raw, "vote_count"), Prop(raw, "tmdb_vote_count")), Num(0.0))),
          poster.value,
          backdrop.value,
          genres.value,
          Or(Prop(raw, "adult"), Bool(false)),
          Or(Prop(raw, "runtime"), Prop(raw, "runtime_minutes")),
          map k | k in CopiedKeys :: Prop(raw, k))))
  }

  /** A processed movie always has a poster to show, a non-empty title and
      overview, a backdrop that is either truthy or null, and an `adult`
      flag that is truthy or exactly false. */
  lemma DisplayFieldsPresent(raw: JsValue, parsed: Option<JsValue>)
    requires ProcessMovieData(raw, parsed).Normal? && ProcessMovieData(raw, parsed).value.Some?
    ensures var m := ProcessMovieData(raw, parsed).value.value;
            && Truthy(m.posterUrl) && Truthy(m.title) && Truthy(m.overview)
            && (Truthy(m.backdropUrl) || m.backdropUrl == Null)
            && (Truthy(m.adult) || m.adult == Bool(false))
  {
    var path := Prop(raw, "poster_path");
    if !Truthy(Prop(raw, "poster_url")) && Truthy(path) && path.Str? && !StartsWith(path.s, "http") {
      assert |PosterPrefix + path.s| > 0;
    }
    var bpath := Prop(raw, "backdrop_path");
    if !Truthy(Prop(raw, "backdrop_url")) && Truthy(bpath) && bpath.Str? && !StartsWith(bpath.s, "http") {
      assert |BackdropPrefix + bpath.s| > 0;
    }
  }

  /** A movie that already carries a poster URL keeps it, whatever its
      path says. */
  lemma PosterUrlWins(fields: map<string, JsValue>, url: string, path: JsValue)
    requires url != ""
    ensures PosterUrl(Obj(fields["poster_url" := Str(url)]["poster_path" := path])) == Normal(Str(url))
  {
    assert Get(fields["poster_url" := Str(url)]["poster_path" := path], "poster_url") == Str(url);
  }

  /** A movie with no rating and no vote count in either API's field shows
      0 for both, not NaN. */
  lemma MissingVotesAreZero(raw: JsValue, parsed: Option<JsValue>)
    requires ProcessMovieData(raw, parsed).Normal? && ProcessMovieData(raw, parsed).value.Some?
    requires !Truthy(Prop(raw, "vote_average")) && !Truthy(Prop(raw, "tmdb_rating"))
    requires !Truthy(Prop(raw, "vote_count")) && !Truthy(Prop(raw, "tmdb_vote_count"))
    ensures ProcessMovieData(raw, parsed).value.value.voteAverage == Some(0.0)
    ensures ProcessMovieData(raw, parsed).value.value.voteCount == Some(0)
  {
  }

  /** A TMDB rating is used when the application's own is missing, and a
      numeric rating is kept as it is. */
  lemma TmdbRatingFallback(raw: JsValue, parsed: Option<JsValue>, rating: real)
    requires ProcessMovieData(raw, parsed).Normal? && ProcessMovieData(raw, parsed).value.Some?
    requires !Truthy(Prop(raw, "vote_average")) && Prop(raw, "tmdb_rating") == Num(rating) && rating != 0.0
    ensures ProcessMovieData(raw, parsed).value.value.voteAverage == Some(rating)
  {
  }

  /** A vote count stored as text is read by `parseInt` up to the first
      non-digit: "1234 votes" counts 1234. */
  lemma TextVoteCount(raw: JsValue, parsed: Option<JsValue>, m: nat, suffix: string)
    requires ProcessMovieData(raw, parsed).Normal? && ProcessMovieData(raw, parsed).value.Some?
    requires EndsInteger(suffix)
    requires Prop(raw, "vote_count") == Str(NatToString(m) + suffix)
    ensures ProcessMovieData(raw, parsed).value.value.voteCount == Some(m)
  {
    UnsignedRoundTrip(m, suffix);
  }
}
