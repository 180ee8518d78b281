/**
 * The deterministic part of the movie controller: which TMDB list a user's
 * discovery request draws from, the `discover/movie` query parameters, the
 * normalisation of TMDB records, the adult-content blocklist, runtime
 * enrichment, the already-liked filter and the genre-flag toggle. TMDB
 * responses (discover results, keyword lists, movie details) are inputs.
 */
module MovieDiscovery {
  import opened JsValues
  import opened TableRows
  import TmdbGenres
  import opened PreferenceRow

  // ---------------------------------------------------------------------
  // Choosing the source list
  // ---------------------------------------------------------------------

  /** Where `discoverMovies` takes its movies from: one genre's list, the
      anime list (animation from Japan) or the popular list. */
  datatype Source = GenreList(genreId: int) | AnimeList | Popular

  /** The `if / else if` chain of `discoverMovies`, as written: the first
      flag that is exactly 1 wins; no row, or no flag set, means popular. */
  function ChooseSource(prefs: Option<Prefs>): Source
  {
    if prefs.None? then Popular
    else
      var p := prefs.value;
      if Flag(p, Documentary) == Some(1) then GenreList(99)
      else if Flag(p, Anime) == Some(1) then AnimeList
      else if Flag(p, Action) == Some(1) then GenreList(28)
      else if Flag(p, Animation) == Some(1) then GenreList(16)
      else if Flag(p, Adventure) == Some(1) then GenreList(12)
      else if Flag(p, Comedy) == Some(1) then GenreList(35)
      else if Flag(p, Horror) == Some(1) then GenreList(27)
      else if Flag(p, Drama) == Some(1) then GenreList(18)
      else if Flag(p, Fantasy) == Some(1) then GenreList(14)
      else if Flag(p, ScienceFiction) == Some(1) then GenreList(878)
      else if Flag(p, Romance) == Some(1) then GenreList(10749)
      else if Flag(p, Thriller) == Some(1) then GenreList(53)
      else if Flag(p, Crime) == Some(1) then GenreList(80)
      else if Flag(p, Family) == Some(1) then GenreList(10751)
      else if Flag(p, History) == Some(1) then GenreList(36)
      else if Flag(p, Music) == Some(1) then GenreList(10402)
      else if Flag(p, Mystery) == Some(1) then GenreList(9648)
      else if Flag(p, War) == Some(1) then GenreList(10752)
      else if Flag(p, Western) == Some(1) then GenreList(37)
      else Popular
  }

  /** The priority order of the chain as a table: flag and the list it selects. */
  const Priority: seq<(Genre, Source)> := [
    (Documentary, GenreList(99)), (Anime, AnimeList), (Action, GenreList(28)),
    (Animation, GenreList(16)), (Adventure, GenreList(12)), (Comedy, GenreList(35)),
    (Horror, GenreList(27)), (Drama, GenreList(18)), (Fantasy, GenreList(14)),
    (ScienceFiction, GenreList(878)), (Romance, GenreList(10749)), (Thriller, GenreList(53)),
    (Crime, GenreList(80)), (Family, GenreList(10751)), (History, GenreList(36)),
    (Music, GenreList(10402)), (Mystery, GenreList(9648)), (War, GenreList(10752)),
    (Western, GenreList(37))]

  /** The first-match reading of a priority table: the list of the first
      entry whose flag is exactly 1, popular when there is none. */
  function FirstMatch(p: Prefs, chain: seq<(Genre, Source)>): Source
  {
    if chain == [] then Popular
    else if Flag(p, chain[0].0) == Some(1) then chain[0].1
    else FirstMatch(p, chain[1..])
  }

  /** A first-match lookup returns the entry of the earliest flag equal to 1. */
  lemma {:induction false} FirstMatchPicksEarliest(p: Prefs, chain: seq<(Genre, Source)>, i: nat)
    requires i < |chain| && Flag(p, chain[i].0) == Some(1)
    requires forall j :: 0 <= j < i ==> Flag(p, chain[j].0) != Some(1)
    ensures FirstMatch(p, chain) == chain[i].1
  {
    if i > 0 {
      assert Flag(p, chain[0].0) != Some(1);
      FirstMatchPicksEarliest(p, chain[1..], i - 1);
    }
  }

  /** With no flag equal to 1 a first-match lookup falls back to popular. */
  lemma {:induction false} FirstMatchNone(p: Prefs, chain: seq<(Genre, Source)>)
    requires forall i :: 0 <= i < |chain| ==> Flag(p, chain[i].0) != Some(1)
    ensures FirstMatch(p, chain) == Popular
  {
    if chain != [] {
      assert Flag(p, chain[0].0) != Some(1);
      FirstMatchNone(p, chain[1..]);
    }
  }

  lemma FirstMatchStep(p: Prefs, k: nat)
    requires k < |Priority|
    ensures FirstMatch(p, Priority[k..]) == (if Flag(p, Priority[k].0) == Some(1) then Priority[k].1
                                             else FirstMatch(p, Priority[k + 1..]))
  {
    assert Priority[k..][1..] == Priority[k + 1..];
  }

  lemma ChainTail14(p: Prefs)
    ensures FirstMatch(p, Priority[14..]) ==
      if Flag(p, History) == Some(1) then GenreList(36)
      else if Flag(p, Music) == Some(1) then GenreList(10402)
      else if Flag(p, Mystery) == Some(1) then GenreList(9648)
      else if Flag(p, War) == Some(1) then GenreList(10752)
      else if Flag(p, Western) == Some(1) then GenreList(37)
      else Popular
  {
    assert Priority[19..] == [];
    FirstMatchStep(p, 18); FirstMatchStep(p, 17); FirstMatchStep(p, 16);
    FirstMatchStep(p, 15); FirstMatchStep(p, 14);
  }

  lemma ChainTail9(p: Prefs)
    ensures FirstMatch(p, Priority[9..]) ==
      if Flag(p, ScienceFiction) == Some(1) then GenreList(878)
      else if Flag(p, Romance) == Some(1) then GenreList(10749)
      else if Flag(p, Thriller) == Some(1) then GenreList(53)
      else if Flag(p, Crime) == Some(1) then GenreList(80)
      else if Flag(p, Family) == Some(1) then GenreList(10751)
      else FirstMatch(p, Priority[14..])
  {
    FirstMatchStep(p, 13); FirstMatchStep(p, 12); FirstMatchStep(p, 11);
    FirstMatchStep(p, 10); FirstMatchStep(p, 9);
  }

  lemma ChainTail4(p: Prefs)
    ensures FirstMatch(p, Priority[4..]) ==
      if Flag(p, Adventure) == Some(1) then GenreList(12)
      else if Flag(p, Comedy) == Some(1) then GenreList(35)
      else if Flag(p, Horror) == Some(1) then GenreList(27)
      else if Flag(p, Drama) == Some(1) then GenreList(18)
      else if Flag(p, Fantasy) == Some(1) then GenreList(14)
      else FirstMatch(p, Priority[9..])
  {
    FirstMatchStep(p, 8); FirstMatchStep(p, 7); FirstMatchStep(p, 6);
    FirstMatchStep(p, 5); FirstMatchStep(p, 4);
  }

  /** The `if / else if` chain is the first-match lookup in `Priority`. */
  lemma ChooseSourceIsFirstMatch(p: Prefs)
    ensures ChooseSource(Some(p)) == FirstMatch(p, Priority)
  {
    ChainTail0(p);
    if Flag(p, Documentary) == Some(1) || Flag(p, Anime) == Some(1)
       || Flag(p, Action) == Some(1) || Flag(p, Animation) == Some(1) {
    } else {
      ChainTail4(p);
      if Flag(p, Adventure) == Some(1) || Flag(p, Comedy) == Some(1) || Flag(p, Horror) == Some(1)
         || Flag(p, Drama) == Some(1) || Flag(p, Fantasy) == Some(1) {
      } else {
        ChainTail9(p);
        if Flag(p, ScienceFiction) == Some(1) || Flag(p, Romance) == Some(1) || Flag(p, Thriller) == Some(1)
           || Flag(p, Crime) == Some(1) || Flag(p, Family) == Some(1) {
        } else {
          ChainTail14(p);
        }
      }
    }
  }

  lemma ChainTail0(p: Prefs)
    ensures FirstMatch(p, Priority) ==
      if Flag(p, Documentary) == Some(1) then GenreList(99)
      else if Flag(p, Anime) == Some(1) then AnimeList
      else if Flag(p, Action) == Some(1) then GenreList(28)
      else if Flag(p, Animation) == Some(1) then GenreList(16)
      else FirstMatch(p, Priority[4..])
  {
    FirstMatchStep(p, 3); FirstMatchStep(p, 2); FirstMatchStep(p, 1); FirstMatchStep(p, 0);
    assert Priority[0..] == Priority;
  }

  /** The response of `discoverMovies`. */
  datatype Discovery =
    | MissingParams
    | Discovered(source: Source, language: string, movies: seq<Movie>,
                 totalResults: nat, totalPages: nat, currentPage: Option<int>)

  /** `discoverMovies`, given the user's preference row and the movies the
      chosen list produced. `language` defaults to 'hu'; a user without a
      row gets the popular list in 'hu' whatever was asked. `fetched` is an
      input the model does not constrain: it stands for whatever the TMDB
      list of the chosen source returned, and is passed through as it is. */
  function DiscoverMovies(userId: JsValue, page: JsValue, language: Option<string>,
                          prefs: Option<Prefs>, fetched: seq<Movie>): (r: Discovery)
    ensures r.MissingParams? <==> !Truthy(userId)
    ensures r.Discovered? ==> r.source == ChooseSource(prefs) && r.movies == fetched
    ensures r.Discovered? ==> r.totalResults == |fetched| && r.totalPages == CeilDiv(|fetched|, 20)
    ensures r.Discovered? && prefs.None? ==> r.language == "hu"
    ensures r.Discovered? && prefs.Some? && language.Some? ==> r.language == language.value
    ensures r.Discovered? && page.Undefined? ==> r.currentPage == Some(1)
  {
    if !Truthy(userId) then MissingParams
    else
      var lang := if language.Some? then language.value else "hu";
      Discovered(ChooseSource(prefs), if prefs.None? then "hu" else lang, fetched,
                 |fetched|, CeilDiv(|fetched|, 20),
                 if page.Undefined? then Some(1) else ParseInt(page))
  }

  // ---------------------------------------------------------------------
  // The discover query
  // ---------------------------------------------------------------------

  /** The runtime window a bucket puts on the query: `with_runtime.gte` and
      `with_runtime.lte`. */
  function RuntimeWindow(pref: Option<string>): (Option<int>, Option<int>)
  {
    if pref == Some("short") then (None, Some(89))
    else if pref == Some("medium") then (Some(90), Some(150))
    else if pref == Some("long") then (Some(151), None)
    else (None, None)
  }

  /** `<year>-01-01` / `<year>-12-31` as the template literal renders them. */
  function YearDate(year: int, monthDay: string): string
  {
    IntToString(year) + monthDay
  }

  /** The keys every list sets before looking at preferences. */
  const BaseKeys: set<string> := {
    "api_key", "page", "sort_by", "vote_count_gte", "with_genres", "with_origin_country", "language"}

  /** The keys the user's preference row can add. */
  const FilterKeys: set<string> := {
    "primary_release_date.gte", "primary_release_date.lte", "vote_average.gte",
    "with_runtime.gte", "with_runtime.lte"}

  /** The base `params` object of the chosen list, with `language=hu-HU`
      only for Hungarian. */
  method BaseParams(source: Source, apiKey: string, page: JsValue, language: string)
    returns (params: map<string, JsValue>)
    ensures params.Keys <= BaseKeys
    ensures "api_key" in params && params["api_key"] == Str(apiKey)
    ensures "page" in params && params["page"] == page
    ensures "sort_by" in params && params["sort_by"] == Str("popularity.desc")
    ensures "vote_count_gte" in params && params["vote_count_gte"] == Num(if source.AnimeList? then 50.0 else 100.0)
    ensures ("with_genres" in params <==> !source.Popular?)
    ensures source.AnimeList? ==> params["with_genres"] == Str("16")
    ensures source.GenreList? ==> params["with_genres"] == Str(IntToString(source.genreId))
    ensures ("with_origin_country" in params <==> source.AnimeList?)
    ensures source.AnimeList? ==> params["with_origin_country"] == Str("JP")
    ensures ("language" in params <==> language == "hu")
    ensures "language" in params ==> params["language"] == Str("hu-HU")
  {
    params := map["api_key" := Str(apiKey), "page" := page, "sort_by" := Str("popularity.desc"),
                  "vote_count_gte" := Num(if source.AnimeList? then 50.0 else 100.0)];
    match source {
      case AnimeList =>
        params := params["with_genres" := Str("16")];
        params := params["with_origin_country" := Str("JP")];
      case GenreList(id) =>
        params := params["with_genres" := Str(IntToString(id))];
      case Popular =>
    }
    if language == "hu" {
      params := params["language" := Str("hu-HU")];
    }
  }

  /** The preference filters: applied only when a user id was given and the
      user has a row, each only when its column is truthy; the runtime
      bucket adds its window. Keys already present are kept. */
  method AddPreferenceFilters(base: map<string, JsValue>, userId: JsValue, prefs: Option<Prefs>)
    returns (params: map<string, JsValue>)
    requires base.Keys !! FilterKeys
    ensures params.Keys <= base.Keys + FilterKeys
    ensures forall k :: k in base ==> k in params && params[k] == base[k]
    ensures var on := Truthy(userId) && prefs.Some?;
            && ("primary_release_date.gte" in params <==> on && IntTruthy(prefs.value.minYear))
            && ("primary_release_date.lte" in params <==> on && IntTruthy(prefs.value.maxYear))
            && ("vote_average.gte" in params <==> on && RealTruthy(prefs.value.minRating))
            && ("with_runtime.gte" in params <==> on && RuntimeWindow(prefs.value.runtime).0.Some?)
            && ("with_runtime.lte" in params <==> on && RuntimeWindow(prefs.value.runtime).1.Some?)
    ensures "primary_release_date.gte" in params ==>
              params["primary_release_date.gte"] == Str(YearDate(prefs.value.minYear.value, "-01-01"))
    ensures "primary_release_date.lte" in params ==>
              params["primary_release_date.lte"] == Str(YearDate(prefs.value.maxYear.value, "-12-31"))
    ensures "vote_average.gte" in params ==> params["vote_average.gte"] == Num(prefs.value.minRating.value)
    ensures "with_runtime.gte" in params ==>
              params["with_runtime.gte"] == Num(RuntimeWindow(prefs.value.runtime).0.value as real)
    ensures "with_runtime.lte" in params ==>
              params["with_runtime.lte"] == Num(RuntimeWindow(prefs.value.runtime).1.value as real)
  {
    params := base;
    if Truthy(userId) && prefs.Some? {
      var p := prefs.value;
      if IntTruthy(p.minYear) {
        params := params["primary_release_date.gte" := Str(YearDate(p.minYear.value, "-01-01"))];
      }
      if IntTruthy(p.maxYear) {
        params := params["primary_release_date.lte" := Str(YearDate(p.maxYear.value, "-12-31"))];
      }
      if RealTruthy(p.minRating) {
        params := params["vote_average.gte" := Num(p.minRating.value)];
      }
      if p.runtime.Some? && p.runtime.value != "" {
        var bucket := p.runtime.value;
        if bucket == "short" {
          params := params["with_runtime.lte" := Num(89.0)];
        } else if bucket == "medium" {
          params := params["with_runtime.gte" := Num(90.0)];
          params := params["with_runtime.lte" := Num(150.0)];
        } else if bucket == "long" {
          params := params["with_runtime.gte" := Num(151.0)];
        }
      }
    }
  }

  /** The `params` object of `getDefaultMovies`, `getAnimeMovies` and
      `getGenreMovies`: the list's base keys, then the preference filters. */
  method BuildParams(source: Source, apiKey: string, page: JsValue, language: string,
                     userId: JsValue, prefs: Option<Prefs>) returns (params: map<string, JsValue>)
    ensures params.Keys <= BaseKeys + FilterKeys
    ensures "vote_count_gte" in params && params["vote_count_gte"] == Num(if source.AnimeList? then 50.0 else 100.0)
    ensures ("with_genres" in params <==> !source.Popular?)
    ensures source.AnimeList? ==> "with_origin_country" in params && params["with_genres"] == Str("16")
                                  && params["with_origin_country"] == Str("JP")
    ensures source.GenreList? ==> params["with_genres"] == Str(IntToString(source.genreId))
    ensures ("language" in params <==> language == "hu")
    ensures var on := Truthy(userId) && prefs.Some?;
            && ("primary_release_date.gte" in params <==> on && IntTruthy(prefs.value.minYear))
            && ("primary_release_date.lte" in params <==> on && IntTruthy(prefs.value.maxYear))
            && ("vote_average.gte" in params <==> on && RealTruthy(prefs.value.minRating))
            && ("with_runtime.gte" in params <==> on && RuntimeWindow(prefs.value.runtime).0.Some?)
            && ("with_runtime.lte" in params <==> on && RuntimeWindow(prefs.value.runtime).1.Some?)
    ensures "primary_release_date.gte" in params ==>
              params["primary_release_date.gte"] == Str(YearDate(prefs.value.minYear.value, "-01-01"))
    ensures "primary_release_date.lte" in params ==>
              params["primary_release_date.lte"] == Str(YearDate(prefs.value.maxYear.value, "-12-31"))
  {
    var base := BaseParams(source, apiKey, page, language);
    params := AddPreferenceFilters(base, userId, prefs);
  }

  // ---------------------------------------------------------------------
  // Runtime buckets
  // ---------------------------------------------------------------------

  /** The object `getRuntimeInfoFromPreference` returns. */
  datatype RuntimeInfo = RuntimeInfo(displayKey: Option<string>, averageMinutes: Option<int>,
                                     minMinutes: Option<int>, maxMinutes: Option<int>)

  function RuntimeInfoOf(pref: string): RuntimeInfo
  {
    if pref == "short" then RuntimeInfo(Some("short"), Some(80), Some(0), Some(89))
    else if pref == "medium" then RuntimeInfo(Some("medium"), Some(120), Some(90), Some(150))
    else if pref == "long" then RuntimeInfo(Some("long"), Some(180), Some(151), None)
    else RuntimeInfo(None, None, None, None)
  }

  /** The estimate shown for a bucket lies inside the window the discover
      query puts on that bucket, and the bucket's bounds are that window's
      (short's lower bound 0 is the query's missing one); any other
      preference has neither an estimate nor a window. */
  lemma RuntimeInfoMatchesWindow(pref: string)
    ensures var info, w := RuntimeInfoOf(pref), RuntimeWindow(Some(pref));
            && (info.displayKey.Some? <==> w != (None, None))
            && (info.displayKey.Some? ==> info.displayKey == Some(pref) && info.averageMinutes.Some?)
            && (w.0.Some? ==> info.minMinutes == w.0 && w.0.value <= info.averageMinutes.value)
            && (w.1.Some? ==> info.maxMinutes == w.1 && info.averageMinutes.value <= w.1.value)
            && (info.displayKey.Some? && w.0.None? ==> info.minMinutes == Some(0))
            && (info.displayKey.Some? && w.1.None? ==> info.maxMinutes.None?)
  {
  }

  // ---------------------------------------------------------------------
  // TMDB records
  // ---------------------------------------------------------------------

  /** A discover result as TMDB sends it. `releaseYear` is the year of
      `release_date` as `new Date(...)` reads it. */
  datatype TmdbMovie = TmdbMovie(
    id: int, title: Option<string>, overview: Option<string>,
    releaseDate: Option<string>, releaseYear: Option<int>,
    voteAverage: Option<real>, posterPath: Option<string>, backdropPath: Option<string>,
    genreIds: Option<seq<int>>, popularity: Option<real>, voteCount: Option<int>,
    adult: Option<bool>, runtime: Option<int>)

  datatype GenreTag = GenreTag(id: int, name: string)

  /** The application's movie object. `runtimeCategory` and
      `estimatedRuntime` are unset (`None`) until runtime enrichment. */
  datatype Movie = Movie(
    id: int, title: Option<string>, year: Option<int>, rating: Option<real>,
    overview: Option<string>, posterPath: Option<string>, posterUrl: Option<string>,
    backdropPath: Option<string>, backdropUrl: Option<string>,
    genreIds: Option<seq<int>>, genres: seq<GenreTag>,
    popularity: Option<real>, voteCount: Option<int>, adult: Option<bool>,
    releaseDate: Option<string>, voteAverage: Option<real>, runtime: Option<int>,
    runtimeCategory: Option<string>, estimatedRuntime: Option<int>)

  const PosterBase := "https://image.tmdb.org/t/p/w500"
  const BackdropBase := "https://image.tmdb.org/t/p/w1280"

  predicate PathTruthy(p: Option<string>) { p.Some? && p.value != "" }

  function Tags(ids: seq<int>): (r: seq<GenreTag>)
    ensures |r| == |ids|
    ensures forall i :: 0 <= i < |ids| ==> r[i] == GenreTag(ids[i], TmdbGenres.GenreLabel(ids[i]))
  {
    seq(|ids|, i requires 0 <= i < |ids| => GenreTag(ids[i], TmdbGenres.GenreLabel(ids[i])))
  }

  /** `convertTmdbToFormat`. */
  function ConvertTmdb(t: TmdbMovie): (m: Movie)
    ensures m.id == t.id && m.title == t.title && m.overview == t.overview
    ensures m.genres == (if t.genreIds.Some? then Tags(t.genreIds.value) else [])
    ensures m.posterUrl.Some? <==> PathTruthy(t.posterPath)
    ensures m.posterUrl.Some? ==> m.posterUrl.value == PosterBase + t.posterPath.value
    ensures m.backdropUrl.Some? <==> PathTruthy(t.backdropPath)
    ensures m.backdropUrl.Some? ==> m.backdropUrl.value == BackdropBase + t.backdropPath.value
    ensures m.runtime == (if IntTruthy(t.runtime) then t.runtime else None)
    ensures m.year.Some? ==> PathTruthy(t.releaseDate)
    ensures m.runtimeCategory.None? && m.estimatedRuntime.None?
  {
    Movie(t.id, t.title,
          if PathTruthy(t.releaseDate) then t.releaseYear else None,
          t.voteAverage, t.overview, t.posterPath,
          if PathTruthy(t.posterPath) then Some(PosterBase + t.posterPath.value) else None,
          t.backdropPath,
          if PathTruthy(t.backdropPath) then Some(BackdropBase + t.backdropPath.value) else None,
          t.genreIds,
          if t.genreIds.Some? then Tags(t.genreIds.value) else [],
          t.popularity, t.voteCount, t.adult, t.releaseDate, t.voteAverage,
          if IntTruthy(t.runtime) then t.runtime else None,
          None, None)
  }

  /** The genre tags keep the ids of `genre_ids`, one for one and in order,
      and the poster URL gives the poster path back. */
  lemma ConvertKeepsIds(t: TmdbMovie)
    requires t.genreIds.Some?
    ensures var m := ConvertTmdb(t);
            && |m.genres| == |t.genreIds.value|
            && (forall i :: 0 <= i < |m.genres| ==> m.genres[i].id == t.genreIds.value[i])
            && (m.posterUrl.Some? ==> m.posterUrl.value[|PosterBase|..] == t.posterPath.value)
  {
  }

  // ---------------------------------------------------------------------
  // The adult-content filter
  // ---------------------------------------------------------------------

  /** The blocklist of `filterAdultContent`. */
  const AdultKeywords: seq<string> := [
    "big gay hairy hit", "big gay hairy", "gay hairy hit",
    "tuhog", "tu hog", "tu-hog",
    "stepmoms desire", "stepmom desire", "stepmother desire",
    "swingers zwinger", "zwingerz",
    "hardcore", "porn", "pornographic", "xxx", "x-rated",
    "adult film", "pink film", "pinku eiga",
    "hentai", "ecchi", "yaoi", "yuri", "shotacon", "lolicon",
    "emmanuelle", "caligula", "nymphomaniac",
    "softcore", "erotic", "sexual"]

  /** The titles checked one by one before the blocklist. */
  predicate SpecificTitle(title: string)
  {
    Contains(title, "tuhog") || Contains(title, "tu hog") || Contains(title, "tu-hog")
    || Contains(title, "stepmoms desire") || Contains(title, "stepmom desire")
  }

  /** Some term of `terms`, lowercased, occurs in the title, the overview or
      the joined keyword text. */
  predicate SomeTerm(terms: seq<string>, title: string, overview: string, keywords: string)
  {
    terms != [] &&
    (var k := Lower(terms[0]);
     Contains(title, k) || Contains(overview, k) || Contains(keywords, k)
     || SomeTerm(terms[1..], title, overview, keywords))
  }

  /** Term `i` of `terms`, lowercased, occurs in one of the three texts. */
  predicate TermOccurs(terms: seq<string>, i: int, title: string, overview: string, keywords: string)
    requires 0 <= i < |terms|
  {
    Contains(title, Lower(terms[i])) || Contains(overview, Lower(terms[i])) || Contains(keywords, Lower(terms[i]))
  }

  /** `some` succeeds on any term that occurs. */
  lemma {:induction false} SomeTermAt(terms: seq<string>, i: int, title: string, overview: string, keywords: string)
    requires 0 <= i < |terms| && TermOccurs(terms, i, title, overview, keywords)
    ensures SomeTerm(terms, title, overview, keywords)
  {
    if i > 0 {
      assert terms[1..][i - 1] == terms[i];
      SomeTermAt(terms[1..], i - 1, title, overview, keywords);
    }
  }

  /** `some` succeeds only on a term that occurs. */
  lemma {:induction false} SomeTermWitness(terms: seq<string>, title: string, overview: string, keywords: string)
    returns (i: int)
    requires SomeTerm(terms, title, overview, keywords)
    ensures 0 <= i < |terms| && TermOccurs(terms, i, title, overview, keywords)
  {
    if TermOccurs(terms, 0, title, overview, keywords) {
      i := 0;
    } else {
      var j := SomeTermWitness(terms[1..], title, overview, keywords);
      assert terms[1..][j] == terms[j + 1];
      i := j + 1;
    }
  }

  /** `adultKeywords.some(...)`. */
  predicate HasAdultTerm(title: string, overview: string, keywords: string)
  {
    SomeTerm(AdultKeywords, title, overview, keywords)
  }

  /** `(x || '').toLowerCase()`. */
  function LowerOrEmpty(s: Option<string>): string
  {
    if s.Some? then Lower(s.value) else ""
  }

  function LowerAll(names: seq<string>): (r: seq<string>)
    ensures |r| == |names| && forall i :: 0 <= i < |names| ==> r[i] == Lower(names[i])
  {
    seq(|names|, i requires 0 <= i < |names| => Lower(names[i]))
  }

  /** The movie's keyword names, lowercased and joined by spaces; a failed
      or missing keyword fetch (no entry) reads as ''. */
  function KeywordText(id: int, keywordsById: map<int, seq<string>>): string
  {
    if id in keywordsById then Join(LowerAll(keywordsById[id]), " ") else ""
  }

  /** Whether the filter drops movie `m` under blocklist `terms`. */
  predicate BlockedBy(m: Movie, keywordsById: map<int, seq<string>>, terms: seq<string>)
  {
    var title := LowerOrEmpty(m.title);
    SpecificTitle(title) || SomeTerm(terms, title, LowerOrEmpty(m.overview), KeywordText(m.id, keywordsById))
  }

  function AllowedBy(keywordsById: map<int, seq<string>>, terms: seq<string>): Movie -> bool
  {
    (m: Movie) => !BlockedBy(m, keywordsById, terms)
  }

  /** One pass of the loop body: the named titles first, then the blocklist. */
  method IsBlocked(m: Movie, keywordsById: map<int, seq<string>>, terms: seq<string>) returns (blocked: bool)
    ensures blocked == BlockedBy(m, keywordsById, terms)
  {
    var words := KeywordText(m.id, keywordsById);
    var title := LowerOrEmpty(m.title);
    var overview := LowerOrEmpty(m.overview);
    if SpecificTitle(title) {
      return true;
    }
    blocked := SomeTerm(terms, title, overview, words);
  }

  /** The loop of `filterAdultContent` over any blocklist: the movies that
      are not blocked, in their order. */
  method FilterByBlocklist(movies: seq<Movie>, keywordsById: map<int, seq<string>>, terms: seq<string>)
    returns (kept: seq<Movie>)
    ensures kept == Where(movies, AllowedBy(keywordsById, terms))
  {
    kept := [];
    var i := 0;
    while i < |movies|
      invariant 0 <= i <= |movies|
      invariant kept == Where(movies[..i], AllowedBy(keywordsById, terms))
    {
      var m := movies[i];
      ghost var before := movies[..i];
      assert movies[..i + 1] == before + [m];
      WhereAppend(before, m, AllowedBy(keywordsById, terms));
      var blocked := IsBlocked(m, keywordsById, terms);
      assert AllowedBy(keywordsById, terms)(m) == !blocked;
      if !blocked {
        kept := kept + [m];
      }
      i := i + 1;
    }
    assert movies[..i] == movies;
  }

  /** `filterAdultContent`: a movie is kept exactly when none of the
      specific titles and none of the blocklist terms occurs in it. */
  method FilterAdultContent(movies: seq<Movie>, keywordsById: map<int, seq<string>>) returns (kept: seq<Movie>)
    ensures kept == Where(movies, AllowedBy(keywordsById, AdultKeywords))
  {
    kept := FilterByBlocklist(movies, keywordsById, AdultKeywords);
  }

  /** The title checks before the blocklist never decide anything: each of
      those titles is itself a blocklist term. */
  lemma SpecificTitlesAreBlocklisted(title: string, overview: string, keywords: string)
    requires SpecificTitle(title)
    ensures HasAdultTerm(title, overview, keywords)
  {
    SpecificTermsListed();
    if Contains(title, "tuhog") {
      TitleTermBlocks(3, "tuhog", title, overview, keywords);
    } else if Contains(title, "tu hog") {
      TitleTermBlocks(4, "tu hog", title, overview, keywords);
    } else if Contains(title, "tu-hog") {
      TitleTermBlocks(5, "tu-hog", title, overview, keywords);
    } else if Contains(title, "stepmoms desire") {
      TitleTermBlocks(6, "stepmoms desire", title, overview, keywords);
    } else {
      TitleTermBlocks(7, "stepmom desire", title, overview, keywords);
    }
  }

  /** The specific titles are also entries of the blocklist. */
  lemma SpecificTermsListed()
    ensures AdultKeywords[3] == "tuhog" && AdultKeywords[4] == "tu hog" && AdultKeywords[5] == "tu-hog"
    ensures AdultKeywords[6] == "stepmoms desire" && AdultKeywords[7] == "stepmom desire"
  {
  }

  /** A lower-case blocklist entry found in the title blocks the movie. */
  lemma TitleTermBlocks(i: nat, w: string, title: string, overview: string, keywords: string)
    requires i < |AdultKeywords| && AdultKeywords[i] == w && Contains(title, w)
    requires forall j :: 0 <= j < |w| ==> !IsUpper(w[j])
    ensures HasAdultTerm(title, overview, keywords)
  {
    LowerNoUpper(w);
    SomeTermAt(AdultKeywords, i, title, overview, keywords);
  }

  /** Joining the keywords lets a two-word term match across two adjacent
      keywords: "pink film" is found in the keywords Pink and Film although
      neither keyword contains it. */
  lemma TermAcrossKeywords()
    ensures KeywordText(7, map[7 := ["Pink", "Film"]]) == "pink film"
    ensures HasAdultTerm("", "", KeywordText(7, map[7 := ["Pink", "Film"]]))
    ensures !Contains("pink", "pink film") && !Contains("film", "pink film")
  {
    PinkFilmKeywordText();
    PinkFilmIsBlocklisted();
  }

  lemma PinkFilmKeywordText()
    ensures KeywordText(7, map[7 := ["Pink", "Film"]]) == "pink film"
  {
    var p := "Pink";
    var f := "Film";
    assert Lower(p) == "pink" by {
      assert LowerChar(p[0]) == 'p';
    }
    assert Lower(f) == "film" by {
      assert LowerChar(f[0]) == 'f';
    }
    var names := LowerAll([p, f]);
    assert names == ["pink", "film"];
    assert names[1..] == ["film"];
    assert Join(names, " ") == "pink" + " " + "film";
  }

  lemma PinkFilmIsBlocklisted()
    ensures HasAdultTerm("", "", "pink film")
  {
    var t := AdultKeywords;
    assert t[17] == "pink film";
    LowerNoUpper(t[17]);
    assert "pink film"[..9] == "pink film";
    assert Contains("pink film", "pink film");
    SomeTermAt(t, 17, "", "", "pink film");
  }

  // ---------------------------------------------------------------------
  // Runtime enrichment
  // ---------------------------------------------------------------------

  /** `runtimePreference` truthy: the enrichment takes the bucket branch. */
  predicate HasRuntimePreference(prefs: Option<Prefs>)
  {
    prefs.Some? && prefs.value.runtime.Some? && prefs.value.runtime.value != ""
  }

  /** The runtime the details request reports for movie `id`, when it
      answered with a truthy runtime. */
  function FetchedRuntime(id: int, details: map<int, int>): Option<int>
  {
    if id in details && details[id] != 0 then Some(details[id]) else None
  }

  /** `enhanceMoviesWithRuntime`: with a runtime preference every movie gets
      the bucket's category and estimate and nothing else changes; without
      one the first five get the runtime the details request reports (null
      when it fails) and the rest get null. The movie objects are written in
      place and the same list comes back. */
  method EnhanceWithRuntime(movies: array<Movie>, prefs: Option<Prefs>, details: map<int, int>)
    returns (r: seq<Movie>)
    modifies movies
    ensures r == movies[..]
    ensures HasRuntimePreference(prefs) ==>
              forall i :: 0 <= i < movies.Length ==>
                movies[i] == old(movies[i]).(runtimeCategory := RuntimeInfoOf(prefs.value.runtime.value).displayKey,
                                             estimatedRuntime := RuntimeInfoOf(prefs.value.runtime.value).averageMinutes)
    ensures !HasRuntimePreference(prefs) ==>
              forall i :: 0 <= i < movies.Length ==>
                movies[i] == old(movies[i]).(runtime := if i < 5 then FetchedRuntime(old(movies[i]).id, details) else None)
  {
    if HasRuntimePreference(prefs) {
      var info := RuntimeInfoOf(prefs.value.runtime.value);
      for i := 0 to movies.Length
        invariant forall j :: 0 <= j < i ==>
                    movies[j] == old(movies[j]).(runtimeCategory := info.displayKey, estimatedRuntime := info.averageMinutes)
        invariant forall j :: i <= j < movies.Length ==> movies[j] == old(movies[j])
      {
        movies[i] := movies[i].(runtimeCategory := info.displayKey, estimatedRuntime := info.averageMinutes);
      }
    } else {
      for i := 0 to movies.Length
        invariant forall j :: 0 <= j < i ==>
                    movies[j] == old(movies[j]).(runtime := if j < 5 then FetchedRuntime(old(movies[j]).id, details) else None)
        invariant forall j :: i <= j < movies.Length ==> movies[j] == old(movies[j])
      {
        var rt := if i < 5 then FetchedRuntime(movies[i].id, details) else None;
        movies[i] := movies[i].(runtime := rt);
      }
    }
    r := movies[..];
  }

  // ---------------------------------------------------------------------
  // Already-liked filter and the genre toggle
  // ---------------------------------------------------------------------

  /** `movie.tmdb_id || movie.id`; converted TMDB records carry only `id`. */
  function MovieKey(m: Movie): int { m.id }

  function NotLiked(liked: set<int>): Movie -> bool
  {
    (m: Movie) => MovieKey(m) !in liked
  }

  /** `filterAlreadyLikedMovies`. `liked` is the set of liked TMDB ids, or
      `None` when the lookup failed. */
  function FilterAlreadyLiked(movies: seq<Movie>, userId: JsValue, liked: Option<set<int>>): (r: seq<Movie>)
    ensures !Truthy(userId) || movies == [] || liked.None? ==> r == movies
    ensures Truthy(userId) && liked.Some? ==>
              (forall i :: 0 <= i < |r| ==> r[i] in movies && MovieKey(r[i]) !in liked.value)
              && (forall i :: 0 <= i < |movies| && MovieKey(movies[i]) !in liked.value ==> movies[i] in r)
  {
    if !Truthy(userId) || movies == [] || liked.None? then movies
    else Where(movies, NotLiked(liked.value))
  }

  /** The toggle expression of `setGenre`: 1 becomes 0, anything else
      (0, null, any other number) becomes 1. */
  function Toggle(v: Option<int>): (r: int)
    ensures r == 0 <==> v == Some(1)
    ensures r == 0 || r == 1
  {
    if v == Some(1) then 0 else 1
  }

  /** Toggling twice restores a flag that was 0 or 1; a null flag ends at 0. */
  lemma ToggleTwice(v: Option<int>)
    ensures v == Some(0) || v == Some(1) ==> Toggle(Some(Toggle(v))) == v.value
    ensures v.None? ==> Toggle(v) == 1 && Toggle(Some(Toggle(v))) == 0
  {
  }

  datatype ToggleResult =
    | NoPreferences
    | Toggled(prefs: Prefs, genre: Genre, oldValue: Option<int>, newValue: int)

  /** `setGenre`: throws (`NoPreferences`) when the user has no row;
      otherwise writes the toggled value to that one flag. */
  method SetGenre(table: PreferenceTable, userId: int, g: Genre) returns (r: ToggleResult)
    modifies table
    ensures userId !in old(table.rows) ==> r == NoPreferences && table.rows == old(table.rows)
    ensures userId in old(table.rows) ==>
              var before := old(table.rows)[userId];
              && userId in table.rows
              && r == Toggled(table.rows[userId], g, Flag(before, g), Toggle(Flag(before, g)))
              && table.rows == old(table.rows)[userId := before.(flags := before.flags[g := Some(Toggle(Flag(before, g)))])]
              && Flag(table.rows[userId], g) == Some(Toggle(Flag(before, g)))
              && (forall h :: h != g ==> Flag(table.rows[userId], h) == Flag(before, h))
  {
    if userId !in table.rows {
      return NoPreferences;
    }
    var before := table.rows[userId];
    var current := Flag(before, g);
    var newValue := if current == Some(1) then 0 else 1;
    table.rows := table.rows[userId := before.(flags := before.flags[g := Some(newValue)])];
    r := Toggled(table.rows[userId], g, current, newValue);
  }
}
