/**
 * The browser's translation of movie genres into Hungarian: per-genre
 * translation of the several shapes a genre takes (a `{id, name}` object,
 * a bare TMDB id, an English name), applied to one movie, to a list of
 * movies, and to genre data that may still be JSON or comma-separated text.
 */
module MovieTranslation {
  import opened JsValues
  import opened HungarianGenres

  const Hungarian := "hu"
  const FallbackPrefix := "Genre "

  // ---------------------------------------------------------------------
  // One genre
  // ---------------------------------------------------------------------

  /** The callback of `genres.map(...)`. `typeof null` is 'object', so a
      null genre throws when its `id` is read; an object with a truthy `id`
      gets its Hungarian name (or keeps its own); a number becomes an
      `{id, name}` object; a known English name is replaced; anything else
      is kept. */
  function TranslateGenre(g: JsValue): (r: Completion<JsValue>)
    ensures r.Throw? <==> g.Null?
    ensures g.Obj? && Truthy(Get(g.fields, "id")) ==>
              r.Normal? && r.value.Obj? && r.value.fields.Keys == g.fields.Keys + {"name"} &&
              forall k :: k in g.fields && k != "name" ==> r.value.fields[k] == g.fields[k]
    ensures g.Obj? && Truthy(Get(g.fields, "id")) ==>
              var key := ToText(g.fields["id"]);
              r.Normal? && r.value.Obj? &&
              r.value.fields["name"] == (if key in GenreMap then Str(GenreMap[key]) else Get(g.fields, "name"))
    ensures g.Num? ==> r == Normal(Obj(map["id" := g, "name" := Str(NameOr(g, FallbackPrefix))]))
    ensures g.Str? ==> r == Normal(if g.s in EnglishToHungarian then Str(EnglishToHungarian[g.s]) else g)
    ensures g.Undefined? || g.Bool? || g.Arr? || (g.Obj? && !Truthy(Get(g.fields, "id"))) ==> r == Normal(g)
  {
    match g
    case Null => Throw
    case Obj(fields) =>
      if Truthy(Get(fields, "id")) then
        var hit := GenreMapLookup(fields["id"]);
        Normal(Obj(fields["name" := if hit.Some? then Str(hit.value) else Get(fields, "name")]))
      else Normal(g)
    case Num(_) => Normal(Obj(map["id" := g, "name" := Str(NameOr(g, FallbackPrefix))]))
    case Str(s) => Normal(if s in EnglishToHungarian then Str(EnglishToHungarian[s]) else g)
    case _ => Normal(g)
  }

  /** A Hungarian name produced from an English one is not translated again. */
  lemma HungarianNameIsFixed(s: string)
    requires s in EnglishToHungarian
    ensures var h := EnglishToHungarian[s];
            h in EnglishToHungarian ==> EnglishToHungarian[h] == h
  {
  }

  /** Translating a genre a second time changes nothing. */
  lemma TranslateGenreIdempotent(g: JsValue)
    requires TranslateGenre(g).Normal?
    ensures TranslateGenre(TranslateGenre(g).value) == TranslateGenre(g)
  {
    match g
    case Obj(fields) =>
      if Truthy(Get(fields, "id")) {
        var hit := GenreMapLookup(fields["id"]);
        var name := if hit.Some? then Str(hit.value) else Get(fields, "name");
        var t := fields["name" := name];
        assert TranslateGenre(g) == Normal(Obj(t));
        assert t["id"] == fields["id"];
        var again := if hit.Some? then Str(hit.value) else Get(t, "name");
        assert again == name;
        assert t["name" := again] == t;
      }
    case Num(n) =>
      var name := Str(NameOr(g, FallbackPrefix));
      var t := map["id" := g, "name" := name];
      assert TranslateGenre(g) == Normal(Obj(t));
      if Truthy(g) {
        var hit := GenreMapLookup(g);
        var again := if hit.Some? then Str(hit.value) else Get(t, "name");
        assert again == name;
        assert t["name" := again] == t;
      }
    case Str(s) =>
      if s in EnglishToHungarian {
        HungarianNameIsFixed(s);
      }
    case _ =>
  }

  /** `genres.map(TranslateGenre)`; the first genre that throws ends it. */
  function TranslateGenres(items: seq<JsValue>): (r: Completion<seq<JsValue>>)
    ensures r.Normal? <==> forall i :: 0 <= i < |items| ==> !items[i].Null?
    ensures r.Normal? ==> (|r.value| == |items| &&
              forall i :: 0 <= i < |items| ==> Normal(r.value[i]) == TranslateGenre(items[i]))
  {
    if items == [] then Normal([])
    else
      var head := TranslateGenre(items[0]);
      var tail := TranslateGenres(items[1..]);
      if head.Throw? then Throw
      else if tail.Throw? then
        assert exists i :: 1 <= i < |items| && items[i].Null? by {
          var j :| 0 <= j < |items[1..]| && items[1..][j].Null?;
          assert items[j + 1].Null?;
        }
        Throw
      else
        Normal([head.value] + tail.value)
  }

  lemma {:induction false} TranslateGenresIdempotent(items: seq<JsValue>)
    requires TranslateGenres(items).Normal?
    ensures TranslateGenres(TranslateGenres(items).value) == TranslateGenres(items)
  {
    var t := TranslateGenres(items).value;
    forall i | 0 <= i < |t| ensures !t[i].Null? {
      assert Normal(t[i]) == TranslateGenre(items[i]);
    }
    var tt := TranslateGenres(t).value;
    assert |tt| == |t|;
    forall i | 0 <= i < |t| ensures tt[i] == t[i] {
      assert Normal(t[i]) == TranslateGenre(items[i]);
      TranslateGenreIdempotent(items[i]);
      assert Normal(tt[i]) == TranslateGenre(t[i]);
    }
    assert tt == t;
  }

  // ---------------------------------------------------------------------
  // One movie, a list of movies
  // ---------------------------------------------------------------------

  /** The members `{...v}` copies from a string or an array: one per index,
      keyed by the index's decimal text, from position `i` on. */
  function IndexMembers(items: seq<JsValue>, i: nat): map<string, JsValue>
    requires i <= |items|
    decreases |items| - i
  {
    if i == |items| then map[] else IndexMembers(items, i + 1)[IntToString(i) := items[i]]
  }

  /** `{...v}`: an object's own members; the indexed elements of a string or
      an array; nothing from a number or a boolean. */
  function Spread(v: JsValue): map<string, JsValue>
  {
    match v
    case Obj(fields) => fields
    case Str(s) => IndexMembers(seq(|s|, i requires 0 <= i < |s| => Str([s[i]])), 0)
    case Arr(items) => IndexMembers(items, 0)
    case _ => map[]
  }

  /** `translateMovieData`: a falsy movie or a locale other than Hungarian
      is returned as given; otherwise a shallow copy whose `genres`, when it
      is a list (an empty one is truthy too), is translated genre by genre. */
  function TranslateMovieData(movie: JsValue, locale: string): (r: Completion<JsValue>)
    ensures !Truthy(movie) || locale != Hungarian ==> r == Normal(movie)
    ensures Truthy(movie) && locale == Hungarian && movie.Obj? && r.Normal? ==>
              r.value.Obj? && r.value.fields.Keys == movie.fields.Keys &&
              forall k :: k in movie.fields && k != "genres" ==> r.value.fields[k] == movie.fields[k]
    ensures Truthy(movie) && locale == Hungarian && Prop(movie, "genres").Arr? ==>
              var gs := Prop(movie, "genres").items;
              (r.Throw? <==> exists i :: 0 <= i < |gs| && gs[i].Null?) &&
              (r.Normal? ==> Prop(r.value, "genres") == Arr(TranslateGenres(gs).value))
    ensures Truthy(movie) && locale == Hungarian && !Prop(movie, "genres").Arr? ==>
              r == Normal(Obj(Spread(movie)))
  {
    if !Truthy(movie) || locale != Hungarian then Normal(movie)
    else
      var copy := Spread(movie);
      var genres := Prop(movie, "genres");
      if Truthy(genres) && genres.Arr? then
        var t := TranslateGenres(genres.items);
        if t.Throw? then Throw else Normal(Obj(copy["genres" := Arr(t.value)]))
      else Normal(Obj(copy))
  }

  /** Translating a translated movie again changes nothing. */
  lemma TranslateMovieIdempotent(fields: map<string, JsValue>)
    requires TranslateMovieData(Obj(fields), Hungarian).Normal?
    ensures var once := TranslateMovieData(Obj(fields), Hungarian).value;
            TranslateMovieData(once, Hungarian) == Normal(once)
  {
    var g := Get(fields, "genres");
    if g.Arr? {
      TranslateGenresIdempotent(g.items);
      var t := TranslateGenres(g.items).value;
      var once := TranslateMovieData(Obj(fields), Hungarian).value;
      assert once == Obj(fields["genres" := Arr(t)]);
      assert Prop(once, "genres") == Arr(t);
      assert TranslateGenres(t) == Normal(t);
      assert once.fields["genres" := Arr(t)] == once.fields;
    }
  }

  /** `translateMoviesArray`: anything but a list, or a locale other than
      Hungarian, is returned as given; otherwise each movie is translated. */
  function TranslateMoviesArray(movies: JsValue, locale: string): (r: Completion<JsValue>)
    ensures !movies.Arr? || locale != Hungarian ==> r == Normal(movies)
    ensures movies.Arr? && locale == Hungarian && r.Normal? ==>
              r.value.Arr? && |r.value.items| == |movies.items| &&
              forall i :: 0 <= i < |movies.items| ==>
                Normal(r.value.items[i]) == TranslateMovieData(movies.items[i], locale)
  {
    if !movies.Arr? || locale != Hungarian then Normal(movies)
    else
      var t := TranslateEach(movies.items, locale);
      if t.Throw? then Throw else Normal(Arr(t.value))
  }

  /** `movies.map(m => translateMovieData(m, locale))`. */
  function TranslateEach(movies: seq<JsValue>, locale: string): (r: Completion<seq<JsValue>>)
    ensures r.Normal? <==> forall i :: 0 <= i < |movies| ==> TranslateMovieData(movies[i], locale).Normal?
    ensures r.Normal? ==> (|r.value| == |movies| &&
              forall i :: 0 <= i < |movies| ==> Normal(r.value[i]) == TranslateMovieData(movies[i], locale))
  {
    if movies == [] then Normal([])
    else
      var head := TranslateMovieData(movies[0], locale);
      var tail := TranslateEach(movies[1..], locale);
      if head.Throw? then Throw
      else if tail.Throw? then
        assert exists i :: 1 <= i < |movies| && TranslateMovieData(movies[i], locale).Throw? by {
          var j :| 0 <= j < |movies[1..]| && TranslateMovieData(movies[1..][j], locale).Throw?;
          assert movies[j + 1] == movies[1..][j];
        }
        Throw
      else
        Normal([head.value] + tail.value)
  }

  /** `getHungarianGenreName`. */
  function GetHungarianGenreName(id: JsValue): (r: string)
    ensures ToText(id) in GenreMap ==> r == GenreMap[ToText(id)]
    ensures ToText(id) !in GenreMap ==> r == FallbackPrefix + ToText(id)
  {
    NameOr(id, FallbackPrefix)
  }

  // ---------------------------------------------------------------------
  // processAndTranslateGenres
  // ---------------------------------------------------------------------

  /** The trimmed, non-empty pieces of `parts`, in order. */
  function TrimmedPieces(parts: seq<string>): (r: seq<string>)
    ensures forall i :: 0 <= i < |r| ==> r[i] != "" && Trim(r[i]) == r[i]
    ensures |r| <= |parts|
  {
    if parts == [] then []
    else
      var rest := TrimmedPieces(parts[1..]);
      var t := Trim(parts[0]);
      if t == "" then rest
      else
        TrimIdempotent(parts[0]);
        [t] + rest
  }

  /** `s.split(',').map(g => g.trim()).filter(g => g.length > 0)`. */
  function CommaList(s: string): seq<string>
  {
    TrimmedPieces(Split(s, ','))
  }

  /** Trimming takes characters only from the string itself. */
  lemma TrimKeepsOut(x: string, c: char)
    requires c !in x
    ensures c !in Trim(x)
  {
  }

  /** No piece of a comma list contains a comma. */
  lemma {:induction false} PiecesCommaFree(parts: seq<string>)
    requires forall i :: 0 <= i < |parts| ==> ',' !in parts[i]
    ensures forall i :: 0 <= i < |TrimmedPieces(parts)| ==> ',' !in TrimmedPieces(parts)[i]
  {
    if parts != [] {
      TrimKeepsOut(parts[0], ',');
      PiecesCommaFree(parts[1..]);
    }
  }

  lemma {:induction false} PiecesOfTrimmed(parts: seq<string>)
    requires forall i :: 0 <= i < |parts| ==> parts[i] != "" && Trim(parts[i]) == parts[i]
    ensures TrimmedPieces(parts) == parts
  {
    if parts != [] {
      PiecesOfTrimmed(parts[1..]);
      assert parts == [parts[0]] + parts[1..];
    }
  }

  /** Joining trimmed, non-empty, comma-free names with commas and reading
      them back as a comma list gives the names again. */
  lemma CommaListRoundTrip(names: seq<string>)
    requires |names| >= 1
    requires forall i :: 0 <= i < |names| ==> names[i] != "" && ',' !in names[i] && Trim(names[i]) == names[i]
    ensures CommaList(Join(names, [','])) == names
  {
    SplitJoin(names, ',');
    PiecesOfTrimmed(names);
  }

  /** What `processAndTranslateGenres` has before translating: `parsed` is
      what `JSON.parse` makes of the text (`None` when it is not JSON). */
  function ProcessedGenres(genres: JsValue, parsed: Option<JsValue>): (r: JsValue)
    ensures !Truthy(genres) ==> r == Arr([])
    ensures genres.Arr? ==> r == genres
    ensures genres.Str? && genres.s != "" && parsed.None? && ',' !in genres.s ==> r == Arr([genres])
    ensures genres.Str? && genres.s != "" && parsed.Some? ==> r == parsed.value
    ensures genres.Str? && genres.s != "" && parsed.None? && ',' in genres.s ==>
              r == Arr(StrValues(CommaList(genres.s)))
    ensures Truthy(genres) && !genres.Arr? && !genres.Str? ==> r == Arr([])
  {
    if !Truthy(genres) then Arr([])
    else
      match genres
      case Arr(_) => genres
      case Str(s) =>
        if parsed.Some? then parsed.value
        else if ',' in s then Arr(StrValues(CommaList(s)))
        else Arr([genres])
      case _ => Arr([])
  }

  function StrValues(names: seq<string>): (r: seq<JsValue>)
    ensures |r| == |names| && forall i :: 0 <= i < |names| ==> r[i] == Str(names[i])
  {
    if names == [] then [] else [Str(names[0])] + StrValues(names[1..])
  }

  /** `processAndTranslateGenres`: falsy input gives an empty list; with the
      Hungarian locale every genre is translated, and a parsed JSON value
      that is not a list throws at `.map`; other locales get the processed
      list untranslated. */
  function ProcessAndTranslateGenres(genres: JsValue, locale: string, parsed: Option<JsValue>): (r: Completion<JsValue>)
    ensures !Truthy(genres) ==> r == Normal(Arr([]))
    ensures locale != Hungarian ==> r == Normal(ProcessedGenres(genres, parsed))
    ensures locale == Hungarian && ProcessedGenres(genres, parsed).Arr? ==>
              var items := ProcessedGenres(genres, parsed).items;
              (r.Normal? <==> TranslateGenres(items).Normal?) &&
              (r.Normal? ==> r.value == Arr(TranslateGenres(items).value))
    ensures locale == Hungarian && !ProcessedGenres(genres, parsed).Arr? ==> r == Throw
  {
    if !Truthy(genres) then Normal(Arr([]))
    else
      var processed := ProcessedGenres(genres, parsed);
      if locale != Hungarian then Normal(processed)
      else if !processed.Arr? then Throw
      else
        var t := TranslateGenres(processed.items);
        if t.Throw? then Throw else Normal(Arr(t.value))
  }

  /** Comma-separated text that is not JSON becomes its trimmed, non-empty,
      comma-free pieces. */
  lemma CommaTextPieces(s: string)
    requires ',' in s
    ensures var r := ProcessedGenres(Str(s), None);
            r.Arr? && forall i :: 0 <= i < |r.items| ==>
              r.items[i].Str? && r.items[i].s != "" && ',' !in r.items[i].s && Trim(r.items[i].s) == r.items[i].s
  {
    PiecesCommaFree(Split(s, ','));
  }

  lemma SampleSplit()
    ensures Split("Action, Drama", ',') == ["Action", " Drama"]
  {
    var s := "Action, Drama";
    assert s[6] == ',' && ',' !in s[..6];
    assert CharIndex(s, ',') == 6;
    assert s[..6] == "Action";
    assert s[7..] == " Drama";
    assert ',' !in " Drama";
  }

  lemma TrimSampleAction()
    ensures Trim("Action") == "Action"
  {
    var w := "Action";
    assert forall i :: 0 <= i < |w| ==> !IsSpace(w[i]);
    TrimNoSpace(w);
  }

  lemma TrimSampleDrama()
    ensures Trim(" Drama") == "Drama"
  {
    var w := "Drama";
    assert forall i :: 0 <= i < |w| ==> !IsSpace(w[i]);
    assert " Drama" == [' '] + w;
    TrimLeadingSpace(' ', w);
  }

  lemma SampleCommaList()
    ensures CommaList("Action, Drama") == ["Action", "Drama"]
  {
    SampleSplit();
    TrimSampleAction();
    TrimSampleDrama();
    TwoPieces("Action", " Drama");
  }

  /** Two pieces whose trimmed forms are non-empty are both kept, trimmed. */
  lemma TwoPieces(a: string, b: string)
    requires Trim(a) != "" && Trim(b) != ""
    ensures TrimmedPieces([a, b]) == [Trim(a), Trim(b)]
  {
    assert [a, b][1..] == [b];
    assert [b][1..] == [];
    assert TrimmedPieces([b]) == [Trim(b)];
  }

  lemma CommaTextProcessed(s: string)
    requires ',' in s
    ensures ProcessedGenres(Str(s), None) == Arr(StrValues(CommaList(s)))
  {
  }

  lemma SampleHasComma()
    ensures ',' in "Action, Drama"
  {
    assert "Action, Drama"[6] == ',';
  }

  lemma SampleValues()
    ensures StrValues(["Action", "Drama"]) == [Str("Action"), Str("Drama")]
  {
    var v := StrValues(["Action", "Drama"]);
    assert v[0] == Str("Action") && v[1] == Str("Drama");
  }

  lemma SampleProcessed()
    ensures ProcessedGenres(Str("Action, Drama"), None) == Arr([Str("Action"), Str("Drama")])
  {
    SampleHasComma();
    SampleCommaList();
    SampleValues();
    CommaTextProcessed("Action, Drama");
  }

  lemma SampleNamesTranslated()
    ensures TranslateGenre(Str("Action")) == Normal(Str("Akció"))
    ensures TranslateGenre(Str("Drama")) == Normal(Str("Dráma"))
  {
    assert "Action" in EnglishToHungarian;
    assert "Drama" in EnglishToHungarian;
  }

  lemma SampleListTranslated()
    ensures TranslateGenres([Str("Action"), Str("Drama")]) == Normal([Str("Akció"), Str("Dráma")])
  {
    SampleNamesTranslated();
    var items := [Str("Action"), Str("Drama")];
    var t := TranslateGenres(items);
    assert t.Normal?;
    assert |t.value| == 2;
    assert Normal(t.value[0]) == TranslateGenre(items[0]);
    assert Normal(t.value[1]) == TranslateGenre(items[1]);
    assert t.value[0] == Str("Akció") && t.value[1] == Str("Dráma");
    assert t.value == [Str("Akció"), Str("Dráma")];
  }

  /** "Action, Drama" in Hungarian is Akció, Dráma. */
  lemma CommaTextTranslated()
    ensures ProcessAndTranslateGenres(Str("Action, Drama"), Hungarian, None) == Normal(Arr([Str("Akció"), Str("Dráma")]))
  {
    SampleProcessed();
    SampleListTranslated();
  }
}
