/**
 * The browser's translation table: every translation file exports an
 * optional Hungarian and an optional English section, and the sections are
 * merged key by key, file after file, with `Object.assign`.
 */
module Locales {
  import opened JsValues

  const Hu := "hu"
  const En := "en"

  /** What a translation file writes under one top-level key of one locale
      section. The merge copies it by reference and never looks inside, so
      it is kept as the place it was written. */
  datatype Entry = Entry(file: string, locale: string, key: string)

  type Section = map<string, Entry>

  /** A translation file's default export; a missing section is `None`. */
  datatype Source = Source(hu: Option<Section>, en: Option<Section>)

  function SectionOf(src: Source, locale: string): Option<Section>
  {
    if locale == Hu then src.hu else if locale == En then src.en else None
  }

  /** The section each `Object.assign(result[locale], source[locale])` adds to. */
  function Merged(sources: seq<Source>, locale: string): Section
  {
    if sources == [] then map[]
    else
      var last := SectionOf(sources[|sources| - 1], locale);
      Merged(sources[..|sources| - 1], locale) + (if last.Some? then last.value else map[])
  }

  /** `mergeTranslations(...sources)`. */
  method MergeTranslations(sources: seq<Source>) returns (result: map<string, Section>)
    ensures result.Keys == {Hu, En}
    ensures result[Hu] == Merged(sources, Hu) && result[En] == Merged(sources, En)
  {
    result := map[Hu := map[], En := map[]];
    for i := 0 to |sources|
      invariant result.Keys == {Hu, En}
      invariant result[Hu] == Merged(sources[..i], Hu) && result[En] == Merged(sources[..i], En)
    {
      assert sources[..i + 1][..i] == sources[..i];
      var source := sources[i];
      if source.hu.Some? {
        result := result[Hu := result[Hu] + source.hu.value];
      }
      if source.en.Some? {
        result := result[En := result[En] + source.en.value];
      }
    }
    assert sources[..|sources|] == sources;
  }

  /** A key is in the merged section exactly when some file defines it there. */
  lemma {:induction false} MergedKeys(sources: seq<Source>, locale: string, k: string)
    ensures k in Merged(sources, locale) <==>
            exists i :: 0 <= i < |sources| && SectionOf(sources[i], locale).Some? && k in SectionOf(sources[i], locale).value
  {
    if sources != [] {
      var init := sources[..|sources| - 1];
      MergedKeys(init, locale, k);
      if k in Merged(sources, locale) && k !in Merged(init, locale) {
        var n := |sources| - 1;
        assert SectionOf(sources[n], locale).Some? && k in SectionOf(sources[n], locale).value;
      }
      if exists i :: 0 <= i < |sources| && SectionOf(sources[i], locale).Some? && k in SectionOf(sources[i], locale).value {
        var i :| 0 <= i < |sources| && SectionOf(sources[i], locale).Some? && k in SectionOf(sources[i], locale).value;
        if i < |sources| - 1 {
          assert init[i] == sources[i];
        }
      }
    }
  }

  /** Defines(src, locale, k): `src` writes `k` in that locale. */
  predicate Defines(src: Source, locale: string, k: string)
  {
    SectionOf(src, locale).Some? && k in SectionOf(src, locale).value
  }

  /** The last file that writes a key decides its merged value: the earlier
      value is replaced whole, not merged into. */
  lemma {:induction false} LastWriterWins(sources: seq<Source>, locale: string, k: string, j: nat)
    requires j < |sources| && Defines(sources[j], locale, k)
    requires forall i :: j < i < |sources| ==> !Defines(sources[i], locale, k)
    ensures k in Merged(sources, locale)
    ensures Merged(sources, locale)[k] == SectionOf(sources[j], locale).value[k]
  {
    var n := |sources| - 1;
    if j < n {
      var init := sources[..n];
      assert init[j] == sources[j];
      forall i | j < i < |init| ensures !Defines(init[i], locale, k) {
        assert init[i] == sources[i];
      }
      LastWriterWins(init, locale, k, j);
      assert !Defines(sources[n], locale, k);
    }
  }

  /** A file without a section for a locale leaves that locale's merge as it was. */
  lemma {:induction false} MissingSectionIgnored(before: seq<Source>, src: Source, after: seq<Source>, locale: string)
    requires SectionOf(src, locale).None?
    ensures Merged(before + [src] + after, locale) == Merged(before + after, locale)
  {
    if after == [] {
      assert (before + [src] + after)[..|before|] == before;
      assert before + after == before;
      assert Merged(before, locale) + map[] == Merged(before, locale);
    } else {
      var n := |after| - 1;
      var a := after[..n];
      MissingSectionIgnored(before, src, a, locale);
      var whole, short := before + [src] + after, before + after;
      assert whole[..|whole| - 1] == before + [src] + a && whole[|whole| - 1] == after[n];
      assert short[..|short| - 1] == before + a && short[|short| - 1] == after[n];
    }
  }

  // ---------------------------------------------------------------------
  // The application's own table
  // ---------------------------------------------------------------------

  /** A section holding `keys`, every one written in `file`. */
  function SectionFrom(file: string, locale: string, keys: set<string>): (s: Section)
    ensures s.Keys == keys
    ensures forall k :: k in keys ==> s[k] == Entry(file, locale, k)
  {
    map k | k in keys :: Entry(file, locale, k)
  }

  /** A file whose Hungarian and English sections have the same top-level keys. */
  function Both(file: string, keys: set<string>): Source
  {
    Source(Some(SectionFrom(file, Hu, keys)), Some(SectionFrom(file, En, keys)))
  }

  /** A file built by `Both` writes exactly its keys, in both locales. */
  lemma BothDefines(file: string, keys: set<string>, locale: string, k: string)
    requires locale == Hu || locale == En
    ensures Defines(Both(file, keys), locale, k) <==> k in keys
    ensures k in keys ==> SectionOf(Both(file, keys), locale).value[k] == Entry(file, locale, k)
  {
  }

  const Common := Both("common.js", {"nav", "common", "footer", "theme"})
  const Dashboard := Both("dashboard.js", {"dashboard"})
  const Settings := Both("settings.js", {"settings"})
  const PreferencesKeys: set<string> :=
    {"title", "subtitle", "loading", "saving", "tip", "sections", "actions", "messages", "genres"}
  const Preferences := Both("preferences.js", PreferencesKeys)
  const MoviesKeys: set<string> :=
    {"title", "subtitle", "loading", "indicators", "details", "runtime", "age_rating", "language",
     "rating_categories", "popularity", "rating_quality", "vote_count", "recency", "fun_facts",
     "no_movies", "stats", "genres"}
  const Movies := Both("movies.js", MoviesKeys)
  const FavoriteMovies := Both("favoriteMovies.js", {"favoriteMovies"})

  /** The order in which the table is merged; `auth.js` and `profile.js` are
      parameters, their contents are not part of this model. */
  function AppSources(auth: Source, profile: Source): (s: seq<Source>)
    ensures |s| == 8
  {
    [Common, auth, Dashboard, profile, Settings, Preferences, Movies, FavoriteMovies]
  }

  /** Whatever the two unseen files hold, the page title, the loading text
      and the genre names come from the movie browser's file in both
      locales, and the preference page's versions are lost. */
  lemma MoviesShadowPreferences(auth: Source, profile: Source, locale: string, k: string)
    requires locale == Hu || locale == En
    requires k == "genres" || k == "title" || k == "loading"
    ensures k in Merged(AppSources(auth, profile), locale)
    ensures Merged(AppSources(auth, profile), locale)[k] == Entry("movies.js", locale, k)
    ensures Defines(Preferences, locale, k)
  {
    var s := AppSources(auth, profile);
    assert s[6] == Movies && s[7] == FavoriteMovies;
    BothDefines("movies.js", MoviesKeys, locale, k);
    BothDefines("favoriteMovies.js", {"favoriteMovies"}, locale, k);
    BothDefines("preferences.js", PreferencesKeys, locale, k);
    LastWriterWins(s, locale, k, 6);
  }

  lemma SavingNotAMoviesKey()
    ensures "saving" !in MoviesKeys
  {
  }

  /** `saving` is defined by the preferences file alone after the unseen files. */
  lemma SavingFromPreferences(auth: Source, profile: Source, locale: string)
    requires locale == Hu || locale == En
    ensures "saving" in Merged(AppSources(auth, profile), locale)
    ensures Merged(AppSources(auth, profile), locale)["saving"] == Entry("preferences.js", locale, "saving")
  {
    var s := AppSources(auth, profile);
    assert s[5] == Preferences && s[6] == Movies && s[7] == FavoriteMovies;
    BothDefines("preferences.js", PreferencesKeys, locale, "saving");
    BothDefines("movies.js", MoviesKeys, locale, "saving");
    BothDefines("favoriteMovies.js", {"favoriteMovies"}, locale, "saving");
    SavingNotAMoviesKey();
    assert !Defines(s[6], locale, "saving") && !Defines(s[7], locale, "saving");
    LastWriterWins(s, locale, "saving", 5);
  }
}
