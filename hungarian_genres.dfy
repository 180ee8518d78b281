/**
 * The Hungarian genre names the browser shows: the `GENRE_MAP` object
 * (TMDB genre id to Hungarian name, declared identically in the movie and
 * the translation services) and the English-to-Hungarian name table of
 * the translation service.
 */
module HungarianGenres {
  import opened JsValues

  /** `GENRE_MAP`. An object's keys are strings, so the numeric ids are
      kept as their decimal text. */
  const GenreMap: map<string, string> := map[
    "28" := "Akció",
    "12" := "Kaland",
    "16" := "Animáció",
    "35" := "Vígjáték",
    "80" := "Krimi",
    "99" := "Dokumentum",
    "18" := "Dráma",
    "10751" := "Családi",
    "14" := "Fantasy",
    "36" := "Történelmi",
    "27" := "Horror",
    "10402" := "Zene",
    "9648" := "Rejtély",
    "10749" := "Romantikus",
    "878" := "Sci-Fi",
    "10770" := "TV film",
    "53" := "Thriller",
    "10752" := "Háborús",
    "37" := "Western"]

  /** `GENRE_MAP[id]`: the property key is `String(id)`, so the number 28,
      the string "28" and the array [28] all find 'Akció'. */
  function GenreMapLookup(id: JsValue): (r: Option<string>)
    ensures r.Some? <==> ToText(id) in GenreMap
    ensures r.Some? ==> r.value == GenreMap[ToText(id)] && r.value != ""
  {
    var key := ToText(id);
    if key in GenreMap then Some(GenreMap[key]) else None
  }

  /** `GENRE_MAP[id] || prefix + id`: every name in the map is non-empty,
      so a hit is always used. */
  function NameOr(id: JsValue, prefix: string): (r: string)
    ensures ToText(id) in GenreMap ==> r == GenreMap[ToText(id)]
    ensures ToText(id) !in GenreMap ==> r == prefix + ToText(id)
  {
    var hit := GenreMapLookup(id);
    if hit.Some? then hit.value else prefix + ToText(id)
  }

  /** The English TMDB names the translation service recognises. */
  const EnglishToHungarian: map<string, string> := map[
    "Action" := "Akció",
    "Adventure" := "Kaland",
    "Animation" := "Animáció",
    "Comedy" := "Vígjáték",
    "Crime" := "Krimi",
    "Documentary" := "Dokumentum",
    "Drama" := "Dráma",
    "Family" := "Családi",
    "Fantasy" := "Fantasy",
    "History" := "Történelmi",
    "Horror" := "Horror",
    "Music" := "Zene",
    "Mystery" := "Rejtély",
    "Romance" := "Romantikus",
    "Science Fiction" := "Sci-Fi",
    "TV Movie" := "TV film",
    "Thriller" := "Thriller",
    "War" := "Háborús",
    "Western" := "Western"]

  /** The TMDB id of each English name, as `GENRE_MAP`'s key. */
  const EnglishIds: map<string, string> := map[
    "Action" := "28",
    "Adventure" := "12",
    "Animation" := "16",
    "Comedy" := "35",
    "Crime" := "80",
    "Documentary" := "99",
    "Drama" := "18",
    "Family" := "10751",
    "Fantasy" := "14",
    "History" := "36",
    "Horror" := "27",
    "Music" := "10402",
    "Mystery" := "9648",
    "Romance" := "10749",
    "Science Fiction" := "878",
    "TV Movie" := "10770",
    "Thriller" := "53",
    "War" := "10752",
    "Western" := "37"]

  /** Both tables name the same nineteen genres: every English name is
      translated to the name `GENRE_MAP` gives its TMDB id. */
  lemma TablesAgree(english: string)
    requires english in EnglishToHungarian
    ensures english in EnglishIds && EnglishIds[english] in GenreMap
    ensures GenreMap[EnglishIds[english]] == EnglishToHungarian[english]
  {
    assert EnglishIds.Keys == EnglishToHungarian.Keys;
  }

  /** A numeric id and its decimal text find the same name. */
  lemma NumberAndTextAgree(id: nat)
    ensures GenreMapLookup(Num(id as real)) == GenreMapLookup(Str(IntToString(id)))
  {
    WholeNumberText(id);
    assert ToText(Num(id as real)) == IntToString(id);
  }
}
