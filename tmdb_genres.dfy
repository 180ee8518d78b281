/**
 * The English names of TMDB's movie genre ids, as the backend controllers
 * hard-code them (the same 18 entries in the watchlist, movie and
 * recommendation controllers).
 */
module TmdbGenres {
  import opened JsValues

  const Action := 28
  const Adventure := 12
  const Animation := 16
  const Comedy := 35
  const Crime := 80
  const Documentary := 99
  const Drama := 18
  const Family := 10751
  const Fantasy := 14
  const History := 36
  const Horror := 27
  const Music := 10402
  const Mystery := 9648
  const Romance := 10749
  const ScienceFiction := 878
  const Thriller := 53
  const War := 10752
  const Western := 37

  /** The `genreMap` object: its 18 keys and their English names. */
  const EnglishNames: map<int, string> := map[
    Action := "Action", Adventure := "Adventure", Animation := "Animation",
    Comedy := "Comedy", Crime := "Crime", Documentary := "Documentary",
    Drama := "Drama", Family := "Family", Fantasy := "Fantasy",
    History := "History", Horror := "Horror", Music := "Music",
    Mystery := "Mystery", Romance := "Romance", ScienceFiction := "Science Fiction",
    Thriller := "Thriller", War := "War", Western := "Western"]

  /** `genreMap[id] || 'Unknown'` (every name in the map is non-empty). */
  function GenreName(id: int): (r: string)
  {
    if id in EnglishNames then EnglishNames[id] else "Unknown"
  }

  /** `genreMap[id] || `Genre ${id}``. */
  function GenreLabel(id: int): (r: string)
    ensures id in EnglishNames ==> r == EnglishNames[id]
    ensures id !in EnglishNames ==> r == "Genre " + IntToString(id)
  {
    if id in EnglishNames then EnglishNames[id] else "Genre " + IntToString(id)
  }

  /** No known genre is called 'Unknown', so the fallback never collides with a
      real genre's tally, and a name tells its id back. */
  lemma GenreNameInjective(a: int, b: int)
    requires a in EnglishNames && GenreName(a) == GenreName(b)
    ensures a == b
  {
  }
}
