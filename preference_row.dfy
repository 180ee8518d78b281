/**
 * A row of the `user_preferences` table: nineteen nullable genre flags, the
 * year and rating floors, the runtime bucket, the language list and four
 * 0/1 switches, together with the schema's column defaults and the partial
 * updates (`data` objects) the preferences controller applies to a row.
 */
module PreferenceRow {
  import opened JsValues

  /** The genre flag columns, in the order the backend validator lists them. */
  datatype Genre =
    | Action | Adventure | Animation | Comedy | Crime | Documentary | Drama
    | Family | Fantasy | History | Horror | Music | Mystery | Romance
    | ScienceFiction | Thriller | War | Western | Anime

  /** The validator's `genres` array. */
  const AllGenres: seq<Genre> := [
    Action, Adventure, Animation, Comedy, Crime, Documentary, Drama,
    Family, Fantasy, History, Horror, Music, Mystery, Romance,
    ScienceFiction, Thriller, War, Western, Anime]

  /** The position of a genre in the list of genre flags. */
  function GenreRank(g: Genre): (i: nat)
    ensures i < |AllGenres| && AllGenres[i] == g
  {
    match g
    case Action => 0
    case Adventure => 1
    case Animation => 2
    case Comedy => 3
    case Crime => 4
    case Documentary => 5
    case Drama => 6
    case Family => 7
    case Fantasy => 8
    case History => 9
    case Horror => 10
    case Music => 11
    case Mystery => 12
    case Romance => 13
    case ScienceFiction => 14
    case Thriller => 15
    case War => 16
    case Western => 17
    case Anime => 18
  }

  /** The genre at position `i` of the list has rank `i`. */
  lemma RankOfIndex(i: nat)
    requires i < |AllGenres|
    ensures GenreRank(AllGenres[i]) == i
  {
  }

  /** The column name of a genre flag. */
  function GenreField(g: Genre): string
  {
    match g
    case Action => "genre_action"
    case Adventure => "genre_adventure"
    case Animation => "genre_animation"
    case Comedy => "genre_comedy"
    case Crime => "genre_crime"
    case Documentary => "genre_documentary"
    case Drama => "genre_drama"
    case Family => "genre_family"
    case Fantasy => "genre_fantasy"
    case History => "genre_history"
    case Horror => "genre_horror"
    case Music => "genre_music"
    case Mystery => "genre_mystery"
    case Romance => "genre_romance"
    case ScienceFiction => "genre_science_fiction"
    case Thriller => "genre_thriller"
    case War => "genre_war"
    case Western => "genre_western"
    case Anime => "genre_anime"
  }

  /** The TMDB genre id each flag stands for; anime is filed under
      animation (16). */
  function TmdbGenreId(g: Genre): int
  {
    match g
    case Action => 28
    case Adventure => 12
    case Animation => 16
    case Comedy => 35
    case Crime => 80
    case Documentary => 99
    case Drama => 18
    case Family => 10751
    case Fantasy => 14
    case History => 36
    case Horror => 27
    case Music => 10402
    case Mystery => 9648
    case Romance => 10749
    case ScienceFiction => 878
    case Thriller => 53
    case War => 10752
    case Western => 37
    case Anime => 16
  }

  /** The four 0/1 switch columns, in the validator's order. */
  datatype Switch = PreferClassic | PreferModern | PreferRecent | ChildMode

  const AllSwitches: seq<Switch> := [PreferClassic, PreferModern, PreferRecent, ChildMode]

  function SwitchField(s: Switch): string
  {
    match s
    case PreferClassic => "prefer_classic"
    case PreferModern => "prefer_modern"
    case PreferRecent => "prefer_recent"
    case ChildMode => "child_mode"
  }

  /** A stored row. A genre or switch missing from its map reads as null. */
  datatype Prefs = Prefs(
    flags: map<Genre, Option<int>>,
    minYear: Option<int>,
    maxYear: Option<int>,
    minRating: Option<real>,
    runtime: Option<string>,
    languages: JsValue,
    switches: map<Switch, Option<int>>)

  /** `preferences.genre_x`: the flag's value, null when unset. */
  function Flag(p: Prefs, g: Genre): Option<int>
  {
    if g in p.flags then p.flags[g] else None
  }

  function SwitchValue(p: Prefs, s: Switch): Option<int>
  {
    if s in p.switches then p.switches[s] else None
  }

  /** The column defaults of the table, which are also the defaults
      `getPreferences` answers with when a user has no row. */
  function Defaults(currentYear: int): (p: Prefs)
    ensures forall g :: Flag(p, g).None?
    ensures p.minYear == Some(1900) && p.maxYear == Some(currentYear)
    ensures p.minRating == Some(0.0) && p.runtime == Some("any") && p.languages == Null
    ensures SwitchValue(p, PreferClassic) == Some(0) && SwitchValue(p, PreferModern) == Some(1)
    ensures SwitchValue(p, PreferRecent) == Some(1) && SwitchValue(p, ChildMode) == Some(0)
  {
    Prefs(map[], Some(1900), Some(currentYear), Some(0.0), Some("any"), Null,
          map[PreferClassic := Some(0), PreferModern := Some(1), PreferRecent := Some(1), ChildMode := Some(0)])
  }

  /** The validated `data` object: only the fields the request carried. */
  datatype Patch = Patch(
    flags: map<Genre, Option<int>>,
    minYear: Option<int>,
    maxYear: Option<int>,
    minRating: Option<real>,
    runtime: Option<string>,
    languages: Option<JsValue>,
    switches: map<Switch, int>)

  const EmptyPatch := Patch(map[], None, None, None, None, None, map[])

  /** The switch columns after writing the patch's switches. */
  function SwitchesAfter(current: map<Switch, Option<int>>, written: map<Switch, int>): (m: map<Switch, Option<int>>)
    ensures forall s :: s in written ==> s in m && m[s] == Some(written[s])
    ensures forall s :: s !in written ==> (s in m <==> s in current)
    ensures forall s :: s !in written && s in current ==> m[s] == current[s]
  {
    current + map s | s in written :: Some(written[s])
  }

  /** The genre columns after writing the patch's flags. */
  function FlagsAfter(current: map<Genre, Option<int>>, written: map<Genre, Option<int>>): (m: map<Genre, Option<int>>)
    ensures forall g :: g in written ==> g in m && m[g] == written[g]
    ensures forall g :: g !in written ==> (g in m <==> g in current)
    ensures forall g :: g !in written && g in current ==> m[g] == current[g]
  {
    current + written
  }

  /** `UPDATE ... SET <the patch's fields>`: the fields a patch carries are
      overwritten, every other column keeps its value. */
  function Apply(row: Prefs, d: Patch): (r: Prefs)
    ensures r.minYear == (if d.minYear.Some? then d.minYear else row.minYear)
    ensures r.maxYear == (if d.maxYear.Some? then d.maxYear else row.maxYear)
    ensures r.minRating == (if d.minRating.Some? then d.minRating else row.minRating)
    ensures r.runtime == (if d.runtime.Some? then d.runtime else row.runtime)
    ensures r.languages == (if d.languages.Some? then d.languages.value else row.languages)
  {
    Prefs(FlagsAfter(row.flags, d.flags),
          if d.minYear.Some? then d.minYear else row.minYear,
          if d.maxYear.Some? then d.maxYear else row.maxYear,
          if d.minRating.Some? then d.minRating else row.minRating,
          if d.runtime.Some? then d.runtime else row.runtime,
          if d.languages.Some? then d.languages.value else row.languages,
          SwitchesAfter(row.switches, d.switches))
  }

  /** Each genre flag is the patch's when the patch carries it, and the
      stored one otherwise. */
  lemma ApplyFlags(row: Prefs, d: Patch, g: Genre)
    ensures Flag(Apply(row, d), g) == (if g in d.flags then d.flags[g] else Flag(row, g))
  {
  }

  /** Each switch is the patch's when the patch carries it, and the stored
      one otherwise. */
  lemma ApplySwitches(row: Prefs, d: Patch, s: Switch)
    ensures SwitchValue(Apply(row, d), s) == (if s in d.switches then Some(d.switches[s]) else SwitchValue(row, s))
  {
  }

  /** Applying a patch twice is applying it once. */
  lemma ApplyIdempotent(row: Prefs, d: Patch)
    ensures Apply(Apply(row, d), d) == Apply(row, d)
  {
  }

  /** The `user_preferences` table. Its unique index on `user_id` makes it a
      map from user ids to rows. */
  class PreferenceTable {
    var rows: map<int, Prefs>

    constructor()
      ensures rows == map[]
    {
      rows := map[];
    }
  }
}
