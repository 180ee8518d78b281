/**
 * The recommendation controller: the taste profile drawn from a user's
 * likes (top genres and preferred years), the additive score, the
 * deduplication and filtering of candidates, and the composition of the
 * four candidate pools into one ranked, truncated list.
 */
module Recommendation {
  import opened JsValues
  import opened TableRows
  import opened PreferenceRow

  // ---------------------------------------------------------------------
  // Candidates and the profile
  // ---------------------------------------------------------------------

  /** The fields of a cached movie the ranking reads. `genreIds` is the
      decoded genre list, `None` when it is absent or does not decode;
      `releaseYear` is the year of a truthy release date. */
  datatype Candidate = Candidate(
    tmdbId: int,
    voteAverage: Option<real>,
    voteCount: Option<int>,
    popularity: Option<real>,
    genreIds: Option<seq<int>>,
    releaseYear: Option<int>,
    adult: bool,
    userScore: Option<int>)

  /** `{average, min, max}` of the liked movies' years. */
  datatype YearProfile = YearProfile(average: int, min: int, max: int)

  /** The parts of `getUserProfile`'s result the ranking reads. */
  datatype Profile = Profile(
    hasPreferences: bool,
    likedCount: nat,
    topGenres: seq<int>,
    preferredYears: Option<YearProfile>)

  // ---------------------------------------------------------------------
  // Score
  // ---------------------------------------------------------------------

  /** `x || 0` for a numeric column. */
  function OrZero(x: Option<real>): real
  {
    if x.Some? then x.value else 0.0
  }

  /** How many ids of `ids` are top genres, repeats included. */
  function Matches(ids: seq<int>, top: seq<int>): (n: nat)
    ensures n <= |ids|
  {
    if ids == [] then 0 else (if ids[0] in top then 1 else 0) + Matches(ids[1..], top)
  }

  lemma {:induction false} MatchesAppend(ids: seq<int>, g: int, top: seq<int>)
    ensures Matches(ids + [g], top) == Matches(ids, top) + (if g in top then 1 else 0)
  {
    if ids == [] {
      assert [g][1..] == [];
    } else {
      assert (ids + [g])[1..] == ids[1..] + [g];
      MatchesAppend(ids[1..], g, top);
    }
  }

  /** The genre term: 0 when the list is missing or does not decode. */
  function GenreMatches(m: Candidate, top: seq<int>): nat
  {
    if m.genreIds.Some? then Matches(m.genreIds.value, top) else 0
  }

  /** `max(0, 20 - |year - average|)`, 0 without a year on either side. */
  function YearBonus(year: Option<int>, years: Option<YearProfile>): (b: int)
    ensures 0 <= b <= 20
    ensures b == 20 <==> year.Some? && years.Some? && year.value == years.value.average
    ensures b > 0 ==> year.Some? && years.Some? &&
                      years.value.average - 20 < year.value < years.value.average + 20
  {
    if year.Some? && years.Some? then
      var d := year.value - years.value.average;
      var dist := if d < 0 then -d else d;
      if 20 - dist > 0 then 20 - dist else 0
    else 0
  }

  /** The unrounded score. */
  function RawScore(p: Profile, m: Candidate): real
  {
    10.0 * OrZero(m.voteAverage) + 20.0 * GenreMatches(m, p.topGenres) as real
    + YearBonus(m.releaseYear, p.preferredYears) as real + OrZero(m.popularity) / 10.0
  }

  /** `userScore`: the rounded sum of the four terms. */
  function Score(p: Profile, m: Candidate): int
  {
    Round(RawScore(p, m))
  }

  /** Every extra top-genre id on a movie adds exactly 20 points. */
  lemma ScoreGenreBonus(p: Profile, m: Candidate, g: int)
    requires m.genreIds.Some? && g in p.topGenres
    ensures Score(p, m.(genreIds := Some(m.genreIds.value + [g]))) == Score(p, m) + 20
  {
    MatchesAppend(m.genreIds.value, g, p.topGenres);
    var m' := m.(genreIds := Some(m.genreIds.value + [g]));
    assert RawScore(p, m') == RawScore(p, m) + 20.0;
  }

  /** Ids outside the profile's top genres do not move the score. */
  lemma ScoreIgnoresOtherGenres(p: Profile, m: Candidate, g: int)
    requires m.genreIds.Some? && g !in p.topGenres
    ensures Score(p, m.(genreIds := Some(m.genreIds.value + [g]))) == Score(p, m)
  {
    MatchesAppend(m.genreIds.value, g, p.topGenres);
  }

  /** The movie with its `userScore` set. */
  function Scored(p: Profile, m: Candidate): Candidate
  {
    m.(userScore := Some(Score(p, m)))
  }

  /** `scoreMoviesForUser`: sets `userScore` on every movie in place. */
  method ScoreMovies(p: Profile, movies: array<Candidate>)
    modifies movies
    ensures forall i :: 0 <= i < movies.Length ==> movies[i] == Scored(p, old(movies[i]))
  {
    for i := 0 to movies.Length
      invariant forall k :: 0 <= k < i ==> movies[k] == Scored(p, old(movies[k]))
      invariant forall k :: i <= k < movies.Length ==> movies[k] == old(movies[k])
    {
      movies[i] := Scored(p, movies[i]);
    }
  }

  // ---------------------------------------------------------------------
  // Genre profile
  // ---------------------------------------------------------------------

  /** Occurrences of `g` in one genre list. */
  function Occ(ids: seq<int>, g: int): nat
  {
    if ids == [] then 0 else Occ(ids[..|ids| - 1], g) + (if ids[|ids| - 1] == g then 1 else 0)
  }

  /** How often genre `g` appears across the liked movies' lists; a movie
      whose list is missing or does not decode contributes nothing. */
  function Likes(liked: seq<Option<seq<int>>>, g: int): nat
  {
    if liked == [] then 0
    else Likes(liked[..|liked| - 1], g)
         + (if liked[|liked| - 1].Some? then Occ(liked[|liked| - 1].value, g) else 0)
  }

  /** `genreCounts[g] || 0`. */
  function CountOf(counts: map<int, nat>, g: int): nat
  {
    if g in counts then counts[g] else 0
  }

  /** The order of the ranking: more likes first, and among equal counts the
      smaller id, because array-index keys (0 to 2^32 - 2) enumerate in
      ascending order and the sort is stable. Other keys, such as negative
      ids, would enumerate in insertion order instead. */
  predicate Before(counts: map<int, nat>, a: int, b: int)
  {
    CountOf(counts, a) > CountOf(counts, b) || (CountOf(counts, a) == CountOf(counts, b) && a < b)
  }

  /** `Before` stated on the likes themselves. */
  predicate Outranks(liked: seq<Option<seq<int>>>, a: int, b: int)
  {
    Likes(liked, a) > Likes(liked, b) || (Likes(liked, a) == Likes(liked, b) && a < b)
  }

  predicate Ranked(r: seq<int>, counts: map<int, nat>)
  {
    forall i, j :: 0 <= i < j < |r| ==> Before(counts, r[i], r[j])
  }

  predicate NoRepeats(xs: seq<int>)
  {
    forall i, j :: 0 <= i < j < |xs| ==> xs[i] != xs[j]
  }

  function InsertRanked(x: int, r: seq<int>, counts: map<int, nat>): (s: seq<int>)
    requires Ranked(r, counts) && x !in r
    ensures Ranked(s, counts) && |s| == |r| + 1
    ensures forall y :: y in s <==> y == x || y in r
  {
    if r == [] then [x]
    else if Before(counts, x, r[0]) then [x] + r
    else
      var rest := InsertRanked(x, r[1..], counts);
      assert Before(counts, r[0], x);
      assert forall y :: y in rest ==> Before(counts, r[0], y) by {
        forall y | y in rest ensures Before(counts, r[0], y) {
          if y != x {
            var k :| 0 <= k < |r[1..]| && r[1..][k] == y;
            assert r[k + 1] == y;
          }
        }
      }
      [r[0]] + rest
  }

  /** The keys sorted by `Before`. The order is total, so the result does
      not depend on the order of `keys`. */
  function Rank(keys: seq<int>, counts: map<int, nat>): (r: seq<int>)
    requires NoRepeats(keys)
    ensures Ranked(r, counts) && |r| == |keys|
    ensures forall y :: y in r <==> y in keys
  {
    if keys == [] then []
    else InsertRanked(keys[0], Rank(keys[1..], counts), counts)
  }

  lemma OccStep(ids: seq<int>, j: int, g: int)
    requires 0 <= j < |ids|
    ensures Occ(ids[..j + 1], g) == Occ(ids[..j], g) + (if ids[j] == g then 1 else 0)
  {
    assert ids[..j + 1][..j] == ids[..j];
  }

  lemma LikesStep(liked: seq<Option<seq<int>>>, i: int, g: int)
    requires 0 <= i < |liked|
    ensures Likes(liked[..i + 1], g) == Likes(liked[..i], g) + (if liked[i].Some? then Occ(liked[i].value, g) else 0)
  {
    assert liked[..i + 1][..i] == liked[..i];
  }

  /** The count dictionary with its keys in insertion order. */
  ghost predicate Tally(counts: map<int, nat>, keys: seq<int>)
  {
    && (forall g :: g in counts <==> g in keys)
    && (forall g :: g in counts ==> counts[g] > 0)
    && NoRepeats(keys)
  }

  /** The inner `forEach`: one more count for every id of `genres`. */
  method CountList(counts0: map<int, nat>, keys0: seq<int>, genres: seq<int>)
    returns (counts: map<int, nat>, keys: seq<int>)
    requires Tally(counts0, keys0)
    ensures Tally(counts, keys)
    ensures forall g :: CountOf(counts, g) == CountOf(counts0, g) + Occ(genres, g)
  {
    counts, keys := counts0, keys0;
    for j := 0 to |genres|
      invariant Tally(counts, keys)
      invariant forall g :: CountOf(counts, g) == CountOf(counts0, g) + Occ(genres[..j], g)
    {
      OccStepAll(genres, j);
      var g := genres[j];
      if g !in counts {
        keys := keys + [g];
      }
      counts := counts[g := CountOf(counts, g) + 1];
    }
    assert genres[..|genres|] == genres;
  }

  /** The outer `forEach`: `genreCounts` over all liked movies. */
  method CountGenres(liked: seq<Option<seq<int>>>) returns (counts: map<int, nat>, keys: seq<int>)
    ensures Tally(counts, keys)
    ensures forall g :: CountOf(counts, g) == Likes(liked, g)
  {
    counts, keys := map[], [];
    for i := 0 to |liked|
      invariant Tally(counts, keys)
      invariant forall g :: CountOf(counts, g) == Likes(liked[..i], g)
    {
      LikesStepAll(liked, i);
      if liked[i].Some? {
        counts, keys := CountList(counts, keys, liked[i].value);
      }
    }
    assert liked[..|liked|] == liked;
  }

  /** `extractGenrePreferences`: counts every genre of every liked movie,
      then keeps the five best by `Outranks`. */
  method ExtractGenrePreferences(liked: seq<Option<seq<int>>>) returns (top: seq<int>)
    ensures |top| <= 5
    ensures forall i :: 0 <= i < |top| ==> Likes(liked, top[i]) > 0
    ensures forall i, j :: 0 <= i < j < |top| ==> Outranks(liked, top[i], top[j])
    ensures forall g :: Likes(liked, g) > 0 && g !in top ==>
              |top| == 5 && forall i :: 0 <= i < |top| ==> Outranks(liked, top[i], g)
  {
    var counts, keys := CountGenres(liked);
    var ranked := Rank(keys, counts);
    top := ranked[..if |ranked| < 5 then |ranked| else 5];
    TopOfRanked(liked, counts, keys, ranked, top);
  }

  lemma TopOfRanked(liked: seq<Option<seq<int>>>, counts: map<int, nat>, keys: seq<int>,
                    ranked: seq<int>, top: seq<int>)
    requires Tally(counts, keys) && forall g :: CountOf(counts, g) == Likes(liked, g)
    requires Ranked(ranked, counts) && forall y :: y in ranked <==> y in keys
    requires top == ranked[..if |ranked| < 5 then |ranked| else 5]
    ensures |top| <= 5
    ensures forall i :: 0 <= i < |top| ==> Likes(liked, top[i]) > 0
    ensures forall i, j :: 0 <= i < j < |top| ==> Outranks(liked, top[i], top[j])
    ensures forall g :: Likes(liked, g) > 0 && g !in top ==>
              |top| == 5 && forall i :: 0 <= i < |top| ==> Outranks(liked, top[i], g)
  {
    forall i | 0 <= i < |top| ensures Likes(liked, top[i]) > 0 {
      assert top[i] == ranked[i];
      assert ranked[i] in keys;
    }
    forall i, j | 0 <= i < j < |top| ensures Outranks(liked, top[i], top[j]) {
      assert Before(counts, ranked[i], ranked[j]);
    }
    forall g | Likes(liked, g) > 0 && g !in top
      ensures |top| == 5 && forall i :: 0 <= i < |top| ==> Outranks(liked, top[i], g)
    {
      assert g in counts;
      assert g in ranked;
      var k :| 0 <= k < |ranked| && ranked[k] == g;
      assert k >= |top|;
      forall i | 0 <= i < |top| ensures Outranks(liked, top[i], g) {
        assert Before(counts, ranked[i], ranked[k]);
      }
    }
  }

  lemma OccStepAll(ids: seq<int>, j: int)
    requires 0 <= j < |ids|
    ensures forall g :: Occ(ids[..j + 1], g) == Occ(ids[..j], g) + (if ids[j] == g then 1 else 0)
  {
    forall g {
      OccStep(ids, j, g);
    }
  }

  lemma LikesStepAll(liked: seq<Option<seq<int>>>, i: int)
    requires 0 <= i < |liked|
    ensures forall g :: Likes(liked[..i + 1], g) ==
              Likes(liked[..i], g) + (if liked[i].Some? then Occ(liked[i].value, g) else 0)
    ensures liked[i].Some? ==> forall g :: Occ(liked[i].value[..0], g) == 0
  {
    forall g {
      LikesStep(liked, i, g);
    }
  }

  // ---------------------------------------------------------------------
  // Year profile
  // ---------------------------------------------------------------------

  /** The years of the liked movies that have a release date. */
  function Dated(years: seq<Option<int>>): (ys: seq<int>)
    ensures |ys| <= |years|
    ensures forall y :: y in ys <==> Some(y) in years
    ensures forall k :: 0 <= k < |years| && years[k].Some? ==> years[k].value in ys
  {
    if years == [] then []
    else (if years[0].Some? then [years[0].value] else []) + Dated(years[1..])
  }

  function Sum(ys: seq<int>): int
  {
    if ys == [] then 0 else ys[0] + Sum(ys[1..])
  }

  function MinOf(ys: seq<int>): (m: int)
    requires ys != []
    ensures m in ys && forall y :: y in ys ==> m <= y
  {
    if |ys| == 1 then ys[0]
    else
      assert ys == [ys[0]] + ys[1..];
      var rest := MinOf(ys[1..]); if ys[0] <= rest then ys[0] else rest
  }

  function MaxOf(ys: seq<int>): (m: int)
    requires ys != []
    ensures m in ys && forall y :: y in ys ==> y <= m
  {
    if |ys| == 1 then ys[0]
    else
      assert ys == [ys[0]] + ys[1..];
      var rest := MaxOf(ys[1..]); if ys[0] >= rest then ys[0] else rest
  }

  /** The sum lies between `|ys|` times the least and the greatest year. */
  lemma {:induction false} SumBounds(ys: seq<int>, lo: int, hi: int)
    requires forall y :: y in ys ==> lo <= y <= hi
    ensures |ys| * lo <= Sum(ys) <= |ys| * hi
  {
    if ys != [] {
      assert forall y :: y in ys[1..] ==> y in ys;
      SumBounds(ys[1..], lo, hi);
      assert ys[0] in ys;
      MulSucc(|ys[1..]|, lo);
      MulSucc(|ys[1..]|, hi);
    }
  }

  /** `extractYearPreferences`: null when no liked movie has a date,
      otherwise the rounded mean and the extremes of the dated years. */
  function ExtractYearPreferences(years: seq<Option<int>>): (r: Option<YearProfile>)
    ensures r.None? <==> forall k :: 0 <= k < |years| ==> years[k].None?
    ensures r.Some? ==> r.value.min <= r.value.average <= r.value.max
    ensures r.Some? ==> Some(r.value.min) in years && Some(r.value.max) in years
    ensures r.Some? ==> forall y :: Some(y) in years ==> r.value.min <= y <= r.value.max
    ensures r.Some? ==> var ys := Dated(years);
              r.value.average == Round(Sum(ys) as real / |ys| as real) &&
              r.value.min == MinOf(ys) && r.value.max == MaxOf(ys)
  {
    var ys := Dated(years);
    if ys == [] then None
    else
      var lo := MinOf(ys);
      var hi := MaxOf(ys);
      var mean := Sum(ys) as real / |ys| as real;
      SumBounds(ys, lo, hi);
      assert lo as real <= mean <= hi as real by {
        MeanBounds(Sum(ys), |ys|, lo, hi);
      }
      Some(YearProfile(Round(mean), lo, hi))
  }

  lemma MeanBounds(s: int, n: int, lo: int, hi: int)
    requires n > 0 && n * lo <= s <= n * hi
    ensures lo as real <= s as real / n as real <= hi as real
  {
    assert (n * lo) as real == n as real * lo as real;
    assert (n * hi) as real == n as real * hi as real;
  }

  // ---------------------------------------------------------------------
  // Genre lists
  // ---------------------------------------------------------------------

  /** The genres `getDiscoveryGenres` starts from, in its order. */
  const DiscoveryPool: seq<int> := [28, 12, 16, 35, 80, 99, 18, 10751, 14, 36, 27, 10402, 9648, 10749, 878, 53, 10752, 37]

  /** The ids of `xs` that are not in `top`, in order. */
  function Without(xs: seq<int>, top: seq<int>): seq<int>
  {
    if xs == [] then [] else (if xs[0] in top then [] else [xs[0]]) + Without(xs[1..], top)
  }

  /** `getDiscoveryGenres`: the pool without the user's top genres, in
      pool order. */
  function DiscoveryGenres(top: seq<int>): seq<int>
  {
    Without(DiscoveryPool, top)
  }

  lemma {:induction false} WithoutMembers(xs: seq<int>, top: seq<int>, g: int)
    ensures g in Without(xs, top) <==> g in xs && g !in top
  {
    if xs != [] {
      WithoutMembers(xs[1..], top, g);
      assert xs == [xs[0]] + xs[1..];
    }
  }

  /** A genre is offered for discovery exactly when it is in the pool and
      not among the top genres. */
  lemma DiscoveryGenresMembers(top: seq<int>, g: int)
    ensures g in DiscoveryGenres(top) <==> g in DiscoveryPool && g !in top
  {
    WithoutMembers(DiscoveryPool, top, g);
  }

  /** Discovery keeps the pool's order: it is a subsequence of the pool,
      picked at the increasing positions `idx`, which are exactly the
      positions of the ids not in `top`. */
  lemma {:induction false} WithoutIsSubsequence(xs: seq<int>, top: seq<int>) returns (idx: seq<nat>)
    ensures |idx| == |Without(xs, top)|
    ensures forall i :: 0 <= i < |idx| ==> idx[i] < |xs| && Without(xs, top)[i] == xs[idx[i]]
    ensures forall i, j :: 0 <= i < j < |idx| ==> idx[i] < idx[j]
    ensures forall k :: 0 <= k < |xs| ==> (k in idx <==> xs[k] !in top)
  {
    if xs == [] {
      idx := [];
    } else {
      var rest := WithoutIsSubsequence(xs[1..], top);
      assert xs == [xs[0]] + xs[1..];
      assert Without(xs, top) == (if xs[0] in top then [] else [xs[0]]) + Without(xs[1..], top);
      idx := ShiftedPositions(xs[0], xs[1..], top, Without(xs[1..], top), rest);
    }
  }

  /** `idx` lists, in increasing order, the positions of the elements of
      `xs` not in `top`, and those elements are `w`. */
  predicate Picks(xs: seq<int>, top: seq<int>, w: seq<int>, idx: seq<nat>)
  {
    && |idx| == |w|
    && (forall i :: 0 <= i < |idx| ==> idx[i] < |xs| && w[i] == xs[idx[i]])
    && (forall i, j :: 0 <= i < j < |idx| ==> idx[i] < idx[j])
    && (forall k :: 0 <= k < |xs| ==> (k in idx <==> xs[k] !in top))
  }

  /** The positions picked from `ys`, moved one place on, with 0 in front
      when `x` is kept, are the positions picked from `[x] + ys`. */
  lemma ShiftedPositions(x: int, ys: seq<int>, top: seq<int>, w1: seq<int>, rest: seq<nat>) returns (idx: seq<nat>)
    requires Picks(ys, top, w1, rest)
    ensures Picks([x] + ys, top, (if x in top then [] else [x]) + w1, idx)
  {
    ShiftFacts(x, ys, top, w1, rest);
    if x in top {
      idx := Shift(rest);
      DropHead(x, ys, top, w1, idx);
      assert [] + w1 == w1;
    } else {
      idx := [0] + Shift(rest);
      KeepHead(x, ys, top, w1, Shift(rest));
    }
  }

  /** What `Shift(rest)` picks from `[x] + ys`. */
  predicate ShiftedPicks(x: int, ys: seq<int>, top: seq<int>, w1: seq<int>, shifted: seq<nat>)
  {
    && |shifted| == |w1|
    && (forall i :: 0 <= i < |shifted| ==> 1 <= shifted[i] < |ys| + 1 && ([x] + ys)[shifted[i]] == w1[i])
    && (forall i, j :: 0 <= i < j < |shifted| ==> shifted[i] < shifted[j])
    && (forall k :: 0 <= k < |ys| + 1 ==> (k in shifted <==> 1 <= k && ([x] + ys)[k] !in top))
  }

  lemma ShiftFacts(x: int, ys: seq<int>, top: seq<int>, w1: seq<int>, rest: seq<nat>)
    requires Picks(ys, top, w1, rest)
    ensures ShiftedPicks(x, ys, top, w1, Shift(rest))
  {
    ShiftIndices(x, ys, top, w1, rest);
    ShiftMembers(x, ys, top, w1, rest);
  }

  lemma ShiftIndices(x: int, ys: seq<int>, top: seq<int>, w1: seq<int>, rest: seq<nat>)
    requires Picks(ys, top, w1, rest)
    ensures forall i :: 0 <= i < |Shift(rest)| ==> 1 <= Shift(rest)[i] < |ys| + 1 && ([x] + ys)[Shift(rest)[i]] == w1[i]
    ensures forall i, j :: 0 <= i < j < |Shift(rest)| ==> Shift(rest)[i] < Shift(rest)[j]
  {
    var xs := [x] + ys;
    var shifted := Shift(rest);
    forall i | 0 <= i < |shifted|
      ensures 1 <= shifted[i] < |xs| && xs[shifted[i]] == w1[i]
    {
      assert xs[rest[i] + 1] == ys[rest[i]];
    }
  }

  lemma ShiftMembers(x: int, ys: seq<int>, top: seq<int>, w1: seq<int>, rest: seq<nat>)
    requires Picks(ys, top, w1, rest)
    ensures forall k :: 0 <= k < |ys| + 1 ==> (k in Shift(rest) <==> 1 <= k && ([x] + ys)[k] !in top)
  {
    ShiftedAreKept(x, ys, top, w1, rest);
    KeptAreShifted(x, ys, top, w1, rest);
  }

  lemma ShiftedAreKept(x: int, ys: seq<int>, top: seq<int>, w1: seq<int>, rest: seq<nat>)
    requires Picks(ys, top, w1, rest)
    ensures forall k :: 0 <= k < |ys| + 1 && k in Shift(rest) ==> 1 <= k && ([x] + ys)[k] !in top
  {
    var xs := [x] + ys;
    var shifted := Shift(rest);
    forall k | 0 <= k < |xs| && k in shifted
      ensures 1 <= k && xs[k] !in top
    {
      var i :| 0 <= i < |shifted| && shifted[i] == k;
      assert rest[i] == k - 1 && rest[i] in rest;
      assert xs[k] == ys[k - 1];
    }
  }

  lemma KeptAreShifted(x: int, ys: seq<int>, top: seq<int>, w1: seq<int>, rest: seq<nat>)
    requires Picks(ys, top, w1, rest)
    ensures forall k :: 1 <= k < |ys| + 1 && ([x] + ys)[k] !in top ==> k in Shift(rest)
  {
    var xs := [x] + ys;
    var shifted := Shift(rest);
    forall k | 1 <= k < |xs| && xs[k] !in top
      ensures k in shifted
    {
      assert xs[k] == ys[k - 1];
      assert k - 1 in rest;
      var i :| 0 <= i < |rest| && rest[i] == k - 1;
      assert shifted[i] == k;
    }
  }

  lemma DropHead(x: int, ys: seq<int>, top: seq<int>, w1: seq<int>, shifted: seq<nat>)
    requires x in top && ShiftedPicks(x, ys, top, w1, shifted)
    ensures Picks([x] + ys, top, w1, shifted)
  {
    assert ([x] + ys)[0] == x;
  }

  lemma KeepHead(x: int, ys: seq<int>, top: seq<int>, w1: seq<int>, shifted: seq<nat>)
    requires x !in top && ShiftedPicks(x, ys, top, w1, shifted)
    ensures Picks([x] + ys, top, [x] + w1, [0] + shifted)
  {
    var xs, w, idx := [x] + ys, [x] + w1, [0] + shifted;
    assert xs[0] == x;
    assert forall m :: 1 <= m < |idx| ==> idx[m] == shifted[m - 1];
    assert forall m :: 1 <= m < |w| ==> w[m] == w1[m - 1];
    assert forall k :: 0 <= k < |xs| ==> (k in idx <==> k == 0 || k in shifted);
  }

  /** Every position moved one place on. */
  function Shift(rest: seq<nat>): (r: seq<nat>)
    ensures |r| == |rest|
    ensures forall i :: 0 <= i < |r| ==> r[i] == rest[i] + 1
  {
    if rest == [] then [] else [rest[0] + 1] + Shift(rest[1..])
  }

  /** Discovery drops exactly the pool's top genres: it is as long as
      the pool iff none of them is in it. */
  lemma {:induction false} WithoutLength(xs: seq<int>, top: seq<int>)
    ensures |Without(xs, top)| <= |xs|
    ensures |Without(xs, top)| == |xs| <==> forall i :: 0 <= i < |xs| ==> xs[i] !in top
  {
    if xs != [] {
      WithoutLength(xs[1..], top);
      assert forall i :: 1 <= i < |xs| ==> xs[i] == xs[1..][i - 1];
    }
  }

  /** A user without likes can discover every genre of the pool. */
  lemma DiscoveryWithoutProfile()
    ensures DiscoveryGenres([]) == DiscoveryPool
  {
    WithoutNothing(DiscoveryPool);
  }

  lemma {:induction false} WithoutNothing(xs: seq<int>)
    ensures Without(xs, []) == xs
  {
    if xs != [] {
      WithoutNothing(xs[1..]);
      assert xs == [xs[0]] + xs[1..];
    }
  }

  /** The ids of the genres among `gs` whose flag is exactly 1, in order. */
  function FlaggedIds(p: Prefs, gs: seq<Genre>): seq<int>
  {
    if gs == [] then []
    else FlaggedIds(p, gs[..|gs| - 1])
         + (if Flag(p, gs[|gs| - 1]) == Some(1) then [TmdbGenreId(gs[|gs| - 1])] else [])
  }

  lemma {:induction false} FlaggedIdsMembers(p: Prefs, gs: seq<Genre>, x: int)
    ensures x in FlaggedIds(p, gs) <==>
            exists k :: 0 <= k < |gs| && Flag(p, gs[k]) == Some(1) && TmdbGenreId(gs[k]) == x
  {
    if gs != [] {
      var init := gs[..|gs| - 1];
      FlaggedIdsMembers(p, init, x);
      if x in FlaggedIds(p, init) {
        var k :| 0 <= k < |init| && Flag(p, init[k]) == Some(1) && TmdbGenreId(init[k]) == x;
        assert gs[k] == init[k];
      }
      if exists k :: 0 <= k < |gs| && Flag(p, gs[k]) == Some(1) && TmdbGenreId(gs[k]) == x {
        var k :| 0 <= k < |gs| && Flag(p, gs[k]) == Some(1) && TmdbGenreId(gs[k]) == x;
        if k < |gs| - 1 {
          assert init[k] == gs[k];
        }
      }
    }
  }

  // ---------------------------------------------------------------------
  // First occurrences
  // ---------------------------------------------------------------------

  /** The keys of a list. */
  function KeysOf<T>(xs: seq<T>, key: T -> int): set<int>
  {
    set i | 0 <= i < |xs| :: key(xs[i])
  }

  predicate KeyDistinct<T>(xs: seq<T>, key: T -> int)
  {
    forall i, j :: 0 <= i < j < |xs| ==> key(xs[i]) != key(xs[j])
  }

  /** The first element for every key not yet in `seen`, in list order. */
  function Unique<T>(xs: seq<T>, key: T -> int, seen: set<int>): (r: seq<T>)
    ensures forall i :: 0 <= i < |r| ==> r[i] in xs && key(r[i]) !in seen
    ensures KeyDistinct(r, key)
    ensures KeysOf(r, key) == KeysOf(xs, key) - seen
  {
    if xs == [] then []
    else
      var k := key(xs[0]);
      var rest := Unique(xs[1..], key, seen + {k});
      assert xs == [xs[0]] + xs[1..];
      KeysOfCons(xs[0], xs[1..], key);
      if k in seen then
        rest
      else
        var r := [xs[0]] + rest;
        KeysOfCons(xs[0], rest, key);
        r
  }

  /** The keys of a list with one more element in front. */
  lemma KeysOfCons<T>(x: T, xs: seq<T>, key: T -> int)
    ensures KeysOf([x] + xs, key) == {key(x)} + KeysOf(xs, key)
  {
    var r := [x] + xs;
    forall y | y in KeysOf(r, key) ensures y in {key(x)} + KeysOf(xs, key) {
      var i :| 0 <= i < |r| && key(r[i]) == y;
      if i > 0 {
        assert r[i] == xs[i - 1];
      }
    }
    forall y | y in KeysOf(xs, key) ensures y in KeysOf(r, key) {
      var i :| 0 <= i < |xs| && key(xs[i]) == y;
      assert r[i + 1] == xs[i];
    }
    assert r[0] == x;
  }

  /** A list whose keys are distinct and unseen is its own first
      occurrences. */
  lemma {:induction false} UniqueOfDistinct<T>(xs: seq<T>, key: T -> int, seen: set<int>)
    requires KeyDistinct(xs, key)
    requires forall i :: 0 <= i < |xs| ==> key(xs[i]) !in seen
    ensures Unique(xs, key, seen) == xs
  {
    if xs != [] {
      var k := key(xs[0]);
      forall i | 0 <= i < |xs[1..]| ensures key(xs[1..][i]) !in seen + {k} {
        assert xs[1..][i] == xs[i + 1];
      }
      UniqueOfDistinct(xs[1..], key, seen + {k});
    }
  }

  function TmdbKey(): Candidate -> int
  {
    (m: Candidate) => m.tmdbId
  }

  function IdKey(): int -> int
  {
    (g: int) => g
  }

  /** `removeDuplicates`: one pass with a mutable `seen` set. */
  method RemoveDuplicates(movies: seq<Candidate>) returns (r: seq<Candidate>)
    ensures r == Unique(movies, TmdbKey(), {})
  {
    var seen: set<int> := {};
    r := [];
    for i := 0 to |movies|
      invariant r + Unique(movies[i..], TmdbKey(), seen) == Unique(movies, TmdbKey(), {})
    {
      var m := movies[i];
      assert movies[i..][1..] == movies[i + 1..];
      if m.tmdbId in seen {
        assert seen + {m.tmdbId} == seen;
        continue;
      }
      seen := seen + {m.tmdbId};
      r := r + [m];
    }
  }

  /** Removing duplicates twice removes nothing more. */
  lemma RemoveDuplicatesIdempotent(movies: seq<Candidate>)
    ensures Unique(Unique(movies, TmdbKey(), {}), TmdbKey(), {}) == Unique(movies, TmdbKey(), {})
  {
    UniqueOfDistinct(Unique(movies, TmdbKey(), {}), TmdbKey(), {});
  }

  /** `getPreferredGenresFromPreferences`: the ids of the flags that are
      exactly 1, in the flags' order, each id once; anime and animation
      both yield 16, which is listed once. */
  method PreferredGenres(p: Prefs) returns (r: seq<int>)
    ensures r == Unique(FlaggedIds(p, AllGenres), IdKey(), {})
    ensures NoRepeats(r)
    ensures forall x :: x in r <==>
              exists k :: 0 <= k < |AllGenres| && Flag(p, AllGenres[k]) == Some(1) && TmdbGenreId(AllGenres[k]) == x
  {
    var preferred := CollectFlagged(p);
    r := Unique(preferred, IdKey(), {});
    forall x ensures x in r <==>
        exists k :: 0 <= k < |AllGenres| && Flag(p, AllGenres[k]) == Some(1) && TmdbGenreId(AllGenres[k]) == x {
      UniqueIdsMembers(preferred, x);
      FlaggedIdsMembers(p, AllGenres, x);
    }
  }

  /** The loop of `getPreferredGenresFromPreferences` that collects the ids
      of the flags set to 1. */
  method CollectFlagged(p: Prefs) returns (preferred: seq<int>)
    ensures preferred == FlaggedIds(p, AllGenres)
  {
    preferred := [];
    for k := 0 to |AllGenres|
      invariant preferred == FlaggedIds(p, AllGenres[..k])
    {
      assert AllGenres[..k + 1][..k] == AllGenres[..k];
      if Flag(p, AllGenres[k]) == Some(1) {
        preferred := preferred + [TmdbGenreId(AllGenres[k])];
      }
    }
    assert AllGenres[..|AllGenres|] == AllGenres;
  }

  /** Removing repeated ids keeps every id that occurs. */
  lemma UniqueIdsMembers(xs: seq<int>, x: int)
    ensures x in Unique(xs, IdKey(), {}) <==> x in xs
  {
    var r := Unique(xs, IdKey(), {});
    assert x in r <==> x in KeysOf(r, IdKey());
    assert x in xs <==> x in KeysOf(xs, IdKey());
  }

  // ---------------------------------------------------------------------
  // User filters
  // ---------------------------------------------------------------------

  const BadGenres: seq<int> := [27, 53, 80]
  const FamilyGenres: seq<int> := [16, 35, 10751, 14, 12, 28, 99]

  /** Some id of `ids` is listed in `group`. */
  predicate AnyIn(ids: seq<int>, group: seq<int>)
  {
    exists i :: 0 <= i < |ids| && ids[i] in group
  }

  /** The child-mode test: not adult, no horror, thriller or crime, a
      truthy vote count of at least 50, a truthy average of at least 5.5,
      and at least one family genre when the list is non-empty. */
  predicate ChildSafe(m: Candidate)
  {
    && !m.adult
    && !(m.genreIds.Some? && AnyIn(m.genreIds.value, BadGenres))
    && !(IntTruthy(m.voteCount) && m.voteCount.value < 50)
    && !(RealTruthy(m.voteAverage) && m.voteAverage.value < 5.5)
    && !(m.genreIds.Some? && |m.genreIds.value| > 0 && !AnyIn(m.genreIds.value, FamilyGenres))
  }

  function Unseen(interacted: set<int>): Candidate -> bool
  {
    (m: Candidate) => m.tmdbId !in interacted
  }

  function Safe(): Candidate -> bool
  {
    (m: Candidate) => ChildSafe(m)
  }

  /** `child_mode === 1` on an existing row. */
  predicate ChildModeOn(prefs: Option<Prefs>)
  {
    prefs.Some? && SwitchValue(prefs.value, ChildMode) == Some(1)
  }

  /** `applyUserFilters`: drops every movie the user interacted with, like
      or dislike, and in child mode every movie that is not child-safe;
      the survivors keep their order. */
  function ApplyUserFilters(interacted: set<int>, prefs: Option<Prefs>, movies: seq<Candidate>): (r: seq<Candidate>)
    ensures forall i :: 0 <= i < |r| ==>
              r[i] in movies && r[i].tmdbId !in interacted && (ChildModeOn(prefs) ==> ChildSafe(r[i]))
    ensures forall i :: 0 <= i < |movies| ==>
              (movies[i].tmdbId !in interacted && (ChildModeOn(prefs) ==> ChildSafe(movies[i])) ==> movies[i] in r)
  {
    var unseen := Where(movies, Unseen(interacted));
    if ChildModeOn(prefs) then Where(unseen, Safe()) else unseen
  }

  /** Filtering never brings back a key twice. */
  lemma {:induction false} WhereKeyDistinct<T>(rows: seq<T>, p: T -> bool, key: T -> int)
    requires KeyDistinct(rows, key)
    ensures KeyDistinct(Where(rows, p), key)
  {
    if rows != [] {
      WhereKeyDistinct(rows[1..], p, key);
      var rest := Where(rows[1..], p);
      if p(rows[0]) {
        forall i | 0 <= i < |rest| ensures key(rest[i]) != key(rows[0]) {
          assert rest[i] in rows[1..];
          var j :| 0 <= j < |rows[1..]| && rows[1..][j] == rest[i];
          assert rows[j + 1] == rest[i];
        }
        KeyDistinctCons(rows[0], rest, key);
      }
    }
  }

  /** A key not among a distinct list's keys can be put in front. */
  lemma KeyDistinctCons<T>(x: T, xs: seq<T>, key: T -> int)
    requires KeyDistinct(xs, key)
    requires forall i :: 0 <= i < |xs| ==> key(xs[i]) != key(x)
    ensures KeyDistinct([x] + xs, key)
  {
    var r := [x] + xs;
    forall i, j | 0 <= i < j < |r| ensures key(r[i]) != key(r[j]) {
      assert r[j] == xs[j - 1];
      if i > 0 {
        assert r[i] == xs[i - 1];
      }
    }
  }

  lemma ApplyUserFiltersKeyDistinct(interacted: set<int>, prefs: Option<Prefs>, movies: seq<Candidate>)
    requires KeyDistinct(movies, TmdbKey())
    ensures KeyDistinct(ApplyUserFilters(interacted, prefs, movies), TmdbKey())
  {
    WhereKeyDistinct(movies, Unseen(interacted), TmdbKey());
    WhereKeyDistinct(Where(movies, Unseen(interacted)), Safe(), TmdbKey());
  }

  // ---------------------------------------------------------------------
  // Ranking
  // ---------------------------------------------------------------------

  /** `(m.userScore || 0)`. */
  function ScoreOf(m: Candidate): int
  {
    if m.userScore.Some? then m.userScore.value else 0
  }

  predicate SortedByScore(xs: seq<Candidate>)
  {
    forall i, j :: 0 <= i < j < |xs| ==> ScoreOf(xs[i]) >= ScoreOf(xs[j])
  }

  /** Places `x` before the first element that does not score higher. */
  function InsertByScore(x: Candidate, r: seq<Candidate>): (s: seq<Candidate>)
    requires SortedByScore(r)
    ensures SortedByScore(s) && multiset(s) == multiset(r) + multiset{x}
  {
    if r == [] then [x]
    else if ScoreOf(r[0]) <= ScoreOf(x) then
      InsertAtHead(x, r);
      [x] + r
    else
      var rest := InsertByScore(x, r[1..]);
      InsertBelowHead(x, r, rest);
      [r[0]] + rest
  }

  lemma InsertAtHead(x: Candidate, r: seq<Candidate>)
    requires SortedByScore(r) && r != [] && ScoreOf(r[0]) <= ScoreOf(x)
    ensures SortedByScore([x] + r)
  {
    forall y | y in r ensures ScoreOf(x) >= ScoreOf(y) {
      var j :| 0 <= j < |r| && r[j] == y;
      if j > 0 {
        assert ScoreOf(r[0]) >= ScoreOf(r[j]);
      }
    }
    ConsSorted(x, r);
  }

  lemma InsertBelowHead(x: Candidate, r: seq<Candidate>, rest: seq<Candidate>)
    requires SortedByScore(r) && r != [] && ScoreOf(r[0]) > ScoreOf(x)
    requires SortedByScore(rest) && multiset(rest) == multiset(r[1..]) + multiset{x}
    ensures SortedByScore([r[0]] + rest)
    ensures multiset([r[0]] + rest) == multiset(r) + multiset{x}
  {
    assert r == [r[0]] + r[1..];
    forall y | y in rest ensures ScoreOf(r[0]) >= ScoreOf(y) {
      assert y in multiset(rest);
      if y != x {
        assert y in multiset(r[1..]);
        var j :| 0 <= j < |r[1..]| && r[1..][j] == y;
        assert r[j + 1] == y;
      }
    }
    ConsSorted(r[0], rest);
  }

  /** A head scoring at least as much as a sorted tail keeps it sorted. */
  lemma ConsSorted(a: Candidate, rest: seq<Candidate>)
    requires SortedByScore(rest) && forall y :: y in rest ==> ScoreOf(a) >= ScoreOf(y)
    ensures SortedByScore([a] + rest)
  {
    forall i, j | 0 <= i < j < |[a] + rest|
      ensures ScoreOf(([a] + rest)[i]) >= ScoreOf(([a] + rest)[j])
    {
      assert ([a] + rest)[j] == rest[j - 1];
      if i > 0 {
        assert ([a] + rest)[i] == rest[i - 1];
      } else {
        assert rest[j - 1] in rest;
      }
    }
  }

  /** The descending sort of `generateRecommendations`: a permutation
      ordered by score, ties kept in list order. */
  function SortByScore(xs: seq<Candidate>): (r: seq<Candidate>)
    ensures SortedByScore(r) && multiset(r) == multiset(xs)
  {
    if xs == [] then []
    else
      assert xs == [xs[0]] + xs[1..];
      InsertByScore(xs[0], SortByScore(xs[1..]))
  }

  /** Inserting a movie with a new key keeps the keys distinct. */
  lemma {:induction false} InsertByScoreKeys(x: Candidate, r: seq<Candidate>)
    requires SortedByScore(r) && KeyDistinct(r, TmdbKey())
    requires forall i :: 0 <= i < |r| ==> r[i].tmdbId != x.tmdbId
    ensures KeyDistinct(InsertByScore(x, r), TmdbKey())
  {
    if r != [] && ScoreOf(r[0]) > ScoreOf(x) {
      InsertByScoreKeys(x, r[1..]);
      var rest := InsertByScore(x, r[1..]);
      assert r == [r[0]] + r[1..];
      forall y | y in rest ensures y.tmdbId != r[0].tmdbId {
        assert y in multiset(rest);
        if y != x {
          assert y in r[1..];
        }
      }
    }
  }

  /** Sorting a list with distinct keys keeps them distinct. */
  lemma {:induction false} SortByScoreKeys(xs: seq<Candidate>)
    requires KeyDistinct(xs, TmdbKey())
    ensures KeyDistinct(SortByScore(xs), TmdbKey())
  {
    if xs != [] {
      SortByScoreKeys(xs[1..]);
      var rest := SortByScore(xs[1..]);
      forall i | 0 <= i < |rest| ensures rest[i].tmdbId != xs[0].tmdbId {
        assert rest[i] in multiset(xs[1..]);
      }
      InsertByScoreKeys(xs[0], rest);
    }
  }

  // ---------------------------------------------------------------------
  // Composition
  // ---------------------------------------------------------------------

  /** The query flag: only the literal string 'true' excludes; the default
      (the boolean true) does not. */
  function ExcludeWatched(query: JsValue): bool
  {
    query == Str("true")
  }

  lemma ExcludeWatchedDefault()
    ensures !ExcludeWatched(Bool(true)) && ExcludeWatched(Str("true")) && !ExcludeWatched(Undefined)
  {
  }

  /** The candidates fetched for one request: the preference, popular and
      discovery fetches are `None` when they throw; failed taste fetches
      are already left out of `taste`. */
  datatype Pools = Pools(
    preference: Option<seq<Candidate>>,
    taste: seq<Candidate>,
    popular: Option<seq<Candidate>>,
    discovery: Option<seq<Candidate>>)

  /** `getDiscoveryRecommendationsInternal` fetches only when some genre
      is left to discover. */
  predicate Discovers(p: Profile)
  {
    DiscoveryGenres(p.topGenres) != []
  }

  /** A fetch that throws outside the taste loop. */
  predicate Fails(p: Profile, pools: Pools)
  {
    (p.hasPreferences && pools.preference.None?)
    || pools.popular.None?
    || (Discovers(p) && pools.discovery.None?)
  }

  /** The pools cut to their shares of `limit`: 40, 35, 20 and 5 percent,
      rounded up; a pool that is not consulted contributes nothing. */
  function Pooled(p: Profile, pools: Pools, limit: int): seq<Candidate>
    requires !Fails(p, pools)
  {
    (if p.hasPreferences then Share(pools.preference.value, limit, 40) else [])
    + (if p.likedCount > 0 then Share(pools.taste, limit, 35) else [])
    + Share(pools.popular.value, limit, 20)
    + (if Discovers(p) then Share(pools.discovery.value, limit, 5) else [])
  }

  /** `pool.slice(0, Math.ceil(limit * pct / 100))`. */
  function Share(pool: seq<Candidate>, limit: int, pct: nat): seq<Candidate>
  {
    SliceTo(pool, CeilPercent(limit, pct))
  }

  lemma SliceToAtMost<T>(xs: seq<T>, n: int)
    requires n >= 0
    ensures |SliceTo(xs, n)| <= n
  {
  }

  /** No pool contributes more than its share. */
  lemma PooledShares(p: Profile, pools: Pools, limit: nat)
    requires !Fails(p, pools)
    ensures |Pooled(p, pools, limit)| <=
            CeilPercent(limit, 40) + CeilPercent(limit, 35) + CeilPercent(limit, 20) + CeilPercent(limit, 5)
  {
    var a, b, c, d := CeilPercent(limit, 40), CeilPercent(limit, 35), CeilPercent(limit, 20), CeilPercent(limit, 5);
    assert a >= 0 && b >= 0 && c >= 0 && d >= 0;
    SliceToAtMost(pools.taste, b);
    SliceToAtMost(pools.popular.value, c);
    if p.hasPreferences {
      SliceToAtMost(pools.preference.value, a);
    }
    if Discovers(p) {
      SliceToAtMost(pools.discovery.value, d);
    }
  }

  /** The four `push` calls of `generateRecommendations`. */
  method CollectPools(p: Profile, pools: Pools, limit: int) returns (all: seq<Candidate>)
    requires !Fails(p, pools)
    ensures all == Pooled(p, pools, limit)
  {
    all := [];
    if p.hasPreferences {
      all := all + Share(pools.preference.value, limit, 40);
    }
    if p.likedCount > 0 {
      all := all + Share(pools.taste, limit, 35);
    }
    all := all + Share(pools.popular.value, limit, 20);
    if Discovers(p) {
      all := all + Share(pools.discovery.value, limit, 5);
    }
  }



  /** The first occurrence of every movie, then the user filters when
      `excludeWatched`. */
  function Filtered(all: seq<Candidate>, excludeWatched: bool, interacted: set<int>, prefs: Option<Prefs>): seq<Candidate>
  {
    var unique := Unique(all, TmdbKey(), {});
    if excludeWatched then ApplyUserFilters(interacted, prefs, unique) else unique
  }

  /** Every movie with its score. */
  function ScoredAll(p: Profile, xs: seq<Candidate>): (ys: seq<Candidate>)
    ensures |ys| == |xs| && forall i :: 0 <= i < |xs| ==> ys[i] == Scored(p, xs[i])
  {
    seq(|xs|, i requires 0 <= i < |xs| => Scored(p, xs[i]))
  }

  /** Scored, sorted by descending score and cut to `limit`. */
  function Ranking(p: Profile, filtered: seq<Candidate>, limit: int): seq<Candidate>
  {
    SliceTo(SortByScore(ScoredAll(p, filtered)), limit)
  }

  /** The ranking keeps the `limit` best: as many movies as the limit
      allows, and no movie left out scores above one that is kept. */
  lemma RankingKeepsBest(p: Profile, filtered: seq<Candidate>, limit: int)
    requires limit >= 0
    ensures |Ranking(p, filtered, limit)| == if limit < |filtered| then limit else |filtered|
    ensures forall x, i :: x in ScoredAll(p, filtered) && x !in Ranking(p, filtered, limit) &&
                           0 <= i < |Ranking(p, filtered, limit)| ==>
              ScoreOf(x) <= ScoreOf(Ranking(p, filtered, limit)[i])
  {
    var sorted := SortByScore(ScoredAll(p, filtered));
    var r := Ranking(p, filtered, limit);
    forall x, i | x in ScoredAll(p, filtered) && x !in r && 0 <= i < |r|
      ensures ScoreOf(x) <= ScoreOf(r[i])
    {
      assert x in multiset(sorted);
      var j :| 0 <= j < |sorted| && sorted[j] == x;
      assert r[i] == sorted[i];
    }
  }

  /** Deduplication, then the user filters when `excludeWatched`. */
  method Deduplicate(all: seq<Candidate>, excludeWatched: bool, interacted: set<int>, prefs: Option<Prefs>)
    returns (filtered: seq<Candidate>)
    ensures filtered == Filtered(all, excludeWatched, interacted, prefs)
    ensures KeyDistinct(filtered, TmdbKey())
    ensures forall i :: 0 <= i < |filtered| ==> filtered[i] in all
    ensures excludeWatched ==> forall i :: 0 <= i < |filtered| ==>
              filtered[i].tmdbId !in interacted && (ChildModeOn(prefs) ==> ChildSafe(filtered[i]))
  {
    var unique := RemoveDuplicates(all);
    filtered := unique;
    if excludeWatched {
      filtered := ApplyUserFilters(interacted, prefs, unique);
      ApplyUserFiltersKeyDistinct(interacted, prefs, unique);
    }
  }

  /** Every movie of `xs` is a scored copy of a movie of `pool`. */
  predicate DrawnFrom(p: Profile, pool: seq<Candidate>, xs: seq<Candidate>)
  {
    forall i :: 0 <= i < |xs| ==> exists m :: m in pool && xs[i] == Scored(p, m)
  }

  /** The steps after the pools: duplicates removed, optionally filtered,
      scored, sorted by score and cut to `limit`. */
  method RankCandidates(p: Profile, all: seq<Candidate>, limit: int, excludeWatched: bool,
                        interacted: set<int>, prefs: Option<Prefs>)
    returns (r: seq<Candidate>)
    ensures r == Ranking(p, Filtered(all, excludeWatched, interacted, prefs), limit)
    ensures limit >= 0 ==> |r| <= limit
    ensures SortedByScore(r)
    ensures KeyDistinct(r, TmdbKey())
    ensures DrawnFrom(p, all, r)
    ensures excludeWatched ==> forall i :: 0 <= i < |r| ==>
              r[i].tmdbId !in interacted && (ChildModeOn(prefs) ==> ChildSafe(r[i]))
  {
    var filtered := Deduplicate(all, excludeWatched, interacted, prefs);
    var scored := new Candidate[|filtered|](i requires 0 <= i < |filtered| => filtered[i]);
    ScoreMovies(p, scored);
    var list := scored[..];
    assert list == ScoredAll(p, filtered);
    r := SliceTo(SortByScore(list), limit);
    RankedOrder(p, filtered, list, limit, r);
    RankedOrigin(p, all, filtered, list, limit, r, excludeWatched, interacted, prefs);
  }

  /** The ranked list is ordered by score, within the limit, and keeps the
      keys distinct. */
  lemma RankedOrder(p: Profile, filtered: seq<Candidate>, list: seq<Candidate>, limit: int, r: seq<Candidate>)
    requires |list| == |filtered|
    requires forall k :: 0 <= k < |list| ==> list[k] == Scored(p, filtered[k])
    requires KeyDistinct(filtered, TmdbKey())
    requires r == SliceTo(SortByScore(list), limit)
    ensures limit >= 0 ==> |r| <= limit
    ensures SortedByScore(r)
    ensures KeyDistinct(r, TmdbKey())
  {
    ScoredKeys(p, filtered, list);
    SortByScoreKeys(list);
  }

  /** Every ranked movie is a scored pool movie that passed the filters. */
  lemma RankedOrigin(p: Profile, all: seq<Candidate>, filtered: seq<Candidate>, list: seq<Candidate>,
                     limit: int, r: seq<Candidate>, excludeWatched: bool, interacted: set<int>, prefs: Option<Prefs>)
    requires |list| == |filtered|
    requires forall k :: 0 <= k < |list| ==> list[k] == Scored(p, filtered[k])
    requires forall i :: 0 <= i < |filtered| ==> filtered[i] in all
    requires excludeWatched ==> forall i :: 0 <= i < |filtered| ==>
               filtered[i].tmdbId !in interacted && (ChildModeOn(prefs) ==> ChildSafe(filtered[i]))
    requires r == SliceTo(SortByScore(list), limit)
    ensures DrawnFrom(p, all, r)
    ensures excludeWatched ==> forall i :: 0 <= i < |r| ==>
              r[i].tmdbId !in interacted && (ChildModeOn(prefs) ==> ChildSafe(r[i]))
  {
    var sorted := SortByScore(list);
    forall i | 0 <= i < |r|
      ensures exists m :: m in all && r[i] == Scored(p, m)
      ensures excludeWatched ==> r[i].tmdbId !in interacted && (ChildModeOn(prefs) ==> ChildSafe(r[i]))
    {
      assert r[i] == sorted[i];
      assert r[i] in multiset(list);
      RankedEntry(p, all, filtered, list, r[i], excludeWatched, interacted, prefs);
    }
  }

  /** A scored copy of a deduplicated, filtered movie comes from the pool
      and keeps the filters' guarantees. */
  lemma RankedEntry(p: Profile, all: seq<Candidate>, filtered: seq<Candidate>, list: seq<Candidate>,
                    x: Candidate, excludeWatched: bool, interacted: set<int>, prefs: Option<Prefs>)
    requires |list| == |filtered|
    requires forall k :: 0 <= k < |list| ==> list[k] == Scored(p, filtered[k])
    requires forall i :: 0 <= i < |filtered| ==> filtered[i] in all
    requires excludeWatched ==> forall i :: 0 <= i < |filtered| ==>
               filtered[i].tmdbId !in interacted && (ChildModeOn(prefs) ==> ChildSafe(filtered[i]))
    requires x in multiset(list)
    ensures exists m :: m in all && x == Scored(p, m)
    ensures excludeWatched ==> x.tmdbId !in interacted && (ChildModeOn(prefs) ==> ChildSafe(x))
  {
    assert x in list;
    var k :| 0 <= k < |list| && list[k] == x;
    assert filtered[k] in all;
    if excludeWatched {
      ScoredChildSafe(p, filtered[k]);
    }
  }

  /** `generateRecommendations`: a failing fetch yields the empty list;
      otherwise the pooled candidates, ranked. */
  method GenerateRecommendations(p: Profile, pools: Pools, limit: int, excludeWatched: bool,
                                 interacted: set<int>, prefs: Option<Prefs>)
    returns (r: seq<Candidate>)
    ensures Fails(p, pools) ==> r == []
    ensures !Fails(p, pools) ==>
              r == Ranking(p, Filtered(Pooled(p, pools, limit), excludeWatched, interacted, prefs), limit)
    ensures limit >= 0 ==> |r| <= limit
    ensures SortedByScore(r)
    ensures KeyDistinct(r, TmdbKey())
    ensures !Fails(p, pools) ==> DrawnFrom(p, Pooled(p, pools, limit), r)
    ensures excludeWatched ==> forall i :: 0 <= i < |r| ==>
              r[i].tmdbId !in interacted && (ChildModeOn(prefs) ==> ChildSafe(r[i]))
  {
    if Fails(p, pools) {
      return [];
    }
    var all := CollectPools(p, pools, limit);
    r := RankCandidates(p, all, limit, excludeWatched, interacted, prefs);
  }

  // ---------------------------------------------------------------------
  // The child filter as written
  // ---------------------------------------------------------------------

  /** The outcome of a filter callback that may throw. */
  datatype Filtering = Kept(movies: seq<Candidate>) | Threw

  /** The child-mode filter as the controller runs it. A movie whose record
      carries the `JSON.stringify` text of its genre ids (`genreIds` is
      `Some`) and is not adult reaches `genre_ids.some(...)`, which a string
      does not have, and the TypeError ends the filter. An adult movie is
      dropped first. Movies without the text, such as those loaded through a
      Movie schema that declares no `genre_ids` column, get the remaining
      checks. */
  function ChildFilterAsWritten(movies: seq<Candidate>): (r: Filtering)
    ensures r.Threw? <==> exists i :: 0 <= i < |movies| && !movies[i].adult && movies[i].genreIds.Some?
    ensures r.Kept? ==> forall i :: 0 <= i < |r.movies| ==>
              r.movies[i] in movies && r.movies[i].genreIds.None? && ChildSafe(r.movies[i])
  {
    if movies == [] then Kept([])
    else
      var m := movies[0];
      var rest := ChildFilterAsWritten(movies[1..]);
      assert forall i :: 1 <= i < |movies| ==> movies[i] == movies[1..][i - 1];
      if m.adult then rest
      else if m.genreIds.Some? then Threw
      else
        match rest
        case Threw => Threw
        case Kept(ks) => Kept((if ChildSafe(m) then [m] else []) + ks)
  }

  /** `generateRecommendations` with the child filter as written; a throw
      anywhere is caught and answered with the empty list. */
  function GenerateAsWritten(p: Profile, pools: Pools, limit: int, excludeWatched: bool,
                             interacted: set<int>, prefs: Option<Prefs>): seq<Candidate>
  {
    if Fails(p, pools) then []
    else
      var unique := Unique(Pooled(p, pools, limit), TmdbKey(), {});
      if !excludeWatched then Ranking(p, unique, limit)
      else
        var unseen := Where(unique, Unseen(interacted));
        if !ChildModeOn(prefs) then Ranking(p, unseen, limit)
        else
          match ChildFilterAsWritten(unseen)
          case Threw => []
          case Kept(kept) => Ranking(p, kept, limit)
  }

  /** As written, child mode recommends nothing when every pooled movie
      carries its genre text: the filter either throws or keeps no movie. */
  lemma ChildModeAsWrittenIsEmpty(p: Profile, pools: Pools, limit: int, interacted: set<int>, prefs: Option<Prefs>)
    requires !Fails(p, pools) && ChildModeOn(prefs)
    requires forall m :: m in Pooled(p, pools, limit) ==> m.genreIds.Some?
    ensures GenerateAsWritten(p, pools, limit, true, interacted, prefs) == []
  {
    var unique := Unique(Pooled(p, pools, limit), TmdbKey(), {});
    var unseen := Where(unique, Unseen(interacted));
    match ChildFilterAsWritten(unseen)
    case Threw =>
    case Kept(kept) =>
      forall i | 0 <= i < |unseen| ensures unseen[i].genreIds.Some? {
        var j :| 0 <= j < |unique| && unique[j] == unseen[i];
      }
      TaggedFilterKeepsNothing(unseen);
      assert ScoredAll(p, kept) == [];
  }

  /** When every movie carries its genre text, the filter as written keeps
      none of them, whether or not it throws. */
  lemma {:induction false} TaggedFilterKeepsNothing(movies: seq<Candidate>)
    requires forall i :: 0 <= i < |movies| ==> movies[i].genreIds.Some?
    ensures ChildFilterAsWritten(movies) in {Threw, Kept([])}
  {
    if movies != [] {
      assert forall i :: 0 <= i < |movies[1..]| ==> movies[1..][i] == movies[i + 1];
      TaggedFilterKeepsNothing(movies[1..]);
    }
  }

  /** A child-safe movie the intended filter keeps makes the filter as
      written throw. */
  lemma ChildSafeMovieThrows()
    ensures var m := Candidate(1, Some(7.0), Some(100), None, Some([16]), None, false, None);
            ChildSafe(m) && Where([m], Safe()) == [m] && ChildFilterAsWritten([m]) == Threw
  {
    var m := Candidate(1, Some(7.0), Some(100), None, Some([16]), None, false, None);
    assert AnyIn([16], FamilyGenres) by {
      assert [16][0] in FamilyGenres;
    }
    assert !AnyIn([16], BadGenres);
  }

  /** Scoring keeps every key in its place. */
  lemma ScoredKeys(p: Profile, xs: seq<Candidate>, ys: seq<Candidate>)
    requires |ys| == |xs| && forall i :: 0 <= i < |xs| ==> ys[i] == Scored(p, xs[i])
    requires KeyDistinct(xs, TmdbKey())
    ensures KeyDistinct(ys, TmdbKey())
  {
  }

  /** Scoring does not change whether a movie is child-safe. */
  lemma ScoredChildSafe(p: Profile, m: Candidate)
    ensures ChildSafe(Scored(p, m)) == ChildSafe(m)
  {
  }
}
