/**
 * The read side of the watchlist controller: normalisation of the listing's
 * sort options, and the statistics loop over a user's watchlisted movies
 * (added-this-week/month counters, rating and runtime averages, decade and
 * genre tallies).
 */
module WatchlistStats {
  import opened JsValues
  import opened TableRows
  import opened TmdbGenres

  // ---------------------------------------------------------------------
  // Sort normalisation
  // ---------------------------------------------------------------------

  const SortFields: seq<string> := ["added_date", "title", "release_date", "vote_average"]
  const SortOrders: seq<string> := ["ASC", "DESC"]

  /** The `(orderField, orderDirection)` pair derived from the query. */
  function NormaliseSort(sortBy: string, sortOrder: string): (r: (string, string))
    ensures r.0 in SortFields && r.1 in SortOrders
    ensures sortBy in SortFields ==> r.0 == sortBy
    ensures sortBy !in SortFields ==> r.0 == "added_date"
    ensures Upper(sortOrder) in SortOrders ==> r.1 == Upper(sortOrder)
    ensures Upper(sortOrder) !in SortOrders ==> r.1 == "DESC"
  {
    (if sortBy in SortFields then sortBy else "added_date",
     if Upper(sortOrder) in SortOrders then Upper(sortOrder) else "DESC")
  }

  /** Normalising an already normalised pair changes nothing, and the sort
      order is case-insensitive. */
  lemma NormaliseSortIdempotent(sortBy: string, sortOrder: string)
    ensures var r := NormaliseSort(sortBy, sortOrder);
            NormaliseSort(r.0, r.1) == r
    ensures NormaliseSort(sortBy, "asc") == NormaliseSort(sortBy, "ASC")
  {
    var r := NormaliseSort(sortBy, sortOrder);
    assert Upper("ASC") == "ASC";
    assert Upper("DESC") == "DESC";
    assert Upper("asc") == "ASC";
  }

  // ---------------------------------------------------------------------
  // Statistics
  // ---------------------------------------------------------------------

  /** A watchlist row joined with the movie fields the statistics read.
      `genreIds` is `None` when the stored JSON is missing or does not parse
      to an array. */
  datatype WatchedMovie = WatchedMovie(addedAt: int, voteAverage: Option<real>, runtime: Option<int>,
                                       releaseYear: Option<int>, genreIds: Option<seq<int>>)

  datatype WatchStats = WatchStats(totalMovies: nat, genres: map<string, nat>, averageRating: real,
                                   averageRuntime: int, decades: map<int, nat>,
                                   addedThisWeek: nat, addedThisMonth: nat)

  /** `Math.floor(year / 10) * 10` (Dafny's `/` floors for a positive divisor). */
  function Decade(year: int): (d: int)
    ensures d <= year < d + 10 && d % 10 == 0
  {
    (year / 10) * 10
  }

  /** How many times each key occurs, built like `(m[k] || 0) + 1` left to right. */
  function Tally<K>(ks: seq<K>): map<K, nat>
  {
    if ks == [] then map[]
    else
      var m := Tally(ks[..|ks| - 1]);
      var k := ks[|ks| - 1];
      m[k := (if k in m then m[k] else 0) + 1]
  }

  lemma TallySnoc<K>(ks: seq<K>, k: K)
    ensures Tally(ks + [k]) == Tally(ks)[k := (if k in Tally(ks) then Tally(ks)[k] else 0) + 1]
  {
    assert (ks + [k])[..|ks|] == ks;
  }

  /** A tally holds exactly the keys that occur, each with its number of occurrences. */
  lemma {:induction false} TallyIsMultiset<K>(ks: seq<K>, k: K)
    ensures k in Tally(ks) <==> k in ks
    ensures k in Tally(ks) ==> Tally(ks)[k] == multiset(ks)[k]
  {
    if ks != [] {
      var init := ks[..|ks| - 1];
      TallyIsMultiset(init, k);
      assert ks == init + [ks[|ks| - 1]];
    }
  }

  predicate Dated(m: WatchedMovie) { m.releaseYear.Some? }
  predicate Rated(m: WatchedMovie) { m.voteAverage.Some? && m.voteAverage.value > 0.0 }
  predicate Timed(m: WatchedMovie) { m.runtime.Some? && m.runtime.value > 0 }

  /** The decade of each dated movie, in watchlist order. */
  function Decades(items: seq<WatchedMovie>): (ds: seq<int>)
    ensures |ds| == Count(items, Dated)
  {
    if items == [] then []
    else
      var last := items[|items| - 1];
      CountAppend(items[..|items| - 1], last, Dated);
      assert items[..|items| - 1] + [last] == items;
      Decades(items[..|items| - 1]) + (if Dated(last) then [Decade(last.releaseYear.value)] else [])
  }

  /** The genre name of every genre id of every movie, in order. */
  function GenreNames(items: seq<WatchedMovie>): seq<string>
  {
    if items == [] then []
    else
      var last := items[|items| - 1];
      GenreNames(items[..|items| - 1]) + (if last.genreIds.Some? then NamesOf(last.genreIds.value) else [])
  }

  function NamesOf(ids: seq<int>): (r: seq<string>)
    ensures |r| == |ids| && forall i :: 0 <= i < |ids| ==> r[i] == GenreName(ids[i])
  {
    if ids == [] then [] else NamesOf(ids[..|ids| - 1]) + [GenreName(ids[|ids| - 1])]
  }

  function SumRuntime(items: seq<WatchedMovie>): int
  {
    if items == [] then 0
    else SumRuntime(items[..|items| - 1]) + (if Timed(items[|items| - 1]) then items[|items| - 1].runtime.value else 0)
  }

  function SumRating(items: seq<WatchedMovie>): real
  {
    if items == [] then 0.0
    else SumRating(items[..|items| - 1]) + (if Rated(items[|items| - 1]) then items[|items| - 1].voteAverage.value else 0.0)
  }

  function AddedSince(bound: int): WatchedMovie -> bool
  {
    (m: WatchedMovie) => m.addedAt >= bound
  }

  /** Fold `names` into a tally, one `(m[k] || 0) + 1` step each. */
  function TallyInto<K>(m: map<K, nat>, names: seq<K>): map<K, nat>
  {
    if names == [] then m
    else
      var m' := TallyInto(m, names[..|names| - 1]);
      var k := names[|names| - 1];
      m'[k := (if k in m' then m'[k] else 0) + 1]
  }

  lemma TallyIntoSnoc<K>(m: map<K, nat>, names: seq<K>, k: K)
    ensures TallyInto(m, names + [k])
            == TallyInto(m, names)[k := (if k in TallyInto(m, names) then TallyInto(m, names)[k] else 0) + 1]
  {
    assert (names + [k])[..|names|] == names;
  }

  /** Folding more names into a tally is tallying the longer sequence. */
  lemma {:induction false} TallyIntoTally<K>(ks: seq<K>, names: seq<K>)
    ensures TallyInto(Tally(ks), names) == Tally(ks + names)
  {
    if names != [] {
      var init := names[..|names| - 1];
      var k := names[|names| - 1];
      TallyIntoTally(ks, init);
      assert init + [k] == names;
      TallyIntoSnoc(Tally(ks), init, k);
      assert ks + names == (ks + init) + [k];
      TallySnoc(ks + init, k);
    } else {
      assert ks + names == ks;
    }
  }

  /** The counters the loop carries from one movie to the next. */
  datatype Acc = Acc(week: nat, month: nat, totalRating: real, withRating: nat,
                     totalRuntime: int, withRuntime: nat,
                     decades: map<int, nat>, genres: map<string, nat>)

  /** One pass of the loop body over movie `m`. */
  function Step(a: Acc, m: WatchedMovie, weekAgo: int, monthAgo: int): Acc
  {
    Acc(a.week + (if m.addedAt >= weekAgo then 1 else 0),
        a.month + (if m.addedAt >= monthAgo then 1 else 0),
        a.totalRating + (if Rated(m) then m.voteAverage.value else 0.0),
        a.withRating + (if Rated(m) then 1 else 0),
        a.totalRuntime + (if Timed(m) then m.runtime.value else 0),
        a.withRuntime + (if Timed(m) then 1 else 0),
        if Dated(m) then TallyInto(a.decades, [Decade(m.releaseYear.value)]) else a.decades,
        if m.genreIds.Some? then TallyInto(a.genres, NamesOf(m.genreIds.value)) else a.genres)
  }

  /** The counters after the loop has visited `items`. */
  function Accumulate(items: seq<WatchedMovie>, weekAgo: int, monthAgo: int): Acc
  {
    if items == [] then Acc(0, 0, 0.0, 0, 0, 0, map[], map[])
    else Step(Accumulate(items[..|items| - 1], weekAgo, monthAgo), items[|items| - 1], weekAgo, monthAgo)
  }

  /** What the counters mean: row counts, sums and tallies over the movies. */
  lemma AccumulateMeaning(items: seq<WatchedMovie>, weekAgo: int, monthAgo: int)
    ensures var a := Accumulate(items, weekAgo, monthAgo);
            && a.week == Count(items, AddedSince(weekAgo))
            && a.month == Count(items, AddedSince(monthAgo))
            && a.totalRating == SumRating(items) && a.withRating == Count(items, Rated)
            && a.totalRuntime == SumRuntime(items) && a.withRuntime == Count(items, Timed)
            && a.decades == Tally(Decades(items))
            && a.genres == Tally(GenreNames(items))
  {
    AccumulateCounts(items, weekAgo, monthAgo);
    AccumulateSums(items, weekAgo, monthAgo);
    AccumulateTallies(items, weekAgo, monthAgo);
  }

  lemma {:induction false} AccumulateCounts(items: seq<WatchedMovie>, weekAgo: int, monthAgo: int)
    ensures var a := Accumulate(items, weekAgo, monthAgo);
            && a.week == Count(items, AddedSince(weekAgo))
            && a.month == Count(items, AddedSince(monthAgo))
            && a.withRating == Count(items, Rated)
            && a.withRuntime == Count(items, Timed)
  {
    if items != [] {
      var init := items[..|items| - 1];
      var m := items[|items| - 1];
      AccumulateCounts(init, weekAgo, monthAgo);
      assert init + [m] == items;
      CountAppend(init, m, AddedSince(weekAgo));
      CountAppend(init, m, AddedSince(monthAgo));
      CountAppend(init, m, Rated);
      CountAppend(init, m, Timed);
    }
  }

  lemma {:induction false} AccumulateSums(items: seq<WatchedMovie>, weekAgo: int, monthAgo: int)
    ensures var a := Accumulate(items, weekAgo, monthAgo);
            a.totalRating == SumRating(items) && a.totalRuntime == SumRuntime(items)
  {
    if items != [] {
      AccumulateSums(items[..|items| - 1], weekAgo, monthAgo);
    }
  }

  lemma {:induction false} AccumulateTallies(items: seq<WatchedMovie>, weekAgo: int, monthAgo: int)
    ensures var a := Accumulate(items, weekAgo, monthAgo);
            a.decades == Tally(Decades(items)) && a.genres == Tally(GenreNames(items))
  {
    if items != [] {
      var init := items[..|items| - 1];
      var m := items[|items| - 1];
      var a, b := Accumulate(init, weekAgo, monthAgo), Accumulate(items, weekAgo, monthAgo);
      AccumulateTallies(init, weekAgo, monthAgo);
      assert b == Step(a, m, weekAgo, monthAgo);
      if Dated(m) {
        TallyIntoTally(Decades(init), [Decade(m.releaseYear.value)]);
      } else {
        assert Decades(items) == Decades(init) + [] == Decades(init);
      }
      if m.genreIds.Some? {
        TallyIntoTally(GenreNames(init), NamesOf(m.genreIds.value));
      } else {
        assert GenreNames(items) == GenreNames(init) + [] == GenreNames(init);
      }
    }
  }

  lemma NamesOfStep(ids: seq<int>, j: nat)
    requires j < |ids|
    ensures NamesOf(ids[..j + 1]) == NamesOf(ids[..j]) + [GenreName(ids[j])]
  {
    assert ids[..j + 1][..j] == ids[..j];
  }

  /** The inner `genres.forEach`: one tally step per genre id. */
  method TallyGenres(genres: map<string, nat>, ids: seq<int>) returns (g: map<string, nat>)
    ensures g == TallyInto(genres, NamesOf(ids))
  {
    g := genres;
    ghost var ns: seq<string> := [];
    var j := 0;
    while j < |ids|
      invariant 0 <= j <= |ids|
      invariant ns == NamesOf(ids[..j])
      invariant g == TallyInto(genres, ns)
    {
      var name := GenreName(ids[j]);
      NamesOfStep(ids, j);
      TallyIntoSnoc(genres, ns, name);
      g := g[name := (if name in g then g[name] else 0) + 1];
      ns := ns + [name];
      j := j + 1;
    }
    assert ids[..j] == ids;
  }

  /** The `forEach` of `getWatchlistStats` and the averages after it. */
  method ComputeStats(totalMovies: nat, items: seq<WatchedMovie>, weekAgo: int, monthAgo: int)
    returns (s: WatchStats)
    ensures s.totalMovies == totalMovies
    ensures s.addedThisWeek == Count(items, AddedSince(weekAgo))
    ensures s.addedThisMonth == Count(items, AddedSince(monthAgo))
    ensures s.decades == Tally(Decades(items))
    ensures s.genres == Tally(GenreNames(items))
    ensures s.averageRuntime == (if Count(items, Timed) > 0
                                 then RoundDiv(SumRuntime(items), Count(items, Timed)) else 0)
    ensures s.averageRating == (if Count(items, Rated) > 0
                                then SumRating(items) / Count(items, Rated) as real else 0.0)
  {
    var week, month := 0, 0;
    var totalRating, totalRuntime := 0.0, 0;
    var withRating, withRuntime := 0, 0;
    var decades: map<int, nat> := map[];
    var genres: map<string, nat> := map[];
    ghost var acc := Accumulate([], weekAgo, monthAgo);
    var i := 0;
    while i < |items|
      invariant 0 <= i <= |items|
      invariant acc == Accumulate(items[..i], weekAgo, monthAgo)
      invariant week == acc.week && month == acc.month
      invariant totalRating == acc.totalRating && withRating == acc.withRating
      invariant totalRuntime == acc.totalRuntime && withRuntime == acc.withRuntime
      invariant decades == acc.decades && genres == acc.genres
    {
      var m := items[i];
      assert items[..i + 1][..i] == items[..i];
      acc := Step(acc, m, weekAgo, monthAgo);
      if m.addedAt >= weekAgo {
        week := week + 1;
      }
      if m.addedAt >= monthAgo {
        month := month + 1;
      }
      if m.voteAverage.Some? && m.voteAverage.value > 0.0 {
        totalRating := totalRating + m.voteAverage.value;
        withRating := withRating + 1;
      }
      if m.runtime.Some? && m.runtime.value > 0 {
        totalRuntime := totalRuntime + m.runtime.value;
        withRuntime := withRuntime + 1;
      }
      if m.releaseYear.Some? {
        var d := Decade(m.releaseYear.value);
        TallyIntoSnoc(decades, [], d);
        assert [] + [d] == [d];
        decades := decades[d := (if d in decades then decades[d] else 0) + 1];
      }
      if m.genreIds.Some? {
        genres := TallyGenres(genres, m.genreIds.value);
      }
      i := i + 1;
    }
    assert items[..i] == items;
    AccumulateMeaning(items, weekAgo, monthAgo);
    s := WatchStats(totalMovies, genres,
                    if withRating > 0 then totalRating / withRating as real else 0.0,
                    if withRuntime > 0 then RoundDiv(totalRuntime, withRuntime) else 0,
                    decades, week, month);
  }

  /** Whenever the month bound is not later than the week bound, every movie
      added this week is also counted as added this month. */
  lemma WeekWithinMonth(items: seq<WatchedMovie>, weekAgo: int, monthAgo: int)
    requires monthAgo <= weekAgo
    ensures Count(items, AddedSince(weekAgo)) <= Count(items, AddedSince(monthAgo))
  {
    CountMono(items, AddedSince(weekAgo), AddedSince(monthAgo));
  }

  /** The decade tally holds, for each decade, the number of dated movies from
      it; so its counts add up to the number of dated movies. */
  lemma DecadeTallyCounts(items: seq<WatchedMovie>, d: int)
    ensures d in Tally(Decades(items)) <==> d in Decades(items)
    ensures d in Tally(Decades(items)) ==> Tally(Decades(items))[d] == multiset(Decades(items))[d]
    ensures |Decades(items)| == Count(items, Dated)
  {
    TallyIsMultiset(Decades(items), d);
  }

  /** With every positive runtime in [lo, hi], the sum of the `n` positive runtimes lies in [n*lo, n*hi]. */
  lemma {:induction false} SumRuntimeBounds(items: seq<WatchedMovie>, lo: int, hi: int)
    requires forall i :: 0 <= i < |items| && Timed(items[i]) ==> lo <= items[i].runtime.value <= hi
    ensures Count(items, Timed) * lo <= SumRuntime(items) <= Count(items, Timed) * hi
  {
    if items != [] {
      var init := items[..|items| - 1];
      var last := items[|items| - 1];
      forall i | 0 <= i < |init| && Timed(init[i]) ensures lo <= init[i].runtime.value <= hi {
        assert init[i] == items[i];
      }
      SumRuntimeBounds(init, lo, hi);
      CountAppend(init, last, Timed);
      assert init + [last] == items;
      var n := Count(init, Timed);
      var s := SumRuntime(init);
      assert n * lo <= s <= n * hi;
      if Timed(last) {
        assert Count(items, Timed) == n + 1;
        assert SumRuntime(items) == s + last.runtime.value;
        MulSucc(n, lo);
        MulSucc(n, hi);
      } else {
        assert Count(items, Timed) == n;
        assert SumRuntime(items) == s;
      }
    }
  }

  /** `averageRuntime` lies between the shortest and the longest positive runtime. */
  lemma AverageRuntimeBounds(items: seq<WatchedMovie>, lo: int, hi: int)
    requires Count(items, Timed) > 0
    requires forall i :: 0 <= i < |items| && Timed(items[i]) ==> lo <= items[i].runtime.value <= hi
    ensures lo <= RoundDiv(SumRuntime(items), Count(items, Timed)) <= hi
  {
    SumRuntimeBounds(items, lo, hi);
    RoundDivBounds(SumRuntime(items), Count(items, Timed), lo, hi);
  }
}
