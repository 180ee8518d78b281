/**
 * The interaction and watchlist tables and the operations of the interaction
 * and watchlist controllers that change them: swiping a movie (LIKE or
 * DISLIKE), removing an interaction, clearing a user's favourites, and adding
 * to or removing from the watchlist. Each controller transaction is one method;
 * an error path rolls back, so the tables are left exactly as they were.
 *
 * The TMDB fetch behind `createMovieFromTmdb` is an input: `Some(id)` is the
 * internal id of the freshly cached movie, `None` a failed fetch.
 */
module InteractionLedger {
  import opened JsValues
  import opened TableRows

  datatype Kind = Like | Dislike

  function KindName(k: Kind): string
  {
    match k
    case Like => "LIKE"
    case Dislike => "DISLIKE"
  }

  /** `['LIKE', 'DISLIKE'].includes(v)`: strict equality, so only these two strings. */
  function ParseKind(v: JsValue): (r: Option<Kind>)
    ensures r.Some? <==> v == Str("LIKE") || v == Str("DISLIKE")
    ensures r.Some? ==> v == Str(KindName(r.value))
  {
    if v == Str("LIKE") then Some(Like)
    else if v == Str("DISLIKE") then Some(Dislike)
    else None
  }

  /** A row of `user_movie_interactions`. */
  datatype Interaction = Interaction(user: int, movie: int, kind: Kind, createdAt: int)

  /** A row of `user_watchlist`. */
  datatype WatchItem = WatchItem(user: int, movie: int, addedAt: int)

  function IKey(r: Interaction): Key { Key(r.user, r.movie) }
  function WKey(w: WatchItem): Key { Key(w.user, w.movie) }

  /** The kind recorded for key `k`, if any row has that key. */
  function KindOf(rows: seq<Interaction>, k: Key): Option<Kind>
  {
    match IndexOf(rows, IKey, k)
    case Some(i) => Some(rows[i].kind)
    case None => None
  }

  /** In a table with a unique index, any row with key `k` gives `KindOf(rows, k)`. */
  lemma KindOfAt(rows: seq<Interaction>, i: nat)
    requires Distinct(rows, IKey) && i < |rows|
    ensures KindOf(rows, IKey(rows[i])) == Some(rows[i].kind)
  {
    var j := IndexOf(rows, IKey, IKey(rows[i])).value;
  }

  /** A swipe's write: update the kind of the existing (user, movie) row, or
      insert a new row created at `now`. */
  function SetKind(rows: seq<Interaction>, k: Key, kind: Kind, now: int): seq<Interaction>
  {
    match IndexOf(rows, IKey, k)
    case Some(i) => rows[i := rows[i].(kind := kind)]
    case None => rows + [Interaction(k.user, k.movie, kind, now)]
  }

  /** Setting a kind keeps the unique index, records the new kind, inserts a row
      only when none existed, and leaves every other key's kind alone. */
  lemma {:induction false} SetKindSpec(rows: seq<Interaction>, k: Key, kind: Kind, now: int, other: Key)
    requires Distinct(rows, IKey) && other != k
    ensures Distinct(SetKind(rows, k, kind, now), IKey)
    ensures KindOf(SetKind(rows, k, kind, now), k) == Some(kind)
    ensures KindOf(SetKind(rows, k, kind, now), other) == KindOf(rows, other)
    ensures |SetKind(rows, k, kind, now)| == |rows| + (if KindOf(rows, k).Some? then 0 else 1)
  {
    var r := SetKind(rows, k, kind, now);
    match IndexOf(rows, IKey, k)
    case Some(i) =>
      assert forall j :: 0 <= j < |r| ==> IKey(r[j]) == IKey(rows[j]);
      assert Distinct(r, IKey);
      KindOfAt(r, i);
      SameKindElsewhere(rows, r, other);
    case None =>
      assert forall j :: 0 <= j < |rows| ==> r[j] == rows[j];
      assert Distinct(r, IKey) by {
        forall a, b | 0 <= a < b < |r| ensures IKey(r[a]) != IKey(r[b]) {
          if b < |rows| {
            assert IKey(rows[a]) != IKey(rows[b]);
          }
        }
      }
      KindOfAt(r, |rows|);
      SameKindElsewhere(rows, r, other);
  }

  /** Two unique-index tables that agree on every row with key `k` agree on `KindOf(_, k)`. */
  lemma SameKindElsewhere(a: seq<Interaction>, b: seq<Interaction>, k: Key)
    requires Distinct(a, IKey) && Distinct(b, IKey)
    requires |a| <= |b|
    requires forall j :: 0 <= j < |a| && IKey(a[j]) == k ==> b[j] == a[j]
    requires forall j :: 0 <= j < |b| && IKey(b[j]) == k ==> j < |a| && a[j] == b[j]
    ensures KindOf(a, k) == KindOf(b, k)
  {
    match IndexOf(a, IKey, k)
    case Some(i) =>
      KindOfAt(a, i);
      KindOfAt(b, i);
    case None =>
      match IndexOf(b, IKey, k)
      case Some(j) =>
      case None =>
  }

  /** The `WHERE user_id = u AND interaction_type = 'LIKE'` clause. */
  function LikeOf(u: int): Interaction -> bool
  {
    (x: Interaction) => x.user == u && x.kind == Like
  }

  /** The `WHERE user_id = u` clause on the watchlist. */
  function WatchOf(u: int): WatchItem -> bool
  {
    (w: WatchItem) => w.user == u
  }

  /** What a swipe request ends in. */
  datatype SwipeResult =
    | SwipeFailed(status: int, error: string)
    | Swiped(user: int, movie: int, kind: Kind, isUpdate: bool, addedToWatchlist: bool)

  /** What the other ledger operations end in: an error, or success with the
      tmdb id and the numbers of deleted rows where the operation deletes. */
  datatype LedgerResult =
    | Failed(status: int, error: string)
    | Done(deletedInteractions: nat, deletedWatchlistItems: nat)

  /** The user the swipe endpoint acts for: a missing or falsy id falls back to user 3. */
  function SwipeUser(userId: Option<int>): (u: int)
    ensures IntTruthy(userId) ==> u == userId.value
    ensures !IntTruthy(userId) ==> u == 3
  {
    if IntTruthy(userId) then userId.value else 3
  }

  class Ledger {
    /** Primary keys of the `users` table. */
    var users: set<int>
    /** The movie cache: tmdb id -> internal movie id. */
    var movies: map<int, int>
    var interactions: seq<Interaction>
    var watchlist: seq<WatchItem>

    /** The unique indexes `unique_user_movie` and `unique_user_watchlist`. */
    ghost predicate Valid()
      reads this
    {
      Distinct(interactions, IKey) && Distinct(watchlist, WKey)
    }

    constructor (users0: set<int>, movies0: map<int, int>)
      ensures Valid()
      ensures users == users0 && movies == movies0
      ensures interactions == [] && watchlist == []
    {
      users := users0;
      movies := movies0;
      interactions := [];
      watchlist := [];
    }

    /** Add a watchlist row for `k` unless one exists (errors are swallowed, so
        this never fails). */
    method AddToWatchlistIfNotExists(k: Key, now: int)
      requires Valid()
      modifies this
      ensures Valid()
      ensures watchlist == InsertIfAbsent(old(watchlist), WKey, k, WatchItem(k.user, k.movie, now))
      ensures CountKey(watchlist, WKey, k) == 1
      ensures users == old(users) && movies == old(movies) && interactions == old(interactions)
    {
      var existing := IndexOf(watchlist, WKey, k);
      if existing.None? {
        watchlist := watchlist + [WatchItem(k.user, k.movie, now)];
      }
      InsertIfAbsentOnce(old(watchlist), WKey, k, WatchItem(k.user, k.movie, now), Key(k.user, k.movie + 1));
    }

    /** Delete the watchlist row for `k`, if there is one. */
    method RemoveFromWatchlistIfExists(k: Key)
      requires Valid()
      modifies this
      ensures Valid()
      ensures watchlist == DropKey(old(watchlist), WKey, k)
      ensures CountKey(watchlist, WKey, k) == 0
      ensures users == old(users) && movies == old(movies) && interactions == old(interactions)
    {
      watchlist := DropKey(watchlist, WKey, k);
      DropKeyDistinct(old(watchlist), WKey, k);
      DropKeyCounts(old(watchlist), WKey, k, Key(k.user, k.movie + 1));
    }

    /**
     * `POST /api/interactions`. Validation (missing fields, then an unknown
     * kind) precedes the transaction; inside it an unknown user or a movie
     * that is neither cached nor fetchable rolls back. Otherwise the kind is
     * recorded and the watchlist follows it: LIKE adds, DISLIKE removes.
     */
    method Swipe(userId: Option<int>, movieId: Option<int>, interactionType: JsValue,
                 fetched: Option<int>, now: int) returns (r: SwipeResult)
      requires Valid()
      modifies this
      ensures Valid()
      ensures r.SwipeFailed? ==> users == old(users) && movies == old(movies)
                                 && interactions == old(interactions) && watchlist == old(watchlist)
      ensures !IntTruthy(movieId) || !Truthy(interactionType) ==>
                r == SwipeFailed(400, "user.errors.missing_fields")
      ensures IntTruthy(movieId) && Truthy(interactionType) && ParseKind(interactionType).None? ==>
                r == SwipeFailed(400, "user.errors.invalid_interaction_type")
      ensures IntTruthy(movieId) && ParseKind(interactionType).Some? && SwipeUser(userId) !in old(users) ==>
                r == SwipeFailed(404, "user.errors.user_not_found")
      ensures IntTruthy(movieId) && ParseKind(interactionType).Some? && SwipeUser(userId) in old(users)
              && movieId.value !in old(movies) && fetched.None? ==>
                r == SwipeFailed(404, "user.errors.movie_not_found")
      ensures r.Swiped? ==>
                && IntTruthy(movieId) && Some(r.kind) == ParseKind(interactionType)
                && r.user == SwipeUser(userId) && r.user in old(users)
                && r.movie == (if movieId.value in old(movies) then old(movies)[movieId.value] else fetched.value)
                && movies == old(movies)[movieId.value := r.movie]
                && users == old(users)
                && interactions == SetKind(old(interactions), Key(r.user, r.movie), r.kind, now)
                && r.isUpdate == KindOf(old(interactions), Key(r.user, r.movie)).Some?
                && KindOf(interactions, Key(r.user, r.movie)) == Some(r.kind)
                && (r.kind == Like ==> CountKey(watchlist, WKey, Key(r.user, r.movie)) == 1)
                && (r.kind == Dislike ==> CountKey(watchlist, WKey, Key(r.user, r.movie)) == 0)
                && r.addedToWatchlist == (r.kind == Like)
      ensures r.Swiped? && r.kind == Like ==>
                watchlist == InsertIfAbsent(old(watchlist), WKey, Key(r.user, r.movie), WatchItem(r.user, r.movie, now))
      ensures r.Swiped? && r.kind == Dislike ==>
                watchlist == DropKey(old(watchlist), WKey, Key(r.user, r.movie))
    {
      var finalUserId := SwipeUser(userId);
      if !IntTruthy(movieId) || !Truthy(interactionType) {
        return SwipeFailed(400, "user.errors.missing_fields");
      }
      var kind := ParseKind(interactionType);
      if kind.None? {
        return SwipeFailed(400, "user.errors.invalid_interaction_type");
      }
      if finalUserId !in users {
        return SwipeFailed(404, "user.errors.user_not_found");
      }
      var tmdbId := movieId.value;
      var movie: int;
      if tmdbId in movies {
        movie := movies[tmdbId];
        assert movies == movies[tmdbId := movie];
      } else {
        if fetched.None? {
          return SwipeFailed(404, "user.errors.movie_not_found");
        }
        movie := fetched.value;
        movies := movies[tmdbId := movie];
      }
      assert movies == old(movies)[tmdbId := movie];
      var k := Key(finalUserId, movie);
      var isUpdate := KindOf(interactions, k).Some?;
      SetKindSpec(interactions, k, kind.value, now, Key(finalUserId, movie + 1));
      interactions := SetKind(interactions, k, kind.value, now);
      if kind.value == Like {
        AddToWatchlistIfNotExists(k, now);
      } else {
        RemoveFromWatchlistIfExists(k);
      }
      r := Swiped(finalUserId, movie, kind.value, isUpdate, kind.value == Like);
    }

    /**
     * `DELETE /api/interactions/:userId/:movieId`: an uncached movie or a
     * missing interaction is a 404; otherwise the interaction row is deleted
     * and so is the watchlist row, whatever the kind was.
     */
    method RemoveInteraction(userId: int, movieId: int) returns (r: LedgerResult)
      requires Valid()
      modifies this
      ensures Valid()
      ensures users == old(users) && movies == old(movies)
      ensures movieId !in movies ==> r == Failed(404, "user.errors.movie_not_found")
      ensures movieId in movies && KindOf(old(interactions), Key(userId, movies[movieId])).None? ==>
                r == Failed(404, "user.errors.interaction_not_found")
      ensures r.Failed? ==> interactions == old(interactions) && watchlist == old(watchlist)
      ensures r.Done? ==>
                && movieId in movies
                && KindOf(old(interactions), Key(userId, movies[movieId])).Some?
                && r.deletedInteractions == 1
                && interactions == DropKey(old(interactions), IKey, Key(userId, movies[movieId]))
                && watchlist == DropKey(old(watchlist), WKey, Key(userId, movies[movieId]))
                && KindOf(interactions, Key(userId, movies[movieId])).None?
                && CountKey(watchlist, WKey, Key(userId, movies[movieId])) == 0
    {
      if movieId !in movies {
        return Failed(404, "user.errors.movie_not_found");
      }
      var k := Key(userId, movies[movieId]);
      var deleted := CountKey(interactions, IKey, k);
      DropKeyCounts(interactions, IKey, k, Key(userId, k.movie + 1));
      DistinctCountKey(interactions, IKey, k);
      DropKeyDistinct(interactions, IKey, k);
      interactions := DropKey(interactions, IKey, k);
      if deleted == 0 {
        return Failed(404, "user.errors.interaction_not_found");
      }
      assert CountKey(interactions, IKey, k) == 0;
      RemoveFromWatchlistIfExists(k);
      r := Done(deleted, 0);
    }

    /**
     * `DELETE /api/interactions/:userId/favorites`: delete every LIKE row and
     * every watchlist row of `userId`, reporting both counts.
     */
    method ClearAllFavorites(userId: int) returns (deletedInteractions: nat, deletedWatchlistItems: nat)
      requires Valid()
      modifies this
      ensures Valid()
      ensures users == old(users) && movies == old(movies)
      ensures interactions == Keep(old(interactions), LikeOf(userId))
      ensures watchlist == Keep(old(watchlist), WatchOf(userId))
      ensures deletedInteractions == Count(old(interactions), LikeOf(userId))
      ensures deletedWatchlistItems == Count(old(watchlist), WatchOf(userId))
      ensures forall i :: 0 <= i < |interactions| ==> !(interactions[i].user == userId && interactions[i].kind == Like)
      ensures forall i :: 0 <= i < |watchlist| ==> watchlist[i].user != userId
      ensures forall i :: 0 <= i < |old(interactions)| && (old(interactions)[i].user != userId || old(interactions)[i].kind == Dislike)
                ==> old(interactions)[i] in interactions
      ensures forall i :: 0 <= i < |old(watchlist)| && old(watchlist)[i].user != userId ==> old(watchlist)[i] in watchlist
    {
      deletedInteractions := Count(interactions, LikeOf(userId));
      KeepDistinct(interactions, LikeOf(userId), IKey);
      interactions := Keep(interactions, LikeOf(userId));
      deletedWatchlistItems := Count(watchlist, WatchOf(userId));
      KeepDistinct(watchlist, WatchOf(userId), WKey);
      watchlist := Keep(watchlist, WatchOf(userId));
    }

    /**
     * `POST /api/watchlist`: 400 without both ids, 404 for an unknown user or
     * an uncached movie, 409 when the movie is already listed. Otherwise the
     * row is added and the interaction becomes LIKE (inserted when missing,
     * switched from DISLIKE, an existing LIKE left as it is).
     */
    method AddToWatchlist(userId: Option<int>, movieId: Option<int>, now: int) returns (r: LedgerResult)
      requires Valid()
      modifies this
      ensures Valid()
      ensures users == old(users) && movies == old(movies)
      ensures r.Failed? ==> interactions == old(interactions) && watchlist == old(watchlist)
      ensures !IntTruthy(userId) || !IntTruthy(movieId) ==> r == Failed(400, "userId and movieId are required")
      ensures IntTruthy(userId) && IntTruthy(movieId) && userId.value !in users ==> r == Failed(404, "User not found")
      ensures IntTruthy(userId) && IntTruthy(movieId) && userId.value in users && movieId.value !in movies ==>
                r == Failed(404, "Movie not found. Please load movie data first.")
      ensures IntTruthy(userId) && IntTruthy(movieId) && userId.value in users && movieId.value in movies
              && CountKey(old(watchlist), WKey, Key(userId.value, movies[movieId.value])) > 0 ==>
                r == Failed(409, "Movie already in watchlist")
      ensures r.Done? ==>
                && IntTruthy(userId) && IntTruthy(movieId) && userId.value in users && movieId.value in movies
                && var k := Key(userId.value, movies[movieId.value]);
                   && CountKey(old(watchlist), WKey, k) == 0
                   && watchlist == old(watchlist) + [WatchItem(k.user, k.movie, now)]
                   && CountKey(watchlist, WKey, k) == 1
                   && interactions == SetKind(old(interactions), k, Like, now)
                   && KindOf(interactions, k) == Some(Like)
                   && (KindOf(old(interactions), k) == Some(Like) ==> interactions == old(interactions))
    {
      if !IntTruthy(userId) || !IntTruthy(movieId) {
        return Failed(400, "userId and movieId are required");
      }
      var u := userId.value;
      if u !in users {
        return Failed(404, "User not found");
      }
      if movieId.value !in movies {
        return Failed(404, "Movie not found. Please load movie data first.");
      }
      var k := Key(u, movies[movieId.value]);
      if IndexOf(watchlist, WKey, k).Some? {
        return Failed(409, "Movie already in watchlist");
      }
      InsertIfAbsentOnce(watchlist, WKey, k, WatchItem(k.user, k.movie, now), Key(u, k.movie + 1));
      watchlist := watchlist + [WatchItem(k.user, k.movie, now)];
      var existing := KindOf(interactions, k);
      SetKindSpec(interactions, k, Like, now, Key(u, k.movie + 1));
      if existing.None? {
        interactions := interactions + [Interaction(k.user, k.movie, Like, now)];
      } else if existing.value != Like {
        var i := IndexOf(interactions, IKey, k).value;
        interactions := interactions[i := interactions[i].(kind := Like)];
      } else {
        SetKindUnchanged(interactions, k, now);
      }
      r := Done(0, 0);
    }

    /**
     * `DELETE /api/watchlist/:userId/:movieId`: deletes only the watchlist
     * row; the interaction stays. 404 for an uncached movie or no row.
     */
    method RemoveFromWatchlist(userId: int, movieId: int) returns (r: LedgerResult)
      requires Valid()
      modifies this
      ensures Valid()
      ensures users == old(users) && movies == old(movies) && interactions == old(interactions)
      ensures movieId !in movies ==> r == Failed(404, "Movie not found")
      ensures movieId in movies && CountKey(old(watchlist), WKey, Key(userId, movies[movieId])) == 0 ==>
                r == Failed(404, "Movie not found in watchlist")
      ensures r.Failed? ==> watchlist == old(watchlist)
      ensures r.Done? ==>
                && movieId in movies
                && r.deletedWatchlistItems == 1
                && watchlist == DropKey(old(watchlist), WKey, Key(userId, movies[movieId]))
                && CountKey(watchlist, WKey, Key(userId, movies[movieId])) == 0
    {
      if movieId !in movies {
        return Failed(404, "Movie not found");
      }
      var k := Key(userId, movies[movieId]);
      var deleted := CountKey(watchlist, WKey, k);
      DistinctCountKey(watchlist, WKey, k);
      RemoveFromWatchlistIfExists(k);
      if deleted == 0 {
        return Failed(404, "Movie not found in watchlist");
      }
      r := Done(0, deleted);
    }
  }

  /** Re-recording the kind a row already has writes nothing. */
  lemma SetKindUnchanged(rows: seq<Interaction>, k: Key, now: int)
    requires KindOf(rows, k) == Some(Like)
    ensures SetKind(rows, k, Like, now) == rows
  {
    var i := IndexOf(rows, IKey, k).value;
    assert rows[i].(kind := Like) == rows[i];
  }
}
