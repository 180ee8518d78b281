/**
 * The read side of the interaction controller: the filtered interaction
 * listing, the pagination arithmetic shared with the watchlist listing, and
 * the statistics built from `GROUP BY interaction_type` counts.
 */
module InteractionStats {
  import opened JsValues
  import opened TableRows
  import opened InteractionLedger

  // ---------------------------------------------------------------------
  // Listing and pagination
  // ---------------------------------------------------------------------

  /** The listing's `WHERE`: the user's rows, narrowed to one kind only when
      the `interactionType` query value is exactly LIKE or DISLIKE. */
  function ListingClause(u: int, interactionType: JsValue): Interaction -> bool
  {
    var k := ParseKind(interactionType);
    (x: Interaction) => x.user == u && (k.None? || x.kind == k.value)
  }

  /** The rows `getUserInteractions` selects (before ordering and windowing). */
  function ListInteractions(rows: seq<Interaction>, u: int, interactionType: JsValue): (r: seq<Interaction>)
    ensures forall i :: 0 <= i < |r| ==> r[i] in rows && r[i].user == u
    ensures forall i :: 0 <= i < |r| && ParseKind(interactionType).Some? ==> r[i].kind == ParseKind(interactionType).value
    ensures forall i :: (0 <= i < |rows| && rows[i].user == u
              && (ParseKind(interactionType).None? || rows[i].kind == ParseKind(interactionType).value)) ==> rows[i] in r
  {
    Where(rows, ListingClause(u, interactionType))
  }

  /** `Math.ceil(count / b)` for a non-zero divisor of either sign. */
  function JsCeilDiv(count: nat, b: int): (r: int)
    requires b != 0
    ensures b > 0 ==> r == CeilDiv(count, b)
    ensures b < 0 ==> r <= 0 && r * b <= count < (r - 1) * b
  {
    if b > 0 then CeilDiv(count, b)
    else
      var q := count / -b;
      assert count == q * -b + count % -b;
      assert -q * b == q * -b && (-q - 1) * b == q * -b + -b;
      -q
  }

  /** The `pagination` object of a listing response. */
  datatype Pagination = Pagination(offset: int, currentPage: int, totalPages: Option<int>,
                                   totalItems: nat, itemsPerPage: int)

  /** Query defaults `page = 1`, `limit = 20`; `offset = (page - 1) * limit`
      and `totalPages = Math.ceil(count / limit)`, which is not a finite number
      (`None`) when the limit is 0. */
  function Paginate(page: Option<int>, limit: Option<int>, count: nat): (p: Pagination)
    ensures p.totalItems == count
    ensures p.currentPage == (if page.Some? then page.value else 1)
    ensures p.itemsPerPage == (if limit.Some? then limit.value else 20)
    ensures p.offset == (p.currentPage - 1) * p.itemsPerPage
    ensures p.totalPages.None? <==> p.itemsPerPage == 0
    ensures p.itemsPerPage > 0 ==> p.totalPages == Some(CeilDiv(count, p.itemsPerPage))
  {
    var pg := if page.Some? then page.value else 1;
    var l := if limit.Some? then limit.value else 20;
    var total := if l == 0 then None else Some(JsCeilDiv(count, l));
    Pagination((pg - 1) * l, pg, total, count, l)
  }

  /** Integer division by a positive divisor is monotone. */
  lemma DivMonotone(x: int, y: int, d: int)
    requires 0 <= x <= y && d > 0
    ensures x / d <= y / d
  {
    var qx, qy := x / d, y / d;
    assert qx * d <= x;
    assert y < (qy + 1) * d;
    MulCancelLess(qx, qy + 1, d);
  }

  /** With a positive limit the pages 1..totalPages tile the result: item `i`
      lies on page `i / limit + 1`, inside that page's window, and that page
      is not past the last one. */
  lemma PagesCoverItems(limit: int, count: nat, i: nat)
    requires limit > 0 && i < count
    ensures var q := i / limit + 1;
            var p := Paginate(Some(q), Some(limit), count);
            p.offset <= i < p.offset + limit && 1 <= q <= p.totalPages.value
  {
    var q := i / limit + 1;
    assert i == (i / limit) * limit + i % limit;
    assert (q - 1) * limit <= i < q * limit;
    DivMonotone(i, count - 1, limit);
  }

  /** A page past the last one starts beyond the end of the result. */
  lemma PastLastPageEmpty(page: int, limit: int, count: nat)
    requires limit > 0
    requires page > CeilDiv(count, limit)
    ensures Paginate(Some(page), Some(limit), count).offset >= count
  {
    var c := CeilDiv(count, limit);
    assert (page - 1 - c) * limit >= 0;
    assert (page - 1) * limit >= c * limit;
  }

  // ---------------------------------------------------------------------
  // Statistics
  // ---------------------------------------------------------------------

  /** One row of a `GROUP BY interaction_type` count query. */
  datatype GroupCount = GroupCount(interactionType: string, count: nat)

  /** The `processedStats` object. */
  datatype Stats = Stats(total: nat, likes: nat, dislikes: nat,
                         recentLikes: nat, recentDislikes: nat, recentTotal: nat)

  /** The count a `forEach` that overwrites on each matching group leaves for
      type `t`: that of the last group of type `t`, or 0. */
  function LastCountOf(groups: seq<GroupCount>, t: string): nat
  {
    if groups == [] then 0
    else if groups[|groups| - 1].interactionType == t then groups[|groups| - 1].count
    else LastCountOf(groups[..|groups| - 1], t)
  }

  /** The sum of all group counts. */
  function SumCounts(groups: seq<GroupCount>): nat
  {
    if groups == [] then 0 else SumCounts(groups[..|groups| - 1]) + groups[|groups| - 1].count
  }

  /** The two `forEach` loops over the grouped counts. */
  method ProcessStats(total: nat, stats: seq<GroupCount>, recent: seq<GroupCount>) returns (s: Stats)
    ensures s.total == total
    ensures s.likes == LastCountOf(stats, "LIKE") && s.dislikes == LastCountOf(stats, "DISLIKE")
    ensures s.recentLikes == LastCountOf(recent, "LIKE") && s.recentDislikes == LastCountOf(recent, "DISLIKE")
    ensures s.recentTotal == SumCounts(recent)
  {
    var likes, dislikes := 0, 0;
    var i := 0;
    while i < |stats|
      invariant 0 <= i <= |stats|
      invariant likes == LastCountOf(stats[..i], "LIKE") && dislikes == LastCountOf(stats[..i], "DISLIKE")
    {
      assert stats[..i + 1][..i] == stats[..i];
      if stats[i].interactionType == "LIKE" {
        likes := stats[i].count;
      } else if stats[i].interactionType == "DISLIKE" {
        dislikes := stats[i].count;
      }
      i := i + 1;
    }
    assert stats[..i] == stats;
    var rLikes, rDislikes, rTotal := 0, 0, 0;
    i := 0;
    while i < |recent|
      invariant 0 <= i <= |recent|
      invariant rLikes == LastCountOf(recent[..i], "LIKE") && rDislikes == LastCountOf(recent[..i], "DISLIKE")
      invariant rTotal == SumCounts(recent[..i])
    {
      assert recent[..i + 1][..i] == recent[..i];
      if recent[i].interactionType == "LIKE" {
        rLikes := recent[i].count;
      } else if recent[i].interactionType == "DISLIKE" {
        rDislikes := recent[i].count;
      }
      rTotal := rTotal + recent[i].count;
      i := i + 1;
    }
    assert recent[..i] == recent;
    s := Stats(total, likes, dislikes, rLikes, rDislikes, rTotal);
  }

  /** The user's rows of kind `k` created at or after `since` (any time when `None`). */
  function OfKindSince(u: int, k: Kind, since: Option<int>): Interaction -> bool
  {
    (x: Interaction) => x.user == u && x.kind == k && (since.None? || x.createdAt >= since.value)
  }

  /** The user's rows created at or after `since`. */
  function OfUserSince(u: int, since: Option<int>): Interaction -> bool
  {
    (x: Interaction) => x.user == u && (since.None? || x.createdAt >= since.value)
  }

  /** What the database returns for the grouped count: one group per kind
      present, each with its number of rows. */
  function GroupByKind(rows: seq<Interaction>, u: int, since: Option<int>): seq<GroupCount>
  {
    var likes := Count(rows, OfKindSince(u, Like, since));
    var dislikes := Count(rows, OfKindSince(u, Dislike, since));
    (if likes > 0 then [GroupCount("LIKE", likes)] else [])
      + (if dislikes > 0 then [GroupCount("DISLIKE", dislikes)] else [])
  }

  /** Fed the database's grouped counts, the statistics report the table: the
      likes and dislikes are the numbers of such rows, they add up to the
      user's total, and `recent.total` counts the user's recent rows. */
  lemma GroupedStatsMatchTable(rows: seq<Interaction>, u: int, since: Option<int>)
    ensures LastCountOf(GroupByKind(rows, u, since), "LIKE") == Count(rows, OfKindSince(u, Like, since))
    ensures LastCountOf(GroupByKind(rows, u, since), "DISLIKE") == Count(rows, OfKindSince(u, Dislike, since))
    ensures SumCounts(GroupByKind(rows, u, since)) == Count(rows, OfUserSince(u, since))
  {
    var g := GroupByKind(rows, u, since);
    var likes := Count(rows, OfKindSince(u, Like, since));
    var dislikes := Count(rows, OfKindSince(u, Dislike, since));
    CountSplit(rows, OfKindSince(u, Like, since), OfKindSince(u, Dislike, since), OfUserSince(u, since));
    if likes > 0 && dislikes > 0 {
      assert g == [GroupCount("LIKE", likes), GroupCount("DISLIKE", dislikes)];
      assert g[..1] == [GroupCount("LIKE", likes)];
      assert g[..1][..0] == [];
      assert SumCounts(g[..1]) == likes;
      assert SumCounts(g) == likes + dislikes;
    } else if likes > 0 {
      assert g == [GroupCount("LIKE", likes)];
      assert g[..0] == [];
    } else if dislikes > 0 {
      assert g == [GroupCount("DISLIKE", dislikes)];
      assert g[..0] == [];
    }
  }

  /** `likeRatio`: the percentage of likes among all the user's interactions,
      0 when there are none (`toFixed(1)` rounding is not modelled). */
  function LikeRatio(likes: nat, total: nat): (r: real)
    ensures total == 0 ==> r == 0.0
    ensures likes <= total ==> 0.0 <= r <= 100.0
    ensures total > 0 ==> r * total as real == 100.0 * likes as real
  {
    if total > 0 then likes as real * 100.0 / total as real else 0.0
  }
}
