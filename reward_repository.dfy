/**
 * The reward ledger of backend/app/repositories/reward.py: an append-only
 * table of grants, a per-user sum and a "most recent grants" query.
 */
module RewardRepo {
  import opened Ordering

  /** One grant: who received how many points and why. */
  datatype RewardRecord = RewardRecord(id: int, userId: int, points: int, reason: string, createdAt: int)

  function GrantedAt(g: RewardRecord): int {
    g.createdAt
  }

  /** The `WHERE user_id = userId` condition of the ledger queries. */
  function GrantedTo(userId: int): RewardRecord -> bool {
    (g: RewardRecord) => g.userId == userId
  }

  /** The user's share of one grant: its points if it is theirs, else nothing. */
  function PointsOf(g: RewardRecord, userId: int): int {
    if g.userId == userId then g.points else 0
  }

  /** `SUM(points) WHERE user_id = userId` over `rs`, with an empty sum being 0. */
  function SumPoints(rs: seq<RewardRecord>, userId: int): int
    decreases |rs|
  {
    if |rs| == 0 then 0 else SumPoints(rs[..|rs| - 1], userId) + PointsOf(rs[|rs| - 1], userId)
  }

  /** Appending one grant adds exactly that grant's share to each user's sum. */
  lemma SumPointsAppend(rs: seq<RewardRecord>, g: RewardRecord, userId: int)
    ensures SumPoints(rs + [g], userId) == SumPoints(rs, userId) + PointsOf(g, userId)
  {
    assert (rs + [g])[..|rs|] == rs;
  }

  /** A user without grants has a sum of 0. */
  lemma {:induction false} SumPointsNoGrants(rs: seq<RewardRecord>, userId: int)
    ensures (forall i :: 0 <= i < |rs| ==> rs[i].userId != userId) ==> SumPoints(rs, userId) == 0
  {
    if |rs| > 0 {
      SumPointsNoGrants(rs[..|rs| - 1], userId);
    }
  }

  /** When no grant carries negative points, no sum is negative. */
  lemma {:induction false} SumPointsNonNegative(rs: seq<RewardRecord>, userId: int)
    requires forall i :: 0 <= i < |rs| ==> rs[i].points >= 0
    ensures SumPoints(rs, userId) >= 0
  {
    if |rs| > 0 {
      SumPointsNonNegative(rs[..|rs| - 1], userId);
    }
  }

  class RewardRepository {
    var rows: seq<RewardRecord>

    /** Ids are handed out in insertion order, starting at 1. */
    ghost predicate Valid()
      reads this
    {
      forall i :: 0 <= i < |rows| ==> rows[i].id == i + 1
    }

    constructor ()
      ensures Valid() && rows == []
    {
      rows := [];
    }

    /** Adds one grant carrying the given user, points and reason. */
    method Grant(userId: int, points: int, reason: string, now: int) returns (g: RewardRecord)
      requires Valid()
      modifies this
      ensures Valid()
      ensures g == RewardRecord(|old(rows)| + 1, userId, points, reason, now)
      ensures rows == old(rows) + [g]
      ensures forall u :: SumPoints(rows, u) == SumPoints(old(rows), u) + (if u == userId then points else 0)
    {
      g := RewardRecord(|rows| + 1, userId, points, reason, now);
      forall u ensures SumPoints(rows + [g], u) == SumPoints(rows, u) + PointsOf(g, u) {
        SumPointsAppend(rows, g, u);
      }
      rows := rows + [g];
    }

    /** The user's total points (0 when they have no grants). */
    function TotalPoints(userId: int): (total: int)
      reads this
      ensures total == SumPoints(rows, userId)
      ensures (forall i :: 0 <= i < |rows| ==> rows[i].userId != userId) ==> total == 0
    {
      SumPointsNoGrants(rows, userId);
      SumPoints(rows, userId)
    }

    /** The user's `limit` most recent grants (all of them when they have fewer), newest first. */
    function ListRecent(userId: int, limit: nat := 10): (recent: seq<RewardRecord>)
      reads this
      ensures |recent| == Min(limit, |Filter(rows, GrantedTo(userId))|)
      ensures multiset(recent) <= multiset(rows)
      ensures forall i :: 0 <= i < |recent| ==> recent[i].userId == userId && recent[i] in rows
      ensures NewestFirst(recent, GrantedAt)
      ensures forall g, i :: g in rows && g.userId == userId && g !in recent && 0 <= i < |recent| ==>
        g.createdAt <= recent[i].createdAt
    {
      assert forall g :: GrantedTo(userId)(g) <==> g.userId == userId;
      NewestWhere(rows, GrantedTo(userId), GrantedAt, limit)
    }
  }
}
