/**
 * The reward rules of backend/app/services/reward.py: completing a pickup
 * of a rewardable category grants points to its owner and records them on
 * the request; the summary reads the ledger back.
 */
module Rewards {
  import opened RequestModels
  import opened RequestRepo
  import opened RewardRepo

  /** Recyclables earn 5 points, hazardous waste and e-waste 10, everything else nothing. */
  function PointsFor(c: Category): (points: nat)
    ensures c == Recyclable ==> points == 5
    ensures c in {Hazardous, EWaste} ==> points == 10
    ensures c !in {Recyclable, Hazardous, EWaste} ==> points == 0
  {
    if CategoryName(c) == "recyclable" then 5
    else if CategoryName(c) in {"e-waste", "hazardous"} then 10
    else 0
  }

  /** A completion is rewarded exactly when its category is recyclable, hazardous or e-waste. */
  lemma RewardedCategories(c: Category)
    ensures PointsFor(c) > 0 <==> c in {Recyclable, Hazardous, EWaste}
  {
  }

  /** The reason written on a completion grant. */
  function CompletionReason(c: Category): string {
    "Completed " + CategoryName(c) + " pickup"
  }

  /** The reason names the category between "Completed " and " pickup", so distinct categories give distinct reasons. */
  lemma CompletionReasonNamesCategory(c: Category, d: Category)
    ensures var reason := CompletionReason(c);
      && |reason| == |CategoryName(c)| + 17
      && reason[..10] == "Completed " && reason[|reason| - 7..] == " pickup"
      && reason[10..|reason| - 7] == CategoryName(c)
    ensures CompletionReason(c) == CompletionReason(d) ==> c == d
  {
    var reason := CompletionReason(c);
    assert reason[10..|reason| - 7] == CategoryName(c);
    assert CompletionReason(d)[10..|CompletionReason(d)| - 7] == CategoryName(d);
    CategoryNameRoundTrip(c);
    CategoryNameRoundTrip(d);
  }

  /**
   * Rewards the completion of `request`: nothing happens for a category
   * worth no points; otherwise one grant for the request's owner is added
   * and the request's reward points rise by the same amount.
   */
  method HandleCompletion(ledger: RewardRepository, requests: RequestRepository, request: PickupRequest, now: int)
    requires ledger.Valid() && requests.Valid()
    modifies ledger, requests
    ensures ledger.Valid() && requests.Valid() && requests.nextId == old(requests.nextId)
    ensures PointsFor(request.category) == 0 ==> ledger.rows == old(ledger.rows) && requests.rows == old(requests.rows)
    ensures PointsFor(request.category) > 0 ==>
      && ledger.rows == old(ledger.rows) + [RewardRecord(|old(ledger.rows)| + 1, request.userId,
                                                         PointsFor(request.category), CompletionReason(request.category), now)]
      && (request.id in old(requests.rows) ==>
            requests.rows == old(requests.rows)[request.id := old(requests.rows)[request.id].(
              rewardPoints := old(requests.rows)[request.id].rewardPoints + PointsFor(request.category),
              updatedAt := now)])
      && (request.id !in old(requests.rows) ==> requests.rows == old(requests.rows))
    ensures forall u ::
      SumPoints(ledger.rows, u) == SumPoints(old(ledger.rows), u) + (if u == request.userId then PointsFor(request.category) else 0)
  {
    var points := PointsFor(request.category);
    if points <= 0 {
      return;
    }
    var _ := ledger.Grant(request.userId, points, CompletionReason(request.category), now);
    requests.MarkReward(request.id, points, now);
  }

  /** What the reward summary reports: the user's total and their most recent grants. */
  datatype RewardSummary = RewardSummary(totalPoints: int, recent: seq<RewardRecord>)

  function Summary(ledger: RewardRepository, userId: int): (s: RewardSummary)
    reads ledger
    ensures s.totalPoints == SumPoints(ledger.rows, userId)
    ensures s.recent == ledger.ListRecent(userId, 10)
    ensures |s.recent| <= 10 && forall i :: 0 <= i < |s.recent| ==> s.recent[i].userId == userId
  {
    RewardSummary(ledger.TotalPoints(userId), ledger.ListRecent(userId))
  }
}
