/**
 * The notification table of backend/app/repositories/notification.py:
 * notifications are queued, later marked sent or failed, and read back by
 * the dispatcher (the queued ones) and by their owner (newest first).
 */
module NotificationRepo {
  import opened Wrappers
  import opened Ordering

  datatype Channel = Email | Sms | Push | InApp

  datatype NotificationStatus = Queued | Sent | Failed

  /** One stored notification; `meta` is the decoded `meta_json` column. */
  datatype Notification = Notification(
    id: int, userId: int, channel: Channel, title: string, body: string,
    meta: map<string, int>, status: NotificationStatus, sentAt: Option<int>, createdAt: int)

  function QueuedAt(n: Notification): int {
    n.createdAt
  }

  /** The `WHERE user_id = userId` condition of `list_by_user`. */
  function AddressedTo(userId: int): Notification -> bool {
    (n: Notification) => n.userId == userId
  }

  function NotificationId(n: Notification): int {
    n.id
  }

  predicate IsQueued(n: Notification) {
    n.status == Queued
  }

  /** The first `limit` queued rows, in table order. */
  function FirstQueued(rows: seq<Notification>, limit: nat): seq<Notification> {
    Filter(rows, IsQueued)[..Min(limit, |Filter(rows, IsQueued)|)]
  }

  /** In a table whose ids follow row order, the first queued rows come once each, in ascending id order. */
  lemma FirstQueuedAscending(rows: seq<Notification>, limit: nat)
    requires forall i :: 0 <= i < |rows| ==> rows[i].id == i + 1
    ensures multiset(FirstQueued(rows, limit)) <= multiset(Filter(rows, IsQueued))
    ensures forall i, j :: 0 <= i < j < |FirstQueued(rows, limit)| ==>
      FirstQueued(rows, limit)[i].id < FirstQueued(rows, limit)[j].id
  {
    var queued := Filter(rows, IsQueued);
    assert Ascending(rows, NotificationId) by {
      forall i, j | 0 <= i < j < |rows| ensures NotificationId(rows[i]) < NotificationId(rows[j]) {
        assert rows[i].id == i + 1 && rows[j].id == j + 1;
      }
    }
    FilterKeepsAscending(rows, IsQueued, NotificationId);
    PrefixOfAscending(queued, NotificationId, Min(limit, |queued|));
  }

  /** The first queued rows are queued rows of the table, none of them settled. */
  lemma FirstQueuedUnsettled(rows: seq<Notification>, settled: set<int>, limit: nat)
    requires forall i :: 0 <= i < |rows| ==> rows[i].id == i + 1
    requires forall id :: id in settled ==> 1 <= id <= |rows| && rows[id - 1].status != Queued
    ensures forall m :: 0 <= m < |FirstQueued(rows, limit)| ==>
      && FirstQueued(rows, limit)[m].status == Queued
      && FirstQueued(rows, limit)[m] in rows
      && FirstQueued(rows, limit)[m].id !in settled
  {
    var queued := Filter(rows, IsQueued);
    var found := FirstQueued(rows, limit);
    forall m | 0 <= m < |found| ensures found[m].status == Queued && found[m] in rows && found[m].id !in settled {
      var n := found[m];
      assert n == queued[m] && n in rows;
      var k :| 0 <= k < |rows| && rows[k] == n;
      assert n.id == k + 1;
    }
  }

  /** Fewer than `limit` first queued rows means every queued row is among them. */
  lemma FirstQueuedComplete(rows: seq<Notification>, limit: nat)
    ensures |FirstQueued(rows, limit)| == Min(limit, |Filter(rows, IsQueued)|)
    ensures |FirstQueued(rows, limit)| < limit ==>
      forall n :: n in rows && n.status == Queued ==> n in FirstQueued(rows, limit)
  {
    var queued := Filter(rows, IsQueued);
    if |FirstQueued(rows, limit)| < limit {
      assert FirstQueued(rows, limit) == queued;
      forall n | n in rows && n.status == Queued ensures n in queued {
        assert multiset(rows)[n] > 0;
        assert n in multiset(queued);
      }
    }
  }

  class NotificationRepository {
    var rows: seq<Notification>
    /** The ids `MarkSent` has settled. */
    ghost var settled: set<int>

    /** Ids are handed out in insertion order from 1; a settled notification is no longer queued. */
    ghost predicate Valid()
      reads this
    {
      && (forall i :: 0 <= i < |rows| ==> rows[i].id == i + 1)
      && (forall id :: id in settled ==> 1 <= id <= |rows| && rows[id - 1].status != Queued)
    }

    constructor ()
      ensures Valid() && rows == [] && settled == {}
    {
      rows := [];
      settled := {};
    }

    /**
     * Stores a new notification.  Its status is "queued" unless the caller
     * supplies one, and an absent `meta` is stored as the empty object.
     */
    method Queue(userId: int, channel: Channel, title: string, body: string,
                 meta: Option<map<string, int>>, status: Option<NotificationStatus>, now: int)
      returns (n: Notification)
      requires Valid()
      modifies this
      ensures Valid() && settled == old(settled)
      ensures n.id == |old(rows)| + 1 && n.userId == userId && n.channel == channel
      ensures n.title == title && n.body == body
      ensures n.meta == (if meta.Some? then meta.value else map[])
      ensures n.status == (if status.Some? then status.value else Queued)
      ensures n.sentAt.None? && n.createdAt == now
      ensures rows == old(rows) + [n]
    {
      n := Notification(|rows| + 1, userId, channel, title, body, meta.GetOr(map[]),
                        status.GetOr(Queued), None, now);
      rows := rows + [n];
    }

    /** Settles a notification as sent or failed; an unknown id is ignored. */
    method MarkSent(id: int, success: bool, now: int)
      requires Valid()
      modifies this
      ensures Valid()
      ensures !(1 <= id <= |old(rows)|) ==> rows == old(rows) && settled == old(settled)
      ensures 1 <= id <= |old(rows)| ==>
        && rows == old(rows)[id - 1 := old(rows)[id - 1].(status := if success then Sent else Failed,
                                                           sentAt := Some(now))]
        && settled == old(settled) + {id}
    {
      if !(1 <= id <= |rows|) {
        return;
      }
      rows := rows[id - 1 := rows[id - 1].(status := if success then Sent else Failed, sentAt := Some(now))];
      settled := settled + {id};
    }

    /**
     * The first `limit` queued notifications in table order; none of them
     * has ever been settled.
     */
    function FindQueued(limit: nat := 50): (found: seq<Notification>)
      requires Valid()
      reads this
      ensures |found| == Min(limit, |Filter(rows, IsQueued)|)
      ensures multiset(found) <= multiset(Filter(rows, IsQueued))
      ensures forall i, j :: 0 <= i < j < |found| ==> found[i].id < found[j].id
      ensures forall i :: 0 <= i < |found| ==> found[i].status == Queued && found[i] in rows
      ensures forall i :: 0 <= i < |found| ==> found[i].id !in settled
      ensures |found| < limit ==> forall n :: n in rows && n.status == Queued ==> n in found
    {
      FirstQueuedAscending(rows, limit);
      FirstQueuedUnsettled(rows, settled, limit);
      FirstQueuedComplete(rows, limit);
      FirstQueued(rows, limit)
    }

    /** The user's `limit` newest notifications (all of them when they have fewer), newest first. */
    function ListByUser(userId: int, limit: nat := 50): (mine: seq<Notification>)
      reads this
      ensures |mine| == Min(limit, |Filter(rows, AddressedTo(userId))|)
      ensures multiset(mine) <= multiset(rows)
      ensures forall i :: 0 <= i < |mine| ==> mine[i].userId == userId && mine[i] in rows
      ensures NewestFirst(mine, QueuedAt)
      ensures forall n, i :: n in rows && n.userId == userId && n !in mine && 0 <= i < |mine| ==>
        n.createdAt <= mine[i].createdAt
    {
      assert forall n :: AddressedTo(userId)(n) <==> n.userId == userId;
      NewestWhere(rows, AddressedTo(userId), QueuedAt, limit)
    }
  }
}
