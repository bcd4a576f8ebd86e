/**
 * The per-user connection registry of backend/app/services/ws.py: each
 * user id maps to the list of that user's open connections, in the order
 * they connected.
 */
module Ws {

  /** The position of the first occurrence of `x` in `s`. */
  function FirstIndex<C(==)>(s: seq<C>, x: C): (i: nat)
    requires x in s
    ensures i < |s| && s[i] == x && x !in s[..i]
  {
    if s[0] == x then 0
    else
      assert s == [s[0]] + s[1..];
      var j := FirstIndex(s[1..], x);
      assert s[..j + 1] == [s[0]] + s[1..][..j];
      j + 1
  }

  /** `list.remove(x)`: `s` without the first occurrence of `x`, or `s` itself when `x` does not occur. */
  function RemoveFirst<C(==)>(s: seq<C>, x: C): (r: seq<C>)
    ensures x !in s ==> r == s
    ensures x in s ==> |r| == |s| - 1 && multiset(r) == multiset(s) - multiset{x}
    ensures x in s ==> exists i :: 0 <= i < |s| && s[i] == x && x !in s[..i] && r == s[..i] + s[i + 1..]
  {
    if x in s then
      var i := FirstIndex(s, x);
      assert s == s[..i] + [s[i]] + s[i + 1..];
      s[..i] + s[i + 1..]
    else s
  }

  class NotificationManager<C(==)> {
    var connections: map<string, seq<C>>

    /** Only users with at least one open connection have an entry. */
    ghost predicate Valid()
      reads this
    {
      forall user :: user in connections ==> |connections[user]| > 0
    }

    constructor ()
      ensures Valid() && connections == map[]
    {
      connections := map[];
    }

    /** The user's connections, or none for an unknown user. */
    function ConnectionsOf(user: string): seq<C>
      reads this
    {
      if user in connections then connections[user] else []
    }

    /** Registers the connection at the end of the user's list, creating the list if needed. */
    method Connect(user: string, ws: C)
      modifies this
      ensures connections == old(connections)[user := old(ConnectionsOf(user)) + [ws]]
      ensures old(Valid()) ==> Valid()
    {
      connections := connections[user := ConnectionsOf(user) + [ws]];
    }

    /**
     * Removes the first occurrence of the connection, if any, and drops the
     * user's entry once its list is empty.  Nothing else changes.
     */
    method Disconnect(user: string, ws: C)
      modifies this
      ensures user !in old(connections) ==> connections == old(connections)
      ensures user in old(connections) ==>
        var left := RemoveFirst(old(connections)[user], ws);
        connections == if |left| == 0 then old(connections) - {user} else old(connections)[user := left]
      ensures old(Valid()) ==> Valid()
      ensures user in old(connections) && ws !in old(connections)[user] && old(Valid()) ==> connections == old(connections)
    {
      var conns := ConnectionsOf(user);
      if ws in conns {
        conns := RemoveFirst(conns, ws);
        connections := connections[user := conns];
      }
      if |conns| == 0 && user in connections {
        connections := connections - {user};
      }
    }

    /** The messages `send` pushes: `payload` to each of the user's connections, in list order. */
    method Send<P>(user: string, payload: P) returns (deliveries: seq<(C, P)>)
      ensures |deliveries| == |ConnectionsOf(user)|
      ensures forall i :: 0 <= i < |deliveries| ==> deliveries[i] == (ConnectionsOf(user)[i], payload)
    {
      var conns := ConnectionsOf(user);
      deliveries := [];
      var i := 0;
      while i < |conns|
        invariant 0 <= i <= |conns| && |deliveries| == i
        invariant forall k :: 0 <= k < i ==> deliveries[k] == (conns[k], payload)
      {
        deliveries := deliveries + [(conns[i], payload)];
        i := i + 1;
      }
    }
  }
}
