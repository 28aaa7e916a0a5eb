/** What the routing table means, in terms of the whole run that led to it. */
module GossipHistory {
  import opened Base
  import opened Address
  import opened Gossip

  /** An accepted sync, an arbitrary change of the locally registered set, a sweep, or a message that was refused. */
  datatype Event = Sync(remote: Addr, ids: seq<U32>, now: int) | Local(held: set<U32>) | Sweep(cutoff: int) | Ignored

  ghost function LocalAt(es: seq<Event>, k: nat): set<U32>
    requires k <= |es|
  {
    if k == 0 then {} else if es[k - 1].Local? then es[k - 1].held else LocalAt(es, k - 1)
  }

  /** The table after the first `k` events of a server's life. */
  ghost function At(es: seq<Event>, k: nat): State
    requires k <= |es|
  {
    if k == 0 then State(map[], map[]) else
    var s, e := At(es, k - 1), es[k - 1];
    match e
    case Sync(remote, ids, now) => Synced(s, remote, ids, LocalAt(es, k - 1), now)
    case Local(_) => s
    case Sweep(cutoff) => Swept(s, cutoff)
    case Ignored => s
  }

  ghost predicate SyncsFrom(e: Event, key: Key) {
    e.Sync? && KeyOf(e.remote) == key
  }

  /** Event `i` is a sync that lists `id` while it is not registered here. */
  ghost predicate Publishes(es: seq<Event>, i: nat, id: U32)
    requires i < |es|
  {
    es[i].Sync? && id in es[i].ids && id !in LocalAt(es, i)
  }

  /** Sync `i` is the latest from its source before `k`, and no sweep since has expired it. */
  ghost predicate Current(es: seq<Event>, k: nat, i: nat)
    requires k <= |es|
  {
    && i < k && es[i].Sync?
    && (forall j :: i < j < k ==> !SyncsFrom(es[j], KeyOf(es[i].remote)))
    && (forall j :: i < j < k && es[j].Sweep? ==> es[j].cutoff <= es[i].now)
  }

  /** ... and also the latest, from any source, to publish `id`. */
  ghost predicate Carries(es: seq<Event>, k: nat, id: U32, i: nat)
    requires k <= |es|
  {
    Current(es, k, i) && Publishes(es, i, id) && forall j :: i < j < k ==> !Publishes(es, j, id)
  }

  lemma {:induction false} CurrentIsSeen(es: seq<Event>, k: nat, i: nat)
    requires k <= |es| && Current(es, k, i)
    ensures var key := KeyOf(es[i].remote); key in At(es, k).seen && At(es, k).seen[key] == es[i].now
  {
    if i < k - 1 {
      CurrentIsSeen(es, k - 1, i);
    }
  }

  lemma {:induction false} SeenIsCurrent(es: seq<Event>, k: nat, key: Key)
    requires k <= |es| && key in At(es, k).seen
    ensures exists i: nat :: Current(es, k, i) && KeyOf(es[i].remote) == key && es[i].now == At(es, k).seen[key]
  {
    var n := k - 1;
    if SyncsFrom(es[n], key) {
      assert Current(es, k, n);
    } else {
      SeenIsCurrent(es, n, key);
      var i: nat :| Current(es, n, i) && KeyOf(es[i].remote) == key && es[i].now == At(es, n).seen[key];
      assert Current(es, k, i);
    }
  }

  lemma {:induction false} CarriedIsRouted(es: seq<Event>, k: nat, id: U32, i: nat)
    requires k <= |es| && Carries(es, k, id, i)
    ensures id in At(es, k).routes && At(es, k).routes[id] == es[i].remote
  {
    var n := k - 1;
    if i < n {
      CarriedIsRouted(es, n, id, i);
      CurrentIsSeen(es, n, i);
      assert !SyncsFrom(es[n], KeyOf(es[i].remote)) && !Publishes(es, n, id);
    }
  }

  /** A route that event `n` did not publish was there before, and event `n` neither withdrew nor expired it. */
  lemma RouteWasThere(es: seq<Event>, n: nat, id: U32)
    requires n < |es| && id in At(es, n + 1).routes && !Publishes(es, n, id)
    ensures id in At(es, n).routes && At(es, n).routes[id] == At(es, n + 1).routes[id]
    ensures var key := KeyOf(At(es, n).routes[id]);
            && !SyncsFrom(es[n], key)
            && (es[n].Sweep? && key in At(es, n).seen ==> es[n].cutoff <= At(es, n).seen[key])
  {
  }

  lemma {:induction false} RoutedIsCarried(es: seq<Event>, k: nat, id: U32)
    requires k <= |es| && id in At(es, k).routes
    ensures exists i: nat :: Carries(es, k, id, i) && es[i].remote == At(es, k).routes[id]
  {
    var n := k - 1;
    if Publishes(es, n, id) {
      assert Carries(es, k, id, n);
    } else {
      RouteWasThere(es, n, id);
      RoutedIsCarried(es, n, id);
      var i: nat :| Carries(es, n, id, i) && es[i].remote == At(es, n).routes[id];
      CurrentIsSeen(es, n, i);
      assert Carries(es, k, id, i);
    }
  }

  /**
   * In every run, `id` is routed to `a` exactly when the latest accepted sync that listed `id` while it was
   * not local came from `a`, and that source has neither synced again nor been expired since.
   */
  lemma {:induction false} RouteMeaning(es: seq<Event>, k: nat, id: U32, a: Addr)
    requires k <= |es|
    ensures (id in At(es, k).routes && At(es, k).routes[id] == a) <==>
            (exists i: nat :: Carries(es, k, id, i) && es[i].remote == a)
  {
    if id in At(es, k).routes && At(es, k).routes[id] == a {
      RoutedIsCarried(es, k, id);
    }
    forall i: nat | Carries(es, k, id, i) && es[i].remote == a
      ensures id in At(es, k).routes && At(es, k).routes[id] == a
    {
      CarriedIsRouted(es, k, id, i);
    }
  }

  /** The "last heard" map holds exactly the unexpired latest sync of each source. */
  lemma {:induction false} SeenMeaning(es: seq<Event>, k: nat, key: Key, t: int)
    requires k <= |es|
    ensures (key in At(es, k).seen && At(es, k).seen[key] == t) <==>
            (exists i: nat :: Current(es, k, i) && KeyOf(es[i].remote) == key && es[i].now == t)
  {
    if key in At(es, k).seen {
      SeenIsCurrent(es, k, key);
    }
    forall i: nat | Current(es, k, i) && KeyOf(es[i].remote) == key
      ensures key in At(es, k).seen && At(es, k).seen[key] == es[i].now
    {
      CurrentIsSeen(es, k, i);
    }
  }

  /** Every route's owner is in the "last heard" map, and right after a sweep it was heard at or after the cutoff. */
  lemma {:induction false} OwnersAreHeard(es: seq<Event>, k: nat, id: U32)
    requires k <= |es| && id in At(es, k).routes
    ensures var owner := KeyOf(At(es, k).routes[id]);
            && owner in At(es, k).seen
            && (es[k - 1].Sweep? ==> At(es, k).seen[owner] >= es[k - 1].cutoff)
  {
    RoutedIsCarried(es, k, id);
    var i: nat :| Carries(es, k, id, i) && es[i].remote == At(es, k).routes[id];
    CurrentIsSeen(es, k, i);
  }

  /**
   * What does not hold: an id in some source's current list need not be routed. Two sources list 7; the one
   * that listed it last syncs again without it, and the route goes although the other still lists it.
   * `RouteMeaning` gives the exact condition: the last source to publish the id must be the one still listing it.
   */
  lemma ListedButUnrouted()
    ensures exists es: seq<Event>, i: nat :: Current(es, |es|, i) && Publishes(es, i, 7) && 7 !in At(es, |es|).routes
  {
    var x, y := Addr([10, 0, 0, 1], 9001), Addr([10, 0, 0, 2], 9001);
    var es := [Sync(x, [7], 0), Sync(y, [7], 1), Sync(y, [], 2)];
    assert KeyOf(x).ip[15] != KeyOf(y).ip[15];
    assert LocalAt(es, 0) == {} && Publishes(es, 0, 7) && Current(es, 3, 0);
    assert LocalAt(es, 1) == {} && Publishes(es, 1, 7);
    forall i: nat
      ensures !Carries(es, 3, 7, i)
    {
      assert SyncsFrom(es[2], KeyOf(es[1].remote));
    }
    if 7 in At(es, 3).routes {
      RoutedIsCarried(es, 3, 7);
      assert false;
    }
  }
}
