/** What the node table and the delivery marks mean, in terms of the whole run that led to them. */
module RegistrationHistory {
  import opened Base
  import opened Address
  import NT = NodeTable
  import opened Registration
  import IL = IntervalLimiter

  // ---- which discovers update the endpoint ----

  /** Discover `d` may update: no discover of the same id that did was recorded within 30 s before its check. */
  ghost predicate Allowed(es: seq<Event>, d: nat)
    requires d < |es|
    decreases d
  {
    es[d].Discover? && forall c :: 0 <= c < d && es[c].Discover? && es[c].id == es[d].id && Allowed(es, c) ==>
      es[d].check - es[c].stamp >= 30 * SECOND
  }

  ghost predicate Recorded(es: seq<Event>, c: nat, id: U32) {
    c < |es| && es[c].Discover? && es[c].id == id && Allowed(es, c)
  }

  /** What the limiter remembers of the allowed discovers of `id` before `k`: the latest, unless all are 30 s old. */
  ghost predicate Remembers(es: seq<Event>, k: nat, id: U32)
    requires k <= |es|
  {
    var last := At(es, k).last;
    && (forall c: nat :: c < k && Recorded(es, c, id) ==>
          (id in last && last[id] >= es[c].stamp) || Ends(es[k - 1]) - es[c].stamp >= 30 * SECOND)
    && (id in last ==> exists c: nat :: c < k && Recorded(es, c, id) && es[c].stamp == last[id])
  }

  lemma AllowsIff(es: seq<Event>, k: nat)
    requires Ordered(es) && k < |es| && es[k].Discover? && Remembers(es, k, es[k].id)
    ensures IL.Allows(At(es, k).last, es[k].id, IL.DISCOVER_INTERVAL, es[k].check) <==> Allowed(es, k)
  {
    var id, last := es[k].id, At(es, k).last;
    if Allowed(es, k) && id in last {
      var c: nat :| c < k && Recorded(es, c, id) && es[c].stamp == last[id];
    }
    if IL.Allows(last, id, IL.DISCOVER_INTERVAL, es[k].check) {
      forall c | 0 <= c < k && es[c].Discover? && es[c].id == id && Allowed(es, c)
        ensures es[k].check - es[c].stamp >= 30 * SECOND
      {
        assert Recorded(es, c, id);
        assert Ends(es[k - 1]) <= Begins(es[k]);
      }
    }
  }

  lemma {:induction false} RunRemembers(es: seq<Event>, k: nat, id: U32)
    requires Ordered(es) && k <= |es|
    ensures Remembers(es, k, id)
  {
    if k == 0 {
    } else {
      var n := k - 1;
      RunRemembers(es, n, id);
      if es[n].Discover? && es[n].id == id {
        AllowsIff(es, n);
      }
      StepRemembers(es, n, id);
    }
  }

  lemma StepRemembers(es: seq<Event>, n: nat, id: U32)
    requires Ordered(es) && n < |es| && Remembers(es, n, id)
    requires es[n].Discover? && es[n].id == id ==>
               (IL.Allows(At(es, n).last, id, IL.DISCOVER_INTERVAL, es[n].check) <==> Allowed(es, n))
    ensures Remembers(es, n + 1, id)
  {
    var last, next := At(es, n).last, At(es, n + 1).last;
    forall c: nat | c < n + 1 && Recorded(es, c, id)
      ensures (id in next && next[id] >= es[c].stamp) || Ends(es[n]) - es[c].stamp >= 30 * SECOND
    {
      if c < n {
        assert Ends(es[c]) <= Begins(es[n]) && Ends(es[n - 1]) <= Begins(es[n]);
      }
    }
    if id in next {
      if es[n].Discover? && es[n].id == id && Allowed(es, n) {
        assert Recorded(es, n, id);
      } else {
        var c: nat :| c < n && Recorded(es, c, id) && es[c].stamp == last[id];
      }
    }
  }

  // ---- nodes ----

  /** The id is registered at `d`, or fewer than 500,000 / 64 nodes with its last six bits are. */
  ghost predicate HasPlace(es: seq<Event>, d: nat, id: U32)
    requires d <= |es|
  {
    id in At(es, d).nodes || |set x | x in At(es, d).nodes && x % 64 == id % 64| < 500_000 / 64
  }

  /** Event `d` registers or refreshes `id`: a punch or an allowed discover of it that finds a place. */
  ghost predicate Renewal(es: seq<Event>, d: nat, id: U32) {
    d < |es| && (Recorded(es, d, id) || (es[d].Punch? && es[d].id == id)) && HasPlace(es, d, id)
  }

  function TimeOf(e: Event): int
    requires !e.Reap?
  {
    if e.Discover? then e.seen else e.now
  }

  /** Renewal `d` is the latest of `id`, and no reap since found it more than 10 minutes old. */
  ghost predicate Registers(es: seq<Event>, k: nat, id: U32, d: nat)
    requires k <= |es|
  {
    && d < k && Renewal(es, d, id)
    && (forall m: nat :: d < m < k ==> !Renewal(es, m, id))
    && (forall m :: d < m < k && es[m].Reap? ==> es[m].now - 10 * MINUTE <= TimeOf(es[d]))
  }

  lemma FullIff(t: NT.Table, id: U32)
    ensures NT.Full(t, id, MAX_NODES) <==> !(|set x | x in t && x % 64 == id % 64| < 500_000 / 64)
  {
    assert NT.Neighbours(t, id) == set x | x in t && x % 64 == id % 64;
  }

  /** What one event does to one node. */
  lemma NodeStep(es: seq<Event>, n: nat, id: U32)
    requires Ordered(es) && n < |es|
    ensures var s, t := At(es, n).nodes, At(es, n + 1).nodes;
            && (Renewal(es, n, id) ==> id in t && t[id].addr == es[n].addr && t[id].lastSeen == TimeOf(es[n]))
            && (!Renewal(es, n, id) ==>
                  && (id in t <==> id in s && (es[n].Reap? ==> es[n].now - 10 * MINUTE <= s[id].lastSeen))
                  && (id in t ==> t[id] == s[id]))
  {
    FullIff(At(es, n).nodes, id);
    if es[n].Discover? && es[n].id == id {
      RunRemembers(es, n, id);
      AllowsIff(es, n);
    }
  }

  lemma RegistersOn(es: seq<Event>, n: nat, id: U32, d: nat)
    requires n < |es| && Registers(es, n, id, d) && !Renewal(es, n, id)
    requires es[n].Reap? ==> es[n].now - 10 * MINUTE <= TimeOf(es[d])
    ensures Registers(es, n + 1, id, d)
  {
  }

  lemma {:induction false} RegisteredWasRenewed(es: seq<Event>, k: nat, id: U32) returns (d: nat)
    requires Ordered(es) && k <= |es| && id in At(es, k).nodes
    ensures Registers(es, k, id, d)
    ensures At(es, k).nodes[id].addr == es[d].addr && At(es, k).nodes[id].lastSeen == TimeOf(es[d])
  {
    if k == 0 {
      assert false;
    } else {
      var n := k - 1;
      NodeStep(es, n, id);
      if Renewal(es, n, id) {
        d := n;
      } else {
        d := RegisteredWasRenewed(es, n, id);
        RegistersOn(es, n, id, d);
      }
    }
  }

  lemma {:induction false} RenewedIsRegistered(es: seq<Event>, k: nat, id: U32, d: nat)
    requires Ordered(es) && k <= |es| && Registers(es, k, id, d)
    ensures id in At(es, k).nodes
    ensures At(es, k).nodes[id].addr == es[d].addr && At(es, k).nodes[id].lastSeen == TimeOf(es[d])
    decreases k
  {
    var n := k - 1;
    NodeStep(es, n, id);
    if d < n {
      RenewedIsRegistered(es, n, id, d);
    }
  }

  /**
   * In every run a node is registered at address `a` with last-seen time `t` if and only if the latest of its punches
   * and allowed discovers that found a place came from `a` at `t`, and no reap since found that too old.
   */
  lemma NodeMeaning(es: seq<Event>, k: nat, id: U32, a: Addr, t: int)
    requires Ordered(es) && k <= |es|
    ensures (id in At(es, k).nodes && At(es, k).nodes[id].addr == a && At(es, k).nodes[id].lastSeen == t) <==>
            (exists d: nat :: Registers(es, k, id, d) && es[d].addr == a && TimeOf(es[d]) == t)
  {
    if id in At(es, k).nodes {
      var d := RegisteredWasRenewed(es, k, id);
    }
    forall d: nat | Registers(es, k, id, d)
      ensures id in At(es, k).nodes && At(es, k).nodes[id].addr == es[d].addr && At(es, k).nodes[id].lastSeen == TimeOf(es[d])
    {
      RenewedIsRegistered(es, k, id, d);
    }
  }

  // ---- delivery marks ----

  /** Discover `d` asked for the destination in deliveries, and no reap since found the node unregistered. */
  ghost predicate Marks(es: seq<Event>, k: nat, id: U32, d: nat)
    requires k <= |es|
  {
    && d < k && es[d].Discover? && es[d].id == id && es[d].wantDest
    && forall m :: d < m < k ==> !Clears(es, m, id)
  }

  lemma {:induction false} MarkedHasDiscover(es: seq<Event>, k: nat, id: U32) returns (d: nat)
    requires k <= |es| && id in At(es, k).dst
    ensures Marks(es, k, id, d)
  {
    if k == 0 {
      assert false;
    } else {
      var n := k - 1;
      if es[n].Discover? && es[n].id == id && es[n].wantDest {
        d := n;
      } else {
        d := MarkedHasDiscover(es, n, id);
      }
    }
  }

  lemma {:induction false} DiscoverLeavesMark(es: seq<Event>, k: nat, id: U32, d: nat)
    requires k <= |es| && Marks(es, k, id, d)
    ensures id in At(es, k).dst
    decreases k
  {
    var n := k - 1;
    assert At(es, k) == Step(At(es, n), es[n]);
    if d < n {
      assert !Clears(es, n, id);
      DiscoverLeavesMark(es, n, id, d);
    }
  }

  /** A node is marked for destination-carrying delivery if and only if it asked for it since a reap last found it absent. */
  lemma MarkMeaning(es: seq<Event>, k: nat, id: U32)
    requires k <= |es|
    ensures id in At(es, k).dst <==> exists d: nat :: Marks(es, k, id, d)
  {
    if id in At(es, k).dst {
      var d := MarkedHasDiscover(es, k, id);
    }
    forall d: nat | Marks(es, k, id, d)
      ensures id in At(es, k).dst
    {
      DiscoverLeavesMark(es, k, id, d);
    }
  }
}
