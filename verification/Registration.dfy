/**
 * Registration: discovers, punch refreshes and the reaper, acting on the node table, the discover limiter
 * and the per-node marks.
 */
module Registration {
  import opened Base
  import opened Address
  import opened Wire
  import opened NodeTable
  import IL = IntervalLimiter

  const TTL := 10 * MINUTE
  const MAX_NODES := 500_000
  const KEY_SIZE := 32

  /** `keys`: discovered public keys. `dst`: endpoints that want the destination id in deliveries. */
  datatype State = State(nodes: Table, last: map<U32, int>, keys: map<U32, Bytes>, dst: set<U32>)

  /**
   * One handled message or one reaper tick, with every clock reading it takes: a discover compares at
   * `check`, records at `stamp` and registers at `seen`; the reaper fixes its threshold at `now` and
   * sweeps the limiter at `later`.
   */
  datatype Event =
    | Discover(id: U32, addr: Addr, wantDest: bool, key: Option<Bytes>, check: int, stamp: int, seen: int)
    | Punch(id: U32, addr: Addr, now: int)
    | Reap(now: int, later: int)

  /** The endpoints exchanged by one punch: the requester's goes to the target and the target's to the requester. */
  datatype Punches = Punches(requester: Addr, target: Addr)

  /** `(k * 2654435761) & 255` on 32-bit words. */
  function Shard(k: U32): int { k * 2654435761 % 0x1_0000_0000 % IL.SHARDS }

  /** What a discover leaves behind whether or not its endpoint update is allowed. */
  ghost function Marked(s: State, id: U32, wantDest: bool, key: Option<Bytes>): State {
    State(
      s.nodes, s.last,
      if key.Some? && id !in s.keys then s.keys[id := key.value] else s.keys,
      if wantDest then s.dst + {id} else s.dst)
  }

  ghost function Discovered(s: State, e: Event): State
    requires e.Discover?
  {
    var marked := Marked(s, e.id, e.wantDest, e.key);
    if IL.Allows(s.last, e.id, IL.DISCOVER_INTERVAL, e.check) then
      marked.(nodes := Upserted(s.nodes, e.id, e.addr, e.seen, MAX_NODES), last := s.last[e.id := e.stamp])
    else marked
  }

  ghost function Restrict(keys: map<U32, Bytes>, nodes: Table): map<U32, Bytes> {
    map id | id in keys && id in nodes :: keys[id]
  }

  ghost function AfterReap(s: State, now: int, later: int): State {
    var nodes := Reaped(s.nodes, now - TTL);
    State(nodes, IL.Swept(s.last, later - IL.DISCOVER_SWEEP_AGE),
          Restrict(s.keys, nodes), s.dst * nodes.Keys)
  }

  ghost function Step(s: State, e: Event): State {
    match e
    case Discover(_, _, _, _, _, _, _) => Discovered(s, e)
    case Punch(id, addr, now) => s.(nodes := Upserted(s.nodes, id, addr, now, MAX_NODES))
    case Reap(now, later) => AfterReap(s, now, later)
  }

  /** The fields of the server that registration touches. */
  class Registry {
    const nodes: NodeMap
    const limiter: IL.Limiter<U32>
    var keys: map<U32, Bytes>
    var dst: set<U32>

    ghost predicate Valid()
      reads nodes.shards, limiter.shards
    {
      nodes.Valid() && limiter.Valid() && nodes.shards as object != limiter.shards
    }

    ghost function Current(): State
      requires Valid()
      reads this, nodes.shards, limiter.shards
    {
      State(nodes.Nodes(), limiter.Last(), keys, dst)
    }

    constructor ()
      ensures Valid() && Current() == State(map[], map[], map[], {})
    {
      nodes := new NodeMap();
      limiter := new IL.Limiter<U32>(Shard);
      keys, dst := map[], {};
    }

    method Mark(id: U32, data: Bytes, wantDest: bool)
      requires Valid()
      modifies this`keys, this`dst
      ensures Valid() && Current() == Marked(old(Current()), id, wantDest, CarriedKey(data))
      ensures |data| >= 36 && id !in old(keys) ==> keys == old(keys)[id := data[4..36]]
      ensures |data| < 36 || id in old(keys) ==> keys == old(keys)
    {
      if wantDest {
        dst := dst + {id};
      }
      if |data| >= 4 + KEY_SIZE && id !in keys {
        keys := keys[id := data[4..4 + KEY_SIZE]];
      }
    }

    /** The rate-limited endpoint update; `refused` says that it was allowed but the table had no room. */
    method Update(id: U32, addr: Addr, check: int, stamp: int, seen: int) returns (refused: bool)
      requires Valid()
      modifies nodes.shards, limiter.shards
      ensures Valid() && Current() == Step(old(Current()), Discover(id, addr, false, None, check, stamp, seen))
      ensures refused <==> IL.Allows(old(Current()).last, id, IL.DISCOVER_INTERVAL, check) && id !in Current().nodes
    {
      refused := false;
      var ok := limiter.Allow(id, IL.DISCOVER_INTERVAL, check, stamp);
      if ok {
        var _, atCapacity := nodes.Upsert(id, addr, seen, MAX_NODES);
        refused := atCapacity;
      }
    }

    /**
     * `handleDiscover`. A body below 4 bytes or an open breaker changes nothing. The observed address is sent back
     * once the socket is `bound`, also to a node whose update is skipped, but not to one refused for want of room.
     */
    method HandleDiscover(data: Bytes, addr: Addr, wantDest: bool, breakerOpen: bool, bound: bool, check: int, stamp: int, seen: int)
      returns (reply: Option<Bytes>)
      requires Valid()
      modifies this, nodes.shards, limiter.shards
      ensures Valid()
      ensures |data| < 4 || breakerOpen ==> Current() == old(Current()) && reply == None
      ensures |data| >= 4 && !breakerOpen ==>
                var id := GetU32(data[..4]);
                reply == if (IL.Allows(old(Current()).last, id, IL.DISCOVER_INTERVAL, check) && id !in Current().nodes) || !bound
                         then None else DiscoverReply(addr)
      ensures |data| >= 36 && !breakerOpen && GetU32(data[..4]) !in old(keys) ==>
                keys == old(keys)[GetU32(data[..4]) := data[4..36]]
      ensures |data| >= 4 && !breakerOpen ==>
                Current() == Step(old(Current()), Discover(GetU32(data[..4]), addr, wantDest, CarriedKey(data), check, stamp, seen))
    {
      if |data| < 4 || breakerOpen {
        return None;
      }
      var id := GetU32(data[..4]);
      Mark(id, data, wantDest);
      var refused := Update(id, addr, check, stamp, seen);
      reply := if refused || !bound then None else DiscoverReply(addr);
    }

    /**
     * `handlePunchRequest` past its two gates: `admitted` by the rate limit and `granted` by the token check.
     * Refreshes the requester and, when both ends are registered, tells each of them the other's endpoint.
     */
    method HandlePunchRequest(data: Bytes, addr: Addr, admitted: bool, granted: bool, now: int) returns (told: Option<Punches>)
      requires Valid()
      modifies nodes.shards
      ensures Valid()
      ensures |data| < 8 || !admitted || !granted ==> Current() == old(Current()) && told == None
      ensures |data| >= 8 && admitted && granted ==>
                var r, t, after := GetU32(data[..4]), GetU32(data[4..8]), Current().nodes;
                && Current() == Step(old(Current()), Punch(r, addr, now))
                && told == (if t in after && r in after then Some(Punches(addr, after[t].addr)) else None)
    {
      if |data| < 8 || !admitted || !granted {
        return None;
      }
      var r, t := GetU32(data[..4]), GetU32(data[4..8]);
      var _, _ := nodes.Upsert(r, addr, now, MAX_NODES);
      var target := nodes.Snapshot(t);
      var requester := nodes.Snapshot(r);
      if target.None? || requester.None? {
        return None;
      }
      told := Some(Punches(requester.value, target.value));
    }

    /** Deletes the key of every node that is not registered. */
    method ForgetKeys()
      requires Valid()
      modifies this`keys
      ensures keys == Restrict(old(keys), nodes.Nodes())
    {
      var todo := keys.Keys;
      while todo != {}
        invariant todo <= keys.Keys && keys.Keys <= old(keys).Keys
        invariant forall k :: k in keys ==> keys[k] == old(keys)[k] && (k in todo || k in nodes.Nodes())
        invariant forall k :: k in old(keys) && k in nodes.Nodes() ==> k in keys
        decreases todo
      {
        var k :| k in todo;
        todo := todo - {k};
        var present := nodes.Has(k);
        if !present {
          keys := keys - {k};
        }
      }
    }

    /** Deletes the delivery mark of every node that is not registered. */
    method ForgetMarks()
      requires Valid()
      modifies this`dst
      ensures dst == old(dst) * nodes.Nodes().Keys
    {
      var todo := dst;
      while todo != {}
        invariant todo <= dst && dst <= old(dst)
        invariant forall k :: k in dst ==> k in todo || k in nodes.Nodes()
        invariant forall k :: k in old(dst) && k in nodes.Nodes() ==> k in dst
        decreases todo
      {
        var k :| k in todo;
        todo := todo - {k};
        var present := nodes.Has(k);
        if !present {
          dst := dst - {k};
        }
      }
    }

    /** `reapStaleNodes` on these fields. */
    method ReapStaleNodes(now: int, later: int)
      requires Valid()
      modifies this, nodes.shards, limiter.shards
      ensures Valid() && Current() == Step(old(Current()), Event.Reap(now, later))
    {
      ghost var s := Current();
      var _ := nodes.ReapStale(now - TTL);
      limiter.Sweep(later - IL.DISCOVER_SWEEP_AGE);
      assert nodes.Nodes() == Reaped(s.nodes, now - TTL);
      assert limiter.Last() == IL.Swept(s.last, later - IL.DISCOVER_SWEEP_AGE);
      ForgetKeys();
      ForgetMarks();
      assert nodes.Nodes() == Reaped(s.nodes, now - TTL);
      assert Current() == AfterReap(s, now, later);
    }
  }

  function CarriedKey(data: Bytes): Option<Bytes> {
    if |data| >= 4 + KEY_SIZE then Some(data[4..4 + KEY_SIZE]) else None
  }

  // ---- whole runs ----

  function Begins(e: Event): int {
    if e.Discover? then e.check else e.now
  }

  function Ends(e: Event): int {
    match e
    case Discover(_, _, _, _, _, _, seen) => seen
    case Punch(_, _, now) => now
    case Reap(_, later) => later
  }

  predicate InOrder(e: Event) {
    match e
    case Discover(_, _, _, _, check, stamp, seen) => check <= stamp <= seen
    case Punch(_, _, _) => true
    case Reap(now, later) => now <= later
  }

  ghost predicate Ordered(es: seq<Event>) {
    && (forall i :: 0 <= i < |es| ==> InOrder(es[i]))
    && (forall i, j :: 0 <= i < j < |es| ==> Ends(es[i]) <= Begins(es[j]))
  }

  const EMPTY := State(map[], map[], map[], {})

  /** The state after the first `k` events of a server's life. */
  ghost function At(es: seq<Event>, k: nat): State
    requires k <= |es|
  {
    if k == 0 then EMPTY else Step(At(es, k - 1), es[k - 1])
  }

  /** Nothing recorded is in the future, and a registered node was seen no earlier than its last allowed discover. */
  ghost predicate Consistent(s: State, clock: int) {
    && (forall id :: id in s.nodes ==> s.nodes[id].lastSeen <= clock)
    && (forall id :: id in s.last ==> s.last[id] <= clock)
    && (forall id :: id in s.nodes && id in s.last ==> s.nodes[id].lastSeen >= s.last[id])
  }

  lemma StepConsistent(s: State, e: Event, clock: int)
    requires Consistent(s, clock) && clock <= Begins(e) && InOrder(e)
    ensures Consistent(Step(s, e), Ends(e))
  {
  }

  lemma {:induction false} RunConsistent(es: seq<Event>, k: nat)
    requires Ordered(es) && k <= |es|
    ensures k == 0 ==> At(es, k) == EMPTY
    ensures k > 0 ==> Consistent(At(es, k), Ends(es[k - 1]))
  {
    if k == 0 {
    } else {
      RunConsistent(es, k - 1);
      StepConsistent(At(es, k - 1), es[k - 1], if k == 1 then Begins(es[0]) else Ends(es[k - 2]));
    }
  }

  /** A node registered at `k` was seen less than one limiter interval before any discover it ever sent. */
  lemma {:induction false} SeenSinceDiscover(es: seq<Event>, d: nat, k: nat, id: U32)
    requires Ordered(es) && d < k <= |es|
    requires es[d].Discover? && es[d].id == id && id in At(es, k).nodes
    ensures At(es, k).nodes[id].lastSeen > es[d].check - IL.DISCOVER_INTERVAL
  {
    RunConsistent(es, k - 1);
    if d < k - 1 {
      assert Ends(es[d]) <= Begins(es[k - 1]);
      if id in At(es, k - 1).nodes {
        SeenSinceDiscover(es, d, k - 1, id);
      }
    }
  }

  /** The longest silence a registered node survives: 9.5 minutes and one clock tick. */
  const GRACE := 9 * MINUTE + 30 * SECOND + 1

  /** Event `m` comes at most `gap` after some earlier discover of `id`. */
  ghost predicate HeardWithin(es: seq<Event>, m: nat, id: U32, gap: int)
    requires m < |es|
  {
    exists d :: 0 <= d < m && es[d].Discover? && es[d].id == id && Begins(es[m]) - es[d].check <= gap
  }

  /** Every event from `i` up to `j` comes at most `gap` after some discover of `id`. */
  ghost predicate Heartbeat(es: seq<Event>, i: nat, j: nat, id: U32, gap: int)
    requires i <= j <= |es|
  {
    forall m :: i <= m < j ==> HeardWithin(es, m, id, gap)
  }

  lemma ReapSpares(es: seq<Event>, d: nat, m: nat, id: U32)
    requires Ordered(es) && d < m < |es| && es[m].Reap?
    requires es[d].Discover? && es[d].id == id && es[m].now - es[d].check <= GRACE
    requires id in At(es, m).nodes
    ensures id in At(es, m + 1).nodes
  {
    SeenSinceDiscover(es, d, m, id);
  }

  lemma {:induction false} HeartbeatKeeps(es: seq<Event>, i: nat, j: nat, id: U32, gap: int)
    requires Ordered(es) && i <= j <= |es| && gap <= GRACE
    requires id in At(es, i).nodes && Heartbeat(es, i, j, id, gap)
    ensures id in At(es, j).nodes
    decreases j
  {
    if i < j {
      var m := j - 1;
      HeartbeatKeeps(es, i, m, id, gap);
      if es[m].Reap? {
        assert HeardWithin(es, m, id, gap);
        var d :| 0 <= d < m && es[d].Discover? && es[d].id == id && Begins(es[m]) - es[d].check <= gap;
        ReapSpares(es, d, m, id);
      }
    }
  }

  /**
   * A registered node that keeps sending discovers is never reaped, although the limiter ignores most of
   * them: that holds in every run exactly for gaps of at most 9.5 minutes (and one tick).
   */
  lemma NeverReapedIff(gap: int)
    ensures (forall es, i: nat, j: nat, id: U32 ::
               Ordered(es) && i <= j <= |es| && id in At(es, i).nodes && Heartbeat(es, i, j, id, gap) ==> id in At(es, j).nodes)
            <==> gap <= GRACE
  {
    if gap <= GRACE {
      forall es, i: nat, j: nat, id: U32 | Ordered(es) && i <= j <= |es| && id in At(es, i).nodes && Heartbeat(es, i, j, id, gap)
        ensures id in At(es, j).nodes
      {
        HeartbeatKeeps(es, i, j, id, gap);
      }
    } else {
      SilenceReaps(gap);
    }
  }

  /** Registered at 0, heard again just inside the limiter interval, reaped `gap` after that. */
  ghost function SilentRun(gap: int): seq<Event> {
    var a := Addr([127, 0, 0, 1], 1);
    var again := IL.DISCOVER_INTERVAL - 1;
    [Discover(7, a, false, None, 0, 0, 0), Discover(7, a, false, None, again, again, again), Event.Reap(again + gap, again + gap)]
  }

  lemma SilenceReaps(gap: int)
    requires gap > GRACE
    ensures var es := SilentRun(gap);
            Ordered(es) && 7 in At(es, 1).nodes && Heartbeat(es, 1, 3, 7, gap) && 7 !in At(es, 3).nodes
  {
    var es := SilentRun(gap);
    assert At(es, 0) == EMPTY;
    assert Neighbours(map[], 7) == {};
    assert At(es, 1).nodes[7].lastSeen == 0 && At(es, 1).last == map[7 := 0];
    assert At(es, 2).nodes == At(es, 1).nodes;
    assert es[0].Discover? && es[1].Discover?;
  }

  /** Upserting events are the only ones that renew a registration. */
  ghost predicate Renews(e: Event, id: U32, time: int) {
    (e.Discover? && e.id == id && e.seen == time) || (e.Punch? && e.id == id && e.now == time)
  }

  lemma {:induction false} RegisteredByEvent(es: seq<Event>, k: nat, id: U32)
    requires k <= |es| && id in At(es, k).nodes
    ensures exists d :: 0 <= d < k && Renews(es[d], id, At(es, k).nodes[id].lastSeen)
  {
    var e, before := es[k - 1], At(es, k - 1);
    if id in before.nodes && At(es, k).nodes[id].lastSeen == before.nodes[id].lastSeen {
      RegisteredByEvent(es, k - 1, id);
    } else {
      assert Renews(e, id, At(es, k).nodes[id].lastSeen);
    }
  }

  /** A node that survives a reap sent a discover or a punch in the 10 minutes before it; any other is gone. */
  lemma SurvivorsAreRecent(es: seq<Event>, m: nat, id: U32)
    requires m < |es| && es[m].Reap? && id in At(es, m + 1).nodes
    ensures exists d, time :: 0 <= d < m && Renews(es[d], id, time) && time >= es[m].now - TTL
  {
    RegisteredByEvent(es, m + 1, id);
    var d :| 0 <= d < m + 1 && Renews(es[d], id, At(es, m + 1).nodes[id].lastSeen);
    assert d < m;
  }

  // ---- discovered keys ----

  ghost predicate Binds(e: Event, id: U32) {
    e.Discover? && e.id == id && e.key.Some?
  }

  /** Event `m` is a reap that finds `id` unregistered. */
  ghost predicate Clears(es: seq<Event>, m: nat, id: U32)
    requires m < |es|
  {
    es[m].Reap? && id !in At(es, m + 1).nodes
  }

  ghost predicate ClearedBetween(es: seq<Event>, c: nat, k: nat, id: U32)
    requires k <= |es|
  {
    exists m :: c < m < k && Clears(es, m, id)
  }

  /** Discover `d` is the first to carry a key for `id` since the last reap that found it absent. */
  ghost predicate FirstBinding(es: seq<Event>, k: nat, id: U32, d: nat)
    requires k <= |es|
  {
    && d < k && Binds(es[d], id)
    && (forall m :: d < m < k ==> !Clears(es, m, id))
    && (forall c :: 0 <= c < d && Binds(es[c], id) ==> ClearedBetween(es, c, d, id))
  }

  lemma {:induction false} KeyHasBinding(es: seq<Event>, k: nat, id: U32) returns (d: nat)
    requires k <= |es| && id in At(es, k).keys
    ensures FirstBinding(es, k, id, d) && es[d].key == Some(At(es, k).keys[id])
  {
    var n := k - 1;
    if id in At(es, n).keys {
      d := KeyHasBinding(es, n, id);
    } else {
      d := n;
      forall c | 0 <= c < n && Binds(es[c], id)
        ensures ClearedBetween(es, c, n, id)
      {
        UnboundWasCleared(es, c, n, id);
      }
    }
  }

  lemma {:induction false} UnboundWasCleared(es: seq<Event>, c: nat, k: nat, id: U32)
    requires c < k <= |es| && Binds(es[c], id) && id !in At(es, k).keys
    ensures ClearedBetween(es, c, k, id)
  {
    if id in At(es, k - 1).keys {
      assert Clears(es, k - 1, id);
    } else if c < k - 1 {
      UnboundWasCleared(es, c, k - 1, id);
    }
  }

  lemma {:induction false} BindingIsUnique(es: seq<Event>, k: nat, id: U32, d: nat, f: nat)
    requires k <= |es| && FirstBinding(es, k, id, d) && FirstBinding(es, k, id, f)
    ensures d == f
  {
  }

  /**
   * In every run the key held for a node is the one carried by the first keyed discover since a reap last
   * found the node absent, and there is one exactly while such a discover exists: later discovers, from
   * whatever address, never replace it.
   */
  lemma KeyMeaning(es: seq<Event>, k: nat, id: U32, key: Bytes)
    requires k <= |es|
    ensures (id in At(es, k).keys && At(es, k).keys[id] == key) <==>
            (exists d: nat :: FirstBinding(es, k, id, d) && es[d].key == Some(key))
  {
    if id in At(es, k).keys {
      var d := KeyHasBinding(es, k, id);
      forall f: nat | FirstBinding(es, k, id, f)
        ensures f == d
      {
        BindingIsUnique(es, k, id, d, f);
      }
    } else {
      forall d: nat | FirstBinding(es, k, id, d)
        ensures false
      {
        UnboundWasCleared(es, d, k, id);
      }
    }
  }

  /** Right after a reap every key and every delivery mark belongs to a registered node. */
  lemma MarksBelongToNodes(es: seq<Event>, m: nat)
    requires m < |es| && es[m].Reap?
    ensures At(es, m + 1).keys.Keys <= At(es, m + 1).nodes.Keys
    ensures At(es, m + 1).dst <= At(es, m + 1).nodes.Keys
  {
  }
}
