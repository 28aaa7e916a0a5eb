/** The registered nodes: 64 independently locked shards standing for one table. */
module NodeTable {
  import opened Base
  import opened Address
  import opened Sharding

  const SHARDS := 64

  /** `lastNotify` is `None` while the source's field holds the zero time. */
  datatype Node = Node(addr: Addr, lastSeen: int, lastNotify: Option<int>)

  type Table = map<U32, Node>

  /** `nodeID & (nodeShardCount - 1)`. */
  function Home(id: U32): int { id % SHARDS }

  // ---- the single-table meaning of each operation ----

  ghost function Neighbours(t: Table, id: U32): set<U32> {
    set k | k in t && Home(k) == Home(id)
  }

  /** A new id is refused when its share of the cap is used up. */
  ghost predicate Full(t: Table, id: U32, maxTotal: int) {
    maxTotal > 0 && |Neighbours(t, id)| >= maxTotal / SHARDS
  }

  ghost function Upserted(t: Table, id: U32, addr: Addr, now: int, maxTotal: int): Table {
    if id in t then t[id := t[id].(addr := addr, lastSeen := now)]
    else if Full(t, id, maxTotal) then t
    else t[id := Node(addr, now, None)]
  }

  predicate Throttled(n: Node, now: int, minGap: int) {
    n.lastNotify.Some? && now - n.lastNotify.value < minGap
  }

  function Claimed(t: Table, id: U32, now: int, minGap: int): Table {
    if id in t && !Throttled(t[id], now, minGap) then t[id := t[id].(lastNotify := Some(now))] else t
  }

  ghost function Reaped(t: Table, threshold: int): Table {
    Keep(t, (n: Node) => n.lastSeen >= threshold)
  }

  // ---- the sharded table ----

  class NodeMap {
    const shards: array<map<U32, Node>>

    ghost predicate Valid()
      reads shards
    {
      shards.Length == SHARDS && Homed(shards[..], Home)
    }

    ghost function Nodes(): Table
      requires Valid()
      reads shards
    {
      Flat(shards[..], Home)
    }

    constructor ()
      ensures Valid() && Nodes() == map[] && fresh(shards)
    {
      shards := new map<U32, Node>[SHARDS](_ => map[]);
    }

    lemma ShardOf(id: U32)
      requires Valid()
      ensures Neighbours(Nodes(), id) == shards[Home(id)].Keys
      ensures id in Nodes() <==> id in shards[Home(id)]
      ensures id in Nodes() ==> Nodes()[id] == shards[Home(id)][id]
    {
      forall k: U32
        ensures k in Neighbours(Nodes(), id) <==> k in shards[Home(id)].Keys
      {
        FlatLookup(shards[..], Home, k);
      }
      FlatLookup(shards[..], Home, id);
    }

    method Store(id: U32, n: Node)
      requires Valid()
      modifies shards
      ensures Valid() && Nodes() == old(Nodes())[id := n]
    {
      FlatPut(shards[..], Home, id, n);
      ghost var before := shards[..];
      shards[Home(id)] := shards[Home(id)][id := n];
      assert shards[..] == before[Home(id) := before[Home(id)][id := n]];
    }

    method Upsert(id: U32, addr: Addr, now: int, maxTotal: int) returns (inserted: bool, atCapacity: bool)
      requires Valid()
      modifies shards
      ensures Valid() && Nodes() == Upserted(old(Nodes()), id, addr, now, maxTotal)
      ensures inserted == (id !in old(Nodes()) && !Full(old(Nodes()), id, maxTotal))
      ensures atCapacity == (id !in old(Nodes()) && Full(old(Nodes()), id, maxTotal))
    {
      ShardOf(id);
      var s := shards[Home(id)];
      if id in s {
        Store(id, s[id].(addr := addr, lastSeen := now));
        return false, false;
      }
      assert |s| == |s.Keys|;
      if maxTotal > 0 && |s| >= maxTotal / SHARDS {
        return false, true;
      }
      Store(id, Node(addr, now, None));
      return true, false;
    }

    method Snapshot(id: U32) returns (addr: Option<Addr>)
      requires Valid()
      ensures addr == if id in Nodes() then Some(Nodes()[id].addr) else None
    {
      ShardOf(id);
      var s := shards[Home(id)];
      addr := if id in s then Some(s[id].addr) else None;
    }

    method Has(id: U32) returns (ok: bool)
      requires Valid()
      ensures ok == (id in Nodes())
    {
      ShardOf(id);
      ok := id in shards[Home(id)];
    }

    method ClaimNotify(id: U32, now: int, minGap: int) returns (addr: Option<Addr>, throttled: bool)
      requires Valid()
      modifies shards
      ensures Valid() && Nodes() == Claimed(old(Nodes()), id, now, minGap)
      ensures addr == if id in old(Nodes()) then Some(old(Nodes())[id].addr) else None
      ensures throttled == (id in old(Nodes()) && Throttled(old(Nodes())[id], now, minGap))
    {
      ShardOf(id);
      var s := shards[Home(id)];
      if id !in s {
        return None, false;
      }
      var n := s[id];
      if n.lastNotify.Some? && now - n.lastNotify.value < minGap {
        return Some(n.addr), true;
      }
      Store(id, n.(lastNotify := Some(now)));
      return Some(n.addr), false;
    }

    method Len() returns (total: nat)
      requires Valid()
      ensures total == |Nodes()|
    {
      total := 0;
      for i := 0 to shards.Length
        invariant total == TotalSize(shards[..i])
      {
        assert shards[..i + 1][..i] == shards[..i];
        total := total + |shards[i]|;
      }
      assert shards[..shards.Length] == shards[..];
      FlatSize(shards[..], Home);
    }

    /** Lists every registered id exactly once, in no particular order. */
    method IDs() returns (out: seq<U32>)
      requires Valid()
      ensures NoDup(out) && Elems(out) == Nodes().Keys
      ensures |out| == |Nodes()|
    {
      out := [];
      for i := 0 to shards.Length
        invariant NoDup(out)
        invariant forall k :: k in out <==> Home(k) < i && k in shards[Home(k)]
      {
        var todo := shards[i].Keys;
        while todo != {}
          invariant todo <= shards[i].Keys && NoDup(out)
          invariant forall k :: k in out <==> k in shards[Home(k)] && (Home(k) < i || (Home(k) == i && k !in todo))
          decreases todo
        {
          var id :| id in todo;
          todo := todo - {id};
          out := out + [id];
        }
      }
      forall k: U32
        ensures k in Elems(out) <==> k in Nodes()
      {
        FlatLookup(shards[..], Home, k);
      }
      NoDupLength(out);
      assert |Nodes()| == |Nodes().Keys|;
    }

    /** Sweeps one shard after the other, under one lock each. */
    method SweepAll(keep: Node -> bool) returns (removed: nat)
      modifies shards
      ensures forall j :: 0 <= j < shards.Length ==> shards[j] == Keep(old(shards[j]), keep)
      ensures removed == TotalSize(old(shards[..])) - TotalSize(shards[..])
    {
      removed := 0;
      for i := 0 to shards.Length
        invariant forall j :: 0 <= j < i ==> shards[j] == Keep(old(shards[j]), keep)
        invariant forall j :: i <= j < shards.Length ==> shards[j] == old(shards[j])
        invariant removed == TotalSize(old(shards[..])) - TotalSize(shards[..])
      {
        var kept, gone := SweepShard(shards[i], keep);
        ghost var now := shards[..];
        TotalSizeUpdate(now, i, kept);
        shards[i] := kept;
        assert shards[..] == now[i := kept];
        removed := removed + gone;
      }
    }

    method ReapStale(threshold: int) returns (removed: nat)
      requires Valid()
      modifies shards
      ensures Valid() && Nodes() == Reaped(old(Nodes()), threshold)
      ensures removed == |old(Nodes())| - |Nodes()|
    {
      var keep := (n: Node) => n.lastSeen >= threshold;
      removed := SweepAll(keep);
      KeepIsReap(old(shards[..]), shards[..], threshold, keep);
    }
  }

  /** Keeping the recent nodes shard by shard reaps the whole table, and the sizes say how many went. */
  lemma KeepIsReap(before: seq<map<U32, Node>>, after: seq<map<U32, Node>>, threshold: int, keep: Node -> bool)
    requires |before| == |after| == SHARDS && Homed(before, Home) && forall n :: keep(n) == (n.lastSeen >= threshold)
    requires forall i :: 0 <= i < SHARDS ==> after[i] == Keep(before[i], keep)
    ensures Homed(after, Home) && Flat(after, Home) == Reaped(Flat(before, Home), threshold)
    ensures TotalSize(before) - TotalSize(after) == |Flat(before, Home)| - |Flat(after, Home)|
  {
    FlatKeep(before, after, Home, keep);
    assert Keep(Flat(before, Home), keep) == Reaped(Flat(before, Home), threshold);
    FlatSize(before, Home);
    FlatSize(after, Home);
  }

  // ---- whole runs ----

  datatype Op = Upsert(id: U32, addr: Addr, now: int) | Notify(id: U32, now: int) | Reap(threshold: int)

  ghost function Apply(t: Table, op: Op, cap: int, gap: int): Table {
    match op
    case Upsert(id, addr, now) => Upserted(t, id, addr, now, cap)
    case Notify(id, now) => Claimed(t, id, now, gap)
    case Reap(threshold) => Reaped(t, threshold)
  }

  /** The table after the first `k` operations. */
  ghost function At(t: Table, ops: seq<Op>, k: nat, cap: int, gap: int): Table
    requires k <= |ops|
  {
    if k == 0 then t else Apply(At(t, ops, k - 1, cap, gap), ops[k - 1], cap, gap)
  }

  ghost predicate SharesHeld(t: Table, cap: int) {
    forall id: U32 :: |Neighbours(t, id)| <= cap / SHARDS
  }

  lemma SharesKept(t: Table, op: Op, cap: int, gap: int)
    requires cap > 0 && SharesHeld(t, cap)
    ensures SharesHeld(Apply(t, op, cap, gap), cap)
  {
    var next := Apply(t, op, cap, gap);
    forall id: U32
      ensures |Neighbours(next, id)| <= cap / SHARDS
    {
      var before, after := Neighbours(t, id), Neighbours(next, id);
      if op.Upsert? && op.id !in t && !Full(t, op.id, cap) && Home(op.id) == Home(id) {
        assert Neighbours(t, op.id) == before;
        assert after == before + {op.id};
      } else {
        assert after <= before;
        SubsetSameSize(after, before);
      }
    }
  }

  /** A table cut into its shards. */
  ghost function Split(t: Table): seq<map<U32, Node>> {
    seq(SHARDS, i => map k | k in t && Home(k) == i :: t[k])
  }

  lemma SplitFlat(t: Table)
    ensures Homed(Split(t), Home) && Flat(Split(t), Home) == t
  {
    assert Homed(Split(t), Home);
    forall k: U32
      ensures k in Flat(Split(t), Home) <==> k in t
    {
      FlatLookup(Split(t), Home, k);
    }
    assert Flat(Split(t), Home).Keys == t.Keys;
  }

  lemma {:induction false} TotalAtMost(shards: seq<map<U32, Node>>, c: nat)
    requires forall i :: 0 <= i < |shards| ==> |shards[i]| <= c
    ensures TotalSize(shards) <= |shards| * c
  {
    if shards == [] {
    } else {
      TotalAtMost(shards[..|shards| - 1], c);
    }
  }

  lemma SplitShare(t: Table, i: nat)
    requires i < SHARDS
    ensures |Split(t)[i]| == |Neighbours(t, i)|
  {
    assert Split(t)[i].Keys == Neighbours(t, i);
    assert |Split(t)[i]| == |Split(t)[i].Keys|;
  }

  lemma SharesBoundTotal(t: Table, cap: int)
    requires cap > 0 && SharesHeld(t, cap)
    ensures |t| <= SHARDS * (cap / SHARDS)
  {
    SplitFlat(t);
    FlatSize(Split(t), Home);
    forall i | 0 <= i < SHARDS
      ensures |Split(t)[i]| <= cap / SHARDS
    {
      SplitShare(t, i);
    }
    TotalAtMost(Split(t), cap / SHARDS);
  }

  lemma {:induction false} RunHoldsShares(ops: seq<Op>, k: nat, cap: int, gap: int)
    requires cap > 0 && k <= |ops|
    ensures SharesHeld(At(map[], ops, k, cap, gap), cap)
  {
    if k == 0 {
      forall id: U32
        ensures |Neighbours(map[], id)| == 0
      {
        assert Neighbours(map[], id) == {};
      }
    } else {
      RunHoldsShares(ops, k - 1, cap, gap);
      SharesKept(At(map[], ops, k - 1, cap, gap), ops[k - 1], cap, gap);
    }
  }

  /** No run with a positive cap ever holds more nodes than the cap, although no operation looks at the total. */
  lemma CapNeverExceeded(ops: seq<Op>, k: nat, cap: int, gap: int)
    requires cap > 0 && k <= |ops|
    ensures |At(map[], ops, k, cap, gap)| <= SHARDS * (cap / SHARDS) <= cap
  {
    RunHoldsShares(ops, k, cap, gap);
    SharesBoundTotal(At(map[], ops, k, cap, gap), cap);
  }

  lemma {:induction false} NobodyRegisters(ops: seq<Op>, k: nat, cap: int, gap: int)
    requires 0 < cap < SHARDS && k <= |ops|
    ensures At(map[], ops, k, cap, gap) == map[]
  {
    if k == 0 {
    } else {
      NobodyRegisters(ops, k - 1, cap, gap);
    }
  }

  /** The price of capping per shard: with a cap below the shard count no node can ever register, and only then. */
  lemma RegistersNobodyIff(cap: int, gap: int)
    ensures (forall ops: seq<Op> :: At(map[], ops, |ops|, cap, gap) == map[]) <==> 0 < cap < SHARDS
  {
    if 0 < cap < SHARDS {
      forall ops: seq<Op>
        ensures At(map[], ops, |ops|, cap, gap) == map[]
      {
        NobodyRegisters(ops, |ops|, cap, gap);
      }
    } else {
      var op := Upsert(0, Addr([127, 0, 0, 1], 1), 0);
      assert Neighbours(map[], 0) == {};
      assert At(map[], [op], 0, cap, gap) == map[];
      assert 0 in At(map[], [op], 1, cap, gap);
    }
  }

  /** Operation `i` sends node `id` a notify. */
  ghost predicate Notifies(t: Table, ops: seq<Op>, i: nat, id: U32, cap: int, gap: int)
    requires i < |ops|
  {
    var s := At(t, ops, i, cap, gap);
    ops[i].Notify? && ops[i].id == id && id in s && !Throttled(s[id], ops[i].now, gap)
  }

  lemma {:induction false} NotifyRemembered(t: Table, ops: seq<Op>, i: nat, k: nat, id: U32, cap: int, gap: nat)
    requires i < k <= |ops| && Notifies(t, ops, i, id, cap, gap)
    requires forall m :: i < m <= k ==> id in At(t, ops, m, cap, gap)
    ensures var n := At(t, ops, k, cap, gap)[id]; n.lastNotify.Some? && n.lastNotify.value >= ops[i].now
  {
    if k > i + 1 {
      NotifyRemembered(t, ops, i, k - 1, id, cap, gap);
    }
  }

  /** For the life of an entry two notifies to it are at least the gap apart, endpoint updates notwithstanding. */
  lemma NotifiesApart(t: Table, ops: seq<Op>, i: nat, j: nat, id: U32, cap: int, gap: nat)
    requires i < j < |ops|
    requires Notifies(t, ops, i, id, cap, gap) && Notifies(t, ops, j, id, cap, gap)
    requires forall m :: i < m <= j ==> id in At(t, ops, m, cap, gap)
    ensures ops[j].now - ops[i].now >= gap
  {
    NotifyRemembered(t, ops, i, j, id, cap, gap);
  }

  /** Operation `i` notified the entry that `id` still has before operation `j`. */
  ghost predicate NotifiedSameEntry(ops: seq<Op>, i: nat, j: nat, id: U32, cap: int, gap: int)
    requires i < j < |ops|
  {
    Notifies(map[], ops, i, id, cap, gap) && forall m :: i < m <= j ==> id in At(map[], ops, m, cap, gap)
  }

  lemma {:induction false} LastNotifyHasCause(ops: seq<Op>, k: nat, id: U32, cap: int, gap: int) returns (i: nat)
    requires k < |ops| && id in At(map[], ops, k, cap, gap) && At(map[], ops, k, cap, gap)[id].lastNotify.Some?
    ensures i < k && NotifiedSameEntry(ops, i, k, id, cap, gap)
    ensures ops[i].now == At(map[], ops, k, cap, gap)[id].lastNotify.value && ops[i].Notify?
  {
    if k == 0 {
      assert false;
    } else {
      var n := k - 1;
      if Notifies(map[], ops, n, id, cap, gap) {
        i := n;
      } else {
        i := LastNotifyHasCause(ops, n, id, cap, gap);
      }
    }
  }

  /** A registered node gets its notify if and only if every notify its present entry got is at least the gap old. */
  lemma NotifyIff(ops: seq<Op>, j: nat, id: U32, cap: int, gap: nat)
    requires j < |ops| && ops[j].Notify? && ops[j].id == id && id in At(map[], ops, j, cap, gap)
    ensures Notifies(map[], ops, j, id, cap, gap) <==>
            forall i: nat :: i < j && NotifiedSameEntry(ops, i, j, id, cap, gap) ==> ops[j].now - ops[i].now >= gap
  {
    if Notifies(map[], ops, j, id, cap, gap) {
      forall i: nat | i < j && NotifiedSameEntry(ops, i, j, id, cap, gap)
        ensures ops[j].now - ops[i].now >= gap
      {
        NotifiesApart(map[], ops, i, j, id, cap, gap);
      }
    } else {
      var i := LastNotifyHasCause(ops, j, id, cap, gap);
    }
  }

  // ---- the cap is attained ----

  /** Ids 0 to n - 1 register in turn. */
  ghost function Arrivals(n: nat): seq<Op>
    requires n <= 0x1_0000_0000
  {
    seq(n, i requires 0 <= i < n => Upsert(i, Addr([127, 0, 0, 1], 1), 0))
  }

  ghost function Before(n: nat): set<U32>
    requires n < 0x1_0000_0000
  {
    set x: U32 | 0 <= x < n && x % SHARDS == n % SHARDS
  }

  lemma {:induction false} ShareBefore(n: nat)
    requires n < 0x1_0000_0000
    ensures |Before(n)| <= n / SHARDS
  {
    if n < SHARDS {
      assert Before(n) == {};
    } else {
      var m := n - SHARDS;
      ShareBefore(m);
      forall x: U32 | x in Before(n)
        ensures x == m || x in Before(m)
      {
      }
      assert Before(n) <= Before(m) + {m};
      SubsetSameSize(Before(n), Before(m) + {m});
    }
  }

  lemma {:induction false} ArrivalsFill(n: nat, k: nat, cap: int, gap: int)
    requires k <= n <= SHARDS * (cap / SHARDS) && n <= 0x1_0000_0000 && cap > 0
    ensures forall x: U32 :: x in At(map[], Arrivals(n), k, cap, gap) <==> x < k
    ensures |At(map[], Arrivals(n), k, cap, gap)| == k
    decreases k
  {
    if k == 0 {
    } else {
      var m := k - 1;
      ArrivalsFill(n, m, cap, gap);
      var t, next := At(map[], Arrivals(n), m, cap, gap), At(map[], Arrivals(n), k, cap, gap);
      assert Neighbours(t, m) == Before(m);
      ShareBefore(m);
      assert !Full(t, m, cap);
      assert next == t[m := Node(Addr([127, 0, 0, 1], 1), 0, None)];
      assert next.Keys == t.Keys + {m};
      assert |next| == |next.Keys| && |t| == |t.Keys|;
    }
  }

  /** The bound of `CapNeverExceeded` is attained: the table takes 64 times a 64th of the cap, rounded down. */
  lemma CapAttained(cap: int, gap: int)
    requires cap > 0 && SHARDS * (cap / SHARDS) <= 0x1_0000_0000
    ensures exists ops :: |At(map[], ops, |ops|, cap, gap)| == SHARDS * (cap / SHARDS)
  {
    var n := SHARDS * (cap / SHARDS);
    ArrivalsFill(n, n, cap, gap);
    assert |Arrivals(n)| == n;
  }
}
