/** Several beacons gossiping with each other: one round of syncs repairs any starting state. */
module Mesh {
  import opened Base
  import opened Address
  import opened Wire
  import opened Routing
  import Gossip

  const MAX_DATAGRAM := 65507

  datatype Beacon = Beacon(addr: Addr, id: U32, local: map<U32, Addr>, wss: set<U32>, dst: set<U32>,
                           gossip: Gossip.State, strict: bool, peers: seq<Addr>)

  type Mesh = seq<Beacon>

  /** Beacon `to` handles the sync that `from` built by listing its ids in the order `list`; or `at` runs its sweep. */
  datatype Event = Deliver(from: nat, to: nat, list: seq<U32>, now: int) | Sweep(at: nat, cutoff: int)

  ghost predicate Possible(m: Mesh, e: Event) {
    match e
    case Deliver(from, to, list, _) =>
      && from < |m| && to < |m| && from != to
      && Elems(list) == m[from].local.Keys
      && |SyncFrame(m[from].id, list)| <= MAX_DATAGRAM
    case Sweep(at, _) => at < |m|
  }

  ghost function Step(m: Mesh, e: Event): Mesh
    requires Possible(m, e)
  {
    match e
    case Deliver(from, to, list, now) =>
      var b := m[to];
      var body := SyncFrame(m[from].id, list)[1..];
      m[to := b.(gossip := Gossip.Handled(b.gossip, body, m[from].addr, b.strict, b.peers, b.local.Keys, now))]
    case Sweep(at, cutoff) =>
      m[at := m[at].(gossip := Gossip.Swept(m[at].gossip, cutoff))]
  }

  /** Only the gossip state of a beacon ever changes. */
  ghost predicate SameBut(m: Mesh, n: Mesh) {
    |m| == |n| && forall i :: 0 <= i < |m| ==> n[i] == m[i].(gossip := n[i].gossip)
  }

  ghost predicate Run(m: Mesh, es: seq<Event>) {
    forall k :: 0 <= k < |es| ==> Possible(m, es[k])
  }

  ghost function At(m: Mesh, es: seq<Event>, k: nat): (n: Mesh)
    requires k <= |es| && Run(m, es)
    ensures SameBut(m, n)
  {
    if k == 0 then m else Step(At(m, es, k - 1), es[k - 1])
  }

  /** Beacons are told apart by address, and none refuses another under strict gossip. */
  ghost predicate Connected(m: Mesh) {
    && (forall i, j :: 0 <= i < j < |m| ==> KeyOf(m[i].addr) != KeyOf(m[j].addr))
    && (forall i, j :: 0 <= i < |m| && 0 <= j < |m| && i != j && m[j].strict ==> Gossip.KnownPeer(m[j].peers, m[i].addr))
  }

  ghost predicate Delivers(e: Event, from: nat, to: nat) {
    e.Deliver? && e.from == from && e.to == to
  }

  /** No sweep in the round is so late that it expires a beacon heard in the round. */
  ghost predicate WithinTTL(es: seq<Event>) {
    forall i, j :: 0 <= i < j < |es| && es[i].Deliver? && es[j].Sweep? && es[j].at == es[i].to ==> es[j].cutoff <= es[i].now
  }

  ghost predicate SyncedBy(es: seq<Event>, from: nat, to: nat) {
    exists k :: 0 <= k < |es| && Delivers(es[k], from, to)
  }

  /** Everyone handles at least one sync from everyone else; order, repeats and interleaving are free. */
  ghost predicate FullRound(m: Mesh, es: seq<Event>) {
    forall i: nat, j: nat :: i < |m| && j < |m| && i != j ==> SyncedBy(es, i, j)
  }

  lemma DeliverEffect(m: Mesh, e: Event)
    requires Possible(m, e) && e.Deliver? && Connected(m)
    ensures Step(m, e)[e.to].gossip ==
            Gossip.Synced(m[e.to].gossip, m[e.from].addr, e.list, m[e.to].local.Keys, e.now)
  {
    SyncRoundTrip(m[e.from].id, e.list);
    IdBytesAt(Cut(e.list));
  }

  /** At `k`, `b` routes `id` to `h`, which holds it, and no sweep still to come expires `h`. */
  ghost predicate RoutedVia(m: Mesh, es: seq<Event>, k: nat, b: nat, id: U32, h: nat)
    requires k <= |es| && Run(m, es) && b < |m|
  {
    var g := At(m, es, k)[b].gossip;
    && h < |m| && id in m[h].local
    && id in g.routes && g.routes[id] == m[h].addr
    && KeyOf(m[h].addr) in g.seen
    && forall j :: k <= j < |es| && es[j].Sweep? && es[j].at == b ==> es[j].cutoff <= g.seen[KeyOf(m[h].addr)]
  }

  lemma HolderTakesRoute(m: Mesh, es: seq<Event>, k: nat, b: nat, id: U32, h: nat)
    requires k < |es| && Run(m, es) && Connected(m) && WithinTTL(es) && b < |m|
    requires Delivers(es[k], h, b) && id in m[h].local && id !in m[b].local
    ensures RoutedVia(m, es, k + 1, b, id, h)
  {
    DeliverEffect(At(m, es, k), es[k]);
    assert id in Elems(es[k].list);
  }

  lemma {:induction false} OtherLeavesRoute(m: Mesh, es: seq<Event>, k: nat, b: nat, id: U32, h: nat)
    requires k < |es| && Run(m, es) && Connected(m) && b < |m|
    requires es[k].Deliver? && es[k].to == b && id !in m[es[k].from].local
    requires RoutedVia(m, es, k, b, id, h)
    ensures RoutedVia(m, es, k + 1, b, id, h)
  {
    DeliverEffect(At(m, es, k), es[k]);
    assert id !in Elems(es[k].list) && es[k].from != h;
  }

  lemma ElsewhereLeavesRoute(m: Mesh, es: seq<Event>, k: nat, b: nat, id: U32, h: nat)
    requires k < |es| && Run(m, es) && b < |m|
    requires es[k].Deliver? ==> es[k].to != b
    requires RoutedVia(m, es, k, b, id, h)
    ensures RoutedVia(m, es, k + 1, b, id, h)
  {
  }

  /** Beacon `b` hears a holder of `id`. */
  ghost predicate Feeds(m: Mesh, e: Event, b: nat, id: U32) {
    e.Deliver? && e.to == b && e.from < |m| && id in m[e.from].local
  }

  /** A route to a holder outlives every event but a sync from a holder, which replaces it. */
  lemma {:induction false} RouteLasts(m: Mesh, es: seq<Event>, k: nat, b: nat, id: U32, h: nat)
    requires k < |es| && Run(m, es) && Connected(m) && b < |m| && RoutedVia(m, es, k, b, id, h)
    requires !Feeds(m, es[k], b, id)
    ensures RoutedVia(m, es, k + 1, b, id, h)
  {
    if es[k].Deliver? && es[k].to == b {
      OtherLeavesRoute(m, es, k, b, id, h);
    } else {
      ElsewhereLeavesRoute(m, es, k, b, id, h);
    }
  }

  /** Once `b` has heard a holder of `id`, it routes `id` to a holder `x` ever after. */
  lemma {:induction false} HeardHolderRouted(m: Mesh, es: seq<Event>, k: nat, d: nat, b: nat, id: U32) returns (x: nat)
    requires d < k <= |es| && Run(m, es) && Connected(m) && WithinTTL(es) && b < |m| && id !in m[b].local
    requires Feeds(m, es[d], b, id)
    ensures RoutedVia(m, es, k, b, id, x)
    decreases k
  {
    var n := k - 1;
    if Feeds(m, es[n], b, id) {
      x := es[n].from;
      HolderTakesRoute(m, es, n, b, id, x);
    } else {
      x := HeardHolderRouted(m, es, n, d, b, id);
      RouteLasts(m, es, n, b, id, x);
    }
  }

  /**
   * From any starting tables, after a full round every id held somewhere is routed, at every beacon that
   * does not hold it, to a beacon that does.
   */
  lemma {:induction false} OneRoundRepairs(m: Mesh, es: seq<Event>, b: nat, id: U32)
    requires Run(m, es) && Connected(m) && WithinTTL(es) && FullRound(m, es)
    requires b < |m| && id !in m[b].local && exists h :: 0 <= h < |m| && id in m[h].local
    ensures var end := At(m, es, |es|);
            id in end[b].gossip.routes && exists h: nat :: h < |end| && id in end[h].local && end[b].gossip.routes[id] == end[h].addr
  {
    var h :| 0 <= h < |m| && id in m[h].local;
    assert SyncedBy(es, h, b);
    var d :| 0 <= d < |es| && Delivers(es[d], h, b);
    var x := HeardHolderRouted(m, es, |es|, d, b, id);
  }

  // ---- relaying through the mesh ----

  function TablesOf(b: Beacon): Tables {
    Tables(b.wss, b.local, b.dst, b.gossip.routes)
  }

  /** A relay body arriving at beacon `b` is handed to its destination after at most `hops` beacon-to-beacon hops. */
  ghost predicate Reaches(m: Mesh, b: nat, body: Bytes, hops: nat)
    requires b < |m|
    decreases hops
  {
    var r := ParseRelay(body);
    && r.Some?
    && match Choose(TablesOf(m[b]), r.value.dest)
       case Wss => true
       case Local(_, _) => true
       case Unknown => false
       case Peer(a) =>
         hops > 0 && exists h: nat :: h < |m| && m[h].addr == a && Reaches(m, h, Shape(Peer(a), r.value)[1..], hops - 1)
  }

  /** After the round, a relay for an id held anywhere reaches a holder from anywhere, byte for byte, in at most one hop. */
  lemma {:induction false} AtMostOneHop(m: Mesh, es: seq<Event>, b: nat, body: Bytes)
    requires Run(m, es) && Connected(m) && WithinTTL(es) && FullRound(m, es)
    requires b < |m| && ParseRelay(body).Some?
    requires exists h :: 0 <= h < |m| && ParseRelay(body).value.dest in m[h].local
    ensures Reaches(At(m, es, |es|), b, body, 1)
  {
    var end, r := At(m, es, |es|), ParseRelay(body).value;
    if r.dest !in m[b].local && r.dest !in m[b].wss {
      OneRoundRepairs(m, es, b, r.dest);
      var h: nat :| h < |end| && r.dest in end[h].local && end[b].gossip.routes[r.dest] == end[h].addr;
      RelayRoundTrip(r);
      assert Reaches(end, h, RelayFrame(r)[1..], 0);
    }
  }
}
