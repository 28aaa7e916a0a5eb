/** The route choice made for every relayed frame. */
module Routing {
  import opened Base
  import opened Address
  import opened Wire

  /** What a worker consults: WSS-connected ids, registered nodes, destination-carrying nodes, gossip routes. */
  datatype Tables = Tables(wss: set<U32>, local: map<U32, Addr>, dst: set<U32>, peers: map<U32, Addr>)

  datatype Tier = Wss | Local(addr: Addr, wantDest: bool) | Peer(addr: Addr) | Unknown

  /** The worker's four tiers, in order. */
  function Choose(t: Tables, dest: U32): Tier {
    if dest in t.wss then Wss
    else if dest in t.local then Local(t.local[dest], dest in t.dst)
    else if dest in t.peers then Peer(t.peers[dest])
    else Unknown
  }

  /** The read loop's test before it copies and queues a frame. */
  predicate PreCheck(t: Tables, dest: U32) {
    dest in t.local || dest in t.peers || dest in t.wss
  }

  /** The bytes written for a frame that takes `tier`. */
  function Shape(tier: Tier, r: Relay): Bytes
    requires !tier.Unknown?
  {
    match tier
    case Wss => DeliverFrame(r)
    case Local(_, wantDest) => if wantDest then DeliverDestFrame(r) else DeliverFrame(r)
    case Peer(_) => RelayFrame(r)
  }

  /** The pre-check drops a frame exactly when the worker, on the same tables, would have no route for it. */
  lemma PreCheckAgrees(t: Tables, dest: U32)
    ensures PreCheck(t, dest) <==> !Choose(t, dest).Unknown?
  {
  }
}
