/** The gossip routing table: which peer beacon to forward a node's traffic to. */
module Gossip {
  import opened Base
  import opened Address
  import opened Wire
  import opened NodeTable

  /** `routes`: node id to the source address of the sync that published it. `seen`: when each source last synced. */
  datatype State = State(routes: map<U32, Addr>, seen: map<Key, int>)

  /** An accepted sync from `remote`: its old routes go, the listed ids that are not local come. */
  function Synced(s: State, remote: Addr, ids: seq<U32>, local: set<U32>, now: int): State {
    State(Published(Withdrawn(s.routes, {KeyOf(remote)}), remote, ids, local), s.seen[KeyOf(remote) := now])
  }

  function Withdrawn(routes: map<U32, Addr>, sources: set<Key>): map<U32, Addr> {
    map id | id in routes && KeyOf(routes[id]) !in sources :: routes[id]
  }

  function Published(routes: map<U32, Addr>, remote: Addr, ids: seq<U32>, local: set<U32>): map<U32, Addr> {
    routes + (map id | id in ids && id !in local :: remote)
  }

  lemma PublishedOneMore(routes: map<U32, Addr>, remote: Addr, ids: seq<U32>, id: U32, local: set<U32>)
    ensures var before, after := Published(routes, remote, ids, local), Published(routes, remote, ids + [id], local);
            after == if id in local then before else before[id := remote]
  {
  }

  function Stale(seen: map<Key, int>, cutoff: int): set<Key> {
    set k | k in seen && seen[k] < cutoff
  }

  /** Sources silent since before `cutoff` lose their entry and their routes. */
  function Swept(s: State, cutoff: int): State {
    State(Withdrawn(s.routes, Stale(s.seen, cutoff)), s.seen - Stale(s.seen, cutoff))
  }

  predicate KnownPeer(peers: seq<Addr>, remote: Addr) {
    exists i :: 0 <= i < |peers| && IPEqual(peers[i].ip, remote.ip)
  }

  /** The table this body would be handled against: a short body, or a stranger under strict gossip, is ignored. */
  function Handled(s: State, data: Bytes, remote: Addr, strict: bool, peers: seq<Addr>, local: set<U32>, now: int): State {
    if ParseSync(data).None? || (strict && !KnownPeer(peers, remote)) then s
    else Synced(s, remote, ParseSync(data).value.ids, local, now)
  }

  class RoutingTable {
    const nodes: NodeMap
    var peers: seq<Addr>
    var strict: bool
    var peerNodes: map<U32, Addr>
    var gossipSeen: map<Key, int>

    ghost function Current(): State
      reads this
    {
      State(peerNodes, gossipSeen)
    }

    constructor (nodes: NodeMap, peers: seq<Addr>)
      ensures this.nodes == nodes && this.peers == peers && !strict
      ensures Current() == State(map[], map[])
    {
      this.nodes := nodes;
      this.peers := peers;
      strict, peerNodes, gossipSeen := false, map[], map[];
    }

    /** Compares the address only: a middlebox may rewrite the port. */
    method IsKnownGossipPeer(remote: Addr) returns (known: bool)
      ensures known == KnownPeer(peers, remote)
    {
      for i := 0 to |peers|
        invariant forall j :: 0 <= j < i ==> !IPEqual(peers[j].ip, remote.ip)
      {
        if IPEqual(peers[i].ip, remote.ip) {
          return true;
        }
      }
      return false;
    }

    /** First loop of `handleSync`: copies every route that `remote` does not own. */
    method CopyOthers(remote: Addr) returns (next: map<U32, Addr>)
      ensures next == Withdrawn(peerNodes, {KeyOf(remote)})
    {
      next := map[];
      var todo := peerNodes.Keys;
      while todo != {}
        invariant todo <= peerNodes.Keys && next.Keys <= peerNodes.Keys - todo
        invariant forall id :: id in next ==> next[id] == peerNodes[id]
        invariant forall id :: id in peerNodes && id !in todo ==> (id in next <==> KeyOf(peerNodes[id]) != KeyOf(remote))
        decreases todo
      {
        var id :| id in todo;
        todo := todo - {id};
        EndpointIsKey(peerNodes[id], remote);
        if !SameEndpoint(peerNodes[id], remote) {
          next := next[id := peerNodes[id]];
        }
      }
    }

    /** Second loop of `handleSync`: routes every listed id that is not registered here to `remote`. */
    method AddListed(kept: map<U32, Addr>, remote: Addr, ids: seq<U32>) returns (next: map<U32, Addr>)
      requires nodes.Valid()
      ensures next == Published(kept, remote, ids, nodes.Nodes().Keys)
    {
      next := kept;
      ghost var local := nodes.Nodes().Keys;
      assert Published(kept, remote, [], local) == kept;
      for i := 0 to |ids|
        invariant next == Published(kept, remote, ids[..i], local)
      {
        assert ids[..i + 1] == ids[..i] + [ids[i]];
        PublishedOneMore(kept, remote, ids[..i], ids[i], local);
        var isLocal := nodes.Has(ids[i]);
        if !isLocal {
          next := next[ids[i] := remote];
        }
      }
      assert ids[..|ids|] == ids;
    }

    method HandleSync(data: Bytes, remote: Addr, now: int)
      requires nodes.Valid()
      modifies this`peerNodes, this`gossipSeen
      ensures Current() == Handled(old(Current()), data, remote, strict, peers, nodes.Nodes().Keys, now)
    {
      if |data| < 6 {
        return;
      }
      var known := IsKnownGossipPeer(remote);
      if strict && !known {
        return;
      }
      var m := ReadSync(data);
      if m.None? {
        return;
      }
      var kept := CopyOthers(remote);
      var next := AddListed(kept, remote, m.value.ids);
      peerNodes := next;
      gossipSeen := gossipSeen[KeyOf(remote) := now];
    }

    /** First loop of `sweepStaleGossip`. */
    method ExpireSources(cutoff: int) returns (stale: set<Key>)
      modifies this`gossipSeen
      ensures stale == Stale(old(gossipSeen), cutoff)
      ensures gossipSeen == old(gossipSeen) - stale
    {
      stale := {};
      var todo := gossipSeen.Keys;
      while todo != {}
        invariant todo <= old(gossipSeen).Keys
        invariant stale == set k | k in old(gossipSeen) && k !in todo && old(gossipSeen)[k] < cutoff
        invariant gossipSeen == old(gossipSeen) - stale
        decreases todo
      {
        var k :| k in todo;
        todo := todo - {k};
        if gossipSeen[k] < cutoff {
          stale := stale + {k};
          gossipSeen := gossipSeen - {k};
        }
      }
    }

    /** The two early returns leave the table as the full rebuild would. */
    method SweepStaleGossip(cutoff: int)
      modifies this`peerNodes, this`gossipSeen
      ensures Current() == Swept(old(Current()), cutoff)
    {
      var cur := peerNodes;
      var stale := ExpireSources(cutoff);
      if stale == {} {
        assert Withdrawn(cur, stale) == cur;
        return;
      }
      var next: map<U32, Addr> := map[];
      var todo := cur.Keys;
      while todo != {}
        invariant todo <= cur.Keys && next.Keys <= cur.Keys - todo
        invariant forall id :: id in next ==> next[id] == cur[id]
        invariant forall id :: id in cur && id !in todo ==> (id in next <==> KeyOf(cur[id]) !in stale)
        decreases todo
      {
        var id :| id in todo;
        todo := todo - {id};
        if KeyOf(cur[id]) !in stale {
          next := next[id := cur[id]];
        }
      }
      assert next == Withdrawn(cur, stale);
      if |next| == |cur| {
        assert |next| == |next.Keys| && |cur| == |cur.Keys|;
        SubsetSameSize(next.Keys, cur.Keys);
        assert next == cur;
        return;
      }
      peerNodes := next;
    }
  }
}
