/**
 * The WSS peer table in place: peers are objects compared by identity, marked closed after they left the
 * table, and the table itself is dropped at shutdown. Every method is one or two steps of `WssPeers`.
 */
module WssServer {
  import opened Base
  import opened WssPeers

  class Connection {
    const node: U32
    var gen: U32
    var closed: bool
    ghost const id: ConnId

    constructor (node: U32, gen: U32, ghost id: ConnId)
      ensures this.node == node && this.gen == gen && this.id == id && !closed
    {
      this.node, this.gen, this.id := node, gen, id;
      closed := false;
    }
  }

  class Server {
    const maxPeers: int
    var peers: Option<map<U32, Connection>>
    var closed: bool
    var peerGen: U32
    ghost var model: State
    ghost var objects: map<ConnId, Connection>
    ghost var repr: set<Connection>

    /** Every connection ever installed, by identity. */
    ghost predicate Linked()
      reads this`model, this`objects, this`repr, repr
    {
      && objects.Keys == model.conns.Keys
      && (forall c :: c in objects ==> objects[c] in repr && objects[c].id == c
                                       && model.conns[c] == Peer(objects[c].node, objects[c].gen, objects[c].closed))
    }

    /** `p` was installed here. */
    ghost predicate Knows(p: Connection)
      reads this`objects
    {
      p.id in objects && objects[p.id] == p
    }

    ghost predicate TableMatches()
      reads this`peers, this`model, this`objects
    {
      && (peers.None? <==> model.peers.None?)
      && (peers.Some? ==>
            && peers.value.Keys == model.peers.value.Keys
            && forall n :: n in peers.value ==>
                 Knows(peers.value[n]) && model.peers.value[n] == peers.value[n].id)
    }

    ghost predicate Valid()
      reads this, repr
    {
      && model.maxPeers == maxPeers && model.closed == closed && model.peerGen == peerGen
      && (peers.None? <==> closed) && model.upgrading !! model.conns.Keys
      && Linked() && TableMatches()
    }

    constructor (maxPeers: int)
      ensures Valid() && model == Init(maxPeers) && objects == map[]
    {
      this.maxPeers := maxPeers;
      peers, closed, peerGen := Some(map[]), false, 0;
      model, objects, repr := Init(maxPeers), map[], {};
    }

    method PeerCount() returns (n: nat)
      requires Valid()
      ensures n == WssPeers.PeerCount(model)
    {
      n := if peers.Some? then |peers.value| else 0;
      if peers.Some? {
        assert |peers.value| == |peers.value.Keys| && |model.peers.value| == |model.peers.value.Keys|;
      }
    }

    /** The capacity check of an upgrade. */
    method BeginUpgrade(ghost c: ConnId) returns (room: bool)
      requires Valid() && Enabled(model, Begin(c))
      modifies this`model
      ensures Valid() && room == HasRoom(old(model)) && model == Step(old(model), Begin(c))
    {
      var n := PeerCount();
      room := !(maxPeers > 0 && n >= maxPeers);
      model := Step(model, Begin(c));
    }

    method MarkClosed(p: Connection)
      requires Valid() && Knows(p)
      modifies this`model, p`closed
      ensures Valid() && model == Step(old(model), Event.MarkClosed(p.id)) && p.closed
    {
      model := Step(model, Event.MarkClosed(p.id));
      p.closed := true;
    }

    /** The connection a new one replaces is marked closed. */
    method CloseOld(node: U32)
      requires Valid() && !closed
      modifies this`model, repr`closed
      ensures Valid() && model == Replaced(old(model), node) && (node in peers.value ==> peers.value[node].closed)
    {
      if node in peers.value {
        MarkClosed(peers.value[node]);
      }
    }

    /** A connection object for the next generation, not yet in the table. */
    method Adopt(ghost c: ConnId, node: U32) returns (p: Connection)
      requires Linked() && TableMatches() && c !in model.conns
      modifies this`model, this`objects, this`repr
      ensures Linked() && TableMatches() && Knows(p) && p.id == c
      ensures model == old(model).(conns := old(model.conns)[c := Peer(node, NextGen(peerGen), false)])
      ensures fresh(p) && objects == old(objects)[c := p] && repr == old(repr) + {p} && !p.closed && p.node == node
    {
      p := new Connection(node, NextGen(peerGen), c);
      model := model.(conns := model.conns[c := Peer(node, NextGen(peerGen), false)]);
      objects, repr := objects[c := p], repr + {p};
    }

    method Store(ghost c: ConnId, node: U32) returns (p: Connection)
      requires Valid() && !closed && c !in model.conns
      modifies this`peers, this`peerGen, this`model, this`objects, this`repr
      ensures Valid() && model == Stored(old(model), c, node)
      ensures fresh(p) && objects == old(objects)[c := p] && repr == old(repr) + {p}
      ensures !p.closed && p.node == node && peers == Some(old(peers.value)[node := p])
    {
      p := Adopt(c, node);
      model := Stored(old(model), c, node);
      peers, peerGen := Some(peers.value[node := p]), NextGen(peerGen);
    }

    /** The locked part of an upgrade: replaces, stamps and stores; refused after shutdown. */
    method Install(ghost c: ConnId, node: U32) returns (p: Option<Connection>)
      requires Valid() && Enabled(model, Event.Install(c, node))
      modifies this`peers, this`peerGen, this`model, this`objects, this`repr, repr`closed
      ensures Valid() && model == Step(old(model), Event.Install(c, node))
      ensures p.None? <==> closed
      ensures p.Some? ==> fresh(p.value) && objects == old(objects)[c := p.value]
      ensures p.None? ==> objects == old(objects) && peers == old(peers)
      ensures p.Some? ==> !p.value.closed && p.value.node == node && peers == Some(old(peers.value)[node := p.value])
      ensures p.Some? && node in old(peers.value) ==> old(peers.value)[node].closed
    {
      if closed {
        model := Step(model, Event.Install(c, node));
        return None;
      }
      CloseOld(node);
      var conn := Store(c, node);
      p := Some(conn);
    }

    /** The locked part of a drop: the entry goes only if it holds this very connection. */
    method Remove(p: Connection)
      requires Valid() && Knows(p)
      modifies this`peers, this`model
      ensures Valid() && model == Step(old(model), Event.Remove(p.id))
      ensures old(peers).Some? && p.node in old(peers).value && old(peers).value[p.node] == p ==>
                peers == Some(old(peers).value - {p.node})
      ensures !(old(peers).Some? && p.node in old(peers).value && old(peers).value[p.node] == p) ==> peers == old(peers)
    {
      model := Step(model, Event.Remove(p.id));
      if peers.Some? && p.node in peers.value && peers.value[p.node] == p {
        peers := Some(peers.value - {p.node});
      }
    }

    /** The top of the read loop. */
    method MayRead(p: Connection) returns (go: bool)
      requires Valid() && Knows(p) && Enabled(model, Check(p.id))
      modifies this`model
      ensures Valid() && model == Step(old(model), Check(p.id)) && go == (model.phase[p.id] == Reading) == !p.closed
    {
      model := Step(model, Check(p.id));
      go := !p.closed;
    }

    method GenForNode(node: U32) returns (g: U32)
      requires Valid()
      ensures g == WssPeers.GenForNode(model, node)
    {
      g := if peers.Some? && node in peers.value then peers.value[node].gen else 0;
    }

    /** The generation check of a frame. */
    method Admit(p: Connection) returns (dispatch: bool)
      requires Valid() && Knows(p) && Enabled(model, Frame(p.id))
      modifies this`model
      ensures Valid() && dispatch == Passes(old(model), p.id) && model == Step(old(model), Frame(p.id))
    {
      var g := GenForNode(p.node);
      dispatch := !(g > 0 && p.gen < g);
      model := Step(model, Frame(p.id));
    }

    method IsConnected(node: U32) returns (up: bool)
      requires Valid()
      ensures up == (Lookup(model, node).Some? && !model.conns[Lookup(model, node).value].closed)
    {
      up := peers.Some? && node in peers.value && !peers.value[node].closed;
    }

    /** The loop of shutdown over the connections taken from the table. */
    method MarkAll(taken: map<U32, Connection>, ghost ids: map<U32, ConnId>)
      requires Valid() && ids.Keys == taken.Keys && forall n :: n in taken ==> Knows(taken[n]) && ids[n] == taken[n].id
      modifies this`model, repr`closed
      ensures Valid() && model == AllClosed(old(model), ids.Values)
    {
      var rest := taken.Keys;
      ghost var done: set<ConnId> := {};
      NoneClosed(model);
      while rest != {}
        invariant Valid() && rest <= taken.Keys
        invariant done <= ids.Values && forall n :: n in taken && n !in rest ==> ids[n] in done
        invariant model == AllClosed(old(model), done)
        decreases |rest|
      {
        var n :| n in rest;
        CloseOneMore(old(model), done, ids[n]);
        MarkClosed(taken[n]);
        rest, done := rest - {n}, done + {ids[n]};
      }
      assert done == ids.Values;
    }

    /** The locked part of shutdown: the table is taken away. */
    method Detach() returns (taken: map<U32, Connection>, ghost ids: map<U32, ConnId>)
      requires Valid() && !closed
      modifies this`peers, this`closed, this`model
      ensures Valid() && model == Step(old(model), Shutdown)
      ensures ids == old(model.peers.value) && ids.Keys == taken.Keys && taken == old(peers.value)
      ensures forall n :: n in taken ==> Knows(taken[n]) && ids[n] == taken[n].id
    {
      taken, ids := peers.value, model.peers.value;
      model, closed, peers := Step(model, Shutdown), true, None;
    }

    /** Shutdown: the table is taken away first; then its connections are marked closed, one by one. */
    method Close()
      requires Valid()
      modifies this`peers, this`closed, this`model, repr`closed
      ensures Valid() && closed
      ensures old(closed) ==> model == old(model)
      ensures !old(closed) ==>
                model == AllClosed(Step(old(model), Shutdown), old(model.peers.value.Values))
      ensures peers.None? && (!old(closed) ==> forall n :: n in old(peers.value) ==> old(peers.value)[n].closed)
    {
      if closed {
        return;
      }
      var taken, ids := Detach();
      MarkAll(taken, ids);
      forall n | n in taken
        ensures taken[n].closed
      {
        assert ids[n] in ids.Values && model.conns[ids[n]].closed;
      }
    }
  }

  /** `s` with the connections of `cs` marked closed. */
  function AllClosed(s: State, cs: set<ConnId>): State {
    s.(conns := map c | c in s.conns :: if c in cs then s.conns[c].(closed := true) else s.conns[c])
  }

  lemma NoneClosed(s: State)
    ensures AllClosed(s, {}) == s
  {
    assert AllClosed(s, {}).conns == s.conns;
  }

  lemma CloseOneMore(s: State, cs: set<ConnId>, c: ConnId)
    requires c in s.conns
    ensures Step(AllClosed(s, cs), MarkClosed(c)) == AllClosed(s, cs + {c})
  {
    assert Step(AllClosed(s, cs), MarkClosed(c)).conns == AllClosed(s, cs + {c}).conns;
  }
}
