/**
 * The WSS peer table: connections install themselves, replace each other, are dropped and shut down by
 * concurrent goroutines. Every critical section is one step; steps interleave freely.
 */
module WssPeers {
  import opened Base

  /** Generations are 32-bit and wrap. */
  const GENERATIONS := 0x1_0000_0000

  type ConnId = nat

  /** One authenticated connection. */
  datatype Peer = Peer(node: U32, gen: U32, closed: bool)

  /** Where a connection's read loop stands: before its closed check, inside a read, or past its exit. */
  datatype Phase = Top | Reading | Gone

  /**
   * `peers` is `None` once the map is nil. `upgrading` are the handlers between capacity check and install.
   * `installed` lists all connections ever installed, oldest first. `panicked` records a write to the nil map.
   */
  datatype State = State(maxPeers: int, peers: Option<map<U32, ConnId>>, closed: bool, peerGen: U32,
                         conns: map<ConnId, Peer>, phase: map<ConnId, Phase>, upgrading: set<ConnId>, installed: seq<ConnId>,
                         panicked: bool)

  datatype Event =
    | Begin(c: ConnId)               // capacity check passed or refused
    | Fail(c: ConnId)                // upgrade or authentication fails
    | Install(c: ConnId, node: U32)  // critical section of the install; node 0 never authenticates
    | Check(c: ConnId)               // top of the read loop
    | Frame(c: ConnId)               // a frame arrives and meets the generation check
    | Leave(c: ConnId)               // the read loop ends
    | Remove(c: ConnId)              // critical section of a drop
    | MarkClosed(c: ConnId)          // second half of a drop, or of shutdown
    | Shutdown                       // critical section of Close

  function Lookup(s: State, node: U32): Option<ConnId> {
    if s.peers.Some? && node in s.peers.value then Some(s.peers.value[node]) else None
  }

  function PeerCount(s: State): nat {
    if s.peers.Some? then |s.peers.value| else 0
  }

  predicate HasRoom(s: State) {
    s.maxPeers > 0 ==> PeerCount(s) < s.maxPeers
  }

  /** `peerGenForNode`: 0 when no connection is installed. */
  function GenForNode(s: State, node: U32): U32 {
    var p := Lookup(s, node);
    if p.Some? && p.value in s.conns then s.conns[p.value].gen else 0
  }

  /** The read loop's generation check. */
  predicate Passes(s: State, c: ConnId)
    requires c in s.conns
  {
    var g := GenForNode(s, s.conns[c].node);
    !(g > 0 && s.conns[c].gen < g)
  }

  function NextGen(g: U32): U32 {
    (g + 1) % GENERATIONS
  }

  function CloseOne(conns: map<ConnId, Peer>, c: Option<ConnId>): map<ConnId, Peer> {
    if c.Some? && c.value in conns then conns[c.value := conns[c.value].(closed := true)] else conns
  }

  ghost predicate Enabled(s: State, e: Event) {
    match e
    case Begin(c) => c !in s.conns && c !in s.upgrading
    case Fail(c) => c in s.upgrading
    case Install(c, node) => c in s.upgrading && node != 0
    case Check(c) => c in s.phase && s.phase[c] == Top
    case Frame(c) => c in s.phase && s.phase[c] == Reading
    case Leave(c) => c in s.phase && s.phase[c] == Reading
    case Remove(c) => c in s.conns
    case MarkClosed(c) => c in s.conns
    case Shutdown => true
  }

  /** The new connection gets the next generation and takes its node's place. */
  function Stored(s: State, c: ConnId, node: U32): State
    requires s.peers.Some?
  {
    var g := NextGen(s.peerGen);
    s.(peers := Some(s.peers.value[node := c]), peerGen := g, conns := s.conns[c := Peer(node, g, false)],
       phase := s.phase[c := Top], upgrading := s.upgrading - {c}, installed := s.installed + [c])
  }

  /** The connection installed for the node, if any, is marked closed. */
  function Replaced(s: State, node: U32): State {
    s.(conns := CloseOne(s.conns, Lookup(s, node)))
  }

  function Installed(s: State, c: ConnId, node: U32): State
    requires s.peers.Some?
  {
    Stored(Replaced(s, node), c, node)
  }

  function Removed(s: State, c: ConnId): State
    requires c in s.conns
  {
    if Lookup(s, s.conns[c].node) == Some(c) then s.(peers := Some(s.peers.value - {s.conns[c].node})) else s
  }

  ghost function Step(s: State, e: Event): State
    requires Enabled(s, e)
  {
    match e
    case Begin(c) => if HasRoom(s) then s.(upgrading := s.upgrading + {c}) else s
    case Fail(c) => s.(upgrading := s.upgrading - {c})
    case Install(c, node) =>
      if s.closed then s.(upgrading := s.upgrading - {c})
      else if s.peers.None? then s.(panicked := true)
      else Installed(s, c, node)
    case Check(c) => s.(phase := s.phase[c := if c in s.conns && s.conns[c].closed then Gone else Reading])
    case Frame(c) => s.(phase := s.phase[c := Top])
    case Leave(c) => s.(phase := s.phase[c := Gone])
    case Remove(c) => Removed(s, c)
    case MarkClosed(c) => s.(conns := CloseOne(s.conns, Some(c)))
    case Shutdown => s.(closed := true, peers := None)
  }

  function Init(maxPeers: int): State {
    State(maxPeers, Some(map[]), false, 0, map[], map[], {}, [], false)
  }

  ghost predicate Run(ss: seq<State>, es: seq<Event>, maxPeers: int) {
    && |ss| == |es| + 1 && ss[0] == Init(maxPeers)
    && forall k :: 0 <= k < |es| ==> Enabled(ss[k], es[k]) && ss[k + 1] == Step(ss[k], es[k])
  }

  // ---- what every interleaving keeps ----

  /** The generation of install number `k`, from 0. */
  function Gen(k: nat): U32 {
    (k + 1) % GENERATIONS
  }

  lemma GenBelow(i: nat, j: nat)
    requires i < j < GENERATIONS - 1
    ensures 0 < Gen(i) < Gen(j)
  {
  }

  lemma GenNext(n: nat)
    ensures NextGen(n % GENERATIONS) == Gen(n) == (n + 1) % GENERATIONS
  {
  }

  /** The k-th install (from 0) carries generation k + 1 modulo 2^32. */
  ghost predicate Numbered(s: State) {
    && s.peerGen == |s.installed| % GENERATIONS
    && NoDup(s.installed) && Elems(s.installed) == s.conns.Keys
    && forall k :: 0 <= k < |s.installed| ==> s.conns[s.installed[k]].gen == Gen(k)
  }

  /** What the table holds: installed connections under their own node, each the latest for it. */
  ghost predicate HoldsLatest(s: State) {
    && (forall n :: Lookup(s, n).Some? ==> Lookup(s, n).value in s.conns && s.conns[Lookup(s, n).value].node == n)
    && (forall k, m :: 0 <= k < |s.installed| && 0 <= m < |s.installed| ==> NotOutrun(s, k, m))
  }

  /** If install `k` is still in the table, install `m` for the same node is no later. */
  ghost predicate NotOutrun(s: State, k: nat, m: nat)
    requires k < |s.installed| && m < |s.installed|
  {
    SameNode(s, s.installed[k], s.installed[m]) && Current(s, s.installed[k]) ==> m <= k
  }

  /** `c` is the connection installed for its node. */
  ghost predicate Current(s: State, c: ConnId) {
    c in s.conns && Lookup(s, s.conns[c].node) == Some(c)
  }

  ghost predicate SameNode(s: State, c: ConnId, d: ConnId) {
    c in s.conns && d in s.conns && s.conns[c].node == s.conns[d].node
  }

  ghost predicate Consistent(s: State) {
    && (s.peers.None? <==> s.closed) && !s.panicked
    && s.phase.Keys == s.conns.Keys && s.upgrading !! s.conns.Keys
    && Numbered(s) && HoldsLatest(s)
  }

  /** Nodes and generations of the connections already there survive an install. */
  lemma InstallKeeps(s: State, c: ConnId, node: U32)
    requires Consistent(s) && c in s.upgrading && !s.closed
    ensures var t := Installed(s, c, node);
            && t.conns.Keys == s.conns.Keys + {c} && c !in s.conns
            && (forall d :: d in s.conns ==> t.conns[d].node == s.conns[d].node && t.conns[d].gen == s.conns[d].gen)
            && (forall k :: 0 <= k < |s.installed| ==> s.installed[k] in s.conns && s.installed[k] != c)
  {
    assert c !in Elems(s.installed);
    forall k | 0 <= k < |s.installed| ensures s.installed[k] in s.conns && s.installed[k] != c {
      assert s.installed[k] in Elems(s.installed);
    }
  }

  lemma InstallNumbered(s: State, c: ConnId, node: U32)
    requires Consistent(s) && c in s.upgrading && !s.closed
    ensures Numbered(Installed(s, c, node))
  {
    var t := Installed(s, c, node);
    InstallKeeps(s, c, node);
    ElemsAppend(s.installed, c);
    GenNext(|s.installed|);
    forall k | 0 <= k < |t.installed|
      ensures t.installed[k] in t.conns && t.conns[t.installed[k]].gen == Gen(k)
    {
      if k < |s.installed| {
        assert t.installed[k] == s.installed[k];
      }
    }
  }

  lemma InstallHoldsLatest(s: State, c: ConnId, node: U32)
    requires Consistent(s) && c in s.upgrading && !s.closed
    ensures HoldsLatest(Installed(s, c, node))
  {
    var t := Installed(s, c, node);
    InstallKeeps(s, c, node);
    forall n | Lookup(t, n).Some?
      ensures Lookup(t, n).value in t.conns && t.conns[Lookup(t, n).value].node == n
    {
      assert n != node ==> Lookup(t, n) == Lookup(s, n);
    }
    forall k, m | 0 <= k < |t.installed| && 0 <= m < |t.installed|
      ensures NotOutrun(t, k, m)
    {
      if k < |s.installed| && SameNode(t, t.installed[k], t.installed[m]) && Current(t, t.installed[k]) {
        assert t.installed[k] == s.installed[k] && t.conns[s.installed[k]].node != node;
        assert m < |s.installed| && t.installed[m] == s.installed[m];
        assert NotOutrun(s, k, m);
      }
    }
  }

  lemma InstallConsistent(s: State, c: ConnId, node: U32)
    requires Consistent(s) && c in s.upgrading && !s.closed
    ensures Consistent(Installed(s, c, node))
  {
    InstallNumbered(s, c, node);
    InstallHoldsLatest(s, c, node);
    InstallKeeps(s, c, node);
  }

  /** Anything but an install leaves nodes, generations and the install order alone, and the table no larger. */
  lemma OtherConsistent(s: State, t: State)
    requires Consistent(s) && Modest(s, t)
    ensures Consistent(t)
  {
    forall k, m | 0 <= k < |t.installed| && 0 <= m < |t.installed|
      ensures NotOutrun(t, k, m)
    {
      assert NotOutrun(s, k, m);
    }
    forall k | 0 <= k < |t.installed|
      ensures t.conns[t.installed[k]].gen == Gen(k)
    {
      assert s.installed[k] in Elems(s.installed);
    }
  }

  /** `t` differs from `s` as a step that is no install may make it. */
  ghost predicate Modest(s: State, t: State) {
    && t.installed == s.installed && t.peerGen == s.peerGen && t.conns.Keys == s.conns.Keys
    && (s.phase.Keys == s.conns.Keys ==> t.phase.Keys == s.phase.Keys)
    && t.upgrading * s.conns.Keys <= s.upgrading
    && ((s.peers.None? <==> s.closed) ==> (t.peers.None? <==> t.closed)) && t.panicked == s.panicked
    && (forall c :: c in s.conns ==> t.conns[c].node == s.conns[c].node && t.conns[c].gen == s.conns[c].gen)
    && (forall n :: Lookup(t, n).Some? ==> Lookup(s, n) == Lookup(t, n))
  }

  lemma StepModest(s: State, e: Event)
    requires Enabled(s, e) && (e.Install? ==> s.closed)
    ensures Modest(s, Step(s, e))
  {
  }

  lemma StepConsistent(s: State, e: Event)
    requires Consistent(s) && Enabled(s, e)
    ensures Consistent(Step(s, e))
  {
    if e.Install? && !s.closed {
      InstallConsistent(s, e.c, e.node);
    } else {
      StepModest(s, e);
      OtherConsistent(s, Step(s, e));
    }
  }

  lemma {:induction false} RunConsistent(ss: seq<State>, es: seq<Event>, maxPeers: int, k: nat)
    requires Run(ss, es, maxPeers) && k < |ss|
    ensures Consistent(ss[k])
  {
    if k == 0 {
      assert Elems(ss[0].installed) == {};
    } else {
      RunConsistent(ss, es, maxPeers, k - 1);
      assert ss[k - 1 + 1] == Step(ss[k - 1], es[k - 1]);
      StepConsistent(ss[k - 1], es[k - 1]);
    }
  }

  /** In every interleaving the map is nil exactly when the server is closed, and no step ever writes the nil map. */
  lemma NilMapNeverWritten(ss: seq<State>, es: seq<Event>, maxPeers: int, k: nat)
    requires Run(ss, es, maxPeers) && k < |ss|
    ensures ss[k].peers.None? <==> ss[k].closed
    ensures !ss[k].panicked
  {
    RunConsistent(ss, es, maxPeers, k);
  }

  /** Later installs carry greater generations, and only positive ones lie below another. */
  ghost predicate Increasing(s: State) {
    forall i, j :: 0 <= i < j < |s.installed| ==>
      s.installed[i] in s.conns && s.installed[j] in s.conns && 0 < s.conns[s.installed[i]].gen < s.conns[s.installed[j]].gen
  }

  /** Generations increase exactly as long as fewer than 2^32 connections were installed. */
  lemma GenerationsIncreaseIff(ss: seq<State>, es: seq<Event>, maxPeers: int, k: nat)
    requires Run(ss, es, maxPeers) && k < |ss|
    ensures Increasing(ss[k]) <==> |ss[k].installed| < GENERATIONS
  {
    RunConsistent(ss, es, maxPeers, k);
    var s := ss[k];
    if |s.installed| < GENERATIONS {
      forall i, j | 0 <= i < j < |s.installed|
        ensures s.installed[i] in s.conns && s.installed[j] in s.conns
        ensures 0 < s.conns[s.installed[i]].gen < s.conns[s.installed[j]].gen
      {
        InstalledBelow(s, i, j);
      }
    } else {
      assert s.conns[s.installed[GENERATIONS - 1]].gen == 0;
      assert !(s.conns[s.installed[0]].gen < s.conns[s.installed[GENERATIONS - 1]].gen);
    }
  }

  /** With fewer than 2^32 installs, the connection installed for a node has the greatest generation of all its connections. */
  lemma InstalledIsNewest(ss: seq<State>, es: seq<Event>, maxPeers: int, k: nat, c: ConnId, d: ConnId)
    requires Run(ss, es, maxPeers) && k < |ss| && |ss[k].installed| < GENERATIONS
    requires SameNode(ss[k], c, d) && Current(ss[k], d) && c != d
    ensures ss[k].conns[c].gen < ss[k].conns[d].gen
  {
    RunConsistent(ss, es, maxPeers, k);
    var s := ss[k];
    assert c in Elems(s.installed) && d in Elems(s.installed);
    var i :| 0 <= i < |s.installed| && s.installed[i] == c;
    var j :| 0 <= j < |s.installed| && s.installed[j] == d;
    assert NotOutrun(s, j, i);
    InstalledBelow(s, i, j);
  }

  lemma InstalledBelow(s: State, i: nat, j: nat)
    requires Numbered(s) && i < j < |s.installed| < GENERATIONS
    ensures s.installed[i] in s.conns && s.installed[j] in s.conns && 0 < s.conns[s.installed[i]].gen < s.conns[s.installed[j]].gen
  {
    assert s.installed[i] in Elems(s.installed) && s.installed[j] in Elems(s.installed);
    GenBelow(i, j);
  }

  /** A frame of `c` passes the generation check iff no other connection is installed for its node. */
  ghost predicate CheckHolds(s: State, c: ConnId)
    requires c in s.conns
  {
    Passes(s, c) <==> Lookup(s, s.conns[c].node) in {None, Some(c)}
  }

  /**
   * Which frames pass, exactly: with fewer than 2^32 installs, a connection's frame passes the generation check
   * iff its node has no connection installed at that moment, or this very one.
   */
  lemma PassesIff(ss: seq<State>, es: seq<Event>, maxPeers: int, k: nat, c: ConnId)
    requires Run(ss, es, maxPeers) && k < |ss| && |ss[k].installed| < GENERATIONS && c in ss[k].conns
    ensures CheckHolds(ss[k], c)
  {
    RunConsistent(ss, es, maxPeers, k);
    var s := ss[k];
    var p := Lookup(s, s.conns[c].node);
    if p.Some? && p.value != c {
      InstalledIsNewest(ss, es, maxPeers, k, c, p.value);
    }
  }

  /** A drop removes its own connection or nothing: every other entry, and every entry of another connection, stays. */
  lemma DropRemovesOnlyItself(ss: seq<State>, es: seq<Event>, maxPeers: int, k: nat, c: ConnId)
    requires Run(ss, es, maxPeers) && k < |ss| && c in ss[k].conns
    ensures forall n :: Lookup(ss[k], n) != Some(c) ==> Lookup(Removed(ss[k], c), n) == Lookup(ss[k], n)
    ensures forall n :: Lookup(Removed(ss[k], c), n) != Some(c)
  {
    RunConsistent(ss, es, maxPeers, k);
  }

  // ---- the limits of the generation check ----

  function Last(ss: seq<State>): State
    requires ss != []
  {
    ss[|ss| - 1]
  }

  lemma Extend(ss: seq<State>, es: seq<Event>, maxPeers: int, e: Event) returns (ss': seq<State>, es': seq<Event>)
    requires Run(ss, es, maxPeers) && Enabled(Last(ss), e)
    ensures Run(ss', es', maxPeers) && ss' == ss + [Step(Last(ss), e)]
  {
    ss', es' := ss + [Step(Last(ss), e)], es + [e];
    forall k | 0 <= k < |es'|
      ensures Enabled(ss'[k], es'[k]) && ss'[k + 1] == Step(ss'[k], es'[k])
    {
      if k < |es| {
        assert ss'[k] == ss[k] && ss'[k + 1] == ss[k + 1] && es'[k] == es[k];
      }
    }
  }

  /** `n` connections of node 7 were installed, each replacing the one before, and each is inside a read. */
  ghost predicate Reconnected(s: State, n: nat) {
    && s.maxPeers == 0 && |s.installed| == n && s.peers.Some? && !s.closed && s.peerGen == n % GENERATIONS
    && (forall c :: c in s.upgrading ==> c < n)
    && (forall c: ConnId :: c in s.conns <==> c < n)
    && (forall c :: c in s.conns ==> s.conns[c].node == 7 && s.conns[c].gen == Gen(c) && c in s.phase && s.phase[c] == Reading)
    && (n > 0 ==> Lookup(s, 7) == Some(n - 1) && s.conns[n - 1].gen == n % GENERATIONS && !s.conns[n - 1].closed)
  }

  lemma ReconnectedNext(s: State, n: nat)
    requires Reconnected(s, n)
    ensures Enabled(s, Begin(n)) && Enabled(Step(s, Begin(n)), Install(n, 7))
    ensures var t := Step(Step(s, Begin(n)), Install(n, 7)); Enabled(t, Check(n)) && Reconnected(Step(t, Check(n)), n + 1)
  {
    GenNext(n);
  }

  lemma {:induction false} Reconnect(n: nat) returns (ss: seq<State>, es: seq<Event>)
    ensures Run(ss, es, 0) && Reconnected(Last(ss), n)
  {
    if n == 0 {
      ss, es := [Init(0)], [];
    } else {
      ss, es := Reconnect(n - 1);
      ReconnectedNext(Last(ss), n - 1);
      ss, es := Extend(ss, es, 0, Begin(n - 1));
      ss, es := Extend(ss, es, 0, Install(n - 1, 7));
      ss, es := Extend(ss, es, 0, Check(n - 1));
    }
  }

  /** From 2^32 installs on: a replaced connection's frame passes although a newer one is installed. */
  lemma WrapLetsStaleFramesPass(n: nat)
    requires n >= GENERATIONS
    ensures exists ss, es, c: ConnId ::
              Run(ss, es, 0) && |Last(ss).installed| == n && c in Last(ss).conns && Enabled(Last(ss), Frame(c))
              && Passes(Last(ss), c) && !CheckHolds(Last(ss), c)
  {
    var ss, es := Reconnect(n);
    var c := GENERATIONS - 2;
    assert Last(ss).conns[c].gen == GENERATIONS - 1;
    assert Lookup(Last(ss), 7) == Some(n - 1);
    assert !CheckHolds(Last(ss), c);
  }

  /** What the generation check is for: in every run, for every frame that meets it after `n` installs. */
  ghost predicate CheckHoldsAfter(n: nat) {
    forall ss, es, maxPeers: int, c: ConnId ::
      Run(ss, es, maxPeers) && |Last(ss).installed| == n && c in Last(ss).conns && Enabled(Last(ss), Frame(c)) ==>
        CheckHolds(Last(ss), c)
  }

  /** The check does its job in every run with `n` installs if and only if n is below 2^32. */
  lemma CheckHoldsIff(n: nat)
    ensures CheckHoldsAfter(n) <==> n < GENERATIONS
  {
    if n < GENERATIONS {
      forall ss, es, maxPeers: int, c: ConnId | Run(ss, es, maxPeers) && |Last(ss).installed| == n && c in Last(ss).conns
        ensures CheckHolds(Last(ss), c)
      {
        PassesIff(ss, es, maxPeers, |ss| - 1, c);
      }
    } else {
      WrapLetsStaleFramesPass(n);
    }
  }

  /**
   * What the check does not promise: once the newer connection is dropped, a frame still being read on the
   * replaced one passes. Connection 0 is inside a read; 1 replaces it and is dropped; then 0's frame arrives.
   */
  lemma ReplacedFramePassesAfterDrop()
    ensures exists ss, es :: Run(ss, es, 0) && Enabled(Last(ss), Frame(0)) && Outdated(Last(ss), 0, 1) && Passes(Last(ss), 0)
  {
    var ss, es := Reconnect(1);
    ss, es := Extend(ss, es, 0, Begin(1));
    ss, es := Extend(ss, es, 0, Install(1, 7));
    ss, es := Extend(ss, es, 0, Remove(1));
  }

  /** `d` was installed after `c` for the same node, and `c` is marked closed. */
  ghost predicate Outdated(s: State, c: ConnId, d: ConnId) {
    SameNode(s, c, d) && s.conns[c].closed && s.conns[c].gen < s.conns[d].gen
  }

  // ---- capacity ----

  ghost predicate AtMostUpgrading(ss: seq<State>, f: nat) {
    forall k :: 0 <= k < |ss| ==> |ss[k].upgrading| <= f
  }

  lemma StepRoom(s: State, e: Event, f: nat)
    requires Enabled(s, e) && s.maxPeers >= 1 && |Step(s, e).upgrading| <= f
    requires PeerCount(s) + |s.upgrading| <= s.maxPeers - 1 + f
    ensures PeerCount(Step(s, e)) + |Step(s, e).upgrading| <= s.maxPeers - 1 + f
  {
    var t := Step(s, e);
    match e
    case Fail(c) =>
      assert |t.upgrading| == |s.upgrading| - 1;
    case Install(c, node) =>
      if s.closed || s.peers.Some? {
        assert |s.upgrading - {c}| == |s.upgrading| - 1;
      }
      if !s.closed && s.peers.Some? {
        PutSize(s.peers.value, node, c);
      }
    case Remove(c) =>
      if Lookup(s, s.conns[c].node) == Some(c) {
        var m := s.peers.value;
        assert (m - {s.conns[c].node}).Keys <= m.Keys;
        SubsetSameSize((m - {s.conns[c].node}).Keys, m.Keys);
        assert |m| == |m.Keys| && |m - {s.conns[c].node}| == |(m - {s.conns[c].node}).Keys|;
      }
    case _ =>
  }

  lemma PutSize(m: map<U32, ConnId>, n: U32, c: ConnId)
    ensures |m[n := c]| <= |m| + 1
    ensures n !in m ==> |m[n := c]| == |m| + 1
  {
    assert m[n := c].Keys == m.Keys + {n};
    assert |m[n := c]| == |m[n := c].Keys| && |m| == |m.Keys|;
    assert n in m.Keys ==> m.Keys + {n} == m.Keys;
  }

  /** With at most `f` upgrades between check and install, peers and upgrades together never exceed MaxPeers - 1 + f. */
  lemma {:induction false} CapacityBound(ss: seq<State>, es: seq<Event>, maxPeers: int, f: nat, k: nat)
    requires Run(ss, es, maxPeers) && maxPeers >= 1 && AtMostUpgrading(ss, f) && k < |ss|
    ensures ss[k].maxPeers == maxPeers
    ensures PeerCount(ss[k]) + |ss[k].upgrading| <= maxPeers - 1 + f
  {
    if k == 0 {
    } else {
      CapacityBound(ss, es, maxPeers, f, k - 1);
      assert ss[k - 1 + 1] == Step(ss[k - 1], es[k - 1]);
      StepRoom(ss[k - 1], es[k - 1], f);
    }
  }

  /** `m` peers are installed under nodes 1 to m, and `u` further upgrades are under way. */
  ghost predicate Loaded(s: State, maxPeers: int, m: nat, u: nat) {
    && s.maxPeers == maxPeers && !s.closed && s.peers.Some? && PeerCount(s) == m && |s.upgrading| == u
    && (forall n: U32 :: n in s.peers.value <==> 1 <= n <= m)
    && (forall c: ConnId :: c in s.conns <==> c < m)
    && (forall c: ConnId :: c in s.upgrading <==> m <= c < m + u)
  }

  lemma BeginLoaded(s: State, maxPeers: int, m: nat, u: nat)
    requires Loaded(s, maxPeers, m, u) && m < maxPeers
    ensures Enabled(s, Begin(m + u)) && Loaded(Step(s, Begin(m + u)), maxPeers, m, u + 1)
  {
  }

  lemma InstallLoaded(s: State, maxPeers: int, m: nat, u: nat)
    requires Loaded(s, maxPeers, m, u) && u > 0 && m + 1 < 0x1_0000_0000
    ensures Enabled(s, Install(m, m + 1)) && Loaded(Step(s, Install(m, m + 1)), maxPeers, m + 1, u - 1)
  {
    PutSize(s.peers.value, m + 1, m);
    assert Lookup(s, m + 1).None?;
  }

  /** One upgrade after the other, up to one below the limit. */
  lemma {:induction false} LoadSerially(maxPeers: int, f: nat, m: nat) returns (ss: seq<State>, es: seq<Event>)
    requires f >= 1 && m < maxPeers && m < 0x1_0000_0000
    ensures Run(ss, es, maxPeers) && AtMostUpgrading(ss, f) && Loaded(Last(ss), maxPeers, m, 0)
  {
    if m == 0 {
      ss, es := [Init(maxPeers)], [];
    } else {
      ss, es := LoadSerially(maxPeers, f, m - 1);
      BeginLoaded(Last(ss), maxPeers, m - 1, 0);
      ss, es := Extend(ss, es, maxPeers, Begin(m - 1));
      InstallLoaded(Last(ss), maxPeers, m - 1, 1);
      ss, es := Extend(ss, es, maxPeers, Install(m - 1, m));
    }
  }

  /** Then `u` upgrades pass the capacity check before any of them installs. */
  lemma {:induction false} LoadUpgrades(maxPeers: int, f: nat, u: nat) returns (ss: seq<State>, es: seq<Event>)
    requires f >= 1 && 1 <= maxPeers <= 0x1_0000_0000 && u <= f
    ensures Run(ss, es, maxPeers) && AtMostUpgrading(ss, f) && Loaded(Last(ss), maxPeers, maxPeers - 1, u)
  {
    var m := maxPeers - 1;
    if u == 0 {
      ss, es := LoadSerially(maxPeers, f, m);
    } else {
      ss, es := LoadUpgrades(maxPeers, f, u - 1);
      BeginLoaded(Last(ss), maxPeers, m, u - 1);
      ss, es := Extend(ss, es, maxPeers, Begin(m + u - 1));
    }
  }

  /** Then `j` of the `f` upgrades install. */
  lemma {:induction false} LoadInstalls(maxPeers: int, f: nat, j: nat) returns (ss: seq<State>, es: seq<Event>)
    requires f >= 1 && maxPeers >= 1 && maxPeers - 1 + f < 0x1_0000_0000 && j <= f
    ensures Run(ss, es, maxPeers) && AtMostUpgrading(ss, f) && Loaded(Last(ss), maxPeers, maxPeers - 1 + j, f - j)
  {
    if j == 0 {
      ss, es := LoadUpgrades(maxPeers, f, f);
    } else {
      ss, es := LoadInstalls(maxPeers, f, j - 1);
      var m := maxPeers - 2 + j;
      InstallLoaded(Last(ss), maxPeers, m, f - j + 1);
      ss, es := Extend(ss, es, maxPeers, Install(m, m + 1));
    }
  }

  /** The bound is attained: with `f` concurrent upgrades MaxPeers is exceeded by f - 1. */
  lemma CapacityAttained(maxPeers: int, f: nat)
    requires maxPeers >= 1 && f >= 1 && maxPeers - 1 + f < 0x1_0000_0000
    ensures exists ss, es :: Run(ss, es, maxPeers) && AtMostUpgrading(ss, f) && PeerCount(Last(ss)) == maxPeers - 1 + f
  {
    var ss, es := LoadInstalls(maxPeers, f, f);
    assert Run(ss, es, maxPeers) && AtMostUpgrading(ss, f);
  }
}
