/** What the WSS peer table, the closed marks and the read loops mean, in terms of the whole run that led to them. */
module WssHistory {
  import opened Base
  import opened WssPeers

  // ---- the table ----

  ghost predicate InstallsFor(e: Event, node: U32) {
    e.Install? && e.node == node
  }

  /** Install `i` put `c` under `node`; since then no install for that node, no drop of `c` and no shutdown. */
  ghost predicate StillHolds(es: seq<Event>, k: nat, i: nat, node: U32, c: ConnId)
    requires k <= |es|
  {
    && i < k && es[i] == Install(c, node) && NoShutdown(es, k)
    && (forall m :: i < m < k ==> !InstallsFor(es[m], node) && es[m] != Remove(c))
  }

  ghost predicate NoShutdown(es: seq<Event>, k: nat)
    requires k <= |es|
  {
    forall m :: 0 <= m < k ==> es[m] != Shutdown
  }

  lemma {:induction false} ClosedIsShutdown(ss: seq<State>, es: seq<Event>, maxPeers: int, k: nat)
    requires Run(ss, es, maxPeers) && k <= |es|
    ensures ss[k].closed <==> !NoShutdown(es, k)
    ensures ss[k].peers.None? <==> !NoShutdown(es, k)
  {
    RunConsistent(ss, es, maxPeers, k);
    if k == 0 {
    } else {
      ClosedIsShutdown(ss, es, maxPeers, k - 1);
      assert ss[k - 1 + 1] == Step(ss[k - 1], es[k - 1]);
    }
  }

  /** The few facts about a reachable state that single steps need. */
  ghost predicate Tidy(s: State) {
    && s.upgrading !! s.conns.Keys && s.phase.Keys == s.conns.Keys && (s.peers.None? <==> s.closed)
    && forall n :: Lookup(s, n).Some? ==> Lookup(s, n).value in s.conns && s.conns[Lookup(s, n).value].node == n
  }

  lemma RunTidy(ss: seq<State>, es: seq<Event>, maxPeers: int, k: nat)
    requires Run(ss, es, maxPeers) && k <= |es|
    ensures Tidy(ss[k])
  {
    RunConsistent(ss, es, maxPeers, k);
  }

  lemma HeldStep(s: State, e: Event, node: U32, c: ConnId)
    requires Enabled(s, e) && Tidy(s) && Lookup(Step(s, e), node) == Some(c)
    ensures e != Shutdown && !s.closed
    ensures if InstallsFor(e, node) then e.c == c else Lookup(s, node) == Some(c) && e != Remove(c)
  {
  }

  lemma {:induction false} HeldWasInstalled(ss: seq<State>, es: seq<Event>, maxPeers: int, k: nat, node: U32, c: ConnId)
    returns (i: nat)
    requires Run(ss, es, maxPeers) && k <= |es| && Lookup(ss[k], node) == Some(c)
    ensures StillHolds(es, k, i, node, c)
  {
    if k == 0 {
      assert false;
    } else {
      var n := k - 1;
      assert ss[n + 1] == Step(ss[n], es[n]);
      RunTidy(ss, es, maxPeers, n);
      HeldStep(ss[n], es[n], node, c);
      ClosedIsShutdown(ss, es, maxPeers, n);
      if InstallsFor(es[n], node) {
        i := n;
      } else {
        i := HeldWasInstalled(ss, es, maxPeers, n, node, c);
      }
    }
  }

  lemma {:induction false} InstalledIsHeld(ss: seq<State>, es: seq<Event>, maxPeers: int, k: nat, i: nat, node: U32, c: ConnId)
    requires Run(ss, es, maxPeers) && k <= |es| && StillHolds(es, k, i, node, c)
    ensures Lookup(ss[k], node) == Some(c)
    decreases k
  {
    var n := k - 1;
    assert ss[n + 1] == Step(ss[n], es[n]);
    ClosedIsShutdown(ss, es, maxPeers, n);
    RunTidy(ss, es, maxPeers, n);
    if i < n {
      InstalledIsHeld(ss, es, maxPeers, n, i, node, c);
    }
  }

  /**
   * In every interleaving the table holds `c` for a node if and only if `c` was the last to install for it, and
   * neither a drop of `c` nor a shutdown has happened since.
   */
  lemma TableMeaning(ss: seq<State>, es: seq<Event>, maxPeers: int, k: nat, node: U32, c: ConnId)
    requires Run(ss, es, maxPeers) && k <= |es|
    ensures Lookup(ss[k], node) == Some(c) <==> exists i: nat :: StillHolds(es, k, i, node, c)
  {
    if Lookup(ss[k], node) == Some(c) {
      var i := HeldWasInstalled(ss, es, maxPeers, k, node, c);
    }
    forall i: nat | StillHolds(es, k, i, node, c)
      ensures Lookup(ss[k], node) == Some(c)
    {
      InstalledIsHeld(ss, es, maxPeers, k, i, node, c);
    }
  }

  // ---- the closed marks ----

  /** What closes the connection that install `i` put under `node`: its mark, or an install that finds it in the table. */
  ghost predicate Closes(es: seq<Event>, m: nat, i: nat, node: U32, c: ConnId)
    requires m < |es|
  {
    es[m] == MarkClosed(c) || (InstallsFor(es[m], node) && StillHolds(es, m, i, node, c))
  }

  ghost predicate ClosedBy(es: seq<Event>, k: nat, i: nat, node: U32, c: ConnId)
    requires k <= |es|
  {
    exists m :: i < m < k && Closes(es, m, i, node, c)
  }

  /** Install `i` went through. */
  ghost predicate Installs(es: seq<Event>, i: nat, node: U32, c: ConnId) {
    i < |es| && es[i] == Install(c, node) && NoShutdown(es, i)
  }

  lemma ClosesIff(ss: seq<State>, es: seq<Event>, maxPeers: int, n: nat, i: nat, node: U32, c: ConnId)
    requires Run(ss, es, maxPeers) && i < n < |es| && Installs(es, i, node, c)
    requires c in ss[n].conns && ss[n].conns[c].node == node
    ensures c in ss[n + 1].conns && ss[n + 1].conns[c].node == node
    ensures ss[n + 1].conns[c].closed <==> ss[n].conns[c].closed || Closes(es, n, i, node, c)
  {
    RunTidy(ss, es, maxPeers, n);
    ClosedIsShutdown(ss, es, maxPeers, n);
    assert ss[n + 1] == Step(ss[n], es[n]);
    if InstallsFor(es[n], node) {
      if Lookup(ss[n], node) == Some(c) {
        var j := HeldWasInstalled(ss, es, maxPeers, n, node, c);
        InstalledOnce(ss, es, maxPeers, i, j, node, c);
      } else if StillHolds(es, n, i, node, c) {
        InstalledIsHeld(ss, es, maxPeers, n, i, node, c);
      }
    }
  }

  lemma {:induction false} InstalledStays(ss: seq<State>, es: seq<Event>, maxPeers: int, k: nat, i: nat, node: U32, c: ConnId)
    requires Run(ss, es, maxPeers) && i < k <= |es| && Installs(es, i, node, c)
    ensures c in ss[k].conns && ss[k].conns[c].node == node
    decreases k
  {
    var n := k - 1;
    ClosedIsShutdown(ss, es, maxPeers, n);
    RunTidy(ss, es, maxPeers, n);
    assert ss[n + 1] == Step(ss[n], es[n]);
    if i < n {
      InstalledStays(ss, es, maxPeers, n, i, node, c);
    }
  }

  lemma InstalledOnce(ss: seq<State>, es: seq<Event>, maxPeers: int, i: nat, j: nat, node: U32, c: ConnId)
    requires Run(ss, es, maxPeers) && Installs(es, i, node, c) && Installs(es, j, node, c)
    ensures i == j
  {
    RunTidy(ss, es, maxPeers, i);
    RunTidy(ss, es, maxPeers, j);
    if i < j {
      InstalledStays(ss, es, maxPeers, j, i, node, c);
    } else if j < i {
      InstalledStays(ss, es, maxPeers, i, j, node, c);
    }
  }

  /** In every interleaving a connection is marked closed if and only if its mark was set or an install found it in the table. */
  lemma {:induction false} ClosedMeaning(ss: seq<State>, es: seq<Event>, maxPeers: int, k: nat, i: nat, node: U32, c: ConnId)
    requires Run(ss, es, maxPeers) && i < k <= |es| && Installs(es, i, node, c)
    ensures c in ss[k].conns && (ss[k].conns[c].closed <==> ClosedBy(es, k, i, node, c))
    decreases k
  {
    InstalledStays(ss, es, maxPeers, k, i, node, c);
    var n := k - 1;
    if i < n {
      ClosedMeaning(ss, es, maxPeers, n, i, node, c);
      InstalledStays(ss, es, maxPeers, n, i, node, c);
      ClosesIff(ss, es, maxPeers, n, i, node, c);
    } else {
      ClosedIsShutdown(ss, es, maxPeers, n);
      assert ss[n + 1] == Step(ss[n], es[n]);
    }
  }

  /** A drop took `c` out of the table before any other install for its node, and has not set its mark. */
  ghost predicate HalfDropped(es: seq<Event>, k: nat, i: nat, node: U32, c: ConnId)
    requires k <= |es|
  {
    && (forall m :: i < m < k ==> es[m] != MarkClosed(c))
    && exists r :: i < r < k && DropsFirst(es, r, i, node, c)
  }

  ghost predicate DropsFirst(es: seq<Event>, r: nat, i: nat, node: U32, c: ConnId)
    requires r < |es|
  {
    es[r] == Remove(c) && forall m :: i < m < r ==> !InstallsFor(es[m], node)
  }

  lemma FirstInstall(es: seq<Event>, i: nat, j: nat, node: U32) returns (f: nat)
    requires i < j < |es| && InstallsFor(es[j], node)
    ensures i < f <= j && InstallsFor(es[f], node) && forall m :: i < m < f ==> !InstallsFor(es[m], node)
  {
    f := i + 1;
    while !InstallsFor(es[f], node)
      invariant i < f <= j && forall m :: i < m < f ==> !InstallsFor(es[m], node)
      decreases j - f
    {
      f := f + 1;
    }
  }

  /**
   * A replaced connection is closed, with one exception, and exactly that one: a drop took it out of the table
   * before the newer connection was installed, and is still between its two halves.
   */
  lemma ReplacedOpenIff(ss: seq<State>, es: seq<Event>, maxPeers: int, k: nat, i: nat, j: nat, node: U32, c: ConnId)
    requires Run(ss, es, maxPeers) && i < j < k <= |es|
    requires Installs(es, i, node, c) && InstallsFor(es[j], node) && NoShutdown(es, j)
    ensures c in ss[k].conns && (!ss[k].conns[c].closed <==> HalfDropped(es, k, i, node, c))
  {
    ClosedMeaning(ss, es, maxPeers, k, i, node, c);
    var f := FirstInstall(es, i, j, node);
    if r :| i < r < f && es[r] == Remove(c) {
      assert DropsFirst(es, r, i, node, c);
      forall m | i < m < k
        ensures Closes(es, m, i, node, c) <==> es[m] == MarkClosed(c)
      {
        assert InstallsFor(es[m], node) ==> f <= m;
      }
    } else {
      assert StillHolds(es, f, i, node, c) && Closes(es, f, i, node, c);
    }
  }

  /** The exception is real: 0 is dropped from the table, 1 takes its place, and 0 is still open. */
  lemma ReplacedButOpen()
    ensures exists ss, es :: Run(ss, es, 0) && SameNode(Last(ss), 0, 1) && Current(Last(ss), 1) && !Last(ss).conns[0].closed
  {
    var ss, es := Reconnect(1);
    ss, es := Extend(ss, es, 0, Remove(0));
    ss, es := Extend(ss, es, 0, Begin(1));
    ss, es := Extend(ss, es, 0, Install(1, 7));
  }

  // ---- the read loops ----

  ghost predicate Marked(s: State, c: ConnId) {
    c in s.conns && s.conns[c].closed
  }

  ghost predicate OutOfRead(s: State, c: ConnId) {
    c in s.phase && s.phase[c] != Reading
  }

  lemma ClosedStep(s: State, e: Event, c: ConnId)
    requires Enabled(s, e) && Tidy(s) && Marked(s, c)
    ensures Marked(Step(s, e), c)
    ensures OutOfRead(s, c) || e == Frame(c) || e == Leave(c) ==> OutOfRead(Step(s, e), c)
  {
  }

  lemma GoneStep(s: State, e: Event, c: ConnId)
    requires Enabled(s, e) && Tidy(s) && (e == Leave(c) || (c in s.phase && s.phase[c] == Gone))
    ensures c in Step(s, e).phase && Step(s, e).phase[c] == Gone
  {
  }

  lemma {:induction false} ClosedStays(ss: seq<State>, es: seq<Event>, maxPeers: int, k: nat, l: nat, c: ConnId)
    requires Run(ss, es, maxPeers) && k <= l <= |es| && Marked(ss[k], c)
    ensures Marked(ss[l], c) && (OutOfRead(ss[k], c) ==> OutOfRead(ss[l], c))
    decreases l
  {
    if k < l {
      var n := l - 1;
      ClosedStays(ss, es, maxPeers, k, n, c);
      RunTidy(ss, es, maxPeers, n);
      assert ss[n + 1] == Step(ss[n], es[n]);
      ClosedStep(ss[n], es[n], c);
    }
  }

  /**
   * Once a connection is closed, the read it may be in is its last: after the frame or the error that ends it, no
   * frame of that connection ever meets the generation check again.
   */
  lemma ClosedReadsAtMostOnce(ss: seq<State>, es: seq<Event>, maxPeers: int, k: nat, j: nat, l: nat, c: ConnId)
    requires Run(ss, es, maxPeers) && k <= j < l <= |es|
    requires c in ss[k].conns && ss[k].conns[c].closed && (es[j] == Frame(c) || es[j] == Leave(c))
    ensures !Enabled(ss[l], Frame(c))
  {
    ClosedStays(ss, es, maxPeers, k, j, c);
    RunTidy(ss, es, maxPeers, j);
    assert ss[j + 1] == Step(ss[j], es[j]);
    ClosedStep(ss[j], es[j], c);
    ClosedStays(ss, es, maxPeers, j + 1, l, c);
  }

  ghost predicate LoopEnded(s: State, c: ConnId) {
    c in s.phase && s.phase[c] == Gone
  }

  lemma {:induction false} EndedStays(ss: seq<State>, es: seq<Event>, maxPeers: int, j: nat, l: nat, c: ConnId)
    requires Run(ss, es, maxPeers) && j <= l <= |es| && LoopEnded(ss[j], c)
    ensures LoopEnded(ss[l], c)
    decreases l
  {
    if j < l {
      var n := l - 1;
      EndedStays(ss, es, maxPeers, j, n, c);
      RunTidy(ss, es, maxPeers, n);
      assert ss[n + 1] == Step(ss[n], es[n]);
      GoneStep(ss[n], es[n], c);
    }
  }

  /** A read loop that has ended never reads again, whether its connection is marked closed or not. */
  lemma LoopEndsForGood(ss: seq<State>, es: seq<Event>, maxPeers: int, j: nat, l: nat, c: ConnId)
    requires Run(ss, es, maxPeers) && j < l <= |es| && es[j] == Leave(c)
    ensures !Enabled(ss[l], Frame(c)) && !Enabled(ss[l], Check(c))
  {
    RunTidy(ss, es, maxPeers, j);
    assert ss[j + 1] == Step(ss[j], es[j]);
    GoneStep(ss[j], es[j], c);
    EndedStays(ss, es, maxPeers, j + 1, l, c);
  }

  /** The loop: a check of an open connection starts a read, of a closed one ends the loop; a frame leads back to the check. */
  lemma ReadLoopMeaning(ss: seq<State>, es: seq<Event>, maxPeers: int, j: nat, c: ConnId)
    requires Run(ss, es, maxPeers) && j < |es|
    ensures es[j] == Frame(c) ==> Enabled(ss[j + 1], Check(c))
    ensures es[j] == Check(c) ==> c in ss[j].conns
    ensures es[j] == Check(c) && !ss[j].conns[c].closed ==> Enabled(ss[j + 1], Frame(c)) && Enabled(ss[j + 1], Leave(c))
    ensures es[j] == Check(c) && ss[j].conns[c].closed ==> LoopEnded(ss[j + 1], c)
  {
    RunTidy(ss, es, maxPeers, j);
    assert ss[j + 1] == Step(ss[j], es[j]);
  }

  // ---- upgrades ----

  /** Upgrade `c` passed the capacity check at `b` and has neither failed nor reached its install since. */
  ghost predicate UnderWay(ss: seq<State>, es: seq<Event>, k: nat, b: nat, c: ConnId)
    requires k <= |es| < |ss|
  {
    && b < k && es[b] == Begin(c)
    && (ss[b].maxPeers > 0 && ss[b].peers.Some? ==> |ss[b].peers.value| < ss[b].maxPeers)
    && forall m :: b < m < k ==> es[m] != Fail(c) && !(es[m].Install? && es[m].c == c)
  }

  lemma {:induction false} UpgradingWasBegun(ss: seq<State>, es: seq<Event>, maxPeers: int, k: nat, c: ConnId) returns (b: nat)
    requires Run(ss, es, maxPeers) && k <= |es| && c in ss[k].upgrading
    ensures UnderWay(ss, es, k, b, c)
  {
    if k == 0 {
      assert false;
    } else {
      var n := k - 1;
      assert ss[n + 1] == Step(ss[n], es[n]);
      RunTidy(ss, es, maxPeers, n);
      if es[n] == Begin(c) {
        b := n;
      } else {
        b := UpgradingWasBegun(ss, es, maxPeers, n, c);
      }
    }
  }

  lemma {:induction false} BegunIsUpgrading(ss: seq<State>, es: seq<Event>, maxPeers: int, k: nat, b: nat, c: ConnId)
    requires Run(ss, es, maxPeers) && k <= |es| && UnderWay(ss, es, k, b, c)
    ensures c in ss[k].upgrading
    decreases k
  {
    var n := k - 1;
    assert ss[n + 1] == Step(ss[n], es[n]);
    if b < n {
      BegunIsUpgrading(ss, es, maxPeers, n, b, c);
    } else {
      CapacityIsFixed(ss, es, maxPeers, n);
    }
  }

  lemma {:induction false} CapacityIsFixed(ss: seq<State>, es: seq<Event>, maxPeers: int, k: nat)
    requires Run(ss, es, maxPeers) && k <= |es|
    ensures ss[k].maxPeers == maxPeers
  {
    if k == 0 {
    } else {
      CapacityIsFixed(ss, es, maxPeers, k - 1);
      assert ss[k - 1 + 1] == Step(ss[k - 1], es[k - 1]);
    }
  }

  /** The upgrades in flight are exactly those that found room and have neither failed nor reached their install. */
  lemma UpgradingMeaning(ss: seq<State>, es: seq<Event>, maxPeers: int, k: nat, c: ConnId)
    requires Run(ss, es, maxPeers) && k <= |es|
    ensures c in ss[k].upgrading <==> exists b: nat :: UnderWay(ss, es, k, b, c)
  {
    if c in ss[k].upgrading {
      var b := UpgradingWasBegun(ss, es, maxPeers, k, c);
    }
    forall b: nat | UnderWay(ss, es, k, b, c)
      ensures c in ss[k].upgrading
    {
      BegunIsUpgrading(ss, es, maxPeers, k, b, c);
    }
  }
}
