/**
 * What each event of the relay pipeline does, said in terms of the tables, the batch, the wire and the counters alone,
 * and what the counters and queues mean in terms of the whole run.
 */
module RelayOutcome {
  import opened Base
  import opened Address
  import opened Wire
  import opened Routing
  import opened Relay
  import opened RelayRun

  // ---- a batch that leaves ----

  /** `idx` lists, in increasing order, exactly the messages of a batch of `n` that get out. */
  ghost predicate Picks(idx: seq<nat>, n: nat, io: IO)
    requires |io.oks| == n
  {
    && (forall i, j :: 0 <= i < j < |idx| ==> idx[i] < idx[j])
    && (forall i :: 0 <= i < |idx| ==> idx[i] < n && (idx[i] < io.n || io.oks[idx[i]]))
    && (forall k :: 0 <= k < n && (k < io.n || io.oks[k]) ==> k in idx)
  }

  /** `batch` has left: what got out is on the wire in batch order and counted forwarded, the rest is counted failed. */
  ghost predicate Left(p: Pipe, q: Pipe, batch: seq<Msg>, idx: seq<nat>)
    requires forall i :: 0 <= i < |idx| ==> idx[i] < |batch|
  {
    && |q.wire| == |p.wire| + |idx| && q.wire[..|p.wire|] == p.wire
    && (forall i {:trigger idx[i]} :: 0 <= i < |idx| ==>
          var m := batch[idx[i]]; q.wire[|p.wire| + i] == Sent(m.job, m.frame, Some(m.addr)))
    && |idx| <= |batch|
    && q.count == p.count.(forwarded := p.count.forwarded + |idx|, failed := p.count.failed + |batch| - |idx|)
    && q.admitted == p.admitted
  }

  /** Nothing left and nothing was counted. */
  ghost predicate Quiet(p: Pipe, q: Pipe) {
    q.wire == p.wire && q.count == p.count && q.admitted == p.admitted
  }

  /** Only lane `w` changed, to `l`. */
  ghost predicate OnlyLane(p: Pipe, q: Pipe, w: nat, l: Lane) {
    w < |p.lanes| && q.lanes == p.lanes[w := l]
  }

  lemma SelectsPicks(idx: seq<nat>, batch: seq<Msg>, io: IO)
    requires |io.oks| == |batch| && Selects(idx, batch, io)
    ensures Picks(idx, |batch|, io) && |idx| <= |batch|
  {
    forall i | 0 <= i < |idx|
      ensures idx[i] < |batch| && (idx[i] < io.n || io.oks[idx[i]])
    {
      assert GoesOut(io, idx[i]);
    }
    forall k | 0 <= k < |batch| && (k < io.n || io.oks[k])
      ensures k in idx
    {
      assert GoesOut(io, k);
    }
    SelectedAtMost(idx, |batch|);
  }

  lemma FlushLeft(p: Pipe, w: nat, io: IO) returns (idx: seq<nat>)
    requires w < |p.lanes| && |io.oks| == |p.lanes[w].batch|
    ensures Picks(idx, |p.lanes[w].batch|, io) && Left(p, Flushed(p, w, io), p.lanes[w].batch, idx)
    ensures OnlyLane(p, Flushed(p, w, io), w, p.lanes[w].(batch := []))
  {
    var batch := p.lanes[w].batch;
    idx := SentExactly(batch, io);
    SelectsPicks(idx, batch, io);
    var q, sent := Flushed(p, w, io), SentOf(batch, io);
    forall i {:trigger idx[i]} | 0 <= i < |idx|
      ensures q.wire[|p.wire| + i] == Sent(batch[idx[i]].job, batch[idx[i]].frame, Some(batch[idx[i]].addr))
    {
      assert q.wire[|p.wire| + i] == sent[i];
    }
  }

  lemma {:induction false} SelectedAtMost(idx: seq<nat>, n: nat)
    requires forall i, j :: 0 <= i < j < |idx| ==> idx[i] < idx[j]
    requires forall i :: 0 <= i < |idx| ==> idx[i] < n
    ensures |idx| <= n
  {
    if idx == [] {
    } else {
      SelectedAtMost(idx[..|idx| - 1], idx[|idx| - 1]);
    }
  }

  /** Shutdown: over any run the worker's whole batch leaves, and the worker holds nothing back. */
  lemma StopOutcome(ps: seq<Pipe>, es: seq<Event>, workers: nat, queueCap: nat, k: nat) returns (idx: seq<nat>)
    requires Run(ps, es, workers, queueCap) && k < |es| && es[k].Stop?
    ensures var p, q, w := ps[k], ps[k + 1], es[k].w;
            && w < |p.lanes| && |es[k].io.oks| == |p.lanes[w].batch|
            && Picks(idx, |p.lanes[w].batch|, es[k].io) && Left(p, q, p.lanes[w].batch, idx)
            && OnlyLane(p, q, w, p.lanes[w].(batch := []))
  {
    assert ps[k + 1] == Step(ps[k], es[k], queueCap);
    idx := FlushLeft(ps[k], es[k].w, es[k].io);
  }

  /** A timer tick: the whole batch leaves and the timer is off. */
  lemma TickOutcome(ps: seq<Pipe>, es: seq<Event>, workers: nat, queueCap: nat, k: nat) returns (idx: seq<nat>)
    requires Run(ps, es, workers, queueCap) && k < |es| && es[k].Tick?
    ensures var p, q, w := ps[k], ps[k + 1], es[k].w;
            && w < |p.lanes| && |es[k].io.oks| == |p.lanes[w].batch|
            && Picks(idx, |p.lanes[w].batch|, es[k].io) && Left(p, q, p.lanes[w].batch, idx)
            && OnlyLane(p, q, w, Lane(p.lanes[w].queue, [], Idle, false))
  {
    assert ps[k + 1] == Step(ps[k], es[k], queueCap);
    idx := FlushLeft(WithTimer(ps[k], es[k].w, Idle, false), es[k].w, es[k].io);
  }

  /** An armed timer that runs out leaves a tick for its worker. */
  lemma ExpireOutcome(ps: seq<Pipe>, es: seq<Event>, workers: nat, queueCap: nat, k: nat)
    requires Run(ps, es, workers, queueCap) && k < |es| && es[k].Expire?
    ensures var p, q, w := ps[k], ps[k + 1], es[k].w;
            w < |p.lanes| && Quiet(p, q) && OnlyLane(p, q, w, p.lanes[w].(timer := Fired))
  {
    assert ps[k + 1] == Step(ps[k], es[k], queueCap);
  }

  // ---- a job that is taken ----

  ghost predicate Present(t: Tables, dest: U32) {
    dest in t.wss || dest in t.local || dest in t.peers
  }

  /** A job for a WSS peer leaves at once; if the write fails, or nobody knows the destination, it is counted not-found. */
  lemma TakeOutcomeUnbatched(ps: seq<Pipe>, es: seq<Event>, workers: nat, queueCap: nat, k: nat)
    requires Run(ps, es, workers, queueCap) && k < |es| && es[k].Take?
    ensures var p, q, w, t := ps[k], ps[k + 1], es[k].w, es[k].tables;
            && w < |p.lanes| && p.lanes[w].queue != []
            && var job, l := p.lanes[w].queue[0], p.lanes[w];
               job.relay.dest in t.wss || !Present(t, job.relay.dest) ==>
                 && OnlyLane(p, q, w, l.(queue := l.queue[1..])) && q.admitted == p.admitted
                 && (if job.relay.dest in t.wss && es[k].wssOk
                     then q.wire == p.wire + [Sent(job, DeliverFrame(job.relay), None)]
                          && q.count == p.count.(forwarded := p.count.forwarded + 1)
                     else q.wire == p.wire && q.count == p.count.(notFound := p.count.notFound + 1))
  {
    assert ps[k + 1] == Step(ps[k], es[k], queueCap);
  }

  /** Message `m` joined the batch `l` had; below 32 nothing leaves and the timer runs. */
  ghost predicate Joined(p: Pipe, q: Pipe, w: nat, l: Lane, m: Msg) {
    && Quiet(p, q)
    && OnlyLane(p, q, w, l.(batch := l.batch + [m], timer := if l.timerActive then l.timer else Armed, timerActive := true))
  }

  /** With `m` the batch was full: all of it left and the timer is off. */
  ghost predicate LeftWith(p: Pipe, q: Pipe, w: nat, l: Lane, m: Msg, io: IO, idx: seq<nat>)
    requires |io.oks| == |l.batch| + 1
  {
    && Picks(idx, |l.batch| + 1, io) && Left(p, q, l.batch + [m], idx)
    && OnlyLane(p, q, w, l.(batch := [], timer := Idle, timerActive := false))
  }

  lemma CollectLeft(p: Pipe, w: nat, m: Msg, io: IO) returns (idx: seq<nat>)
    requires w < |p.lanes| && LaneReady(p.lanes[w]) && |io.oks| == |p.lanes[w].batch| + 1
    ensures if |p.lanes[w].batch| < 31 then Joined(p, Collected(p, w, m, io), w, p.lanes[w], m)
            else LeftWith(p, Collected(p, w, m, io), w, p.lanes[w], m, io, idx)
  {
    var l := p.lanes[w];
    var b := WithTimer(Batched(p, w, m), w, if |l.batch| < 31 then l.timer else Idle, |l.batch| < 31 && l.timerActive);
    idx := FlushLeft(b, w, io);
  }

  lemma TakeCollects(p: Pipe, w: nat, t: Tables, wssOk: bool, io: IO) returns (m: Msg)
    requires w < |p.lanes| && p.lanes[w].queue != [] && |io.oks| == |p.lanes[w].batch| + 1
    requires var d := p.lanes[w].queue[0].relay.dest; d !in t.wss && Present(t, d)
    ensures m.job == p.lanes[w].queue[0] && AsAsked(t, Sent(m.job, m.frame, Some(m.addr)))
    ensures Taken(p, w, t, wssOk, io) == Collected(Popped(p, w), w, m, io)
  {
    var job := p.lanes[w].queue[0];
    var tier := Choose(t, job.relay.dest);
    m := Msg(job, Shape(tier, job.relay), tier.addr);
  }

  /**
   * Any other job joins the batch as the message the tables ask for. Below 32 messages nothing leaves and the timer
   * runs; the 32nd makes the whole batch leave, and the timer is off.
   */
  lemma TakeOutcomeBatched(ps: seq<Pipe>, es: seq<Event>, workers: nat, queueCap: nat, k: nat) returns (m: Msg, idx: seq<nat>)
    requires Run(ps, es, workers, queueCap) && k < |es| && es[k].Take?
    requires var d := ps[k].lanes[es[k].w].queue[0].relay.dest; d !in es[k].tables.wss && Present(es[k].tables, d)
    ensures var p, q, w := ps[k], ps[k + 1], es[k].w;
            && w < |p.lanes| && p.lanes[w].queue != []
            && m.job == p.lanes[w].queue[0] && AsAsked(es[k].tables, Sent(m.job, m.frame, Some(m.addr)))
            && |es[k].io.oks| == |p.lanes[w].batch| + 1 <= 32
            && var l := p.lanes[w].(queue := p.lanes[w].queue[1..]);
               if |l.batch| < 31 then Joined(p, q, w, l, m) else LeftWith(p, q, w, l, m, es[k].io, idx)
  {
    var p, w := ps[k], es[k].w;
    BatchNeverStranded(ps, es, workers, queueCap, k);
    assert LaneReady(p.lanes[w]);
    assert ps[k + 1] == Step(p, es[k], queueCap);
    m := TakeCollects(p, w, es[k].tables, es[k].wssOk, es[k].io);
    idx := CollectLeft(Popped(p, w), w, m, es[k].io);
    SameAfterPop(p, ps[k + 1], w, m, es[k].io, idx);
  }

  lemma SameAfterPop(p: Pipe, q: Pipe, w: nat, m: Msg, io: IO, idx: seq<nat>)
    requires w < |p.lanes| && p.lanes[w].queue != [] && |io.oks| == |p.lanes[w].batch| + 1
    ensures var l, r := p.lanes[w].(queue := p.lanes[w].queue[1..]), Popped(p, w);
            && (Joined(r, q, w, l, m) ==> Joined(p, q, w, l, m))
            && (LeftWith(r, q, w, l, m, io, idx) ==> LeftWith(p, q, w, l, m, io, idx))
  {
  }

  // ---- what the counters count ----

  ghost predicate Arrives(e: Event) {
    e.Dispatch? && |e.data| >= 8
  }

  function DestOf(data: Bytes): U32
    requires |data| >= 8
  {
    GetU32(data[4..8])
  }

  ghost predicate BreakerStops(e: Event) {
    Arrives(e) && e.breakerOpen
  }

  ghost predicate NobodyKnows(e: Event) {
    Arrives(e) && !e.breakerOpen && !Present(e.tables, DestOf(e.data))
  }

  ghost predicate LimiterStops(e: Event) {
    Arrives(e) && !e.breakerOpen && Present(e.tables, DestOf(e.data)) && !e.allowed
  }

  ghost predicate Deserves(e: Event) {
    Arrives(e) && !e.breakerOpen && Present(e.tables, DestOf(e.data)) && e.allowed
  }

  ghost predicate TooLarge(e: Event) {
    Deserves(e) && |e.data| - 8 > 65535
  }

  ghost predicate QueueFull(p: Pipe, e: Event, queueCap: nat) {
    Deserves(e) && |e.data| - 8 <= 65535 && |p.lanes| > 0 && |p.lanes[DestOf(e.data) % |p.lanes|].queue| >= queueCap
  }

  ghost predicate Posted(p: Pipe, e: Event, queueCap: nat) {
    Deserves(e) && |e.data| - 8 <= 65535 && |p.lanes| > 0 && |p.lanes[DestOf(e.data) % |p.lanes|].queue| < queueCap
  }

  /** A worker finds the destination gone, or the WSS write fails. */
  ghost predicate LostAtWorker(p: Pipe, e: Event) {
    && e.Take? && e.w < |p.lanes| && p.lanes[e.w].queue != []
    && var d := p.lanes[e.w].queue[0].relay.dest; if d in e.tables.wss then !e.wssOk else !Present(e.tables, d)
  }

  ghost function One(b: bool): nat { if b then 1 else 0 }

  datatype Tally = Tally(received: nat, dropped: nat, notFound: nat, limited: nat, oversized: nat)

  /** How often the first `k` events call for each counter. */
  ghost function Due(ps: seq<Pipe>, es: seq<Event>, k: nat, queueCap: nat): Tally
    requires k <= |es| < |ps|
  {
    if k == 0 then Tally(0, 0, 0, 0, 0) else
    var c, p, e := Due(ps, es, k - 1, queueCap), ps[k - 1], es[k - 1];
    Tally(
      c.received + One(Arrives(e)),
      c.dropped + One(BreakerStops(e)) + One(QueueFull(p, e, queueCap)),
      c.notFound + One(NobodyKnows(e)) + One(LostAtWorker(p, e)),
      c.limited + One(LimiterStops(e)),
      c.oversized + One(TooLarge(e)))
  }

  lemma DispatchCounts(p: Pipe, e: Event, queueCap: nat)
    requires Enabled(p, e) && e.Dispatch?
    ensures var c, d := p.count, Step(p, e, queueCap).count;
            && d.received == c.received + One(Arrives(e))
            && d.dropped == c.dropped + One(BreakerStops(e)) + One(QueueFull(p, e, queueCap))
            && d.notFound == c.notFound + One(NobodyKnows(e))
            && d.limited == c.limited + One(LimiterStops(e)) && d.oversized == c.oversized + One(TooLarge(e))
            && d.forwarded == c.forwarded && d.failed == c.failed && Step(p, e, queueCap).wire == p.wire
  {
  }

  lemma TakeCounts(p: Pipe, e: Event, queueCap: nat)
    requires Enabled(p, e) && e.Take?
    ensures var q := Step(p, e, queueCap);
            var c, d := p.count, q.count;
            && d.received == c.received && d.dropped == c.dropped && d.limited == c.limited && d.oversized == c.oversized
            && d.notFound == c.notFound + One(LostAtWorker(p, e))
            && d.forwarded - c.forwarded == |q.wire| - |p.wire|
  {
  }

  lemma OtherCounts(p: Pipe, e: Event, queueCap: nat)
    requires Enabled(p, e) && !e.Dispatch? && !e.Take?
    ensures var q := Step(p, e, queueCap);
            var c, d := p.count, q.count;
            && d == c.(forwarded := d.forwarded, failed := d.failed) && d.forwarded - c.forwarded == |q.wire| - |p.wire|
  {
  }

  /**
   * In every run each counter is the number of events that call for it: drops by the breaker or a full queue,
   * not-founds at the pre-check or at the worker, and so on; and exactly the frames on the wire are counted forwarded.
   */
  lemma {:induction false} CountersMean(ps: seq<Pipe>, es: seq<Event>, workers: nat, queueCap: nat, k: nat)
    requires Run(ps, es, workers, queueCap) && k <= |es|
    ensures var c := ps[k].count;
            && Tally(c.received, c.dropped, c.notFound, c.limited, c.oversized) == Due(ps, es, k, queueCap)
            && c.forwarded == |ps[k].wire|
  {
    if k == 0 {
    } else {
      var p, e := ps[k - 1], es[k - 1];
      CountersMean(ps, es, workers, queueCap, k - 1);
      assert ps[k - 1 + 1] == Step(p, e, queueCap);
      if e.Dispatch? {
        DispatchCounts(p, e, queueCap);
      } else if e.Take? {
        TakeCounts(p, e, queueCap);
      } else {
        OtherCounts(p, e, queueCap);
      }
    }
  }

  // ---- what waits in the queues ----

  /** The bodies posted by the first `k` events, in order. */
  ghost function PostedBodies(ps: seq<Pipe>, es: seq<Event>, k: nat, queueCap: nat): (bodies: seq<Bytes>)
    requires k <= |es| < |ps|
    ensures forall b :: b in bodies ==> |b| >= 8
  {
    if k == 0 then [] else
    PostedBodies(ps, es, k - 1, queueCap) + if Posted(ps[k - 1], es[k - 1], queueCap) then [es[k - 1].data] else []
  }

  function JobOf(ticket: nat, data: Bytes): Job
    requires |data| >= 8
  {
    Job(ticket, Wire.Relay(GetU32(data[..4]), DestOf(data), data[8..]))
  }

  /** Those for lane `w` of `n`, as jobs numbered over all lanes. */
  ghost function JobsFor(bodies: seq<Bytes>, n: nat, w: nat): seq<Job>
    requires n > 0 && forall b :: b in bodies ==> |b| >= 8
  {
    if bodies == [] then [] else
    var i := |bodies| - 1;
    var b := bodies[i];
    JobsFor(bodies[..i], n, w)
    + if DestOf(b) % n == w then [JobOf(i, b)] else []
  }

  ghost function TakesBy(es: seq<Event>, k: nat, w: nat): nat
    requires k <= |es|
  {
    if k == 0 then 0 else TakesBy(es, k - 1, w) + One(es[k - 1].Take? && es[k - 1].w == w)
  }

  lemma DispatchQueues(p: Pipe, e: Event, queueCap: nat, w: nat)
    requires Enabled(p, e) && e.Dispatch? && w < |p.lanes|
    ensures var q := Step(p, e, queueCap);
            && |q.lanes| == |p.lanes|
            && q.admitted == p.admitted + (if Posted(p, e, queueCap) then [e.data] else [])
            && q.lanes[w].queue == p.lanes[w].queue
               + if Posted(p, e, queueCap) && DestOf(e.data) % |p.lanes| == w then [JobOf(|p.admitted|, e.data)] else []
  {
  }

  lemma OthersAdmitNothing(p: Pipe, e: Event, queueCap: nat)
    requires Enabled(p, e) && !e.Dispatch?
    ensures Step(p, e, queueCap).admitted == p.admitted
  {
  }

  lemma JobsForMore(bodies: seq<Bytes>, data: Bytes, n: nat, w: nat)
    requires n > 0 && |data| >= 8 && forall b :: b in bodies ==> |b| >= 8
    ensures JobsFor(bodies + [data], n, w) ==
            JobsFor(bodies, n, w) + if DestOf(data) % n == w then [JobOf(|bodies|, data)] else []
  {
    assert (bodies + [data])[..|bodies|] == bodies;
  }

  /** The queue is what was posted for lane `w` of `n`, less the first `taken`. */
  ghost predicate Holds(queue: seq<Job>, bodies: seq<Bytes>, n: nat, w: nat, taken: nat)
    requires n > 0 && forall b :: b in bodies ==> |b| >= 8
  {
    taken <= |JobsFor(bodies, n, w)| && queue == JobsFor(bodies, n, w)[taken..]
  }

  lemma HoldsPosted(queue: seq<Job>, bodies: seq<Bytes>, data: Bytes, n: nat, w: nat, taken: nat)
    requires n > 0 && |data| >= 8 && (forall b :: b in bodies ==> |b| >= 8) && Holds(queue, bodies, n, w, taken)
    ensures Holds(queue + if DestOf(data) % n == w then [JobOf(|bodies|, data)] else [], bodies + [data], n, w, taken)
  {
    JobsForMore(bodies, data, n, w);
  }

  lemma HoldsTaken(queue: seq<Job>, bodies: seq<Bytes>, n: nat, w: nat, taken: nat)
    requires n > 0 && (forall b :: b in bodies ==> |b| >= 8) && Holds(queue, bodies, n, w, taken) && queue != []
    ensures Holds(queue[1..], bodies, n, w, taken + 1)
  {
    assert JobsFor(bodies, n, w)[taken..][1..] == JobsFor(bodies, n, w)[taken + 1..];
  }

  lemma {:induction false} AdmittedMeaning(ps: seq<Pipe>, es: seq<Event>, workers: nat, queueCap: nat, k: nat)
    requires Run(ps, es, workers, queueCap) && k <= |es| && workers > 0
    ensures |ps[k].lanes| == workers && ps[k].admitted == PostedBodies(ps, es, k, queueCap)
  {
    if k == 0 {
    } else {
      var n := k - 1;
      AdmittedMeaning(ps, es, workers, queueCap, n);
      assert ps[n + 1] == Step(ps[n], es[n], queueCap);
      if es[n].Dispatch? {
        DispatchQueues(ps[n], es[n], queueCap, 0);
      } else {
        OthersAdmitNothing(ps[n], es[n], queueCap);
        OnlyTakesDequeue(ps[n], es[n], queueCap, 0);
      }
    }
  }

  ghost predicate LaneHolds(p: Pipe, workers: nat, w: nat, taken: nat) {
    && |p.lanes| == workers && w < workers && (forall b :: b in p.admitted ==> |b| >= 8)
    && Holds(p.lanes[w].queue, p.admitted, workers, w, taken)
  }

  lemma QueueStep(p: Pipe, e: Event, queueCap: nat, workers: nat, w: nat, taken: nat)
    requires Enabled(p, e) && LaneHolds(p, workers, w, taken)
    ensures LaneHolds(Step(p, e, queueCap), workers, w, taken + One(e.Take? && e.w == w))
  {
    if e.Dispatch? {
      DispatchQueues(p, e, queueCap, w);
      if Posted(p, e, queueCap) {
        HoldsPosted(p.lanes[w].queue, p.admitted, e.data, workers, w, taken);
      }
    } else {
      OthersAdmitNothing(p, e, queueCap);
      OnlyTakesDequeue(p, e, queueCap, w);
      if e.Take? && e.w == w {
        HoldsTaken(p.lanes[w].queue, p.admitted, workers, w, taken);
      }
    }
  }

  lemma {:induction false} RunHolds(ps: seq<Pipe>, es: seq<Event>, workers: nat, queueCap: nat, k: nat, w: nat)
    requires Run(ps, es, workers, queueCap) && k <= |es| && w < workers
    ensures LaneHolds(ps[k], workers, w, TakesBy(es, k, w))
  {
    if k == 0 {
    } else {
      var n := k - 1;
      RunHolds(ps, es, workers, queueCap, n, w);
      assert ps[n + 1] == Step(ps[n], es[n], queueCap);
      QueueStep(ps[n], es[n], queueCap, workers, w, TakesBy(es, n, w));
    }
  }

  /**
   * In every run each queue holds, first in first out, exactly the frames posted for its lane (destination modulo the
   * number of workers) that its worker has not taken: sender, destination and payload as received.
   */
  lemma {:induction false} QueueMeaning(ps: seq<Pipe>, es: seq<Event>, workers: nat, queueCap: nat, k: nat, w: nat)
    requires Run(ps, es, workers, queueCap) && k <= |es| && w < workers
    ensures |ps[k].lanes| == workers
    ensures Holds(ps[k].lanes[w].queue, PostedBodies(ps, es, k, queueCap), workers, w, TakesBy(es, k, w))
  {
    AdmittedMeaning(ps, es, workers, queueCap, k);
    RunHolds(ps, es, workers, queueCap, k, w);
  }
}
