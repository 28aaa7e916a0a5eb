/** What every run of the relay pipeline keeps: conservation, order, at most once, unchanged bytes, armed timers. */
module RelayRun {
  import opened Base
  import opened Address
  import opened Wire
  import opened Routing
  import opened Relay

  // ---- conservation ----

  function Waiting(lanes: seq<Lane>): nat {
    if lanes == [] then 0 else
    var n := |lanes| - 1;
    Waiting(lanes[..n]) + |lanes[n].queue| + |lanes[n].batch|
  }

  lemma {:induction false} WaitingUpdate(lanes: seq<Lane>, w: nat, l: Lane)
    requires w < |lanes|
    ensures Waiting(lanes[w := l]) - |l.queue| - |l.batch| == Waiting(lanes) - |lanes[w].queue| - |lanes[w].batch|
  {
    var n := |lanes| - 1;
    if w == n {
      assert lanes[w := l][..n] == lanes[..n];
    } else {
      WaitingUpdate(lanes[..n], w, l);
      assert lanes[w := l][..n] == lanes[..n][w := l];
    }
  }

  /** Every frame received is accounted for exactly once. */
  ghost predicate Conserved(p: Pipe) {
    var c := p.count;
    c.received == c.dropped + c.notFound + c.limited + c.oversized + c.forwarded + c.failed + Waiting(p.lanes)
  }

  lemma FlushConserves(p: Pipe, w: nat, io: IO)
    requires w < |p.lanes| && |io.oks| == |p.lanes[w].batch| && Conserved(p)
    ensures Conserved(Flushed(p, w, io))
  {
    WaitingUpdate(p.lanes, w, p.lanes[w].(batch := []));
    SentNoMore(p.lanes[w].batch, io);
  }

  lemma TimerConserves(p: Pipe, w: nat, timer: Timer, timerActive: bool)
    requires w < |p.lanes| && Conserved(p)
    ensures Conserved(WithTimer(p, w, timer, timerActive))
  {
    WaitingUpdate(p.lanes, w, p.lanes[w].(timer := timer, timerActive := timerActive));
  }

  lemma CollectConserves(p: Pipe, w: nat, m: Msg, io: IO)
    requires w < |p.lanes| && |io.oks| == |p.lanes[w].batch| + 1
    requires Conserved(Batched(p, w, m))
    ensures Conserved(Collected(p, w, m, io))
  {
    var b, l := Batched(p, w, m), p.lanes[w];
    TimerConserves(b, w, Idle, false);
    TimerConserves(b, w, Armed, true);
    if |l.batch| + 1 >= BATCH_CAP {
      FlushConserves(if l.timerActive then WithTimer(b, w, Idle, false) else b, w, io);
    }
  }

  lemma TakeConserves(p: Pipe, w: nat, t: Tables, wssOk: bool, io: IO)
    requires Enabled(p, Take(w, t, wssOk, io)) && Conserved(p)
    ensures Conserved(Taken(p, w, t, wssOk, io))
  {
    var l, job := p.lanes[w], p.lanes[w].queue[0];
    var q := Popped(p, w);
    WaitingUpdate(p.lanes, w, l.(queue := l.queue[1..]));
    var tier := Choose(t, job.relay.dest);
    if tier.Local? || tier.Peer? {
      var m := Msg(job, Shape(tier, job.relay), tier.addr);
      WaitingUpdate(q.lanes, w, q.lanes[w].(batch := l.batch + [m]));
      CollectConserves(q, w, m, io);
    }
  }

  lemma StepConserves(p: Pipe, e: Event, queueCap: nat)
    requires Enabled(p, e) && Conserved(p)
    ensures Conserved(Step(p, e, queueCap))
  {
    match e
    case Dispatch(data, breakerOpen, t, allowed) =>
      if |data| >= 8 {
        var w := LaneOf(ParseRelay(data).value.dest, |p.lanes|);
        WaitingUpdate(p.lanes, w, p.lanes[w].(queue := p.lanes[w].queue + [Job(|p.admitted|, ParseRelay(data).value)]));
      }
    case Take(w, t, wssOk, io) => TakeConserves(p, w, t, wssOk, io);
    case Expire(w) => TimerConserves(p, w, Fired, p.lanes[w].timerActive);
    case Tick(w, io) =>
      TimerConserves(p, w, Idle, false);
      FlushConserves(WithTimer(p, w, Idle, false), w, io);
    case Stop(w, io) => FlushConserves(p, w, io);
  }

  lemma {:induction false} NothingWaits(lanes: seq<Lane>)
    requires forall i :: 0 <= i < |lanes| ==> lanes[i] == IDLE_LANE
    ensures Waiting(lanes) == 0
  {
    if lanes == [] {
    } else {
      NothingWaits(lanes[..|lanes| - 1]);
    }
  }

  /**
   * At every point of every run, the frames of at least 8 bytes received equal the counted drops, the counted
   * not-founds, the rate-limited, the oversized, the forwarded, the failed sends, the queued and the batched.
   */
  lemma {:induction false} Conservation(ps: seq<Pipe>, es: seq<Event>, workers: nat, queueCap: nat, k: nat)
    requires Run(ps, es, workers, queueCap) && k < |ps|
    ensures Conserved(ps[k])
  {
    if k == 0 {
      NothingWaits(ps[0].lanes);
    } else {
      Conservation(ps, es, workers, queueCap, k - 1);
      assert ps[k - 1 + 1] == Step(ps[k - 1], es[k - 1], queueCap);
      StepConserves(ps[k - 1], es[k - 1], queueCap);
    }
  }

  // ---- the tables between dispatch and worker ----

  /** Event `d` received the frame of `job`, found its destination in the tables of that moment, and queued it. */
  ghost predicate QueuedBy(ps: seq<Pipe>, es: seq<Event>, d: nat, job: Job)
    requires d < |es| < |ps|
  {
    && es[d].Dispatch? && job.ticket == |ps[d].admitted| && ps[d + 1].admitted == ps[d].admitted + [es[d].data]
    && ParseRelay(es[d].data) == Some(job.relay) && PreCheck(es[d].tables, job.relay.dest)
  }

  /** Where the queued jobs of a step come from: they waited before, or this step dispatched them. */
  lemma QueueGrowsByDispatch(p: Pipe, e: Event, queueCap: nat, w: nat, job: Job)
    requires Enabled(p, e) && w < |Step(p, e, queueCap).lanes| && job in Step(p, e, queueCap).lanes[w].queue
    ensures w < |p.lanes|
    ensures job in p.lanes[w].queue
            || (e.Dispatch? && job.ticket == |p.admitted| && Step(p, e, queueCap).admitted == p.admitted + [e.data]
                && ParseRelay(e.data) == Some(job.relay) && PreCheck(e.tables, job.relay.dest))
  {
    if !e.Dispatch? {
      OnlyTakesDequeue(p, e, queueCap, w);
    }
  }

  lemma OnlyTakesDequeue(p: Pipe, e: Event, queueCap: nat, w: nat)
    requires Enabled(p, e) && !e.Dispatch? && w < |p.lanes|
    ensures |Step(p, e, queueCap).lanes| == |p.lanes|
    ensures Step(p, e, queueCap).lanes[w].queue == if e.Take? && w == e.w then p.lanes[w].queue[1..] else p.lanes[w].queue
  {
  }

  lemma {:induction false} QueuedWasDispatched(ps: seq<Pipe>, es: seq<Event>, workers: nat, queueCap: nat, k: nat, w: nat, job: Job)
    returns (d: nat)
    requires Run(ps, es, workers, queueCap) && k < |ps| && w < |ps[k].lanes| && job in ps[k].lanes[w].queue
    ensures d < k && QueuedBy(ps, es, d, job)
  {
    if k == 0 {
      assert false;
    } else {
      assert ps[k - 1 + 1] == Step(ps[k - 1], es[k - 1], queueCap);
      QueueGrowsByDispatch(ps[k - 1], es[k - 1], queueCap, w, job);
      if job in ps[k - 1].lanes[w].queue {
        d := QueuedWasDispatched(ps, es, workers, queueCap, k - 1, w, job);
      } else {
        d := k - 1;
      }
    }
  }

  /**
   * For every job a worker takes there is the dispatch `d` that queued it, and the worker has no route if and only
   * if the presence of the destination changed between the two. With it unchanged, only a failed WSS write is
   * counted not-found.
   */
  lemma RouteLostIffTablesChanged(ps: seq<Pipe>, es: seq<Event>, workers: nat, queueCap: nat, k: nat) returns (d: nat)
    requires Run(ps, es, workers, queueCap) && k < |es| && es[k].Take?
    ensures var job, t := ps[k].lanes[es[k].w].queue[0], es[k].tables;
            var dest := job.relay.dest;
            && d < k && QueuedBy(ps, es, d, job)
            && (Choose(t, dest).Unknown? <==> PreCheck(es[d].tables, dest) != PreCheck(t, dest))
            && (ps[k + 1].count.notFound == ps[k].count.notFound + 1 <==>
                PreCheck(es[d].tables, dest) != PreCheck(t, dest) || (dest in t.wss && !es[k].wssOk))
  {
    var w := es[k].w;
    var job := ps[k].lanes[w].queue[0];
    d := QueuedWasDispatched(ps, es, workers, queueCap, k, w, job);
    assert ps[k + 1] == Step(ps[k], es[k], queueCap);
    StableTablesAgree(ps[k], w, es[k].tables, es[k].wssOk, es[k].io);
    PreCheckAgrees(es[k].tables, job.relay.dest);
  }

  /** Every event that consults the tables finds them as in `t`. */
  ghost predicate Consults(es: seq<Event>, t: Tables) {
    && (forall k :: 0 <= k < |es| && es[k].Dispatch? ==> es[k].tables == t)
    && (forall k :: 0 <= k < |es| && es[k].Take? ==> es[k].tables == t)
  }

  /** In particular, while no table changes at all, every queued frame has a route. */
  lemma QueuedFramesHaveRoutes(ps: seq<Pipe>, es: seq<Event>, workers: nat, queueCap: nat, t: Tables, k: nat)
    requires Run(ps, es, workers, queueCap) && Consults(es, t) && k < |es| && es[k].Take?
    ensures var dest := ps[k].lanes[es[k].w].queue[0].relay.dest;
            && !Choose(t, dest).Unknown?
            && (ps[k + 1].count.notFound == ps[k].count.notFound + 1 <==> dest in t.wss && !es[k].wssOk)
  {
    var d := RouteLostIffTablesChanged(ps, es, workers, queueCap, k);
  }

  // ---- timers and batch size ----

  ghost predicate LaneReady(l: Lane) {
    && |l.batch| < BATCH_CAP
    && (l.timerActive <==> l.timer != Idle)
    && (l.batch != [] ==> l.timerActive)
  }

  ghost predicate AllReady(p: Pipe, workers: nat) {
    |p.lanes| == workers && forall w :: 0 <= w < workers ==> LaneReady(p.lanes[w])
  }

  lemma ReplaceReady(p: Pipe, w: nat, l: Lane, workers: nat)
    requires w < |p.lanes| && AllReady(p, workers) && LaneReady(l)
    ensures AllReady(p.(lanes := p.lanes[w := l]), workers)
  {
  }

  lemma TakeReady(p: Pipe, w: nat, t: Tables, wssOk: bool, io: IO, workers: nat)
    requires Enabled(p, Take(w, t, wssOk, io)) && AllReady(p, workers)
    ensures AllReady(Taken(p, w, t, wssOk, io), workers)
  {
    var l, next := p.lanes[w], Taken(p, w, t, wssOk, io);
    assert LaneReady(l);
    var after := next.lanes[w];
    assert LaneReady(after);
    assert next.lanes == p.lanes[w := after];
    ReplaceReady(p, w, after, workers);
  }

  lemma StepReady(p: Pipe, e: Event, queueCap: nat, workers: nat)
    requires Enabled(p, e) && AllReady(p, workers)
    ensures AllReady(Step(p, e, queueCap), workers)
  {
    match e
    case Dispatch(data, breakerOpen, t, allowed) =>
      if |data| >= 8 {
        var w := LaneOf(ParseRelay(data).value.dest, |p.lanes|);
        var l := p.lanes[w];
        ReplaceReady(p, w, l.(queue := l.queue + [Job(|p.admitted|, ParseRelay(data).value)]), workers);
      }
    case Take(w, t, wssOk, io) => TakeReady(p, w, t, wssOk, io, workers);
    case Expire(w) => ReplaceReady(p, w, p.lanes[w].(timer := Fired), workers);
    case Tick(w, io) => ReplaceReady(p, w, p.lanes[w].(timer := Idle, timerActive := false, batch := []), workers);
    case Stop(w, io) => ReplaceReady(p, w, p.lanes[w].(batch := []), workers);
  }

  /**
   * At every loop head the batch is below 32, the flag mirrors the timer (so it is only ever re-armed after
   * being stopped and drained), and a non-empty batch has its flush timer armed or its tick waiting.
   */
  lemma {:induction false} BatchNeverStranded(ps: seq<Pipe>, es: seq<Event>, workers: nat, queueCap: nat, k: nat)
    requires Run(ps, es, workers, queueCap) && k < |ps|
    ensures AllReady(ps[k], workers)
  {
    if k == 0 {
    } else {
      BatchNeverStranded(ps, es, workers, queueCap, k - 1);
      assert ps[k - 1 + 1] == Step(ps[k - 1], es[k - 1], queueCap);
      StepReady(ps[k - 1], es[k - 1], queueCap, workers);
    }
  }

  // ---- order, at most once, unchanged bytes ----

  /** The job with its ticket is what arrived under that ticket. */
  ghost predicate Genuine(admitted: seq<Bytes>, j: Job) {
    j.ticket < |admitted| && ParseRelay(admitted[j.ticket]) == Some(j.relay)
  }

  /** The frame is one of the three shapes of the job's relay; a beacon-bound one repeats the received body. */
  ghost predicate Faithful(j: Job, frame: Bytes) {
    frame == DeliverFrame(j.relay) || frame == DeliverDestFrame(j.relay) || frame == RelayFrame(j.relay)
  }

  /** Jobs only ever wait in the lane of their destination. */
  ghost predicate LaneGenuine(admitted: seq<Bytes>, l: Lane, w: int, lane: U32 -> int) {
    && (forall i :: 0 <= i < |l.queue| ==> Genuine(admitted, l.queue[i]) && lane(l.queue[i].relay.dest) == w)
    && (forall i :: 0 <= i < |l.batch| ==>
          Genuine(admitted, l.batch[i].job) && lane(l.batch[i].job.relay.dest) == w && Faithful(l.batch[i].job, l.batch[i].frame))
  }

  /** In one lane: first the batch, then the queue, by increasing ticket. */
  ghost predicate LaneSorted(l: Lane) {
    && (forall i, j :: 0 <= i < j < |l.queue| ==> l.queue[i].ticket < l.queue[j].ticket)
    && (forall i, j :: 0 <= i < j < |l.batch| ==> l.batch[i].job.ticket < l.batch[j].job.ticket)
    && (forall i, j :: 0 <= i < |l.batch| && 0 <= j < |l.queue| ==> l.batch[i].job.ticket < l.queue[j].ticket)
  }

  /** What has left for a lane is older than what waits there, except that a WSS frame may overtake the batch. */
  ghost predicate OlderThan(s: Sent, l: Lane) {
    && (forall j :: 0 <= j < |l.queue| ==> s.job.ticket < l.queue[j].ticket)
    && (forall j :: 0 <= j < |l.batch| ==> s.job.ticket != l.batch[j].job.ticket)
    && (s.via.Some? ==> forall j :: 0 <= j < |l.batch| ==> s.job.ticket < l.batch[j].job.ticket)
  }

  ghost predicate LaneFine(p: Pipe, l: Lane, w: int, lane: U32 -> int) {
    && LaneGenuine(p.admitted, l, w, lane) && LaneSorted(l)
    && forall i :: 0 <= i < |p.wire| && lane(p.wire[i].job.relay.dest) == w ==> OlderThan(p.wire[i], l)
  }

  /** `b` left after `a`: a different frame, and a later one if both took the same transport from the same lane. */
  ghost predicate Follows(a: Sent, b: Sent, lane: U32 -> int) {
    && a.job.ticket != b.job.ticket
    && (lane(a.job.relay.dest) == lane(b.job.relay.dest) && a.via.Some? == b.via.Some? ==> a.job.ticket < b.job.ticket)
  }

  ghost predicate WireFine(p: Pipe, lane: U32 -> int) {
    && (forall i :: 0 <= i < |p.wire| ==> Genuine(p.admitted, p.wire[i].job) && Faithful(p.wire[i].job, p.wire[i].frame))
    && (forall i, j :: 0 <= i < j < |p.wire| ==> Follows(p.wire[i], p.wire[j], lane))
  }

  ghost predicate Orderly(p: Pipe, lane: U32 -> int) {
    && WireFine(p, lane)
    && forall w :: 0 <= w < |p.lanes| ==> LaneFine(p, p.lanes[w], w, lane)
  }

  lemma ReplaceLane(p: Pipe, w: nat, l: Lane, lane: U32 -> int)
    requires w < |p.lanes| && Orderly(p, lane) && LaneFine(p, l, w, lane)
    ensures Orderly(p.(lanes := p.lanes[w := l]), lane)
  {
    var q := p.(lanes := p.lanes[w := l]);
    forall v | 0 <= v < |q.lanes|
      ensures LaneFine(q, q.lanes[v], v, lane)
    {
      assert v != w ==> LaneFine(p, p.lanes[v], v, lane);
    }
  }

  lemma AdmitMore(p: Pipe, data: Bytes, lane: U32 -> int)
    requires Orderly(p, lane)
    ensures Orderly(p.(admitted := p.admitted + [data]), lane)
  {
    var q := p.(admitted := p.admitted + [data]);
    assert forall j: Job :: Genuine(p.admitted, j) ==> Genuine(q.admitted, j);
    forall v | 0 <= v < |q.lanes|
      ensures LaneFine(q, q.lanes[v], v, lane)
    {
      assert LaneFine(p, p.lanes[v], v, lane);
    }
  }

  lemma WireMore(p: Pipe, s: Sent, lane: U32 -> int)
    requires Orderly(p, lane) && Genuine(p.admitted, s.job) && Faithful(s.job, s.frame)
    requires forall i :: 0 <= i < |p.wire| ==> Follows(p.wire[i], s, lane)
    requires var w := lane(s.job.relay.dest); 0 <= w < |p.lanes| && OlderThan(s, p.lanes[w])
    ensures Orderly(OnWire(p, [s]), lane)
  {
    var q := OnWire(p, [s]);
    forall v | 0 <= v < |q.lanes|
      ensures LaneFine(q, q.lanes[v], v, lane)
    {
      assert LaneFine(p, p.lanes[v], v, lane);
    }
  }

  lemma QueueFine(p: Pipe, l: Lane, w: int, job: Job, lane: U32 -> int)
    requires LaneFine(p, l, w, lane) && Genuine(p.admitted, job) && lane(job.relay.dest) == w
    requires forall i :: 0 <= i < |l.queue| ==> l.queue[i].ticket < job.ticket
    requires forall i :: 0 <= i < |l.batch| ==> l.batch[i].job.ticket < job.ticket
    requires forall i :: 0 <= i < |p.wire| ==> p.wire[i].job.ticket < job.ticket
    ensures LaneFine(p, l.(queue := l.queue + [job]), w, lane)
  {
    var l' := l.(queue := l.queue + [job]);
    forall i | 0 <= i < |p.wire| && lane(p.wire[i].job.relay.dest) == w
      ensures OlderThan(p.wire[i], l')
    {
      assert OlderThan(p.wire[i], l);
    }
  }

  lemma QueueOrderly(p: Pipe, w: nat, data: Bytes, lane: U32 -> int)
    requires w < |p.lanes| && Orderly(p, lane) && ParseRelay(data).Some?
    requires lane(ParseRelay(data).value.dest) == w
    ensures Orderly(Queued(p, w, data), lane)
  {
    var q, l := p.(admitted := p.admitted + [data]), p.lanes[w];
    var job := Job(|p.admitted|, ParseRelay(data).value);
    AdmitMore(p, data, lane);
    assert LaneFine(p, l, w, lane) && LaneFine(q, q.lanes[w], w, lane);
    QueueFine(q, l, w, job, lane);
    ReplaceLane(q, w, l.(queue := l.queue + [job]), lane);
  }

  lemma PopOrderly(p: Pipe, w: nat, lane: U32 -> int)
    requires w < |p.lanes| && p.lanes[w].queue != [] && Orderly(p, lane)
    ensures Orderly(Popped(p, w), lane)
  {
    var l := p.lanes[w];
    assert LaneFine(p, l, w, lane);
    ReplaceLane(p, w, l.(queue := l.queue[1..]), lane);
  }

  /** The head of a queue is not yet on the wire, and younger than all its lane sent. */
  lemma HeadIsNew(p: Pipe, w: nat, i: nat, s: Sent, lane: U32 -> int)
    requires w < |p.lanes| && p.lanes[w].queue != [] && Orderly(p, lane) && i < |p.wire|
    requires s.job == p.lanes[w].queue[0]
    ensures Follows(p.wire[i], s, lane)
  {
    assert LaneFine(p, p.lanes[w], w, lane);
    assert Genuine(p.admitted, p.wire[i].job) && Genuine(p.admitted, s.job);
    if lane(p.wire[i].job.relay.dest) == w {
      assert OlderThan(p.wire[i], p.lanes[w]);
    }
  }

  lemma BatchOrderly(p: Pipe, w: nat, m: Msg, lane: U32 -> int)
    requires w < |p.lanes| && p.lanes[w].queue != [] && Orderly(p, lane)
    requires m.job == p.lanes[w].queue[0] && Faithful(m.job, m.frame)
    ensures Orderly(Batched(Popped(p, w), w, m), lane)
  {
    var l := p.lanes[w];
    assert LaneFine(p, l, w, lane);
    var after := l.(queue := l.queue[1..], batch := l.batch + [m]);
    forall i | 0 <= i < |p.wire| && lane(p.wire[i].job.relay.dest) == w
      ensures OlderThan(p.wire[i], after)
    {
      assert OlderThan(p.wire[i], l);
    }
    ReplaceLane(p, w, after, lane);
    assert Batched(Popped(p, w), w, m).lanes == p.lanes[w := after];
  }

  lemma WssOrderly(p: Pipe, w: nat, lane: U32 -> int)
    requires w < |p.lanes| && p.lanes[w].queue != [] && Orderly(p, lane)
    ensures var job := p.lanes[w].queue[0]; Orderly(OnWire(Popped(p, w), [Sent(job, DeliverFrame(job.relay), None)]), lane)
  {
    var l, job := p.lanes[w], p.lanes[w].queue[0];
    var s := Sent(job, DeliverFrame(job.relay), None);
    assert LaneFine(p, l, w, lane);
    PopOrderly(p, w, lane);
    forall i | 0 <= i < |p.wire|
      ensures Follows(p.wire[i], s, lane)
    {
      HeadIsNew(p, w, i, s, lane);
    }
    WireMore(Popped(p, w), s, lane);
  }

  // ---- flush ----

  function OfMsg(m: Msg): Sent { Sent(m.job, m.frame, Some(m.addr)) }

  /** Only batched messages are sent, each as it was batched. */
  lemma {:induction false} SentFromBatch(batch: seq<Msg>, io: IO, i: nat)
    requires |io.oks| == |batch| && i < |SentOf(batch, io)|
    ensures exists k :: 0 <= k < |batch| && SentOf(batch, io)[i] == OfMsg(batch[k])
  {
    var n := |batch| - 1;
    var front := SentOf(batch[..n], IO(io.n, io.oks[..n]));
    if i < |front| {
      SentFromBatch(batch[..n], IO(io.n, io.oks[..n]), i);
      var k :| 0 <= k < n && front[i] == OfMsg(batch[..n][k]);
      assert batch[k] == batch[..n][k];
    } else {
      assert SentOf(batch, io)[i] == OfMsg(batch[n]);
    }
  }

  /** Message `k` of a batch gets out: the batch call took it, or its own send succeeded. */
  predicate GoesOut(io: IO, k: nat)
    requires k < |io.oks|
  {
    k < io.n || io.oks[k]
  }

  /** `idx` names, in increasing order, exactly the messages that get out, and they leave in that order. */
  ghost predicate Selects(idx: seq<nat>, batch: seq<Msg>, io: IO)
    requires |io.oks| == |batch|
  {
    && |idx| == |SentOf(batch, io)|
    && (forall i, j :: 0 <= i < j < |idx| ==> idx[i] < idx[j])
    && (forall i :: 0 <= i < |idx| ==> idx[i] < |batch| && GoesOut(io, idx[i]) && SentOf(batch, io)[i] == OfMsg(batch[idx[i]]))
    && (forall k :: 0 <= k < |batch| && GoesOut(io, k) ==> k in idx)
  }

  /** For every short batch write and every outcome of the fallback, a flush sends each message that gets out once, in order. */
  lemma {:induction false} SentExactly(batch: seq<Msg>, io: IO) returns (idx: seq<nat>)
    requires |io.oks| == |batch|
    ensures Selects(idx, batch, io)
  {
    idx := [];
    if batch == [] {
    } else {
      var n := |batch| - 1;
      var front := IO(io.n, io.oks[..n]);
      idx := SentExactly(batch[..n], front);
      assert forall k :: 0 <= k < n ==> GoesOut(io, k) == GoesOut(front, k);
      if GoesOut(io, n) {
        idx := idx + [n];
      }
    }
  }

  /** A batch about to leave lane `w`: sorted, older than the queue, and new to the wire. */
  ghost predicate Leaving(p: Pipe, w: nat, batch: seq<Msg>, lane: U32 -> int)
    requires w < |p.lanes|
  {
    && (forall k :: 0 <= k < |batch| ==>
          Genuine(p.admitted, batch[k].job) && Faithful(batch[k].job, batch[k].frame) && lane(batch[k].job.relay.dest) == w)
    && (forall i, k :: 0 <= i < k < |batch| ==> batch[i].job.ticket < batch[k].job.ticket)
    && (forall k :: 0 <= k < |batch| ==> OlderThan(OfMsg(batch[k]), p.lanes[w]))
    && (forall i, k :: 0 <= i < |p.wire| && 0 <= k < |batch| ==> Follows(p.wire[i], OfMsg(batch[k]), lane))
  }

  /** The last message of a batch follows everything before it. */
  lemma LastFollows(p: Pipe, w: nat, batch: seq<Msg>, io: IO, i: nat, lane: U32 -> int)
    requires w < |p.lanes| && batch != [] && Leaving(p, w, batch, lane)
    requires |io.oks| == |batch| - 1 && i < |p.wire + SentOf(batch[..|batch| - 1], io)|
    ensures Follows((p.wire + SentOf(batch[..|batch| - 1], io))[i], OfMsg(batch[|batch| - 1]), lane)
  {
    var n := |batch| - 1;
    var front := batch[..n];
    if i >= |p.wire| {
      SentFromBatch(front, io, i - |p.wire|);
      var k :| 0 <= k < n && SentOf(front, io)[i - |p.wire|] == OfMsg(front[k]);
      assert batch[k].job.ticket < batch[n].job.ticket;
    }
  }

  lemma LeavingFront(p: Pipe, w: nat, batch: seq<Msg>, lane: U32 -> int)
    requires w < |p.lanes| && batch != [] && Leaving(p, w, batch, lane)
    ensures Leaving(p, w, batch[..|batch| - 1], lane)
  {
  }

  lemma {:induction false} SendOrderly(p: Pipe, w: nat, batch: seq<Msg>, io: IO, lane: U32 -> int)
    requires w < |p.lanes| && |io.oks| == |batch|
    requires Orderly(p, lane) && Leaving(p, w, batch, lane)
    ensures Orderly(OnWire(p, SentOf(batch, io)), lane)
  {
    if batch == [] {
      assert OnWire(p, SentOf(batch, io)) == p;
    } else {
      var n := |batch| - 1;
      var front, io' := batch[..n], IO(io.n, io.oks[..n]);
      LeavingFront(p, w, batch, lane);
      SendOrderly(p, w, front, io', lane);
      var q, last := OnWire(p, SentOf(front, io')), OfMsg(batch[n]);
      if n < io.n || io.oks[n] {
        forall i | 0 <= i < |q.wire|
          ensures Follows(q.wire[i], last, lane)
        {
          LastFollows(p, w, batch, io', i, lane);
        }
        WireMore(q, last, lane);
        assert OnWire(q, [last]) == OnWire(p, SentOf(batch, io));
      } else {
        assert q == OnWire(p, SentOf(batch, io));
      }
    }
  }

  /** A batched message has not left yet. */
  lemma BatchedFollows(p: Pipe, w: nat, i: nat, k: nat, lane: U32 -> int)
    requires w < |p.lanes| && Orderly(p, lane) && i < |p.wire| && k < |p.lanes[w].batch|
    ensures Follows(p.wire[i], OfMsg(p.lanes[w].batch[k]), lane)
  {
    var l := p.lanes[w];
    assert LaneFine(p, l, w, lane);
    assert Genuine(p.admitted, p.wire[i].job) && Genuine(p.admitted, l.batch[k].job);
    if lane(p.wire[i].job.relay.dest) == w {
      assert OlderThan(p.wire[i], l);
    }
  }

  /** The pipeline whose worker `w` holds its batch in hand. */
  function Unbatched(p: Pipe, w: nat): Pipe
    requires w < |p.lanes|
  {
    p.(lanes := p.lanes[w := p.lanes[w].(batch := [])])
  }

  lemma UnbatchedOrderly(p: Pipe, w: nat, lane: U32 -> int)
    requires w < |p.lanes| && Orderly(p, lane)
    ensures Orderly(Unbatched(p, w), lane)
  {
    assert LaneFine(p, p.lanes[w], w, lane);
    ReplaceLane(p, w, p.lanes[w].(batch := []), lane);
  }

  lemma FlushLeaves(p: Pipe, w: nat, lane: U32 -> int)
    requires w < |p.lanes| && Orderly(p, lane)
    ensures Leaving(Unbatched(p, w), w, p.lanes[w].batch, lane)
  {
    var l := p.lanes[w];
    assert LaneFine(p, l, w, lane);
    forall i, k | 0 <= i < |p.wire| && 0 <= k < |l.batch|
      ensures Follows(p.wire[i], OfMsg(l.batch[k]), lane)
    {
      BatchedFollows(p, w, i, k, lane);
    }
  }

  lemma SameOrderly(p: Pipe, q: Pipe, lane: U32 -> int)
    requires Orderly(p, lane) && q == p.(count := q.count)
    ensures Orderly(q, lane)
  {
    forall w | 0 <= w < |q.lanes|
      ensures LaneFine(q, q.lanes[w], w, lane)
    {
      assert LaneFine(p, p.lanes[w], w, lane);
    }
  }

  lemma FlushOrderly(p: Pipe, w: nat, io: IO, lane: U32 -> int)
    requires w < |p.lanes| && |io.oks| == |p.lanes[w].batch| && Orderly(p, lane)
    ensures Orderly(Flushed(p, w, io), lane)
  {
    var q := Unbatched(p, w);
    UnbatchedOrderly(p, w, lane);
    FlushLeaves(p, w, lane);
    SendOrderly(q, w, p.lanes[w].batch, io, lane);
    SameOrderly(OnWire(q, SentOf(p.lanes[w].batch, io)), Flushed(p, w, io), lane);
  }

  lemma TimerOrderly(p: Pipe, w: nat, timer: Timer, timerActive: bool, lane: U32 -> int)
    requires w < |p.lanes| && Orderly(p, lane)
    ensures Orderly(WithTimer(p, w, timer, timerActive), lane)
  {
    var l := p.lanes[w];
    assert LaneFine(p, l, w, lane);
    ReplaceLane(p, w, l.(timer := timer, timerActive := timerActive), lane);
  }

  lemma CollectOrderly(p: Pipe, w: nat, m: Msg, io: IO, lane: U32 -> int)
    requires w < |p.lanes| && |io.oks| == |p.lanes[w].batch| + 1 && Orderly(Batched(p, w, m), lane)
    ensures Orderly(Collected(p, w, m, io), lane)
  {
    var b, l := Batched(p, w, m), p.lanes[w];
    TimerOrderly(b, w, Idle, false, lane);
    TimerOrderly(b, w, Armed, true, lane);
    if |l.batch| + 1 >= BATCH_CAP {
      FlushOrderly(if l.timerActive then WithTimer(b, w, Idle, false) else b, w, io, lane);
    }
  }

  lemma TakeOrderly(p: Pipe, w: nat, t: Tables, wssOk: bool, io: IO, lane: U32 -> int)
    requires Enabled(p, Take(w, t, wssOk, io)) && Orderly(p, lane)
    ensures Orderly(Taken(p, w, t, wssOk, io), lane)
  {
    var job, next := p.lanes[w].queue[0], Taken(p, w, t, wssOk, io);
    var tier := Choose(t, job.relay.dest);
    if tier.Local? || tier.Peer? {
      var m := Msg(job, Shape(tier, job.relay), tier.addr);
      BatchOrderly(p, w, m, lane);
      CollectOrderly(Popped(p, w), w, m, io, lane);
    } else if tier.Wss? && wssOk {
      WssOrderly(p, w, lane);
      SameOrderly(OnWire(Popped(p, w), [Sent(job, DeliverFrame(job.relay), None)]), next, lane);
    } else {
      PopOrderly(p, w, lane);
      SameOrderly(Popped(p, w), next, lane);
    }
  }

  lemma StepOrderly(p: Pipe, e: Event, queueCap: nat, lane: U32 -> int)
    requires Enabled(p, e) && Orderly(p, lane)
    requires forall d: U32 :: |p.lanes| > 0 ==> lane(d) == LaneOf(d, |p.lanes|)
    ensures Orderly(Step(p, e, queueCap), lane)
  {
    match e
    case Dispatch(data, breakerOpen, t, allowed) =>
      var next := Step(p, e, queueCap);
      if next.admitted == p.admitted {
        SameOrderly(p, next, lane);
      } else {
        var w := LaneOf(ParseRelay(data).value.dest, |p.lanes|);
        QueueOrderly(p, w, data, lane);
        SameOrderly(Queued(p, w, data), next, lane);
      }
    case Take(w, t, wssOk, io) => TakeOrderly(p, w, t, wssOk, io, lane);
    case Expire(w) => TimerOrderly(p, w, Fired, p.lanes[w].timerActive, lane);
    case Tick(w, io) =>
      TimerOrderly(p, w, Idle, false, lane);
      FlushOrderly(WithTimer(p, w, Idle, false), w, io, lane);
    case Stop(w, io) => FlushOrderly(p, w, io, lane);
  }

  lemma {:induction false} RunOrderly(ps: seq<Pipe>, es: seq<Event>, workers: nat, queueCap: nat, k: nat, lane: U32 -> int)
    requires Run(ps, es, workers, queueCap) && k < |ps|
    requires forall d: U32 :: workers > 0 ==> lane(d) == LaneOf(d, workers)
    ensures Orderly(ps[k], lane)
  {
    if k == 0 {
    } else {
      RunOrderly(ps, es, workers, queueCap, k - 1, lane);
      BatchNeverStranded(ps, es, workers, queueCap, k - 1);
      assert ps[k - 1 + 1] == Step(ps[k - 1], es[k - 1], queueCap);
      StepOrderly(ps[k - 1], es[k - 1], queueCap, lane);
    }
  }

  /** The frames to one destination over one transport leave in the order they were queued. */
  lemma PerDestinationOrder(ps: seq<Pipe>, es: seq<Event>, workers: nat, queueCap: nat, k: nat, i: nat, j: nat)
    requires Run(ps, es, workers, queueCap) && k < |ps| && i < j < |ps[k].wire|
    requires var a, b := ps[k].wire[i], ps[k].wire[j]; a.job.relay.dest == b.job.relay.dest && a.via.Some? == b.via.Some?
    ensures ps[k].wire[i].job.ticket < ps[k].wire[j].job.ticket
  {
    var lane := (d: U32) => if workers > 0 then LaneOf(d, workers) else 0;
    RunOrderly(ps, es, workers, queueCap, k, lane);
    assert Follows(ps[k].wire[i], ps[k].wire[j], lane);
  }

  /** No queued frame is ever sent twice, and every frame sent carries the bytes that arrived under its ticket. */
  lemma SentOnceUnchanged(ps: seq<Pipe>, es: seq<Event>, workers: nat, queueCap: nat, k: nat)
    requires Run(ps, es, workers, queueCap) && k < |ps|
    ensures forall i, j :: 0 <= i < j < |ps[k].wire| ==> ps[k].wire[i].job.ticket != ps[k].wire[j].job.ticket
    ensures forall i :: 0 <= i < |ps[k].wire| ==>
              Genuine(ps[k].admitted, ps[k].wire[i].job) && Faithful(ps[k].wire[i].job, ps[k].wire[i].frame)
  {
    var lane := (d: U32) => if workers > 0 then LaneOf(d, workers) else 0;
    RunOrderly(ps, es, workers, queueCap, k, lane);
    forall i, j | 0 <= i < j < |ps[k].wire|
      ensures ps[k].wire[i].job.ticket != ps[k].wire[j].job.ticket
    {
      assert Follows(ps[k].wire[i], ps[k].wire[j], lane);
    }
  }

  // ---- where a sent frame comes from ----

  /**
   * `s` is what the tables `t` ask for: to a WSS peer the plain delivery over WSS; else to a registered node the
   * delivery to its address, with the destination exactly if the node asked for it; else the relay frame itself to
   * the peer beacon that announced the destination.
   */
  ghost predicate AsAsked(t: Tables, s: Sent) {
    var r := s.job.relay;
    if r.dest in t.wss then s.via == None && s.frame == DeliverFrame(r)
    else if r.dest in t.local then
      && s.via == Some(t.local[r.dest])
      && (r.dest in t.dst ==> s.frame == DeliverDestFrame(r))
      && (r.dest !in t.dst ==> s.frame == DeliverFrame(r))
    else r.dest in t.peers && s.via == Some(t.peers[r.dest]) && s.frame == RelayFrame(r)
  }

  /** `e` takes the job of `s`, and `s` is what the tables it sees ask for. */
  ghost predicate TakenAs(p: Pipe, e: Event, s: Sent) {
    e.Take? && Enabled(p, e) && s.job == p.lanes[e.w].queue[0] && AsAsked(e.tables, s)
  }

  lemma FlushSends(p: Pipe, w: nat, io: IO, s: Sent) returns (m: Msg)
    requires w < |p.lanes| && |io.oks| == |p.lanes[w].batch| && s in Flushed(p, w, io).wire && s !in p.wire
    ensures m in p.lanes[w].batch && s == OfMsg(m)
  {
    var batch := p.lanes[w].batch;
    assert s in SentOf(batch, io);
    var i :| 0 <= i < |SentOf(batch, io)| && SentOf(batch, io)[i] == s;
    SentFromBatch(batch, io, i);
    var k :| 0 <= k < |batch| && SentOf(batch, io)[i] == OfMsg(batch[k]);
    m := batch[k];
  }

  lemma CollectSends(p: Pipe, w: nat, m: Msg, io: IO, s: Sent) returns (x: Msg)
    requires w < |p.lanes| && |io.oks| == |p.lanes[w].batch| + 1 && s in Collected(p, w, m, io).wire && s !in p.wire
    ensures (x in p.lanes[w].batch || x == m) && s == OfMsg(x)
  {
    var b, l := Batched(p, w, m), p.lanes[w];
    x := FlushSends(if l.timerActive then WithTimer(b, w, Idle, false) else b, w, io, s);
  }

  /** A frame that leaves in this step was batched before, or this step took its job. */
  lemma StepSends(p: Pipe, e: Event, queueCap: nat, s: Sent) returns (w: nat, m: Msg)
    requires Enabled(p, e) && s in Step(p, e, queueCap).wire && s !in p.wire
    ensures TakenAs(p, e, s) || (w < |p.lanes| && m in p.lanes[w].batch && s == OfMsg(m))
  {
    w, m := 0, Msg(s.job, s.frame, Addr([], 0));
    match e
    case Take(v, t, _, io) =>
      w := v;
      var job := p.lanes[w].queue[0];
      var tier := Choose(t, job.relay.dest);
      if tier.Local? || tier.Peer? {
        m := CollectSends(Popped(p, w), w, Msg(job, Shape(tier, job.relay), tier.addr), io, s);
      }
    case Tick(v, io) =>
      w := v;
      m := FlushSends(WithTimer(p, w, Idle, false), w, io, s);
    case Stop(v, io) =>
      w := v;
      m := FlushSends(p, w, io, s);
    case _ =>
  }

  /** A message that is batched after this step was so before, or this step took its job. */
  lemma StepBatches(p: Pipe, e: Event, queueCap: nat, w: nat, m: Msg)
    requires Enabled(p, e) && w < |Step(p, e, queueCap).lanes| && m in Step(p, e, queueCap).lanes[w].batch
    ensures w < |p.lanes| && (m in p.lanes[w].batch || TakenAs(p, e, OfMsg(m)))
  {
    if e.Take? {
      TakeBatches(p, e, queueCap, w, m);
    }
  }

  lemma TakeBatches(p: Pipe, e: Event, queueCap: nat, w: nat, m: Msg)
    requires Enabled(p, e) && e.Take? && w < |p.lanes| && m in Step(p, e, queueCap).lanes[w].batch
    ensures m in p.lanes[w].batch || TakenAs(p, e, OfMsg(m))
  {
    var job := p.lanes[e.w].queue[0];
    var tier := Choose(e.tables, job.relay.dest);
    if w != e.w || tier.Wss? || tier.Unknown? {
      assert Step(p, e, queueCap).lanes[w].batch == p.lanes[w].batch;
    } else if m !in p.lanes[w].batch {
      assert m == Msg(job, Shape(tier, job.relay), tier.addr);
    }
  }

  lemma {:induction false} BatchedWasTaken(ps: seq<Pipe>, es: seq<Event>, workers: nat, queueCap: nat, k: nat, w: nat, m: Msg)
    returns (t: nat)
    requires Run(ps, es, workers, queueCap) && k < |ps| && w < |ps[k].lanes| && m in ps[k].lanes[w].batch
    ensures t < k && TakenAs(ps[t], es[t], OfMsg(m))
  {
    if k == 0 {
      assert false;
    } else {
      assert ps[k - 1 + 1] == Step(ps[k - 1], es[k - 1], queueCap);
      StepBatches(ps[k - 1], es[k - 1], queueCap, w, m);
      if m in ps[k - 1].lanes[w].batch {
        t := BatchedWasTaken(ps, es, workers, queueCap, k - 1, w, m);
      } else {
        t := k - 1;
      }
    }
  }

  lemma {:induction false} SentWasTaken(ps: seq<Pipe>, es: seq<Event>, workers: nat, queueCap: nat, k: nat, s: Sent)
    returns (t: nat)
    requires Run(ps, es, workers, queueCap) && k < |ps| && s in ps[k].wire
    ensures t < k && TakenAs(ps[t], es[t], s)
  {
    if k == 0 {
      assert false;
    } else if s in ps[k - 1].wire {
      t := SentWasTaken(ps, es, workers, queueCap, k - 1, s);
    } else {
      assert ps[k - 1 + 1] == Step(ps[k - 1], es[k - 1], queueCap);
      var w, m := StepSends(ps[k - 1], es[k - 1], queueCap, s);
      if TakenAs(ps[k - 1], es[k - 1], s) {
        t := k - 1;
      } else {
        t := BatchedWasTaken(ps, es, workers, queueCap, k - 1, w, m);
      }
    }
  }

  /**
   * Every frame handed to the network was queued by some dispatch `d` and taken by a worker at some later `t`,
   * and it has exactly the shape and goes exactly where the tables at `t` say for the relay received at `d`.
   */
  lemma SentAsChosen(ps: seq<Pipe>, es: seq<Event>, workers: nat, queueCap: nat, k: nat, i: nat) returns (d: nat, t: nat)
    requires Run(ps, es, workers, queueCap) && k < |ps| && i < |ps[k].wire|
    ensures d < t < k && QueuedBy(ps, es, d, ps[k].wire[i].job) && TakenAs(ps[t], es[t], ps[k].wire[i])
  {
    var s := ps[k].wire[i];
    t := SentWasTaken(ps, es, workers, queueCap, k, s);
    d := QueuedWasDispatched(ps, es, workers, queueCap, t, es[t].w, s.job);
  }
}
