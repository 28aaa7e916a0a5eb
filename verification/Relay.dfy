/**
 * The relay pipeline as a state machine over values: sharded queues, one worker and one batch per queue,
 * a flush timer per worker. Sockets, tables and limiter answers are choices of the environment.
 */
module Relay {
  import opened Base
  import opened Address
  import opened Wire
  import opened Routing

  const BATCH_CAP := 32
  const MAX_PAYLOAD := 65535

  /** `ticket` numbers the queued frames in arrival order; nothing in the pipeline looks at it. */
  datatype Job = Job(ticket: nat, relay: Wire.Relay)

  datatype Msg = Msg(job: Job, frame: Bytes, addr: Addr)

  /** `Fired` is a tick waiting in the timer's channel. */
  datatype Timer = Idle | Armed | Fired

  datatype Lane = Lane(queue: seq<Job>, batch: seq<Msg>, timer: Timer, timerActive: bool)

  /** A frame handed to the network: over UDP to an address, or over WSS. */
  datatype Sent = Sent(job: Job, frame: Bytes, via: Option<Addr>)

  /** `dropped`, `notFound` and `forwarded` are the server's own counters; the others count what it does not. */
  datatype Counters = Counters(received: nat, dropped: nat, notFound: nat, limited: nat, oversized: nat,
                               forwarded: nat, failed: nat)

  /** `admitted` holds the bodies queued so far, by ticket; `wire` what has left, in order. */
  datatype Pipe = Pipe(lanes: seq<Lane>, admitted: seq<Bytes>, wire: seq<Sent>, count: Counters)

  /** The result of one flush: the batch call took the first `n`, and of the rest message `i` was sent iff `oks[i]`. */
  datatype IO = IO(n: nat, oks: seq<bool>)

  /** Every frame to one destination takes the same lane. */
  function LaneOf(dest: U32, n: nat): nat
    requires n > 0
  {
    dest % n
  }

  // ---- the moves a job can make ----

  function Queued(p: Pipe, w: nat, data: Bytes): Pipe
    requires w < |p.lanes| && ParseRelay(data).Some?
  {
    var l := p.lanes[w];
    p.(lanes := p.lanes[w := l.(queue := l.queue + [Job(|p.admitted|, ParseRelay(data).value)])], admitted := p.admitted + [data])
  }

  function Popped(p: Pipe, w: nat): Pipe
    requires w < |p.lanes| && p.lanes[w].queue != []
  {
    var l := p.lanes[w];
    p.(lanes := p.lanes[w := l.(queue := l.queue[1..])])
  }

  function Batched(p: Pipe, w: nat, m: Msg): Pipe
    requires w < |p.lanes|
  {
    var l := p.lanes[w];
    p.(lanes := p.lanes[w := l.(batch := l.batch + [m])])
  }

  function OnWire(p: Pipe, s: seq<Sent>): Pipe {
    p.(wire := p.wire + s)
  }

  /** The messages of a batch that reached the network, in batch order. */
  function SentOf(batch: seq<Msg>, io: IO): seq<Sent>
    requires |io.oks| == |batch|
  {
    if batch == [] then [] else
    var k := |batch| - 1;
    var m := batch[k];
    SentOf(batch[..k], IO(io.n, io.oks[..k])) + if k < io.n || io.oks[k] then [Sent(m.job, m.frame, Some(m.addr))] else []
  }

  function Flushed(p: Pipe, w: nat, io: IO): Pipe
    requires w < |p.lanes| && |io.oks| == |p.lanes[w].batch|
  {
    var l := p.lanes[w];
    var sent := SentOf(l.batch, io);
    SentNoMore(l.batch, io);
    p.(lanes := p.lanes[w := l.(batch := [])], wire := p.wire + sent,
       count := p.count.(forwarded := p.count.forwarded + |sent|, failed := p.count.failed + (|l.batch| - |sent|)))
  }

  lemma SentNoMore(batch: seq<Msg>, io: IO)
    requires |io.oks| == |batch|
    ensures |SentOf(batch, io)| <= |batch|
  {
  }

  function WithTimer(p: Pipe, w: nat, timer: Timer, timerActive: bool): Pipe
    requires w < |p.lanes|
  {
    p.(lanes := p.lanes[w := p.lanes[w].(timer := timer, timerActive := timerActive)])
  }

  // ---- steps ----

  /** `dispatchRelay` on a body received while the breaker, the tables and the limiter answer as given. */
  function Dispatched(p: Pipe, data: Bytes, breakerOpen: bool, t: Tables, allowed: bool, queueCap: nat): Pipe
    requires |p.lanes| > 0
  {
    if |data| < 8 then p else
    var c := p.count.(received := p.count.received + 1);
    var r := ParseRelay(data).value;
    var w := LaneOf(r.dest, |p.lanes|);
    if breakerOpen then p.(count := c.(dropped := c.dropped + 1))
    else if !PreCheck(t, r.dest) then p.(count := c.(notFound := c.notFound + 1))
    else if !allowed then p.(count := c.(limited := c.limited + 1))
    else if |r.payload| > MAX_PAYLOAD then p.(count := c.(oversized := c.oversized + 1))
    else if |p.lanes[w].queue| >= queueCap then p.(count := c.(dropped := c.dropped + 1))
    else Queued(p.(count := c), w, data)
  }

  /** Worker `w` takes the next job; `wssOk` is the outcome of a WSS write, `io` of a flush, if there is one. */
  function Taken(p: Pipe, w: nat, t: Tables, wssOk: bool, io: IO): Pipe
    requires w < |p.lanes| && p.lanes[w].queue != []
    requires |io.oks| == |p.lanes[w].batch| + 1
  {
    var job := p.lanes[w].queue[0];
    var q, c := Popped(p, w), p.count;
    match Choose(t, job.relay.dest)
    case Wss =>
      if wssOk then OnWire(q.(count := c.(forwarded := c.forwarded + 1)), [Sent(job, Shape(Wss, job.relay), None)])
      else q.(count := c.(notFound := c.notFound + 1))
    case Unknown => q.(count := c.(notFound := c.notFound + 1))
    case Local(addr, wantDest) => Collected(q, w, Msg(job, Shape(Local(addr, wantDest), job.relay), addr), io)
    case Peer(addr) => Collected(q, w, Msg(job, Shape(Peer(addr), job.relay), addr), io)
  }

  /** A message joins the batch; a full batch is flushed at once, the first message arms the timer. */
  function Collected(p: Pipe, w: nat, m: Msg, io: IO): Pipe
    requires w < |p.lanes| && |io.oks| == |p.lanes[w].batch| + 1
  {
    var b, l := Batched(p, w, m), p.lanes[w];
    if |l.batch| + 1 >= BATCH_CAP then
      Flushed(if l.timerActive then WithTimer(b, w, Idle, false) else b, w, io)
    else if !l.timerActive then WithTimer(b, w, Armed, true)
    else b
  }

  /** Worker `w` receives its timer's tick. */
  function Ticked(p: Pipe, w: nat, io: IO): Pipe
    requires w < |p.lanes| && |io.oks| == |p.lanes[w].batch|
  {
    Flushed(WithTimer(p, w, Idle, false), w, io)
  }

  datatype Event =
    | Dispatch(data: Bytes, breakerOpen: bool, tables: Tables, allowed: bool)
    | Take(w: nat, tables: Tables, wssOk: bool, io: IO)
    | Expire(w: nat)              // an armed timer runs out
    | Tick(w: nat, io: IO)        // ... and its worker notices
    | Stop(w: nat, io: IO)        // shutdown: the worker flushes and leaves

  ghost predicate Enabled(p: Pipe, e: Event) {
    match e
    case Dispatch(_, _, _, _) => |p.lanes| > 0
    case Take(w, _, _, io) => w < |p.lanes| && p.lanes[w].queue != [] && |io.oks| == |p.lanes[w].batch| + 1
    case Expire(w) => w < |p.lanes| && p.lanes[w].timer == Armed
    case Tick(w, io) => w < |p.lanes| && p.lanes[w].timer == Fired && |io.oks| == |p.lanes[w].batch|
    case Stop(w, io) => w < |p.lanes| && |io.oks| == |p.lanes[w].batch|
  }

  ghost function Step(p: Pipe, e: Event, queueCap: nat): Pipe
    requires Enabled(p, e)
  {
    match e
    case Dispatch(data, breakerOpen, t, allowed) => Dispatched(p, data, breakerOpen, t, allowed, queueCap)
    case Take(w, t, wssOk, io) => Taken(p, w, t, wssOk, io)
    case Expire(w) => WithTimer(p, w, Fired, p.lanes[w].timerActive)
    case Tick(w, io) => Ticked(p, w, io)
    case Stop(w, io) => Flushed(p, w, io)
  }

  const IDLE_LANE := Lane([], [], Idle, false)

  function Init(workers: nat): Pipe {
    Pipe(seq(workers, _ => IDLE_LANE), [], [], Counters(0, 0, 0, 0, 0, 0, 0))
  }

  /** `ps` are the states of a run of `es` from an empty pipeline with the given number of workers. */
  ghost predicate Run(ps: seq<Pipe>, es: seq<Event>, workers: nat, queueCap: nat) {
    && |ps| == |es| + 1 && ps[0] == Init(workers)
    && forall k :: 0 <= k < |es| ==> Enabled(ps[k], es[k]) && ps[k + 1] == Step(ps[k], es[k], queueCap)
  }

  // ---- the tables between dispatch and worker ----

  /**
   * With unchanged tables the worker never finds a queued frame's destination unknown (only a failed WSS
   * write is counted not-found), and a frame the pre-check drops is one the worker would drop.
   */
  lemma StableTablesAgree(p: Pipe, w: nat, t: Tables, wssOk: bool, io: IO)
    requires w < |p.lanes| && p.lanes[w].queue != [] && |io.oks| == |p.lanes[w].batch| + 1
    ensures var dest := p.lanes[w].queue[0].relay.dest;
            Taken(p, w, t, wssOk, io).count.notFound == p.count.notFound + 1 <==>
            !PreCheck(t, dest) || (dest in t.wss && !wssOk)
  {
  }
}
