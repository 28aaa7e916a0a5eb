/**
 * The pipeline as the server runs it: payloads and outgoing frames live in pooled, reused buffers that are
 * written in place. Each method is shown to act on the value-level pipeline of module `Relay`.
 */
module RelayBuffers {
  import opened Base
  import opened Address
  import opened Wire
  import opened Routing
  import opened Relay
  import opened RelayRun

  const POOLED_SIZE := 1500
  const OUT_SIZE := MAX_PAYLOAD + 9

  type Buffer = array<Byte>

  /** A slice is a buffer and a length; the buffer's own length is the capacity. */
  datatype BufJob = BufJob(ticket: nat, sender: U32, dest: U32, buf: Buffer, len: nat)
  datatype BufMsg = BufMsg(job: BufJob, out: Buffer, outLen: nat, addr: Addr)
  datatype BufLane = BufLane(queue: seq<BufJob>, batch: seq<BufMsg>, timer: Timer, timerActive: bool)

  /** A buffer in use: by the job with this ticket, and holding these bytes. */
  datatype Cell = Cell(ticket: nat, bytes: Bytes)
  type Cells = map<Buffer, Cell>

  ghost predicate JobMatches(h: BufJob, j: Job, pay: Cells) {
    && h.ticket == j.ticket && h.sender == j.relay.sender && h.dest == j.relay.dest
    && h.buf in pay && pay[h.buf].ticket == j.ticket
    && h.len <= |pay[h.buf].bytes| && h.len <= MAX_PAYLOAD && pay[h.buf].bytes[..h.len] == j.relay.payload
  }

  ghost predicate MsgMatches(h: BufMsg, m: Msg, pay: Cells, out: Cells) {
    && JobMatches(h.job, m.job, pay)
    && h.out in out && out[h.out].ticket == m.job.ticket
    && h.outLen <= |out[h.out].bytes| && out[h.out].bytes[..h.outLen] == m.frame && h.addr == m.addr
  }

  ghost predicate LaneMatches(h: BufLane, l: Lane, pay: Cells, out: Cells) {
    && |h.queue| == |l.queue| && |h.batch| == |l.batch| && h.timer == l.timer && h.timerActive == l.timerActive
    && (forall i {:trigger JobMatches(h.queue[i], l.queue[i], pay)} ::
          0 <= i < |h.queue| ==> JobMatches(h.queue[i], l.queue[i], pay))
    && (forall i {:trigger MsgMatches(h.batch[i], l.batch[i], pay, out)} ::
          0 <= i < |h.batch| ==> MsgMatches(h.batch[i], l.batch[i], pay, out))
  }

  ghost predicate LanesMatch(hs: seq<BufLane>, ls: seq<Lane>, pay: Cells, out: Cells) {
    && |hs| == |ls|
    && (forall w :: 0 <= w < |hs| ==>
          && |hs[w].queue| == |ls[w].queue| && |hs[w].batch| == |ls[w].batch|
          && hs[w].timer == ls[w].timer && hs[w].timerActive == ls[w].timerActive)
    && forall w {:trigger LaneMatches(hs[w], ls[w], pay, out)} :: 0 <= w < |hs| ==> LaneMatches(hs[w], ls[w], pay, out)
  }

  ghost function LaneFn(n: nat): U32 -> int {
    (d: U32) => if n > 0 then LaneOf(d, n) else 0
  }

  // ---- facts about the lanes, free of the heap ----

  ghost predicate Extends(big: Cells, small: Cells) {
    forall b :: b in small ==> b in big && big[b] == small[b]
  }

  lemma LanesExtend(hs: seq<BufLane>, ls: seq<Lane>, pay: Cells, out: Cells, pay': Cells, out': Cells)
    requires LanesMatch(hs, ls, pay, out) && Extends(pay', pay) && Extends(out', out)
    ensures LanesMatch(hs, ls, pay', out')
  {
    forall w | 0 <= w < |hs|
      ensures LaneMatches(hs[w], ls[w], pay', out')
    {
      assert LaneMatches(hs[w], ls[w], pay, out);
      assert forall i :: 0 <= i < |hs[w].queue| ==> JobMatches(hs[w].queue[i], ls[w].queue[i], pay);
      assert forall i :: 0 <= i < |hs[w].batch| ==> MsgMatches(hs[w].batch[i], ls[w].batch[i], pay, out);
    }
  }

  lemma LanesReplaced(hs: seq<BufLane>, ls: seq<Lane>, pay: Cells, out: Cells, w: nat, h: BufLane, l: Lane)
    requires LanesMatch(hs, ls, pay, out) && w < |hs| && LaneMatches(h, l, pay, out)
    ensures LanesMatch(hs[w := h], ls[w := l], pay, out)
  {
  }

  /** No job waiting in the lane has this ticket. */
  ghost predicate NoTicket(l: Lane, t: nat) {
    && (forall i :: 0 <= i < |l.queue| ==> l.queue[i].ticket != t)
    && (forall i :: 0 <= i < |l.batch| ==> l.batch[i].job.ticket != t)
  }

  /** Taking a buffer away disturbs only the job that used it. */
  lemma LanesWithout(hs: seq<BufLane>, ls: seq<Lane>, pay: Cells, out: Cells, b: Buffer)
    requires LanesMatch(hs, ls, pay, out) && b in pay
    requires forall w :: 0 <= w < |ls| ==> NoTicket(ls[w], pay[b].ticket)
    ensures LanesMatch(hs, ls, pay - {b}, out)
  {
    forall w | 0 <= w < |hs|
      ensures LaneMatches(hs[w], ls[w], pay - {b}, out)
    {
      assert LaneMatches(hs[w], ls[w], pay, out) && NoTicket(ls[w], pay[b].ticket);
      forall i | 0 <= i < |hs[w].queue|
        ensures JobMatches(hs[w].queue[i], ls[w].queue[i], pay - {b})
      {
        assert JobMatches(hs[w].queue[i], ls[w].queue[i], pay);
      }
      forall i | 0 <= i < |hs[w].batch|
        ensures MsgMatches(hs[w].batch[i], ls[w].batch[i], pay - {b}, out)
      {
        assert MsgMatches(hs[w].batch[i], ls[w].batch[i], pay, out);
      }
    }
  }

  /** Some job waiting in the lane, or some message of its batch, has this ticket. */
  ghost predicate Waits(ls: seq<Lane>, t: nat) {
    exists w :: 0 <= w < |ls| && !NoTicket(ls[w], t)
  }

  ghost predicate NotBatched(l: Lane, t: nat) {
    forall i :: 0 <= i < |l.batch| ==> l.batch[i].job.ticket != t
  }

  ghost predicate InBatch(ls: seq<Lane>, t: nat) {
    exists w :: 0 <= w < |ls| && !NotBatched(ls[w], t)
  }

  ghost predicate OneEach(c: Cells) {
    forall a, b {:trigger c[a], c[b]} :: a in c && b in c && a != b ==> c[a].ticket != c[b].ticket
  }

  /**
   * Lanes and cells agree: each waiting job has its payload cell and each batched message its frame cell, and
   * no buffer is in use without such a job (hence exactly one each).
   */
  ghost predicate Agree(hs: seq<BufLane>, ls: seq<Lane>, pay: Cells, out: Cells) {
    && LanesMatch(hs, ls, pay, out) && OneEach(pay) && OneEach(out)
    && (forall b {:trigger Waits(ls, pay[b].ticket)} :: b in pay ==> Waits(ls, pay[b].ticket))
    && (forall b {:trigger InBatch(ls, out[b].ticket)} :: b in out ==> InBatch(ls, out[b].ticket))
  }

  /** Replacing a lane keeps the cells backed whose tickets the new lane keeps. */
  lemma AllWaitsKept(ls: seq<Lane>, w: nat, l: Lane, pay: Cells, out: Cells)
    requires w < |ls|
    requires forall b {:trigger Waits(ls, pay[b].ticket)} :: b in pay ==> Waits(ls, pay[b].ticket)
    requires forall b {:trigger InBatch(ls, out[b].ticket)} :: b in out ==> InBatch(ls, out[b].ticket)
    requires forall b :: b in pay && !NoTicket(ls[w], pay[b].ticket) ==> !NoTicket(l, pay[b].ticket)
    requires forall b :: b in out && !NotBatched(ls[w], out[b].ticket) ==> !NotBatched(l, out[b].ticket)
    ensures forall b {:trigger Waits(ls[w := l], pay[b].ticket)} :: b in pay ==> Waits(ls[w := l], pay[b].ticket)
    ensures forall b {:trigger InBatch(ls[w := l], out[b].ticket)} :: b in out ==> InBatch(ls[w := l], out[b].ticket)
  {
    var ls' := ls[w := l];
    forall b | b in pay
      ensures Waits(ls', pay[b].ticket)
    {
      var t := pay[b].ticket;
      assert Waits(ls, t);
      var v :| 0 <= v < |ls| && !NoTicket(ls[v], t);
      assert !NoTicket(ls'[v], t);
    }
    forall b | b in out
      ensures InBatch(ls', out[b].ticket)
    {
      var t := out[b].ticket;
      assert InBatch(ls, t);
      var v :| 0 <= v < |ls| && !NotBatched(ls[v], t);
      assert !NotBatched(ls'[v], t);
    }
  }

  ghost predicate JobHeld(h: BufJob, j: Job, c: Cell) {
    && h.ticket == j.ticket == c.ticket && h.sender == j.relay.sender && h.dest == j.relay.dest
    && h.len <= |c.bytes| && h.len <= MAX_PAYLOAD && c.bytes[..h.len] == j.relay.payload
  }

  /** No waiting job has this ticket. */
  ghost predicate Unused(ls: seq<Lane>, t: nat) {
    forall v {:trigger NoTicket(ls[v], t)} :: 0 <= v < |ls| ==> NoTicket(ls[v], t)
  }

  lemma UnusedHasNoCell(hs: seq<BufLane>, ls: seq<Lane>, pay: Cells, out: Cells, t: nat)
    requires Agree(hs, ls, pay, out) && Unused(ls, t)
    ensures forall b :: b in pay ==> pay[b].ticket != t
    ensures forall b :: b in out ==> out[b].ticket != t
  {
    forall b | b in pay ensures pay[b].ticket != t {
      assert Waits(ls, pay[b].ticket);
      var v :| 0 <= v < |ls| && !NoTicket(ls[v], pay[b].ticket);
    }
    forall b | b in out ensures out[b].ticket != t {
      assert InBatch(ls, out[b].ticket);
      var v :| 0 <= v < |ls| && !NotBatched(ls[v], out[b].ticket);
      assert NoTicket(ls[v], t);
    }
  }

  lemma AgreeQueued(hs: seq<BufLane>, ls: seq<Lane>, pay: Cells, out: Cells, w: nat, h: BufJob, j: Job, c: Cell)
    requires Agree(hs, ls, pay, out) && w < |hs| && h.buf !in pay && JobHeld(h, j, c) && Unused(ls, j.ticket)
    ensures Agree(hs[w := hs[w].(queue := hs[w].queue + [h])], ls[w := ls[w].(queue := ls[w].queue + [j])], pay[h.buf := c], out)
  {
    var pay', l := pay[h.buf := c], ls[w];
    var l' := l.(queue := l.queue + [j]);
    LanesExtend(hs, ls, pay, out, pay', out);
    assert LaneMatches(hs[w], l, pay', out) && JobMatches(h, j, pay');
    LanesReplaced(hs, ls, pay', out, w, hs[w].(queue := hs[w].queue + [h]), l');
    UnusedHasNoCell(hs, ls, pay, out, j.ticket);
    forall t | !NoTicket(l, t) ensures !NoTicket(l', t) {
      assert forall i :: 0 <= i < |l.queue| ==> l'.queue[i] == l.queue[i];
    }
    AllWaitsKept(ls, w, l', pay, out);
    assert l'.queue[|l.queue|].ticket == j.ticket;
    assert !NoTicket(ls[w := l'][w], j.ticket) && Waits(ls[w := l'], j.ticket);
  }

  /** The head of lane `w` is the only waiting job with its ticket. */
  ghost predicate NowhereElse(ls: seq<Lane>, w: nat)
    requires w < |ls| && ls[w].queue != []
  {
    Unused(ls[w := ls[w].(queue := ls[w].queue[1..])], ls[w].queue[0].ticket)
  }

  lemma AgreePopped(hs: seq<BufLane>, ls: seq<Lane>, pay: Cells, out: Cells, w: nat)
    requires Agree(hs, ls, pay, out) && w < |hs| && hs[w].queue != [] && NowhereElse(ls, w)
    ensures var h := hs[w].queue[0];
            && h.buf in pay && JobHeld(h, ls[w].queue[0], pay[h.buf])
            && Agree(hs[w := hs[w].(queue := hs[w].queue[1..])], ls[w := ls[w].(queue := ls[w].queue[1..])], pay - {h.buf}, out)
  {
    var h, l := hs[w].queue[0], ls[w];
    var h', l', pay' := hs[w].(queue := hs[w].queue[1..]), l.(queue := l.queue[1..]), pay - {h.buf};
    assert LaneMatches(hs[w], l, pay, out) && JobMatches(h, l.queue[0], pay);
    forall i | 0 <= i < |h'.queue| ensures JobMatches(h'.queue[i], l'.queue[i], pay) {
      assert JobMatches(hs[w].queue[i + 1], l.queue[i + 1], pay);
    }
    forall i | 0 <= i < |h'.batch| ensures MsgMatches(h'.batch[i], l'.batch[i], pay, out) {
      assert MsgMatches(hs[w].batch[i], l.batch[i], pay, out);
    }
    LanesReplaced(hs, ls, pay, out, w, h', l');
    LanesWithout(hs[w := h'], ls[w := l'], pay, out, h.buf);
    forall b | b in pay' && !NoTicket(l, pay'[b].ticket)
      ensures !NoTicket(l', pay'[b].ticket)
    {
      assert pay'[b].ticket != pay[h.buf].ticket;
      assert forall i :: 0 < i < |l.queue| ==> l'.queue[i - 1] == l.queue[i];
    }
    AllWaitsKept(ls, w, l', pay', out);
  }

  lemma AgreeBatched(hs: seq<BufLane>, ls: seq<Lane>, pay: Cells, out: Cells, w: nat, h: BufMsg, m: Msg, c: Cell, d: Cell)
    requires Agree(hs, ls, pay, out) && w < |hs| && h.job.buf !in pay && h.out !in out && Unused(ls, m.job.ticket)
    requires JobHeld(h.job, m.job, c) && d.ticket == m.job.ticket
    requires h.outLen <= |d.bytes| && d.bytes[..h.outLen] == m.frame && h.addr == m.addr
    ensures Agree(hs[w := hs[w].(batch := hs[w].batch + [h])], ls[w := ls[w].(batch := ls[w].batch + [m])],
                  pay[h.job.buf := c], out[h.out := d])
  {
    var pay', out', l := pay[h.job.buf := c], out[h.out := d], ls[w];
    var l' := l.(batch := l.batch + [m]);
    LanesExtend(hs, ls, pay, out, pay', out');
    assert LaneMatches(hs[w], l, pay', out') && MsgMatches(h, m, pay', out');
    LanesReplaced(hs, ls, pay', out', w, hs[w].(batch := hs[w].batch + [h]), l');
    UnusedHasNoCell(hs, ls, pay, out, m.job.ticket);
    forall t ensures (!NoTicket(l, t) ==> !NoTicket(l', t)) && (!NotBatched(l, t) ==> !NotBatched(l', t)) {
      assert forall i :: 0 <= i < |l.batch| ==> l'.batch[i] == l.batch[i];
    }
    AllWaitsKept(ls, w, l', pay, out);
    assert l'.batch[|l.batch|].job.ticket == m.job.ticket;
    assert !NoTicket(ls[w := l'][w], m.job.ticket) && Waits(ls[w := l'], m.job.ticket);
    assert !NotBatched(ls[w := l'][w], m.job.ticket) && InBatch(ls[w := l'], m.job.ticket);
  }

  lemma HeadIsAlone(p: Pipe, w: nat, lane: U32 -> int)
    requires w < |p.lanes| && p.lanes[w].queue != [] && Orderly(p, lane)
    ensures NowhereElse(p.lanes, w)
  {
    var job := p.lanes[w].queue[0];
    assert LaneFine(p, p.lanes[w], w, lane);
    forall v | 0 <= v < |p.lanes| && v != w
      ensures NoTicket(p.lanes[v], job.ticket)
    {
      var l := p.lanes[v];
      assert LaneFine(p, l, v, lane);
      forall i | 0 <= i < |l.queue| ensures l.queue[i].ticket != job.ticket {
        assert Genuine(p.admitted, l.queue[i]) && Genuine(p.admitted, job);
      }
      forall i | 0 <= i < |l.batch| ensures l.batch[i].job.ticket != job.ticket {
        assert Genuine(p.admitted, l.batch[i].job) && Genuine(p.admitted, job);
      }
    }
  }

  /** The batch of lane `w` shares no ticket with the rest of the pipeline, nor within itself. */
  ghost predicate BatchAlone(ls: seq<Lane>, w: nat)
    requires w < |ls|
  {
    var l := ls[w];
    && (forall i, j :: 0 <= i < j < |l.batch| ==> l.batch[i].job.ticket != l.batch[j].job.ticket)
    && (forall i, j :: 0 <= i < |l.batch| && 0 <= j < |l.queue| ==> l.batch[i].job.ticket != l.queue[j].ticket)
    && (forall v, i :: 0 <= v < |ls| && v != w && 0 <= i < |l.batch| ==> NoTicket(ls[v], l.batch[i].job.ticket))
  }

  lemma BatchIsAlone(p: Pipe, w: nat, lane: U32 -> int)
    requires w < |p.lanes| && Orderly(p, lane)
    ensures BatchAlone(p.lanes, w)
  {
    var b := p.lanes[w].batch;
    assert LaneFine(p, p.lanes[w], w, lane);
    forall v, k | 0 <= v < |p.lanes| && v != w && 0 <= k < |b|
      ensures NoTicket(p.lanes[v], b[k].job.ticket)
    {
      var l := p.lanes[v];
      assert LaneFine(p, l, v, lane) && Genuine(p.admitted, b[k].job);
      forall i | 0 <= i < |l.queue| ensures l.queue[i].ticket != b[k].job.ticket {
        assert Genuine(p.admitted, l.queue[i]);
      }
      forall i | 0 <= i < |l.batch| ensures l.batch[i].job.ticket != b[k].job.ticket {
        assert Genuine(p.admitted, l.batch[i].job);
      }
    }
  }

  lemma LanesWithoutFrame(hs: seq<BufLane>, ls: seq<Lane>, pay: Cells, out: Cells, b: Buffer)
    requires LanesMatch(hs, ls, pay, out) && b in out
    requires forall w :: 0 <= w < |ls| ==> NoTicket(ls[w], out[b].ticket)
    ensures LanesMatch(hs, ls, pay, out - {b})
  {
    forall w | 0 <= w < |hs|
      ensures LaneMatches(hs[w], ls[w], pay, out - {b})
    {
      assert LaneMatches(hs[w], ls[w], pay, out) && NoTicket(ls[w], out[b].ticket);
      forall i | 0 <= i < |hs[w].batch|
        ensures MsgMatches(hs[w].batch[i], ls[w].batch[i], pay, out - {b})
      {
        assert MsgMatches(hs[w].batch[i], ls[w].batch[i], pay, out);
      }
    }
  }

  lemma StillAlone(ls: seq<Lane>, w: nat)
    requires w < |ls| && ls[w].batch != [] && BatchAlone(ls, w)
    ensures var ls' := ls[w := ls[w].(batch := ls[w].batch[1..])];
            BatchAlone(ls', w) && forall v :: 0 <= v < |ls'| ==> NoTicket(ls'[v], ls[w].batch[0].job.ticket)
  {
    var ls' := ls[w := ls[w].(batch := ls[w].batch[1..])];
    forall v, i | 0 <= v < |ls'| && v != w && 0 <= i < |ls'[w].batch|
      ensures NoTicket(ls'[v], ls'[w].batch[i].job.ticket)
    {
      assert NoTicket(ls[v], ls[w].batch[i + 1].job.ticket);
    }
    forall v | 0 <= v < |ls'| ensures NoTicket(ls'[v], ls[w].batch[0].job.ticket) {
      if v != w {
        assert NoTicket(ls[v], ls[w].batch[0].job.ticket);
      }
    }
  }

  /** The first message of a batch goes, and with it exactly its two cells. */
  lemma AgreeUnbatched(hs: seq<BufLane>, ls: seq<Lane>, pay: Cells, out: Cells, w: nat)
    requires Agree(hs, ls, pay, out) && w < |hs| && hs[w].batch != [] && BatchAlone(ls, w)
    ensures var h := hs[w].batch[0];
            && h.job.buf in pay && h.out in out
            && Agree(hs[w := hs[w].(batch := hs[w].batch[1..])], ls[w := ls[w].(batch := ls[w].batch[1..])],
                     pay - {h.job.buf}, out - {h.out})
  {
    var h, l := hs[w].batch[0], ls[w];
    var h', l' := hs[w].(batch := hs[w].batch[1..]), l.(batch := l.batch[1..]);
    var pay', out' := pay - {h.job.buf}, out - {h.out};
    assert LaneMatches(hs[w], l, pay, out) && MsgMatches(h, l.batch[0], pay, out);
    forall i | 0 <= i < |h'.queue| ensures JobMatches(h'.queue[i], l'.queue[i], pay) {
      assert JobMatches(hs[w].queue[i], l.queue[i], pay);
    }
    forall i | 0 <= i < |h'.batch| ensures MsgMatches(h'.batch[i], l'.batch[i], pay, out) {
      assert MsgMatches(hs[w].batch[i + 1], l.batch[i + 1], pay, out);
    }
    LanesReplaced(hs, ls, pay, out, w, h', l');
    StillAlone(ls, w);
    LanesWithout(hs[w := h'], ls[w := l'], pay, out, h.job.buf);
    LanesWithoutFrame(hs[w := h'], ls[w := l'], pay', out, h.out);
    assert forall i :: 0 < i < |l.batch| ==> l'.batch[i - 1] == l.batch[i];
    assert forall b :: b in pay' ==> pay'[b].ticket != pay[h.job.buf].ticket;
    assert forall b :: b in out' ==> out'[b].ticket != out[h.out].ticket;
    AllWaitsKept(ls, w, l', pay', out');
  }

  /** The pipeline without the first `k` messages of lane `w`'s batch. */
  ghost function Chopped(p: Pipe, w: nat, k: nat): Pipe
    requires w < |p.lanes| && k <= |p.lanes[w].batch|
  {
    p.(lanes := p.lanes[w := p.lanes[w].(batch := p.lanes[w].batch[k..])])
  }

  lemma ChopOneMore(p: Pipe, w: nat, k: nat)
    requires w < |p.lanes| && k < |p.lanes[w].batch|
    ensures |Chopped(p, w, k).lanes[w].batch| >= 1 && Chopped(Chopped(p, w, k), w, 1) == Chopped(p, w, k + 1)
  {
    assert p.lanes[w].batch[k..][1..] == p.lanes[w].batch[k + 1..];
  }

  /** Tickets are numbered consecutively, so the next one is not waiting. */
  lemma NextTicketUnused(p: Pipe, lane: U32 -> int)
    requires Orderly(p, lane)
    ensures Unused(p.lanes, |p.admitted|)
  {
    forall v | 0 <= v < |p.lanes| ensures NoTicket(p.lanes[v], |p.admitted|) {
      var l := p.lanes[v];
      assert LaneFine(p, l, v, lane);
      forall i | 0 <= i < |l.queue| ensures l.queue[i].ticket != |p.admitted| {
        assert Genuine(p.admitted, l.queue[i]);
      }
      forall i | 0 <= i < |l.batch| ensures l.batch[i].job.ticket != |p.admitted| {
        assert Genuine(p.admitted, l.batch[i].job);
      }
    }
  }

  /** The counters after a frame is received and, perhaps, refused. */
  function Sifted(p: Pipe, r: Wire.Relay, breakerOpen: bool, t: Tables, allowed: bool): Pipe {
    var c := p.count.(received := p.count.received + 1);
    p.(count := if breakerOpen then c.(dropped := c.dropped + 1)
                else if !PreCheck(t, r.dest) then c.(notFound := c.notFound + 1)
                else if !allowed then c.(limited := c.limited + 1)
                else if |r.payload| > MAX_PAYLOAD then c.(oversized := c.oversized + 1)
                else c)
  }

  // ---- sending a batch ----

  /** A batched message as its buffers show it now. */
  function Read(h: BufMsg): Sent
    requires h.job.len <= h.job.buf.Length && h.outLen <= h.out.Length
    reads h.job.buf, h.out
  {
    Sent(Job(h.job.ticket, Wire.Relay(h.job.sender, h.job.dest, h.job.buf[..h.job.len])), h.out[..h.outLen], Some(h.addr))
  }

  ghost predicate Shows(h: BufMsg, m: Msg)
    reads h.job.buf, h.out
  {
    h.job.len <= h.job.buf.Length && h.outLen <= h.out.Length && Read(h) == OfMsg(m)
  }

  lemma SentOneMore(ms: seq<Msg>, io: IO, i: nat)
    requires |io.oks| == |ms| && i < |ms|
    ensures SentOf(ms[..i + 1], IO(io.n, io.oks[..i + 1])) ==
            SentOf(ms[..i], IO(io.n, io.oks[..i])) + if i < io.n || io.oks[i] then [OfMsg(ms[i])] else []
  {
    assert ms[..i + 1][..i] == ms[..i] && io.oks[..i + 1][..i] == io.oks[..i];
  }

  /**
   * The sending half of `flush`. The batch call reports how many messages it took (none on a dual-stack
   * socket, which is written per packet); the rest are sent one by one, each attempt with its own outcome.
   * Every message is handed over exactly once, in order. `count` is the server's own tally: the batch call's
   * result, where the fallback starts, and one more for every packet it gets out.
   */
  method Send(batch: seq<BufMsg>, ghost ms: seq<Msg>, dualStack: bool, n: nat, oks: seq<bool>)
    returns (sent: seq<Sent>, attempts: nat, count: nat)
    requires |batch| == |ms| == |oks| && n <= |batch|
    requires forall i :: 0 <= i < |batch| ==> Shows(batch[i], ms[i])
    ensures sent == SentOf(ms, IO(if dualStack then 0 else n, oks))
    ensures attempts == |batch| && count == |sent|
  {
    ghost var io := IO(if dualStack then 0 else n, oks);
    sent, attempts, count := [], 0, 0;
    assert ms[..0] == [];
    if !dualStack {
      for i := 0 to n
        invariant attempts == i == |sent| && sent == SentOf(ms[..i], IO(io.n, oks[..i]))
      {
        SentOneMore(ms, io, i);
        sent, attempts := sent + [Read(batch[i])], attempts + 1;
      }
      count := n;
    }
    for i := count to |batch|
      invariant attempts == i && count == |sent| && sent == SentOf(ms[..i], IO(io.n, oks[..i]))
    {
      SentOneMore(ms, io, i);
      if oks[i] {
        sent, count := sent + [Read(batch[i])], count + 1;
      }
      attempts := attempts + 1;
    }
    assert ms[..|ms|] == ms && oks[..|ms|] == oks;
  }

  lemma AgreeTimer(hs: seq<BufLane>, ls: seq<Lane>, pay: Cells, out: Cells, w: nat, timer: Timer, timerActive: bool)
    requires Agree(hs, ls, pay, out) && w < |hs|
    ensures Agree(hs[w := hs[w].(timer := timer, timerActive := timerActive)],
                  ls[w := ls[w].(timer := timer, timerActive := timerActive)], pay, out)
  {
    var h', l' := hs[w].(timer := timer, timerActive := timerActive), ls[w].(timer := timer, timerActive := timerActive);
    assert LaneMatches(hs[w], ls[w], pay, out);
    forall i | 0 <= i < |h'.queue| ensures JobMatches(h'.queue[i], l'.queue[i], pay) {
      assert JobMatches(hs[w].queue[i], ls[w].queue[i], pay);
    }
    forall i | 0 <= i < |h'.batch| ensures MsgMatches(h'.batch[i], l'.batch[i], pay, out) {
      assert MsgMatches(hs[w].batch[i], ls[w].batch[i], pay, out);
    }
    LanesReplaced(hs, ls, pay, out, w, h', l');
    AllWaitsKept(ls, w, l', pay, out);
  }

  // ---- shaping a frame in place ----

  /** Writes type, sender, destination if asked, and payload into `out`; the reslice never exceeds its capacity. */
  method WriteFrame(out: Buffer, kind: Byte, job: BufJob, withDest: bool) returns (len: nat)
    requires out.Length == OUT_SIZE && out != job.buf && job.len <= job.buf.Length && job.len <= MAX_PAYLOAD
    modifies out
    ensures len <= out.Length
    ensures out[..len] == [kind] + PutU32(job.sender) + (if withDest then PutU32(job.dest) else []) + job.buf[..job.len]
  {
    out[0] := kind;
    PutU32At(out, 1, job.sender);
    var at := 5;
    if withDest {
      PutU32At(out, 5, job.dest);
      at := 9;
    }
    ghost var head := out[..at];
    assert head == [kind] + PutU32(job.sender) + (if withDest then PutU32(job.dest) else []) by {
      JoinSlices(out[..], 1, 5, at);
    }
    Copy(out, at, job.buf[..job.len]);
    len := at + job.len;
    JoinSlices(out[..], at, len, len);
  }

  method Copy(b: Buffer, at: nat, payload: Bytes)
    requires at + |payload| <= b.Length
    modifies b
    ensures b[..at] == old(b[..at]) && b[at..at + |payload|] == payload
  {
    for i := 0 to |payload|
      invariant b[..at] == old(b[..at])
      invariant forall k :: 0 <= k < i ==> b[at + k] == payload[k]
    {
      b[at + i] := payload[i];
    }
  }

  class Server {
    const queueCap: nat
    var lanes: seq<BufLane>
    var pool: set<Buffer>
    var outPool: set<Buffer>
    var forwarded: nat
    var dropped: nat
    var notFound: nat
    var tickets: nat
    /** What the network was handed, read out of the buffers at that moment. */
    var network: seq<Sent>
    ghost var model: Pipe
    ghost var pay: Cells
    ghost var out: Cells

    /** A tracked buffer is in exactly one pool, or in use by exactly one waiting job or message. */
    ghost predicate Exclusive()
      reads this`pool, this`outPool, this`pay, this`out
    {
      && pool !! pay.Keys && pool !! outPool && pool !! out.Keys
      && pay.Keys !! outPool && pay.Keys !! out.Keys && outPool !! out.Keys
      && (forall b :: b in outPool ==> b.Length == OUT_SIZE) && (forall b :: b in out ==> b.Length == OUT_SIZE)
    }

    /** Buffers in use hold the bytes the cells say. */
    ghost predicate Mirrored()
      reads this`pay, this`out, pay.Keys, out.Keys
    {
      && (forall b :: b in pay ==> b[..] == pay[b].bytes)
      && (forall b :: b in out ==> b[..] == out[b].bytes)
    }

    ghost predicate Linked()
      reads this`lanes, this`model, this`pay, this`out
    {
      |lanes| > 0 && Agree(lanes, model.lanes, pay, out)
    }

    ghost predicate Counted()
      reads this`network, this`tickets, this`forwarded, this`dropped, this`notFound, this`model
    {
      && network == model.wire && tickets == |model.admitted|
      && forwarded == model.count.forwarded && dropped == model.count.dropped && notFound == model.count.notFound
    }

    /** Everything the server keeps between two steps, except the order of tickets. */
    ghost predicate Intact()
      reads this, pay.Keys, out.Keys
    {
      Exclusive() && Mirrored() && Linked() && Counted()
    }

    ghost predicate Valid()
      reads this, pay.Keys, out.Keys
    {
      Intact() && Orderly(model, LaneFn(|lanes|))
    }

    /** In the hands of the running code only. */
    ghost predicate Loose(b: Buffer)
      reads this`pool, this`outPool, this`pay, this`out
    {
      b !in pool && b !in pay && b !in outPool && b !in out
    }

    /** The payload buffers the server has: pooled, or in use by a queued job or a batched message. */
    ghost function Payloads(): set<Buffer>
      reads this`pool, this`pay
    {
      pool + pay.Keys
    }

    /** The output buffers the server has: pooled, or in use by a batched message. */
    ghost function Frames(): set<Buffer>
      reads this`outPool, this`out
    {
      outPool + out.Keys
    }

    constructor (workers: nat, queueCap: nat)
      requires workers > 0
      ensures Valid() && model == Init(workers) && this.queueCap == queueCap && pool == {} && outPool == {}
    {
      this.queueCap := queueCap;
      lanes := seq(workers, _ => BufLane([], [], Idle, false));
      pool, outPool, pay, out := {}, {}, map[], map[];
      forwarded, dropped, notFound, tickets, network := 0, 0, 0, 0, [];
      model := Init(workers);
      new;
    }

    method GetOut() returns (b: Buffer)
      requires Exclusive()
      modifies this`outPool
      ensures Exclusive() && Loose(b) && b.Length == OUT_SIZE && outPool == old(outPool) - {b} && (b in old(outPool) || fresh(b))
    {
      if outPool == {} {
        b := new Byte[OUT_SIZE];
      } else {
        b :| b in outPool;
        outPool := outPool - {b};
      }
    }

    method PutOut(b: Buffer)
      requires Exclusive() && Loose(b) && b.Length == OUT_SIZE
      modifies this`outPool
      ensures Exclusive() && outPool == old(outPool) + {b}
    {
      outPool := outPool + {b};
    }

    /** A pooled buffer if it is large enough; otherwise a new one, and the pooled one is `lost`. */
    method GetPayload(size: nat) returns (b: Buffer, ghost lost: set<Buffer>)
      requires Exclusive()
      modifies this`pool
      ensures Exclusive() && Loose(b) && size <= b.Length && (b in old(pool) || fresh(b))
      ensures Undersized(lost, size) && lost <= old(pool) && pool == old(pool) - {b} - lost
    {
      lost := {};
      if pool == {} {
        b := new Byte[POOLED_SIZE];
      } else {
        b :| b in pool;
        pool := pool - {b};
      }
      if b.Length < size {
        lost := if b in old(pool) then {b} else {};
        b := new Byte[size];
      }
    }

    method ReturnPayload(b: Buffer)
      requires Exclusive() && Loose(b)
      modifies this`pool
      ensures Exclusive() && pool == old(pool) + {b} && Payloads() == old(Payloads()) + {b}
    {
      pool := pool + {b};
    }

    /** The worker receives the head of its queue and becomes the only user of its buffer. */
    method PopJob(w: nat) returns (job: BufJob)
      requires Exclusive() && Mirrored() && Linked()
      requires w < |lanes| && lanes[w].queue != [] && NowhereElse(model.lanes, w)
      modifies this`lanes, this`model, this`pay
      ensures Exclusive() && Mirrored() && Linked()
      ensures model == Popped(old(model), w) && |lanes| == old(|lanes|) && lanes[w].batch == old(lanes[w].batch)
      ensures Loose(job.buf) && JobHeld(job, old(model).lanes[w].queue[0], Cell(job.ticket, job.buf[..]))
      ensures Payloads() + {job.buf} == old(Payloads())
    {
      AgreePopped(lanes, model.lanes, pay, out, w);
      var l := lanes[w];
      job := l.queue[0];
      lanes := lanes[w := l.(queue := l.queue[1..])];
      model := Popped(model, w);
      pay := pay - {job.buf};
    }

    /** A shaped frame joins the batch, together with its two buffers. */
    method AddMsg(w: nat, msg: BufMsg, ghost m: Msg)
      requires Exclusive() && Mirrored() && Linked()
      requires w < |lanes| && msg.out.Length == OUT_SIZE && msg.job.buf != msg.out
      requires Loose(msg.job.buf) && Loose(msg.out) && JobHeld(msg.job, m.job, Cell(msg.job.ticket, msg.job.buf[..]))
      requires msg.outLen <= OUT_SIZE && msg.out[..msg.outLen] == m.frame && msg.addr == m.addr && Unused(model.lanes, m.job.ticket)
      modifies this`lanes, this`model, this`pay, this`out
      ensures Exclusive() && Mirrored() && Linked()
      ensures model == Batched(old(model), w, m) && |lanes| == old(|lanes|)
      ensures lanes[w] == old(lanes[w]).(batch := old(lanes[w].batch) + [msg])
      ensures pay.Keys == old(pay.Keys) + {msg.job.buf} && out.Keys == old(out.Keys) + {msg.out}
    {
      ghost var c, d := Cell(m.job.ticket, msg.job.buf[..]), Cell(m.job.ticket, msg.out[..]);
      AgreeBatched(lanes, model.lanes, pay, out, w, msg, m, c, d);
      lanes := lanes[w := lanes[w].(batch := lanes[w].batch + [msg])];
      model := Batched(model, w, m);
      pay, out := pay[msg.job.buf := c], out[msg.out := d];
    }

    /** A copied payload is queued. */
    method AddJob(w: nat, job: BufJob, ghost data: Bytes)
      requires Exclusive() && Mirrored() && Linked()
      requires w < |lanes| && Loose(job.buf) && ParseRelay(data).Some? && Unused(model.lanes, |model.admitted|)
      requires JobHeld(job, Job(|model.admitted|, ParseRelay(data).value), Cell(job.ticket, job.buf[..]))
      modifies this`lanes, this`model, this`pay
      ensures Exclusive() && Mirrored() && Linked()
      ensures model == Queued(old(model), w, data) && |lanes| == old(|lanes|)
      ensures Payloads() == old(Payloads()) + {job.buf}
    {
      ghost var c := Cell(job.ticket, job.buf[..]);
      AgreeQueued(lanes, model.lanes, pay, out, w, job, Job(|model.admitted|, ParseRelay(data).value), c);
      lanes := lanes[w := lanes[w].(queue := lanes[w].queue + [job])];
      model := Queued(model, w, data);
      pay := pay[job.buf := c];
    }

    lemma ReadsModel(w: nat)
      requires Mirrored() && Linked() && w < |lanes|
      ensures |lanes[w].batch| == |model.lanes[w].batch|
      ensures forall i :: 0 <= i < |lanes[w].batch| ==> Shows(lanes[w].batch[i], model.lanes[w].batch[i])
    {
      assert LaneMatches(lanes[w], model.lanes[w], pay, out);
      forall i | 0 <= i < |lanes[w].batch|
        ensures Shows(lanes[w].batch[i], model.lanes[w].batch[i])
      {
        assert MsgMatches(lanes[w].batch[i], model.lanes[w].batch[i], pay, out);
      }
    }

    /** The first message leaves the batch and its buffers are in hand. */
    method Detach(w: nat) returns (h: BufMsg)
      requires Exclusive() && Mirrored() && Linked() && w < |lanes| && BatchAlone(model.lanes, w)
      requires lanes[w].batch != []
      modifies this`lanes, this`model, this`pay, this`out
      ensures Exclusive() && Mirrored() && Linked() && |lanes| == old(|lanes|)
      ensures model == Chopped(old(model), w, 1) && Loose(h.job.buf) && Loose(h.out)
      ensures h.job.buf != h.out && h.out.Length == OUT_SIZE
      ensures h.job.buf in old(pay) && pay.Keys == old(pay.Keys) - {h.job.buf}
      ensures h.out in old(out) && out.Keys == old(out.Keys) - {h.out}
    {
      AgreeUnbatched(lanes, model.lanes, pay, out, w);
      assert |lanes[w].batch| == |model.lanes[w].batch| by {
        assert LaneMatches(lanes[w], model.lanes[w], pay, out);
      }
      h := lanes[w].batch[0];
      lanes := lanes[w := lanes[w].(batch := lanes[w].batch[1..])];
      model := Chopped(model, w, 1);
      pay, out := pay - {h.job.buf}, out - {h.out};
    }

    /** The buffers of the first message of the batch go back to their pools. */
    method ReturnFirst(w: nat)
      requires Exclusive() && Mirrored() && Linked() && w < |lanes| && BatchAlone(model.lanes, w)
      requires lanes[w].batch != []
      modifies this`lanes, this`model, this`pay, this`out, this`pool, this`outPool
      ensures Exclusive() && Mirrored() && Linked() && |lanes| == old(|lanes|)
      ensures old(model).lanes[w].batch != [] && model == Chopped(old(model), w, 1)
      ensures Payloads() == old(Payloads()) && Frames() == old(Frames())
    {
      assert LaneMatches(lanes[w], model.lanes[w], pay, out);
      var h := Detach(w);
      ReturnPayload(h.job.buf);
      PutOut(h.out);
    }

    /** The returning half of `flush`: every buffer of the batch goes back to its pool. */
    method ReturnBatch(w: nat)
      requires Exclusive() && Mirrored() && Linked() && w < |lanes| && BatchAlone(model.lanes, w)
      modifies this`lanes, this`model, this`pay, this`out, this`pool, this`outPool
      ensures Exclusive() && Mirrored() && Linked()
      ensures model == Unbatched(old(model), w) && |lanes| == old(|lanes|)
      ensures Payloads() == old(Payloads()) && Frames() == old(Frames())
    {
      var n := |lanes[w].batch|;
      ghost var m := model;
      assert n == |m.lanes[w].batch| by {
        assert LaneMatches(lanes[w], model.lanes[w], pay, out);
      }
      for i := 0 to n
        invariant Exclusive() && Mirrored() && Linked() && |lanes| == old(|lanes|)
        invariant model == Chopped(m, w, i) && BatchAlone(model.lanes, w)
        invariant Payloads() == old(Payloads()) && Frames() == old(Frames())
      {
        assert lanes[w].batch != [] by {
          assert LaneMatches(lanes[w], model.lanes[w], pay, out);
        }
        StillAlone(model.lanes, w);
        ChopOneMore(m, w, i);
        ReturnFirst(w);
      }
      assert m.lanes[w].batch[n..] == [];
    }

    /** Adds to the forwarded counter what the server counted while it sent the batch `m` had in lane `w`. */
    method RecordSent(ghost m: Pipe, ghost w: nat, sent: seq<Sent>, count: nat, ghost io: IO)
      requires Linked() && Counted() && w < |m.lanes| && model == Unbatched(m, w)
      requires |io.oks| == |m.lanes[w].batch| && sent == SentOf(m.lanes[w].batch, io) && count == |sent|
      modifies this`network, this`forwarded, this`model
      ensures Linked() && Counted() && model == Flushed(m, w, io)
    {
      network := network + sent;
      forwarded := forwarded + count;
      model := Flushed(m, w, io);
    }

    /** Sends the batch of worker `w` and returns its buffers. */
    method Flush(w: nat, dualStack: bool, n: nat, oks: seq<bool>)
      requires Intact() && w < |lanes| && BatchAlone(model.lanes, w)
      requires n <= |lanes[w].batch| == |oks|
      modifies this
      ensures Intact() && |lanes| == old(|lanes|)
      ensures |oks| == |old(model).lanes[w].batch| && model == Flushed(old(model), w, IO(if dualStack then 0 else n, oks))
      ensures Payloads() == old(Payloads()) && Frames() == old(Frames())
    {
      ghost var m := model;
      ReadsModel(w);
      if lanes[w].batch == [] {
        assert m.lanes[w := m.lanes[w].(batch := [])] == m.lanes;
        return;
      }
      var sent, _, count := Send(lanes[w].batch, m.lanes[w].batch, dualStack, n, oks);
      ReturnBatch(w);
      RecordSent(m, w, sent, count, IO(if dualStack then 0 else n, oks));
    }

    // ---- one job ----

    /** Counts a frame whose destination nobody knows. */
    method CountNotFound()
      requires Linked() && Counted()
      modifies this`notFound, this`model
      ensures Linked() && Counted()
      ensures model == old(model).(count := old(model).count.(notFound := old(model).count.notFound + 1))
    {
      notFound := notFound + 1;
      model := model.(count := model.count.(notFound := model.count.notFound + 1));
    }

    method SetTimer(w: nat, timer: Timer, timerActive: bool)
      requires Intact() && w < |lanes|
      modifies this`lanes, this`model
      ensures Intact() && |lanes| == old(|lanes|) && lanes[w].batch == old(lanes[w].batch)
      ensures model == WithTimer(old(model), w, timer, timerActive)
    {
      AgreeTimer(lanes, model.lanes, pay, out, w, timer, timerActive);
      lanes := lanes[w := lanes[w].(timer := timer, timerActive := timerActive)];
      model := WithTimer(model, w, timer, timerActive);
    }

    /** Takes an output buffer and writes the frame for the chosen tier into it. */
    method ShapeFor(job: BufJob, ghost j: Job, tier: Tier) returns (b: Buffer, len: nat)
      requires Exclusive() && Mirrored() && Loose(job.buf) && JobHeld(job, j, Cell(job.ticket, job.buf[..])) && !tier.Unknown?
      modifies this`outPool, outPool
      ensures Exclusive() && Mirrored() && Loose(b) && b != job.buf && b.Length == OUT_SIZE
      ensures len <= OUT_SIZE && b[..len] == Shape(tier, j.relay)
      ensures job.buf[..] == old(job.buf[..]) && Loose(job.buf)
      ensures outPool == old(outPool) - {b} && (b in old(outPool) || fresh(b))
    {
      b := GetOut();
      match tier
      case Wss =>
        len := WriteFrame(b, MSG_RELAY_DELIVER, job, false);
      case Local(_, wantDest) =>
        if wantDest {
          len := WriteFrame(b, MSG_RELAY_DELIVER_DEST, job, true);
        } else {
          len := WriteFrame(b, MSG_RELAY_DELIVER, job, false);
        }
      case Peer(_) =>
        len := WriteFrame(b, MSG_RELAY, job, true);
    }

    /** What the WSS write did: the frame is out and counted forwarded, or counted not found. */
    method RecordWss(sent: Sent, wssOk: bool)
      requires Linked() && Counted()
      modifies this`network, this`forwarded, this`notFound, this`model
      ensures Linked() && Counted()
      ensures var m, c := old(model), old(model).count;
              model == if wssOk then OnWire(m.(count := c.(forwarded := c.forwarded + 1)), [sent])
                       else m.(count := c.(notFound := c.notFound + 1))
    {
      ghost var c := model.count;
      if wssOk {
        network := network + [sent];
        forwarded := forwarded + 1;
        model := OnWire(model.(count := c.(forwarded := c.forwarded + 1)), [sent]);
      } else {
        notFound := notFound + 1;
        model := model.(count := c.(notFound := c.notFound + 1));
      }
    }

    /** Tier 0: the frame goes out over WSS at once, and both buffers go back. */
    method DeliverWss(job: BufJob, ghost j: Job, wssOk: bool)
      requires Intact() && Loose(job.buf) && JobHeld(job, j, Cell(job.ticket, job.buf[..]))
      modifies this`network, this`forwarded, this`notFound, this`model, this`pool, this`outPool, outPool
      ensures Intact()
      ensures var m, c := old(model), old(model).count;
              model == if wssOk then OnWire(m.(count := c.(forwarded := c.forwarded + 1)), [Sent(j, Shape(Wss, j.relay), None)])
                       else m.(count := c.(notFound := c.notFound + 1))
      ensures Payloads() == old(Payloads()) + {job.buf} && old(Frames()) <= Frames() && fresh(Frames() - old(Frames()))
    {
      var b, len := ShapeFor(job, j, Wss);
      RecordWss(Sent(Job(job.ticket, Wire.Relay(job.sender, job.dest, job.buf[..job.len])), b[..len], None), wssOk);
      ReturnPayload(job.buf);
      PutOut(b);
    }

    /** The frame is shaped and joins the batch. */
    method BatchFrame(w: nat, job: BufJob, ghost j: Job, tier: Tier)
      requires Intact() && w < |lanes| && Loose(job.buf) && JobHeld(job, j, Cell(job.ticket, job.buf[..]))
      requires (tier.Local? || tier.Peer?) && Unused(model.lanes, j.ticket)
      modifies this`lanes, this`model, this`pay, this`out, this`outPool, outPool
      ensures Intact() && |lanes| == old(|lanes|)
      ensures model == Batched(old(model), w, Msg(j, Shape(tier, j.relay), tier.addr))
      ensures |lanes[w].batch| == |old(lanes[w].batch)| + 1 && lanes[w].timerActive == old(lanes[w].timerActive)
      ensures Payloads() == old(Payloads()) + {job.buf} && old(Frames()) <= Frames() && fresh(Frames() - old(Frames()))
    {
      var b, len := ShapeFor(job, j, tier);
      AddMsg(w, BufMsg(job, b, len, tier.addr), Msg(j, Shape(tier, j.relay), tier.addr));
    }

    /** Tiers 1 and 2: the frame is batched; a full batch is flushed, the first message arms the timer. */
    method Collect(w: nat, job: BufJob, ghost j: Job, tier: Tier, dualStack: bool, n: nat, oks: seq<bool>)
      requires Intact() && w < |lanes| && Loose(job.buf) && JobHeld(job, j, Cell(job.ticket, job.buf[..]))
      requires (tier.Local? || tier.Peer?) && n <= |lanes[w].batch| + 1 == |oks| && |lanes[w].batch| == |model.lanes[w].batch|
      requires Unused(model.lanes, j.ticket) && BatchAlone(Batched(model, w, Msg(j, Shape(tier, j.relay), tier.addr)).lanes, w)
      modifies this, outPool
      ensures Intact() && |lanes| == old(|lanes|)
      ensures model == Collected(old(model), w, Msg(j, Shape(tier, j.relay), tier.addr), IO(if dualStack then 0 else n, oks))
      ensures Payloads() == old(Payloads()) + {job.buf} && old(Frames()) <= Frames() && fresh(Frames() - old(Frames()))
    {
      BatchFrame(w, job, j, tier);
      if |lanes[w].batch| >= BATCH_CAP {
        if lanes[w].timerActive {
          SetTimer(w, Idle, false);
        }
        Flush(w, dualStack, n, oks);
      } else if !lanes[w].timerActive {
        SetTimer(w, Armed, true);
      }
    }

    /** Tier 3: nobody knows the destination. An output buffer was taken before the lookup and goes back unused. */
    method GiveUp(job: BufJob)
      requires Intact() && Loose(job.buf)
      modifies this`notFound, this`model, this`pool, this`outPool
      ensures Intact() && model == old(model).(count := old(model).count.(notFound := old(model).count.notFound + 1))
      ensures Payloads() == old(Payloads()) + {job.buf} && old(Frames()) <= Frames() && fresh(Frames() - old(Frames()))
    {
      var b := GetOut();
      CountNotFound();
      ReturnPayload(job.buf);
      PutOut(b);
    }

    /** The head of lane `w` and, once batched under any frame, its batch share no ticket with anything else. */
    ghost predicate TicketsApart(w: nat)
      reads this`model
      requires w < |model.lanes| && model.lanes[w].queue != []
    {
      && NowhereElse(model.lanes, w)
      && forall m: Msg :: m.job == model.lanes[w].queue[0] && Faithful(m.job, m.frame) ==>
           BatchAlone(Batched(Popped(model, w), w, m).lanes, w)
    }

    method Process(w: nat, t: Tables, wssOk: bool, dualStack: bool, n: nat, oks: seq<bool>)
      requires Intact() && w < |lanes| && lanes[w].queue != [] && n <= |lanes[w].batch| + 1 == |oks|
      requires TicketsApart(w)
      modifies this, outPool
      ensures Intact() && |lanes| == old(|lanes|)
      ensures model == Taken(old(model), w, t, wssOk, IO(if dualStack then 0 else n, oks))
      ensures Payloads() == old(Payloads()) && old(Frames()) <= Frames() && fresh(Frames() - old(Frames()))
    {
      ghost var j := model.lanes[w].queue[0];
      ghost var m := model;
      var job := PopJob(w);
      var tier := Choose(t, job.dest);
      if tier.Wss? {
        DeliverWss(job, j, wssOk);
      } else if tier.Unknown? {
        GiveUp(job);
      } else {
        assert Unused(model.lanes, j.ticket);
        assert BatchAlone(Batched(Popped(m, w), w, Msg(j, Shape(tier, j.relay), tier.addr)).lanes, w);
        Collect(w, job, j, tier, dualStack, n, oks);
      }
    }

    /** One job through the worker loop. */
    method Take(w: nat, t: Tables, wssOk: bool, dualStack: bool, n: nat, oks: seq<bool>)
      requires Valid() && w < |lanes| && lanes[w].queue != [] && n <= |lanes[w].batch| + 1 == |oks|
      modifies this, outPool
      ensures Valid() && model == Step(old(model), Event.Take(w, t, wssOk, IO(if dualStack then 0 else n, oks)), queueCap)
      ensures Payloads() == old(Payloads()) && old(Frames()) <= Frames() && fresh(Frames() - old(Frames()))
    {
      ghost var lane, io := LaneFn(|lanes|), IO(if dualStack then 0 else n, oks);
      WillBeApart(model, w, lane);
      TakeOrderly(model, w, t, wssOk, io, lane);
      Process(w, t, wssOk, dualStack, n, oks);
    }

    /** An armed timer runs out. */
    method Expire(w: nat)
      requires Valid() && w < |lanes| && lanes[w].timer == Armed
      modifies this`lanes, this`model
      ensures Valid() && model == Step(old(model), Event.Expire(w), queueCap)
    {
      TimerOrderly(model, w, Fired, lanes[w].timerActive, LaneFn(|lanes|));
      SetTimer(w, Fired, lanes[w].timerActive);
    }

    /** The timer's tick. */
    method Tick(w: nat, dualStack: bool, n: nat, oks: seq<bool>)
      requires Valid() && w < |lanes| && lanes[w].timer == Fired && n <= |lanes[w].batch| == |oks|
      modifies this
      ensures Valid() && model == Step(old(model), Event.Tick(w, IO(if dualStack then 0 else n, oks)), queueCap)
      ensures Payloads() == old(Payloads()) && Frames() == old(Frames())
    {
      ghost var lane, io := LaneFn(|lanes|), IO(if dualStack then 0 else n, oks);
      TimerOrderly(model, w, Idle, false, lane);
      FlushOrderly(WithTimer(model, w, Idle, false), w, io, lane);
      BatchIsAlone(WithTimer(model, w, Idle, false), w, lane);
      SetTimer(w, Idle, false);
      Flush(w, dualStack, n, oks);
    }

    /** Shutdown: the worker flushes what it has and leaves. */
    method Stop(w: nat, dualStack: bool, n: nat, oks: seq<bool>)
      requires Valid() && w < |lanes| && n <= |lanes[w].batch| == |oks|
      modifies this
      ensures Valid() && model == Step(old(model), Event.Stop(w, IO(if dualStack then 0 else n, oks)), queueCap)
      ensures Payloads() == old(Payloads()) && Frames() == old(Frames())
    {
      ghost var lane, io := LaneFn(|lanes|), IO(if dualStack then 0 else n, oks);
      FlushOrderly(model, w, io, lane);
      BatchIsAlone(model, w, lane);
      Flush(w, dualStack, n, oks);
    }

    // ---- one received frame ----

    method Drop()
      requires Intact()
      modifies this`dropped, this`model
      ensures Intact() && model == old(model).(count := old(model).count.(dropped := old(model).count.dropped + 1))
    {
      dropped := dropped + 1;
      model := model.(count := model.count.(dropped := model.count.dropped + 1));
    }

    method FillPayload(payload: Bytes) returns (b: Buffer, ghost lost: set<Buffer>)
      requires Exclusive() && Mirrored()
      modifies this`pool, pool
      ensures Exclusive() && Mirrored() && Loose(b) && |payload| <= b.Length && b[..|payload|] == payload
      ensures Undersized(lost, |payload|) && lost <= old(pool)
      ensures old(Payloads()) - lost <= Payloads() + {b} && Payloads() <= old(Payloads()) && (b in old(Payloads()) || fresh(b))
    {
      b, lost := GetPayload(|payload|);
      Copy(b, 0, payload);
    }

    /** The job gets the next ticket and is queued with its filled buffer. */
    method Post(w: nat, r: Wire.Relay, ghost data: Bytes, b: Buffer)
      requires Intact() && w < |lanes| && ParseRelay(data) == Some(r) && |r.payload| <= MAX_PAYLOAD
      requires Unused(model.lanes, |model.admitted|)
      requires Loose(b) && |r.payload| <= b.Length && b[..|r.payload|] == r.payload
      modifies this`lanes, this`model, this`pay, this`tickets
      ensures Intact() && |lanes| == old(|lanes|) && w < |old(model).lanes| && model == Queued(old(model), w, data)
      ensures Payloads() == old(Payloads()) + {b}
    {
      AddJob(w, BufJob(tickets, r.sender, r.dest, b, |r.payload|), data);
      tickets := tickets + 1;
    }

    /** Copies the payload into a pooled buffer and queues it, or gives the buffer back when the queue is full. */
    method Enqueue(w: nat, r: Wire.Relay, ghost data: Bytes) returns (ghost lost: set<Buffer>)
      requires Intact() && w < |lanes| && ParseRelay(data) == Some(r) && |r.payload| <= MAX_PAYLOAD
      requires Unused(model.lanes, |model.admitted|)
      modifies this, pool
      ensures Intact() && |lanes| == old(|lanes|) == |old(model).lanes|
      ensures model == if |old(model).lanes[w].queue| >= queueCap
                       then old(model).(count := old(model).count.(dropped := old(model).count.dropped + 1))
                       else Queued(old(model), w, data)
      ensures Undersized(lost, |r.payload|) && lost <= old(pool)
      ensures old(Payloads()) - lost <= Payloads() && fresh(Payloads() - old(Payloads())) && Frames() == old(Frames())
    {
      var b;
      b, lost := FillPayload(r.payload);
      if |lanes[w].queue| < queueCap {
        Post(w, r, data, b);
      } else {
        Drop();
        ReturnPayload(b);
      }
    }

    /** Counts the frame, and says whether breaker, pre-check, limiter or size refuse it. */
    method Sift(r: Wire.Relay, breakerOpen: bool, t: Tables, allowed: bool) returns (refused: bool)
      requires Intact()
      modifies this`dropped, this`notFound, this`model
      ensures Intact() && model == Sifted(old(model), r, breakerOpen, t, allowed)
      ensures refused == (breakerOpen || !PreCheck(t, r.dest) || !allowed || |r.payload| > MAX_PAYLOAD)
    {
      model := model.(count := model.count.(received := model.count.received + 1));
      refused := true;
      if breakerOpen {
        Drop();
      } else if r.dest !in t.local && r.dest !in t.peers && r.dest !in t.wss {
        CountNotFound();
      } else if !allowed {
        model := model.(count := model.count.(limited := model.count.limited + 1));
      } else if |r.payload| > MAX_PAYLOAD {
        model := model.(count := model.count.(oversized := model.count.oversized + 1));
      } else {
        refused := false;
      }
    }

    method Admit(r: Wire.Relay, ghost data: Bytes, breakerOpen: bool, t: Tables, allowed: bool) returns (ghost lost: set<Buffer>)
      requires Intact() && ParseRelay(data) == Some(r) && Unused(model.lanes, |model.admitted|)
      modifies this, pool
      ensures Intact() && |lanes| == old(|lanes|) == |old(model).lanes|
      ensures model == Dispatched(old(model), data, breakerOpen, t, allowed, queueCap)
      ensures Undersized(lost, |r.payload|) && lost <= old(pool)
      ensures old(Payloads()) - lost <= Payloads() && fresh(Payloads() - old(Payloads())) && Frames() == old(Frames())
    {
      lost := {};
      var refused := Sift(r, breakerOpen, t, allowed);
      if !refused {
        lost := Enqueue(LaneOf(r.dest, |lanes|), r, data);
      }
    }

    /**
     * `dispatchRelay`. The tables are what the pre-check sees, `allowed` what the limiter answers. The only buffer
     * the server ever gives up is a pooled one too small for the payload, at most one per frame.
     */
    method DispatchRelay(data: Bytes, breakerOpen: bool, t: Tables, allowed: bool) returns (ghost lost: set<Buffer>)
      requires Valid()
      modifies this, pool
      ensures Valid() && model == Step(old(model), Event.Dispatch(data, breakerOpen, t, allowed), queueCap)
      ensures Undersized(lost, |data| - 8) && lost <= old(pool)
      ensures old(Payloads()) - lost <= Payloads() && fresh(Payloads() - old(Payloads())) && Frames() == old(Frames())
    {
      lost := {};
      if |data| < 8 {
        return;
      }
      ghost var lane := LaneFn(|lanes|);
      StepOrderly(model, Event.Dispatch(data, breakerOpen, t, allowed), queueCap, lane);
      NextTicketUnused(model, lane);
      lost := Admit(ParseRelay(data).value, data, breakerOpen, t, allowed);
    }

    // ---- what the invariant says about buffers ----

    /** Two queued jobs never share a buffer, and no queued buffer is in the pool. */
    lemma QueuedBuffersDiffer(v: nat, i: nat, w: nat, j: nat)
      requires Valid() && v < |lanes| && w < |lanes| && i < |lanes[v].queue| && j < |lanes[w].queue| && (v, i) != (w, j)
      ensures lanes[v].queue[i].buf != lanes[w].queue[j].buf
      ensures lanes[v].queue[i].buf !in pool && lanes[v].queue[i].buf !in outPool
    {
      var lane := LaneFn(|lanes|);
      var a, b := model.lanes[v].queue[i], model.lanes[w].queue[j];
      assert LaneMatches(lanes[v], model.lanes[v], pay, out) && LaneMatches(lanes[w], model.lanes[w], pay, out);
      assert JobMatches(lanes[v].queue[i], a, pay) && JobMatches(lanes[w].queue[j], b, pay);
      assert LaneFine(model, model.lanes[v], v, lane) && LaneFine(model, model.lanes[w], w, lane);
      assert Genuine(model.admitted, a) && Genuine(model.admitted, b);
    }

    /** Two batched messages share neither buffer, and a batched buffer is in no pool. */
    lemma BatchedBuffersDiffer(v: nat, i: nat, w: nat, j: nat)
      requires Valid() && v < |lanes| && w < |lanes| && i < |lanes[v].batch| && j < |lanes[w].batch| && (v, i) != (w, j)
      ensures lanes[v].batch[i].out != lanes[w].batch[j].out && lanes[v].batch[i].job.buf != lanes[w].batch[j].job.buf
      ensures lanes[v].batch[i].out !in outPool && lanes[v].batch[i].job.buf !in pool
    {
      var lane := LaneFn(|lanes|);
      var a, b := model.lanes[v].batch[i], model.lanes[w].batch[j];
      assert LaneMatches(lanes[v], model.lanes[v], pay, out) && LaneMatches(lanes[w], model.lanes[w], pay, out);
      assert MsgMatches(lanes[v].batch[i], a, pay, out) && MsgMatches(lanes[w].batch[j], b, pay, out);
      assert LaneFine(model, model.lanes[v], v, lane) && LaneFine(model, model.lanes[w], w, lane);
      assert Genuine(model.admitted, a.job) && Genuine(model.admitted, b.job);
    }

    /** A queued payload buffer is in no batch, neither as payload nor as frame. */
    lemma QueuedNotBatched(v: nat, i: nat, w: nat, j: nat)
      requires Valid() && v < |lanes| && w < |lanes| && i < |lanes[v].queue| && j < |lanes[w].batch|
      ensures lanes[v].queue[i].buf != lanes[w].batch[j].job.buf && lanes[v].queue[i].buf != lanes[w].batch[j].out
    {
      var lane := LaneFn(|lanes|);
      var a, b := model.lanes[v].queue[i], model.lanes[w].batch[j];
      assert LaneMatches(lanes[v], model.lanes[v], pay, out) && LaneMatches(lanes[w], model.lanes[w], pay, out);
      assert JobMatches(lanes[v].queue[i], a, pay) && MsgMatches(lanes[w].batch[j], b, pay, out);
      assert LaneFine(model, model.lanes[v], v, lane) && LaneFine(model, model.lanes[w], w, lane);
      assert Genuine(model.admitted, a) && Genuine(model.admitted, b.job);
    }

    /** A payload buffer is either pooled or with a queued or batched job, never both; and it is no output buffer. */
    lemma PayloadInOnePlace(b: Buffer)
      requires Valid() && b in Payloads()
      ensures b in pool <==> !exists w :: 0 <= w < |lanes| && (b in QueueBuffers(lanes[w]) || b in BatchBuffers(lanes[w]))
      ensures b !in Frames()
    {
      if b in pay {
        CellHasUser(lanes, model.lanes, pay, out, b);
      } else {
        forall w | 0 <= w < |lanes|
          ensures b !in QueueBuffers(lanes[w]) && b !in BatchBuffers(lanes[w])
        {
          UserHasCell(lanes, model.lanes, pay, out, w);
        }
      }
    }

    /** An output buffer is either pooled or holds the frame of a batched message, never both. */
    lemma FrameInOnePlace(b: Buffer)
      requires Valid() && b in Frames()
      ensures b in outPool <==> !exists w :: 0 <= w < |lanes| && b in FrameBuffers(lanes[w])
      ensures b !in Payloads()
    {
      if b in out {
        FrameCellHasUser(lanes, model.lanes, pay, out, b);
      } else {
        forall w | 0 <= w < |lanes|
          ensures b !in FrameBuffers(lanes[w])
        {
          UserHasCell(lanes, model.lanes, pay, out, w);
        }
      }
    }
  }

  /** At most one buffer, and one that a payload of `size` bytes does not fit. */
  ghost predicate Undersized(lost: set<Buffer>, size: int) {
    |lost| <= 1 && forall b :: b in lost ==> b.Length < size
  }

  lemma UserHasCell(hs: seq<BufLane>, ls: seq<Lane>, pay: Cells, out: Cells, w: nat)
    requires Agree(hs, ls, pay, out) && w < |hs|
    ensures QueueBuffers(hs[w]) + BatchBuffers(hs[w]) <= pay.Keys && FrameBuffers(hs[w]) <= out.Keys
  {
    var h, l := hs[w], ls[w];
    assert LaneMatches(h, l, pay, out);
    forall i | 0 <= i < |h.queue| ensures h.queue[i].buf in pay {
      assert JobMatches(h.queue[i], l.queue[i], pay);
    }
    forall i | 0 <= i < |h.batch| ensures h.batch[i].job.buf in pay && h.batch[i].out in out {
      assert MsgMatches(h.batch[i], l.batch[i], pay, out);
    }
  }

  lemma FrameCellHasUser(hs: seq<BufLane>, ls: seq<Lane>, pay: Cells, out: Cells, b: Buffer)
    requires Agree(hs, ls, pay, out) && b in out
    ensures exists w :: 0 <= w < |hs| && b in FrameBuffers(hs[w])
  {
    var t := out[b].ticket;
    assert InBatch(ls, t);
    var w :| 0 <= w < |ls| && !NotBatched(ls[w], t);
    var h, l := hs[w], ls[w];
    assert LaneMatches(h, l, pay, out);
    var i :| 0 <= i < |l.batch| && l.batch[i].job.ticket == t;
    assert MsgMatches(h.batch[i], l.batch[i], pay, out);
    assert out[h.batch[i].out].ticket == t;
    assert b in FrameBuffers(h);
  }

  ghost function FrameBuffers(l: BufLane): set<Buffer> {
    set i | 0 <= i < |l.batch| :: l.batch[i].out
  }

  lemma CellHasUser(hs: seq<BufLane>, ls: seq<Lane>, pay: Cells, out: Cells, b: Buffer)
    requires Agree(hs, ls, pay, out) && b in pay
    ensures exists w :: 0 <= w < |hs| && (b in QueueBuffers(hs[w]) || b in BatchBuffers(hs[w]))
  {
    var t := pay[b].ticket;
    assert Waits(ls, t);
    var w :| 0 <= w < |ls| && !NoTicket(ls[w], t);
    var h, l := hs[w], ls[w];
    assert LaneMatches(h, l, pay, out);
    if i :| 0 <= i < |l.queue| && l.queue[i].ticket == t {
      assert JobMatches(h.queue[i], l.queue[i], pay);
      assert pay[h.queue[i].buf].ticket == t;
      assert b in QueueBuffers(h);
    } else {
      var i :| 0 <= i < |l.batch| && l.batch[i].job.ticket == t;
      assert MsgMatches(h.batch[i], l.batch[i], pay, out);
      assert pay[h.batch[i].job.buf].ticket == t;
      assert b in BatchBuffers(h);
    }
  }

  ghost function QueueBuffers(l: BufLane): set<Buffer> {
    set i | 0 <= i < |l.queue| :: l.queue[i].buf
  }

  ghost function BatchBuffers(l: BufLane): set<Buffer> {
    set i | 0 <= i < |l.batch| :: l.batch[i].job.buf
  }

  lemma WillBeApart(p: Pipe, w: nat, lane: U32 -> int)
    requires w < |p.lanes| && p.lanes[w].queue != [] && Orderly(p, lane)
    ensures NowhereElse(p.lanes, w)
    ensures forall m: Msg :: m.job == p.lanes[w].queue[0] && Faithful(m.job, m.frame) ==>
              BatchAlone(Batched(Popped(p, w), w, m).lanes, w)
  {
    HeadIsAlone(p, w, lane);
    forall m: Msg | m.job == p.lanes[w].queue[0] && Faithful(m.job, m.frame)
      ensures BatchAlone(Batched(Popped(p, w), w, m).lanes, w)
    {
      BatchOrderly(p, w, m, lane);
      BatchIsAlone(Batched(Popped(p, w), w, m), w, lane);
    }
  }
}
