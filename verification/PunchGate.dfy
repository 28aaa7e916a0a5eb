/** The two-level rate limit in front of punch coordination: a global gap and a per-source interval. */
module PunchGate {
  import opened Base
  import opened IntervalLimiter

  /** A second divided by the ten punches it may hold, in nanoseconds. */
  const GLOBAL_GAP := 100_000_000

  /** Source addresses are compared as the 16-byte canonical form that names them. */
  type Source = Bytes

  datatype State = State(lastPunch: int, last: map<Source, int>)

  /** One handled punch request reads the clock three times; `exempt` sources skip the gate. */
  datatype Event =
    | Punch(source: Source, exempt: bool, now: int, check: int, stamp: int)
    | Sweep(now: int)

  predicate Passes(s: State, e: Event) {
    e.Punch? && !e.exempt && e.now - s.lastPunch >= GLOBAL_GAP && Allows(s.last, e.source, PUNCH_INTERVAL, e.check)
  }

  ghost function Step(s: State, e: Event): State {
    if Passes(s, e) then State(e.now, s.last[e.source := e.stamp])
    else if e.Sweep? then State(s.lastPunch, Swept(s.last, e.now - PUNCH_SWEEP_AGE))
    else s
  }

  class Gate {
    var lastPunch: int
    const limiter: Limiter<Source>

    ghost predicate Valid()
      reads this, limiter.shards
    {
      limiter.Valid()
    }

    ghost function Current(): State
      requires Valid()
      reads this, limiter.shards
    {
      State(lastPunch, limiter.Last())
    }

    constructor (limiter: Limiter<Source>)
      requires limiter.Valid()
      ensures Valid() && this.limiter == limiter && Current() == State(0, limiter.Last())
    {
      this.limiter := limiter;
      lastPunch := 0;
    }

    /** `handlePunchRequest` up to the bypass label. A refused request changes nothing. */
    method Admit(source: Source, exempt: bool, now: int, check: int, stamp: int) returns (admitted: bool)
      requires Valid()
      modifies this, limiter.shards
      ensures Valid()
      ensures admitted == (exempt || Passes(old(Current()), Punch(source, exempt, now, check, stamp)))
      ensures Current() == Step(old(Current()), Punch(source, exempt, now, check, stamp))
    {
      if exempt {
        return true;
      }
      if now - lastPunch < GLOBAL_GAP {
        return false;
      }
      var ok := limiter.Allow(source, PUNCH_INTERVAL, check, stamp);
      if !ok {
        return false;
      }
      lastPunch := now;
      return true;
    }
  }

  // ---- whole runs ----

  function Begins(e: Event): int { e.now }

  function Ends(e: Event): int { if e.Punch? then e.stamp else e.now }

  ghost predicate Ordered(es: seq<Event>) {
    && (forall i :: 0 <= i < |es| && es[i].Punch? ==> es[i].now <= es[i].check <= es[i].stamp)
    && (forall i, j :: 0 <= i < j < |es| ==> Ends(es[i]) <= Begins(es[j]))
  }

  ghost function Run(es: seq<Event>): State {
    if es == [] then State(0, map[]) else Step(Run(es[..|es| - 1]), es[|es| - 1])
  }

  /** The requests that passed the limiter, in order. */
  ghost function Passed(es: seq<Event>): seq<Event> {
    if es == [] then [] else
    var front, e := es[..|es| - 1], es[|es| - 1];
    WithPass(Run(front), Passed(front), e)
  }

  ghost predicate Spaced(ps: seq<Event>) {
    && (forall p :: p in ps ==> p.Punch?)
    && (forall i, j :: 0 <= i < j < |ps| ==> ps[j].now - ps[i].now >= GLOBAL_GAP)
    && (forall i, j :: 0 <= i < j < |ps| && ps[i].source == ps[j].source ==> ps[j].check - ps[i].stamp >= PUNCH_INTERVAL)
  }

  /** Why spacing survives sweeps: a pass is either still recorded or a full interval old. */
  ghost predicate Remembered(s: State, ps: seq<Event>, clock: int) {
    && (forall p :: p in ps ==> p.Punch? && p.now <= s.lastPunch)
    && (forall p :: p in ps ==> (p.source in s.last && s.last[p.source] >= p.stamp) || clock - p.stamp >= PUNCH_INTERVAL)
    && (forall k :: k in s.last ==> s.last[k] <= clock)
  }

  ghost function WithPass(s: State, ps: seq<Event>, e: Event): seq<Event> {
    ps + if Passes(s, e) then [e] else []
  }

  lemma StepRemembers(s: State, ps: seq<Event>, clock: int, e: Event)
    requires Spaced(ps) && Remembered(s, ps, clock)
    requires clock <= e.now && (e.Punch? ==> e.now <= e.check <= e.stamp)
    ensures Spaced(WithPass(s, ps, e)) && Remembered(Step(s, e), WithPass(s, ps, e), Ends(e))
  {
    if Passes(s, e) {
      var next := ps + [e];
      forall p | p in ps
        ensures e.now - p.now >= GLOBAL_GAP
        ensures p.source == e.source ==> e.check - p.stamp >= PUNCH_INTERVAL
      {
      }
      assert Spaced(next);
    }
  }

  lemma {:induction false} RunRemembers(es: seq<Event>)
    requires es != [] && Ordered(es)
    ensures Spaced(Passed(es))
    ensures Remembered(Run(es), Passed(es), Ends(es[|es| - 1]))
  {
    var n := |es| - 1;
    var front, e := es[..n], es[n];
    if front == [] {
      StepRemembers(Run(front), Passed(front), e.now, e);
    } else {
      RunRemembers(front);
      StepRemembers(Run(front), Passed(front), Ends(front[n - 1]), e);
    }
  }

  ghost function Times(ps: seq<Event>): seq<int> {
    seq(|ps|, i requires 0 <= i < |ps| => ps[i].now)
  }

  ghost function CountIn(ts: seq<int>, lo: int, hi: int): nat {
    if ts == [] then 0 else
    CountIn(ts[..|ts| - 1], lo, hi) + if lo <= ts[|ts| - 1] <= hi then 1 else 0
  }

  lemma {:induction false} CountBelow(ts: seq<int>, lo: int, hi: int, cap: int)
    requires cap <= hi && forall i :: 0 <= i < |ts| ==> ts[i] <= cap
    ensures CountIn(ts, lo, hi) == CountIn(ts, lo, cap)
  {
    if ts == [] {
    } else {
      CountBelow(ts[..|ts| - 1], lo, hi, cap);
    }
  }

  /** `c` instants at least 100 ms apart span at least `(c - 1)` times 100 ms. */
  lemma {:induction false} CountGapped(ts: seq<int>, lo: int, hi: int)
    requires forall i, j :: 0 <= i < j < |ts| ==> ts[j] - ts[i] >= 100_000_000
    ensures var c := CountIn(ts, lo, hi); c > 0 ==> (c - 1) * 100_000_000 <= hi - lo
  {
    if ts == [] {
    } else {
      var n := |ts| - 1;
      var front, t := ts[..n], ts[n];
      if lo <= t <= hi {
        forall i | 0 <= i < n
          ensures front[i] <= t - 100_000_000
        {
          assert ts[n] - ts[i] >= 100_000_000;
        }
        CountBelow(front, lo, hi, t - 100_000_000);
        CountGapped(front, lo, t - 100_000_000);
      } else {
        CountGapped(front, lo, hi);
      }
    }
  }

  lemma PassedSpaced(es: seq<Event>)
    requires Ordered(es)
    ensures Spaced(Passed(es))
  {
    if es != [] {
      RunRemembers(es);
    }
  }

  lemma SpacedCount(ps: seq<Event>, a: int, w: nat)
    requires Spaced(ps)
    ensures CountIn(Times(ps), a, a + w) <= w / 100_000_000 + 1
  {
    CountGapped(Times(ps), a, a + w);
  }

  /**
   * Over any run of punches and sweeps, any two requests that pass are at least 100 ms apart, any two
   * from one source at least 1 s apart; at most 10 pass in any half-open second, and at most
   * floor(w / 100 ms) + 1 in any closed interval of length w.
   */
  lemma PunchRateBound(es: seq<Event>, a: int, w: nat)
    requires Ordered(es)
    ensures Spaced(Passed(es))
    ensures CountIn(Times(Passed(es)), a, a + w) <= w / 100_000_000 + 1
    ensures CountIn(Times(Passed(es)), a, a + SECOND - 1) <= 10
  {
    PassedSpaced(es);
    SpacedCount(Passed(es), a, w);
    SpacedCount(Passed(es), a, 999_999_999);
  }

  // ---- exactly which requests pass ----

  /** What the gate remembers was left by a request that passed. */
  ghost predicate Backed(s: State, ps: seq<Event>) {
    && (ps == [] ==> s.lastPunch == 0) && (ps != [] ==> s.lastPunch == ps[|ps| - 1].now && s.lastPunch >= 100 * MILLISECOND)
    && forall k :: k in s.last ==> exists p :: p in ps && p.Punch? && p.source == k && p.stamp == s.last[k]
  }

  lemma {:induction false} RunBacked(es: seq<Event>)
    ensures Backed(Run(es), Passed(es))
    decreases |es|
  {
    if es == [] {
    } else {
      var front, e := es[..|es| - 1], es[|es| - 1];
      RunBacked(front);
      StepBacked(Run(front), Passed(front), e);
    }
  }

  lemma StepBacked(s: State, ps: seq<Event>, e: Event)
    requires Backed(s, ps)
    ensures Backed(Step(s, e), WithPass(s, ps, e))
  {
    var t, qs := Step(s, e), WithPass(s, ps, e);
    forall k | k in t.last
      ensures exists p :: p in qs && p.Punch? && p.source == k && p.stamp == t.last[k]
    {
      if Passes(s, e) && k == e.source {
        assert e in qs;
      } else {
        var p :| p in ps && p.Punch? && p.source == k && p.stamp == s.last[k];
        assert p in qs;
      }
    }
  }

  /** No pass lies within 100 ms before the request, and none of its source within 1 s. */
  ghost predicate Clear(ps: seq<Event>, e: Event)
    requires e.Punch?
  {
    forall p :: p in ps && p.Punch? ==>
      e.now - p.now >= 100 * MILLISECOND && (p.source == e.source ==> e.check - p.stamp >= SECOND)
  }

  lemma PassesIsClear(s: State, ps: seq<Event>, clock: int, e: Event)
    requires e.Punch? && Remembered(s, ps, clock) && clock <= e.now <= e.check && Passes(s, e)
    ensures Clear(ps, e)
  {
  }

  lemma ClearPasses(s: State, ps: seq<Event>, e: Event)
    requires e.Punch? && !e.exempt && Backed(s, ps) && (forall p :: p in ps ==> p.Punch?)
    requires e.now >= 100 * MILLISECOND && Clear(ps, e)
    ensures Passes(s, e)
  {
    if ps != [] {
      assert ps[|ps| - 1] in ps;
    }
    if e.source in s.last {
      var p :| p in ps && p.Punch? && p.source == e.source && p.stamp == s.last[e.source];
    }
  }

  /**
   * In every run a request that is not exempt passes if and only if no pass lies within 100 ms before it and none of
   * its source within 1 s (and the clock is past the first 100 ms of the epoch, where the last pass starts out).
   */
  lemma PassesIff(es: seq<Event>, e: Event)
    requires Ordered(es + [e]) && e.Punch? && !e.exempt
    ensures Passed(es + [e]) == Passed(es) + if e.now >= 100 * MILLISECOND && Clear(Passed(es), e) then [e] else []
  {
    var s, ps := Run(es), Passed(es);
    assert (es + [e])[..|es|] == es && (es + [e])[|es|] == e;
    RunBacked(es);
    if es != [] {
      OrderedFront(es, e);
      RunRemembers(es);
    }
    if Passes(s, e) {
      PassesIsClear(s, ps, if es == [] then e.now else Ends(es[|es| - 1]), e);
      assert s.lastPunch >= 0;
    } else if e.now >= 100 * MILLISECOND && Clear(ps, e) {
      ClearPasses(s, ps, e);
      assert false;
    }
  }

  lemma OrderedFront(es: seq<Event>, e: Event)
    requires Ordered(es + [e]) && es != []
    ensures Ordered(es) && Ends(es[|es| - 1]) <= Begins(e)
  {
    var all := es + [e];
    assert forall i :: 0 <= i < |es| ==> all[i] == es[i];
    assert all[|es|] == e && all[|es| - 1] == es[|es| - 1];
  }
}
