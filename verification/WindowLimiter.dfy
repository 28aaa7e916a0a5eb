/** The per-source relay budget: at most `max` relays in a window of one second opened by the first of them. */
module WindowLimiter {
  import opened Base
  import opened Sharding

  const SHARDS := 256
  const SWEEP_AGE := 5 * MINUTE

  datatype Window = Window(start: int, count: nat)

  /** The call at `now` starts a new window for `k`. */
  predicate Opens<K>(m: map<K, Window>, k: K, now: int) {
    k in m ==> now - m[k].start >= SECOND
  }

  predicate Allows<K>(m: map<K, Window>, k: K, now: int, max: U32) {
    Opens(m, k, now) || m[k].count < max
  }

  function Called<K>(m: map<K, Window>, k: K, now: int, max: U32): map<K, Window> {
    if Opens(m, k, now) then m[k := Window(now, 1)]
    else if m[k].count < max then m[k := Window(m[k].start, m[k].count + 1)]
    else m
  }

  ghost function Swept<K>(m: map<K, Window>, cutoff: int): map<K, Window> {
    Keep(m, (w: Window) => w.start >= cutoff)
  }

  /** `relayRateLimiter`, for any hash that picks the shard. */
  class Limiter<K(==, !new)> {
    const shards: array<map<K, Window>>
    const home: K -> int

    ghost predicate Valid()
      reads shards
    {
      Homes(home, shards.Length) && Homed(shards[..], home)
    }

    ghost function Windows(): map<K, Window>
      requires Valid()
      reads shards
    {
      Flat(shards[..], home)
    }

    constructor (home: K -> int)
      requires Homes(home, SHARDS)
      ensures Valid() && Windows() == map[] && fresh(shards) && this.home == home
    {
      shards := new map<K, Window>[SHARDS](_ => map[]);
      this.home := home;
    }

    method Put(k: K, w: Window)
      requires Valid()
      modifies shards
      ensures Valid() && Windows() == old(Windows())[k := w]
    {
      var sh := home(k);
      FlatPut(shards[..], home, k, w);
      ghost var before := shards[..];
      shards[sh] := shards[sh][k := w];
      assert shards[..] == before[sh := before[sh][k := w]];
    }

    method Find(k: K) returns (w: Option<Window>)
      requires Valid()
      ensures w == if k in Windows() then Some(Windows()[k]) else None
    {
      FlatLookup(shards[..], home, k);
      var m := shards[home(k)];
      w := if k in m then Some(m[k]) else None;
    }

    method Allow(k: K, now: int, max: U32) returns (ok: bool)
      requires Valid()
      modifies shards
      ensures Valid()
      ensures ok == Allows(old(Windows()), k, now, max)
      ensures Windows() == Called(old(Windows()), k, now, max)
    {
      var w := Find(k);
      ghost var next := Called(Windows(), k, now, max);
      if w.None? || now - w.value.start >= SECOND {
        assert next == Windows()[k := Window(now, 1)];
        Put(k, Window(now, 1));
      } else if w.value.count >= max {
        return false;
      } else {
        assert next == Windows()[k := Window(w.value.start, w.value.count + 1)];
        Put(k, Window(w.value.start, w.value.count + 1));
      }
      return true;
    }

    method Sweep(cutoff: int)
      requires Valid()
      modifies shards
      ensures Valid() && Windows() == Swept(old(Windows()), cutoff)
    {
      var keep := (w: Window) => w.start >= cutoff;
      ghost var before := shards[..];
      for i := 0 to shards.Length
        invariant forall j :: 0 <= j < i ==> shards[j] == Keep(before[j], keep)
        invariant forall j :: i <= j < shards.Length ==> shards[j] == before[j]
      {
        var kept, _ := SweepShard(shards[i], keep);
        shards[i] := kept;
      }
      FlatKeep(before, shards[..], home, keep);
      assert Keep(Flat(before, home), keep) == Swept(Flat(before, home), cutoff);
    }
  }

  // ---- whole runs ----

  datatype Event<K> = Call(key: K, now: int) | Sweep(now: int)

  ghost predicate Ordered<K>(es: seq<Event<K>>) {
    forall i, j :: 0 <= i < j < |es| ==> es[i].now <= es[j].now
  }

  ghost function After<K>(m: map<K, Window>, e: Event<K>, max: U32): map<K, Window> {
    match e
    case Call(k, now) => Called(m, k, now, max)
    case Sweep(now) => Swept(m, now - SWEEP_AGE)
  }

  ghost function NoSweeps<K>(es: seq<Event<K>>): seq<Event<K>> {
    if es == [] then [] else (if es[0].Call? then [es[0]] else []) + NoSweeps(es[1..])
  }

  ghost function Answers<K>(m: map<K, Window>, es: seq<Event<K>>, max: U32): seq<bool>
    decreases es
  {
    if es == [] then [] else
    (if es[0].Call? then [Allows(m, es[0].key, es[0].now, max)] else []) + Answers(After(m, es[0], max), es[1..], max)
  }

  ghost predicate Expired<K>(small: map<K, Window>, full: map<K, Window>, now: int) {
    && (forall k :: k in small ==> k in full && small[k] == full[k])
    && (forall k :: k in full && k !in small ==> now - full[k].start >= SECOND)
  }

  lemma {:induction false} AnswersAgree<K(!new)>(small: map<K, Window>, full: map<K, Window>, es: seq<Event<K>>, now: int, max: U32)
    requires Expired(small, full, now) && Ordered(es)
    requires es != [] ==> now <= es[0].now
    ensures Answers(small, es, max) == Answers(full, NoSweeps(es), max)
    decreases es
  {
    if es == [] {
    } else {
      var e, rest := es[0], es[1..];
      if e.Call? {
        assert ([e] + NoSweeps(rest))[1..] == NoSweeps(rest);
        AnswersAgree(After(small, e, max), After(full, e, max), rest, e.now, max);
      } else {
        assert NoSweeps(es) == NoSweeps(rest);
        AnswersAgree(After(small, e, max), full, rest, e.now, max);
      }
    }
  }

  /** The reaper's sweeps never change an answer. */
  lemma SweepInvisible<K(!new)>(es: seq<Event<K>>, max: U32)
    requires Ordered(es)
    ensures Answers(map[], es, max) == Answers(map[], NoSweeps(es), max)
  {
    if es != [] {
      AnswersAgree(map[], map[], es, es[0].now, max);
    }
  }

  // ---- how many relays one source gets through ----

  /** Relays of `src` accepted at times in [a, b]. */
  ghost function Accepted<K>(m: map<K, Window>, es: seq<Event<K>>, max: U32, src: K, a: int, b: int): nat
    decreases es
  {
    if es == [] then 0 else
    var e := es[0];
    (if e.Call? && e.key == src && a <= e.now <= b && Allows(m, src, e.now, max) then 1 else 0)
    + Accepted(After(m, e, max), es[1..], max, src, a, b)
  }

  /** A zero budget still lets the relay that opens a window through. */
  function Cap(max: U32): nat {
    if max == 0 then 1 else max
  }

  /** How many windows can open in [x, b]. */
  function Openings(x: int, b: int): nat {
    if x <= b then (b - x) / SECOND + 1 else 0
  }

  /** The most that can be accepted in [t, b] from state `m` on. */
  ghost function Remaining<K>(m: map<K, Window>, src: K, t: int, b: int, max: U32): int {
    if t > b then 0
    else if Opens(m, src, t) then Cap(max) * Openings(t, b)
    else Cap(max) - m[src].count + Cap(max) * Openings(m[src].start + SECOND, b)
  }

  ghost predicate Sane<K>(m: map<K, Window>, src: K, t: int, max: U32) {
    src in m ==> m[src].start <= t && 1 <= m[src].count <= Cap(max)
  }

  lemma OpeningsMonotone(x: int, y: int, b: int)
    requires x <= y
    ensures Openings(y, b) <= Openings(x, b)
    ensures x <= b ==> Openings(x, b) == 1 + Openings(x + SECOND, b)
  {
  }

  lemma RemainingMonotone<K>(m: map<K, Window>, src: K, t: int, u: int, b: int, max: U32)
    requires t <= u && Sane(m, src, t, max)
    ensures 0 <= Remaining(m, src, u, b, max) <= Remaining(m, src, t, b, max)
  {
    var x := if Opens(m, src, t) then t else m[src].start + SECOND;
    OpeningsMonotone(t, u, b);
    if x <= u {
      OpeningsMonotone(x, u, b);
      MulMonotone(Cap(max), Openings(u, b), Openings(x, b));
    }
  }

  lemma RemainingStep<K>(m: map<K, Window>, e: Event<K>, src: K, t: int, b: int, max: U32)
    requires t <= e.now && Sane(m, src, t, max)
    ensures Sane(After(m, e, max), src, e.now, max)
    ensures (if e.Call? && e.key == src && e.now <= b && Allows(m, src, e.now, max) then 1 else 0)
            + Remaining(After(m, e, max), src, e.now, b, max) <= Remaining(m, src, t, b, max)
  {
    RemainingMonotone(m, src, t, e.now, b, max);
    if e.Call? && e.key == src && e.now <= b {
      OpeningsMonotone(e.now, e.now, b);
      assert Cap(max) * (1 + Openings(e.now + SECOND, b)) == Cap(max) + Cap(max) * Openings(e.now + SECOND, b);
    }
  }

  lemma {:induction false} AcceptedWithin<K>(m: map<K, Window>, es: seq<Event<K>>, max: U32, src: K, a: int, t: int, b: int)
    requires Ordered(es) && (es != [] ==> t <= es[0].now)
    requires Sane(m, src, t, max)
    ensures Accepted(m, es, max, src, a, b) <= Remaining(m, src, t, b, max)
    decreases es
  {
    RemainingMonotone(m, src, t, t, b, max);
    if es == [] {
    } else {
      RemainingStep(m, es[0], src, t, b, max);
      AcceptedWithin(After(m, es[0], max), es[1..], max, src, a, es[0].now, b);
    }
  }

  /** The exact maximum over an interval of length `d`. */
  function Worst(max: U32, d: nat): nat {
    if d % SECOND == 0 then Cap(max) * (d / SECOND + 1) else Cap(max) * (d / SECOND + 2) - 1
  }

  lemma RemainingAtEntry<K>(m: map<K, Window>, src: K, t: int, a: int, b: int, max: U32)
    requires a <= t && a <= b
    requires src in m ==> m[src].start < a && 1 <= m[src].count <= Cap(max)
    ensures Remaining(m, src, t, b, max) <= Worst(max, b - a)
  {
    var d, c := b - a, Cap(max);
    if t <= b && Opens(m, src, t) {
      OpeningsMonotone(a, t, b);
      MulMonotone(c, Openings(t, b), d / SECOND + 1);
      assert c * (d / SECOND + 2) == c * (d / SECOND + 1) + c;
    } else if t <= b {
      var x := m[src].start + SECOND;
      OpeningsMonotone(a + 1, x, b);
      if d % SECOND == 0 {
        assert Openings(a + 1, b) <= d / SECOND;
        MulMonotone(c, Openings(x, b), d / SECOND);
        assert c * (d / SECOND + 1) == c * (d / SECOND) + c;
      } else {
        MulMonotone(c, Openings(x, b), d / SECOND + 1);
        assert c * (d / SECOND + 2) == c * (d / SECOND + 1) + c;
      }
    }
  }

  lemma {:induction false} AcceptedFrom<K>(m: map<K, Window>, es: seq<Event<K>>, max: U32, src: K, a: int, t: int, b: int)
    requires Ordered(es) && (es != [] ==> t <= es[0].now)
    requires t < a <= b && Sane(m, src, t, max)
    ensures Accepted(m, es, max, src, a, b) <= Worst(max, b - a)
    decreases es
  {
    if es == [] {
    } else {
      if es[0].now < a {
        RemainingStep(m, es[0], src, t, b, max);
        AcceptedFrom(After(m, es[0], max), es[1..], max, src, a, es[0].now, b);
      } else {
        RemainingAtEntry(m, src, es[0].now, a, b, max);
        AcceptedWithin(m, es, max, src, a, es[0].now, b);
      }
    }
  }

  /**
   * In any run of calls and sweeps, one source gets at most `Worst` relays through in any interval
   * [a, b], which is within max * (floor((b - a) / 1 s) + 2), whatever the other sources do.
   */
  lemma RelayBudget<K>(es: seq<Event<K>>, max: U32, src: K, a: int, b: int)
    requires Ordered(es) && a <= b
    ensures Accepted(map[], es, max, src, a, b) <= Worst(max, b - a) <= Cap(max) * ((b - a) / SECOND + 2)
  {
    var q := (b - a) / SECOND;
    MulMonotone(Cap(max), q + 1, q + 2);
    if es != [] {
      var t := if es[0].now < a then es[0].now else a - 1;
      AcceptedFrom(map[], es, max, src, a, t, b);
    }
  }

  /** A source whose first relay ever is at `a` gets at most max * (floor((b - a) / 1 s) + 1) through by `b`. */
  lemma {:induction false} FreshSourceBudget<K>(m: map<K, Window>, es: seq<Event<K>>, max: U32, src: K, a: int, b: int)
    requires Ordered(es) && a <= b && src !in m
    requires forall i :: 0 <= i < |es| && es[i].Call? && es[i].key == src ==> a <= es[i].now
    ensures Accepted(m, es, max, src, a, b) <= Cap(max) * ((b - a) / SECOND + 1)
    decreases es
  {
    if es == [] {
    } else {
      if es[0].now < a {
        FreshSourceBudget(After(m, es[0], max), es[1..], max, src, a, b);
      } else {
        AcceptedWithin(m, es, max, src, a, es[0].now, b);
        OpeningsMonotone(a, es[0].now, b);
        MulMonotone(Cap(max), Openings(es[0].now, b), (b - a) / SECOND + 1);
      }
    }
  }

  // ---- the bound is attained ----

  ghost function Burst<K>(src: K, t: int, n: nat): seq<Event<K>> {
    if n == 0 then [] else [Call(src, t)] + Burst(src, t, n - 1)
  }

  /** `k` full windows back to back, the first at `t`. */
  ghost function Peaks<K>(src: K, t: int, k: nat, max: U32): seq<Event<K>>
    decreases k
  {
    if k == 0 then [] else Burst(src, t, Cap(max)) + Peaks(src, t + SECOND, k - 1, max)
  }

  ghost predicate OrderedFrom<K>(es: seq<Event<K>>, t: int) {
    Ordered(es) && forall i :: 0 <= i < |es| ==> t <= es[i].now
  }

  lemma ConsOrdered<K>(e: Event<K>, rest: seq<Event<K>>)
    requires OrderedFrom(rest, e.now)
    ensures OrderedFrom([e] + rest, e.now)
  {
    var es := [e] + rest;
    forall i, j | 0 <= i < j < |es|
      ensures es[i].now <= es[j].now
    {
      assert es[j] == rest[j - 1];
      assert i > 0 ==> es[i] == rest[i - 1];
    }
  }

  lemma {:induction false} BurstOrdered<K>(src: K, t: int, n: nat, rest: seq<Event<K>>)
    requires OrderedFrom(rest, t)
    ensures OrderedFrom(Burst(src, t, n) + rest, t)
  {
    if n == 0 {
      assert Burst(src, t, n) + rest == rest;
    } else {
      BurstOrdered(src, t, n - 1, rest);
      ConsOrdered(Call(src, t), Burst(src, t, n - 1) + rest);
      assert Burst(src, t, n) + rest == [Call(src, t)] + (Burst(src, t, n - 1) + rest);
    }
  }

  lemma {:induction false} PeaksOrdered<K>(src: K, t: int, k: nat, max: U32)
    ensures OrderedFrom(Peaks(src, t, k, max), t)
    decreases k
  {
    if k == 0 {
    } else {
      PeaksOrdered(src, t + SECOND, k - 1, max);
      BurstOrdered(src, t, Cap(max), Peaks(src, t + SECOND, k - 1, max));
    }
  }

  lemma AcceptedCall<K>(m: map<K, Window>, src: K, t: int, rest: seq<Event<K>>, max: U32, a: int, b: int)
    ensures Accepted(m, [Call(src, t)] + rest, max, src, a, b) ==
            (if a <= t <= b && Allows(m, src, t, max) then 1 else 0) + Accepted(Called(m, src, t, max), rest, max, src, a, b)
  {
    assert ([Call(src, t)] + rest)[1..] == rest;
  }

  lemma {:induction false} BurstAccepted<K>(m: map<K, Window>, src: K, t: int, n: nat, rest: seq<Event<K>>, max: U32, a: int, b: int)
    requires src in m && t - m[src].start < SECOND && m[src].count + n <= Cap(max)
    requires n > 0 ==> a <= t <= b && max > 0
    ensures Accepted(m, Burst(src, t, n) + rest, max, src, a, b) ==
            n + Accepted(m[src := Window(m[src].start, m[src].count + n)], rest, max, src, a, b)
    decreases n
  {
    if n == 0 {
      assert Burst(src, t, n) + rest == rest;
      assert m[src := Window(m[src].start, m[src].count)] == m;
    } else {
      var more := Burst(src, t, n - 1) + rest;
      assert Burst(src, t, n) + rest == [Call(src, t)] + more;
      AcceptedCall(m, src, t, more, max, a, b);
      var one := m[src := Window(m[src].start, m[src].count + 1)];
      BurstAccepted(one, src, t, n - 1, rest, max, a, b);
      assert one[src := Window(m[src].start, m[src].count + n)] == m[src := Window(m[src].start, m[src].count + n)];
    }
  }

  /** A full window opened at `t`: everything in it is accepted. */
  lemma WindowAccepted<K>(m: map<K, Window>, src: K, t: int, rest: seq<Event<K>>, max: U32, a: int, b: int)
    requires Opens(m, src, t) && a <= t <= b
    ensures Accepted(m, Burst(src, t, Cap(max)) + rest, max, src, a, b) ==
            Cap(max) + Accepted(m[src := Window(t, Cap(max))], rest, max, src, a, b)
  {
    var more := Burst(src, t, Cap(max) - 1) + rest;
    assert Burst(src, t, Cap(max)) + rest == [Call(src, t)] + more;
    AcceptedCall(m, src, t, more, max, a, b);
    var one := m[src := Window(t, 1)];
    BurstAccepted(one, src, t, Cap(max) - 1, rest, max, a, b);
    assert one[src := Window(t, Cap(max))] == m[src := Window(t, Cap(max))];
  }

  lemma {:induction false} PeaksAccepted<K>(m: map<K, Window>, src: K, t: int, k: nat, max: U32, a: int, b: int)
    requires Opens(m, src, t) && a <= t && t + (k - 1) * SECOND <= b
    ensures Accepted(m, Peaks(src, t, k, max), max, src, a, b) == Cap(max) * k
    decreases k
  {
    if k == 0 {
    } else {
      WindowAccepted(m, src, t, Peaks(src, t + SECOND, k - 1, max), max, a, b);
      PeaksAccepted(m[src := Window(t, Cap(max))], src, t + SECOND, k - 1, max, a, b);
      MulSucc(Cap(max), k - 1);
    }
  }

  /** A window opened just before `a` if there is room for one, topped up at `a`, then full windows up to `b`. */
  ghost function WorstRun<K>(src: K, a: int, b: int, max: U32): seq<Event<K>>
    requires a <= b
  {
    var q, r := (b - a) / SECOND, (b - a) % SECOND;
    var peaks := Peaks(src, a + r, q + 1, max);
    if r == 0 then peaks else [Call(src, a + r - SECOND)] + (Burst(src, a, Cap(max) - 1) + peaks)
  }

  lemma WorstRunOrdered<K>(src: K, a: int, b: int, max: U32)
    requires a <= b
    ensures Ordered(WorstRun(src, a, b, max))
  {
    var q, r := (b - a) / SECOND, (b - a) % SECOND;
    PeaksOrdered(src, a + r, q + 1, max);
    if r != 0 {
      BurstOrdered(src, a, Cap(max) - 1, Peaks(src, a + r, q + 1, max));
      ConsOrdered(Call(src, a + r - SECOND), Burst(src, a, Cap(max) - 1) + Peaks(src, a + r, q + 1, max));
    }
  }

  /** A window opened before `a` and topped up at `a`: all but its opener are accepted within [a, b]. */
  lemma OpenerAccepted<K>(src: K, opener: int, rest: seq<Event<K>>, max: U32, a: int, b: int)
    requires opener < a <= b && a - opener < SECOND
    ensures Accepted(map[], [Call(src, opener)] + (Burst(src, a, Cap(max) - 1) + rest), max, src, a, b) ==
            Cap(max) - 1 + Accepted(map[src := Window(opener, Cap(max))], rest, max, src, a, b)
  {
    var m: map<K, Window> := map[src := Window(opener, 1)];
    AcceptedCall(map[], src, opener, Burst(src, a, Cap(max) - 1) + rest, max, a, b);
    assert Called(map[], src, opener, max) == m;
    BurstAccepted(m, src, a, Cap(max) - 1, rest, max, a, b);
    assert m[src := Window(opener, Cap(max))] == map[src := Window(opener, Cap(max))];
  }

  lemma OffsetRunAccepted<K>(src: K, a: int, b: int, max: U32)
    requires a <= b && (b - a) % SECOND != 0
    ensures Accepted(map[], WorstRun(src, a, b, max), max, src, a, b) == Cap(max) * ((b - a) / SECOND + 2) - 1
  {
    var c, q, r := Cap(max), (b - a) / SECOND, (b - a) % SECOND;
    OpenerAccepted(src, a + r - SECOND, Peaks(src, a + r, q + 1, max), max, a, b);
    PeaksAccepted(map[src := Window(a + r - SECOND, c)], src, a + r, q + 1, max, a, b);
    MulSucc(c, q + 1);
  }

  /** For every budget and every interval this run gets exactly `Worst` relays through: no smaller bound holds. */
  lemma RelayBudgetTight<K>(src: K, a: int, b: int, max: U32)
    requires a <= b
    ensures Ordered(WorstRun(src, a, b, max))
    ensures Accepted(map[], WorstRun(src, a, b, max), max, src, a, b) == Worst(max, b - a)
  {
    WorstRunOrdered(src, a, b, max);
    if (b - a) % SECOND == 0 {
      PeaksAccepted(map[], src, a, (b - a) / SECOND + 1, max, a, b);
    } else {
      OffsetRunAccepted(src, a, b, max);
    }
  }

  // ---- sources do not disturb each other ----

  /** The run without the calls of other sources. */
  ghost function Only<K>(es: seq<Event<K>>, src: K): seq<Event<K>> {
    if es == [] then [] else (if es[0].Call? && es[0].key != src then [] else [es[0]]) + Only(es[1..], src)
  }

  ghost predicate SameWindow<K>(m: map<K, Window>, n: map<K, Window>, src: K) {
    (src in m <==> src in n) && (src in m ==> m[src] == n[src])
  }

  /** What one source gets through in any interval does not depend on what the others send. */
  lemma {:induction false} OthersInvisible<K>(m: map<K, Window>, n: map<K, Window>, es: seq<Event<K>>, max: U32, src: K, a: int, b: int)
    requires SameWindow(m, n, src)
    ensures Accepted(m, es, max, src, a, b) == Accepted(n, Only(es, src), max, src, a, b)
    decreases es
  {
    if es == [] {
    } else {
      var e, rest := es[0], es[1..];
      if e.Call? && e.key != src {
        assert Only(es, src) == Only(rest, src);
        OthersInvisible(After(m, e, max), n, rest, max, src, a, b);
      } else {
        assert Only(es, src) == [e] + Only(rest, src) && ([e] + Only(rest, src))[1..] == Only(rest, src);
        OthersInvisible(After(m, e, max), After(n, e, max), rest, max, src, a, b);
      }
    }
  }
}
