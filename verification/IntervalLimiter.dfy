/**
 * The minimum-interval limiters: discovers per node id, punches per source address.
 * A call reads the clock twice, once to compare (`check`) and once to record (`stamp`).
 */
module IntervalLimiter {
  import opened Base
  import opened Sharding

  const SHARDS := 256
  const DISCOVER_INTERVAL := 30 * SECOND
  const DISCOVER_SWEEP_AGE := 2 * DISCOVER_INTERVAL
  const PUNCH_INTERVAL := SECOND
  const PUNCH_SWEEP_AGE := 5 * MINUTE

  predicate Allows<K>(last: map<K, int>, k: K, interval: int, check: int) {
    k in last ==> check - last[k] >= interval
  }

  function Called<K>(last: map<K, int>, k: K, interval: int, check: int, stamp: int): map<K, int> {
    if Allows(last, k, interval, check) then last[k := stamp] else last
  }

  ghost function Swept<K>(last: map<K, int>, cutoff: int): map<K, int> {
    Keep(last, t => t >= cutoff)
  }

  /** `discoverRateLimiter` and `punchRateLimiter`, for any hash that picks the shard. */
  class Limiter<K(==, !new)> {
    const shards: array<map<K, int>>
    const home: K -> int

    ghost predicate Valid()
      reads shards
    {
      Homes(home, shards.Length) && Homed(shards[..], home)
    }

    /** The single key-to-time map the shards stand for. */
    ghost function Last(): map<K, int>
      requires Valid()
      reads shards
    {
      Flat(shards[..], home)
    }

    constructor (home: K -> int)
      requires Homes(home, SHARDS)
      ensures Valid() && Last() == map[] && fresh(shards) && this.home == home
    {
      shards := new map<K, int>[SHARDS](_ => map[]);
      this.home := home;
    }

    method Allow(k: K, interval: int, check: int, stamp: int) returns (ok: bool)
      requires Valid()
      modifies shards
      ensures Valid()
      ensures ok == Allows(old(Last()), k, interval, check)
      ensures Last() == Called(old(Last()), k, interval, check, stamp)
    {
      FlatLookup(shards[..], home, k);
      var sh := home(k);
      var m := shards[sh];
      if k in m && check - m[k] < interval {
        return false;
      }
      FlatPut(shards[..], home, k, stamp);
      ghost var before := shards[..];
      shards[sh] := m[k := stamp];
      assert shards[..] == before[sh := m[k := stamp]];
      return true;
    }

    method Sweep(cutoff: int)
      requires Valid()
      modifies shards
      ensures Valid() && Last() == Swept(old(Last()), cutoff)
    {
      var keep := (t: int) => t >= cutoff;
      ghost var before := shards[..];
      for i := 0 to shards.Length
        invariant forall j :: 0 <= j < i ==> shards[j] == Keep(before[j], keep)
        invariant forall j :: i <= j < shards.Length ==> shards[j] == before[j]
      {
        var kept, _ := SweepShard(shards[i], keep);
        shards[i] := kept;
      }
      FlatKeep(before, shards[..], home, keep);
      assert Keep(Flat(before, home), keep) == Swept(Flat(before, home), cutoff);
    }
  }

  // ---- whole runs ----

  datatype Event<K> = Call(key: K, check: int, stamp: int) | Sweep(now: int)

  function Begins<K>(e: Event<K>): int {
    match e case Call(_, check, _) => check case Sweep(now) => now
  }

  function Ends<K>(e: Event<K>): int {
    match e case Call(_, _, stamp) => stamp case Sweep(now) => now
  }

  /** Clock readings never go backwards. */
  ghost predicate Ordered<K>(es: seq<Event<K>>) {
    && (forall i :: 0 <= i < |es| ==> Begins(es[i]) <= Ends(es[i]))
    && (forall i, j :: 0 <= i < j < |es| ==> Ends(es[i]) <= Begins(es[j]))
  }

  ghost function NoSweeps<K>(es: seq<Event<K>>): seq<Event<K>> {
    if es == [] then [] else (if es[0].Call? then [es[0]] else []) + NoSweeps(es[1..])
  }

  /** The allow/deny answers of a run whose sweeps remove entries older than `age`. */
  ghost function Answers<K>(last: map<K, int>, es: seq<Event<K>>, interval: int, age: int): seq<bool>
    decreases es
  {
    if es == [] then [] else
    match es[0]
    case Call(k, check, stamp) =>
      [Allows(last, k, interval, check)] + Answers(Called(last, k, interval, check, stamp), es[1..], interval, age)
    case Sweep(now) =>
      Answers(Swept(last, now - age), es[1..], interval, age)
  }

  lemma FirstEvent<K>(last: map<K, int>, e: Event<K>, rest: seq<Event<K>>, interval: int, age: int)
    ensures NoSweeps([e] + rest) == (if e.Call? then [e] else []) + NoSweeps(rest)
    ensures e.Call? ==>
              Answers(last, [e] + rest, interval, age) ==
              [Allows(last, e.key, interval, e.check)]
              + Answers(Called(last, e.key, interval, e.check, e.stamp), rest, interval, age)
    ensures e.Sweep? ==> Answers(last, [e] + rest, interval, age) == Answers(Swept(last, e.now - age), rest, interval, age)
  {
    assert ([e] + rest)[1..] == rest;
  }

  /** `small` is `full` minus entries that no call at or after `now` would be refused by. */
  ghost predicate Expired<K>(small: map<K, int>, full: map<K, int>, now: int, interval: int) {
    && (forall k :: k in small ==> k in full && small[k] == full[k])
    && (forall k :: k in full && k !in small ==> now - full[k] >= interval)
  }

  lemma {:induction false} AnswersAgree<K(!new)>(small: map<K, int>, full: map<K, int>, es: seq<Event<K>>,
                                                 now: int, interval: int, age: int)
    requires interval <= age + 1
    requires Expired(small, full, now, interval) && Ordered(es)
    requires es != [] ==> now <= Begins(es[0])
    ensures Answers(small, es, interval, age) == Answers(full, NoSweeps(es), interval, age)
    decreases es
  {
    if es == [] {
    } else {
      var e, rest := es[0], es[1..];
      assert es == [e] + rest;
      FirstEvent(small, e, rest, interval, age);
      if e.Call? {
        FirstEvent(full, e, NoSweeps(rest), interval, age);
        AnswersAgree(Called(small, e.key, interval, e.check, e.stamp), Called(full, e.key, interval, e.check, e.stamp),
                     rest, e.stamp, interval, age);
      } else {
        assert NoSweeps(es) == NoSweeps(rest);
        AnswersAgree(Swept(small, e.now - age), full, rest, e.now, interval, age);
      }
    }
  }

  /** A run over any calls and sweeps gives the same answers as the calls alone. */
  lemma SweepInvisible<K(!new)>(es: seq<Event<K>>, interval: int, age: int)
    requires interval <= age + 1 && Ordered(es)
    ensures Answers(map[], es, interval, age) == Answers(map[], NoSweeps(es), interval, age)
  {
    if es != [] {
      AnswersAgree(map[], map[], es, Begins(es[0]), interval, age);
    }
  }

  lemma OnlyCall<K>(last: map<K, int>, c: Event<K>, interval: int, age: int)
    requires c.Call?
    ensures NoSweeps([c]) == [c] && Answers(last, [c], interval, age) == [Allows(last, c.key, interval, c.check)]
  {
    FirstEvent(last, c, [], interval, age);
    assert [c] + [] == [c];
  }

  lemma ThreeSteps<K>(last: map<K, int>, a: Event<K>, b: Event<K>, c: Event<K>, interval: int, age: int)
    requires a.Call? && b.Sweep? && c.Call?
    ensures var one := Called(last, a.key, interval, a.check, a.stamp);
            && NoSweeps([a, b, c]) == [a, c]
            && Answers(last, [a, b, c], interval, age) ==
               [Allows(last, a.key, interval, a.check), Allows(Swept(one, b.now - age), c.key, interval, c.check)]
            && Answers(last, [a, c], interval, age) ==
               [Allows(last, a.key, interval, a.check), Allows(one, c.key, interval, c.check)]
  {
    var one := Called(last, a.key, interval, a.check, a.stamp);
    OnlyCall(one, c, interval, age);
    OnlyCall(Swept(one, b.now - age), c, interval, age);
    assert [b] + [c] == [b, c];
    FirstEvent(one, b, [c], interval, age);
    assert NoSweeps([b, c]) == [c];
    assert [a] + [c] == [a, c];
    FirstEvent(last, a, [c], interval, age);
    assert [a] + [b, c] == [a, b, c];
    FirstEvent(last, a, [b, c], interval, age);
  }

  /** Nothing less would do: sweeping is invisible in every run exactly when entries outlive the interval. */
  lemma SweepInvisibleIff<K(!new)>(k: K, interval: int, age: nat)
    ensures (forall es: seq<Event<K>> :: Ordered(es) ==>
               Answers(map[], es, interval, age) == Answers(map[], NoSweeps(es), interval, age))
            <==> interval <= age + 1
  {
    if interval <= age + 1 {
      forall es: seq<Event<K>> | Ordered(es)
        ensures Answers(map[], es, interval, age) == Answers(map[], NoSweeps(es), interval, age)
      {
        SweepInvisible(es, interval, age);
      }
    } else {
      // Two calls age + 1 apart with a sweep between them: refused without the sweep, allowed with it.
      var a, b, c: Event<K> := Call(k, 0, 0), Event.Sweep(age + 1), Call(k, age + 1, age + 1);
      assert Ordered([a, b, c]);
      ThreeSteps(map[], a, b, c, interval, age);
      assert Answers(map[], [a, b, c], interval, age)[1] != Answers(map[], [a, c], interval, age)[1];
    }
  }

  /** Both limiters, with the sweeps `reapStaleNodes` performs. */
  lemma ReaperSweepsInvisible<K(!new)>(es: seq<Event<K>>)
    requires Ordered(es)
    ensures Answers(map[], es, DISCOVER_INTERVAL, DISCOVER_SWEEP_AGE) ==
            Answers(map[], NoSweeps(es), DISCOVER_INTERVAL, DISCOVER_SWEEP_AGE)
    ensures Answers(map[], es, PUNCH_INTERVAL, PUNCH_SWEEP_AGE) == Answers(map[], NoSweeps(es), PUNCH_INTERVAL, PUNCH_SWEEP_AGE)
  {
    SweepInvisible(es, DISCOVER_INTERVAL, DISCOVER_SWEEP_AGE);
    SweepInvisible(es, PUNCH_INTERVAL, PUNCH_SWEEP_AGE);
  }
}
