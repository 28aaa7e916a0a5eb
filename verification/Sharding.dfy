/**
 * A map split across shards by a home function, and the single map it stands for.
 * The node table (64 shards) and the three rate limiters (256 shards) are all of this shape.
 */
module Sharding {
  import opened Base

  ghost predicate Homes<K(!new)>(home: K -> int, n: nat) {
    forall k :: 0 <= home(k) < n
  }

  /** Every key sits only in its home shard. */
  ghost predicate Homed<K, V>(shards: seq<map<K, V>>, home: K -> int) {
    forall i :: 0 <= i < |shards| ==> forall k :: k in shards[i] ==> home(k) == i
  }

  ghost function AllKeys<K, V>(shards: seq<map<K, V>>): set<K> {
    set i, k | 0 <= i < |shards| && k in shards[i] :: k
  }

  /** The single map: the union of the shards. */
  ghost function Flat<K, V>(shards: seq<map<K, V>>, home: K -> int): map<K, V>
    requires Homed(shards, home)
  {
    map k | k in AllKeys(shards) :: shards[home(k)][k]
  }

  /** The entries that satisfy `keep`. */
  ghost function Keep<K, V>(m: map<K, V>, keep: V -> bool): map<K, V> {
    map k | k in m && keep(m[k]) :: m[k]
  }

  ghost function TotalSize<K, V>(shards: seq<map<K, V>>): nat {
    if shards == [] then 0 else TotalSize(shards[..|shards| - 1]) + |shards[|shards| - 1]|
  }

  lemma FlatLookup<K(!new), V>(shards: seq<map<K, V>>, home: K -> int, k: K)
    requires Homes(home, |shards|) && Homed(shards, home)
    ensures k in Flat(shards, home) <==> k in shards[home(k)]
    ensures k in shards[home(k)] ==> Flat(shards, home)[k] == shards[home(k)][k]
  {
  }

  lemma FlatPut<K(!new), V>(shards: seq<map<K, V>>, home: K -> int, k: K, v: V)
    requires Homes(home, |shards|) && Homed(shards, home)
    ensures var next := shards[home(k) := shards[home(k)][k := v]];
            Homed(next, home) && Flat(next, home) == Flat(shards, home)[k := v]
  {
    var next := shards[home(k) := shards[home(k)][k := v]];
    assert Homed(next, home);
    var was, now := Flat(shards, home), Flat(next, home);
    forall x
      ensures x in now <==> x == k || x in was
      ensures x in now ==> now[x] == was[k := v][x]
    {
      FlatLookup(shards, home, x);
      FlatLookup(next, home, x);
    }
  }

  lemma FlatKeep<K(!new), V>(shards: seq<map<K, V>>, next: seq<map<K, V>>, home: K -> int, keep: V -> bool)
    requires Homes(home, |shards|) && Homed(shards, home)
    requires |next| == |shards|
    requires forall i :: 0 <= i < |shards| ==> next[i] == Keep(shards[i], keep)
    ensures Homed(next, home) && Flat(next, home) == Keep(Flat(shards, home), keep)
  {
    assert Homed(next, home);
    forall x
      ensures x in Flat(next, home) <==> x in Keep(Flat(shards, home), keep)
    {
      FlatLookup(shards, home, x);
      FlatLookup(next, home, x);
    }
    assert Flat(next, home).Keys == Keep(Flat(shards, home), keep).Keys;
  }

  lemma AllKeysSplit<K(!new), V>(shards: seq<map<K, V>>)
    requires shards != []
    ensures AllKeys(shards) == AllKeys(shards[..|shards| - 1]) + shards[|shards| - 1].Keys
  {
    var n := |shards| - 1;
    forall k
      ensures k in AllKeys(shards) <==> k in AllKeys(shards[..n]) || k in shards[n]
    {
      if k in AllKeys(shards) {
        var i :| 0 <= i < |shards| && k in shards[i];
        assert i < n ==> k in shards[..n][i];
      }
      if k in AllKeys(shards[..n]) {
        var i :| 0 <= i < n && k in shards[..n][i];
        assert k in shards[i];
      }
    }
  }

  lemma {:induction false} AllKeysSize<K(!new), V>(shards: seq<map<K, V>>, home: K -> int)
    requires Homed(shards, home)
    ensures |AllKeys(shards)| == TotalSize(shards)
  {
    if shards == [] {
      assert AllKeys(shards) == {};
    } else {
      var n := |shards| - 1;
      AllKeysSize(shards[..n], home);
      AllKeysSplit(shards);
      assert AllKeys(shards[..n]) !! shards[n].Keys;
      assert |shards[n]| == |shards[n].Keys|;
    }
  }

  /** The shard sizes add up to the size of the union. */
  lemma FlatSize<K(!new), V>(shards: seq<map<K, V>>, home: K -> int)
    requires Homed(shards, home)
    ensures |Flat(shards, home)| == TotalSize(shards)
  {
    AllKeysSize(shards, home);
    assert Flat(shards, home).Keys == AllKeys(shards);
    assert |Flat(shards, home)| == |Flat(shards, home).Keys|;
  }

  lemma {:induction false} TotalSizeUpdate<K, V>(shards: seq<map<K, V>>, i: nat, m: map<K, V>)
    requires i < |shards|
    ensures TotalSize(shards[i := m]) == TotalSize(shards) - |shards[i]| + |m|
  {
    var n := |shards| - 1;
    if i == n {
      assert shards[i := m][..n] == shards[..n];
    } else {
      TotalSizeUpdate(shards[..n], i, m);
      assert shards[i := m][..n] == shards[..n][i := m];
    }
  }

  /** Walks one shard and deletes what is not to be kept, counting the deletions. */
  method SweepShard<K, V>(m: map<K, V>, keep: V -> bool) returns (kept: map<K, V>, removed: nat)
    ensures kept == Keep(m, keep)
    ensures removed == |m| - |kept|
  {
    kept, removed := m, 0;
    var todo := m.Keys;
    while todo != {}
      invariant todo <= m.Keys
      invariant kept.Keys <= m.Keys && todo <= kept.Keys
      invariant forall k :: k in kept ==> kept[k] == m[k]
      invariant forall k :: k in m && k !in todo ==> (k in kept <==> keep(m[k]))
      invariant removed == |m| - |kept|
      decreases todo
    {
      var k :| k in todo;
      todo := todo - {k};
      if !keep(m[k]) {
        ghost var before := kept;
        kept := kept - {k};
        assert before.Keys == kept.Keys + {k};
        assert |kept| == |kept.Keys| && |before| == |before.Keys|;
        removed := removed + 1;
      }
    }
    assert kept.Keys == Keep(m, keep).Keys;
  }
}
