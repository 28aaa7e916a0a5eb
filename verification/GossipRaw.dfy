/**
 * The routing table over whole runs of raw messages, well-formed or not, from anyone, with strict gossip on or off and
 * the peer list changing: what gets in, and what the table means then.
 */
module GossipRaw {
  import opened Base
  import opened Address
  import opened Wire
  import opened Gossip
  import opened GossipHistory

  /** A received body with its source, the strict flag and the peer list of that moment; or a local change or a sweep. */
  datatype Raw =
    | Body(data: Bytes, remote: Addr, strict: bool, peers: seq<Addr>, now: int)
    | Change(held: set<U32>)
    | Expire(cutoff: int)

  ghost predicate SomePeerHasIP(peers: seq<Addr>, ip: Bytes) {
    exists p :: p in peers && IPEqual(p.ip, ip)
  }

  /** The body is a whole sync, and strict gossip is off or some peer has the source's IP. */
  ghost predicate Accepted(r: Raw) {
    r.Body? && ParseSync(r.data).Some? && (r.strict ==> SomePeerHasIP(r.peers, r.remote.ip))
  }

  ghost function Understood(r: Raw): GossipHistory.Event {
    match r
    case Body(data, remote, _, _, now) =>
      if Accepted(r) then GossipHistory.Event.Sync(remote, ParseSync(data).value.ids, now) else Ignored
    case Change(held) => Local(held)
    case Expire(cutoff) => Sweep(cutoff)
  }

  ghost function AllUnderstood(rs: seq<Raw>): seq<GossipHistory.Event> {
    seq(|rs|, i requires 0 <= i < |rs| => Understood(rs[i]))
  }

  ghost function HeldAt(rs: seq<Raw>, k: nat): set<U32>
    requires k <= |rs|
  {
    if k == 0 then {} else if rs[k - 1].Change? then rs[k - 1].held else HeldAt(rs, k - 1)
  }

  /** The table after the server has handled the first `k` raw messages. */
  ghost function RawAt(rs: seq<Raw>, k: nat): State
    requires k <= |rs|
  {
    if k == 0 then State(map[], map[]) else
    var s, r := RawAt(rs, k - 1), rs[k - 1];
    match r
    case Body(data, remote, strict, peers, now) => Handled(s, data, remote, strict, peers, HeldAt(rs, k - 1), now)
    case Change(_) => s
    case Expire(cutoff) => Swept(s, cutoff)
  }

  lemma {:induction false} HeldIsLocal(rs: seq<Raw>, k: nat)
    requires k <= |rs|
    ensures LocalAt(AllUnderstood(rs), k) == HeldAt(rs, k)
  {
    if k == 0 {
    } else {
      HeldIsLocal(rs, k - 1);
    }
  }

  /** Handling raw messages is handling the accepted ones: short, truncated and (strict) foreign ones leave no trace. */
  lemma {:induction false} RawIsUnderstood(rs: seq<Raw>, k: nat)
    requires k <= |rs|
    ensures RawAt(rs, k) == At(AllUnderstood(rs), k)
  {
    if k == 0 {
    } else {
      RawIsUnderstood(rs, k - 1);
      HeldIsLocal(rs, k - 1);
      var r := rs[k - 1];
      if r.Body? {
        KnownIffIP(r.peers, r.remote);
      }
    }
  }

  lemma KnownIffIP(peers: seq<Addr>, remote: Addr)
    ensures KnownPeer(peers, remote) <==> SomePeerHasIP(peers, remote.ip)
  {
    if SomePeerHasIP(peers, remote.ip) {
      var p :| p in peers && IPEqual(p.ip, remote.ip);
      var i :| 0 <= i < |peers| && peers[i] == p;
    }
  }

  /** An accepted raw message that lists `id` while it is not registered here. */
  ghost predicate Announces(rs: seq<Raw>, i: nat, id: U32)
    requires i < |rs|
  {
    Accepted(rs[i]) && id in ParseSync(rs[i].data).value.ids && id !in HeldAt(rs, i)
  }

  /** Message `i` is the latest accepted one from its source, and no sweep since has expired it. */
  ghost predicate Latest(rs: seq<Raw>, k: nat, i: nat)
    requires k <= |rs|
  {
    && i < k && Accepted(rs[i])
    && (forall j :: i < j < k && Accepted(rs[j]) ==> KeyOf(rs[j].remote) != KeyOf(rs[i].remote))
    && (forall j :: i < j < k && rs[j].Expire? ==> rs[j].cutoff <= rs[i].now)
  }

  lemma LatestIsCurrent(rs: seq<Raw>, k: nat, i: nat)
    requires k <= |rs|
    ensures Latest(rs, k, i) <==> Current(AllUnderstood(rs), k, i)
  {
    var es := AllUnderstood(rs);
    if i < k && Accepted(rs[i]) {
      forall j: nat | j < k
        ensures SyncsFrom(es[j], KeyOf(es[i].remote)) <==> Accepted(rs[j]) && KeyOf(rs[j].remote) == KeyOf(rs[i].remote)
      {
      }
    }
  }

  /** ... and also the latest, from any source, to announce `id`. */
  ghost predicate Owns(rs: seq<Raw>, k: nat, id: U32, i: nat)
    requires k <= |rs|
  {
    Latest(rs, k, i) && Announces(rs, i, id) && forall j :: i < j < k ==> !Announces(rs, j, id)
  }

  lemma OwnsIsCarries(rs: seq<Raw>, k: nat, id: U32, i: nat)
    requires k <= |rs|
    ensures Owns(rs, k, id, i) <==> Carries(AllUnderstood(rs), k, id, i)
  {
    LatestIsCurrent(rs, k, i);
    forall j: nat | j < k
      ensures Publishes(AllUnderstood(rs), j, id) <==> Announces(rs, j, id)
    {
      HeldIsLocal(rs, j);
    }
  }

  /**
   * In every run of raw messages `id` is routed to `a` if and only if the latest accepted message to announce it came
   * from `a`, and that source has had no other accepted since and has not expired.
   */
  lemma {:induction false} RawRouteMeaning(rs: seq<Raw>, k: nat, id: U32, a: Addr)
    requires k <= |rs|
    ensures (id in RawAt(rs, k).routes && RawAt(rs, k).routes[id] == a) <==>
            (exists i: nat :: Owns(rs, k, id, i) && rs[i].remote == a)
  {
    var es := AllUnderstood(rs);
    RawIsUnderstood(rs, k);
    RouteMeaning(es, k, id, a);
    forall i: nat
      ensures Owns(rs, k, id, i) <==> Carries(es, k, id, i)
      ensures Owns(rs, k, id, i) ==> es[i].Sync? && es[i].remote == rs[i].remote
    {
      OwnsIsCarries(rs, k, id, i);
    }
  }

  /** The last-heard map holds exactly the latest accepted, unexpired message of each source. */
  lemma {:induction false} RawSeenMeaning(rs: seq<Raw>, k: nat, key: Key, t: int)
    requires k <= |rs|
    ensures (key in RawAt(rs, k).seen && RawAt(rs, k).seen[key] == t) <==>
            (exists i: nat :: Latest(rs, k, i) && KeyOf(rs[i].remote) == key && rs[i].now == t)
  {
    var es := AllUnderstood(rs);
    RawIsUnderstood(rs, k);
    SeenMeaning(es, k, key, t);
    forall i: nat
      ensures Latest(rs, k, i) <==> Current(es, k, i)
      ensures Latest(rs, k, i) ==> es[i].Sync? && es[i].remote == rs[i].remote && es[i].now == rs[i].now
    {
      LatestIsCurrent(rs, k, i);
    }
  }

  /**
   * Strict gossip does its job: any source in the routes or in the last-heard map sent a whole sync at a moment when
   * strict gossip was off or some peer had its IP.
   */
  lemma {:induction false} SourcesWereAdmitted(rs: seq<Raw>, k: nat, key: Key)
    requires k <= |rs|
    requires key in RawAt(rs, k).seen || exists id :: id in RawAt(rs, k).routes && KeyOf(RawAt(rs, k).routes[id]) == key
    ensures exists i: nat :: i < k && Accepted(rs[i]) && KeyOf(rs[i].remote) == key
  {
    if key in RawAt(rs, k).seen {
      RawSeenMeaning(rs, k, key, RawAt(rs, k).seen[key]);
    } else {
      var id :| id in RawAt(rs, k).routes && KeyOf(RawAt(rs, k).routes[id]) == key;
      RawRouteMeaning(rs, k, id, RawAt(rs, k).routes[id]);
    }
  }

  /** A body is taken in, and its source stamped, if and only if it is accepted; otherwise nothing changes at all. */
  lemma AcceptedIff(rs: seq<Raw>, k: nat)
    requires k < |rs| && rs[k].Body?
    ensures Accepted(rs[k]) ==> KeyOf(rs[k].remote) in RawAt(rs, k + 1).seen
                                && RawAt(rs, k + 1).seen[KeyOf(rs[k].remote)] == rs[k].now
    ensures !Accepted(rs[k]) ==> RawAt(rs, k + 1) == RawAt(rs, k)
  {
    KnownIffIP(rs[k].peers, rs[k].remote);
  }
}
