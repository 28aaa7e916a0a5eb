/** Datagram addresses: how the beacon compares them, names them and charges relay budgets to them. */
module Address {
  import opened Base

  /** `net.UDPAddr` without the IPv6 zone. `ip` has 4 or 16 bytes for every address a socket reports. */
  datatype Addr = Addr(ip: Bytes, port: int)

  /** The identity of an address: one value for an IPv4 address and its IPv4-mapped form. */
  datatype Key = Key(ip: Bytes, port: int)

  /** ::ffff:0:0/96, section 2.5.5.2 of RFC 4291. */
  const V4_IN_V6: Bytes := [0, 0, 0, 0, 0, 0, 0, 0, 0, 0, 0xff, 0xff]

  function Canonical(ip: Bytes): Bytes {
    if |ip| == 4 then V4_IN_V6 + ip else ip
  }

  /** What `UDPAddr.String()` distinguishes. */
  function KeyOf(a: Addr): Key {
    Key(Canonical(a.ip), a.port)
  }

  /** `net.IP.Equal`: byte equality, with a 4-byte address equal to its 16-byte mapped form. */
  predicate IPEqual(a: Bytes, b: Bytes) {
    if |a| == |b| then a == b
    else if |a| == 4 && |b| == 16 then b[..12] == V4_IN_V6 && a == b[12..]
    else if |a| == 16 && |b| == 4 then a[..12] == V4_IN_V6 && b == a[12..]
    else false
  }

  /** The comparison that `handleSync` makes before it drops a source's old routes. */
  predicate SameEndpoint(a: Addr, b: Addr) {
    IPEqual(a.ip, b.ip) && a.port == b.port
  }

  /** The two notions of "same source" in the gossip code, field comparison and string key, agree. */
  lemma EndpointIsKey(a: Addr, b: Addr)
    ensures SameEndpoint(a, b) <==> KeyOf(a) == KeyOf(b)
  {
    var x, y := a.ip, b.ip;
    assert |x| == 4 ==> Canonical(x)[12..] == x && Canonical(x)[..12] == V4_IN_V6;
    assert |y| == 4 ==> Canonical(y)[12..] == y && Canonical(y)[..12] == V4_IN_V6;
    if |x| == 4 && |y| == 16 {
      assert y == y[..12] + y[12..];
    } else if |x| == 16 && |y| == 4 {
      assert x == x[..12] + x[12..];
    }
  }

  /** The transport-level origin of a relay frame. */
  datatype SourceKey = SourceKey(ip: Bytes, port: U16, node: U32, bridged: bool)

  const ZERO_IP: Bytes := [0, 0, 0, 0, 0, 0, 0, 0, 0, 0, 0, 0, 0, 0, 0, 0]

  function SourceOfUDP(remote: Option<Addr>): SourceKey {
    match remote
    case None => SourceKey(ZERO_IP, 0, 0, false)
    case Some(a) =>
      SourceKey(if |a.ip| == 4 || |a.ip| == 16 then Canonical(a.ip) else ZERO_IP, a.port % 0x1_0000, 0, false)
  }

  function SourceOfBridge(peer: U32): SourceKey {
    SourceKey(ZERO_IP, 0, peer, true)
  }

  /** The budget a relay frame is charged to: the bridge-authenticated id when there is one. */
  function SourceOf(remote: Option<Addr>, bridgePeer: U32): SourceKey {
    if bridgePeer != 0 then SourceOfBridge(bridgePeer) else SourceOfUDP(remote)
  }

  /** Builds the key byte by byte in a 16-byte array, as the hot path does. */
  method RelaySourceForUDP(remote: Option<Addr>) returns (k: SourceKey)
    ensures k == SourceOfUDP(remote)
  {
    if remote.None? {
      return SourceKey(ZERO_IP, 0, 0, false);
    }
    var ip := remote.value.ip;
    var key := new Byte[16](_ => 0);
    assert key[..] == ZERO_IP;
    if |ip| == 4 {
      key[10], key[11] := 0xff, 0xff;
      for i := 0 to 4
        invariant key[..12] == V4_IN_V6
        invariant forall j :: 0 <= j < i ==> key[12 + j] == ip[j]
      {
        key[12 + i] := ip[i];
      }
      assert key[..] == V4_IN_V6 + ip;
    } else if |ip| == 16 {
      for i := 0 to 16
        invariant forall j :: 0 <= j < i ==> key[j] == ip[j]
      {
        key[i] := ip[i];
      }
      assert key[..] == ip;
    }
    k := SourceKey(key[..], remote.value.port % 0x1_0000, 0, false);
  }

  ghost predicate Observed(a: Addr) {
    (|a.ip| == 4 || |a.ip| == 16) && 0 <= a.port < 0x1_0000
  }

  /**
   * Two frames share a budget exactly when they come from the same bridge peer, or from the
   * same observed endpoint; a bridged frame never shares one with a datagram.
   */
  lemma BudgetPerTransportSource(r1: Addr, p1: U32, r2: Addr, p2: U32)
    requires Observed(r1) && Observed(r2)
    ensures SourceOf(Some(r1), p1) == SourceOf(Some(r2), p2) <==>
            p1 == p2 && (p1 == 0 ==> SameEndpoint(r1, r2))
  {
    EndpointIsKey(r1, r2);
  }
}
