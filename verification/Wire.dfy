/** The messages of a beacon: gossip syncs, relay frames and the reply to a discover. */
module Wire {
  import opened Base
  import opened Address

  // The protocol package that numbers the message types is not part of this model;
  // all that matters here is that the values differ.
  const MSG_DISCOVER_REPLY: Byte := 2
  const MSG_RELAY: Byte := 5
  const MSG_RELAY_DELIVER: Byte := 6
  const MSG_SYNC: Byte := 7
  const MSG_RELAY_DELIVER_DEST: Byte := 9

  const MAX_SYNC_IDS := 65535

  // ---- gossip sync: [type][beacon id, 4][count, 2][node id, 4]* ----

  datatype Sync = Sync(beacon: U32, ids: seq<U32>)

  /** A sender lists at most 65535 ids. */
  function Cut(ids: seq<U32>): seq<U32> {
    if |ids| > MAX_SYNC_IDS then ids[..MAX_SYNC_IDS] else ids
  }

  function IdBytes(ids: seq<U32>): Bytes
  {
    if ids == [] then [] else IdBytes(ids[..|ids| - 1]) + PutU32(ids[|ids| - 1])
  }

  function SyncBody(beacon: U32, ids: seq<U32>): Bytes
    requires |ids| <= MAX_SYNC_IDS
  {
    PutU32(beacon) + PutU16(|ids|) + IdBytes(ids)
  }

  function SyncFrame(beacon: U32, ids: seq<U32>): Bytes {
    [MSG_SYNC] + SyncBody(beacon, Cut(ids))
  }

  /** `data` is the frame after its type byte. Trailing bytes are ignored. */
  function ParseSync(data: Bytes): Option<Sync> {
    if |data| < 6 then None else
    var count := GetU16(data[4..6]);
    if |data| < 6 + 4 * count then None else
    Some(Sync(GetU32(data[..4]), seq(count, i requires 0 <= i < count => GetU32(data[6 + 4 * i..10 + 4 * i]))))
  }

  lemma {:induction false} IdBytesAt(ids: seq<U32>)
    ensures |IdBytes(ids)| == 4 * |ids|
    ensures forall i :: 0 <= i < |ids| ==> IdBytes(ids)[4 * i..4 * i + 4] == PutU32(ids[i])
  {
    if ids == [] {
    } else {
      var n := |ids| - 1;
      var front, b := ids[..n], IdBytes(ids);
      IdBytesAt(front);
      forall i | 0 <= i < |ids|
        ensures b[4 * i..4 * i + 4] == PutU32(ids[i])
      {
        if i < n {
          assert b[4 * i..4 * i + 4] == IdBytes(front)[4 * i..4 * i + 4];
        }
      }
    }
  }

  lemma {:induction false} IdBytesUnique(ids: seq<U32>, b: Bytes)
    requires |b| == 4 * |ids|
    requires forall i :: 0 <= i < |ids| ==> b[4 * i..4 * i + 4] == PutU32(ids[i])
    ensures b == IdBytes(ids)
  {
    if ids == [] {
    } else {
      var n := |ids| - 1;
      var front := b[..4 * n];
      forall i | 0 <= i < n
        ensures front[4 * i..4 * i + 4] == PutU32(ids[..n][i])
      {
        assert front[4 * i..4 * i + 4] == b[4 * i..4 * i + 4];
      }
      IdBytesUnique(ids[..n], front);
      assert b == front + b[4 * n..4 * n + 4];
    }
  }

  /** Whatever the sender's table, the receiver reads back its id and its list, cut at 65535 ids. */
  lemma SyncRoundTrip(beacon: U32, ids: seq<U32>)
    ensures ParseSync(SyncFrame(beacon, ids)[1..]) == Some(Sync(beacon, if |ids| <= 65535 then ids else ids[..65535]))
  {
    var cut := Cut(ids);
    var data := SyncFrame(beacon, ids)[1..];
    IdBytesAt(cut);
    assert data == PutU32(beacon) + PutU16(|cut|) + IdBytes(cut);
    assert data[..4] == PutU32(beacon) && data[4..6] == PutU16(|cut|) && data[6..] == IdBytes(cut);
    U32RoundTrip(beacon);
    U16RoundTrip(|cut|);
    var out := ParseSync(data).value.ids;
    forall i | 0 <= i < |cut|
      ensures out[i] == cut[i]
    {
      assert data[6 + 4 * i..10 + 4 * i] == data[6..][4 * i..4 * i + 4];
      U32RoundTrip(cut[i]);
    }
    assert out == cut;
  }

  /** The whole list arrives exactly when it has at most 65535 ids. */
  lemma SyncCompleteIff(beacon: U32, ids: seq<U32>)
    ensures ParseSync(SyncFrame(beacon, ids)[1..]) == Some(Sync(beacon, ids)) <==> |ids| <= 65535
  {
    SyncRoundTrip(beacon, ids);
  }

  lemma ParsedIds(data: Bytes)
    requires ParseSync(data).Some?
    ensures var ids := ParseSync(data).value.ids;
            |ids| == GetU16(data[4..6]) && IdBytes(ids) == data[6..6 + 4 * |ids|]
  {
    var ids := ParseSync(data).value.ids;
    var body := data[6..6 + 4 * |ids|];
    forall i | 0 <= i < |ids|
      ensures body[4 * i..4 * i + 4] == PutU32(ids[i])
    {
      U32Onto(data[6 + 4 * i..10 + 4 * i]);
      SubSlice(data, 6, 6 + 4 * |ids|, 4 * i, 4 * i + 4);
    }
    IdBytesUnique(ids, body);
  }

  /** Conversely, a body is accepted only if it starts with the encoding of what is read from it. */
  lemma ParsedSyncIsEncoded(data: Bytes)
    requires ParseSync(data).Some?
    ensures var m := ParseSync(data).value;
            |m.ids| <= MAX_SYNC_IDS && SyncBody(m.beacon, m.ids) <= data
  {
    var m := ParseSync(data).value;
    ParsedIds(data);
    var end := 6 + 4 * |m.ids|;
    calc {
      SyncBody(m.beacon, m.ids);
      PutU32(GetU32(data[..4])) + PutU16(GetU16(data[4..6])) + data[6..end];
      { U32Onto(data[..4]); U16Onto(data[4..6]); }
      data[..4] + data[4..6] + data[6..end];
      { JoinSlices(data, 4, 6, end); }
      data[..end];
    }
  }

  method PutU32At(a: array<Byte>, at: nat, v: U32)
    requires at + 4 <= a.Length
    modifies a
    ensures a[at..at + 4] == PutU32(v)
    ensures a[..at] == old(a[..at]) && a[at + 4..] == old(a[at + 4..])
  {
    var b := PutU32(v);
    a[at], a[at + 1], a[at + 2], a[at + 3] := b[0], b[1], b[2], b[3];
  }

  lemma FillKeeps(before: Bytes, after: Bytes, at: nat)
    requires 7 <= at <= |before| == |after| && before[..at] == after[..at]
    ensures before[..7] == after[..7] && before[7..at] == after[7..at]
  {
    assert forall s: Bytes :: |s| >= at ==> s[..7] == s[..at][..7] && s[7..at] == s[..at][7..];
  }

  method FillIds(msg: array<Byte>, ids: seq<U32>)
    requires msg.Length == 7 + 4 * |ids|
    modifies msg
    ensures msg[..7] == old(msg[..7]) && msg[7..] == IdBytes(ids)
  {
    for i := 0 to |ids|
      invariant msg[..7] == old(msg[..7])
      invariant msg[7..7 + 4 * i] == IdBytes(ids[..i])
    {
      var at := 7 + 4 * i;
      ghost var before := msg[..];
      PutU32At(msg, at, ids[i]);
      FillKeeps(before, msg[..], at);
      assert msg[7..at + 4] == msg[7..at] + msg[at..at + 4];
      assert ids[..i + 1][..i] == ids[..i];
    }
    assert ids[..|ids|] == ids;
    assert msg[7..] == msg[7..7 + 4 * |ids|];
  }

  method FillHeader(msg: array<Byte>, beacon: U32, count: U16)
    requires msg.Length >= 7
    modifies msg
    ensures msg[..7] == [MSG_SYNC] + PutU32(beacon) + PutU16(count)
  {
    msg[0] := MSG_SYNC;
    PutU32At(msg, 1, beacon);
    msg[5], msg[6] := count / 0x100, count % 0x100;
    assert msg[..7] == msg[..1] + msg[1..5] + msg[5..7];
  }

  /** `sendGossip`: fills the message in place, one id at a time. */
  method BuildSync(beacon: U32, nodeIDs: seq<U32>) returns (frame: Bytes)
    ensures frame == SyncFrame(beacon, nodeIDs)
  {
    var ids := if |nodeIDs| > MAX_SYNC_IDS then nodeIDs[..MAX_SYNC_IDS] else nodeIDs;
    var msg := new Byte[7 + 4 * |ids|](_ => 0);
    FillHeader(msg, beacon, |ids|);
    FillIds(msg, ids);
    assert msg[..] == msg[..7] + msg[7..];
    frame := msg[..];
  }

  /** The parsing half of `handleSync`. */
  method ReadSync(data: Bytes) returns (m: Option<Sync>)
    ensures m == ParseSync(data)
  {
    if |data| < 6 {
      return None;
    }
    var count: int := GetU16(data[4..6]);
    if |data| < 6 + 4 * count {
      return None;
    }
    var nodeIDs := new U32[count](_ => 0);
    for i := 0 to count
      invariant forall j :: 0 <= j < i ==> nodeIDs[j] == GetU32(data[6 + 4 * j..10 + 4 * j])
    {
      nodeIDs[i] := GetU32(data[6 + 4 * i..10 + 4 * i]);
    }
    assert nodeIDs[..] == ParseSync(data).value.ids;
    m := Some(Sync(GetU32(data[..4]), nodeIDs[..]));
  }

  // ---- relay frames: [type][sender, 4][dest, 4][payload] ----

  datatype Relay = Relay(sender: U32, dest: U32, payload: Bytes)

  /** `data` is the frame after its type byte. */
  function ParseRelay(data: Bytes): Option<Relay> {
    if |data| < 8 then None
    else Some(Relay(GetU32(data[..4]), GetU32(data[4..8]), data[8..]))
  }

  /** What a worker sends to a peer beacon. */
  function RelayFrame(r: Relay): Bytes {
    [MSG_RELAY] + PutU32(r.sender) + PutU32(r.dest) + r.payload
  }

  /** What a worker sends to the destination itself. */
  function DeliverFrame(r: Relay): Bytes {
    [MSG_RELAY_DELIVER] + PutU32(r.sender) + r.payload
  }

  /** The same, for an endpoint that asked for the destination id to be carried. */
  function DeliverDestFrame(r: Relay): Bytes {
    [MSG_RELAY_DELIVER_DEST] + PutU32(r.sender) + PutU32(r.dest) + r.payload
  }

  /** A frame forwarded to a peer beacon is read there as the very same relay. */
  lemma RelayRoundTrip(r: Relay)
    ensures ParseRelay(RelayFrame(r)[1..]) == Some(r)
  {
    var data := RelayFrame(r)[1..];
    assert data == PutU32(r.sender) + PutU32(r.dest) + r.payload;
    assert data[..4] == PutU32(r.sender) && data[4..8] == PutU32(r.dest) && data[8..] == r.payload;
    U32RoundTrip(r.sender);
    U32RoundTrip(r.dest);
  }

  /** Forwarding is the identity on frames: what leaves for the peer is what arrived. */
  lemma ForwardedVerbatim(data: Bytes)
    requires ParseRelay(data).Some?
    ensures RelayFrame(ParseRelay(data).value) == [MSG_RELAY] + data
  {
    U32Onto(data[..4]);
    U32Onto(data[4..8]);
    assert data == data[..4] + data[4..8] + data[8..];
  }

  /** No two relays, and no two kinds of delivery, produce the same frame. */
  lemma FramesDistinguish(r: Relay, q: Relay)
    ensures RelayFrame(r) == RelayFrame(q) ==> r == q
    ensures DeliverDestFrame(r) == DeliverDestFrame(q) ==> r == q
    ensures DeliverFrame(r) == DeliverFrame(q) ==> r.sender == q.sender && r.payload == q.payload
    ensures RelayFrame(r) != DeliverFrame(q) && RelayFrame(r) != DeliverDestFrame(q) && DeliverFrame(r) != DeliverDestFrame(q)
  {
    RelayRoundTrip(r);
    RelayRoundTrip(q);
    assert RelayFrame(r)[1..] == DeliverDestFrame(r)[1..] && RelayFrame(q)[1..] == DeliverDestFrame(q)[1..];
    U32RoundTrip(r.sender);
    U32RoundTrip(q.sender);
    assert DeliverFrame(r)[1..5] == PutU32(r.sender) && DeliverFrame(q)[1..5] == PutU32(q.sender);
    assert DeliverFrame(r)[5..] == r.payload && DeliverFrame(q)[5..] == q.payload;
    assert RelayFrame(r)[0] == MSG_RELAY && DeliverDestFrame(q)[0] == MSG_RELAY_DELIVER_DEST && DeliverFrame(q)[0] == MSG_RELAY_DELIVER;
  }

  // ---- discover replies: [type][IP length][IP, 4 or 16][port, 2] ----

  /** An IPv4 address in 4 bytes, whichever form it came in; `None` for bytes that are no IP address. */
  function ShortIP(ip: Bytes): Option<Bytes> {
    if |ip| == 4 then Some(ip)
    else if |ip| == 16 then Some(if ip[..12] == V4_IN_V6 then ip[12..] else ip)
    else None
  }

  function DiscoverReply(a: Addr): Option<Bytes> {
    var ip := ShortIP(a.ip);
    if ip.None? then None
    else Some([MSG_DISCOVER_REPLY, |ip.value|] + ip.value + PutU16(a.port % 0x1_0000))
  }

  lemma ShortIPEqual(x: Bytes, y: Bytes)
    requires |x| in {4, 16} && |y| in {4, 16}
    ensures ShortIP(x) == ShortIP(y) <==> IPEqual(x, y)
  {
    assert |x| == 16 ==> x == x[..12] + x[12..];
    assert |y| == 16 ==> y == y[..12] + y[12..];
  }

  /** The reply tells a node its observed endpoint: two replies are equal exactly for equal endpoints. */
  lemma ReplyNamesEndpoint(a: Addr, b: Addr)
    requires Observed(a) && Observed(b)
    ensures DiscoverReply(a).Some? && (DiscoverReply(a) == DiscoverReply(b) <==> SameEndpoint(a, b))
  {
    ShortIPEqual(a.ip, b.ip);
    var r, q := DiscoverReply(a).value, DiscoverReply(b).value;
    var n, m := |ShortIP(a.ip).value|, |ShortIP(b.ip).value|;
    assert r[1] == n && r[2..2 + n] == ShortIP(a.ip).value && r[2 + n..] == PutU16(a.port);
    assert q[1] == m && q[2..2 + m] == ShortIP(b.ip).value && q[2 + m..] == PutU16(b.port);
    U16RoundTrip(a.port);
    U16RoundTrip(b.port);
  }

  // ---- layouts, byte by byte ----

  lemma WordWithin(f: Bytes, b: Bytes, at: nat, j: nat, v: U32)
    requires at <= |f| && f[at..] == b && j + 4 <= |b| && b[j..j + 4] == PutU32(v)
    ensures Word32(f, at + j) == v
  {
    assert f[at + j..at + j + 4] == b[j..j + 4];
    PlaceValue(f, at + j, v);
  }

  /** Where each field of a sync stands. */
  lemma SyncLayout(beacon: U32, ids: seq<U32>)
    ensures var f, n := SyncFrame(beacon, ids), |Cut(ids)|;
            && |f| == 7 + 4 * n && f[0] == MSG_SYNC && Word32(f, 1) == beacon && f[5] as int * 0x100 + f[6] as int == n
            && forall i :: 0 <= i < n ==> Word32(f, 7 + 4 * i) == ids[i]
  {
    var f, cut := SyncFrame(beacon, ids), Cut(ids);
    IdBytesAt(cut);
    assert f[1..5] == PutU32(beacon) && f[5..7] == PutU16(|cut|) && f[7..] == IdBytes(cut);
    PlaceValue(f, 1, beacon);
    U16RoundTrip(|cut|);
    assert f[5] == f[5..7][0] && f[6] == f[5..7][1];
    forall i | 0 <= i < |cut|
      ensures Word32(f, 7 + 4 * i) == ids[i]
    {
      assert IdBytes(cut)[4 * i..4 * i + 4] == PutU32(cut[i]);
      WordWithin(f, IdBytes(cut), 7, 4 * i, cut[i]);
    }
  }

  /** Where each field of the three relay frames stands. */
  lemma FrameLayout(r: Relay)
    ensures var f := RelayFrame(r);
            |f| == 9 + |r.payload| && f[0] == MSG_RELAY && Word32(f, 1) == r.sender && Word32(f, 5) == r.dest && f[9..] == r.payload
    ensures var f := DeliverDestFrame(r);
            && |f| == 9 + |r.payload| && f[0] == MSG_RELAY_DELIVER_DEST
            && Word32(f, 1) == r.sender && Word32(f, 5) == r.dest && f[9..] == r.payload
    ensures var f := DeliverFrame(r);
            |f| == 5 + |r.payload| && f[0] == MSG_RELAY_DELIVER && Word32(f, 1) == r.sender && f[5..] == r.payload
  {
    var f, g, h := RelayFrame(r), DeliverDestFrame(r), DeliverFrame(r);
    assert f[1..5] == PutU32(r.sender) && f[5..9] == PutU32(r.dest);
    assert g[1..5] == PutU32(r.sender) && g[5..9] == PutU32(r.dest);
    assert h[1..5] == PutU32(r.sender);
    PlaceValue(f, 1, r.sender);
    PlaceValue(f, 5, r.dest);
    PlaceValue(g, 1, r.sender);
    PlaceValue(g, 5, r.dest);
    PlaceValue(h, 1, r.sender);
  }

  /** A reader of discover replies: IP length, IP, port. */
  function ReadReply(reply: Bytes): Option<Addr> {
    if |reply| < 2 || reply[0] != MSG_DISCOVER_REPLY || |reply| != 4 + reply[1] as int then None
    else var n := 2 + reply[1] as int; Some(Addr(reply[2..n], reply[n] as int * 0x100 + reply[n + 1] as int))
  }

  /** The node learns its observed endpoint: what it reads is the same IP, in short form, and the same port. */
  lemma ReplyRoundTrip(a: Addr)
    requires Observed(a)
    ensures DiscoverReply(a).Some? && ReadReply(DiscoverReply(a).value).Some?
    ensures var b := ReadReply(DiscoverReply(a).value).value; SameEndpoint(a, b) && (|b.ip| == 16 ==> b.ip[..12] != V4_IN_V6)
  {
    var ip := ShortIP(a.ip).value;
    var r := DiscoverReply(a).value;
    var n := 2 + |ip|;
    assert r[1] == |ip| && r[2..n] == ip && r[n..] == PutU16(a.port);
    assert r[n] == r[n..][0] && r[n + 1] == r[n..][1];
    U16RoundTrip(a.port);
    assert |a.ip| == 16 ==> a.ip == a.ip[..12] + a.ip[12..];
    assert |ip| == 4 || ip == a.ip;
  }
}
