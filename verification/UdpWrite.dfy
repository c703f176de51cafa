/** udp_write: builds an IP datagram, first overlaying a pseudo-header for the UDP checksum. */
module UdpWrite {
  import opened Common
  import opened Checksum

  const HEADERS := 28
  const PROTO_UDP := 17
  const TTL_OUT := 64

  /** The address and port of a sockaddr_in, in network order. */
  datatype Endpoint = Endpoint(addr: seq<byte>, port: seq<byte>) {
    predicate Valid() {
      |addr| == 4 && |port| == 2
    }
  }

  /** htons((uint16_t) n), as it lies in memory. */
  function Net16(n: nat): (b: seq<byte>)
    ensures |b| == 2
  {
    Stored(Big, n % 65536)
  }

  /** The UDP header and data. */
  function Segment(local: Endpoint, dest: Endpoint, sum: seq<byte>, data: seq<byte>): seq<byte> {
    local.port + dest.port + Net16(8 + |data|) + sum + data
  }

  /** The datagram while the checksum is taken: a pseudo-header overlays the IP header. */
  function Overlay(local: Endpoint, dest: Endpoint, sum: seq<byte>, data: seq<byte>): seq<byte> {
    Zeros(8) + [0, PROTO_UDP] + Net16(8 + |data|) + (local.addr + dest.addr) + Segment(local, dest, sum, data)
  }

  /** What the sum field is given: 0xffff stands for a checksum of 0, and 0 for none. */
  function SumField(order: Order, zerosum: bool, local: Endpoint, dest: Endpoint, data: seq<byte>): (b: seq<byte>)
    ensures |b| == 2
  {
    var c := Cksum(order, Overlay(local, dest, Zeros(2), data));
    Stored(order, if zerosum then 0 else if c == 0 then 0xffff else c)
  }

  /** The datagram sent; the checksum of the IP header is left for the kernel. */
  function Datagram(order: Order, netLen: bool, local: Endpoint, dest: Endpoint, sum: seq<byte>,
                    data: seq<byte>): seq<byte>
  {
    [0x45, 0] + Stored(if netLen then Big else order, (HEADERS + |data|) % 65536) + Zeros(4) + [TTL_OUT, PROTO_UDP]
    + Net16(8 + |data|) + (local.addr + dest.addr) + Segment(local, dest, sum, data)
  }

  /** The bytes with a field assigned. */
  function Patched(s: seq<byte>, at: nat, part: seq<byte>): seq<byte>
    requires at + |part| <= |s|
  {
    s[..at] + part + s[at + |part|..]
  }

  method Put(buf: array<byte>, at: nat, part: seq<byte>)
    requires at + |part| <= buf.Length
    modifies buf
    ensures buf[..] == Patched(old(buf[..]), at, part)
  {
    for i := 0 to |part|
      invariant buf[at..at + i] == part[..i]
      invariant buf[..at] == old(buf[..at]) && buf[at + |part|..] == old(buf[at + |part|..])
    {
      buf[at + i] := part[i];
    }
    assert buf[..] == buf[..at] + buf[at..at + |part|] + buf[at + |part|..];
  }

  /** Assigning the first of n zero bytes. */
  lemma FillNext(s: seq<byte>, prefix: seq<byte>, n: nat, tail: seq<byte>, part: seq<byte>)
    requires s == prefix + Zeros(n) + tail && |part| <= n
    ensures Patched(s, |prefix|, part) == prefix + part + Zeros(n - |part|) + tail
  {
  }

  /** bzero */
  method Clear(buf: array<byte>)
    requires HEADERS <= buf.Length
    modifies buf
    ensures buf[..] == Zeros(10) + Zeros(18) + old(buf[HEADERS..])
  {
    hide Zeros;
    ZerosSplit(0, 0);
    for i := 0 to HEADERS
      invariant buf[..i] == Zeros(i) && buf[HEADERS..] == old(buf[HEADERS..])
    {
      buf[i] := 0;
      ZerosSnoc(i);
      assert buf[..i + 1] == buf[..i] + [0];
    }
    ZerosSplit(10, 18);
    assert buf[..] == buf[..HEADERS] + buf[HEADERS..];
  }

  /** Everything that is checksummed, the checksum field being zero. */
  method FillOverlay(local: Endpoint, dest: Endpoint, buf: array<byte>, userlen: nat)
    requires local.Valid() && dest.Valid() && HEADERS + userlen <= buf.Length
    modifies buf
    ensures buf[..] == Overlay(local, dest, Zeros(2), old(buf[HEADERS..HEADERS + userlen]))
        + old(buf[HEADERS + userlen..])
  {
    hide Patched, Net16, Zeros, Overlay;
    ghost var tail := buf[HEADERS..];
    var len := Net16(8 + userlen);
    Clear(buf);
    FillNext(buf[..], Zeros(10), 18, tail, len);
    LengthFirst(len, tail);
    Put(buf, 10, len);
    FillNext(buf[..], Zeros(9), 1, len + Zeros(16) + tail, [PROTO_UDP]);
    Put(buf, 9, [PROTO_UDP]);
    FillRest(local, dest, len, buf, Zeros(8) + [0, PROTO_UDP] + len, tail);
    OverlayDone(local, dest, tail, userlen);
    assert tail[..userlen] == old(buf[HEADERS..HEADERS + userlen]) && tail[userlen..] == old(buf[HEADERS + userlen..]);
  }

  /** The length goes in before the protocol number in front of it. */
  lemma LengthFirst(len: seq<byte>, tail: seq<byte>)
    requires |len| == 2
    ensures |Zeros(10)| == 10 && |Zeros(9)| == 9
    ensures Zeros(10) + len + Zeros(16) + tail == Zeros(9) + Zeros(1) + (len + Zeros(16) + tail)
    ensures Zeros(9) + [PROTO_UDP] + Zeros(0) + (len + Zeros(16) + tail)
         == Zeros(8) + [0, PROTO_UDP] + len + Zeros(16) + tail
    ensures |Zeros(8) + [0, PROTO_UDP] + len| == 12
  {
    hide Zeros;
    ZerosSplit(9, 1);
    ZerosSplit(8, 1);
    ZerosSplit(0, 0);
    ZerosSnoc(0);
    assert Zeros(9) + [PROTO_UDP] + Zeros(0) == Zeros(8) + [0, PROTO_UDP];
  }

  lemma OverlayDone(local: Endpoint, dest: Endpoint, tail: seq<byte>, userlen: nat)
    requires userlen <= |tail|
    ensures (Zeros(8) + [0, PROTO_UDP] + Net16(8 + userlen)) + (local.addr + dest.addr)
            + (local.port + dest.port + Net16(8 + userlen) + Zeros(2)) + tail
         == Overlay(local, dest, Zeros(2), tail[..userlen]) + tail[userlen..]
  {
    hide Zeros, Net16;
    assert tail == tail[..userlen] + tail[userlen..];
  }

  /** Addresses, ports and length, after the pseudo-header's first twelve bytes. */
  method FillRest(local: Endpoint, dest: Endpoint, len: seq<byte>, buf: array<byte>,
                  ghost prefix: seq<byte>, ghost tail: seq<byte>)
    requires local.Valid() && dest.Valid() && |len| == 2 && |prefix| == 12 && buf[..] == prefix + Zeros(16) + tail
    modifies buf
    ensures buf[..] == prefix + (local.addr + dest.addr) + (local.port + dest.port + len + Zeros(2)) + tail
  {
    hide Patched, Zeros;
    ZerosSplit(16, 0);
    FillNext(buf[..], prefix, 16, tail, local.addr);
    Put(buf, 12, local.addr);
    FillNext(buf[..], prefix + local.addr, 12, tail, dest.addr);
    Put(buf, 16, dest.addr);
    FillNext(buf[..], prefix + local.addr + dest.addr, 8, tail, local.port);
    Put(buf, 20, local.port);
    FillNext(buf[..], prefix + local.addr + dest.addr + local.port, 6, tail, dest.port);
    Put(buf, 22, dest.port);
    FillNext(buf[..], prefix + local.addr + dest.addr + local.port + dest.port, 4, tail, len);
    Put(buf, 24, len);
  }

  lemma ZerosSnoc(n: nat)
    ensures Zeros(n + 1) == Zeros(n) + [0] && |Zeros(n)| == n
  {
  }

  lemma ZerosSplit(m: nat, n: nat)
    ensures Zeros(m + n) == Zeros(m) + Zeros(n) && |Zeros(m)| == m && |Zeros(n)| == n
  {
  }

  lemma OverlayLength(local: Endpoint, dest: Endpoint, sum: seq<byte>, data: seq<byte>)
    requires local.Valid() && dest.Valid() && |sum| == 2
    ensures |Overlay(local, dest, sum, data)| == HEADERS + |data|
  {
  }

  /** All that precedes the checksum field. */
  function Front(local: Endpoint, dest: Endpoint, n: nat): (r: seq<byte>)
    requires local.Valid() && dest.Valid()
    ensures |r| == 26
  {
    Zeros(8) + [0, PROTO_UDP] + Net16(8 + n) + (local.addr + dest.addr) + (local.port + dest.port + Net16(8 + n))
  }

  lemma OverlayIsFramed(local: Endpoint, dest: Endpoint, sum: seq<byte>, data: seq<byte>)
    requires local.Valid() && dest.Valid()
    ensures Overlay(local, dest, sum, data) == Front(local, dest, |data|) + sum + data
  {
    hide Zeros, Net16;
  }

  lemma OverlayPatched(local: Endpoint, dest: Endpoint, was: seq<byte>, sum: seq<byte>, data: seq<byte>,
      more: seq<byte>)
    requires local.Valid() && dest.Valid() && |was| == |sum| == 2
    ensures 28 <= |Overlay(local, dest, was, data) + more|
    ensures Patched(Overlay(local, dest, was, data) + more, 26, sum) == Overlay(local, dest, sum, data) + more
  {
    hide Overlay, Front;
    OverlayIsFramed(local, dest, was, data);
    OverlayIsFramed(local, dest, sum, data);
  }

  /** The rest of the IP header, over the first nine bytes of the pseudo-header. */
  method FillIp(order: Order, netLen: bool, buf: array<byte>, total: nat, ghost rest: seq<byte>)
    requires buf[..] == Zeros(8) + [0] + rest
    modifies buf
    ensures buf[..] == [0x45, 0] + Stored(if netLen then Big else order, total % 65536) + Zeros(4) + [TTL_OUT] + rest
  {
    hide Patched, Zeros, Stored;
    ZerosSnoc(8);
    ZerosSplit(9, 0);
    buf[0] := 0x40 + buf[0] % 16;
    buf[0] := buf[0] / 16 * 16 + 5;
    ZerosSplit(1, 8);
    assert buf[..] == [0x45] + Zeros(8) + rest;
    FillNext(buf[..], [0x45], 8, rest, [0]);
    Put(buf, 1, [0]);
    var len := Stored(if netLen then Big else order, total % 65536);
    FillNext(buf[..], [0x45, 0], 7, rest, len);
    Put(buf, 2, len);
    Tail(buf, len, rest);
  }

  method Tail(buf: array<byte>, len: seq<byte>, ghost rest: seq<byte>)
    requires |len| == 2 && buf[..] == [0x45, 0] + len + Zeros(5) + rest
    modifies buf
    ensures buf[..] == [0x45, 0] + len + Zeros(4) + [TTL_OUT] + rest
  {
    hide Patched, Zeros;
    ZerosSplit(2, 2);
    ZerosSplit(5, 0);
    FillNext(buf[..], [0x45, 0] + len, 5, rest, Zeros(2));
    Put(buf, 4, Zeros(2));
    FillNext(buf[..], [0x45, 0] + len + Zeros(2), 3, rest, Zeros(2));
    Put(buf, 6, Zeros(2));
    FillNext(buf[..], [0x45, 0] + len + Zeros(2) + Zeros(2), 1, rest, [TTL_OUT]);
    Put(buf, 8, [TTL_OUT]);
    ZerosSplit(0, 0);
  }

  lemma OverlayToDatagram(order: Order, netLen: bool, local: Endpoint, dest: Endpoint, sum: seq<byte>,
                          data: seq<byte>, more: seq<byte>)
    returns (rest: seq<byte>)
    ensures Overlay(local, dest, sum, data) + more == Zeros(8) + [0] + rest
    ensures [0x45, 0] + Stored(if netLen then Big else order, (HEADERS + |data|) % 65536) + Zeros(4) + [TTL_OUT] + rest
         == Datagram(order, netLen, local, dest, sum, data) + more
  {
    hide Zeros, Net16, Stored, Segment;
    rest := [PROTO_UDP] + Net16(8 + |data|) + (local.addr + dest.addr) + Segment(local, dest, sum, data) + more;
  }

  /** A datagram of version 4 with a header of five words, laid out field by field. Numbers in network order have their
      high byte first; a host of the little order that leaves the total length in its own order has the low one first.
      Where the header's checksum belongs the UDP length is left over, for the kernel to replace. */
  ghost predicate LaidOut(d: seq<byte>, lowFirst: bool, local: Endpoint, dest: Endpoint, data: seq<byte>) {
    && |d| == 28 + |data| && d[0] == 0x45 && d[1] == 0
    && (if lowFirst then d[2] as int + 256 * d[3] as int else 256 * d[2] as int + d[3] as int) == (28 + |data|) % 65536
    && d[4] == d[5] == d[6] == d[7] == 0 && d[8] == 64 && d[9] == 17
    && d[12..16] == local.addr && d[16..20] == dest.addr && d[20..22] == local.port && d[22..24] == dest.port
    && 256 * d[24] as int + d[25] as int == (8 + |data|) % 65536 && d[10..12] == d[24..26] && d[28..] == data
  }

  lemma BytesOf(order: Order, n: nat)
    ensures
      var b := Stored(order, n % 65536);
      (if order.Little? then b[0] as int + 256 * b[1] as int else 256 * b[0] as int + b[1] as int) == n % 65536
  {
  }

  /** Where each field of the datagram is. */
  lemma DatagramFields(order: Order, netLen: bool, local: Endpoint, dest: Endpoint, sum: seq<byte>, data: seq<byte>)
    requires local.Valid() && dest.Valid() && |sum| == 2
    ensures
      var d := Datagram(order, netLen, local, dest, sum, data);
      LaidOut(d, order.Little? && !netLen, local, dest, data) && d[26..28] == sum
  {
    hide Stored;
    var d := Datagram(order, netLen, local, dest, sum, data);
    var total := Stored(if netLen then Big else order, (28 + |data|) % 65536);
    BytesOf(if netLen then Big else order, 28 + |data|);
    BytesOf(Big, 8 + |data|);
    assert d[2..4] == total && d[2] == total[0] && d[3] == total[1];
    assert d[10..12] == Net16(8 + |data|) && d[24..26] == Net16(8 + |data|);
    assert d[24] == d[24..26][0] && d[25] == d[24..26][1];
    assert d[12..16] == local.addr && d[16..20] == dest.addr;
    assert d[20..22] == local.port && d[22..24] == dest.port;
    assert d[26..28] == sum && d[28..] == data;
  }

  /** udp_write, up to Sendto. */
  method UdpWrite(order: Order, netLen: bool, zerosum: bool, local: Endpoint, dest: Endpoint,
                  buf: array<byte>, userlen: nat)
    requires local.Valid() && dest.Valid() && HEADERS + userlen <= buf.Length
    modifies buf
    ensures var data := old(buf[HEADERS..HEADERS + userlen]);
            buf[..] == Datagram(order, netLen, local, dest, SumField(order, zerosum, local, dest, data), data)
                       + old(buf[HEADERS + userlen..])
    ensures LaidOut(buf[..HEADERS + userlen], order.Little? && !netLen, local, dest,
                    old(buf[HEADERS..HEADERS + userlen]))
    ensures zerosum ==> buf[26] == buf[27] == 0
    ensures !zerosum ==> !(buf[26] == buf[27] == 0)
  {
    hide Overlay, Datagram, Patched, Zeros, Net16, Cksum, Stored, LaidOut;
    ghost var data, more := buf[HEADERS..HEADERS + userlen], buf[HEADERS + userlen..];
    FillOverlay(local, dest, buf, userlen);
    ghost var field := Zeros(2);
    ZerosSplit(2, 0);
    StoredZero(order);
    if !zerosum {
      OverlayLength(local, dest, field, data);
      assert buf[..HEADERS + userlen] == Overlay(local, dest, field, data);
      var sum := InCksum(order, buf, HEADERS + userlen);
      OverlayPatched(local, dest, field, Stored(order, sum), data, more);
      Put(buf, 26, Stored(order, sum));
      field := Stored(order, sum);
      if sum == 0 {
        OverlayPatched(local, dest, field, Stored(order, 0xffff), data, more);
        Put(buf, 26, Stored(order, 0xffff));
        field := Stored(order, 0xffff);
      }
    }
    ghost var rest := OverlayToDatagram(order, netLen, local, dest, field, data, more);
    FillIp(order, netLen, buf, HEADERS + userlen, rest);
    DatagramFields(order, netLen, local, dest, field, data);
    ghost var d := Datagram(order, netLen, local, dest, field, data);
    assert buf[..] == d + more;
    assert buf[..HEADERS + userlen] == d;
    SumFieldIsZero(order, zerosum, local, dest, data);
    assert buf[26] == d[26..28][0] && buf[27] == d[26..28][1];
  }

  /** The field is empty exactly when no checksum is asked for. */
  lemma SumFieldIsZero(order: Order, zerosum: bool, local: Endpoint, dest: Endpoint, data: seq<byte>)
    ensures SumField(order, zerosum, local, dest, data) == [0, 0] <==> zerosum
  {
    hide Cksum, Overlay, Stored;
    StoredZero(order);
    var c := Cksum(order, Overlay(local, dest, Zeros(2), data));
    StoredNonZero(order, if c == 0 then 0xffff else c);
  }

  lemma StoredZero(order: Order)
    ensures Stored(order, 0) == Zeros(2)
  {
  }

  /** RFC 768: the pseudo-header a receiver prefixes to the segment, from the fields of the datagram. */
  function Received(datagram: seq<byte>): seq<byte>
    requires |datagram| >= HEADERS
  {
    datagram[12..20] + [0, datagram[9]] + datagram[24..26] + datagram[20..]
  }

  lemma ReceivedDatagram(order: Order, netLen: bool, local: Endpoint, dest: Endpoint, sum: seq<byte>, data: seq<byte>)
    requires local.Valid() && dest.Valid() && |sum| == 2
    ensures var d := Datagram(order, netLen, local, dest, sum, data);
            |d| == HEADERS + |data| && d[26..28] == sum &&
            Received(d) == local.addr + dest.addr + [0, PROTO_UDP] + Net16(8 + |data|) + Segment(local, dest, sum, data)
  {
    hide Net16, Stored;
    var d := Datagram(order, netLen, local, dest, sum, data);
    assert d[12..20] == local.addr + dest.addr;
    assert d[20..] == Segment(local, dest, sum, data);
    assert d[24..26] == Net16(8 + |data|);
  }

  /** The receiver sums the same words in another order. */
  lemma SameSum(order: Order, local: Endpoint, dest: Endpoint, sum: seq<byte>, data: seq<byte>)
    requires local.Valid() && dest.Valid() && |sum| == 2
    ensures WordSum(order, local.addr + dest.addr + [0, PROTO_UDP] + Net16(8 + |data|)
        + Segment(local, dest, sum, data))
         == WordSum(order, Overlay(local, dest, sum, data))
  {
    hide Net16, WordSum, Zeros, Word;
    var addrs, pr, segment := local.addr + dest.addr, [0, PROTO_UDP] + Net16(8 + |data|),
        Segment(local, dest, sum, data);
    ZerosSplit(8, 0);
    assert Overlay(local, dest, sum, data) == Zeros(8) + (pr + (addrs + segment));
    assert local.addr + dest.addr + [0, PROTO_UDP] + Net16(8 + |data|) + segment == addrs + (pr + segment);
    SumOfParts(order, Zeros(8), pr + (addrs + segment));
    SumOfParts(order, pr, addrs + segment);
    SumOfParts(order, addrs, segment);
    SumOfParts(order, addrs, pr + segment);
    SumOfParts(order, pr, segment);
    SumOfEight(order);
  }

  lemma SumOfEight(order: Order)
    ensures WordSum(order, Zeros(8)) == 0
  {
    assert Zeros(8)[2..] == Zeros(6) && Zeros(6)[2..] == Zeros(4) && Zeros(4)[2..] == Zeros(2) && Zeros(2)[2..] == [];
  }

  /** A receiver of either byte order finds the checksum in order, and never finds the field empty; and no other
    * value of the field would do. */
  lemma ReceiverAccepts(order: Order, netLen: bool, receiver: Order, local: Endpoint, dest: Endpoint, data: seq<byte>)
    requires local.Valid() && dest.Valid() && HEADERS + |data| <= 131074
    ensures var d := Datagram(order, netLen, local, dest, SumField(order, false, local, dest, data), data);
            |d| == HEADERS + |data| && Cksum(receiver, Received(d)) == 0 && d[26..28] != [0, 0]
    ensures forall w :: 0 < w < 65536 && Stored(order, w) != SumField(order, false, local, dest, data) ==>
              var d := Datagram(order, netLen, local, dest, Stored(order, w), data);
              |d| == HEADERS + |data| && Cksum(receiver, Received(d)) != 0
  {
    hide Datagram, Cksum, Stored, Received, Overlay;
    var c := Cksum(order, Overlay(local, dest, Zeros(2), data));
    var w0 := if c == 0 then 0xffff else c;
    forall w | 0 < w < 65536
      ensures var d := Datagram(order, netLen, local, dest, Stored(order, w), data);
              |d| == HEADERS + |data| && (Cksum(receiver, Received(d)) == 0 <==> w == w0)
    {
      FieldChecked(order, netLen, receiver, local, dest, data, w);
    }
    ReceivedDatagram(order, netLen, local, dest, Stored(order, w0), data);
    StoredNonZero(order, w0);
  }

  lemma StoredNonZero(order: Order, w: int)
    requires 0 < w < 65536
    ensures Stored(order, w) != [0, 0]
  {
  }

  /** What a receiver makes of any non-zero value of the field. */
  lemma FieldChecked(order: Order, netLen: bool, receiver: Order, local: Endpoint, dest: Endpoint, data: seq<byte>,
      w: int)
    requires local.Valid() && dest.Valid() && HEADERS + |data| <= 131074 && 0 < w < 65536
    ensures var d := Datagram(order, netLen, local, dest, Stored(order, w), data);
            var c := Cksum(order, Overlay(local, dest, Zeros(2), data));
            |d| == HEADERS + |data| && (Cksum(receiver, Received(d)) == 0 <==> w == if c == 0 then 0xffff else c)
  {
    hide Datagram, Cksum, Stored, Received, Overlay, WordSum, Zeros, Front, Segment, Net16;
    var field := Stored(order, w);
    var sent := Overlay(local, dest, field, data);
    ReceivedDatagram(order, netLen, local, dest, field, data);
    SameSum(receiver, local, dest, field, data);
    SameCksum(receiver, Received(Datagram(order, netLen, local, dest, field, data)), sent);
    OverlayLength(local, dest, field, data);
    ZeroInEitherOrder(order, receiver, sent);
    StoredZero(order);
    OverlayIsFramed(local, dest, field, data);
    OverlayIsFramed(local, dest, Zeros(2), data);
    Framed(order, Front(local, dest, |data|), field, Zeros(2), data, w);
    AcceptedExactly(order, sent, 26, w);
  }

  lemma Framed(order: Order, front: seq<byte>, field: seq<byte>, zero: seq<byte>, data: seq<byte>, w: int)
    requires 0 <= w < 65536 && field == Stored(order, w) && zero == Stored(order, 0) && |front| == 26
    ensures WithField(order, front + field + data, 26, w) == front + field + data
    ensures WithField(order, front + field + data, 26, 0) == front + zero + data
  {
    hide Stored;
    assert (front + field + data)[..26] == front && (front + field + data)[28..] == data;
  }

  lemma SameCksum(order: Order, a: seq<byte>, b: seq<byte>)
    requires WordSum(order, a) == WordSum(order, b)
    ensures Cksum(order, a) == Cksum(order, b)
  {
  }

  lemma ZeroInEitherOrder(one: Order, other: Order, b: seq<byte>)
    requires |b| <= 131074
    ensures Cksum(one, b) == 0 <==> Cksum(other, b) == 0
  {
    hide WordSum, Cksum;
    OrderDoesNotMatter(b);
  }

  /** With zerosum set the field stays zero: the datagram carries no checksum. */
  lemma NoChecksum(order: Order, netLen: bool, local: Endpoint, dest: Endpoint, data: seq<byte>)
    requires local.Valid() && dest.Valid()
    ensures var d := Datagram(order, netLen, local, dest, SumField(order, true, local, dest, data), data);
            |d| == HEADERS + |data| && d[26..28] == [0, 0]
  {
    hide Datagram;
    ReceivedDatagram(order, netLen, local, dest, SumField(order, true, local, dest, data), data);
  }
}
