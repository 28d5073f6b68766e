/** PTP messages as bytes: the common header, timestamps, the correction field, and the
    messages the client prints. Offsets follow IEEE 1588-2008 sections 13.3.1, 13.5 and 5.3.3. */
module Wire {
  import opened Words
  import opened PtpTime
  import opened ClockOrder

  const HDR_LEN := 34
  const ANNOUNCE_LEN := 30
  const TYPE_SYNC := 0
  const TYPE_DELAY_REQ := 1
  const TYPE_FOLLOW_UP := 8
  const TYPE_DELAY_RESP := 9
  const TYPE_ANNOUNCE := 11

  datatype Header = Header(
    transportSpecific: int, messageType: int, version: int, messageLength: UShort, domain: Byte,
    flags: UShort, cFieldHigh: ULong, cFieldLow: ULong, source: seq<Byte>, sequenceId: UShort,
    logInterval: Byte)

  datatype Packet = Dropped | Accepted(hdr: Header, body: seq<Byte>)

  datatype Announce = Announce(utcOffset: int, clock: ClockInfo)

  function Be16(s: seq<Byte>, at: nat): UShort
    requires at + 2 <= |s|
  {
    (s[at] as int) * 0x100 + s[at + 1]
  }

  function Be32(s: seq<Byte>, at: nat): ULong
    requires at + 4 <= |s|
  {
    (((s[at] as int) * 0x100 + s[at + 1]) * 0x100 + s[at + 2]) * 0x100 + s[at + 3]
  }

  function Bytes16(v: int): (s: seq<Byte>)
    ensures |s| == 2
  {
    [v / 0x100 % 0x100, v % 0x100]
  }

  function Bytes32(v: ULong): (s: seq<Byte>)
    ensures |s| == 4
  {
    [v / 0x100_0000 % 0x100, v / 0x1_0000 % 0x100, v / 0x100 % 0x100, v % 0x100]
  }

  function Zeros(n: nat): (s: seq<Byte>)
    ensures |s| == n
  {
    seq(n, _ => 0)
  }

  predicate Bit(flags: UShort, n: nat) {
    n < 16 && flags / [1, 2, 4, 8, 16, 32, 64, 128, 256, 512, 1024, 2048, 4096, 8192, 16384, 32768][n] % 2 == 1
  }

  // ----- parsing -----

  /** The header of a packet for this domain, and the payload that follows it, cut to the
      length the header declares. */
  function ParseHeader(packet: seq<Byte>, domain: Byte): Packet {
    if |packet| < HDR_LEN || packet[1] % 16 != 2 || packet[4] != domain then Dropped
    else
      var hdr := Header(
        packet[0] / 16, packet[0] % 16, packet[1] % 16, Be16(packet, 2), packet[4],
        Be16(packet, 6), Be32(packet, 8), Be32(packet, 12), packet[20..30], Be16(packet, 30), packet[33]);
      if |packet| > hdr.messageLength then
        if hdr.messageLength < HDR_LEN then Dropped
        else Accepted(hdr, packet[HDR_LEN..hdr.messageLength])
      else Accepted(hdr, packet[HDR_LEN..])
  }

  function ParseTimestamp(body: seq<Byte>): (t: Time)
    requires |body| >= 10
  {
    Time(Be16(body, 0) * 0x1_0000_0000 + Be32(body, 2), ToLong(Be32(body, 6)))
  }

  function Signed16(v: UShort): int {
    if v < 0x8000 then v else v - 0x1_0000
  }

  function ParseAnnounce(body: seq<Byte>): (a: Announce)
    requires |body| >= ANNOUNCE_LEN
    ensures ValidClock(a.clock)
  {
    Announce(
      Signed16(Be16(body, 10)),
      ClockInfo(body[13], body[14], body[15], Be16(body, 16), body[18], body[19..27],
                Be16(body, 27), body[29]))
  }

  /** The nanoseconds the code takes from the 64-bit correction field, with its 32-bit shift. */
  function CorrectionNs(hdr: Header): ULong {
    ToULong(hdr.cFieldHigh * 0x1_0000) + hdr.cFieldLow / 0x1_0000
  }

  /** The field's meaning: a signed count of 2^-16 nanoseconds. */
  function CorrectionField(hdr: Header): int {
    if hdr.cFieldHigh < 0x8000_0000 then hdr.cFieldHigh * 0x1_0000_0000 + hdr.cFieldLow
    else hdr.cFieldHigh * 0x1_0000_0000 + hdr.cFieldLow - 0x1_0000_0000_0000_0000
  }

  /** The shift keeps the whole nanoseconds of corrections from 0 to below 2^32 ns, and of no others. */
  lemma CorrectionExactBelow2Pow32(hdr: Header)
    ensures CorrectionNs(hdr) == CorrectionField(hdr) / 0x1_0000
            <==> 0 <= CorrectionField(hdr) / 0x1_0000 < 0x1_0000_0000
  {
    var hi: int, lo: int := hdr.cFieldHigh, hdr.cFieldLow;
    var q, r := hi / 0x1_0000, hi % 0x1_0000;
    assert hi * 0x1_0000 == q * 0x1_0000_0000 + r * 0x1_0000;
    assert ToULong(hi * 0x1_0000) == r * 0x1_0000;
    assert (hi * 0x1_0000_0000 + lo) / 0x1_0000 == hi * 0x1_0000 + lo / 0x1_0000;
    if hi >= 0x8000_0000 {
      assert CorrectionField(hdr) < 0;
    }
  }

  // ----- printing -----

  /** The 34-byte common header. */
  function HeaderBytes(first: Byte, length: UShort, domain: Byte, flagLow: Byte, source: seq<Byte>,
                       sequenceId: UShort, control: Byte): (s: seq<Byte>)
    requires |source| == 10
    ensures |s| == HDR_LEN
  {
    [first, 2] + Bytes16(length) + [domain, 0, 0, flagLow] + Zeros(12) + source
    + Bytes16(sequenceId) + [control, 0]
  }

  function AnnounceBody(clock: ClockInfo): (s: seq<Byte>)
    requires ValidClock(clock)
    ensures |s| == ANNOUNCE_LEN + 12
  {
    Zeros(13) + [clock.priority1, clock.clockClass, clock.accuracy] + Bytes16(clock.variance)
    + [clock.priority2] + clock.identity + [0, 0, clock.timeSource]
    + [0, 8, 0, 8] + clock.identity
  }

  /** An Announce: 76 bytes with its path trace TLV. */
  function AnnounceBytes(transport: Byte, domain: Byte, portId: seq<Byte>, sequenceId: UShort,
                         clock: ClockInfo): (s: seq<Byte>)
    requires |portId| == 10 && ValidClock(clock)
    ensures |s| == 76
  {
    HeaderBytes(transport % 16 * 16 + TYPE_ANNOUNCE, 76, domain, 8, portId, sequenceId, 5)
    + AnnounceBody(clock)
  }

  /** Bitwise or. */
  function BitOr(a: nat, b: nat): nat {
    if a == 0 then b
    else (if a % 2 == 1 || b % 2 == 1 then 1 else 0) + 2 * BitOr(a / 2, b / 2)
  }

  predicate BitsWithin(a: nat, b: nat) {
    a == 0 || ((a % 2 == 1 ==> b % 2 == 1) && BitsWithin(a / 2, b / 2))
  }

  /** What a Delay_Req carries in its domain byte: the transport nibble is or-ed over it. */
  function DelayReqDomain(transport: Byte, domain: Byte): Byte {
    BitOr(transport % 16 * 16, domain) % 0x100
  }

  function DelayReqBytes(transport: Byte, domain: Byte, portId: seq<Byte>, sequenceId: UShort): (s: seq<Byte>)
    requires |portId| == 10
    ensures |s| == 44
  {
    HeaderBytes(TYPE_DELAY_REQ, 44, DelayReqDomain(transport, domain), 0, portId, sequenceId, 0) + Zeros(10)
  }

  function TimestampBytes(t: Time): (s: seq<Byte>) {
    Bytes16(t.sec / 0x1_0000_0000) + Bytes32(t.sec % 0x1_0000_0000) + Bytes32(t.ns % 0x1_0000_0000)
  }

  /** The room for a message that a packet pool must have for a client to be created on it. */
  const LEAST_ROOM := 64

  /** It is enough for a Delay_Req, but not for an Announce: that one is not promised to fit. */
  lemma LeastRoomFits(transport: Byte, domain: Byte, portId: seq<Byte>, sequenceId: UShort, clock: ClockInfo)
    requires |portId| == 10 && ValidClock(clock)
    ensures |DelayReqBytes(transport, domain, portId, sequenceId)| == 44
            < LEAST_ROOM < |AnnounceBytes(transport, domain, portId, sequenceId, clock)| == 76
  {
  }

  // ----- round trips -----

  /** A header of any kind, as bytes: the reserved and control bytes carry nothing. */
  function HeaderImage(hdr: Header, reserved: seq<Byte>, control: Byte): (s: seq<Byte>)
    requires 0 <= hdr.transportSpecific < 16 && 0 <= hdr.messageType < 16 && |hdr.source| == 10 && |reserved| == 5
    ensures |s| == HDR_LEN
  {
    [hdr.transportSpecific * 16 + hdr.messageType, 2] + Bytes16(hdr.messageLength) + [hdr.domain, reserved[0]]
    + Bytes16(hdr.flags) + Bytes32(hdr.cFieldHigh) + Bytes32(hdr.cFieldLow) + reserved[1..]
    + hdr.source + Bytes16(hdr.sequenceId) + [control, hdr.logInterval]
  }

  /** Every field of any header, and any payload, is read back in its domain. */
  lemma HeaderRoundTrip(hdr: Header, reserved: seq<Byte>, control: Byte, body: seq<Byte>)
    requires 0 <= hdr.transportSpecific < 16 && 0 <= hdr.messageType < 16 && |hdr.source| == 10 && |reserved| == 5
    requires hdr.version == 2 && hdr.messageLength == HDR_LEN + |body|
    ensures ParseHeader(HeaderImage(hdr, reserved, control) + body, hdr.domain) == Accepted(hdr, body)
  {
    var h := HeaderImage(hdr, reserved, control);
    var p := h + body;
    assert p[..HDR_LEN] == h && p[HDR_LEN..] == body;
    ImageBytes(hdr, reserved, control);
    hide HeaderImage, Be16, Be32;
    Be16Prefix(h, body, 2);
    Be16Prefix(h, body, 6);
    Be32Prefix(h, body, 8);
    Be32Prefix(h, body, 12);
    Be16Prefix(h, body, 30);
    assert p[20..30] == h[20..30];
  }

  lemma ImageBytes(hdr: Header, reserved: seq<Byte>, control: Byte)
    requires 0 <= hdr.transportSpecific < 16 && 0 <= hdr.messageType < 16 && |hdr.source| == 10 && |reserved| == 5
    ensures var h := HeaderImage(hdr, reserved, control);
            && h[0] == hdr.transportSpecific * 16 + hdr.messageType && h[1] == 2 && h[4] == hdr.domain
            && Be16(h, 2) == hdr.messageLength && Be16(h, 6) == hdr.flags
            && Be32(h, 8) == hdr.cFieldHigh && Be32(h, 12) == hdr.cFieldLow
            && h[20..30] == hdr.source && Be16(h, 30) == hdr.sequenceId && h[33] == hdr.logInterval
  {
    var h := HeaderImage(hdr, reserved, control);
    ImageSlices(hdr, reserved, control);
    hide HeaderImage, Bytes16, Bytes32, Be16, Be32;
    Be16Prefix(h, [], 2);
    Be16Prefix(h, [], 6);
    Be32Prefix(h, [], 8);
    Be32Prefix(h, [], 12);
    Be16Prefix(h, [], 30);
    Bytes16RoundTrip(hdr.messageLength);
    Bytes16RoundTrip(hdr.flags);
    Bytes32RoundTrip(hdr.cFieldHigh);
    Bytes32RoundTrip(hdr.cFieldLow);
    Bytes16RoundTrip(hdr.sequenceId);
  }

  lemma ImageSlices(hdr: Header, reserved: seq<Byte>, control: Byte)
    requires 0 <= hdr.transportSpecific < 16 && 0 <= hdr.messageType < 16 && |hdr.source| == 10 && |reserved| == 5
    ensures var h := HeaderImage(hdr, reserved, control);
            && h[0] == hdr.transportSpecific * 16 + hdr.messageType && h[1] == 2 && h[4] == hdr.domain
            && h[2..4] == Bytes16(hdr.messageLength) && h[6..8] == Bytes16(hdr.flags)
            && h[8..12] == Bytes32(hdr.cFieldHigh) && h[12..16] == Bytes32(hdr.cFieldLow)
            && h[20..30] == hdr.source && h[30..32] == Bytes16(hdr.sequenceId) && h[33] == hdr.logInterval
  {
    hide Bytes16, Bytes32;
    var h := HeaderImage(hdr, reserved, control);
    assert h[20..30] == hdr.source;
    assert h[30..32] == Bytes16(hdr.sequenceId);
  }

  lemma Be16Prefix(s: seq<Byte>, more: seq<Byte>, at: nat)
    requires at + 2 <= |s|
    ensures Be16(s + more, at) == Be16(s, at) == Be16(s[at..at + 2], 0)
  {
  }

  lemma Be32Prefix(s: seq<Byte>, more: seq<Byte>, at: nat)
    requires at + 4 <= |s|
    ensures Be32(s + more, at) == Be32(s, at) == Be32(s[at..at + 4], 0)
  {
  }

  /** Every field of a printed header is read back, in the domain it was printed for. */
  lemma PrintedHeaderRoundTrip(first: Byte, length: UShort, domain: Byte, flagLow: Byte, source: seq<Byte>,
                        sequenceId: UShort, control: Byte, body: seq<Byte>)
    requires |source| == 10 && length == HDR_LEN + |body|
    ensures var p := HeaderBytes(first, length, domain, flagLow, source, sequenceId, control) + body;
            ParseHeader(p, domain) == Accepted(
              Header(first / 16, first % 16, 2, length, domain, flagLow, 0, 0, source, sequenceId, 0), body)
  {
    var h := HeaderBytes(first, length, domain, flagLow, source, sequenceId, control);
    var p := h + body;
    assert forall i :: 0 <= i < HDR_LEN ==> p[i] == h[i];
    assert h[20..30] == source;
    assert p[20..30] == h[20..30];
    assert p[HDR_LEN..] == body;
  }

  /** Parsing a printed Announce returns everything that was printed. */
  lemma AnnounceRoundTrip(transport: Byte, domain: Byte, portId: seq<Byte>, sequenceId: UShort, clock: ClockInfo)
    requires |portId| == 10 && ValidClock(clock)
    ensures var p := ParseHeader(AnnounceBytes(transport, domain, portId, sequenceId, clock), domain);
            && p.Accepted?
            && p.hdr == Header(transport % 16, TYPE_ANNOUNCE, 2, 76, domain, 8, 0, 0, portId, sequenceId, 0)
            && |p.body| >= ANNOUNCE_LEN
            && ParseAnnounce(p.body) == Announce(0, clock.(stepsRemoved := 0))
  {
    var body := AnnounceBody(clock);
    PrintedHeaderRoundTrip(transport % 16 * 16 + TYPE_ANNOUNCE, 76, domain, 8, portId, sequenceId, 5, body);
    assert body[19..27] == clock.identity;
  }

  /** Another domain drops it. */
  lemma AnnounceForeignDomain(transport: Byte, domain: Byte, portId: seq<Byte>, sequenceId: UShort,
                              clock: ClockInfo, other: Byte)
    requires |portId| == 10 && ValidClock(clock)
    ensures ParseHeader(AnnounceBytes(transport, domain, portId, sequenceId, clock), other).Dropped?
            <==> other != domain
  {
    AnnounceRoundTrip(transport, domain, portId, sequenceId, clock);
  }

  /** A timestamp survives printing and parsing exactly when its seconds fit 48 bits. */
  lemma TimestampRoundTrip(t: Time)
    requires IsInt64(t.sec) && -0x8000_0000 <= t.ns < 0x8000_0000
    ensures |TimestampBytes(t)| == 10
    ensures ParseTimestamp(TimestampBytes(t)) == t <==> 0 <= t.sec < 0x1_0000_0000_0000
  {
    StampReadBack(t);
    hide TimestampBytes, ParseTimestamp;
    SecondsReadBack(t.sec);
  }

  lemma StampReadBack(t: Time)
    ensures |TimestampBytes(t)| == 10
    ensures ParseTimestamp(TimestampBytes(t))
            == Time(t.sec / 0x1_0000_0000 % 0x1_0000 * 0x1_0000_0000 + t.sec % 0x1_0000_0000,
                    ToLong(t.ns % 0x1_0000_0000))
  {
    var s := TimestampBytes(t);
    assert s[..2] == Bytes16(t.sec / 0x1_0000_0000);
    assert s[2..6] == Bytes32(t.sec % 0x1_0000_0000);
    assert s[6..] == Bytes32(t.ns % 0x1_0000_0000);
    hide TimestampBytes, Bytes16, Bytes32, ToLong;
    Bytes32RoundTrip(t.sec % 0x1_0000_0000);
    Bytes32RoundTrip(t.ns % 0x1_0000_0000);
    Bytes16RoundTrip(t.sec / 0x1_0000_0000);
  }

  lemma SecondsReadBack(sec: int)
    ensures sec / 0x1_0000_0000 % 0x1_0000 * 0x1_0000_0000 + sec % 0x1_0000_0000 == sec
            <==> 0 <= sec < 0x1_0000_0000_0000
  {
    var high := sec / 0x1_0000_0000;
    assert sec == high * 0x1_0000_0000 + sec % 0x1_0000_0000;
  }

  lemma Bytes32RoundTrip(v: ULong)
    ensures Be32(Bytes32(v), 0) == v
  {
    var q: int := v / 0x100;
    assert v / 0x1_0000 == q / 0x100 && v / 0x100_0000 == q / 0x100 / 0x100;
    assert q / 0x100 / 0x100 < 0x100;
  }

  lemma Bytes16RoundTrip(v: int)
    ensures Be16(Bytes16(v), 0) == v % 0x1_0000
  {
  }

  /** A Delay_Req reads back as ours in our own domain exactly when no bit of the transport
      nibble falls outside the bits the domain number already has. */
  lemma DelayReqRoundTrip(transport: Byte, domain: Byte, portId: seq<Byte>, sequenceId: UShort)
    requires |portId| == 10
    ensures var p := ParseHeader(DelayReqBytes(transport, domain, portId, sequenceId), domain);
            && (p.Accepted? <==> BitsWithin(transport % 16 * 16, domain))
            && (p.Accepted? ==>
                  p.hdr == Header(0, TYPE_DELAY_REQ, 2, 44, domain, 0, 0, 0, portId, sequenceId, 0)
                  && p.body == Zeros(10))
  {
    DelayReqDomainKept(transport, domain);
    var d := DelayReqDomain(transport, domain);
    hide DelayReqDomain, BitsWithin, HeaderBytes;
    PrintedHeaderRoundTrip(TYPE_DELAY_REQ, 44, d, 0, portId, sequenceId, 0, Zeros(10));
  }

  lemma DelayReqDomainKept(transport: Byte, domain: Byte)
    ensures DelayReqDomain(transport, domain) == domain <==> BitsWithin(transport % 16 * 16, domain)
  {
    EightBits();
    hide BitOr, BitsWithin, Pow2;
    OrKeeps(transport % 16 * 16, domain);
    OrBound(transport % 16 * 16, domain, 8);
  }

  predicate BitAt(n: nat, k: nat) {
    if k == 0 then n % 2 == 1 else BitAt(n / 2, k - 1)
  }

  lemma {:induction false} OrBits(a: nat, b: nat, k: nat)
    ensures BitAt(BitOr(a, b), k) <==> BitAt(a, k) || BitAt(b, k)
  {
    if a == 0 {
      NoBits(k);
    } else if k > 0 {
      OrBits(a / 2, b / 2, k - 1);
    }
  }

  lemma {:induction false} NoBits(k: nat)
    ensures !BitAt(0, k)
  {
    if k > 0 {
      NoBits(k - 1);
    }
  }

  /** The domain byte of a Delay_Req has the bits of the domain and, four higher, those of the
      transport nibble. */
  lemma DelayReqDomainBits(transport: Byte, domain: Byte, k: nat)
    requires k < 8
    ensures BitAt(DelayReqDomain(transport, domain), k)
            <==> BitAt(domain, k) || (k >= 4 && BitAt(transport, k - 4))
  {
    hide BitOr, Pow2, BitAt, BitsWithin;
    var nibble := transport % 16 * 16;
    OrFits(nibble, domain);
    OrBits(nibble, domain, k);
    NibbleBits(transport, k);
  }

  lemma OrFits(a: nat, b: nat)
    requires a < 0x100 && b < 0x100
    ensures BitOr(a, b) < 0x100
  {
    hide BitOr, Pow2;
    EightBits();
    OrBound(a, b, 8);
  }

  lemma NibbleBits(transport: Byte, k: nat)
    requires k < 8
    ensures BitAt(transport % 16 * 16, k) <==> k >= 4 && BitAt(transport, k - 4)
  {
    hide BitAt;
    var t := transport % 16;
    Doubled(t * 8, k);
    if k >= 1 {
      Doubled(t * 4, k - 1);
    }
    if k >= 2 {
      Doubled(t * 2, k - 2);
    }
    if k >= 3 {
      Doubled(t, k - 3);
    }
    if k >= 4 {
      LowBits(transport, k - 4);
    }
  }

  lemma Doubled(n: nat, k: nat)
    ensures BitAt(2 * n, k) <==> k >= 1 && BitAt(n, k - 1)
  {
  }

  lemma LowBits(n: nat, k: nat)
    requires k < 4
    ensures BitAt(n % 16, k) <==> BitAt(n, k)
  {
    hide BitAt;
    var q, r := n / 16, n % 16;
    assert n == r + 2 * (8 * q);
    AddTwice(r, 8 * q, k);
    AddTwice(r, 0, k);
    if k > 0 {
      AddTwice(r / 2, 4 * q, k - 1);
      AddTwice(r / 2, 0, k - 1);
    }
    if k > 1 {
      AddTwice(r / 2 / 2, 2 * q, k - 2);
      AddTwice(r / 2 / 2, 0, k - 2);
    }
    if k > 2 {
      AddTwice(r / 2 / 2 / 2, q, 0);
      AddTwice(r / 2 / 2 / 2, 0, 0);
    }
  }

  lemma AddTwice(n: nat, x: nat, k: nat)
    ensures BitAt(n + 2 * x, k) == if k == 0 then n % 2 == 1 else BitAt(n / 2 + x, k - 1)
  {
    assert (n + 2 * x) / 2 == n / 2 + x;
  }

  lemma EightBits()
    ensures Pow2(8) == 256
  {
    assert Pow2(2) == 4;
    assert Pow2(4) == 16;
    assert Pow2(6) == 64;
  }

  lemma {:induction false} OrKeeps(a: nat, b: nat)
    ensures BitOr(a, b) == b <==> BitsWithin(a, b)
  {
    if a != 0 {
      OrKeeps(a / 2, b / 2);
    }
  }

  function Pow2(n: nat): nat {
    if n == 0 then 1 else 2 * Pow2(n - 1)
  }

  lemma {:induction false} OrBound(a: nat, b: nat, n: nat)
    requires a < Pow2(n) && b < Pow2(n)
    ensures BitOr(a, b) < Pow2(n)
  {
    if a != 0 && n > 0 {
      OrBound(a / 2, b / 2, n - 1);
    }
  }

  // ----- the code's in-place form -----

  /** Two bytes at the read pointer, which moves past them. */
  method Read16(packet: seq<Byte>, ptr: nat) returns (v: UShort, next: nat)
    requires ptr + 2 <= |packet|
    ensures v == Be16(packet, ptr) && next == ptr + 2
  {
    v := packet[ptr];
    v, next := (v as int) * 0x100 + packet[ptr + 1], ptr + 2;
  }

  method Read32(packet: seq<Byte>, ptr: nat) returns (v: ULong, next: nat)
    requires ptr + 4 <= |packet|
    ensures v == Be32(packet, ptr) && next == ptr + 4
  {
    var high, low;
    high, next := Read16(packet, ptr);
    low, next := Read16(packet, next);
    v := (high as int) * 0x1_0000 + low;
  }

  /** Validity checks, then a walk over the header with one read pointer. */
  method ReadHeader(packet: seq<Byte>, domain: Byte) returns (p: Packet)
    ensures p == ParseHeader(packet, domain)
  {
    if |packet| < HDR_LEN || packet[1] % 16 != 2 || packet[4] != domain {
      return Dropped;
    }
    var length, flags, cHigh, cLow, sequenceId;
    var first, version, ptr := packet[0], packet[1], 2;
    length, ptr := Read16(packet, ptr);
    var domainNumber := packet[ptr];
    ptr := ptr + 2;
    flags, ptr := Read16(packet, ptr);
    cHigh, ptr := Read32(packet, ptr);
    cLow, ptr := Read32(packet, ptr);
    ptr := ptr + 4;
    var source := packet[ptr..ptr + 10];
    ptr := ptr + 10;
    sequenceId, ptr := Read16(packet, ptr);
    ptr := ptr + 1;
    var hdr := Header(first / 16, first % 16, version % 16, length, domainNumber, flags, cHigh, cLow,
                      source, sequenceId, packet[ptr]);
    var len := |packet|;
    if len > hdr.messageLength {
      if hdr.messageLength < HDR_LEN {
        return Dropped;
      }
      len := hdr.messageLength;
    }
    p := Accepted(hdr, packet[HDR_LEN..len]);
  }

  /** The timestamp of a message, stored limb by limb. */
  method ReadTimestamp(body: seq<Byte>, time: PtpTime)
    requires |body| >= 10
    modifies time
    ensures time.Value() == ParseTimestamp(body)
  {
    var ptr, nanoseconds;
    time.high, ptr := Read16(body, 0);
    time.low, ptr := Read32(body, ptr);
    nanoseconds, ptr := Read32(body, ptr);
    time.nano := ToLong(nanoseconds);
  }

  /** A packet under construction: bytes are stored at the append pointer, which moves on. */
  class PacketBuffer {
    var data: seq<Byte>

    constructor ()
      ensures data == []
    {
      data := [];
    }

    method Put(bytes: seq<Byte>)
      modifies this
      ensures data == old(data) + bytes
    {
      data := data + bytes;
    }

    method Put16(v: UShort)
      modifies this
      ensures data == old(data) + Bytes16(v)
    {
      data := data + [v / 0x100];
      data := data + [v % 0x100];
    }
  }

  lemma Regroup(base: seq<Byte>, done: seq<Byte>, more: seq<Byte>)
    ensures base + done + more == base + (done + more)
  {
  }

  method WriteHeader(p: PacketBuffer, first: Byte, length: UShort, domain: Byte, flagLow: Byte,
                     portId: seq<Byte>, sequenceId: UShort, control: Byte)
    requires |portId| == 10
    modifies p
    ensures p.data == old(p.data) + HeaderBytes(first, length, domain, flagLow, portId, sequenceId, control)
  {
    ghost var base := p.data;
    ghost var h := [first, 2];
    p.Put([first, 2]);
    p.Put16(length);
    Regroup(base, h, Bytes16(length));
    h := h + Bytes16(length);
    p.Put([domain, 0, 0, flagLow]);
    Regroup(base, h, [domain, 0, 0, flagLow]);
    h := h + [domain, 0, 0, flagLow];
    p.Put(Zeros(12));
    Regroup(base, h, Zeros(12));
    h := h + Zeros(12);
    p.Put(portId);
    Regroup(base, h, portId);
    h := h + portId;
    p.Put16(sequenceId);
    Regroup(base, h, Bytes16(sequenceId));
    h := h + Bytes16(sequenceId);
    p.Put([control, 0]);
    Regroup(base, h, [control, 0]);
  }

  method WriteAnnounceBody(p: PacketBuffer, portId: seq<Byte>, clock: ClockInfo)
    requires |portId| == 10 && clock.identity == portId[..8]
    modifies p
    ensures p.data == old(p.data) + AnnounceBody(clock)
  {
    ghost var base := p.data;
    ghost var body := Zeros(13);
    p.Put(Zeros(10) + [0, 0] + [0]);
    assert Zeros(10) + [0, 0] + [0] == Zeros(13);
    var quality := [clock.priority1, clock.clockClass, clock.accuracy];
    p.Put(quality);
    Regroup(base, body, quality);
    body := body + quality;
    p.Put16(clock.variance);
    Regroup(base, body, Bytes16(clock.variance));
    body := body + Bytes16(clock.variance);
    p.Put([clock.priority2]);
    Regroup(base, body, [clock.priority2]);
    body := body + [clock.priority2];
    p.Put(portId[..8]);
    Regroup(base, body, clock.identity);
    body := body + clock.identity;
    p.Put([0, 0, clock.timeSource]);
    Regroup(base, body, [0, 0, clock.timeSource]);
    body := body + [0, 0, clock.timeSource];
    p.Put([0, 8, 0, 8]);
    Regroup(base, body, [0, 8, 0, 8]);
    body := body + [0, 8, 0, 8];
    p.Put(portId[..8]);
    Regroup(base, body, clock.identity);
  }

  method WriteAnnounce(p: PacketBuffer, transport: Byte, domain: Byte, portId: seq<Byte>,
                       sequenceId: UShort, clock: ClockInfo)
    requires |portId| == 10 && clock.identity == portId[..8]
    modifies p
    ensures p.data == old(p.data) + AnnounceBytes(transport, domain, portId, sequenceId, clock)
  {
    hide HeaderBytes, AnnounceBody;
    ghost var base := p.data;
    WriteHeader(p, transport % 16 * 16 + TYPE_ANNOUNCE, 76, domain, 8, portId, sequenceId, 5);
    WriteAnnounceBody(p, portId, clock);
    Regroup(base, HeaderBytes(transport % 16 * 16 + TYPE_ANNOUNCE, 76, domain, 8, portId, sequenceId, 5),
            AnnounceBody(clock));
  }

  method WriteDelayReq(p: PacketBuffer, transport: Byte, domain: Byte, portId: seq<Byte>, sequenceId: UShort)
    requires |portId| == 10
    modifies p
    ensures p.data == old(p.data) + DelayReqBytes(transport, domain, portId, sequenceId)
  {
    hide HeaderBytes, DelayReqDomain;
    ghost var base := p.data;
    WriteHeader(p, TYPE_DELAY_REQ, 44, DelayReqDomain(transport, domain), 0, portId, sequenceId, 0);
    p.Put(Zeros(10));
    Regroup(base, HeaderBytes(TYPE_DELAY_REQ, 44, DelayReqDomain(transport, domain), 0, portId, sequenceId, 0),
            Zeros(10));
  }

  method NewAnnounce(transport: Byte, domain: Byte, portId: seq<Byte>, sequenceId: UShort, clock: ClockInfo)
    returns (bytes: seq<Byte>)
    requires |portId| == 10 && clock.identity == portId[..8]
    ensures bytes == AnnounceBytes(transport, domain, portId, sequenceId, clock)
  {
    hide AnnounceBytes;
    var packet := new PacketBuffer();
    WriteAnnounce(packet, transport, domain, portId, sequenceId, clock);
    bytes := packet.data;
    Regroup([], [], bytes);
  }

  method NewDelayReq(transport: Byte, domain: Byte, portId: seq<Byte>, sequenceId: UShort)
    returns (bytes: seq<Byte>)
    requires |portId| == 10
    ensures bytes == DelayReqBytes(transport, domain, portId, sequenceId)
  {
    hide DelayReqBytes;
    var packet := new PacketBuffer();
    WriteDelayReq(packet, transport, domain, portId, sequenceId);
    bytes := packet.data;
    Regroup([], [], bytes);
  }
}
