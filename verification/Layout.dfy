/** Where everything is in a packet, byte by byte: IEEE 1588-2008 sections 13.3.1, 13.5 to 13.8 and
    5.3.3. The numbers are ClockOrder.Number of the bytes, apart from the parser. */
module Layout {
  import opened Words
  import opened PtpTime
  import opened ClockOrder
  import opened Wire
  import opened Client
  import opened OffsetTheorem

  /** A number of so many bits read as two's complement. */
  function Signed(n: nat, turn: nat): int {
    if 2 * n < turn then n else n - turn
  }

  lemma NumberSplit(s: seq<Byte>, x: Byte)
    ensures Number(s + [x]) == Number(s) * 256 + x
  {
    assert (s + [x])[..|s|] == s;
  }

  lemma Number2(s: seq<Byte>, at: nat)
    requires at + 2 <= |s|
    ensures Number(s[at..at + 2]) == Be16(s, at)
  {
    assert s[at..at + 2] == [s[at]] + [s[at + 1]] == [] + [s[at]] + [s[at + 1]];
    NumberSplit([], s[at]);
    NumberSplit([s[at]], s[at + 1]);
  }

  lemma Number4(s: seq<Byte>, at: nat)
    requires at + 4 <= |s|
    ensures Number(s[at..at + 4]) == Be32(s, at)
  {
    Number2(s, at);
    assert s[at..at + 3] == s[at..at + 2] + [s[at + 2]];
    assert s[at..at + 4] == s[at..at + 3] + [s[at + 3]];
    NumberSplit(s[at..at + 2], s[at + 2]);
    NumberSplit(s[at..at + 3], s[at + 3]);
  }

  lemma Number6(s: seq<Byte>, at: nat)
    requires at + 6 <= |s|
    ensures Number(s[at..at + 6]) == Be16(s, at) * 0x1_0000_0000 + Be32(s, at + 2)
  {
    Number2(s, at);
    Append4(s, at, 2);
  }

  lemma Number8(s: seq<Byte>, at: nat)
    requires at + 8 <= |s|
    ensures Number(s[at..at + 8]) == Be32(s, at) * 0x1_0000_0000 + Be32(s, at + 4)
  {
    Number4(s, at);
    Append4(s, at, 4);
  }

  lemma Append4(s: seq<Byte>, at: nat, n: nat)
    requires at + n + 4 <= |s|
    ensures Number(s[at..at + n + 4]) == Number(s[at..at + n]) * 0x1_0000_0000 + Be32(s, at + n)
  {
    var k := at + n;
    assert s[at..k + 1] == s[at..k] + [s[k]];
    assert s[at..k + 2] == s[at..k + 1] + [s[k + 1]];
    assert s[at..k + 3] == s[at..k + 2] + [s[k + 2]];
    assert s[at..k + 4] == s[at..k + 3] + [s[k + 3]];
    NumberSplit(s[at..k], s[k]);
    NumberSplit(s[at..k + 1], s[k + 1]);
    NumberSplit(s[at..k + 2], s[k + 2]);
    NumberSplit(s[at..k + 3], s[k + 3]);
  }

  // ----- the header -----

  /** Long enough, version 2, of this domain, and declaring no length that would cut the header. */
  predicate WellFormed(packet: seq<Byte>, domain: Byte) {
    && |packet| >= 34 && packet[1] % 16 == 2 && packet[4] == domain
    && !(Number(packet[2..4]) < 34 && Number(packet[2..4]) < |packet|)
  }

  /** Exactly the well-formed packets are accepted, and every field is read from its place. */
  lemma HeaderFields(packet: seq<Byte>, domain: Byte)
    ensures var p := ParseHeader(packet, domain);
            && (p.Accepted? <==> WellFormed(packet, domain))
            && (p.Accepted? ==>
                  && p.hdr.transportSpecific == packet[0] / 16 && p.hdr.messageType == packet[0] % 16
                  && p.hdr.version == 2 && p.hdr.messageLength == Number(packet[2..4]) && p.hdr.domain == domain
                  && p.hdr.flags == Number(packet[6..8])
                  && CorrectionField(p.hdr) == Signed(Number(packet[8..16]), 0x1_0000_0000_0000_0000)
                  && p.hdr.source == packet[20..30]
                  && p.hdr.sequenceId == Number(packet[30..32])
                  && p.hdr.logInterval == packet[33])
  {
    if |packet| >= 34 {
      Number2(packet, 2);
      Number2(packet, 6);
      Number2(packet, 30);
      Number8(packet, 8);
    }
    hide Number, Be16, Be32;
  }

  /** The payload is what follows the header, up to the length declared. */
  lemma PayloadFollows(packet: seq<Byte>, domain: Byte)
    requires WellFormed(packet, domain)
    ensures var length := if Number(packet[2..4]) < |packet| then Number(packet[2..4]) else |packet|;
            34 <= length <= |packet| && ParseHeader(packet, domain).Accepted?
            && ParseHeader(packet, domain).body == packet[34..length]
  {
    Number2(packet, 2);
    hide Number, Be16, Be32;
  }

  lemma PayloadSlice(packet: seq<Byte>, length: nat, from: nat, to: nat)
    requires 34 <= length <= |packet| && from <= to <= length - 34
    ensures packet[34..length][from..to] == packet[34 + from..34 + to]
  {
    var whole, part := packet[34..length], packet[34 + from..34 + to];
    forall i | 0 <= i < to - from
      ensures whole[from..to][i] == part[i]
    {
      assert whole[from..to][i] == whole[from + i] == packet[34 + from + i];
    }
  }

  /** Two-step is bit 1 of the first flag byte; UTC reasonable, leap59 and leap61 are bits 2, 1 and 0
      of the second. */
  lemma FlagBits(packet: seq<Byte>, domain: Byte)
    requires WellFormed(packet, domain)
    ensures ParseHeader(packet, domain).Accepted?
    ensures var hdr := ParseHeader(packet, domain).hdr;
            && (Bit(hdr.flags, 9) <==> packet[6] / 2 % 2 == 1)
            && AnnouncedFlags(hdr)
               == SyncFlags(false, packet[7] / 4 % 2 == 1, packet[7] / 2 % 2 == 1, packet[7] % 2 == 1)
  {
    HeaderFields(packet, domain);
    Number2(packet, 6);
    hide ParseHeader, Number;
    BitsOfTwo(packet[6], packet[7]);
  }

  lemma BitsOfTwo(high: Byte, low: Byte)
    ensures var flags: UShort := high * 0x100 + low;
            && (Bit(flags, 9) <==> high / 2 % 2 == 1) && (Bit(flags, 2) <==> low / 4 % 2 == 1)
            && (Bit(flags, 1) <==> low / 2 % 2 == 1) && (Bit(flags, 0) <==> low % 2 == 1)
  {
    var flags: UShort := high * 0x100 + low;
    assert flags / 512 == high / 2;
    assert flags / 4 == high * 64 + low / 4 && flags / 2 == high * 128 + low / 2;
    assert Bit(flags, 9) <==> flags / 512 % 2 == 1;
    assert Bit(flags, 2) <==> flags / 4 % 2 == 1;
    assert Bit(flags, 1) <==> flags / 2 % 2 == 1;
    assert Bit(flags, 0) <==> flags / 1 % 2 == 1;
    hide Bit;
    EvenPlus(high * 32, low / 4);
    EvenPlus(high * 64, low / 2);
    EvenPlus(high * 128, low);
  }

  lemma EvenPlus(half: nat, n: nat)
    ensures (2 * half + n) % 2 == n % 2
  {
  }

  // ----- timestamps -----

  /** 48 bits of seconds, 32 signed bits of nanoseconds. */
  lemma StampOfBytes(body: seq<Byte>)
    requires |body| >= 10
    ensures ParseTimestamp(body) == Time(Number(body[..6]), Signed(Number(body[6..10]), 0x1_0000_0000))
  {
    Number6(body, 0);
    Number4(body, 6);
    assert body[..6] == body[0..6];
    hide Number, Be16, Be32;
  }

  /** The timestamp of a packet is in its bytes 34 to 43. */
  lemma StampOfPacket(packet: seq<Byte>, domain: Byte)
    requires ParseHeader(packet, domain).Accepted? && |ParseHeader(packet, domain).body| >= 10
    ensures |packet| >= 44
    ensures ParseTimestamp(ParseHeader(packet, domain).body)
            == Time(Number(packet[34..40]), Signed(Number(packet[40..44]), 0x1_0000_0000))
  {
    hide Number, Signed, ParseHeader, ParseTimestamp, CorrectionField;
    HeaderFields(packet, domain);
    PayloadFollows(packet, domain);
    var body := ParseHeader(packet, domain).body;
    PayloadSlice(packet, 34 + |body|, 0, 6);
    PayloadSlice(packet, 34 + |body|, 6, 10);
    assert body[..6] == body[0..6];
    StampOfBytes(body);
  }

  /** For a Sync or Follow_Up as it comes: t1 is its timestamp plus its correction field, a signed
      number of 2^-16 ns in bytes 8 to 15, floored to nanoseconds, exactly when that is from 0 to
      below 2^32. */
  lemma PacketCarriesCorrection(packet: seq<Byte>, domain: Byte)
    requires ParseHeader(packet, domain).Accepted? && |ParseHeader(packet, domain).body| >= 10
    requires |packet| >= 44
    requires 0 <= Signed(Number(packet[40..44]), 0x1_0000_0000) < 1_000_000_000
    ensures var p := ParseHeader(packet, domain);
            var correction := Signed(Number(packet[8..16]), 0x1_0000_0000_0000_0000) / 0x1_0000;
            var stamp := Time(Number(packet[34..40]), Signed(Number(packet[40..44]), 0x1_0000_0000));
            Nanos(CorrectedSync(p.hdr, p.body)) == Nanos(stamp) + correction <==> 0 <= correction < 0x1_0000_0000
  {
    hide Number, Signed, ParseHeader, ParseTimestamp, CorrectedSync, CorrectionField, Nanos;
    HeaderFields(packet, domain);
    StampOfPacket(packet, domain);
    var p := ParseHeader(packet, domain);
    SyncCarriesCorrection(p.hdr, p.body);
  }

  // ----- Announce -----

  lemma AnnounceFields(packet: seq<Byte>, domain: Byte)
    requires ParseHeader(packet, domain).Accepted? && |ParseHeader(packet, domain).body| >= ANNOUNCE_LEN
    ensures |packet| >= 64
    ensures var a := ParseAnnounce(ParseHeader(packet, domain).body);
            && a.utcOffset == Signed(Number(packet[44..46]), 0x1_0000)
            && a.clock.priority1 == packet[47] && a.clock.clockClass == packet[48] && a.clock.accuracy == packet[49]
            && a.clock.variance == Number(packet[50..52]) && a.clock.priority2 == packet[52]
            && a.clock.identity == packet[53..61] && a.clock.stepsRemoved == Number(packet[61..63])
            && a.clock.timeSource == packet[63]
  {
    hide Number, ParseHeader;
    HeaderFields(packet, domain);
    PayloadFollows(packet, domain);
    var body := ParseHeader(packet, domain).body;
    Number2(body, 10);
    Number2(body, 16);
    Number2(body, 27);
    PayloadSlice(packet, 34 + |body|, 10, 12);
    PayloadSlice(packet, 34 + |body|, 16, 18);
    PayloadSlice(packet, 34 + |body|, 27, 29);
    PayloadSlice(packet, 34 + |body|, 19, 27);
  }

  // ----- what is printed -----

  /** Every byte of a printed Announce: a TLV with the path follows the fields above. */
  lemma PrintedAnnounceBytes(transport: Byte, domain: Byte, portId: seq<Byte>, sequenceId: UShort, clock: ClockInfo)
    requires |portId| == 10 && ValidClock(clock)
    ensures var p := AnnounceBytes(transport, domain, portId, sequenceId, clock);
            && |p| == 76 && p[0] / 16 == transport % 16 && p[0] % 16 == 11 && p[1] == 2 && Number(p[2..4]) == 76
            && p[4..8] == [domain, 0, 0, 8] && p[8..20] == Zeros(12)
            && p[20..30] == portId && Number(p[30..32]) == sequenceId && p[32..34] == [5, 0]
            && p[34..47] == Zeros(13)
            && p[47..50] == [clock.priority1, clock.clockClass, clock.accuracy] && Number(p[50..52]) == clock.variance
            && p[52] == clock.priority2 && p[53..61] == clock.identity && p[61..64] == [0, 0, clock.timeSource]
            && p[64..68] == [0, 8, 0, 8] && p[68..76] == clock.identity
  {
    var h := HeaderBytes(transport % 16 * 16 + TYPE_ANNOUNCE, 76, domain, 8, portId, sequenceId, 5);
    var b := AnnounceBody(clock);
    PrintedHeaderBytes(transport % 16 * 16 + TYPE_ANNOUNCE, 76, domain, 8, portId, sequenceId, 5);
    PrintedAnnounceBody(clock);
    hide HeaderBytes, AnnounceBody, Number;
    var p := AnnounceBytes(transport, domain, portId, sequenceId, clock);
    assert p == h + b;
    assert p[2..4] == h[2..4] && p[4..8] == h[4..8] && p[8..20] == h[8..20] && p[20..30] == h[20..30];
    assert p[30..32] == h[30..32] && p[32..34] == h[32..34];
    assert p[34..47] == b[..13] && p[47..50] == b[13..16] && p[50..52] == b[16..18] && p[53..61] == b[19..27];
    assert p[61..64] == b[27..30] && p[64..68] == b[30..34] && p[68..76] == b[34..42];
  }

  lemma PrintedHeaderBytes(first: Byte, length: UShort, domain: Byte, flagLow: Byte, source: seq<Byte>,
                           sequenceId: UShort, control: Byte)
    requires |source| == 10
    ensures var h := HeaderBytes(first, length, domain, flagLow, source, sequenceId, control);
            && h[0] == first && h[1] == 2 && Number(h[2..4]) == length
            && h[4..8] == [domain, 0, 0, flagLow] && h[8..20] == Zeros(12)
            && h[20..30] == source && Number(h[30..32]) == sequenceId && h[32..34] == [control, 0]
  {
    var h := HeaderBytes(first, length, domain, flagLow, source, sequenceId, control);
    Number2(h, 2);
    Number2(h, 30);
    hide Number;
  }

  lemma PrintedAnnounceBody(clock: ClockInfo)
    requires ValidClock(clock)
    ensures var b := AnnounceBody(clock);
            && b[..13] == Zeros(13) && b[13..16] == [clock.priority1, clock.clockClass, clock.accuracy]
            && Number(b[16..18]) == clock.variance && b[18] == clock.priority2 && b[19..27] == clock.identity
            && b[27..30] == [0, 0, clock.timeSource] && b[30..34] == [0, 8, 0, 8] && b[34..42] == clock.identity
  {
    var b := AnnounceBody(clock);
    Number2(b, 16);
    hide Number;
  }

  /** Every byte of a Delay_Req; its domain byte is the domain or-ed with the transport nibble. */
  lemma PrintedDelayReqBytes(transport: Byte, domain: Byte, portId: seq<Byte>, sequenceId: UShort)
    requires |portId| == 10
    ensures var p := DelayReqBytes(transport, domain, portId, sequenceId);
            && |p| == 44 && p[0] == 1 && p[1] == 2 && Number(p[2..4]) == 44
            && p[4..8] == [DelayReqDomain(transport, domain), 0, 0, 0] && p[8..20] == Zeros(12)
            && p[20..30] == portId && Number(p[30..32]) == sequenceId && p[32..34] == [0, 0]
            && p[34..44] == Zeros(10)
  {
    var d := DelayReqDomain(transport, domain);
    PrintedHeaderBytes(TYPE_DELAY_REQ, 44, d, 0, portId, sequenceId, 0);
    var h := HeaderBytes(TYPE_DELAY_REQ, 44, d, 0, portId, sequenceId, 0);
    hide HeaderBytes, Number, DelayReqDomain;
    var p := DelayReqBytes(transport, domain, portId, sequenceId);
    assert p[2..4] == h[2..4] && p[4..8] == h[4..8] && p[8..20] == h[8..20] && p[20..30] == h[20..30];
    assert p[30..32] == h[30..32] && p[32..34] == h[32..34];
  }
}
