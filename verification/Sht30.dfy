/** Reading the SHT30: two words, each guarded by its checksum, stored as they are accepted. */
module Sht30 {
  import opened Crc8
  import opened Crc8Distance

  /** A word of the sensor's, the more significant byte first. */
  function Raw(msb: bv8, lsb: bv8): (raw: int)
    ensures 0 <= raw <= 65535
  {
    (msb as int) * 256 + lsb as int
  }

  ghost predicate TempAccepted(buf: seq<bv8>)
    requires |buf| == 6
  {
    Accepted(buf[..2], buf[2])
  }

  ghost predicate HumidityAccepted(buf: seq<bv8>)
    requires |buf| == 6
  {
    Accepted(buf[3..5], buf[5])
  }

  class Sensor {
    var temp: real
    var humidity: real

    /** Reads both words. A refused humidity leaves the new temperature stored. */
    method GetTempHumid(failed: bool, buf: seq<bv8>) returns (status: int)
      requires |buf| == 6
      modifies this
      ensures status == if !failed && TempAccepted(buf) && HumidityAccepted(buf) then 0 else 1
      ensures temp == if !failed && TempAccepted(buf)
                      then -45.0 + 175.0 * ((256 * (buf[0] as int) + buf[1] as int) as real) / 65535.0 else old(temp)
      ensures humidity == if status == 0
                          then 100.0 * ((256 * (buf[3] as int) + buf[4] as int) as real) / 65535.0 else old(humidity)
    {
      hide Accepted;
      if failed {
        return 1;
      }
      var raw := Raw(buf[0], buf[1]);
      var crc := CalculateCrc(buf[..2]);
      if buf[2] != crc {
        return 1;
      }
      temp := -45.0 + 175.0 * (raw as real / 65535.0);
      raw := Raw(buf[3], buf[4]);
      crc := CalculateCrc(buf[3..5]);
      if buf[5] != crc {
        return 1;
      }
      humidity := 100.0 * (raw as real / 65535.0);
      return 0;
    }

    /** Two accepted readings, one after the other: each scale goes from its bottom to its top, and the
        word that is greater by its first byte, or then by its second, reads strictly higher. */
    method ReadTwice(buf1: seq<bv8>, buf2: seq<bv8>)
      returns (temp1: real, temp2: real, humidity1: real, humidity2: real)
      requires |buf1| == 6 && TempAccepted(buf1) && HumidityAccepted(buf1)
      requires |buf2| == 6 && TempAccepted(buf2) && HumidityAccepted(buf2)
      modifies this
      ensures -45.0 <= temp1 <= 130.0 && 0.0 <= humidity1 <= 100.0
      ensures temp1 < temp2 <==> WordBelow(buf1[0], buf1[1], buf2[0], buf2[1])
      ensures humidity1 < humidity2 <==> WordBelow(buf1[3], buf1[4], buf2[3], buf2[4])
    {
      hide Accepted, WordBelow;
      var status := GetTempHumid(false, buf1);
      temp1, humidity1 := temp, humidity;
      status := GetTempHumid(false, buf2);
      temp2, humidity2 := temp, humidity;
      Scales(buf1[0], buf1[1], buf2[0], buf2[1]);
      Scales(buf1[3], buf1[4], buf2[3], buf2[4]);
    }
  }

  predicate WordBelow(msb1: bv8, lsb1: bv8, msb2: bv8, lsb2: bv8) {
    msb1 < msb2 || (msb1 == msb2 && lsb1 < lsb2)
  }

  lemma Scales(msb1: bv8, lsb1: bv8, msb2: bv8, lsb2: bv8)
    ensures var x := (256 * (msb1 as int) + lsb1 as int) as real;
            var y := (256 * (msb2 as int) + lsb2 as int) as real;
            && 0.0 <= 100.0 * x / 65535.0 <= 100.0 && -45.0 <= -45.0 + 175.0 * x / 65535.0 <= 130.0
            && (100.0 * x / 65535.0 < 100.0 * y / 65535.0 <==> WordBelow(msb1, lsb1, msb2, lsb2))
            && (-45.0 + 175.0 * x / 65535.0 < -45.0 + 175.0 * y / 65535.0 <==> WordBelow(msb1, lsb1, msb2, lsb2))
  {
    WordOrder(msb1, lsb1, msb2, lsb2);
    hide WordBelow;
  }

  lemma WordOrder(msb1: bv8, lsb1: bv8, msb2: bv8, lsb2: bv8)
    ensures 256 * (msb1 as int) + lsb1 as int < 256 * (msb2 as int) + lsb2 as int
            <==> WordBelow(msb1, lsb1, msb2, lsb2)
  {
    ByteOrder(msb1, msb2);
    ByteOrder(msb2, msb1);
    ByteOrder(lsb1, lsb2);
  }

  lemma ByteOrder(a: bv8, b: bv8)
    ensures a < b <==> (a as int) < (b as int)
  {
  }

  /** Bits in which the words at some place of two buffers differ, checksums included. */
  function Damage(sent: seq<bv8>, got: seq<bv8>, at: nat): nat
    requires at + 3 <= |sent| == |got|
  {
    Terms(Add(Frame(sent[at..at + 2], sent[at + 2]), Frame(got[at..at + 2], got[at + 2])))
  }

  /** If at most three bits of each word were damaged on the way and both words are accepted, they
      arrived as they were sent. */
  lemma AcceptedReadingIsIntact(sent: seq<bv8>, got: seq<bv8>)
    requires |sent| == 6 && |got| == 6
    requires TempAccepted(sent) && HumidityAccepted(sent) && TempAccepted(got) && HumidityAccepted(got)
    requires Damage(sent, got, 0) <= 3 && Damage(sent, got, 3) <= 3
    ensures got == sent
  {
    hide Accepted, Terms, Add, Frame;
    ThreeErrorsAreDetected(sent[..2], sent[2], got[..2], got[2]);
    ThreeErrorsAreDetected(sent[3..5], sent[5], got[3..5], got[5]);
    assert got == got[..2] + [got[2]] + got[3..5] + [got[5]];
    assert sent == sent[..2] + [sent[2]] + sent[3..5] + [sent[5]];
  }
}
