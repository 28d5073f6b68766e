/** The attributes of a master clock and the comparison that elects one. */
module ClockOrder {
  import opened Words

  /** The part of NX_PTP_CLIENT_MASTER that an Announce carries. */
  datatype ClockInfo = ClockInfo(
    priority1: Byte, clockClass: Byte, accuracy: Byte, variance: UShort, priority2: Byte,
    identity: seq<Byte>, stepsRemoved: UShort, timeSource: Byte)

  predicate ValidClock(c: ClockInfo) {
    |c.identity| == 8
  }

  /** memcmp: the difference of the first bytes that differ. Only its sign is used. */
  function MemCmp(a: seq<Byte>, b: seq<Byte>): int
    requires |a| == |b|
  {
    if a == [] then 0
    else if a[0] != b[0] then a[0] - b[0]
    else MemCmp(a[1..], b[1..])
  }

  /** Positive when m1 is the better clock, zero when both have one identity. */
  function ClockCompare(m1: ClockInfo, m2: ClockInfo): int
    requires ValidClock(m1) && ValidClock(m2)
  {
    var byIdentity := MemCmp(m2.identity, m1.identity);
    if byIdentity == 0 then 0
    else if m2.priority1 != m1.priority1 then m2.priority1 - m1.priority1
    else if m2.clockClass != m1.clockClass then m2.clockClass - m1.clockClass
    else if m2.accuracy != m1.accuracy then m2.accuracy - m1.accuracy
    else if m2.variance != m1.variance then m2.variance - m1.variance
    else if m2.priority2 != m1.priority2 then m2.priority2 - m1.priority2
    else byIdentity
  }

  // ----- the order it computes -----

  /** A big-endian number. */
  function Number(s: seq<Byte>): nat {
    if s == [] then 0 else Number(s[..|s| - 1]) * 256 + s[|s| - 1]
  }

  function WithDigit(high: nat, digit: nat, base: nat): nat {
    high * base + digit
  }

  /** The clock's grade as the digits of one number, most significant first. */
  function Grade(c: ClockInfo): nat {
    WithDigit(WithDigit(c.priority1, c.clockClass, 0x100), c.accuracy, 0x100)
  }

  /** All compared attributes, the identity last. */
  function Rank(c: ClockInfo): nat {
    WithDigit(WithDigit(WithDigit(Grade(c), c.variance, 0x1_0000), c.priority2, 0x100),
              Number(c.identity), 0x1_0000_0000_0000_0000)
  }

  /** Clock a ranks before clock b in the election. */
  predicate Better(a: ClockInfo, b: ClockInfo) {
    Rank(a) < Rank(b)
  }

  lemma {:induction false} MemCmpAppend(a: seq<Byte>, b: seq<Byte>, x: Byte, y: Byte)
    requires |a| == |b|
    ensures MemCmp(a + [x], b + [y]) == if MemCmp(a, b) != 0 then MemCmp(a, b) else x - y
  {
    if a != [] {
      assert (a + [x])[1..] == a[1..] + [x] && (b + [y])[1..] == b[1..] + [y];
      if a[0] == b[0] {
        MemCmpAppend(a[1..], b[1..], x, y);
      }
    }
  }

  /** memcmp orders equally long strings as the numbers they spell. */
  lemma {:induction false} MemCmpComparesNumbers(a: seq<Byte>, b: seq<Byte>)
    requires |a| == |b|
    ensures MemCmp(a, b) > 0 <==> Number(a) > Number(b)
    ensures MemCmp(a, b) == 0 <==> Number(a) == Number(b)
    ensures MemCmp(a, b) == 0 <==> a == b
  {
    if a != [] {
      var n := |a| - 1;
      assert a == a[..n] + [a[n]] && b == b[..n] + [b[n]];
      MemCmpAppend(a[..n], b[..n], a[n], b[n]);
      MemCmpComparesNumbers(a[..n], b[..n]);
    }
  }

  lemma NumberBound(s: seq<Byte>)
    requires |s| == 8
    ensures Number(s) < 0x1_0000_0000_0000_0000
  {
    NumberBelow(s, 8);
  }

  function Power256(n: nat): nat {
    if n == 0 then 1 else 256 * Power256(n - 1)
  }

  lemma {:induction false} NumberBelow(s: seq<Byte>, n: nat)
    requires |s| == n
    ensures Number(s) < Power256(n)
  {
    if n > 0 {
      NumberBelow(s[..n - 1], n - 1);
    }
  }

  /** Adding a low digit refines the order of the high parts. */
  lemma DigitDecides(a: nat, b: nat, x: nat, y: nat, base: nat)
    requires x < base && y < base
    ensures WithDigit(a, x, base) < WithDigit(b, y, base) <==> a < b || (a == b && x < y)
    ensures WithDigit(a, x, base) == WithDigit(b, y, base) <==> a == b && x == y
  {
    if a < b {
      NextMultiple(a, b, base);
    } else if b < a {
      NextMultiple(b, a, base);
    }
  }

  lemma NextMultiple(a: int, b: int, base: int)
    requires a < b && base > 0
    ensures a * base + base <= b * base
  {
    var gap := b - a - 1;
    assert gap * base >= 0;
    assert b * base == (a + 1 + gap) * base;
  }

  /** The comparison is the order of Rank: hence antisymmetric in sign, total and transitive on
      clocks of different identities, and zero exactly when the identities are equal. */
  lemma CompareIsRankOrder(a: ClockInfo, b: ClockInfo)
    requires ValidClock(a) && ValidClock(b)
    ensures ClockCompare(a, b) == 0 <==> a.identity == b.identity
    ensures a.identity != b.identity ==> (ClockCompare(a, b) > 0 <==> Better(a, b))
    ensures a.identity != b.identity ==> (ClockCompare(a, b) < 0 <==> Better(b, a))
  {
    MemCmpComparesNumbers(b.identity, a.identity);
    MemCmpComparesNumbers(a.identity, b.identity);
    RankIsLexicographic(a, b);
    RankIsLexicographic(b, a);
  }

  lemma RankIsLexicographic(a: ClockInfo, b: ClockInfo)
    requires ValidClock(a) && ValidClock(b)
    ensures Better(a, b) <==>
      a.priority1 < b.priority1 || (a.priority1 == b.priority1 && (
      a.clockClass < b.clockClass || (a.clockClass == b.clockClass && (
      a.accuracy < b.accuracy || (a.accuracy == b.accuracy && (
      a.variance < b.variance || (a.variance == b.variance && (
      a.priority2 < b.priority2 || (a.priority2 == b.priority2 &&
      Number(a.identity) < Number(b.identity))))))))))
  {
    NumberBound(a.identity);
    NumberBound(b.identity);
    GradeIsLexicographic(a, b);
    var a1, b1 := WithDigit(Grade(a), a.variance, 0x1_0000), WithDigit(Grade(b), b.variance, 0x1_0000);
    var a2, b2 := WithDigit(a1, a.priority2, 0x100), WithDigit(b1, b.priority2, 0x100);
    DigitDecides(a2, b2, Number(a.identity), Number(b.identity), 0x1_0000_0000_0000_0000);
    hide Grade, WithDigit;
    DigitDecides(a1, b1, a.priority2, b.priority2, 0x100);
    DigitDecides(Grade(a), Grade(b), a.variance, b.variance, 0x1_0000);
  }

  lemma GradeIsLexicographic(a: ClockInfo, b: ClockInfo)
    ensures Grade(a) < Grade(b) <==>
      a.priority1 < b.priority1 || (a.priority1 == b.priority1 && (
      a.clockClass < b.clockClass || (a.clockClass == b.clockClass && a.accuracy < b.accuracy)))
    ensures Grade(a) == Grade(b) <==>
      a.priority1 == b.priority1 && a.clockClass == b.clockClass && a.accuracy == b.accuracy
  {
    var a1, b1 := WithDigit(a.priority1, a.clockClass, 0x100), WithDigit(b.priority1, b.clockClass, 0x100);
    hide WithDigit;
    DigitDecides(a1, b1, a.accuracy, b.accuracy, 0x100);
    DigitDecides(a.priority1, b.priority1, a.clockClass, b.clockClass, 0x100);
  }
}
