/** Which double errors the checksum misses: those a multiple of 127 bits apart. So any two
    accepted frames of at most 14 data bytes differ in at least four bits. */
module Crc8Distance {
  import opened Crc8

  // ----- the order of x -----

  lemma {:induction false} ShiftsCompose(b: bv8, m: nat, n: nat)
    ensures Shifts(Shifts(b, m), n) == Shifts(b, m + n)
  {
    hide ShiftByte;
    if n > 0 {
      ShiftsCompose(b, m, n - 1);
    }
  }

  lemma ShiftByteInjective(a: bv8, b: bv8)
    requires ShiftByte(a) == ShiftByte(b)
    ensures a == b
  {
  }

  lemma {:induction false} ShiftsInjective(a: bv8, b: bv8, n: nat)
    requires Shifts(a, n) == Shifts(b, n)
    ensures a == b
  {
    hide ShiftByte;
    if n > 0 {
      ShiftByteInjective(Shifts(a, n - 1), Shifts(b, n - 1));
      ShiftsInjective(a, b, n - 1);
    }
  }

  predicate Period(n: nat) {
    Shifts(1, n) == 1
  }

  function Shift8(b: bv8): bv8 {
    ShiftByte(ShiftByte(ShiftByte(ShiftByte(ShiftByte(ShiftByte(ShiftByte(ShiftByte(b))))))))
  }

  lemma Eight(b: bv8)
    ensures Shifts(b, 8) == Shift8(b)
  {
    hide ShiftByte;
    assert Shifts(b, 1) == ShiftByte(b);
    assert Shifts(b, 2) == ShiftByte(Shifts(b, 1));
    assert Shifts(b, 4) == ShiftByte(ShiftByte(Shifts(b, 2)));
    assert Shifts(b, 6) == ShiftByte(ShiftByte(Shifts(b, 4)));
    assert Shifts(b, 8) == ShiftByte(ShiftByte(Shifts(b, 6)));
  }

  lemma EightMore(n: nat, b: bv8)
    requires Shifts(1, n) == b
    ensures Shifts(1, n + 8) == Shift8(b)
  {
    hide Shift8;
    ShiftsCompose(1, n, 8);
    Eight(b);
  }

  /** Each power eight places on from the last. */
  lemma Powers()
    ensures Shift8(0x01) == 0x31 && Shift8(0x31) == 0xf4 && Shift8(0xf4) == 0x46 && Shift8(0x46) == 0x9b
    ensures Shift8(0x9b) == 0xd3 && Shift8(0xd3) == 0x57 && Shift8(0x57) == 0xe9 && Shift8(0xe9) == 0x49
    ensures Shift8(0x49) == 0xb5 && Shift8(0xb5) == 0x4a && Shift8(0x4a) == 0xe6 && Shift8(0xe6) == 0x67
    ensures Shift8(0x67) == 0x2c && Shift8(0x2c) == 0xfb && Shift8(0xfb) == 0x68
    ensures Shift8(0x68) == 0x02
  {
  }

  lemma Power128()
    ensures Shifts(1, 128) == 0x02
  {
    assert Shifts(1, 0) == 1;
    Powers();
    hide Shift8, ShiftByte, Shifts;
    EightMore(0, 0x01);
    EightMore(8, 0x31);
    EightMore(16, 0xf4);
    EightMore(24, 0x46);
    EightMore(32, 0x9b);
    EightMore(40, 0xd3);
    EightMore(48, 0x57);
    EightMore(56, 0xe9);
    EightMore(64, 0x49);
    EightMore(72, 0xb5);
    EightMore(80, 0x4a);
    EightMore(88, 0xe6);
    EightMore(96, 0x67);
    EightMore(104, 0x2c);
    EightMore(112, 0xfb);
    EightMore(120, 0x68);
  }

  lemma PeriodIs127()
    ensures Period(127)
  {
    Power128();
    assert ShiftByte(1) == 2;
    ShiftByteInjective(Shifts(1, 127), 1);
  }

  lemma PeriodsSubtract(m: nat, n: nat)
    requires Period(m) && Period(n) && m <= n
    ensures Period(n - m)
  {
    hide Shifts;
    ShiftsCompose(1, n - m, m);
    ShiftsInjective(Shifts(1, n - m), 1, m);
  }

  lemma {:induction false} PeriodsRemain(n: nat, r: nat, k: nat)
    requires Period(n) && Period(r) && k * r <= n
    ensures Period(n - k * r)
  {
    hide Period;
    if k > 0 {
      assert (k - 1) * r == k * r - r;
      PeriodsRemain(n, r, k - 1);
      PeriodsSubtract(r, n - (k - 1) * r);
    }
  }

  lemma TwelveTwelves(r: nat, k: nat)
    requires r >= 12 && k >= 12
    ensures k * r >= 144
  {
    assert k * r == 144 + 12 * (k - 12) + 12 * (r - 12) + (k - 12) * (r - 12);
  }

  lemma Prime127(r: nat, k: nat)
    requires k * r == 127
    ensures r == 1 || r == 127
  {
    if r > 11 && k > 11 {
      TwelveTwelves(r, k);
    } else {
      var small, large := if r <= 11 then r else k, if r <= 11 then k else r;
      assert small * large == 127 && small <= 11;
      SmallFactor(small, large);
    }
  }

  lemma SmallFactor(small: nat, large: nat)
    requires small * large == 127 && small <= 11
    ensures small == 1
  {
    if small == 2 || small == 3 || small == 4 || small == 5 || small == 6 {
    } else if small == 7 || small == 8 || small == 9 || small == 10 || small == 11 {
    }
  }

  lemma {:induction false} NoShortPeriod(r: nat)
    requires 1 <= r < 127
    ensures !Period(r)
    decreases r
  {
    if r > 1 && Period(r) {
      var k := 127 / r;
      PeriodIs127();
      hide Period;
      PeriodsRemain(127, r, k);
      if 127 == k * r {
        Prime127(r, k);
      } else {
        NoShortPeriod(127 - k * r);
      }
    }
  }

  /** Shifting 1 comes back to 1 after the multiples of 127 places, and no others. */
  lemma {:induction false} PeriodsAre127(d: nat)
    ensures Period(d) <==> d % 127 == 0
  {
    PeriodIs127();
    hide Shifts;
    if d == 0 {
      ShiftsNone();
    } else if d < 127 {
      NoShortPeriod(d);
    } else {
      PeriodsAre127(d - 127);
      ShiftsCompose(1, d - 127, 127);
      if Period(d) {
        PeriodsSubtract(127, d);
      }
    }
  }

  lemma ShiftsNone()
    ensures Period(0)
  {
  }

  // ----- two terms -----

  lemma TimesPadded(q: Poly, k: nat)
    requires k < |q| + 16
    ensures Times(Zero(8) + q)[k] == (k >= 8 && Times(q)[k - 8])
  {
    AtPadded(q, k);
    AtPadded(q, k - 3);
    AtPadded(q, k - 4);
    AtPadded(q, k - 8);
    hide At;
  }

  lemma AtPadded(q: Poly, k: int)
    ensures At(Zero(8) + q, k) == At(q, k - 8)
    ensures k < 8 ==> !At(q, k - 8)
  {
  }

  /** x to no power, padded: leaves 1. */
  lemma OneLeavesOne(p: nat)
    ensures Remainder(Zero(p + 8) + [true], ByteBits(1))
  {
    BitByBit(1);
    assert ByteBits(1) == Zero(7) + [true];
    hide ByteBits;
    var q := Zero(p + 1);
    assert Times(q) == Zero(p + 9);
    assert Zero(p + 8) + [true] == Add(Times(q), Zero(p + 1) + ByteBits(1));
    assert Divides(Zero(p + 8) + [true], q, ByteBits(1));
  }

  /** Two terms, padded: the register shifts 1 from the first to the second and adds 1. */
  lemma TwoTermsLeave(p: nat, d: nat, rest: nat)
    ensures |Zero(p + 8) + [true] + Zero(d)| >= 8
    ensures Remainder(WithByte(Zero(p + 8) + [true] + Zero(d), 1) + Zero(rest),
                      ByteBits(Shifts(Shifts(1, d) ^ 1, rest)))
  {
    hide Remainder, ByteBits, Shifts;
    var s := Zero(p + 8) + [true];
    OneLeavesOne(p);
    BitsTaken(s, d, 1);
    XorBits(Shifts(1, d), 1);
    RemainderAdd(s + Zero(d), ByteBits(Shifts(1, d)), ByteBits(1));
    BitsTaken(WithByte(s + Zero(d), 1), rest, Shifts(1, d) ^ 1);
  }

  lemma SecondTerm(p: nat, d: nat, k: nat)
    requires d >= 1 && k < p + 9 + d
    ensures |Zero(p + 8) + [true] + Zero(d)| >= 8
    ensures WithByte(Zero(p + 8) + [true] + Zero(d), 1)[k] == (k == p + 8 || k == p + 8 + d)
  {
    BitByBit(1);
    assert ByteBits(1) == Zero(7) + [true];
    hide ByteBits;
  }

  lemma PaddedMultiple(q: Poly)
    ensures Remainder(Zero(8) + Times(q), ByteBits(0))
  {
    BitByBit(0);
    assert ByteBits(0) == Zero(8);
    var q' := Zero(8) + q;
    forall k | 0 <= k < |q| + 16
      ensures (Zero(8) + Times(q))[k] == (Times(q')[k] != (Zero(|q'|) + Zero(8))[k])
    {
      TimesPadded(q, k);
      hide Times;
    }
    assert Zero(8) + Times(q) == Add(Times(q'), Zero(|q'|) + Zero(8));
    assert Divides(Zero(8) + Times(q), q', ByteBits(0));
  }

  /** A multiple with two terms has them a multiple of 127 apart. */
  lemma TwoTermMultiple(q: Poly, p: nat, d: nat)
    requires d >= 1 && p + d < |q| + 8
    requires forall k :: 0 <= k < |q| + 8 ==> (Times(q)[k] <==> k == p || k == p + d)
    ensures d % 127 == 0
  {
    var rest := |q| + 7 - p - d;
    TwoTermsLeave(p, d, rest);
    PaddedMultiple(q);
    var s := WithByte(Zero(p + 8) + [true] + Zero(d), 1) + Zero(rest);
    hide Shifts, Remainder, ByteBits, Times;
    forall k | 0 <= k < |q| + 16
      ensures s[k] == (Zero(8) + Times(q))[k]
    {
      if k < p + 9 + d {
        SecondTerm(p, d, k);
      }
    }
    assert s == Zero(8) + Times(q);
    RemainderUnique(s, ByteBits(Shifts(Shifts(1, d) ^ 1, rest)), ByteBits(0));
    ByteBitsInjective(Shifts(Shifts(1, d) ^ 1, rest), 0);
    ShiftsKeepZero(Shifts(1, d) ^ 1, rest);
    XorZero(Shifts(1, d), 1);
    PeriodsAre127(d);
  }

  // ----- counting terms -----

  lemma {:induction false} TermsGrow(p: Poly, m: nat, n: nat)
    requires m <= n <= |p|
    ensures Terms(p[..m]) + (if m < n && p[m] then 1 else 0) <= Terms(p[..n])
  {
    if m < n {
      assert p[..n][..n - 1] == p[..n - 1];
      TermsGrow(p, m, n - 1);
    }
  }

  lemma ThreeTerms(p: Poly, i: nat, j: nat, k: nat)
    requires i < j < k < |p| && p[i] && p[j] && p[k]
    ensures Terms(p) >= 3
  {
    TermsGrow(p, i, j);
    TermsGrow(p, j, k);
    TermsGrow(p, k, |p|);
    assert p[..|p|] == p;
  }

  lemma TwoTermsOnly(p: Poly, i: nat, j: nat)
    requires i < j < |p| && p[i] && p[j] && Terms(p) <= 2
    ensures forall k :: 0 <= k < |p| ==> (p[k] <==> k == i || k == j)
  {
    forall k | 0 <= k < |p| && p[k]
      ensures k == i || k == j
    {
      if k < i {
        ThreeTerms(p, k, i, j);
      } else if i < k < j {
        ThreeTerms(p, i, k, j);
      } else if k > j {
        ThreeTerms(p, i, j, k);
      }
    }
  }

  // ----- the distance -----

  /** Different accepted frames of at most 14 data bytes differ in at least four bits: every
      error of one, two or three bits is detected. */
  lemma ThreeErrorsAreDetected(data1: seq<bv8>, c1: bv8, data2: seq<bv8>, c2: bv8)
    requires |data1| == |data2| <= 14 && Accepted(data1, c1) && Accepted(data2, c2)
    requires Terms(Add(Frame(data1, c1), Frame(data2, c2))) <= 3
    ensures data1 == data2 && c1 == c2
  {
    var q := DifferenceIsMultiple(data1, c1, data2, c2);
    MultipleIsEven(q);
    hide Times, Accepted, Frame, Terms;
    forall k | 0 <= k < |q|
      ensures !q[k]
    {
      if q[k] {
        var first, last := MultipleIsLong(q, k);
        TwoTermsOnly(Times(q), first, last);
        TwoTermMultiple(q, first, last - first);
      }
    }
    ZeroMultiple(q);
    SameFrame(data1, c1, data2, c2);
  }

  // ----- fourteen bytes is the most -----

  lemma RemaindersAdd(s1: Poly, r1: Poly, s2: Poly, r2: Poly)
    requires |s1| == |s2| && Remainder(s1, r1) && Remainder(s2, r2)
    ensures |r1| == |r2| == 8 && Remainder(Add(s1, s2), Add(r1, r2))
  {
    var q1 :| Divides(s1, q1, r1);
    var q2 :| Divides(s2, q2, r2);
    forall k | 0 <= k < |s1|
      ensures Add(s1, s2)[k] == (Times(Add(q1, q2))[k] != (Zero(|q1|) + Add(r1, r2))[k])
    {
      TimesAdds(q1, q2, k);
      hide Times;
    }
    assert Add(s1, s2) == Add(Times(Add(q1, q2)), Zero(|q1|) + Add(r1, r2));
    assert Divides(Add(s1, s2), Add(q1, q2), Add(r1, r2));
  }

  /** The data with its first bit inverted. */
  function Flipped(data: seq<bv8>): (f: seq<bv8>)
    requires data != []
    ensures |f| == |data|
  {
    [data[0] ^ 0x80] + data[1..]
  }

  lemma TopBit()
    ensures ByteBits(0x80) == [true] + Zero(7)
  {
    BitByBit(0x80);
    hide Has;
  }

  lemma FlippedByte(data: seq<bv8>)
    requires |data| == 1
    ensures Bits(Flipped(data)) == Add(Bits(data), [true] + Zero(7))
  {
    var f := Flipped(data);
    XorBits(data[0], 0x80);
    TopBit();
    hide ByteBits;
    assert f[..0] == [] && data[..0] == [];
    assert Bits(f) == ByteBits(f[0]) && Bits(data) == ByteBits(data[0]);
  }

  lemma {:induction false} FlippedBits(data: seq<bv8>)
    requires data != []
    ensures Bits(Flipped(data)) == Add(Bits(data), [true] + Zero(8 * |data| - 1))
  {
    var n := |data| - 1;
    if n == 0 {
      FlippedByte(data);
    } else {
      hide ByteBits;
      var f := Flipped(data);
      assert f[..n] == Flipped(data[..n]) && f[n] == data[n];
      hide Flipped;
      FlippedBits(data[..n]);
      assert Bits(f) == Bits(f[..n]) + ByteBits(data[n]);
      assert Bits(data) == Bits(data[..n]) + ByteBits(data[n]);
      hide Bits;
    }
  }

  lemma SevenShifts()
    ensures Shifts(1, 7) == 0x80
  {
    assert Shifts(1, 0) == 0x01;
    assert Shifts(1, 1) == 0x02;
    assert Shifts(1, 2) == 0x04;
    assert Shifts(1, 3) == 0x08;
    assert Shifts(1, 4) == 0x10;
    assert Shifts(1, 5) == 0x20;
    assert Shifts(1, 6) == 0x40;
  }

  /** x^127 leaves 1. */
  lemma Power127LeavesOne()
    ensures Remainder([true] + Zero(127), ByteBits(1))
  {
    var s := [true] + Zero(7);
    TopBit();
    assert s == Add(Times([]), Zero(0) + s);
    assert Divides(s, [], s);
    BitsTaken(s, 120, 0x80);
    SevenShifts();
    ShiftsCompose(1, 7, 120);
    PeriodIs127();
    hide Shifts;
    assert s + Zero(120) == [true] + Zero(127);
  }

  /** With fifteen bytes, the first and the last bit of an accepted frame may both be inverted,
      and it is accepted still. */
  lemma FifteenBytesMissTwo(data: seq<bv8>, crc: bv8)
    requires |data| == 15 && Accepted(data, crc)
    ensures Accepted(Flipped(data), crc ^ 1)
  {
    FlippedBits(data);
    Power127LeavesOne();
    XorBits(crc, 1);
    RemaindersAdd(Message(data), ByteBits(crc), [true] + Zero(127), ByteBits(1));
    hide Remainder, Bits, ByteBits, Flipped;
    assert Message(Flipped(data)) == Add(Message(data), [true] + Zero(127));
  }
}
