/** The SHT30 checksum: the bit loop computes a remainder of polynomial division over GF(2). */
module Crc8 {

  /** A polynomial over GF(2): its coefficients, the highest power first. */
  type Poly = seq<bool>

  function Zero(n: nat): (p: Poly)
    ensures |p| == n && forall k :: 0 <= k < n ==> !p[k]
  {
    seq(n, _ => false)
  }

  function Ones(n: nat): (p: Poly)
    ensures |p| == n && forall k :: 0 <= k < n ==> p[k]
  {
    seq(n, _ => true)
  }

  function Add(p: Poly, q: Poly): (s: Poly)
    requires |p| == |q|
    ensures |s| == |p| && forall k :: 0 <= k < |s| ==> s[k] == (p[k] != q[k])
  {
    seq(|p|, k requires 0 <= k < |p| => p[k] != q[k])
  }

  predicate At(p: Poly, k: int) {
    0 <= k < |p| && p[k]
  }

  predicate Coefficient(q: Poly, k: int) {
    ((At(q, k) != At(q, k - 3)) != At(q, k - 4)) != At(q, k - 8)
  }

  /** q times x^8 + x^5 + x^4 + 1. */
  function Times(q: Poly): (s: Poly)
    ensures |s| == |q| + 8
    ensures forall k :: 0 <= k < |s| ==> s[k] == Coefficient(q, k)
  {
    seq(|q| + 8, k requires 0 <= k < |q| + 8 => Coefficient(q, k))
  }

  ghost predicate Divides(s: Poly, q: Poly, r: Poly) {
    |r| == 8 && |s| == |q| + 8 && s == Add(Times(q), Zero(|q|) + r)
  }

  /** r is what division of s leaves. */
  ghost predicate Remainder(s: Poly, r: Poly) {
    exists q :: Divides(s, q, r)
  }

  // ----- division -----

  /** A quotient is determined from the top down, and with it the remainder. */
  lemma RemainderUnique(s: Poly, r1: Poly, r2: Poly)
    requires Remainder(s, r1) && Remainder(s, r2)
    ensures r1 == r2
  {
    var q1 :| Divides(s, q1, r1);
    var q2 :| Divides(s, q2, r2);
    SameQuotient(s, q1, r1, q2, r2, |q1|);
    assert q1 == q2;
    assert forall k :: 0 <= k < 8 ==> (Zero(|q1|) + r1)[|q1| + k] == r1[k] && (Zero(|q1|) + r2)[|q1| + k] == r2[k];
  }

  lemma {:induction false} SameQuotient(s: Poly, q1: Poly, r1: Poly, q2: Poly, r2: Poly, n: nat)
    requires Divides(s, q1, r1) && Divides(s, q2, r2) && n <= |q1|
    ensures forall k :: 0 <= k < n ==> q1[k] == q2[k]
  {
    if n > 0 {
      SameQuotient(s, q1, r1, q2, r2, n - 1);
      assert s[n - 1] == Times(q1)[n - 1] && s[n - 1] == Times(q2)[n - 1];
    }
  }

  function Low(): (g: Poly)
    ensures |g| == 8
  {
    [false, false, true, true, false, false, false, true]
  }

  /** Multiplication of a remainder by x. */
  function Shift(r: Poly): (t: Poly)
    requires |r| == 8
    ensures |t| == 8
  {
    Add(r[1..] + [false], if r[0] then Low() else Zero(8))
  }

  /** One more coefficient adds the divisor at its place. */
  lemma TimesAppend(q: Poly, t: bool, k: nat)
    requires k < |q| + 9
    ensures var d := k - |q|;
            Times(q + [t])[k] == ((k < |q| + 8 && Times(q)[k]) != (t && (d == 0 || d == 3 || d == 4 || d == 8)))
  {
    AtAppend(q, t, k);
    AtAppend(q, t, k - 3);
    AtAppend(q, t, k - 4);
    AtAppend(q, t, k - 8);
    hide At;
    if k == |q| + 8 {
      assert !At(q, k - 8) && !At(q, k) && !At(q, k - 3) && !At(q, k - 4) by {
        AtOutside(q, k);
        AtOutside(q, k - 3);
        AtOutside(q, k - 4);
        AtOutside(q, k - 8);
      }
    }
  }

  lemma AtOutside(q: Poly, k: int)
    requires k >= |q|
    ensures !At(q, k)
  {
  }

  lemma AtAppend(q: Poly, t: bool, k: int)
    ensures At(q + [t], k) == (At(q, k) != (t && k == |q|))
  {
  }

  lemma ShiftAt(r: Poly, j: nat)
    requires |r| == 8 && j < 8
    ensures Shift(r)[j] == ((j < 7 && r[j + 1]) != (r[0] && (j == 2 || j == 3 || j == 7)))
  {
  }

  lemma RemainderShift(s: Poly, r: Poly)
    requires Remainder(s, r)
    ensures |r| == 8 && Remainder(s + [false], Shift(r))
  {
    var q :| Divides(s, q, r);
    var n := |q|;
    var q' := q + [r[0]];
    forall k | 0 <= k < n + 9
      ensures (s + [false])[k] == (Times(q')[k] != (Zero(n + 1) + Shift(r))[k])
    {
      TimesAppend(q, r[0], k);
      if k > n {
        ShiftAt(r, k - n - 1);
      }
      hide Times, Shift, At;
    }
    assert s + [false] == Add(Times(q'), Zero(n + 1) + Shift(r));
    assert Divides(s + [false], q', Shift(r));
  }

  // ----- bytes -----

  function Mask(k: nat): (m: bv8)
    requires k < 8
    ensures m & (m - 1) == 0
  {
    if k == 0 then 0x80 else if k == 1 then 0x40 else if k == 2 then 0x20 else if k == 3 then 0x10
    else if k == 4 then 0x08 else if k == 5 then 0x04 else if k == 6 then 0x02 else 0x01
  }

  /** Bit k of a byte, the highest first. */
  predicate Has(b: bv8, k: nat) {
    k < 8 && b & Mask(k) != 0
  }

  function ByteBits(b: bv8): (p: Poly)
    ensures |p| == 8 && forall k :: 0 <= k < 8 ==> p[k] == Has(b, k)
  {
    seq(8, k requires 0 <= k < 8 => Has(b, k))
  }

  function Bits(data: seq<bv8>): (p: Poly)
    ensures |p| == 8 * |data|
  {
    if data == [] then [] else Bits(data[..|data| - 1]) + ByteBits(data[|data| - 1])
  }

  lemma BitByBit(b: bv8)
    ensures Has(b, 0) == (b & 0x80 != 0) && Has(b, 1) == (b & 0x40 != 0)
         && Has(b, 2) == (b & 0x20 != 0) && Has(b, 3) == (b & 0x10 != 0)
         && Has(b, 4) == (b & 0x08 != 0) && Has(b, 5) == (b & 0x04 != 0)
         && Has(b, 6) == (b & 0x02 != 0) && Has(b, 7) == (b & 0x01 != 0)
  {
  }

  lemma ByteBitsInjective(a: bv8, b: bv8)
    requires ByteBits(a) == ByteBits(b)
    ensures a == b
  {
    assert forall k :: 0 <= k < 8 ==> Has(a, k) == Has(b, k) by {
      assert forall k :: 0 <= k < 8 ==> ByteBits(a)[k] == Has(a, k) && ByteBits(b)[k] == Has(b, k);
      hide ByteBits;
    }
    BitByBit(a);
    BitByBit(b);
    hide Has;
  }

  lemma {:induction false} BitsInjective(a: seq<bv8>, b: seq<bv8>)
    requires Bits(a) == Bits(b)
    ensures a == b
  {
    if a != [] {
      var n := |a| - 1;
      assert Bits(a)[..8 * n] == Bits(a[..n]) && Bits(b)[..8 * n] == Bits(b[..n]);
      assert Bits(a)[8 * n..] == ByteBits(a[n]) && Bits(b)[8 * n..] == ByteBits(b[n]);
      BitsInjective(a[..n], b[..n]);
      ByteBitsInjective(a[n], b[n]);
      assert a == a[..n] + [a[n]] && b == b[..n] + [b[n]];
    }
  }

  lemma XorBits(a: bv8, b: bv8)
    ensures ByteBits(a ^ b) == Add(ByteBits(a), ByteBits(b))
  {
    forall k | 0 <= k < 8
      ensures Has(a ^ b, k) == (Has(a, k) != Has(b, k))
    {
      XorBit(a, b, k);
    }
    hide Has;
  }

  lemma XorBit(a: bv8, b: bv8, k: nat)
    requires k < 8
    ensures Has(a ^ b, k) == (Has(a, k) != Has(b, k))
  {
    XorMask(a, b, Mask(k));
    hide Mask;
  }

  lemma XorMask(a: bv8, b: bv8, m: bv8)
    requires m & (m - 1) == 0
    ensures ((a ^ b) & m != 0) == ((a & m != 0) != (b & m != 0))
  {
  }

  function ShiftByte(b: bv8): bv8 {
    if b & 0x80 != 0 then (b << 1) ^ 0x31 else b << 1
  }

  lemma ShiftBit(b: bv8, k: nat)
    requires k < 8
    ensures Has(ShiftByte(b), k) == (Has(b, k + 1) != (Has(b, 0) && (k == 2 || k == 3 || k == 7)))
  {
  }

  lemma ShiftBits(b: bv8)
    ensures ByteBits(ShiftByte(b)) == Shift(ByteBits(b))
  {
    forall k | 0 <= k < 8
      ensures ByteBits(ShiftByte(b))[k] == Shift(ByteBits(b))[k]
    {
      ShiftBit(b, k);
      ShiftAt(ByteBits(b), k);
      hide Has, Shift, ShiftByte, ByteBits;
    }
    hide Has, Shift, ShiftByte, ByteBits;
  }

  /** What the checksum of data divides: the data times x^8, its first byte inverted. */
  function Message(data: seq<bv8>): (p: Poly)
    ensures |p| == 8 * |data| + 8
  {
    Add(Ones(8) + Zero(8 * |data|), Bits(data) + Zero(8))
  }

  /** c is a right checksum of data: what x^8 times the data, its first byte inverted, leaves. */
  ghost predicate Accepted(data: seq<bv8>, c: bv8) {
    Remainder(Message(data), ByteBits(c))
  }

  // ----- the loops -----

  lemma RemainderAdd(s: Poly, r: Poly, x: Poly)
    requires Remainder(s, r) && |x| == 8
    ensures |s| >= 8 && |r| == 8 && Remainder(Add(s, Zero(|s| - 8) + x), Add(r, x))
  {
    hide Times;
    var q :| Divides(s, q, r);
    assert Add(s, Zero(|q|) + x) == Add(Times(q), Zero(|q|) + Add(r, x));
    assert Divides(Add(s, Zero(|q|) + x), q, Add(r, x));
  }

  function WithByte(s: Poly, d: bv8): (t: Poly)
    requires |s| >= 8
    ensures |t| == |s|
  {
    Add(s, Zero(|s| - 8) + ByteBits(d))
  }

  lemma EmptyMessage()
    ensures Accepted([], 0xFF)
  {
    assert Message([]) == Ones(8);
    BitByBit(0xFF);
    assert ByteBits(0xFF) == Ones(8);
    assert Ones(8) == Add(Times([]), Zero(0) + Ones(8));
    assert Divides(Ones(8), [], Ones(8));
  }

  lemma MessageNext(data: seq<bv8>, d: bv8)
    ensures WithByte(Message(data), d) + Zero(8) == Message(data + [d])
  {
    assert (data + [d])[..|data|] == data;
    hide ByteBits;
    var m, t := Message(data), Message(data + [d]);
    forall k | 0 <= k < |t|
      ensures (WithByte(m, d) + Zero(8))[k] == t[k]
    {
    }
  }

  lemma ByteTaken(data: seq<bv8>, crc: bv8, d: bv8)
    requires Accepted(data, crc)
    ensures Remainder(WithByte(Message(data), d), ByteBits(crc ^ d))
  {
    hide Remainder, Message;
    XorBits(crc, d);
    RemainderAdd(Message(data), ByteBits(crc), ByteBits(d));
  }

  lemma BitTaken(s: Poly, j: nat, crc: bv8)
    requires Remainder(s + Zero(j), ByteBits(crc))
    ensures Remainder(s + Zero(j + 1), ByteBits(ShiftByte(crc)))
  {
    hide Remainder, ShiftByte;
    RemainderShift(s + Zero(j), ByteBits(crc));
    ShiftBits(crc);
    assert s + Zero(j) + [false] == s + Zero(j + 1);
  }

  /** The checksum of data, and the only one. */
  method CalculateCrc(data: seq<bv8>) returns (crc: bv8)
    ensures forall c: bv8 :: Accepted(data, c) <==> c == crc
  {
    hide Remainder, Message, WithByte, ByteBits, Accepted;
    crc := 0xFF;
    EmptyMessage();
    for i := 0 to |data|
      invariant Accepted(data[..i], crc)
    {
      ghost var s := WithByte(Message(data[..i]), data[i]);
      ByteTaken(data[..i], crc, data[i]);
      crc := crc ^ data[i];
      assert s + Zero(0) == s;
      for j := 0 to 8
        invariant Remainder(s + Zero(j), ByteBits(crc))
      {
        BitTaken(s, j, crc);
        if crc & 0x80 != 0 {
          crc := (crc << 1) ^ 0x31;
        } else {
          crc := crc << 1;
        }
      }
      MessageNext(data[..i], data[i]);
      assert data[..i] + [data[i]] == data[..i + 1];
      Accepts(data[..i + 1], crc);
    }
    assert data[..|data|] == data;
    OnlyChecksum(data, crc);
  }

  lemma Accepts(data: seq<bv8>, c: bv8)
    ensures Accepted(data, c) == Remainder(Message(data), ByteBits(c))
  {
  }

  lemma OnlyChecksum(data: seq<bv8>, crc: bv8)
    requires Accepted(data, crc)
    ensures forall c: bv8 :: Accepted(data, c) <==> c == crc
  {
    forall c: bv8 | Accepted(data, c)
      ensures c == crc
    {
      RemainderUnique(Message(data), ByteBits(crc), ByteBits(c));
      ByteBitsInjective(crc, c);
    }
  }

  // ----- what the checksum detects -----

  function Shifts(b: bv8, n: nat): bv8 {
    if n == 0 then b else ShiftByte(Shifts(b, n - 1))
  }

  lemma {:induction false} BitsTaken(s: Poly, n: nat, b: bv8)
    requires Remainder(s, ByteBits(b))
    ensures Remainder(s + Zero(n), ByteBits(Shifts(b, n)))
  {
    hide Remainder, ByteBits;
    if n == 0 {
      assert s + Zero(0) == s;
    } else {
      BitsTaken(s, n - 1, b);
      BitTaken(s, n - 1, Shifts(b, n - 1));
    }
  }

  lemma NextChecksum(data: seq<bv8>, crc: bv8, d: bv8)
    requires Accepted(data, crc)
    ensures Accepted(data + [d], Shifts(crc ^ d, 8))
  {
    hide Remainder, Message, WithByte, ByteBits, Shifts;
    ByteTaken(data, crc, d);
    BitsTaken(WithByte(Message(data), d), 8, crc ^ d);
    MessageNext(data, d);
  }

  /** The sensor's own example of a word and its checksum. */
  lemma DatasheetExample()
    ensures Accepted([0xBE, 0xEF], 0x92)
  {
    hide Accepted, Shifts;
    EmptyMessage();
    NextChecksum([], 0xFF, 0xBE);
    NextChecksum([0xBE], 0x0C, 0xEF) by {
      FirstByte();
      assert [] + [0xBE as bv8] == [0xBE];
    }
    SecondByte();
    assert [0xBE as bv8] + [0xEF] == [0xBE, 0xEF];
  }

  lemma FirstByte()
    ensures Shifts(0xFF ^ 0xBE, 8) == 0x0C
  {
    assert Shifts(0x41, 2) == 0x35;
    assert Shifts(0x41, 4) == 0xD4;
    assert Shifts(0x41, 6) == 0x03;
  }

  lemma SecondByte()
    ensures Shifts(0x0C ^ 0xEF, 8) == 0x92
  {
    assert Shifts(0xE3, 2) == 0xDF;
    assert Shifts(0xE3, 4) == 0x2F;
    assert Shifts(0xE3, 6) == 0xBC;
  }

  lemma {:induction false} ChecksumExists(data: seq<bv8>) returns (crc: bv8)
    ensures Accepted(data, crc)
  {
    hide Accepted;
    if data == [] {
      EmptyMessage();
      crc := 0xFF;
    } else {
      var n := |data| - 1;
      var before := ChecksumExists(data[..n]);
      NextChecksum(data[..n], before, data[n]);
      assert data[..n] + [data[n]] == data;
      crc := Shifts(before ^ data[n], 8);
    }
  }

  lemma ShiftKeepsZero(b: bv8)
    ensures ShiftByte(b) == 0 <==> b == 0
  {
  }

  lemma {:induction false} ShiftsKeepZero(b: bv8, n: nat)
    ensures Shifts(b, n) == 0 <==> b == 0
  {
    if n > 0 {
      ShiftsKeepZero(b, n - 1);
      ShiftKeepsZero(Shifts(b, n - 1));
    }
  }

  lemma XorZero(a: bv8, b: bv8)
    ensures a ^ b == 0 <==> a == b
  {
  }

  /** Data followed by its checksum, and only by it, has checksum zero. */
  lemma ResidueIsZero(data: seq<bv8>, c: bv8)
    ensures Accepted(data + [c], 0) <==> Accepted(data, c)
  {
    var crc := ChecksumExists(data);
    NextChecksum(data, crc, c);
    OnlyChecksum(data, crc);
    OnlyChecksum(data + [c], Shifts(crc ^ c, 8));
    hide Accepted, Shifts;
    ShiftsKeepZero(crc ^ c, 8);
    XorZero(crc, c);
  }

  /** What is sent: the data and the checksum. */
  function Frame(data: seq<bv8>, c: bv8): (p: Poly)
    ensures |p| == 8 * |data| + 8
  {
    Bits(data) + ByteBits(c)
  }

  /** Two accepted frames of one length differ by a multiple of the divisor. */
  lemma DifferenceIsMultiple(data1: seq<bv8>, c1: bv8, data2: seq<bv8>, c2: bv8) returns (q: Poly)
    requires |data1| == |data2| && Accepted(data1, c1) && Accepted(data2, c2)
    ensures |q| == 8 * |data1|
    ensures Times(q) == Add(Frame(data1, c1), Frame(data2, c2))
  {
    hide ByteBits, Bits;
    var q1 :| Divides(Message(data1), q1, ByteBits(c1));
    var q2 :| Divides(Message(data2), q2, ByteBits(c2));
    q := Add(q1, q2);
    var n := |q|;
    forall k | 0 <= k < n + 8
      ensures Times(q)[k] == (Frame(data1, c1)[k] != Frame(data2, c2)[k])
    {
      TimesAdds(q1, q2, k);
      hide Coefficient;
    }
  }

  lemma TimesAdds(q1: Poly, q2: Poly, k: nat)
    requires |q1| == |q2| && k < |q1| + 8
    ensures Times(Add(q1, q2))[k] == (Times(q1)[k] != Times(q2)[k])
  {
    AtAdds(q1, q2, k);
    AtAdds(q1, q2, k - 3);
    AtAdds(q1, q2, k - 4);
    AtAdds(q1, q2, k - 8);
    hide At;
  }

  lemma AtAdds(q1: Poly, q2: Poly, k: int)
    requires |q1| == |q2|
    ensures At(Add(q1, q2), k) == (At(q1, k) != At(q2, k))
  {
  }

  lemma {:induction false} FirstTerm(q: Poly, k: nat) returns (f: nat)
    requires k < |q| && q[k]
    ensures f <= k && q[f] && forall j :: 0 <= j < f ==> !q[j]
  {
    f := k;
    if j :| 0 <= j < k && q[j] {
      f := FirstTerm(q, j);
    }
  }

  lemma {:induction false} LastTerm(q: Poly, k: nat) returns (l: nat)
    requires k < |q| && q[k]
    ensures k <= l < |q| && q[l] && forall j :: l < j < |q| ==> !q[j]
    decreases |q| - k
  {
    l := k;
    if j :| k < j < |q| && q[j] {
      l := LastTerm(q, j);
    }
  }

  /** A multiple that is not zero spans nine places: from its first term to eight past its last. */
  lemma MultipleIsLong(q: Poly, k: nat) returns (first: nat, last: nat)
    requires k < |q| && q[k]
    ensures first + 8 <= last < |q| + 8
    ensures Times(q)[first] && Times(q)[last]
  {
    first := FirstTerm(q, k);
    last := LastTerm(q, k);
    assert Coefficient(q, first);
    assert Coefficient(q, last + 8);
    last := last + 8;
  }

  /** Of two different frames of one length that differ only within eight consecutive bits, at
      most one is accepted. */
  lemma BurstIsDetected(data1: seq<bv8>, c1: bv8, data2: seq<bv8>, c2: bv8, p: int)
    requires |data1| == |data2| && Accepted(data1, c1) && Accepted(data2, c2)
    requires forall k :: 0 <= k < |Frame(data1, c1)| && !(p <= k < p + 8) ==> Frame(data1, c1)[k] == Frame(data2, c2)[k]
    ensures data1 == data2 && c1 == c2
  {
    var q := DifferenceIsMultiple(data1, c1, data2, c2);
    hide Times, Accepted, Frame;
    assert forall k :: 0 <= k < |q| ==> !q[k] by {
      forall k | 0 <= k < |q|
        ensures !q[k]
      {
        if q[k] {
          var first, last := MultipleIsLong(q, k);
          assert false;
        }
      }
    }
    ZeroMultiple(q);
    SameFrame(data1, c1, data2, c2);
  }

  lemma ZeroMultiple(q: Poly)
    requires forall k :: 0 <= k < |q| ==> !q[k]
    ensures forall k :: 0 <= k < |q| + 8 ==> !Times(q)[k]
  {
  }

  lemma SameFrame(data1: seq<bv8>, c1: bv8, data2: seq<bv8>, c2: bv8)
    requires |data1| == |data2|
    requires forall k :: 0 <= k < |Frame(data1, c1)| ==> Frame(data1, c1)[k] == Frame(data2, c2)[k]
    ensures data1 == data2 && c1 == c2
  {
    hide Bits, ByteBits;
    var n := 8 * |data1|;
    assert Frame(data1, c1) == Frame(data2, c2);
    assert Frame(data1, c1)[..n] == Bits(data1) && Frame(data2, c2)[..n] == Bits(data2);
    assert Frame(data1, c1)[n..] == ByteBits(c1) && Frame(data2, c2)[n..] == ByteBits(c2);
    BitsInjective(data1, data2);
    ByteBitsInjective(c1, c2);
  }

  // ----- parity -----

  function Terms(p: Poly): nat {
    if p == [] then 0 else Terms(p[..|p| - 1]) + if p[|p| - 1] then 1 else 0
  }

  lemma {:induction false} TermsAdd(p: Poly, q: Poly)
    requires |p| == |q|
    ensures Terms(Add(p, q)) % 2 == (Terms(p) + Terms(q)) % 2
  {
    if p != [] {
      var n := |p| - 1;
      assert Add(p, q)[..n] == Add(p[..n], q[..n]);
      TermsAdd(p[..n], q[..n]);
    }
  }

  lemma {:induction false} TermsConcat(p: Poly, q: Poly)
    ensures Terms(p + q) == Terms(p) + Terms(q)
  {
    if q == [] {
      assert p + q == p;
    } else {
      assert (p + q)[..|p + q| - 1] == p + q[..|q| - 1];
      TermsConcat(p, q[..|q| - 1]);
    }
  }

  lemma {:induction false} TermsZero(n: nat)
    ensures Terms(Zero(n)) == 0
  {
    if n > 0 {
      assert Zero(n)[..n - 1] == Zero(n - 1);
      TermsZero(n - 1);
    }
  }

  function Divisor(): (g: Poly)
    ensures |g| == 9
  {
    [true] + Low()
  }

  lemma DivisorTerms()
    ensures Terms(Divisor()) == 4
  {
    var high, low := [false, false, true, true], [false, false, false, true];
    assert Low() == high + low;
    TermsConcat([true], Low());
    TermsConcat(high, low);
    FourTerms(high);
    FourTerms(low);
    assert Terms([]) == 0 && Terms([true]) == 1;
    hide Terms;
  }

  lemma FourTerms(p: Poly)
    requires |p| == 4
    ensures Terms(p) == (if p[0] then 1 else 0) + (if p[1] then 1 else 0)
                        + (if p[2] then 1 else 0) + (if p[3] then 1 else 0)
  {
    assert p[..3][..2] == p[..2] && p[..2][..1] == p[..1] && p[..1][..0] == [];
    assert Terms(p[..1]) == if p[0] then 1 else 0;
    assert Terms(p[..2]) == Terms(p[..1]) + if p[1] then 1 else 0;
    assert Terms(p[..3]) == Terms(p[..2]) + if p[2] then 1 else 0;
  }

  lemma LastPlace(q: Poly, t: bool)
    ensures Times(q + [t]) == Add(Times(q) + [false], Zero(|q|) + if t then Divisor() else Zero(9))
  {
    forall k | 0 <= k < |q| + 9
      ensures Times(q + [t])[k]
              == ((Times(q) + [false])[k] != (Zero(|q|) + if t then Divisor() else Zero(9))[k])
    {
      TimesAppend(q, t, k);
      hide Times;
    }
  }

  /** The divisor has four terms, so every multiple has an even number. */
  lemma {:induction false} MultipleIsEven(q: Poly)
    ensures Terms(Times(q)) % 2 == 0
  {
    if q == [] {
      assert Times(q) == Zero(8);
      TermsZero(8);
    } else {
      var n := |q| - 1;
      var g := if q[n] then Divisor() else Zero(9);
      MultipleIsEven(q[..n]);
      assert q == q[..n] + [q[n]];
      LastPlace(q[..n], q[n]);
      TermsAdd(Times(q[..n]) + [false], Zero(n) + g);
      TermsConcat(Times(q[..n]), [false]);
      TermsConcat(Zero(n), g);
      TermsZero(n);
      TermsZero(9);
      DivisorTerms();
      hide Times, Divisor, Add;
    }
  }

  /** Frames of one length that differ in an odd number of bits are not both accepted. */
  lemma OddErrorIsDetected(data1: seq<bv8>, c1: bv8, data2: seq<bv8>, c2: bv8)
    requires |data1| == |data2| && Accepted(data1, c1) && Accepted(data2, c2)
    ensures Terms(Add(Frame(data1, c1), Frame(data2, c2))) % 2 == 0
  {
    var q := DifferenceIsMultiple(data1, c1, data2, c2);
    MultipleIsEven(q);
  }
}
