/** The target's integer types: 32-bit LONG and ULONG with wrap-around, and the
    hand-carried 64-bit arithmetic the PTP client builds from pairs of them. */
module Words {

  type Long = x: int | -0x8000_0000 <= x < 0x8000_0000
  type ULong = x: int | 0 <= x < 0x1_0000_0000
  type UShort = x: int | 0 <= x < 0x1_0000
  type Byte = x: int | 0 <= x < 0x100

  function ToULong(x: int): ULong {
    x % 0x1_0000_0000
  }

  function ToLong(x: int): Long {
    if -0x8000_0000 <= x < 0x8000_0000 then x
    else (x + 0x8000_0000) % 0x1_0000_0000 - 0x8000_0000
  }

  predicate IsInt64(x: int) {
    -0x8000_0000_0000_0000 <= x < 0x8000_0000_0000_0000
  }

  /** Two's complement wrap-around at 64 bits: whole turns are added or removed until x fits. */
  function ToInt64(x: int): (r: int)
    ensures IsInt64(r)
    decreases if x < 0 then -x else x + 1
  {
    if IsInt64(x) then x
    else if x < 0 then ToInt64(x + 0x1_0000_0000_0000_0000)
    else ToInt64(x - 0x1_0000_0000_0000_0000)
  }

  /** The 64-bit number held by a signed high limb and an unsigned low limb. */
  function Join(hi: Long, lo: ULong): (r: int)
    ensures IsInt64(r)
    ensures r < 0 <==> hi < 0
  {
    hi * 0x1_0000_0000 + lo
  }

  lemma {:induction false} Int64Turns(x: int) returns (k: int)
    ensures ToInt64(x) == x + k * 0x1_0000_0000_0000_0000
    decreases if x < 0 then -x else x + 1
  {
    if IsInt64(x) {
      k := 0;
    } else if x < 0 {
      k := Int64Turns(x + 0x1_0000_0000_0000_0000);
      k := k + 1;
    } else {
      k := Int64Turns(x - 0x1_0000_0000_0000_0000);
      k := k - 1;
    }
  }

  /** A number in 64-bit range that differs from x by whole turns is the wrapped x. */
  lemma WrapUnique(x: int, r: int, turns: int)
    requires IsInt64(r)
    requires r == x + turns * 0x1_0000_0000_0000_0000
    ensures ToInt64(x) == r
  {
    var k := Int64Turns(x);
  }

  /** Wrapping twice is wrapping once. */
  lemma WrapOnce(x: int, y: int)
    ensures ToInt64(ToInt64(x) + y) == ToInt64(x + y)
  {
    var k := Int64Turns(x);
    var k' := Int64Turns(x + y);
    WrapUnique(ToInt64(x) + y, ToInt64(x + y), k' - k);
  }

  lemma LongTurns(x: int) returns (k: int)
    ensures ToLong(x) == x + k * 0x1_0000_0000
  {
    k := if -0x8000_0000 <= x < 0x8000_0000 then 0 else -((x + 0x8000_0000) / 0x1_0000_0000);
  }

  lemma ULongTwice(x: int, y: int)
    ensures ToULong(ToULong(x) + y) == ToULong(x + y)
  {
  }

  /** Wrapping the high limb is wrapping the number. */
  lemma HighLimbWraps(x: int, lo: ULong)
    ensures Join(ToLong(x), lo) == ToInt64(x * 0x1_0000_0000 + lo)
  {
    var turns := LongTurns(x);
    WrapUnique(x * 0x1_0000_0000 + lo, Join(ToLong(x), lo), turns);
  }

  lemma LongTwice(x: int, y: int)
    ensures ToLong(ToLong(x) + y) == ToLong(x + y)
  {
    var j := LongTurns(x);
    var k := LongTurns(ToLong(x) + y);
    LongUnique(x + y, ToLong(ToLong(x) + y), j + k);
  }

  lemma LongUnique(x: int, r: Long, turns: int)
    requires r == x + turns * 0x1_0000_0000
    ensures ToLong(x) == r
  {
    var k := LongTurns(x);
  }

  /** (hi, lo) := a + b, with the carry the code finds by comparing the low limbs. */
  method Add64(aHi: Long, aLo: ULong, bHi: Long, bLo: ULong) returns (hi: Long, lo: ULong)
    ensures Join(hi, lo) == ToInt64(Join(aHi, aLo) + Join(bHi, bLo))
  {
    hide ToInt64, ToLong;
    hi := ToLong(aHi + bHi);
    lo := ToULong(aLo + bLo);
    ghost var carry := if lo < aLo || lo < bLo then 1 else 0;
    if lo < aLo || lo < bLo {
      hi := ToLong(hi + 1);
    }
    LongTwice(aHi + bHi, 1);
    assert lo == aLo + bLo - carry * 0x1_0000_0000;
    HighLimbWraps(aHi + bHi + carry, lo);
  }

  method Sub64(aHi: Long, aLo: ULong, bHi: Long, bLo: ULong) returns (hi: Long, lo: ULong)
    ensures Join(hi, lo) == ToInt64(Join(aHi, aLo) - Join(bHi, bLo))
  {
    hide ToInt64, ToLong;
    hi := ToLong(aHi - bHi);
    lo := ToULong(aLo - bLo);
    ghost var borrow := if aLo < bLo then 1 else 0;
    if aLo < bLo {
      hi := ToLong(hi - 1);
    }
    LongTwice(aHi - bHi, -1);
    assert lo == aLo - bLo + borrow * 0x1_0000_0000;
    HighLimbWraps(aHi - bHi - borrow, lo);
  }

  method Inc64(aHi: Long, aLo: ULong) returns (hi: Long, lo: ULong)
    ensures Join(hi, lo) == ToInt64(Join(aHi, aLo) + 1)
  {
    hi := aHi;
    lo := ToULong(aLo + 1);
    if lo == 0 {
      hi := ToLong(aHi + 1);
      HighLimbWraps(aHi + 1, lo);
    }
  }

  method Dec64(aHi: Long, aLo: ULong) returns (hi: Long, lo: ULong)
    ensures Join(hi, lo) == ToInt64(Join(aHi, aLo) - 1)
  {
    hi := aHi;
    if aLo == 0 {
      hi := ToLong(aHi - 1);
      HighLimbWraps(aHi - 1, 0xFFFF_FFFF);
    }
    lo := ToULong(aLo - 1);
  }

  method Neg64(aHi: Long, aLo: ULong) returns (hi: Long, lo: ULong)
    ensures Join(hi, lo) == ToInt64(-Join(aHi, aLo))
  {
    hi := ToLong(0 - aHi);
    LongTwice(0 - aHi, -1);
    lo := ToULong(0 - aLo);
    if aLo != 0 {
      hi := ToLong(hi - 1);
      HighLimbWraps(0 - aHi - 1, lo);
    } else {
      HighLimbWraps(0 - aHi, lo);
    }
  }
}
