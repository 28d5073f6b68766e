/** The M24C32 EEPROM driver: a device whose writes wrap inside a 32-byte page, and the writer
    that splits a request so that its effect is one flat write. */
module Eeprom {
  import opened Words
  import opened Wire

  const PAGE_SIZE := 32
  const SIZE := 4096

  datatype Status = Ok | NullPointer | Allocation | Device(code: int)

  /** One request the device accepted. */
  datatype Request = Request(addr: UShort, bytes: seq<Byte>)

  type Memory = m: seq<Byte> | |m| == SIZE witness seq(SIZE, _ => 0)

  // ----- what the device does -----

  /** Byte after byte; the address counter wraps inside the page. */
  function PageWrite(mem: Memory, addr: nat, bytes: seq<Byte>): Memory
    decreases |bytes|
  {
    if bytes == [] then mem
    else
      PageWrite(mem[addr % SIZE := bytes[0]],
                if addr % PAGE_SIZE == PAGE_SIZE - 1 then addr - (PAGE_SIZE - 1) else addr + 1, bytes[1..])
  }

  /** Byte after byte; the address counter wraps only at the end of the memory. */
  function FlatWrite(mem: Memory, addr: nat, bytes: seq<Byte>): Memory
    decreases |bytes|
  {
    if bytes == [] then mem
    else FlatWrite(mem[addr % SIZE := bytes[0]], addr + 1, bytes[1..])
  }

  /** A sequential read wraps at the end of the memory. */
  function FlatRead(mem: Memory, addr: nat, len: nat): (s: seq<Byte>)
    ensures |s| == len
  {
    seq(len, k requires 0 <= k < len => mem[(addr + k) % SIZE])
  }

  /** How far cell p lies after an address. */
  function Ahead(addr: nat, p: nat): (d: nat)
    ensures d < SIZE
  {
    (p - addr) % SIZE
  }

  lemma AheadStep(addr: nat, p: nat)
    requires p < SIZE
    ensures Ahead(addr, p) == 0 <==> p == addr % SIZE
    ensures Ahead(addr + 1, p) == if Ahead(addr, p) == 0 then SIZE - 1 else Ahead(addr, p) - 1
  {
  }

  /** A flat write of at most the whole memory leaves each byte at its own cell, and every cell
      that is not so many ahead of the address as it was. */
  lemma {:induction false} FlatWriteAt(mem: Memory, addr: nat, bytes: seq<Byte>, p: nat)
    requires |bytes| <= SIZE && p < SIZE
    ensures FlatWrite(mem, addr, bytes)[p] == if Ahead(addr, p) < |bytes| then bytes[Ahead(addr, p)] else mem[p]
    decreases |bytes|
  {
    if bytes != [] {
      AheadStep(addr, p);
      FlatWriteAt(mem[addr % SIZE := bytes[0]], addr + 1, bytes[1..], p);
    }
  }

  lemma {:induction false} FlatWriteConcat(mem: Memory, addr: nat, a: seq<Byte>, b: seq<Byte>)
    ensures FlatWrite(mem, addr, a + b) == FlatWrite(FlatWrite(mem, addr, a), addr + |a|, b)
    decreases |a|
  {
    if a == [] {
      assert a + b == b;
    } else {
      assert (a + b)[0] == a[0] && (a + b)[1..] == a[1..] + b;
      FlatWriteConcat(mem[addr % SIZE := a[0]], addr + 1, a[1..], b);
    }
  }

  /** The 16-bit address may wrap. */
  lemma {:induction false} FlatWriteWraps(mem: Memory, addr: nat, bytes: seq<Byte>)
    ensures FlatWrite(mem, addr + 0x1_0000, bytes) == FlatWrite(mem, addr, bytes)
    decreases |bytes|
  {
    if bytes != [] {
      assert (addr + 0x1_0000) % SIZE == addr % SIZE;
      FlatWriteWraps(mem[addr % SIZE := bytes[0]], addr + 1, bytes[1..]);
    }
  }

  lemma NextOffset(addr: nat)
    ensures addr % PAGE_SIZE == PAGE_SIZE - 1 ==> (addr - (PAGE_SIZE - 1)) % PAGE_SIZE == 0
    ensures addr % PAGE_SIZE < PAGE_SIZE - 1 ==> (addr + 1) % PAGE_SIZE == addr % PAGE_SIZE + 1
  {
  }

  lemma {:induction false} WithinPage(mem: Memory, addr: nat, bytes: seq<Byte>)
    requires addr % PAGE_SIZE + |bytes| <= PAGE_SIZE
    ensures PageWrite(mem, addr, bytes) == FlatWrite(mem, addr, bytes)
    decreases |bytes|
  {
    if |bytes| > 1 {
      NextOffset(addr);
      WithinPage(mem[addr % SIZE := bytes[0]], addr + 1, bytes[1..]);
    }
  }

  /** A page write never leaves its page. */
  lemma {:induction false} PageWriteStays(mem: Memory, addr: nat, bytes: seq<Byte>, p: nat)
    requires p < SIZE && p / PAGE_SIZE != addr % SIZE / PAGE_SIZE
    ensures PageWrite(mem, addr, bytes)[p] == mem[p]
    decreases |bytes|
  {
    if bytes != [] {
      var next := if addr % PAGE_SIZE == PAGE_SIZE - 1 then addr - (PAGE_SIZE - 1) else addr + 1;
      SamePage(addr);
      PageWriteStays(mem[addr % SIZE := bytes[0]], next, bytes[1..], p);
    }
  }

  lemma SamePage(addr: nat)
    ensures var next := if addr % PAGE_SIZE == PAGE_SIZE - 1 then addr - (PAGE_SIZE - 1) else addr + 1;
            next % SIZE / PAGE_SIZE == addr % SIZE / PAGE_SIZE
  {
    var q, o := addr / PAGE_SIZE, addr % PAGE_SIZE;
    assert addr == PAGE_SIZE * q + o;
    PageOf(q, o);
    PageOf(q, if o == PAGE_SIZE - 1 then 0 else o + 1);
  }

  lemma PageOf(q: nat, o: nat)
    requires o < PAGE_SIZE
    ensures (PAGE_SIZE * q + o) % SIZE / PAGE_SIZE == q % 128
  {
  }

  /** How far cell p of the page lies after an address, around the page. */
  function Around(addr: nat, p: nat): (d: nat)
    ensures d < PAGE_SIZE
  {
    (p - addr) % PAGE_SIZE
  }

  lemma AroundStep(addr: nat, p: nat)
    requires p < SIZE && p / PAGE_SIZE == addr % SIZE / PAGE_SIZE
    ensures var next := if addr % PAGE_SIZE == PAGE_SIZE - 1 then addr - (PAGE_SIZE - 1) else addr + 1;
            && (Around(addr, p) == 0 <==> p == addr % SIZE)
            && Around(next, p) == if Around(addr, p) == 0 then PAGE_SIZE - 1 else Around(addr, p) - 1
  {
    var next := if addr % PAGE_SIZE == PAGE_SIZE - 1 then addr - (PAGE_SIZE - 1) else addr + 1;
    InPage(addr);
    AroundInPage(addr, p);
    AroundInPage(next, p);
    NextOffset(addr);
    hide Around;
  }

  lemma InPage(addr: nat)
    ensures addr % SIZE % PAGE_SIZE == addr % PAGE_SIZE
  {
    var q, r := addr / SIZE, addr % SIZE;
    assert addr == PAGE_SIZE * (128 * q) + r;
  }

  lemma AroundInPage(addr: nat, p: nat)
    ensures var d := p % PAGE_SIZE - addr % PAGE_SIZE;
            Around(addr, p) == if d < 0 then d + PAGE_SIZE else d
  {
    var a, b := addr / PAGE_SIZE, p / PAGE_SIZE;
    var d := p % PAGE_SIZE - addr % PAGE_SIZE;
    assert p - addr == PAGE_SIZE * (b - a) + d;
  }

  /** A page write of at most a page leaves each byte at its own cell of the page, around it. */
  lemma {:induction false} PageWriteAt(mem: Memory, addr: nat, bytes: seq<Byte>, p: nat)
    requires |bytes| <= PAGE_SIZE && p < SIZE && p / PAGE_SIZE == addr % SIZE / PAGE_SIZE
    ensures PageWrite(mem, addr, bytes)[p] == if Around(addr, p) < |bytes| then bytes[Around(addr, p)] else mem[p]
    decreases |bytes|
  {
    if bytes != [] {
      var next := if addr % PAGE_SIZE == PAGE_SIZE - 1 then addr - (PAGE_SIZE - 1) else addr + 1;
      SamePage(addr);
      AroundStep(addr, p);
      PageWriteAt(mem[addr % SIZE := bytes[0]], next, bytes[1..], p);
    }
  }

  lemma AheadOf(addr: nat, k: nat)
    requires k < SIZE
    ensures Ahead(addr, (addr + k) % SIZE) == k
  {
    var q, o := addr / SIZE, addr % SIZE;
    assert addr == SIZE * q + o;
    assert (addr + k) % SIZE == (o + k) % SIZE;
  }

  /** What was written is read back exactly, for data of any content that fits the memory. */
  lemma ReadBack(mem: Memory, addr: nat, bytes: seq<Byte>)
    requires |bytes| <= SIZE
    ensures FlatRead(FlatWrite(mem, addr, bytes), addr, |bytes|) == bytes
  {
    hide FlatWrite, Ahead;
    forall k | 0 <= k < |bytes|
      ensures FlatWrite(mem, addr, bytes)[(addr + k) % SIZE] == bytes[k]
    {
      AheadOf(addr, k);
      FlatWriteAt(mem, addr, bytes, (addr + k) % SIZE);
    }
  }

  /** A page write is a flat write of the same zeros, whatever the memory held, exactly when the
      zeros stay in the page. */
  lemma ZerosFlatIffInPage(addr: nat, len: nat)
    ensures (forall mem: Memory :: PageWrite(mem, addr, Zeros(len)) == FlatWrite(mem, addr, Zeros(len)))
            <==> addr % PAGE_SIZE + len <= PAGE_SIZE
  {
    if addr % PAGE_SIZE + len <= PAGE_SIZE {
      forall mem: Memory
        ensures PageWrite(mem, addr, Zeros(len)) == FlatWrite(mem, addr, Zeros(len))
      {
        WithinPage(mem, addr, Zeros(len));
      }
    } else {
      ZerosLeavePage(addr, len);
    }
  }

  /** The first byte past the page: a flat write clears it, a page write does not reach it. */
  lemma ZerosLeavePage(addr: nat, len: nat)
    requires addr % PAGE_SIZE + len > PAGE_SIZE
    ensures var mem: Memory := seq(SIZE, _ => 0xFF);
            PageWrite(mem, addr, Zeros(len)) != FlatWrite(mem, addr, Zeros(len))
  {
    var mem: Memory := seq(SIZE, _ => 0xFF);
    var k := PAGE_SIZE - addr % PAGE_SIZE;
    var p := (addr + k) % SIZE;
    NextPage(addr);
    PageWriteStays(mem, addr, Zeros(len), p);
    FlatZeros(mem, addr, len, k);
  }

  lemma NextPage(addr: nat)
    ensures (addr + PAGE_SIZE - addr % PAGE_SIZE) % SIZE / PAGE_SIZE != addr % SIZE / PAGE_SIZE
  {
    var q, o := addr / PAGE_SIZE, addr % PAGE_SIZE;
    assert addr == PAGE_SIZE * q + o;
    PageOf(q, o);
    PageOf(q + 1, 0);
  }

  lemma {:induction false} FlatZeros(mem: Memory, addr: nat, len: nat, k: nat)
    requires k < len
    ensures FlatWrite(mem, addr, Zeros(len))[(addr + k) % SIZE] == 0
    decreases k
  {
    assert Zeros(len)[1..] == Zeros(len - 1);
    if k == 0 {
      ZerosKeep(mem[addr % SIZE := 0], addr + 1, len - 1, addr % SIZE);
    } else {
      FlatZeros(mem[addr % SIZE := 0], addr + 1, len - 1, k - 1);
    }
  }

  lemma {:induction false} ZerosKeep(mem: Memory, addr: nat, len: nat, p: nat)
    requires p < SIZE && mem[p] == 0
    ensures FlatWrite(mem, addr, Zeros(len))[p] == 0
    decreases len
  {
    if len > 0 {
      assert Zeros(len)[1..] == Zeros(len - 1);
      ZerosKeep(mem[addr % SIZE := 0], addr + 1, len - 1, p);
    }
  }

  // ----- the driver -----

  /** Pages that len bytes from an address touch. */
  function PagesTouched(addr: nat, len: nat): nat {
    if len == 0 then 0 else (addr + len - 1) / PAGE_SIZE - addr / PAGE_SIZE + 1
  }

  /** The chip behind the driver's write and read functions. Whether it accepts its k-th request
      is not known in advance; one that it refuses changes nothing. */
  class Chip {
    var mem: Memory
    var accepted: seq<Request>
    var requests: nat
    const outcome: nat -> Status

    constructor (mem: Memory, outcome: nat -> Status)
      ensures this.mem == mem && this.outcome == outcome && accepted == [] && requests == 0
    {
      this.mem, this.outcome, accepted, requests := mem, outcome, [], 0;
    }

    /** A refused read returns nothing. */
    method Read(addr: UShort, len: UShort) returns (status: Status, data: seq<Byte>)
      modifies this`requests
      ensures status == outcome(old(requests)) && requests == old(requests) + 1
      ensures data == if status == Ok then FlatRead(mem, addr, len) else []
    {
      status, data := outcome(requests), [];
      requests := requests + 1;
      if status == Ok {
        data := FlatRead(mem, addr, len);
      }
    }

    method Write(addr: UShort, bytes: seq<Byte>) returns (status: Status)
      modifies this
      ensures status == outcome(old(requests)) && requests == old(requests) + 1
      ensures mem == if status == Ok then PageWrite(old(mem), addr, bytes) else old(mem)
      ensures accepted == if status == Ok then old(accepted) + [Request(addr, bytes)] else old(accepted)
    {
      status := outcome(requests);
      requests := requests + 1;
      if status == Ok {
        mem := PageWrite(mem, addr, bytes);
        accepted := accepted + [Request(addr, bytes)];
      }
    }
  }

  /** What m24c32_t holds: the functions by which a chip is reached, either of which may be missing. */
  class Device {
    const write: Chip?
    const read: Chip?

    constructor (write: Chip?, read: Chip?)
      ensures this.write == write && this.read == read
    {
      this.write, this.read := write, read;
    }
  }

  /** The requests carry these bytes from this address on, none of them leaving its page. */
  predicate Carries(requests: seq<Request>, addr: nat, bytes: seq<Byte>)
    decreases |requests|
  {
    if requests == [] then bytes == []
    else
      var r := requests[|requests| - 1];
      var before := |bytes| - |r.bytes|;
      && 0 < |r.bytes| <= |bytes| && bytes[before..] == r.bytes
      && r.addr == (addr + before) % 0x1_0000
      && r.addr % PAGE_SIZE + |r.bytes| <= PAGE_SIZE
      && Carries(requests[..|requests| - 1], addr, bytes[..before])
  }

  lemma CarriesMore(requests: seq<Request>, addr: nat, bytes: seq<Byte>, r: Request)
    requires Carries(requests, addr, bytes) && 0 < |r.bytes|
    requires r.addr == (addr + |bytes|) % 0x1_0000 && r.addr % PAGE_SIZE + |r.bytes| <= PAGE_SIZE
    ensures Carries(requests + [r], addr, bytes + r.bytes)
  {
    var all, b := requests + [r], bytes + r.bytes;
    assert all[..|all| - 1] == requests;
    assert b[|b| - |r.bytes|..] == r.bytes && b[..|b| - |r.bytes|] == bytes;
  }

  /** A page write of one chunk continues the flat write of what came before. */
  lemma ChunkContinues(start: Memory, addr: UShort, done: seq<Byte>, chunk: seq<Byte>, a: UShort)
    requires a == (addr + |done|) % 0x1_0000 && |done| < 0x1_0000
    requires a % PAGE_SIZE + |chunk| <= PAGE_SIZE
    ensures PageWrite(FlatWrite(start, addr, done), a, chunk) == FlatWrite(start, addr, done + chunk)
  {
    var mem := FlatWrite(start, addr, done);
    WithinPage(mem, a, chunk);
    FlatWriteConcat(start, addr, done, chunk);
    hide FlatWrite, PageWrite;
    FlatWriteWraps(mem, a, chunk);
  }

  lemma OnePageMore(addr: nat, done: nat, len: nat)
    requires done == 0 || (addr + done) % PAGE_SIZE == 0
    requires 0 < len <= PAGE_SIZE - (addr + done) % PAGE_SIZE
    ensures PagesTouched(addr, done + len) == PagesTouched(addr, done) + 1
  {
    var q, o := (addr + done) / PAGE_SIZE, (addr + done) % PAGE_SIZE;
    assert addr + done == PAGE_SIZE * q + o;
    assert (addr + done + len - 1) / PAGE_SIZE == q;
    if done > 0 {
      assert (addr + done - 1) / PAGE_SIZE == q - 1;
    }
  }

  /** What a write has done when it returns: memory holds one flat write of the bytes written,
      carried by one request for each page they touch. All were written exactly when the device
      refused nothing; otherwise its error is returned, and the bytes written end where a page
      ends. */
  ghost predicate Wrote(chip: Chip, mem: Memory, accepted: seq<Request>, requests: nat,
                        addr: UShort, bytes: seq<Byte>, result: Status, written: nat)
    reads chip
  {
    && written <= |bytes|
    && Progress(mem, accepted, chip.mem, chip.accepted, addr, bytes[..written])
    && chip.requests - requests == PagesTouched(addr, written) + (if result == Ok then 0 else 1)
    && (result == Ok ==> written == |bytes|)
    && (result != Ok ==>
          && written < |bytes| && (written == 0 || (addr + written) % PAGE_SIZE == 0)
          && result == chip.outcome(requests + PagesTouched(addr, written)))
  }

  /** From a memory and a list of requests to another, by carrying the bytes page by page. */
  ghost predicate Progress(mem: Memory, accepted: seq<Request>, after: Memory, more: seq<Request>,
                           addr: UShort, bytes: seq<Byte>)
  {
    && after == FlatWrite(mem, addr, bytes)
    && accepted <= more
    && Carries(more[|accepted|..], addr, bytes)
    && |more| - |accepted| == PagesTouched(addr, |bytes|)
  }

  lemma NoProgress(mem: Memory, accepted: seq<Request>, addr: UShort)
    ensures Progress(mem, accepted, mem, accepted, addr, [])
  {
  }

  lemma ProgressMore(mem: Memory, accepted: seq<Request>, after: Memory, more: seq<Request>,
                     addr: UShort, done: seq<Byte>, a: UShort, chunk: seq<Byte>)
    requires Progress(mem, accepted, after, more, addr, done)
    requires 0 < |chunk| && |done| < 0x1_0000
    requires a == (addr + |done|) % 0x1_0000 && a % PAGE_SIZE + |chunk| <= PAGE_SIZE
    requires |done| == 0 || (addr + |done|) % PAGE_SIZE == 0
    ensures Progress(mem, accepted, PageWrite(after, a, chunk), more + [Request(a, chunk)], addr, done + chunk)
    ensures PagesTouched(addr, |done| + |chunk|) == PagesTouched(addr, |done|) + 1
  {
    ChunkContinues(mem, addr, done, chunk, a);
    OnePageMore(addr, |done|, |chunk|);
    hide FlatWrite, PageWrite, PagesTouched;
    CarriesMore(more[|accepted|..], addr, done, Request(a, chunk));
    hide Carries;
    assert (more + [Request(a, chunk)])[|accepted|..] == more[|accepted|..] + [Request(a, chunk)];
  }

  /** The 16-bit address follows the bytes written, and a chunk that fills its page ends there. */
  lemma AddressFollows(at: nat, a: UShort, len: nat)
    requires a == at % 0x1_0000
    ensures (a + len) % 0x1_0000 == (at + len) % 0x1_0000
    ensures a % PAGE_SIZE + len == PAGE_SIZE ==> (at + len) % PAGE_SIZE == 0
    ensures a % PAGE_SIZE == at % PAGE_SIZE
  {
    var q := at / 0x1_0000;
    assert at == q * 0x1_0000 + a;
    assert at + len == q * 0x1_0000 + (a + len);
  }

  lemma NoPages(addr: nat)
    ensures PagesTouched(addr, 0) == 0
  {
  }

  /** Writes len bytes, split where pages end. */
  method Write(device: Device?, addr: UShort, data: array?<Byte>, len: UShort)
    returns (result: Status, ghost written: nat)
    requires data != null ==> len <= data.Length
    modifies if device != null && device.write != null then {device.write} else {}
    ensures device == null || device.write == null || data == null ==>
              result == NullPointer && (device != null && device.write != null ==> unchanged(device.write))
    ensures device != null && device.write != null && data != null ==>
              Wrote(device.write, old(device.write.mem), old(device.write.accepted), old(device.write.requests),
                    addr, data[..len], result, written)
  {
    hide FlatWrite, PageWrite, Carries, Progress, PagesTouched;
    written := 0;
    if device == null || device.write == null || data == null {
      return NullPointer, 0;
    }
    var chip := device.write;
    ghost var mem, accepted, requests := chip.mem, chip.accepted, chip.requests;
    NoProgress(mem, accepted, addr);
    NoPages(addr);
    result := Ok;
    var a := addr;
    var bytesWritten := 0;
    while bytesWritten < len
      invariant 0 <= bytesWritten <= len && written == bytesWritten && result == Ok
      invariant a == (addr + bytesWritten) % 0x1_0000
      invariant bytesWritten == 0 || bytesWritten == len || (addr + bytesWritten) % PAGE_SIZE == 0
      invariant Progress(mem, accepted, chip.mem, chip.accepted, addr, data[..len][..bytesWritten])
      invariant chip.requests == requests + PagesTouched(addr, bytesWritten)
    {
      var remainingInPage := PAGE_SIZE - a % PAGE_SIZE;
      var writeLen := if len - bytesWritten < remainingInPage then len - bytesWritten else remainingInPage;
      var chunk := data[bytesWritten..bytesWritten + writeLen];
      ghost var done := data[..len][..bytesWritten];
      ProgressMore(mem, accepted, chip.mem, chip.accepted, addr, done, a, chunk);
      AddressFollows(addr + bytesWritten, a, writeLen);
      result := chip.Write(a, chunk);
      if result != Ok {
        return;
      }
      assert done + chunk == data[..len][..bytesWritten + writeLen];
      a := (a + writeLen) % 0x1_0000;
      bytesWritten := bytesWritten + writeLen;
      written := bytesWritten;
    }
    assert data[..len][..len] == data[..len];
  }

  method Read(device: Device?, addr: UShort, len: UShort) returns (result: Status, data: seq<Byte>)
    modifies if device != null && device.read != null then {device.read} else {}
    ensures device == null || device.read == null ==> result == NullPointer && data == []
    ensures device != null && device.read != null ==>
              var chip := device.read;
              && chip.mem == old(chip.mem) && chip.accepted == old(chip.accepted)
              && chip.requests == old(chip.requests) + 1 && result == chip.outcome(old(chip.requests))
              && data == if result == Ok then FlatRead(chip.mem, addr, len) else []
  {
    if device == null || device.read == null {
      return NullPointer, [];
    }
    result, data := device.read.Read(addr, len);
  }

  /** Data written without error and read without error comes back, whatever its bytes and
      wherever its pages end. */
  method WriteThenRead(device: Device, addr: UShort, data: array<Byte>, len: UShort)
    returns (wrote: Status, got: Status, back: seq<Byte>)
    requires device.write != null && device.read == device.write && len <= data.Length && len <= SIZE
    modifies device.write
    ensures wrote == Ok && got == Ok ==> back == data[..len]
  {
    ghost var written;
    ghost var mem := device.write.mem;
    wrote, written := Write(device, addr, data, len);
    got, back := Read(device, addr, len);
    if wrote == Ok {
      hide FlatWrite, FlatRead, Carries;
      assert data[..len][..written] == data[..len];
      ReadBack(mem, addr, data[..len]);
    }
  }

  /** Sends zeros in one request, which clears the bytes asked for only if they share a page. */
  method Clear(device: Device?, addr: UShort, len: UShort, hasRoom: bool) returns (result: Status)
    modifies if device != null && device.write != null then {device.write} else {}
    ensures device == null || device.write == null ==> result == NullPointer
    ensures device != null && device.write != null ==>
              var chip := device.write;
              if !hasRoom then result == Allocation && unchanged(chip)
              else
                && result == chip.outcome(old(chip.requests))
                && chip.requests == old(chip.requests) + 1
                && chip.accepted == (if result == Ok then old(chip.accepted) + [Request(addr, Zeros(len))]
                                     else old(chip.accepted))
                && chip.mem == (if result == Ok then PageWrite(old(chip.mem), addr, Zeros(len)) else old(chip.mem))
                && (result == Ok && addr % PAGE_SIZE + len <= PAGE_SIZE ==>
                      chip.mem == FlatWrite(old(chip.mem), addr, Zeros(len)))
  {
    if device == null || device.write == null {
      return NullPointer;
    }
    if !hasRoom {
      return Allocation;
    }
    var chip := device.write;
    if addr % PAGE_SIZE + len <= PAGE_SIZE {
      WithinPage(chip.mem, addr, Zeros(len));
    }
    hide PageWrite, FlatWrite;
    result := chip.Write(addr, Zeros(len));
  }
}
