/**
  The STM32F0 flash programming sequencer.

  The flash controller is the register record `Flash`: the control register
  CR, the status register SR, the address register AR, and `bus`, every
  register write and flash store in the order the code issues them. Reading
  the bus back gives the key log (`KeyLog`) and the bytes that were stored
  (`StoredBytes`).

  Register behaviour follows the STM32F0 reference manual (RM0091, section
  3.5): in SR, PGERR, WRPRT and EOP are cleared by writing 1 to them and BSY
  is read-only; in CR, LOCK can only be set by software and is cleared by
  the hardware once KEY1 and then KEY2 are written to KEYR, and STRT is
  reset by the hardware when BSY is reset.

  Waiting for the controller is a scan over `trace`, the successive SR values
  the hardware shows; the caller supplies it and it must contain a value with
  BSY clear.
 */
module StmFlash {
  import opened Bits

  /** A 32-bit address as an integer. */
  type u32 = x: int | 0 <= x < 0x1_0000_0000

  /** The two FLASH_KEYR unlock keys. */
  const Key1: bv32 := 0x4567_0123
  const Key2: bv32 := 0xCDEF_89AB

  /** FLASH_CR bits. */
  const CrPg: bv32 := 0x01
  const CrPer: bv32 := 0x02
  const CrStrt: bv32 := 0x40
  const CrLock: bv32 := 0x80

  /** FLASH_SR bits. */
  const SrBsy: bv32 := 0x01
  const SrPgerr: bv32 := 0x04
  const SrWrprt: bv32 := 0x10
  const SrEop: bv32 := 0x20

  /** The SR flags that are cleared by writing 1: PGERR, WRPRT and EOP. */
  const SrSticky: bv32 := 0x34

  /** The failures this sequencer reports. */
  datatype Error = Prog | Seq | Protected

  datatype Outcome = Ok | Err(error: Error)

  /** One write on the bus: a register write or a half-word store into flash. */
  datatype BusWrite =
    | KeyWrite(key: bv32)
    | CrWrite(cr: bv32)
    | ArWrite(ar: bv32)
    | SrWrite(sr: bv32)
    | HalfwordStore(addr: u32, value: bv16)

  datatype Flash = Flash(cr: bv32, sr: bv32, ar: bv32, bus: seq<BusWrite>)

  /** A flash sector; only its start address is used here. */
  datatype Sector = Sector(start: bv32)

  predicate Locked(s: Flash) { s.cr & CrLock != 0 }

  predicate Busy(sr: bv32) { sr & SrBsy != 0 }
  predicate WriteProtected(sr: bv32) { sr & SrWrprt != 0 }
  predicate ProgrammingError(sr: bv32) { sr & SrPgerr != 0 }
  predicate EndOfOperation(sr: bv32) { sr & SrEop != 0 }

  // ---------------------------------------------------------------------------
  // Register semantics
  // ---------------------------------------------------------------------------

  /** Writing CR: every bit takes the written value, except that LOCK stays set once set. */
  function WriteCr(s: Flash, w: bv32): (r: Flash)
    ensures Locked(r) <==> Locked(s) || w & CrLock != 0
    ensures AgreeOutside(r.cr, w, CrLock)
    ensures w & CrLock == s.cr & CrLock ==> r.cr == w
    ensures r.sr == s.sr && r.ar == s.ar
    ensures r.bus == s.bus + [CrWrite(w)]
  {
    s.(cr := if s.cr & CrLock != 0 && w & CrLock == 0 then SetMask(w, CrLock) else w, bus := s.bus + [CrWrite(w)])
  }

  /** Writing SR: a 1 clears the sticky flag under it; nothing else changes. */
  function WriteSr(s: Flash, w: bv32): (r: Flash)
    ensures r.sr & (w & SrSticky) == 0
    ensures AgreeOutside(r.sr, s.sr, w & SrSticky)
    ensures r.cr == s.cr && r.ar == s.ar
    ensures r.bus == s.bus + [SrWrite(w)]
  {
    s.(sr := ClearMask(s.sr, w & SrSticky), bus := s.bus + [SrWrite(w)])
  }

  function WriteAr(s: Flash, w: bv32): (r: Flash)
    ensures r.ar == w && r.cr == s.cr && r.sr == s.sr
    ensures r.bus == s.bus + [ArWrite(w)]
  {
    s.(ar := w, bus := s.bus + [ArWrite(w)])
  }

  /** Writing `k` to KEYR after `bus` completes the unlock sequence: KEY2 right after KEY1. */
  predicate CompletesKeySequence(bus: seq<BusWrite>, k: bv32)
  {
    k == Key2 && |bus| > 0 && bus[|bus| - 1] == KeyWrite(Key1)
  }

  /** Writing KEYR: completing the key sequence clears LOCK. */
  function WriteKey(s: Flash, k: bv32): (r: Flash)
    ensures CompletesKeySequence(s.bus, k) ==> !Locked(r)
    ensures AgreeOutside(r.cr, s.cr, CrLock)
    ensures Locked(r) ==> Locked(s)
    ensures r.sr == s.sr && r.ar == s.ar
    ensures r.bus == s.bus + [KeyWrite(k)]
  {
    s.(cr := if CompletesKeySequence(s.bus, k) then ClearMask(s.cr, CrLock) else s.cr, bus := s.bus + [KeyWrite(k)])
  }

  /** A volatile half-word store into flash. */
  function StoreHalfword(s: Flash, addr: u32, v: bv16): (r: Flash)
    ensures r.cr == s.cr && r.sr == s.sr && r.ar == s.ar
    ensures r.bus == s.bus + [HalfwordStore(addr, v)]
  {
    s.(bus := s.bus + [HalfwordStore(addr, v)])
  }

  // ---------------------------------------------------------------------------
  // Reading the bus back
  // ---------------------------------------------------------------------------

  /** The keys written to KEYR, in order. */
  function KeyLog(bus: seq<BusWrite>): seq<bv32>
  {
    if |bus| == 0 then []
    else
      var last := bus[|bus| - 1];
      KeyLog(bus[..|bus| - 1]) + if last.KeyWrite? then [last.key] else []
  }

  function LowByte(v: bv16): bv8 { (v & 0xFF) as bv8 }

  function HighByte(v: bv16): bv8 { (v >> 8) as bv8 }

  /** `u16::from_le_bytes([lo, hi])`. */
  function HalfwordOf(lo: bv8, hi: bv8): (v: bv16)
    ensures LowByte(v) == lo && HighByte(v) == hi
  {
    HalfwordBytes(lo, hi);
    (lo as bv16) | ((hi as bv16) << 8)
  }

  lemma HalfwordBytes(lo: bv8, hi: bv8)
    ensures LowByte((lo as bv16) | ((hi as bv16) << 8)) == lo
    ensures HighByte((lo as bv16) | ((hi as bv16) << 8)) == hi
  {
  }

  /** As a number, the little-endian half-word is `lo + 256 * hi`. */
  lemma HalfwordValue(lo: bv8, hi: bv8)
    ensures HalfwordOf(lo, hi) as int == lo as int + 256 * hi as int
  {
    assert HalfwordOf(lo, hi) == (lo as bv16) | ((hi as bv16) << 8);
    HalfwordNumber(lo, hi);
  }

  lemma HalfwordNumber(lo: bv8, hi: bv8)
    ensures ((lo as bv16) | ((hi as bv16) << 8)) as int == lo as int + 256 * hi as int
  {
  }

  /** The bytes the half-word stores on the bus put into flash, in store order, low byte first. */
  function StoredBytes(bus: seq<BusWrite>): seq<bv8>
  {
    if |bus| == 0 then []
    else
      var last := bus[|bus| - 1];
      StoredBytes(bus[..|bus| - 1])
        + if last.HalfwordStore? then [LowByte(last.value), HighByte(last.value)] else []
  }

  /** Each half-word store on the bus targets a higher address than every earlier one. */
  predicate AddressesIncrease(bus: seq<BusWrite>)
  {
    forall i, j :: 0 <= i < j < |bus| && bus[i].HalfwordStore? && bus[j].HalfwordStore? ==> bus[i].addr < bus[j].addr
  }

  // ---------------------------------------------------------------------------
  // Lock and program enable
  // ---------------------------------------------------------------------------

  /** `lock`: read-modify-write of CR setting LOCK. */
  function Lock(s: Flash): (r: Flash)
    ensures Locked(r)
    ensures AgreeOutside(r.cr, s.cr, CrLock)
    ensures r.sr == s.sr && r.ar == s.ar
    ensures r.bus == s.bus + [CrWrite(SetMask(s.cr, CrLock))]
  {
    WriteCr(s, SetMask(s.cr, CrLock))
  }

  /** `unlock`: KEY1 then KEY2 to KEYR, which clears LOCK whether or not it was set. */
  function Unlock(s: Flash): (r: Flash)
    ensures !Locked(r)
    ensures AgreeOutside(r.cr, s.cr, CrLock)
    ensures r.sr == s.sr && r.ar == s.ar
    ensures r.bus == s.bus + [KeyWrite(Key1), KeyWrite(Key2)]
    ensures KeyLog(r.bus) == KeyLog(s.bus) + [Key1, Key2]
  {
    var s1 := WriteKey(s, Key1);
    var r := WriteKey(s1, Key2);
    assert r.bus[..|r.bus| - 1] == s1.bus;
    assert s1.bus[..|s1.bus| - 1] == s.bus;
    r
  }

  /** Locking and then unlocking gives back the control register of an unlocked controller. */
  lemma UnlockUndoesLock(s: Flash)
    requires !Locked(s)
    ensures Unlock(Lock(s)).cr == s.cr
  {
    var r := Unlock(Lock(s));
    AgreeOutsideTrans(r.cr, Lock(s).cr, s.cr, CrLock);
    SameWord(r.cr, s.cr, CrLock);
  }

  lemma SameWord(a: bv32, b: bv32, mask: bv32)
    requires AgreeOutside(a, b, mask)
    requires a & mask == 0 && b & mask == 0
    ensures a == b
  {
  }

  /**
    `begin_write`: a plain CR write with only PG set. The write size must be
    even (the source asserts it); a violation is a panic, so it is a
    precondition here.
   */
  function BeginWrite(s: Flash, writeSize: nat): (r: Flash)
    requires writeSize % 2 == 0
    ensures r.cr & CrPg != 0
    ensures r.cr & (CrPer | CrStrt) == 0
    ensures Locked(r) == Locked(s)
    ensures r.sr == s.sr && r.ar == s.ar
    ensures r.bus == s.bus + [CrWrite(CrPg)]
  {
    WriteCr(s, CrPg)
  }

  /** `end_write`: a plain CR write with every bit clear; PG drops, LOCK is kept. */
  function EndWrite(s: Flash): (r: Flash)
    ensures r.cr & CrPg == 0
    ensures r.cr & (CrPer | CrStrt) == 0
    ensures Locked(r) == Locked(s)
    ensures r.sr == s.sr && r.ar == s.ar
    ensures r.bus == s.bus + [CrWrite(0)]
  {
    WriteCr(s, 0)
  }

  /**
    A programming window, `begin_write` then `end_write`, leaves PG, PER and
    STRT clear, keeps the lock state, SR and AR, and puts exactly the two CR
    writes on the bus.
   */
  lemma WriteWindowCloses(s: Flash, writeSize: nat)
    requires writeSize % 2 == 0
    ensures var r := EndWrite(BeginWrite(s, writeSize));
      && r.cr & (CrPg | CrPer | CrStrt) == 0
      && Locked(r) == Locked(s)
      && r.sr == s.sr && r.ar == s.ar
      && r.bus == s.bus + [CrWrite(CrPg), CrWrite(0)]
  {
  }

  // ---------------------------------------------------------------------------
  // Waiting and classifying
  // ---------------------------------------------------------------------------

  /** The trace holds an SR value with BSY clear. */
  predicate EventuallyReady(trace: seq<bv32>)
  {
    exists k :: 0 <= k < |trace| && !Busy(trace[k])
  }

  /** The position of the first SR value with BSY clear. */
  function FirstReady(trace: seq<bv32>): (k: nat)
    requires EventuallyReady(trace)
    ensures k < |trace| && !Busy(trace[k])
    ensures forall j :: 0 <= j < k ==> Busy(trace[j])
  {
    if !Busy(trace[0]) then 0
    else
      var k :| 0 <= k < |trace| && !Busy(trace[k]);
      assert !Busy(trace[1..][k - 1]);
      1 + FirstReady(trace[1..])
  }

  /** The verdict on a ready status value: write protection first, then a sequence error. */
  function Classify(sr: bv32): (r: Outcome)
    ensures r == Err(Protected) <==> WriteProtected(sr)
    ensures r == Err(Seq) <==> !WriteProtected(sr) && ProgrammingError(sr)
    ensures r == Ok <==> !WriteProtected(sr) && !ProgrammingError(sr)
    ensures r != Err(Prog)
  {
    if WriteProtected(sr) then Err(Protected)
    else if ProgrammingError(sr) then Err(Seq)
    else Ok
  }

  /**
    `blocking_wait_ready`: reads SR until BSY is clear and classifies that
    value. Only the first ready value counts; SR is left showing it. The
    operation is over once BSY is clear, so the hardware has reset STRT.
   */
  method BlockingWaitReady(s: Flash, trace: seq<bv32>) returns (r: Flash, res: Outcome)
    requires EventuallyReady(trace)
    ensures r.sr == trace[FirstReady(trace)]
    ensures r.cr & CrStrt == 0 && AgreeOutside(r.cr, s.cr, CrStrt)
    ensures r.ar == s.ar && r.bus == s.bus
    ensures res == Classify(r.sr)
  {
    var i := 0;
    while Busy(trace[i])
      invariant 0 <= i <= FirstReady(trace)
      decreases FirstReady(trace) - i
    {
      i := i + 1;
    }
    var sr := trace[i];
    r := s.(sr := sr, cr := ClearMask(s.cr, CrStrt));
    if sr & SrWrprt != 0 {
      res := Err(Protected);
    } else if sr & SrPgerr != 0 {
      res := Err(Seq);
    } else {
      res := Ok;
    }
  }

  // ---------------------------------------------------------------------------
  // Programming
  // ---------------------------------------------------------------------------

  /**
    `blocking_write`: the buffer goes out as little-endian half-words at
    consecutive even offsets from `start`, in order, and the result is the
    wait's verdict. The buffer length is even (an odd last chunk would make
    the conversion to `[u8; 2]` panic), and the address counter, which
    passes the last byte, must not overflow its 32 bits.
   */
  method BlockingWrite(s: Flash, start: u32, buf: seq<bv8>, trace: seq<bv32>) returns (r: Flash, res: Outcome)
    requires |buf| % 2 == 0
    requires start + |buf| < 0x1_0000_0000
    requires EventuallyReady(trace)
    ensures |r.bus| == |s.bus| + |buf| / 2 && r.bus[..|s.bus|] == s.bus
    ensures forall i :: 0 <= i < |buf| / 2 ==>
      r.bus[|s.bus| + i] == HalfwordStore(start + 2 * i, HalfwordOf(buf[2 * i], buf[2 * i + 1]))
    ensures StoredBytes(r.bus) == StoredBytes(s.bus) + buf
    ensures AddressesIncrease(r.bus[|s.bus|..])
    ensures r.cr & CrStrt == 0 && AgreeOutside(r.cr, s.cr, CrStrt) && r.ar == s.ar
    ensures r.sr == trace[FirstReady(trace)]
    ensures res == Classify(r.sr)
  {
    var address: u32 := start;
    var i := 0;
    r := s;
    while i < |buf| / 2
      invariant 0 <= i <= |buf| / 2
      invariant address == start + 2 * i
      invariant StoredPrefix(s.bus, r.bus, start, buf, i)
      invariant r.cr == s.cr && r.ar == s.ar && r.sr == s.sr
    {
      StoredPrefixStep(s.bus, r.bus, start, buf, i);
      r := StoreHalfword(r, address, HalfwordOf(buf[2 * i], buf[2 * i + 1]));
      address := address + 2;
      i := i + 1;
    }
    StoredPrefixComplete(s.bus, r.bus, start, buf);
    r, res := BlockingWaitReady(r, trace);
  }

  /**
    After `i` passes of the store loop, the bus is `before` followed by the
    first `i` half-words of `buf`, and they hold its first `2 * i` bytes.
   */
  predicate StoredPrefix(before: seq<BusWrite>, bus: seq<BusWrite>, start: u32, buf: seq<bv8>, i: nat)
    requires |buf| % 2 == 0 && start + |buf| < 0x1_0000_0000 && i <= |buf| / 2
  {
    && |bus| == |before| + i && bus[..|before|] == before
    && (forall j :: 0 <= j < i ==>
          bus[|before| + j] == HalfwordStore(start + 2 * j, HalfwordOf(buf[2 * j], buf[2 * j + 1])))
    && StoredBytes(bus) == StoredBytes(before) + buf[..2 * i]
  }

  /** One more pass of the store loop keeps `StoredPrefix`. */
  lemma StoredPrefixStep(before: seq<BusWrite>, bus: seq<BusWrite>, start: u32, buf: seq<bv8>, i: nat)
    requires |buf| % 2 == 0 && start + |buf| < 0x1_0000_0000 && i < |buf| / 2
    requires StoredPrefix(before, bus, start, buf, i)
    ensures StoredPrefix(before, bus + [HalfwordStore(start + 2 * i, HalfwordOf(buf[2 * i], buf[2 * i + 1]))], start, buf, i + 1)
  {
    var v := HalfwordOf(buf[2 * i], buf[2 * i + 1]);
    var bus' := bus + [HalfwordStore(start + 2 * i, v)];
    assert bus'[..|bus'| - 1] == bus;
    assert bus'[..|before|] == bus[..|before|];
    assert buf[..2 * (i + 1)] == buf[..2 * i] + [buf[2 * i], buf[2 * i + 1]];
    assert StoredBytes(bus') == StoredBytes(bus) + [LowByte(v), HighByte(v)];
  }

  /** When the store loop ends, the whole buffer is on the bus, at increasing addresses. */
  lemma StoredPrefixComplete(before: seq<BusWrite>, bus: seq<BusWrite>, start: u32, buf: seq<bv8>)
    requires |buf| % 2 == 0 && start + |buf| < 0x1_0000_0000
    requires StoredPrefix(before, bus, start, buf, |buf| / 2)
    ensures |bus| == |before| + |buf| / 2 && bus[..|before|] == before
    ensures forall i :: 0 <= i < |buf| / 2 ==>
      bus[|before| + i] == HalfwordStore(start + 2 * i, HalfwordOf(buf[2 * i], buf[2 * i + 1]))
    ensures StoredBytes(bus) == StoredBytes(before) + buf
    ensures AddressesIncrease(bus[|before|..])
  {
    assert buf[..2 * (|buf| / 2)] == buf;
    StoresAtIncreasingAddresses(before, bus, start, buf);
  }

  /** Stores at `start + 2 * i` for consecutive `i` target increasing addresses. */
  lemma StoresAtIncreasingAddresses(before: seq<BusWrite>, after: seq<BusWrite>, start: u32, buf: seq<bv8>)
    requires |buf| % 2 == 0 && start + |buf| < 0x1_0000_0000
    requires |after| == |before| + |buf| / 2
    requires forall i :: 0 <= i < |buf| / 2 ==>
      after[|before| + i] == HalfwordStore(start + 2 * i, HalfwordOf(buf[2 * i], buf[2 * i + 1]))
    ensures AddressesIncrease(after[|before|..])
  {
    var stores := after[|before|..];
    forall a, b | 0 <= a < b < |stores| && stores[a].HalfwordStore? && stores[b].HalfwordStore?
      ensures stores[a].addr < stores[b].addr
    {
      assert stores[a] == after[|before| + a] == HalfwordStore(start + 2 * a, HalfwordOf(buf[2 * a], buf[2 * a + 1]));
      assert stores[b] == after[|before| + b] == HalfwordStore(start + 2 * b, HalfwordOf(buf[2 * b], buf[2 * b + 1]));
    }
  }

  // ---------------------------------------------------------------------------
  // Erasing
  // ---------------------------------------------------------------------------

  /**
    `clear_all_err`: SR is read and written back with each sticky flag that
    reads as set written as 1, which clears exactly the flags that were set.
   */
  function ClearAllErr(s: Flash): (r: Flash)
    ensures r.sr & SrSticky == 0
    ensures AgreeOutside(r.sr, s.sr, SrSticky)
    ensures r.cr == s.cr && r.ar == s.ar
    ensures |r.bus| == |s.bus| + 1 && r.bus[..|s.bus|] == s.bus
    ensures r.bus[|s.bus|] == SrWrite(s.sr)
  {
    var w := ClearAllErrWord(s.sr);
    var r := WriteSr(s, w);
    assert r.sr == WrittenBack(s.sr);
    r
  }

  /** The status value after writing back the value read: every sticky flag cleared. */
  function WrittenBack(sr: bv32): (r: bv32)
    ensures r & SrSticky == 0
    ensures AgreeOutside(r, sr, SrSticky)
  {
    WriteBackClearsSticky(sr, ClearMask(sr, sr & SrSticky));
    ClearMask(sr, sr & SrSticky)
  }

  /**
    The word `clear_all_err` writes: the value read, with each sticky flag
    that reads as set written as 1. That is the value read itself.
   */
  function ClearAllErrWord(sr: bv32): (w: bv32)
    ensures w == sr
  {
    var w1 := if sr & SrPgerr != 0 then SetMaskIdle(sr, SrPgerr); SetMask(sr, SrPgerr) else sr;
    var w2 := if w1 & SrWrprt != 0 then SetMaskIdle(w1, SrWrprt); SetMask(w1, SrWrprt) else w1;
    if w2 & SrEop != 0 then SetMaskIdle(w2, SrEop); SetMask(w2, SrEop) else w2
  }

  /** Writing back the value read clears every sticky flag and nothing else. */
  lemma WriteBackClearsSticky(sr: bv32, r: bv32)
    requires r & (sr & SrSticky) == 0
    requires AgreeOutside(r, sr, sr & SrSticky)
    ensures r & SrSticky == 0
    ensures AgreeOutside(r, sr, SrSticky)
  {
  }

  /** The start of `blocking_erase_sector`: set PER, write the sector start to AR, set STRT. */
  function StartErase(s: Flash, start: bv32): (r: Flash)
    ensures r.bus == s.bus + [CrWrite(SetMask(s.cr, CrPer)), ArWrite(start), CrWrite(SetMask(SetMask(s.cr, CrPer), CrStrt))]
    ensures r.cr & (CrPer | CrStrt) == CrPer | CrStrt
    ensures Locked(r) == Locked(s)
    ensures r.ar == start && r.sr == s.sr
  {
    var s1 := WriteCr(s, SetMask(s.cr, CrPer));
    AgreeOutsideOn(SetMask(s.cr, CrPer), s.cr, CrPer, CrLock);
    var s2 := WriteAr(s1, start);
    var r := WriteCr(s2, SetMask(s2.cr, CrStrt));
    AgreeOutsideOn(SetMask(s2.cr, CrStrt), s2.cr, CrStrt, CrLock);
    AgreeOutsideOn(SetMask(s2.cr, CrStrt), s2.cr, CrStrt, CrPer);
    r
  }

  /**
    The end of `blocking_erase_sector`, on the status the wait left: without
    EOP the result becomes `Prog`; with EOP, EOP is acknowledged and the
    wait's verdict `ret` stands. Then PER is cleared and `clear_all_err` runs.
   */
  function FinishErase(s: Flash, ret: Outcome): (res: (Flash, Outcome))
    ensures !EndOfOperation(s.sr) ==> res.1 == Err(Prog)
    ensures EndOfOperation(s.sr) ==> res.1 == ret
    ensures res.0.sr & SrSticky == 0 && AgreeOutside(res.0.sr, s.sr, SrSticky)
    ensures res.0.cr & CrPer == 0 && AgreeOutside(res.0.cr, s.cr, CrPer)
    ensures Locked(res.0) == Locked(s)
    ensures res.0.ar == s.ar
    ensures |res.0.bus| == |s.bus| + (if EndOfOperation(s.sr) then 3 else 2)
    ensures res.0.bus[..|s.bus|] == s.bus
    ensures EndOfOperation(s.sr) ==> res.0.bus[|s.bus|] == SrWrite(SrEop)
    ensures res.0.bus[|res.0.bus| - 2] == CrWrite(ClearMask(s.cr, CrPer))
    ensures res.0.bus[|res.0.bus| - 1].SrWrite?
  {
    var eop := s.sr & SrEop != 0;
    var s5 := if eop then WriteSr(s, SrEop) else s;
    var s6 := WriteCr(s5, ClearMask(s5.cr, CrPer));
    AgreeOutsideOn(ClearMask(s5.cr, CrPer), s5.cr, CrPer, CrLock);
    var r := ClearAllErr(s6);
    assert r.cr == ClearMask(s.cr, CrPer);
    AgreeOutsideWiden(s5.sr, s.sr, SrEop & SrSticky, SrSticky);
    AgreeOutsideTrans(r.sr, s5.sr, s.sr, SrSticky);
    assert r.bus[..|s6.bus|] == s6.bus;
    assert r.bus[..|s.bus|] == s6.bus[..|s.bus|];
    (r, if eop then ret else Err(Prog))
  }

  /**
    `blocking_erase_sector`: set PER, write the sector start to AR, set STRT,
    wait. A ready status without EOP turns the result into `Prog` whatever
    the wait said; with EOP, EOP is acknowledged and the wait's verdict
    stands. PER is cleared and `clear_all_err` runs on every path.
   */
  method BlockingEraseSector(s: Flash, sector: Sector, trace: seq<bv32>) returns (r: Flash, res: Outcome)
    requires EventuallyReady(trace)
    ensures var ready := trace[FirstReady(trace)];
      && (!EndOfOperation(ready) ==> res == Err(Prog))
      && (EndOfOperation(ready) ==> res == Classify(ready))
    ensures r.sr & SrSticky == 0
    ensures AgreeOutside(r.sr, trace[FirstReady(trace)], SrSticky)
    ensures r.cr & (CrPer | CrStrt) == 0
    ensures Locked(r) == Locked(s)
    ensures r.ar == sector.start
    ensures |r.bus| == |s.bus| + (if EndOfOperation(trace[FirstReady(trace)]) then 6 else 5)
    ensures r.bus[..|s.bus| + 3] == s.bus + [CrWrite(SetMask(s.cr, CrPer)), ArWrite(sector.start), CrWrite(SetMask(SetMask(s.cr, CrPer), CrStrt))]
    ensures EndOfOperation(trace[FirstReady(trace)]) ==> r.bus[|s.bus| + 3] == SrWrite(SrEop)
    ensures r.bus[|r.bus| - 2] == CrWrite(r.cr)
    ensures r.bus[|r.bus| - 1].SrWrite?
  {
    var started := StartErase(s, sector.start);
    var ready, ret := BlockingWaitReady(started, trace);
    AgreeOutsideOn(ready.cr, started.cr, CrStrt, CrLock);
    var finished := FinishErase(ready, ret);
    r, res := finished.0, finished.1;
    EraseEndsIdle(ready.cr, r.cr);
    assert r.bus[..|s.bus| + 3] == r.bus[..|ready.bus|];
  }

  /**
    The control word after an erase: the wait reset STRT and the cleanup
    cleared PER, each leaving the other bits alone, so neither is set and
    the final word is the waited-on word with PER cleared.
   */
  lemma EraseEndsIdle(ready: bv32, fin: bv32)
    requires ready & CrStrt == 0
    requires fin & CrPer == 0 && AgreeOutside(fin, ready, CrPer)
    ensures fin & (CrPer | CrStrt) == 0
    ensures fin == ClearMask(ready, CrPer)
  {
  }
}
