/** The polled IIC driver of the S3C2410 board talking to an EEPROM: bytes go over the bus one per
    serviced interrupt, and acknowledgement follows section 3.1.6 of UM10204. */
module IicEeprom {
  import opened Bits
  import opened Rings

  const SIZE := 65536            // the EEPROM is addressed by two bytes
  const IICBUFSIZE := 0x20

  /** What can be seen on the bus. */
  datatype Wire =
    | Start(address: Byte)
    | ToSlave(data: Byte)
    | FromSlave(byte: Byte, ack: bool)
    | Stop

  // ----- the slave -----

  datatype Slave = Slave(mem: seq<Byte>, pointer: nat, got: nat, high: Byte, latched: seq<Byte>)

  ghost predicate Sane(s: Slave) {
    |s.mem| == SIZE && s.pointer < SIZE
  }

  /** A byte-addressed EEPROM: a write sets the address with its first two bytes and stores what
      follows on the stop condition; reads go on from the address. */
  function Hear(s: Slave, w: Wire): (t: Slave)
    requires |s.mem| == SIZE && s.pointer < SIZE
    ensures |t.mem| == SIZE && t.pointer < SIZE
  {
    match w
    case Start(_) => s.(got := 0, latched := [])
    case ToSlave(b) =>
      if s.got == 0 then s.(high := b, got := 1)
      else if s.got == 1 then s.(pointer := Address(s.high, b), got := 2)
      else s.(latched := s.latched + [b])
    case FromSlave(_, _) => s.(pointer := Next(s.pointer, SIZE))
    case Stop => s.(mem := RingWrite(s.mem, s.pointer, s.latched), latched := [])
  }

  function Address(high: Byte, low: Byte): (a: nat)
    ensures a < SIZE
  {
    var h: int, l: int := high, low;
    256 * h + l
  }

  lemma AddressIs(addr: nat)
    ensures Address(addr / 256 % 256, addr % 256) == addr % SIZE
  {
  }

  function ToSlaves(data: seq<Byte>): (ws: seq<Wire>)
    ensures |ws| == |data|
  {
    seq(|data|, i requires 0 <= i < |data| => ToSlave(data[i]))
  }

  /** The last byte is not acknowledged. */
  function FromSlaves(data: seq<Byte>): (ws: seq<Wire>)
    ensures |ws| == |data|
  {
    seq(|data|, i requires 0 <= i < |data| => FromSlave(data[i], i + 1 < |data|))
  }

  /** slvAddr & 0xfe and slvAddr | 1 in the eight bits of the data register. */
  function ToWrite(slvAddr: nat): (a: Byte)
    ensures a % 2 == 0
  {
    slvAddr % 256 - slvAddr % 2
  }

  function ToRead(slvAddr: nat): Byte { ToWrite(slvAddr) + 1 }

  function Announced(addr: nat): seq<Byte> { [addr / 256 % 256, addr % 256] }

  /** A start, the slave address, the address and the data, and a stop condition unless the
      transfer goes on with another start. */
  function Page(slvAddr: nat, mode: Mode, addr: nat, data: seq<Byte>): seq<Wire> {
    [Start(ToWrite(slvAddr))] + (ToSlaves(Announced(addr) + data) + if mode == WrData then [Stop] else [])
  }

  /** All that a page write puts on the bus: the address and the data, a stop condition, and one
      more start and stop to see whether the EEPROM answers. */
  function WriteWire(slvAddr: nat, addr: nat, data: seq<Byte>): seq<Wire> {
    var start := Start(ToWrite(slvAddr));
    [start] + ToSlaves(Announced(addr) + data) + [Stop, start, Stop]
  }

  /** All that a random read puts on the bus. */
  function ReadWire(slvAddr: nat, addr: nat, data: seq<Byte>): seq<Wire> {
    [Start(ToWrite(slvAddr))] + ToSlaves(Announced(addr)) + [Start(ToRead(slvAddr))] + FromSlaves(data) + [Stop]
  }

  /** The start of a transfer to the slave: its seven bits of address with the direction in the low
      bit (1: read), and the two address bytes, high one first. */
  predicate Addresses(w: Wire, slvAddr: nat, read: bool) {
    w.Start? && w.address / 2 == slvAddr % 256 / 2 && (w.address % 2 == 1 <==> read)
  }

  predicate Announces(high: Wire, low: Wire, addr: nat) {
    high.ToSlave? && low.ToSlave? && 256 * high.data + low.data == addr % 0x1_0000
  }

  lemma DirectionBit(slvAddr: nat)
    ensures Addresses(Start(ToWrite(slvAddr)), slvAddr, false) && Addresses(Start(ToRead(slvAddr)), slvAddr, true)
  {
  }

  lemma AddressBytes(addr: nat)
    ensures |Announced(addr)| == 2
    ensures Announces(ToSlave(Announced(addr)[0]), ToSlave(Announced(addr)[1]), addr)
  {
    AddressIs(addr);
  }

  /** What goes over the bus for a write, one event after the other. */
  lemma WriteWireIs(slvAddr: nat, addr: nat, data: seq<Byte>)
    ensures var w, n := WriteWire(slvAddr, addr, data), |data|;
      && |w| == n + 6 && Addresses(w[0], slvAddr, false) && Announces(w[1], w[2], addr)
      && (forall k :: 0 <= k < n ==> w[3 + k] == ToSlave(data[k]))
      && w[n + 3] == Stop && w[n + 4] == w[0] && w[n + 5] == Stop
  {
    hide ToWrite, Addresses, Announced, Announces;
    DirectionBit(slvAddr);
    AddressBytes(addr);
    var w, sent := WriteWire(slvAddr, addr, data), ToSlaves(Announced(addr) + data);
    assert w[1] == sent[0] && w[2] == sent[1];
    forall k | 0 <= k < |data|
      ensures w[3 + k] == ToSlave(data[k])
    {
      assert w[3 + k] == sent[2 + k];
    }
  }

  /** And for a read. */
  lemma ReadWireIs(slvAddr: nat, addr: nat, data: seq<Byte>)
    ensures var w, n := ReadWire(slvAddr, addr, data), |data|;
      && |w| == n + 5 && Addresses(w[0], slvAddr, false) && Announces(w[1], w[2], addr)
      && Addresses(w[3], slvAddr, true)
      && (forall k :: 0 <= k < n ==> w[4 + k] == FromSlave(data[k], k != n - 1)) && w[n + 4] == Stop
  {
    hide ToWrite, ToRead, Addresses, Announced, Announces;
    DirectionBit(slvAddr);
    AddressBytes(addr);
    var w, sent, got := ReadWire(slvAddr, addr, data), ToSlaves(Announced(addr)), FromSlaves(data);
    assert w[1] == sent[0] && w[2] == sent[1];
    forall k | 0 <= k < |data|
      ensures w[4 + k] == FromSlave(data[k], k != |data| - 1)
    {
      assert w[4 + k] == got[k];
    }
  }

  // ----- series of accesses -----

  datatype Access = ReadFrom(addr: nat, length: nat) | WriteTo(addr: nat, buffer: seq<Byte>)

  /** The driver's buffer takes two address bytes and the data. */
  predicate Fits(length: nat) { length + 2 <= IICBUFSIZE }

  predicate AccessFits(a: Access) {
    match a case ReadFrom(_, n) => Fits(n) case WriteTo(_, buffer) => Fits(|buffer|)
  }

  function MemAfter(mem: seq<Byte>, accesses: seq<Access>): (m: seq<Byte>)
    requires |mem| == SIZE
    ensures |m| == SIZE
    decreases |accesses|
  {
    if accesses == [] then mem
    else
      var init, last := MemAfter(mem, accesses[..|accesses| - 1]), accesses[|accesses| - 1];
      match last case ReadFrom(_, _) => init case WriteTo(a, buffer) => RingWrite(init, a % SIZE, buffer)
  }

  /** What one access puts on the bus, given what the EEPROM holds. */
  function AccessWire(slvAddr: nat, mem: seq<Byte>, a: Access): seq<Wire>
    requires |mem| == SIZE
  {
    match a
    case ReadFrom(addr, n) => ReadWire(slvAddr, addr, RingRead(mem, addr % SIZE, n))
    case WriteTo(addr, buffer) => WriteWire(slvAddr, addr, buffer)
  }

  function SeriesWire(slvAddr: nat, mem: seq<Byte>, accesses: seq<Access>): seq<Wire>
    requires |mem| == SIZE
    decreases |accesses|
  {
    if accesses == [] then []
    else
      var init := accesses[..|accesses| - 1];
      SeriesWire(slvAddr, mem, init) + AccessWire(slvAddr, MemAfter(mem, init), accesses[|accesses| - 1])
  }

  /** An access that does not write to the `n` bytes from `addr` on, counted around the EEPROM. */
  predicate Elsewhere(a: Access, addr: nat, n: nat) {
    a.WriteTo? ==>
      var d := Distance(addr % SIZE, a.addr % SIZE, SIZE); n <= d && d + |a.buffer| <= SIZE
  }

  lemma WriteElsewhere(mem: seq<Byte>, p: nat, n: nat, w: nat, data: seq<Byte>)
    requires |mem| == SIZE && p < SIZE && w < SIZE
    requires var d := Distance(p, w, SIZE); n <= d && d + |data| <= SIZE
    ensures RingRead(RingWrite(mem, w, data), p, n) == RingRead(mem, p, n)
  {
    hide RingRead, RingWrite, Advance;
    var d := Distance(p, w, SIZE);
    AdvanceLinear(p, d, SIZE);
    WriteBehind(mem, p, d, data);
    ReadAppends(mem, p, n, d - n);
    ReadAppends(RingWrite(mem, w, data), p, n, d - n);
    assert RingRead(mem, p, d)[..n] == RingRead(mem, p, n);
    assert RingRead(RingWrite(mem, w, data), p, d)[..n] == RingRead(RingWrite(mem, w, data), p, n);
  }

  lemma {:induction false} ElsewhereKeeps(mem: seq<Byte>, accesses: seq<Access>, addr: nat, n: nat)
    requires |mem| == SIZE && forall a :: a in accesses ==> Elsewhere(a, addr, n)
    ensures RingRead(MemAfter(mem, accesses), addr % SIZE, n) == RingRead(mem, addr % SIZE, n)
    decreases |accesses|
  {
    hide RingRead, RingWrite, Distance;
    if accesses != [] {
      var init, last := accesses[..|accesses| - 1], accesses[|accesses| - 1];
      ElsewhereKeeps(mem, init, addr, n);
      if last.WriteTo? {
        assert Elsewhere(last, addr, n);
        WriteElsewhere(MemAfter(mem, init), addr % SIZE, n, last.addr % SIZE, last.buffer);
      }
    }
  }

  // ----- the driver -----

  datatype Mode = WrData | PollAck | RdData | SetRdAddr

  class Iic {
    const iicData: array<Byte>
    var iicDataCount: int
    var iicPt: nat
    var iicMode: Mode
    var iicStatus: nat
    var rIICDS: Byte
    var pending: bool              // bit 4 of rIICCON
    var receiving: bool            // master receive mode
    var slave: Slave
    ghost var wire: seq<Wire>
    ghost var serviced: nat

    ghost predicate Valid()
      reads this
    {
      iicData.Length == IICBUFSIZE && Sane(slave)
    }

    constructor (slave: Slave)
      requires Sane(slave)
      ensures Valid() && this.slave == slave && wire == [] && fresh(iicData)
    {
      iicData := new Byte[IICBUFSIZE](_ => 0);
      iicDataCount, iicPt, iicMode, iicStatus := 0, 0, WrData, 0;
      rIICDS, pending, receiving := 0, false, false;
      this.slave := slave;
      wire, serviced := [], 0;
    }

    /** A start condition and the address byte; the interrupt is pending once it has gone over. */
    method StartTransfer(receive: bool)
      requires Valid()
      modifies this`pending, this`receiving, this`slave, this`wire
      ensures Valid() && pending && receiving == receive
      ensures slave == Hear(old(slave), Start(rIICDS)) && wire == old(wire) + [Start(rIICDS)]
    {
      receiving, pending := receive, true;
      slave := Hear(slave, Start(rIICDS));
      wire := wire + [Start(rIICDS)];
    }

    /** Clearing the pending bit lets the next byte go over the bus. */
    method Resume(ack: bool)
      requires Valid()
      modifies this`pending, this`rIICDS, this`slave, this`wire
      ensures Valid() && pending
      ensures receiving ==>
        && rIICDS == old(slave).mem[old(slave).pointer] && slave == Hear(old(slave), FromSlave(rIICDS, ack))
        && wire == old(wire) + [FromSlave(rIICDS, ack)]
      ensures !receiving ==>
        rIICDS == old(rIICDS) && slave == Hear(old(slave), ToSlave(rIICDS)) && wire == old(wire) + [ToSlave(rIICDS)]
    {
      if receiving {
        rIICDS := slave.mem[slave.pointer];
        slave := Hear(slave, FromSlave(rIICDS, ack));
        wire := wire + [FromSlave(rIICDS, ack)];
      } else {
        slave := Hear(slave, ToSlave(rIICDS));
        wire := wire + [ToSlave(rIICDS)];
      }
      pending := true;
    }

    /** The stop condition; the pending bit is not set after it. */
    method StopTransfer()
      requires Valid()
      modifies this`pending, this`slave, this`wire
      ensures Valid() && !pending && slave == Hear(old(slave), Stop) && wire == old(wire) + [Stop]
    {
      pending := false;
      slave := Hear(slave, Stop);
      wire := wire + [Stop];
    }

    /** IicPoll while sending: the next byte, or nothing more.  Writing ends with a stop condition,
        setting a read address does not. */
    method PollSending()
      requires Valid() && iicMode in {WrData, SetRdAddr} && !receiving && iicDataCount >= 0
      requires iicDataCount > 0 ==> iicPt < IICBUFSIZE
      modifies this`iicDataCount, this`iicPt, this`rIICDS, this`pending, this`slave, this`wire
      ensures Valid() && iicDataCount == old(iicDataCount) - 1
      ensures old(iicDataCount) > 0 ==>
        && iicPt == old(iicPt) + 1 && pending && rIICDS == iicData[old(iicPt)]
        && slave == Hear(old(slave), ToSlave(rIICDS)) && wire == old(wire) + [ToSlave(rIICDS)]
      ensures old(iicDataCount) == 0 && iicMode == WrData ==>
        !pending && slave == Hear(old(slave), Stop) && wire == old(wire) + [Stop]
      ensures old(iicDataCount) == 0 && iicMode == SetRdAddr ==>
        pending == old(pending) && slave == old(slave) && wire == old(wire)
    {
      var count := iicDataCount;
      iicDataCount := iicDataCount - 1;
      if count == 0 {
        if iicMode == WrData {
          StopTransfer();
        }
      } else {
        rIICDS := iicData[iicPt];
        iicPt := iicPt + 1;
        Resume(true);
      }
    }

    /** IicPoll while receiving: the last byte is asked for without acknowledgement. */
    method PollReceiving()
      requires Valid() && receiving && iicDataCount >= 0 && iicPt < IICBUFSIZE
      modifies this`iicDataCount, this`iicPt, this`rIICDS, this`pending, this`slave, this`wire, iicData
      ensures Valid() && iicDataCount == old(iicDataCount) - 1 && iicPt == old(iicPt) + 1
      ensures iicData[..] == old(iicData[..])[old(iicPt) := old(rIICDS)]
      ensures old(iicDataCount) > 0 ==>
        var ack := iicDataCount != 0;
        && pending && rIICDS == old(slave).mem[old(slave).pointer]
        && slave == Hear(old(slave), FromSlave(rIICDS, ack)) && wire == old(wire) + [FromSlave(rIICDS, ack)]
      ensures old(iicDataCount) == 0 ==> !pending && slave == Hear(old(slave), Stop) && wire == old(wire) + [Stop]
    {
      var count := iicDataCount;
      iicDataCount := iicDataCount - 1;
      iicData[iicPt] := rIICDS;
      iicPt := iicPt + 1;
      if count == 0 {
        StopTransfer();
      } else {
        Resume(iicDataCount != 0);
      }
    }

    /** The loop that sends the bytes set up in the buffer. */
    method SendAll(ghost data: seq<Byte>)
      requires Valid() && iicMode in {WrData, SetRdAddr} && !receiving && pending && iicPt == 0
      requires iicDataCount == |data| <= IICBUFSIZE && iicData[..|data|] == data
      modifies this`iicDataCount, this`iicPt, this`rIICDS, this`pending, this`slave, this`wire, this`serviced
      ensures Valid() && serviced == old(serviced) + |data| + 1
      ensures var ws := ToSlaves(data) + if iicMode == WrData then [Stop] else [];
        wire == old(wire) + ws && slave == HearAll(old(slave), ws)
      ensures pending <==> iicMode == SetRdAddr
    {
      var n := iicDataCount;
      ghost var s0, wire0, ws := slave, wire, [];
      while iicDataCount != -1
        invariant Valid() && -1 <= iicDataCount <= n
        invariant iicDataCount >= 0 ==>
          pending && iicPt == n - iicDataCount && serviced == old(serviced) + iicPt && ws == ToSlaves(data[..iicPt])
        invariant iicDataCount == -1 ==>
          && serviced == old(serviced) + n + 1 && (pending <==> iicMode == SetRdAddr)
          && ws == ToSlaves(data) + if iicMode == WrData then [Stop] else []
        invariant wire == wire0 + ws && slave == HearAll(s0, ws)
        decreases iicDataCount
      {
        if pending {
          if iicDataCount > 0 {
            assert data[iicPt] == iicData[..|data|][iicPt];
            OneMoreSent(s0, data, iicPt);
            ws := ToSlaves(data[..iicPt + 1]);
          } else {
            assert data[..n] == data;
            HearOneMore(s0, ws, Stop);
            assert ws + [] == ws;
            ws := ws + if iicMode == WrData then [Stop] else [];
          }
          PollSending();
          serviced := serviced + 1;
        }
      }
    }

    /** Set up the buffer with the address and the data. */
    method SetUp(addr: nat, data: seq<Byte>)
      requires Valid() && |data| + 2 <= IICBUFSIZE
      modifies this`iicPt, this`iicDataCount, iicData
      ensures iicPt == 0 && iicDataCount == |data| + 2 && iicData[..|data| + 2] == Announced(addr) + data
    {
      iicPt := 0;
      iicData[0], iicData[1] := addr / 256 % 256, addr % 256;
      for i := 2 to |data| + 2
        invariant iicPt == 0 && iicData[0] == addr / 256 % 256 && iicData[1] == addr % 256
        invariant forall k :: 2 <= k < i ==> iicData[k] == data[k - 2]
      {
        iicData[i] := data[i - 2];
      }
      iicDataCount := |data| + 2;
      assert iicData[..2] == Announced(addr) && iicData[2..|data| + 2] == data;
      assert iicData[..|data| + 2] == iicData[..2] + iicData[2..|data| + 2];
    }

    /** A start, the slave address, and the bytes set up in the buffer. */
    method SendPage(slvAddr: nat, mode: Mode, addr: nat, buffer: seq<Byte>) returns (ghost dataPhase: nat)
      requires Valid() && Fits(|buffer|) && mode in {WrData, SetRdAddr}
      modifies this, iicData
      ensures Valid() && !receiving && dataPhase == |buffer| + 3
      ensures wire == old(wire) + Page(slvAddr, mode, addr, buffer)
      ensures mode == WrData ==> slave.mem == RingWrite(old(slave).mem, addr % SIZE, buffer)
      ensures mode == SetRdAddr ==> pending && slave.mem == old(slave).mem && slave.pointer == addr % SIZE
    {
      hide RingWrite, ToWrite, Announced, HearAll, ToSlaves;
      ghost var data := Announced(addr) + buffer;
      iicMode := mode;
      SetUp(addr, buffer);
      rIICDS := ToWrite(slvAddr);
      StartTransfer(false);
      ghost var s1, before := slave, serviced;
      SendAll(data);
      dataPhase := serviced - before;
      AddressHeard(s1, addr, buffer);
      HearOneMore(s1, ToSlaves(data), Stop);
      assert ToSlaves(data) + [] == ToSlaves(data);
    }

    /** One more start, to see whether the EEPROM acknowledges its address, and a stop.  The loop
        around it is left after one turn, whatever came back. */
    method PollForAck(slvAddr: nat)
      requires Valid()
      modifies this
      ensures Valid() && slave.mem == old(slave).mem
      ensures wire == old(wire) + [Start(ToWrite(slvAddr)), Stop]
    {
      hide RingWrite;
      iicMode := PollAck;
      rIICDS := ToWrite(slvAddr);
      iicStatus := 0x100;
      StartTransfer(false);
      while iicStatus == 0x100
        invariant Valid() && pending
        invariant slave == Hear(old(slave), Start(ToWrite(slvAddr))) && wire == old(wire) + [Start(ToWrite(slvAddr))]
        decreases iicStatus
      {
        if pending {
          iicStatus := 0;
        }
      }
      WriteNothing(slave.mem, slave.pointer);
      StopTransfer();
      ghost var start := Start(ToWrite(slvAddr));
      assert old(wire) + [start] + [Stop] == old(wire) + [start, Stop];
    }

    /** _Wr2410Iic_E2PROM: after the stop condition the EEPROM holds the data, and the data phase
        has taken one interrupt for the slave address, one for each byte and one for the stop.  The
        driver does not look whether the data fits its buffer: more than 30 bytes go past the end,
        of which nothing else is said here. */
    method WriteEeprom(slvAddr: nat, addr: nat, buffer: seq<Byte>) returns (fits: bool, ghost dataPhase: nat)
      requires Valid()
      modifies this, iicData
      ensures fits <==> |buffer| <= 30
      ensures fits ==> Valid() && slave.mem == RingWrite(old(slave).mem, addr % SIZE, buffer)
      ensures fits ==> wire == old(wire) + WriteWire(slvAddr, addr, buffer) && dataPhase == |buffer| + 3
    {
      hide RingWrite, ToSlaves, Announced, ToWrite;
      fits, dataPhase := Fits(|buffer|), 0;
      if fits {
        dataPhase := SendPage(slvAddr, WrData, addr, buffer);
        PollForAck(slvAddr);
        ghost var start := Start(ToWrite(slvAddr));
        assert Page(slvAddr, WrData, addr, buffer) + [start, Stop] == WriteWire(slvAddr, addr, buffer);
      }
    }

    /** The loop that receives `n` bytes behind the address byte. */
    method ReceiveAll(n: nat, ghost s0: Slave, ghost data: seq<Byte>)
      requires Valid() && receiving && pending && iicPt == 1 && n == iicDataCount && Fits(n)
      requires slave == s0 && s0.latched == [] && data == RingRead(s0.mem, s0.pointer, n)
      modifies this`iicDataCount, this`iicPt, this`rIICDS, this`pending, this`slave, this`wire, this`serviced, iicData
      ensures Valid() && slave.mem == s0.mem
      ensures iicData[2..n + 2] == data && serviced == old(serviced) + n + 1
      ensures wire == old(wire) + FromSlaves(data) + [Stop]
    {
      hide RingWrite;
      ghost var wire0 := wire;
      ghost var i := 0;
      while iicDataCount != -1
        invariant Valid() && receiving && -1 <= iicDataCount <= n && i == n - iicDataCount
        invariant serviced == old(serviced) + i && iicPt == 1 + i
        invariant iicDataCount >= 0 ==>
          && pending && slave == s0.(pointer := Advance(s0.pointer, i, SIZE))
          && (i > 0 ==> rIICDS == data[i - 1]) && wire == wire0 + FromSlaves(data)[..i]
        invariant forall k :: 0 <= k < n && k + 2 < iicPt ==> iicData[k + 2] == data[k]
        invariant iicDataCount == -1 ==>
          slave.mem == s0.mem && wire == wire0 + FromSlaves(data) + [Stop]
        decreases iicDataCount
      {
        if pending {
          if iicDataCount > 0 {
            NextByte(s0, n, i);
          }
          assert FromSlaves(data)[..n] == FromSlaves(data);
          WriteNothing(slave.mem, slave.pointer);
          PollReceiving();
          serviced := serviced + 1;
          i := i + 1;
        }
      }
    }

    /** _Rd2410Iic_E2PROM: the bytes stored from the address on; the data phase takes one interrupt
        for the slave address and one for each byte.  More than 30 bytes go past the end of the
        driver's buffer, too. */
    method ReadEeprom(slvAddr: nat, addr: nat, length: nat)
      returns (fits: bool, buffer: seq<Byte>, ghost dataPhase: nat)
      requires Valid()
      modifies this, iicData
      ensures fits <==> length <= 30
      ensures fits ==> Valid() && slave.mem == old(slave).mem && buffer == RingRead(slave.mem, addr % SIZE, length)
      ensures fits ==> wire == old(wire) + ReadWire(slvAddr, addr, buffer) && dataPhase == length + 1
    {
      hide RingWrite, RingRead, ToSlaves, FromSlaves, Announced, ToWrite;
      fits, buffer, dataPhase := Fits(length), [], 0;
      if !fits {
        return;
      }
      ghost var first := SendPage(slvAddr, SetRdAddr, addr, []);
      iicMode := RdData;
      iicPt := 1;
      iicDataCount := length;
      rIICDS := ToRead(slvAddr);
      StartTransfer(true);
      ghost var before, s2, bytes := serviced, slave, RingRead(slave.mem, slave.pointer, length);
      ReceiveAll(length, s2, bytes);
      dataPhase := serviced - before;
      buffer := iicData[2..length + 2];
      assert Announced(addr) + [] == Announced(addr);
      ghost var page := Page(slvAddr, SetRdAddr, addr, []);
      assert page == [Start(ToWrite(slvAddr))] + ToSlaves(Announced(addr));
      assert page + [Start(ToRead(slvAddr))] + FromSlaves(buffer) + [Stop] == ReadWire(slvAddr, addr, buffer);
    }

    /** One access after the other. */
    method Perform(slvAddr: nat, accesses: seq<Access>)
      requires Valid() && forall a :: a in accesses ==> AccessFits(a)
      modifies this, iicData
      ensures Valid() && slave.mem == MemAfter(old(slave).mem, accesses)
      ensures wire == old(wire) + SeriesWire(slvAddr, old(slave).mem, accesses)
    {
      hide RingWrite, RingRead, ReadWire, WriteWire;
      for i := 0 to |accesses|
        invariant Valid() && slave.mem == MemAfter(old(slave).mem, accesses[..i])
        invariant wire == old(wire) + SeriesWire(slvAddr, old(slave).mem, accesses[..i])
      {
        assert accesses[..i + 1][..i] == accesses[..i];
        ghost var before := SeriesWire(slvAddr, old(slave).mem, accesses[..i]);
        ghost var one := AccessWire(slvAddr, slave.mem, accesses[i]);
        assert AccessFits(accesses[i]);
        match accesses[i] {
          case ReadFrom(addr, n) => var fits, bytes, phase := ReadEeprom(slvAddr, addr, n);
          case WriteTo(addr, buffer) => var fits, phase := WriteEeprom(slvAddr, addr, buffer);
        }
        assert old(wire) + before + one == old(wire) + (before + one);
      }
      assert accesses[..|accesses|] == accesses;
    }

    /** What is written at an address is read back from it after any reads, and any writes to other
        places; bus and EEPROM see exactly these accesses. */
    method RoundTrip(slvAddr: nat, addr: nat, buffer: seq<Byte>, others: seq<Access>) returns (read: seq<Byte>)
      requires Valid() && Fits(|buffer|)
      requires forall a :: a in others ==> AccessFits(a) && Elsewhere(a, addr, |buffer|)
      modifies this, iicData
      ensures Valid() && read == buffer
      ensures var written := RingWrite(old(slave).mem, addr % SIZE, buffer);
        && slave.mem == MemAfter(written, others)
        && wire == old(wire) + WriteWire(slvAddr, addr, buffer) + SeriesWire(slvAddr, written, others)
                   + ReadWire(slvAddr, addr, buffer)
    {
      hide RingWrite, RingRead, ReadWire, WriteWire, MemAfter, SeriesWire, Elsewhere, AccessFits;
      var fits, phase := WriteEeprom(slvAddr, addr, buffer);
      ghost var written := slave.mem;
      Perform(slvAddr, others);
      fits, read, phase := ReadEeprom(slvAddr, addr, |buffer|);
      ElsewhereKeeps(written, others, addr, |buffer|);
      ReadBack(old(slave).mem, addr % SIZE, buffer);
    }
  }

  /** The byte that the slave sends next. */
  lemma NextByte(s: Slave, n: nat, i: nat)
    requires Sane(s) && i < n
    ensures var a := Advance(s.pointer, i, SIZE);
      && a < SIZE && RingRead(s.mem, s.pointer, n)[i] == s.mem[a]
      && Next(a, SIZE) == Advance(s.pointer, i + 1, SIZE)
    ensures var data := RingRead(s.mem, s.pointer, n);
      FromSlaves(data)[..i + 1] == FromSlaves(data)[..i] + [FromSlave(data[i], i + 1 < n)]
  {
    ReadAppends(s.mem, s.pointer, i, n - i);
    AdvanceAdds(s.pointer, i, 1, SIZE);
  }

  /** The slave after a series of events. */
  function HearAll(s: Slave, ws: seq<Wire>): (t: Slave)
    requires |s.mem| == SIZE && s.pointer < SIZE
    ensures |t.mem| == SIZE && t.pointer < SIZE
    decreases |ws|
  {
    if ws == [] then s else Hear(HearAll(s, ws[..|ws| - 1]), ws[|ws| - 1])
  }

  lemma HearOneMore(s: Slave, ws: seq<Wire>, w: Wire)
    requires Sane(s)
    ensures HearAll(s, ws + [w]) == Hear(HearAll(s, ws), w)
  {
    assert (ws + [w])[..|ws|] == ws;
  }

  lemma OneMoreSent(s: Slave, data: seq<Byte>, k: nat)
    requires Sane(s) && k < |data|
    ensures ToSlaves(data[..k + 1]) == ToSlaves(data[..k]) + [ToSlave(data[k])]
    ensures HearAll(s, ToSlaves(data[..k + 1])) == Hear(HearAll(s, ToSlaves(data[..k])), ToSlave(data[k]))
  {
    assert data[..k + 1] == data[..k] + [data[k]];
    HearOneMore(s, ToSlaves(data[..k]), ToSlave(data[k]));
  }

  /** Two address bytes set the address, and the rest is kept for the stop condition. */
  lemma {:induction false} AddressHeard(s: Slave, addr: nat, data: seq<Byte>)
    requires Sane(s) && s.got == 0 && s.latched == []
    ensures var t := HearAll(s, ToSlaves(Announced(addr) + data));
      t.mem == s.mem && t.pointer == addr % SIZE && t.got == 2 && t.latched == data
    decreases |data|
  {
    var all := Announced(addr) + data;
    var last := |all| - 1;
    assert all[..|all|] == all;
    if data == [] {
      OneMoreSent(s, all, 1);
      OneMoreSent(s, all, 0);
      assert ToSlaves(all[..0]) == [];
      AddressIs(addr);
    } else {
      OneMoreSent(s, all, last);
      assert all[..last] == Announced(addr) + data[..|data| - 1];
      AddressHeard(s, addr, data[..|data| - 1]);
    }
  }
}
