/** Burst framing of the CATC USB Ethernet driver.  Packets are packed into bursts, each packet
    with a two-byte length in front and starting at a multiple of 64 bytes.  Two transmit buffers
    take turns: one is filled while the other is in flight. */
module CatcFraming {
  import opened Bits
  import opened Numbers

  const PKT_SZ := 1536
  const TX_MAX_BURST := 15
  const TX_BUF := TX_MAX_BURST * (PKT_SZ + 2)              // 23070
  const STOP := (TX_MAX_BURST - 1) * (PKT_SZ + 2)          // 21532

  type Packet = seq<Byte>

  /** The next multiple of 64. */
  function Align(p: nat): nat { (p + 63) / 64 * 64 }

  /** (((tx_ptr - 1) >> 6) + 1) << 6, in unsigned arithmetic. */
  function UnsignedAlign(p: nat): nat { Wrap32((Wrap32(p + 0xffff_ffff) / 64 + 1) * 64) }

  /** The wrap at zero is harmless: what the driver computes is rounding up to a multiple of 64. */
  lemma UnsignedAlignIs(p: nat)
    requires p <= 0xffff_ffc0
    ensures UnsignedAlign(p) == Align(p)
  {
    if p > 0 {
      assert Wrap32(p + 0xffff_ffff) == p - 1;
    }
  }

  lemma AlignRoundsUp(p: nat)
    ensures Align(p) % 64 == 0 && p <= Align(p) < p + 64
  {
  }

  /** `(((pkt_len + 1) >> 6) + 1) << 6`, the way from one packet to the next when receiving. */
  function Stride(len: nat): nat { ((len + 1) / 64 + 1) * 64 }

  /** The receiver's stride leads to where the sender aligns. */
  lemma StrideAligns(start: nat, len: nat)
    requires start % 64 == 0
    ensures Align(start + len + 2) == start + Stride(len)
  {
  }

  // ----- bursts -----

  function BurstLength(packets: seq<Packet>): nat
    decreases |packets|
  {
    if packets == [] then 0
    else Align(BurstLength(packets[..|packets| - 1])) + 2 + |packets[|packets| - 1]|
  }

  /** At `start` there is a length and then the packet. */
  ghost predicate FrameAt(bytes: seq<Byte>, start: nat, p: Packet) {
    && start + 2 + |p| <= |bytes| && |p| < 65536
    && bytes[start] == |p| % 256 && bytes[start + 1] == |p| / 256 && bytes[start + 2..start + 2 + |p|] == p
  }

  /** Two bytes of length, the low one first, and then the packet byte by byte. */
  lemma FrameIs(bytes: seq<Byte>, start: nat, p: Packet)
    requires start + 2 + |p| <= |bytes|
    ensures var low: int, high: int := bytes[start], bytes[start + 1];
      FrameAt(bytes, start, p) <==> low + 256 * high == |p| && forall k :: 0 <= k < |p| ==> bytes[start + 2 + k] == p[k]
  {
    var low: int, high: int := bytes[start], bytes[start + 1];
    assert |p| == low + 256 * high ==> |p| % 256 == low && |p| / 256 == high && |p| < 65536;
    var there := bytes[start + 2..start + 2 + |p|];
    assert there == p <==> forall k :: 0 <= k < |p| ==> there[k] == p[k];
    assert forall k :: 0 <= k < |p| ==> there[k] == bytes[start + 2 + k];
  }

  /** The bytes hold exactly these packets; what lies between two packets is anything. */
  ghost predicate IsBurst(bytes: seq<Byte>, packets: seq<Packet>)
    decreases |packets|
  {
    if packets == [] then bytes == [] else
      var init, last := packets[..|packets| - 1], packets[|packets| - 1];
      var end := BurstLength(init);
      && end <= |bytes| && IsBurst(bytes[..end], init)
      && |bytes| == BurstLength(packets) && FrameAt(bytes, Align(end), last)
  }

  function Flatten(groups: seq<seq<Packet>>): seq<Packet>
    decreases |groups|
  {
    if groups == [] then [] else Flatten(groups[..|groups| - 1]) + groups[|groups| - 1]
  }

  // ----- receiving -----

  /** le16_to_cpup */
  function Le16(mem: seq<Byte>, i: nat): nat
    requires i + 1 < |mem|
  {
    var low: int, high: int := mem[i], mem[i + 1];
    low + 256 * high
  }

  /** What catc_rx_done delivers from position `start` on, and whether it gave up on a length.
      `mem` is the memory from the transfer buffer on. */
  function Deframe(mem: seq<Byte>, actual: nat, start: nat): (r: (seq<Packet>, bool))
    requires start <= actual && 2 * actual + 2 <= |mem|
    decreases actual - start
  {
    var len := Le16(mem, start);
    if len > actual then ([], true)
    else
      var p := mem[start + 2..start + 2 + len];
      if start + Stride(len) < actual then
        var rest := Deframe(mem, actual, start + Stride(len));
        ([p] + rest.0, rest.1)
      else ([p], false)
  }

  /** One turn of the receive loop. */
  lemma Turn(mem: seq<Byte>, actual: nat, start: nat, len: nat)
    requires start <= actual && 2 * actual + 2 <= |mem| && len == Le16(mem, start)
    ensures len > actual ==> Deframe(mem, actual, start) == ([], true)
    ensures len <= actual && start + Stride(len) >= actual ==>
      Deframe(mem, actual, start) == ([mem[start + 2..start + 2 + len]], false)
    ensures len <= actual && start + Stride(len) < actual ==>
      var rest := Deframe(mem, actual, start + Stride(len));
      Deframe(mem, actual, start) == ([mem[start + 2..start + 2 + len]] + rest.0, rest.1)
  {
  }

  /** The least multiple of 64 that takes a length and its packet. */
  function Rounded(len: nat): nat { (len + 2 + 63) / 64 * 64 }

  /** Two bytes, the low one first. */
  function LengthAt(mem: seq<Byte>, i: nat): nat
    requires i + 1 < |mem|
  {
    mem[i] as int + 256 * mem[i + 1] as int
  }

  /** The packets stand at `starts`, each behind the one before it, rounded up to 64; the first
      length above the size of the transfer is an error, and ends it. */
  ghost predicate StandsAt(mem: seq<Byte>, actual: nat, starts: seq<nat>, packets: seq<Packet>, error: bool)
    requires 2 * actual + 2 <= |mem|
  {
    && starts != [] && |packets| == (if error then |starts| - 1 else |starts|)
    && (forall k :: 0 <= k < |starts| ==> starts[k] <= actual)
    && (forall k :: 0 < k < |starts| ==>
          starts[k] < actual && starts[k] == starts[k - 1] + Rounded(LengthAt(mem, starts[k - 1])))
    && (forall k :: 0 <= k < |packets| ==> PacketAt(mem, actual, starts[k], packets[k]))
    && var last := starts[|starts| - 1];
       if error then LengthAt(mem, last) > actual else last + Rounded(LengthAt(mem, last)) >= actual
  }

  ghost predicate PacketAt(mem: seq<Byte>, actual: nat, at: nat, p: Packet)
    requires at <= actual && 2 * actual + 2 <= |mem|
  {
    |p| == LengthAt(mem, at) <= actual && p == mem[at + 2..at + 2 + |p|]
  }

  /** What is delivered of any bytes whatever. */
  lemma {:induction false} DeframeStands(mem: seq<Byte>, actual: nat, start: nat) returns (starts: seq<nat>)
    requires start <= actual && 2 * actual + 2 <= |mem|
    ensures var r := Deframe(mem, actual, start);
      StandsAt(mem, actual, starts, r.0, r.1) && starts[0] == start
    decreases actual - start
  {
    hide Deframe, StandsAt, Rounded, LengthAt, Stride, Le16;
    var len := Le16(mem, start);
    Turn(mem, actual, start, len);
    StrideIs(mem, start);
    starts := [start];
    if len > actual || start + Stride(len) >= actual {
      StandsAlone(mem, actual, start);
    } else {
      var (packets, error) := Deframe(mem, actual, start + Stride(len));
      var rest := DeframeStands(mem, actual, start + Stride(len));
      starts := [start] + rest;
      StandsOneMore(mem, actual, start, rest, packets, error);
    }
  }

  lemma StrideIs(mem: seq<Byte>, i: nat)
    requires i + 1 < |mem|
    ensures Le16(mem, i) == LengthAt(mem, i) && forall len :: Stride(len) == Rounded(len)
  {
  }

  lemma StandsAlone(mem: seq<Byte>, actual: nat, start: nat)
    requires start <= actual && 2 * actual + 2 <= |mem|
    ensures var len := LengthAt(mem, start);
      && (len > actual ==> StandsAt(mem, actual, [start], [], true))
      && (len <= actual <= start + Rounded(len) ==>
            StandsAt(mem, actual, [start], [mem[start + 2..start + 2 + len]], false))
  {
    hide Rounded, LengthAt;
  }

  lemma StandsOneMore(mem: seq<Byte>, actual: nat, start: nat, rest: seq<nat>, packets: seq<Packet>, error: bool)
    requires 2 * actual + 2 <= |mem| && StandsAt(mem, actual, rest, packets, error)
    requires start + 1 < |mem| && LengthAt(mem, start) <= actual
    requires start + Rounded(LengthAt(mem, start)) == rest[0] < actual
    ensures StandsAt(mem, actual, [start] + rest, [mem[start + 2..start + 2 + LengthAt(mem, start)]] + packets, error)
  {
    hide Rounded, LengthAt;
    var starts, all := [start] + rest, [mem[start + 2..start + 2 + LengthAt(mem, start)]] + packets;
    forall k | 0 < k < |starts|
      ensures starts[k] < actual && starts[k] == starts[k - 1] + Rounded(LengthAt(mem, starts[k - 1]))
    {
      if k > 1 {
        assert starts[k] == rest[k - 1] && starts[k - 1] == rest[k - 2];
      }
    }
    forall k | 0 <= k < |all|
      ensures PacketAt(mem, actual, starts[k], all[k])
    {
      if k > 0 {
        assert starts[k] == rest[k - 1] && all[k] == packets[k - 1];
      }
    }
  }

  /** catc_rx_done for a completion without error. */
  method RxDone(mem: array<Byte>, actual: nat) returns (packets: seq<Packet>, lengthError: bool)
    requires 2 * actual + 2 <= mem.Length
    ensures (packets, lengthError) == Deframe(mem[..], actual, 0)
  {
    hide Deframe;
    ghost var bytes := mem[..];
    var start := 0;
    packets, lengthError := [], false;
    while true
      invariant 0 <= start <= actual && mem[..] == bytes
      invariant packets + Deframe(bytes, actual, start).0 == Deframe(bytes, actual, 0).0
      invariant Deframe(bytes, actual, start).1 == Deframe(bytes, actual, 0).1
      decreases actual - start
    {
      var len := Le16(mem[..], start);
      Turn(bytes, actual, start, len);
      if len > actual {
        lengthError := true;
        assert packets + [] == packets;
        return;
      }
      var p := mem[start + 2..start + 2 + len];
      assert p == bytes[start + 2..start + 2 + len];
      packets := packets + [p];
      if start + Stride(len) >= actual {
        return;
      }
      start := start + Stride(len);
    }
  }

  lemma {:induction false} BurstPrefix(bytes: seq<Byte>, packets: seq<Packet>, k: nat)
    requires IsBurst(bytes, packets) && k <= |packets| && |bytes| <= TX_BUF
    ensures BurstLength(packets[..k]) <= |bytes| && IsBurst(bytes[..BurstLength(packets[..k])], packets[..k])
    decreases |packets|
  {
    if k == |packets| {
      assert packets[..k] == packets;
      assert |bytes| == BurstLength(packets);
      assert bytes[..|bytes|] == bytes;
    } else {
      var init := packets[..|packets| - 1];
      var end := BurstLength(init);
      BurstPrefix(bytes[..end], init, k);
      assert init[..k] == packets[..k];
      assert bytes[..end][..BurstLength(packets[..k])] == bytes[..BurstLength(packets[..k])];
    }
  }

  /** Where frame `k` starts. */
  function StartOf(packets: seq<Packet>, k: nat): nat
    requires k <= |packets|
  {
    Align(BurstLength(packets[..k]))
  }

  lemma LastFrame(bytes: seq<Byte>, packets: seq<Packet>)
    requires IsBurst(bytes, packets) && packets != []
    ensures |bytes| == BurstLength(packets) == StartOf(packets, |packets| - 1) + 2 + |packets[|packets| - 1]|
    ensures FrameAt(bytes, StartOf(packets, |packets| - 1), packets[|packets| - 1])
  {
  }

  lemma FrameExtends(bytes: seq<Byte>, end: nat, start: nat, p: Packet)
    requires end <= |bytes| && FrameAt(bytes[..end], start, p)
    ensures FrameAt(bytes, start, p)
  {
    assert bytes[..end][start + 2..start + 2 + |p|] == bytes[start + 2..start + 2 + |p|];
  }

  /** Frame `k` stands where the packets before it end, aligned. */
  lemma FrameStands(bytes: seq<Byte>, packets: seq<Packet>, k: nat)
    requires IsBurst(bytes, packets) && k < |packets| && |bytes| <= TX_BUF
    ensures FrameAt(bytes, StartOf(packets, k), packets[k])
    ensures BurstLength(packets[..k + 1]) == StartOf(packets, k) + 2 + |packets[k]| <= |bytes|
  {
    hide IsBurst, BurstLength, FrameAt, Align;
    BurstPrefix(bytes, packets, k + 1);
    var upto := packets[..k + 1];
    assert upto[..k] == packets[..k];
    LastFrame(bytes[..BurstLength(upto)], upto);
    FrameExtends(bytes, BurstLength(upto), StartOf(packets, k), packets[k]);
  }

  /** One turn of the receive loop over a frame. */
  lemma DeframeStep(mem: seq<Byte>, bytes: seq<Byte>, start: nat, p: Packet)
    requires FrameAt(bytes, start, p) && bytes <= mem && 2 * |bytes| + 2 <= |mem|
    ensures Deframe(mem, |bytes|, start) ==
      if start + Stride(|p|) < |bytes| then
        ([p] + Deframe(mem, |bytes|, start + Stride(|p|)).0, Deframe(mem, |bytes|, start + Stride(|p|)).1)
      else ([p], false)
  {
    assert mem[start + 2..start + 2 + |p|] == bytes[start + 2..start + 2 + |p|];
    assert Le16(mem, start) == |p|;
  }

  lemma NextStart(bytes: seq<Byte>, packets: seq<Packet>, k: nat)
    requires IsBurst(bytes, packets) && k < |packets| && |bytes| <= TX_BUF
    ensures StartOf(packets, k) <= |bytes| && FrameAt(bytes, StartOf(packets, k), packets[k])
    ensures StartOf(packets, k + 1) == StartOf(packets, k) + Stride(|packets[k]|)
    ensures k + 1 < |packets| <==> StartOf(packets, k + 1) < |bytes|
  {
    hide Align, Stride, IsBurst, BurstLength, FrameAt;
    FrameStands(bytes, packets, k);
    var start, p := StartOf(packets, k), packets[k];
    AlignRoundsUp(BurstLength(packets[..k]));
    StrideAligns(start, |p|);
    AlignRoundsUp(start + 2 + |p|);
    if k + 1 < |packets| {
      FrameStands(bytes, packets, k + 1);
      BurstPrefix(bytes, packets, k + 2);
    } else {
      assert packets[..k + 1] == packets;
      BurstHasLength(bytes, packets);
    }
  }

  lemma BurstHasLength(bytes: seq<Byte>, packets: seq<Packet>)
    requires IsBurst(bytes, packets)
    ensures |bytes| == BurstLength(packets) && (packets == [] <==> bytes == [])
  {
  }

  lemma EmptyBurst(bytes: seq<Byte>)
    requires bytes == []
    ensures IsBurst(bytes, [])
  {
  }

  lemma {:induction false} DeframeFrom(mem: seq<Byte>, bytes: seq<Byte>, packets: seq<Packet>, k: nat)
    requires IsBurst(bytes, packets) && k < |packets| && |bytes| <= TX_BUF
    requires bytes <= mem && 2 * |bytes| + 2 <= |mem|
    ensures StartOf(packets, k) <= |bytes| && Deframe(mem, |bytes|, StartOf(packets, k)) == (packets[k..], false)
    decreases |packets| - k
  {
    hide Deframe, StartOf, IsBurst, FrameAt, Stride;
    NextStart(bytes, packets, k);
    DeframeStep(mem, bytes, StartOf(packets, k), packets[k]);
    if k + 1 < |packets| {
      DeframeFrom(mem, bytes, packets, k + 1);
      assert packets[k..] == [packets[k]] + packets[k + 1..];
    } else {
      assert packets[k..] == [packets[k]];
    }
  }

  /** Deframing a burst returns exactly its packets, in order, whatever follows it in memory. */
  lemma DeframeBurst(mem: seq<Byte>, bytes: seq<Byte>, packets: seq<Packet>)
    requires IsBurst(bytes, packets) && packets != [] && |bytes| <= TX_BUF
    requires bytes <= mem && 2 * |bytes| + 2 <= |mem|
    ensures Deframe(mem, |bytes|, 0) == (packets, false)
  {
    hide Deframe, IsBurst;
    DeframeFrom(mem, bytes, packets, 0);
    assert packets[..0] == [] && packets[0..] == packets;
  }

  // ----- transmitting -----

  lemma FlattenGrows(groups: seq<seq<Packet>>, g: seq<Packet>)
    ensures Flatten(groups + [g]) == Flatten(groups) + g
  {
    assert (groups + [g])[..|groups|] == groups;
  }

  class Catc {
    const txBuf0: array<Byte>
    const txBuf1: array<Byte>
    var txPtr: nat
    var txIdx: bool                       // which of the two is being filled
    var txRunning: bool                   // TX_RUNNING
    var stopped: bool                     // the network queue
    ghost var inFlight: bool              // a burst is submitted and not yet completed
    ghost var queued: seq<Packet>         // every packet handed to catc_hard_start_xmit
    ghost var pending: seq<Packet>        // those in the buffer being filled
    ghost var groups: seq<seq<Packet>>    // those of each burst submitted
    ghost var bursts: seq<seq<Byte>>      // the bytes of each burst as submitted

    function Filling(): array<Byte>
      reads this`txIdx
    {
      if txIdx then txBuf1 else txBuf0
    }

    function Other(): array<Byte>
      reads this`txIdx
    {
      if txIdx then txBuf0 else txBuf1
    }

    ghost predicate Sent()
      reads this`groups, this`bursts
    {
      && |groups| == |bursts|
      && forall i :: 0 <= i < |bursts| ==> groups[i] != [] && |bursts[i]| <= TX_BUF && IsBurst(bursts[i], groups[i])
    }

    /** TX_RUNNING holds exactly while a burst is in flight; the controller finds it unchanged in
        the buffer that is not being filled; and nothing waits unless a burst is in flight. */
    ghost predicate Valid()
      reads this, txBuf0, txBuf1
    {
      && txBuf0 != txBuf1 && txBuf0.Length == TX_BUF && txBuf1.Length == TX_BUF
      && txPtr <= TX_BUF && IsBurst(Filling()[..txPtr], pending) && (txPtr >= STOP ==> stopped)
      && (txRunning <==> inFlight) && (!txRunning ==> pending == [])
      && Sent()
      && (inFlight ==> bursts != [] && |bursts[|bursts| - 1]| <= TX_BUF
                       && Other()[..|bursts[|bursts| - 1]|] == bursts[|bursts| - 1])
      && queued == Flatten(groups) + pending
    }

    constructor ()
      ensures Valid() && queued == [] && !stopped && fresh(txBuf0) && fresh(txBuf1)
    {
      txBuf0, txBuf1 := new Byte[TX_BUF](_ => 0), new Byte[TX_BUF](_ => 0);
      txPtr, txIdx, txRunning, stopped := 0, false, false, false;
      inFlight, queued, pending, groups, bursts := false, [], [], [], [];
    }

    /** catc_tx_run: submit what has been filled and turn to the other buffer. */
    method TxRun()
      requires txBuf0 != txBuf1 && txBuf0.Length == TX_BUF && txBuf1.Length == TX_BUF
      requires txPtr <= TX_BUF && IsBurst(Filling()[..txPtr], pending) && pending != []
      requires Sent() && !inFlight && txRunning && queued == Flatten(groups) + pending
      modifies this`txPtr, this`txIdx, this`inFlight, this`pending, this`groups, this`bursts
      ensures Valid() && inFlight && pending == [] && txPtr == 0 && txIdx == !old(txIdx)
      ensures groups == old(groups) + [old(pending)] && bursts == old(bursts) + [old(Filling()[..txPtr])]
    {
      hide IsBurst, BurstLength, Flatten;
      FlattenGrows(groups, pending);
      inFlight := true;
      groups, bursts, pending := groups + [pending], bursts + [Filling()[..txPtr]], [];
      txIdx := !txIdx;
      txPtr := 0;
      EmptyBurst(Filling()[..txPtr]);
    }

    /** Put a frame into the buffer being filled, if it fits.  The driver does not look whether it
        does: it writes past the buffer, of which nothing more is said here. */
    method PutFrame(skb: Packet) returns (fits: bool)
      requires Valid()
      modifies this`txPtr, this`pending, Filling()
      ensures fits <==> Align(old(txPtr)) + 2 + |skb| <= TX_BUF
      ensures fits ==> txPtr == Align(old(txPtr)) + 2 + |skb| && pending == old(pending) + [skb]
      ensures fits ==> txPtr <= TX_BUF && IsBurst(Filling()[..txPtr], pending)
    {
      hide IsBurst, BurstLength, Flatten, FrameAt, Align, UnsignedAlign;
      ghost var before, all := Filling()[..txPtr], pending + [skb];
      AlignRoundsUp(txPtr);
      UnsignedAlignIs(txPtr);
      txPtr := UnsignedAlign(txPtr);
      fits := txPtr + 2 + |skb| <= TX_BUF;
      if !fits {
        return;
      }
      ghost var bytes := WriteFrame(Filling(), before, txPtr, skb);
      txPtr := txPtr + (|skb| + 2);
      BurstGrows(before, pending, skb, bytes, all);
      pending := all;
    }

    /** catc_hard_start_xmit: only the buffer being filled is written. */
    method StartXmit(skb: Packet) returns (fits: bool)
      requires Valid()
      modifies this, Filling()
      ensures fits <==> Align(old(txPtr)) + 2 + |skb| <= TX_BUF
      ensures !old(stopped) && |skb| <= 1500 ==> fits
      ensures fits ==> Valid() && queued == old(queued) + [skb] && inFlight
      ensures fits && old(inFlight) ==> bursts == old(bursts) && pending == old(pending) + [skb]
      ensures fits && !old(inFlight) ==> groups == old(groups) + [[skb]] && pending == []
      ensures fits ==> stopped == (old(stopped) || txPtr >= STOP)
    {
      hide IsBurst, BurstLength, Flatten, Align;
      if !stopped && |skb| <= 1500 {
        RoomUnlessStopped(this, skb);
      }
      fits := PutFrame(skb);
      if !fits {
        return;
      }
      assert queued + [skb] == Flatten(groups) + pending;
      queued := queued + [skb];
      if !txRunning {
        assert pending == [skb];
        txRunning := true;
        TxRun();
      }
      if txPtr >= STOP {
        stopped := true;
      }
    }

    /** catc_tx_done for a completion without error. */
    method TxDone()
      requires Valid() && inFlight
      modifies this
      ensures Valid() && queued == old(queued) && !stopped
      ensures txRunning <==> old(pending) != []
      ensures old(pending) != [] ==> groups == old(groups) + [old(pending)] && pending == []
    {
      hide IsBurst, BurstLength, Flatten, Align, FrameAt;
      inFlight := false;
      BurstHasLength(Filling()[..txPtr], pending);
      if txPtr != 0 {
        TxRun();
      } else {
        txRunning := false;
      }
      stopped := false;
    }
  }

  /** Store the length and the packet behind what is there. */
  method WriteFrame(buf: array<Byte>, ghost before: seq<Byte>, at: nat, skb: Packet) returns (ghost bytes: seq<Byte>)
    requires at + 2 + |skb| <= buf.Length && |skb| < 65536 && |before| <= at && before == buf[..|before|]
    modifies buf
    ensures bytes == buf[..at + 2 + |skb|] && bytes[..|before|] == before && FrameAt(bytes, at, skb)
  {
    buf[at], buf[at + 1] := |skb| % 256, |skb| / 256;
    forall k | 0 <= k < |skb| {
      buf[at + 2 + k] := skb[k];
    }
    bytes := buf[..at + 2 + |skb|];
  }

  lemma BurstGrows(before: seq<Byte>, packets: seq<Packet>, p: Packet, bytes: seq<Byte>, all: seq<Packet>)
    requires IsBurst(before, packets) && |before| <= TX_BUF && all == packets + [p]
    requires |bytes| == Align(|before|) + 2 + |p| && bytes[..|before|] == before && FrameAt(bytes, Align(|before|), p)
    ensures IsBurst(bytes, all)
  {
    BurstHasLength(before, packets);
    assert all[..|packets|] == packets;
  }

  // ----- both ends -----

  /** What a receiver delivers for a series of bursts; `slack` is the memory behind its buffer. */
  ghost function Delivered(bursts: seq<seq<Byte>>, slack: seq<Byte>): (groups: seq<seq<Packet>>)
    requires |slack| >= TX_BUF + 2 && forall i :: 0 <= i < |bursts| ==> |bursts[i]| <= TX_BUF
    ensures |groups| == |bursts|
  {
    seq(|bursts|, i requires 0 <= i < |bursts| => Deframe(bursts[i] + slack, |bursts[i]|, 0).0)
  }

  /** At every moment the bursts submitted deframe to the packets queued so far, in order and each
      once, except for those still in the buffer being filled. */
  lemma QueuedIsDelivered(c: Catc, slack: seq<Byte>)
    requires c.Valid() && |slack| >= TX_BUF + 2
    ensures Flatten(Delivered(c.bursts, slack)) + c.pending == c.queued
    ensures forall i :: 0 <= i < |c.bursts| ==> !Deframe(c.bursts[i] + slack, |c.bursts[i]|, 0).1
  {
    forall i | 0 <= i < |c.bursts|
      ensures Deframe(c.bursts[i] + slack, |c.bursts[i]|, 0) == (c.groups[i], false)
    {
      DeframeBurst(c.bursts[i] + slack, c.bursts[i], c.groups[i]);
    }
    assert Delivered(c.bursts, slack) == c.groups;
  }

  // ----- when a burst fits -----

  /** As long as the queue has not been stopped there is room for a packet of up to 1500 bytes. */
  lemma RoomUnlessStopped(c: Catc, skb: Packet)
    requires c.Valid() && !c.stopped && |skb| <= 1500
    ensures Align(c.txPtr) + 2 + |skb| <= TX_BUF
  {
    AlignRoundsUp(c.txPtr);
    assert Align(c.txPtr) <= 21568;
  }

  /** Packets of at most `limit` bytes that catc_hard_start_xmit is given while a burst is in
      flight: each comes before the queue was stopped. */
  ghost predicate Backlog(packets: seq<Packet>, limit: nat) {
    && (forall i :: 0 <= i < |packets| ==> |packets[i]| <= limit)
    && (forall k :: 0 <= k < |packets| ==> BurstLength(packets[..k]) < STOP)
  }

  /** The threshold for stopping the queue keeps every burst within its buffer. */
  ghost predicate NeverOverflows(limit: nat) {
    forall packets :: Backlog(packets, limit) ==> BurstLength(packets) <= TX_BUF
  }

  lemma {:induction false} FullRows(n: nat)
    ensures BurstLength(Repeated(62, n)) == 64 * n
    decreases n
  {
    if n > 0 {
      assert Repeated(62, n)[..n - 1] == Repeated(62, n - 1);
      FullRows(n - 1);
      AlignRoundsUp(64 * (n - 1));
    }
  }

  function Repeated(len: nat, n: nat): seq<Packet> { seq(n, _ => seq(len, _ => 0)) }

  /** 335 packets of 62 bytes fill 21440 bytes; with one of 68 the burst stays below the threshold,
      but the next packet then starts at 21568. */
  lemma Overflowing(limit: nat)
    requires limit > 1500
    ensures !NeverOverflows(limit)
  {
    var rows := Repeated(62, 335);
    var short: Packet := seq(68, _ => 0);
    var long: Packet := seq(1501, _ => 0);
    var packets := rows + [short] + [long];
    FullRows(335);
    assert packets[..335] == rows && packets[..336] == rows + [short] && (rows + [short])[..335] == rows;
    assert BurstLength(packets[..336]) == 21510;
    assert BurstLength(packets) == 21568 + 1503;
    forall k | 0 <= k < |packets|
      ensures BurstLength(packets[..k]) < STOP
    {
      if k < 335 {
        assert packets[..k] == Repeated(62, k);
        FullRows(k);
      }
    }
    assert Backlog(packets, limit);
  }

  /** The queue is stopped in time exactly for packets of at most 1500 bytes. */
  lemma NeverOverflowsIff(limit: nat)
    ensures NeverOverflows(limit) <==> limit <= 1500
  {
    if limit <= 1500 {
      forall packets | Backlog(packets, limit)
        ensures BurstLength(packets) <= TX_BUF
      {
        if packets != [] {
          var init := packets[..|packets| - 1];
          AlignRoundsUp(BurstLength(init));
          assert Align(BurstLength(init)) <= 21568;
        }
      }
    } else {
      Overflowing(limit);
    }
  }
}
