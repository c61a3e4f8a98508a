/** Reassembly of HCI packets in the USB Bluetooth driver (Bluetooth Core, volume 4 part E,
    sections 5.4.2 and 5.4.4).  A packet may arrive in several URBs; the tty gets each packet
    whole, behind a byte that tells its type. */
module BluetoothHci {
  import opened Bits

  datatype Kind = Event | Acl {
    /** EVENT_PKT, ACL_PKT */
    function Type(): Byte { if Event? then 0x04 else 0x02 }
    /** The header with the type byte. */
    function HdrSize(): nat { if Event? then 3 else 5 }
    function BufferSize(): nat { if Event? then 0xFF + 3 else 0xFFFF + 5 }
  }

  /** The payload size that the header announces. */
  function PayloadSize(kind: Kind, held: seq<Byte>): (size: nat)
    requires |held| >= kind.HdrSize()
    ensures size + kind.HdrSize() <= kind.BufferSize()
  {
    var low: int, high: int := held[if kind.Event? then 2 else 3], held[if kind.Event? then 2 else 4];
    if kind.Event? then low else low + 256 * high
  }

  /** A type byte and a whole packet. */
  predicate Whole(kind: Kind, bytes: seq<Byte>) {
    && |bytes| >= kind.HdrSize() && bytes[0] == kind.Type()
    && |bytes| == PayloadSize(kind, bytes) + kind.HdrSize()
  }

  /** What may stand in the buffer between two callbacks: nothing, or less than the packet it starts. */
  predicate Partial(kind: Kind, held: seq<Byte>) {
    held == [] ||
    (held[0] == kind.Type() && (|held| < kind.HdrSize() || |held| < PayloadSize(kind, held) + kind.HdrSize()))
  }

  /** One callback: what the buffer holds afterwards and what the tty gets. */
  function Step(kind: Kind, held: seq<Byte>, chunk: seq<Byte>): (r: (seq<Byte>, seq<Byte>))
    requires Partial(kind, held)
    ensures Partial(kind, r.0) && |r.0| <= kind.BufferSize()
    ensures r.1 == [] || (Whole(kind, r.1) && r.0 == [])
  {
    var h := (if held == [] then [kind.Type()] else held) + chunk;
    if |h| > kind.BufferSize() then ([], [])
    else if |h| < kind.HdrSize() then (h, [])
    else if PayloadSize(kind, h) + kind.HdrSize() < |h| then ([], [])
    else if PayloadSize(kind, h) + kind.HdrSize() == |h| then ([], h)
    else (h, [])
  }

  /** With what was held and came now, whatever it is: a whole packet goes to the tty, part of one
      stays, and anything else is dropped. */
  lemma StepIs(kind: Kind, held: seq<Byte>, chunk: seq<Byte>)
    requires Partial(kind, held) && chunk != []
    ensures var h := (if held == [] then [kind.Type()] else held) + chunk;
      Step(kind, held, chunk) ==
        if Whole(kind, h) then ([], h) else if Partial(kind, h) && |h| <= kind.BufferSize() then (h, []) else ([], [])
  {
  }

  function Run(kind: Kind, held: seq<Byte>, chunks: seq<seq<Byte>>): (r: (seq<Byte>, seq<Byte>))
    requires Partial(kind, held)
    ensures Partial(kind, r.0)
    decreases |chunks|
  {
    if chunks == [] then (held, []) else
      var s := Step(kind, held, chunks[0]);
      var rest := Run(kind, s.0, chunks[1..]);
      (rest.0, s.1 + rest.1)
  }

  function Concat(chunks: seq<seq<Byte>>): seq<Byte> {
    if chunks == [] then [] else chunks[0] + Concat(chunks[1..])
  }

  function TtyStream(kind: Kind, packets: seq<seq<Byte>>): seq<Byte> {
    if packets == [] then [] else [kind.Type()] + packets[0] + TtyStream(kind, packets[1..])
  }

  // ----- cutting a stream of packets -----

  /** `chunks` are the packet cut into nonempty pieces. */
  ghost predicate Cut(p: seq<Byte>, chunks: seq<seq<Byte>>) {
    chunks != [] && Concat(chunks) == p && forall i :: 0 <= i < |chunks| ==> chunks[i] != []
  }

  /** A cutting of all packets that never takes parts of two packets into one piece. */
  ghost predicate CutAll(kind: Kind, packets: seq<seq<Byte>>, cuts: seq<seq<seq<Byte>>>) {
    && |cuts| == |packets|
    && forall i :: 0 <= i < |packets| ==> Whole(kind, [kind.Type()] + packets[i]) && Cut(packets[i], cuts[i])
  }

  /** The size announced is known from the header on. */
  lemma SameSize(kind: Kind, part: seq<Byte>, whole: seq<Byte>)
    requires part <= whole && |part| >= kind.HdrSize()
    ensures PayloadSize(kind, part) == PayloadSize(kind, whole)
  {
  }

  /** The rest of a packet, of which `held` is already there. */
  lemma {:induction false} PacketCompletes(kind: Kind, held: seq<Byte>, whole: seq<Byte>, chunks: seq<seq<Byte>>)
    requires Whole(kind, whole) && Partial(kind, held) && chunks != []
    requires (if held == [] then [kind.Type()] else held) + Concat(chunks) == whole
    requires forall i :: 0 <= i < |chunks| ==> chunks[i] != []
    ensures Run(kind, held, chunks) == ([], whole)
    decreases |chunks|
  {
    hide Whole, Step, Run;
    var h := (if held == [] then [kind.Type()] else held) + chunks[0];
    assert h + Concat(chunks[1..]) == whole;
    RunFirst(kind, held, chunks);
    if chunks[1..] == [] {
      assert h == whole;
      Completes(kind, held, chunks[0], whole);
      RunNothing(kind);
    } else {
      assert |Concat(chunks[1..])| > 0 by {
        assert chunks[1..][0] == chunks[1];
      }
      assert h < whole;
      PrefixIsPartial(kind, h, whole);
      GoesOn(kind, held, chunks[0], h);
      PacketCompletes(kind, h, whole, chunks[1..]);
    }
    var nothing: seq<Byte> := [];
    assert nothing + whole == whole && whole + nothing == whole;
  }

  lemma RunFirst(kind: Kind, held: seq<Byte>, chunks: seq<seq<Byte>>)
    requires Partial(kind, held) && chunks != []
    ensures var s := Step(kind, held, chunks[0]);
      var rest := Run(kind, s.0, chunks[1..]);
      Run(kind, held, chunks) == (rest.0, s.1 + rest.1)
  {
  }

  /** A callback that completes a packet, and one that does not. */
  lemma Completes(kind: Kind, held: seq<Byte>, chunk: seq<Byte>, whole: seq<Byte>)
    requires Partial(kind, held) && Whole(kind, whole)
    requires (if held == [] then [kind.Type()] else held) + chunk == whole
    ensures Step(kind, held, chunk) == ([], whole)
  {
  }

  lemma GoesOn(kind: Kind, held: seq<Byte>, chunk: seq<Byte>, h: seq<Byte>)
    requires Partial(kind, held) && Partial(kind, h) && |h| < kind.BufferSize()
    requires (if held == [] then [kind.Type()] else held) + chunk == h
    ensures Step(kind, held, chunk) == (h, [])
  {
  }

  lemma {:induction false} RunAppends(kind: Kind, held: seq<Byte>, a: seq<seq<Byte>>, b: seq<seq<Byte>>)
    requires Partial(kind, held)
    ensures var first := Run(kind, held, a);
      Run(kind, held, a + b) == (Run(kind, first.0, b).0, first.1 + Run(kind, first.0, b).1)
    decreases |a|
  {
    hide Step;
    if a == [] {
      assert a + b == b;
      assert [] + Run(kind, held, b).1 == Run(kind, held, b).1;
    } else {
      var s := Step(kind, held, a[0]);
      RunFirst(kind, held, a);
      RunFirst(kind, held, a + b);
      assert (a + b)[1..] == a[1..] + b;
      RunAppends(kind, s.0, a[1..], b);
      var first := Run(kind, s.0, a[1..]);
      assert s.1 + (first.1 + Run(kind, first.0, b).1) == (s.1 + first.1) + Run(kind, first.0, b).1;
    }
  }

  function Pieces(cuts: seq<seq<seq<Byte>>>): seq<seq<Byte>> {
    if cuts == [] then [] else cuts[0] + Pieces(cuts[1..])
  }

  /** However the packets are cut, the tty receives the type byte and the packet for each of them,
      in order, and nothing is left. */
  lemma {:induction false} PacketsReassemble(kind: Kind, packets: seq<seq<Byte>>, cuts: seq<seq<seq<Byte>>>)
    requires CutAll(kind, packets, cuts)
    ensures Run(kind, [], Pieces(cuts)) == ([], TtyStream(kind, packets))
    decreases |packets|
  {
    if packets != [] {
      PacketCompletes(kind, [], [kind.Type()] + packets[0], cuts[0]);
      assert CutAll(kind, packets[1..], cuts[1..]) by {
        forall i | 0 <= i < |packets[1..]|
          ensures Whole(kind, [kind.Type()] + packets[1..][i]) && Cut(packets[1..][i], cuts[1..][i])
        {
          assert packets[1..][i] == packets[i + 1] && cuts[1..][i] == cuts[i + 1];
        }
      }
      PacketsReassemble(kind, packets[1..], cuts[1..]);
      RunAppends(kind, [], cuts[0], Pieces(cuts[1..]));
    }
  }

  // ----- packets as the Bluetooth specification has them -----

  /** An event: its code and its parameters.  Data: the handle with its flags, and the data. */
  datatype Hci = HciEvent(code: Byte, params: seq<Byte>) | HciData(handle: nat, data: seq<Byte>) {
    predicate Valid() {
      if HciEvent? then |params| < 0x100 else handle < 0x1_0000 && |data| < 0x1_0000
    }

    /** The length is one byte for an event, and two bytes with the low one first for data. */
    function Encoded(): seq<Byte>
      requires Valid()
    {
      match this
      case HciEvent(code, params) => [code, |params| as Byte] + params
      case HciData(handle, data) => [handle % 256, handle / 256, |data| % 256, |data| / 256] + data
    }

    predicate Goes(kind: Kind) { Valid() && (HciEvent? <==> kind.Event?) }
  }

  /** The driver takes for whole exactly the encoded packets, behind 4 for an event and 2 for data. */
  lemma WholeIff(kind: Kind, bytes: seq<Byte>)
    ensures Whole(kind, bytes) <==>
      exists p: Hci :: p.Goes(kind) && bytes == [if kind.Event? then 4 else 2] + p.Encoded()
  {
    if Whole(kind, bytes) {
      var b := bytes;
      var h0: int, h1: int := b[1], b[2];
      var p := if kind.Event? then HciEvent(b[1], b[3..]) else HciData(h0 + 256 * h1, b[5..]);
      assert bytes == [if kind.Event? then 4 else 2] + p.Encoded();
      assert p.Goes(kind);
    }
    forall p: Hci | p.Goes(kind) && bytes == [if kind.Event? then 4 else 2] + p.Encoded()
      ensures Whole(kind, bytes)
    {
      EncodedIsWhole(kind, p);
    }
  }

  lemma EncodedIsWhole(kind: Kind, p: Hci)
    requires p.Goes(kind)
    ensures Whole(kind, [kind.Type()] + p.Encoded()) && kind.Type() == if kind.Event? then 4 else 2
  {
    var bytes := [kind.Type()] + p.Encoded();
    if kind.Event? {
      assert bytes[2] == |p.params|;
    } else {
      assert bytes[3] == |p.data| % 256 && bytes[4] == |p.data| / 256;
    }
  }

  /** Whatever events or data packets a device sends, and however each of them is cut, the tty gets
      them all in order. */
  lemma EncodedArrive(kind: Kind, sent: seq<Hci>, packets: seq<seq<Byte>>, cuts: seq<seq<seq<Byte>>>)
    requires |sent| == |packets| == |cuts|
    requires forall i :: 0 <= i < |sent| ==> sent[i].Goes(kind) && packets[i] == sent[i].Encoded()
    requires forall i :: 0 <= i < |sent| ==> Cut(packets[i], cuts[i])
    ensures Run(kind, [], Pieces(cuts)) == ([], TtyStream(kind, packets))
  {
    hide Whole, Run;
    forall i | 0 <= i < |packets|
      ensures Whole(kind, [kind.Type()] + packets[i]) && Cut(packets[i], cuts[i])
    {
      EncodedIsWhole(kind, sent[i]);
    }
    PacketsReassemble(kind, packets, cuts);
  }

  lemma {:induction false} ConcatSplits(chunks: seq<seq<Byte>>, k: nat)
    requires k <= |chunks|
    ensures Concat(chunks) == Concat(chunks[..k]) + Concat(chunks[k..])
    decreases k
  {
    if k == 0 {
      assert chunks[..0] == [] && chunks[0..] == chunks;
    } else {
      ConcatSplits(chunks[1..], k - 1);
      assert chunks[..k][1..] == chunks[1..][..k - 1] && chunks[k..] == chunks[1..][k - 1..];
    }
  }

  /** In the middle of a packet the buffer holds the type byte and what has come of the packet, a
      strict prefix, and the tty has got nothing of it. */
  lemma {:induction false} MiddleOfPacket(kind: Kind, p: seq<Byte>, chunks: seq<seq<Byte>>, k: nat)
    requires Whole(kind, [kind.Type()] + p) && Cut(p, chunks) && 0 < k < |chunks|
    ensures var r := Run(kind, [], chunks[..k]);
      && r == ([kind.Type()] + Concat(chunks[..k]), [])
      && Concat(chunks[..k]) < p && |r.0| < kind.BufferSize()
    decreases k
  {
    hide Step, Run, Whole;
    var h, whole := [kind.Type()] + Concat(chunks[..k]), [kind.Type()] + p;
    PrefixOfCut(p, chunks, k);
    assert h < whole;
    PrefixIsPartial(kind, h, whole);
    OneMore(chunks, k);
    RunAppends(kind, [], chunks[..k - 1], [chunks[k - 1]]);
    if k == 1 {
      assert chunks[..0] == [];
      RunNothing(kind);
    } else {
      MiddleOfPacket(kind, p, chunks, k - 1);
    }
    var before := Run(kind, [], chunks[..k - 1]).0;
    assert (if before == [] then [kind.Type()] else before) + chunks[k - 1] == h;
    LastChunk(kind, before, chunks[k - 1], h);
    var nothing: seq<Byte> := [];
    assert nothing + nothing == nothing;
  }

  lemma RunNothing(kind: Kind)
    ensures Run(kind, [], []) == ([], [])
  {
  }

  lemma OneMore(chunks: seq<seq<Byte>>, k: nat)
    requires 0 < k <= |chunks|
    ensures chunks[..k] == chunks[..k - 1] + [chunks[k - 1]]
    ensures Concat(chunks[..k]) == Concat(chunks[..k - 1]) + chunks[k - 1]
  {
    var upto := chunks[..k];
    ConcatSplits(upto, k - 1);
    assert upto[..k - 1] == chunks[..k - 1] && upto[k - 1..] == [chunks[k - 1]];
    var last := [chunks[k - 1]];
    assert last[1..] == [];
  }

  lemma PrefixOfCut(p: seq<Byte>, chunks: seq<seq<Byte>>, k: nat)
    requires Cut(p, chunks) && k < |chunks|
    ensures Concat(chunks[..k]) < p
  {
    ConcatSplits(chunks, k);
    assert chunks[k..][0] == chunks[k];
  }

  lemma LastChunk(kind: Kind, held: seq<Byte>, chunk: seq<Byte>, h: seq<Byte>)
    requires Partial(kind, held) && Partial(kind, h) && |h| < kind.BufferSize()
    requires (if held == [] then [kind.Type()] else held) + chunk == h
    ensures Run(kind, held, [chunk]) == (h, [])
  {
    GoesOn(kind, held, chunk, h);
    var chunks := [chunk];
    RunFirst(kind, held, chunks);
    assert chunks[1..] == [];
    assert Run(kind, h, chunks[1..]) == (h, []);
    var nothing: seq<Byte> := [];
    assert nothing + nothing == nothing;
  }

  /** A strict prefix of a packet is something that may stand in the buffer. */
  lemma PrefixIsPartial(kind: Kind, h: seq<Byte>, whole: seq<Byte>)
    requires Whole(kind, whole) && h < whole && h != []
    ensures Partial(kind, h) && |h| < kind.BufferSize()
  {
    if |h| >= kind.HdrSize() {
      SameSize(kind, h, whole);
    }
  }

  // ----- the callbacks -----

  class Reassembly {
    const kind: Kind
    const buffer: array<Byte>
    var packetPos: nat
    ghost var tty: seq<Byte>            // everything inserted into the tty

    ghost function Held(): seq<Byte>
      requires packetPos <= buffer.Length
      reads this`packetPos, buffer
    {
      buffer[..packetPos]
    }

    /** The position is 0 or marks a strict prefix of one packet, and stays within the buffer. */
    ghost predicate Valid()
      reads this`packetPos, buffer
    {
      buffer.Length == kind.BufferSize() && packetPos <= buffer.Length && Partial(kind, Held())
    }

    constructor (kind: Kind)
      ensures Valid() && this.kind == kind && packetPos == 0 && tty == [] && fresh(buffer)
    {
      this.kind := kind;
      buffer := new Byte[kind.BufferSize()](_ => 0);
      packetPos, tty := 0, [];
    }

    /** memcpy to the end of what is there */
    method Append(chunk: seq<Byte>)
      requires packetPos + |chunk| <= buffer.Length
      modifies this`packetPos, buffer
      ensures packetPos <= buffer.Length && Held() == old(Held()) + chunk
    {
      forall k | 0 <= k < |chunk| {
        buffer[packetPos + k] := chunk[k];
      }
      packetPos := packetPos + |chunk|;
    }

    /** bluetooth_int_callback and bluetooth_read_bulk_callback.  Errors and URBs without data are
        passed over. */
    method Callback(ok: bool, chunk: seq<Byte>)
      requires Valid()
      modifies this, buffer
      ensures Valid()
      ensures ok && chunk != [] ==> var r := Step(kind, old(Held()), chunk); Held() == r.0 && tty == old(tty) + r.1
      ensures !ok || chunk == [] ==> Held() == old(Held()) && tty == old(tty)
    {
      if !ok || |chunk| == 0 {
        return;
      }
      if packetPos == 0 {
        buffer[0] := kind.Type();
        packetPos := 1;
      }
      if packetPos + |chunk| > buffer.Length {
        packetPos := 0;
        return;
      }
      Append(chunk);
      if packetPos < kind.HdrSize() {
        return;
      }
      var packetSize := PayloadSize(kind, buffer[..packetPos]);
      if packetSize + kind.HdrSize() < packetPos {
        packetPos := 0;
        return;
      }
      if packetSize + kind.HdrSize() == packetPos {
        ghost var before, whole := tty, Held();
        for i := 0 to packetPos
          invariant packetPos == packetSize + kind.HdrSize() <= buffer.Length
          invariant Held() == whole && tty == before + buffer[..i]
        {
          tty := tty + [buffer[i]];
          assert buffer[..i + 1] == buffer[..i] + [buffer[i]];
        }
        packetPos := 0;
      }
    }
  }
}
