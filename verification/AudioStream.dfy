/** The DMA ring shared between a process and the USB completion handlers.

    A process moves data in three steps: it looks at the ring under the lock, copies without
    the lock, and moves the positions under the lock.  Between any two of its steps the
    completion handlers may work on the other end of the ring. */
module AudioStream {
  import opened Bits
  import opened Numbers
  import opened Rings

  /** Whose turn it is: the completion handlers move `n` bytes, the process takes its next step,
      copying at most `n` bytes, or its copy faults. */
  datatype Turn = Device(n: nat) | Process(n: nat) | Faulty

  // ----- playback: a process fills, the completion handlers drain -----

  /** The writing process: outside, or between its snapshot and its commit with `done` bytes copied. */
  datatype Writer = Outside | Filling(ptr: nat, data: seq<Byte>, done: nat)

  datatype Playback = Playback(
    ring: seq<Byte>, wrptr: nat, rdptr: nat, count: int, writer: Writer,
    committed: seq<Byte>, taken: seq<Byte>)

  datatype OutStep =
    | Snapshot(user: seq<Byte>)   // the first locked section of usb_audio_write
    | CopySome(n: nat)            // part of the unlocked copy
    | Fault                       // the copy hits an unreadable page
    | Commit                      // the second locked section
    | Take(n: nat)                // one frame of usbout_prepare_desc

  /** The start of the first locked section: a negative count would be repaired. */
  function Repaired(s: Playback): Playback {
    if s.count < 0 then s.(count := 0, rdptr := s.wrptr) else s
  }

  ghost predicate OutEnabled(s: Playback, step: OutStep) {
    match step
    case Snapshot(_) => s.writer.Outside?
    case CopySome(n) => s.writer.Filling? && s.writer.done + n <= |s.writer.data| && s.writer.ptr < |s.ring|
    case Fault => s.writer.Filling?
    case Commit => s.writer.Filling? && s.writer.done == |s.writer.data|
    case Take(n) => n <= s.count && s.rdptr < |s.ring|
  }

  function OutNext(s: Playback, step: OutStep): Playback
    requires OutEnabled(s, step)
  {
    match step
    case Snapshot(user) =>
      var r := Repaired(s);
      var room := |r.ring| - r.count;
      var cnt := if room > |user| then |user| else room;
      if cnt <= 0 then r else r.(writer := Filling(r.wrptr, user[..cnt], 0))
    case CopySome(n) =>
      var w := s.writer;
      AdvanceStays(w.ptr, w.done, |s.ring|);
      s.(ring := RingWrite(s.ring, Advance(w.ptr, w.done, |s.ring|), w.data[w.done..w.done + n]),
         writer := w.(done := w.done + n))
    case Fault => s.(writer := Outside)
    case Commit =>
      var ptr := s.writer.ptr + |s.writer.data|;
      s.(wrptr := if ptr >= |s.ring| then ptr - |s.ring| else ptr,
         count := s.count + |s.writer.data|, writer := Outside, committed := s.committed + s.writer.data)
    case Take(n) =>
      s.(rdptr := Advance(s.rdptr, n, |s.ring|), count := s.count - n,
         taken := s.taken + RingRead(s.ring, s.rdptr, n))
  }

  /** The ring holds exactly the bytes committed and not yet taken, and the copy in progress
      touches only the part that is free. */
  ghost predicate OutGood(s: Playback) {
    var n := |s.ring|;
    && s.wrptr < n && s.rdptr < n && 0 <= s.count <= n
    && s.wrptr == Advance(s.rdptr, s.count, n)
    && s.committed == s.taken + RingRead(s.ring, s.rdptr, s.count)
    && (s.writer.Filling? ==>
      && s.writer.ptr == s.wrptr && s.writer.done <= |s.writer.data| && s.count + |s.writer.data| <= n
      && RingRead(s.ring, s.wrptr, s.writer.done) == s.writer.data[..s.writer.done])
  }

  /** The copy so far, continued. */
  lemma CopyGrows(ring: seq<Byte>, p: nat, data: seq<Byte>, done: nat, k: nat)
    requires p < |ring| && done + k <= |data| <= |ring|
    requires RingRead(ring, p, done) == data[..done]
    ensures Advance(p, done, |ring|) < |ring|
    ensures RingRead(RingWrite(ring, Advance(p, done, |ring|), data[done..done + k]), p, done + k) == data[..done + k]
  {
    AdvanceStays(p, done, |ring|);
    var at, piece := Advance(p, done, |ring|), data[done..done + k];
    WriteBehind(ring, p, done, piece);
    ReadAppends(RingWrite(ring, at, piece), p, done, k);
    ReadBack(ring, at, piece);
    assert data[..done + k] == data[..done] + piece;
  }

  lemma CopyKeepsGood(s: Playback, k: nat)
    requires OutGood(s) && OutEnabled(s, CopySome(k))
    ensures OutGood(OutNext(s, CopySome(k)))
  {
    var w := s.writer;
    AdvanceAdds(s.rdptr, s.count, w.done, |s.ring|);
    // the unread window ends where the free part begins
    TakenTogether(s.ring, s.rdptr, s.count, w.done, w.data[w.done..w.done + k]);
    CopyGrows(s.ring, s.wrptr, w.data, w.done, k);
  }

  /** Writing behind a longer window leaves a shorter one alone as well. */
  lemma TakenTogether(ring: seq<Byte>, p: nat, count: nat, done: nat, piece: seq<Byte>)
    requires p < |ring| && count + done + |piece| <= |ring|
    ensures Advance(p, count + done, |ring|) < |ring|
    ensures RingRead(RingWrite(ring, Advance(p, count + done, |ring|), piece), p, count) == RingRead(ring, p, count)
  {
    WriteBehind(ring, p, count + done, piece);
    var after := RingWrite(ring, Advance(p, count + done, |ring|), piece);
    ReadAppends(ring, p, count, done);
    ReadAppends(after, p, count, done);
    assert RingRead(after, p, count) == RingRead(after, p, count + done)[..count];
    assert RingRead(ring, p, count) == RingRead(ring, p, count + done)[..count];
  }

  lemma CommitKeepsGood(s: Playback)
    requires OutGood(s) && OutEnabled(s, Commit)
    ensures OutGood(OutNext(s, Commit))
  {
    var n, k := |s.ring|, |s.writer.data|;
    AdvanceLinear(s.wrptr, k, n);
    AdvanceAdds(s.rdptr, s.count, k, n);
    ReadAppends(s.ring, s.rdptr, s.count, k);
    assert s.writer.data[..k] == s.writer.data;
    AdvanceStays(s.rdptr, s.count + k, n);
  }

  lemma TakeKeepsGood(s: Playback, k: nat)
    requires OutGood(s) && OutEnabled(s, Take(k))
    ensures OutGood(OutNext(s, Take(k)))
  {
    var n := |s.ring|;
    AdvanceStays(s.rdptr, k, n);
    AdvanceAdds(s.rdptr, k, s.count - k, n);
    ReadAppends(s.ring, s.rdptr, k, s.count - k);
  }

  lemma OutStepKeepsGood(s: Playback, step: OutStep)
    requires OutGood(s) && OutEnabled(s, step)
    ensures OutGood(OutNext(s, step))
  {
    match step
    case Snapshot(_) =>
    case CopySome(n) => CopyKeepsGood(s, n);
    case Fault =>
    case Commit => CommitKeepsGood(s);
    case Take(n) => TakeKeepsGood(s, n);
  }

  ghost predicate IsOutRun(s: Playback, steps: seq<OutStep>)
    decreases |steps|
  {
    steps == [] || (OutEnabled(s, steps[0]) && IsOutRun(OutNext(s, steps[0]), steps[1..]))
  }

  ghost function OutRun(s: Playback, steps: seq<OutStep>): Playback
    requires IsOutRun(s, steps)
    decreases |steps|
  {
    if steps == [] then s else OutRun(OutNext(s, steps[0]), steps[1..])
  }

  /** In every interleaving the handlers take exactly the bytes the process has committed, in
      order, none lost and none repeated; the count and the positions agree throughout. */
  lemma {:induction false} PlaybackIsFifo(s: Playback, steps: seq<OutStep>)
    requires OutGood(s) && IsOutRun(s, steps)
    ensures var t := OutRun(s, steps);
      && OutGood(t) && 0 <= t.count <= |t.ring| && t.wrptr == (t.rdptr + t.count) % |t.ring|
      && t.taken <= t.committed && |t.committed| == |t.taken| + t.count
      && s.committed <= t.committed && s.taken <= t.taken
    decreases |steps|
  {
    if steps == [] {
      AdvanceIsModular(s.rdptr, s.count, |s.ring|);
    } else {
      OutStepKeepsGood(s, steps[0]);
      PlaybackIsFifo(OutNext(s, steps[0]), steps[1..]);
    }
  }

  /** The steps of one call of usb_audio_write for `buffer`, of which it has counted `ret` bytes: it
      always goes on with what is left. */
  ghost predicate OneWrite(s: Playback, steps: seq<OutStep>, buffer: seq<Byte>, ret: nat)
    requires IsOutRun(s, steps)
    decreases |steps|
  {
    steps == [] ||
    (&& ret <= |buffer| && (steps[0].Snapshot? ==> steps[0].user == buffer[ret..])
     && OneWrite(OutNext(s, steps[0]), steps[1..], buffer, ret + CommittedBy(s, steps[0])))
  }

  /** What the call counts at a step: `cnt`, after the second locked section. */
  function CommittedBy(s: Playback, step: OutStep): nat {
    if step.Commit? && s.writer.Filling? then |s.writer.data| else 0
  }

  ghost function Counted(s: Playback, steps: seq<OutStep>): nat
    requires IsOutRun(s, steps)
    decreases |steps|
  {
    if steps == [] then 0 else CommittedBy(s, steps[0]) + Counted(OutNext(s, steps[0]), steps[1..])
  }

  /** The first locked section takes as many bytes as there is room for, from the front. */
  lemma SnapshotTakesFront(s: Playback, user: seq<Byte>)
    requires s.writer.Outside? && 0 <= s.count <= |s.ring|
    ensures var t := OutNext(s, Snapshot(user)); var k := Min(|user|, |s.ring| - s.count);
      && (t.writer.Filling? <==> k > 0)
      && (t.writer.Filling? ==> |t.writer.data| == k && t.writer.data <= user && t.writer.done == 0)
  {
  }

  /** Whatever happens in between, the bytes committed during a call are exactly the front of the
      caller's buffer that the return value counts. */
  lemma {:induction false} WriteCommitsFront(s: Playback, steps: seq<OutStep>, buffer: seq<Byte>, ret: nat)
    requires OutGood(s) && IsOutRun(s, steps) && OneWrite(s, steps, buffer, ret) && ret <= |buffer|
    requires s.writer.Filling? ==> s.writer.data <= buffer[ret..]
    ensures ret + Counted(s, steps) <= |buffer|
    ensures OutRun(s, steps).committed == s.committed + buffer[ret..ret + Counted(s, steps)]
    decreases |steps|
  {
    hide OutNext, OutGood, OutEnabled, CommittedBy;
    if steps == [] {
      assert buffer[ret..ret] == [];
    } else {
      var t, k := OutNext(s, steps[0]), CommittedBy(s, steps[0]);
      OutStepKeepsGood(s, steps[0]);
      WriteStep(s, steps[0], buffer, ret);
      WriteCommitsFront(t, steps[1..], buffer, ret + k);
      FrontsJoin(s.committed, buffer, ret, k, Counted(t, steps[1..]));
    }
  }

  lemma WriteStep(s: Playback, step: OutStep, buffer: seq<Byte>, ret: nat)
    requires OutGood(s) && OutEnabled(s, step) && ret <= |buffer|
    requires step.Snapshot? ==> step.user == buffer[ret..]
    requires s.writer.Filling? ==> s.writer.data <= buffer[ret..]
    ensures var t := OutNext(s, step); var k := CommittedBy(s, step);
      && ret + k <= |buffer| && t.committed == s.committed + buffer[ret..ret + k]
      && (t.writer.Filling? ==> t.writer.data <= buffer[ret + k..])
  {
    hide RingRead, RingWrite, Advance;
    if step.Commit? {
      assert s.writer.data == buffer[ret..][..|s.writer.data|] == buffer[ret..ret + |s.writer.data|];
    } else {
      assert s.committed + buffer[ret..ret] == s.committed;
    }
  }

  lemma FrontsJoin(committed: seq<Byte>, buffer: seq<Byte>, ret: nat, k: nat, n: nat)
    requires ret + k + n <= |buffer|
    ensures committed + buffer[ret..ret + k] + buffer[ret + k..ret + k + n] == committed + buffer[ret..ret + k + n]
  {
    assert buffer[ret..ret + k] + buffer[ret + k..ret + k + n] == buffer[ret..ret + k + n];
  }

  // ----- capture: the completion handlers fill, a process drains -----

  /** The reading process: outside, or between its snapshot and its commit with `got` fetched. */
  datatype Reader = Away | Draining(ptr: nat, want: nat, got: seq<Byte>)

  datatype Capture = Capture(
    ring: seq<Byte>, wrptr: nat, rdptr: nat, count: int, reader: Reader,
    received: seq<Byte>, delivered: seq<Byte>)

  datatype InStep =
    | Look(room: nat)             // the first locked section of usb_audio_read
    | FetchSome(n: nat)           // part of the unlocked copy
    | FetchFault                  // the copy hits an unwritable page
    | Finish                      // the second locked section
    | Put(data: seq<Byte>)        // one frame of usbin_retire_desc

  ghost predicate InEnabled(s: Capture, step: InStep) {
    match step
    case Look(_) => s.reader.Away?
    case FetchSome(n) => s.reader.Draining? && |s.reader.got| + n <= s.reader.want && s.reader.ptr < |s.ring|
    case FetchFault => s.reader.Draining?
    case Finish => s.reader.Draining? && |s.reader.got| == s.reader.want
    case Put(data) => s.count + |data| <= |s.ring| && s.wrptr < |s.ring|
  }

  function InNext(s: Capture, step: InStep): Capture
    requires InEnabled(s, step)
  {
    match step
    case Look(room) =>
      var cnt := if s.count > room then room else s.count;
      if cnt <= 0 then s else s.(reader := Draining(s.rdptr, cnt, []))
    case FetchSome(n) =>
      var r := s.reader;
      AdvanceStays(r.ptr, |r.got|, |s.ring|);
      s.(reader := r.(got := r.got + RingRead(s.ring, Advance(r.ptr, |r.got|, |s.ring|), n)))
    case FetchFault => s.(reader := Away)
    case Finish =>
      var ptr := s.reader.ptr + s.reader.want;
      s.(rdptr := if ptr >= |s.ring| then ptr - |s.ring| else ptr,
         count := s.count - s.reader.want, reader := Away, delivered := s.delivered + s.reader.got)
    case Put(data) =>
      s.(ring := RingWrite(s.ring, s.wrptr, data), wrptr := Advance(s.wrptr, |data|, |s.ring|),
         count := s.count + |data|, received := s.received + data)
  }

  ghost predicate InGood(s: Capture) {
    var n := |s.ring|;
    && s.wrptr < n && s.rdptr < n && 0 <= s.count <= n
    && s.wrptr == Advance(s.rdptr, s.count, n)
    && s.received == s.delivered + RingRead(s.ring, s.rdptr, s.count)
    && (s.reader.Draining? ==>
      && s.reader.ptr == s.rdptr && |s.reader.got| <= s.reader.want <= s.count
      && s.reader.got == RingRead(s.ring, s.rdptr, |s.reader.got|))
  }

  lemma PutKeepsGood(s: Capture, data: seq<Byte>)
    requires InGood(s) && InEnabled(s, Put(data))
    ensures InGood(InNext(s, Put(data)))
  {
    var n := |s.ring|;
    var after := RingWrite(s.ring, s.wrptr, data);
    WriteBehind(s.ring, s.rdptr, s.count, data);
    ReadBack(s.ring, s.wrptr, data);
    ReadAppends(after, s.rdptr, s.count, |data|);
    AdvanceStays(s.wrptr, |data|, n);
    AdvanceAdds(s.rdptr, s.count, |data|, n);
    if s.reader.Draining? {
      var g := |s.reader.got|;
      ReadAppends(s.ring, s.rdptr, g, s.count - g);
      ReadAppends(after, s.rdptr, g, s.count - g);
      assert RingRead(s.ring, s.rdptr, g) == RingRead(s.ring, s.rdptr, s.count)[..g];
      assert RingRead(after, s.rdptr, g) == RingRead(after, s.rdptr, s.count)[..g];
    }
  }

  lemma FinishKeepsGood(s: Capture)
    requires InGood(s) && InEnabled(s, Finish)
    ensures InGood(InNext(s, Finish))
  {
    var n, k := |s.ring|, s.reader.want;
    AdvanceLinear(s.rdptr, k, n);
    AdvanceStays(s.rdptr, k, n);
    AdvanceAdds(s.rdptr, k, s.count - k, n);
    ReadAppends(s.ring, s.rdptr, k, s.count - k);
  }

  lemma InStepKeepsGood(s: Capture, step: InStep)
    requires InGood(s) && InEnabled(s, step)
    ensures InGood(InNext(s, step))
  {
    match step
    case Look(_) =>
    case FetchSome(n) => ReadAppends(s.ring, s.rdptr, |s.reader.got|, n);
    case FetchFault =>
    case Finish => FinishKeepsGood(s);
    case Put(data) => PutKeepsGood(s, data);
  }

  ghost predicate IsInRun(s: Capture, steps: seq<InStep>)
    decreases |steps|
  {
    steps == [] || (InEnabled(s, steps[0]) && IsInRun(InNext(s, steps[0]), steps[1..]))
  }

  ghost function InRun(s: Capture, steps: seq<InStep>): Capture
    requires IsInRun(s, steps)
    decreases |steps|
  {
    if steps == [] then s else InRun(InNext(s, steps[0]), steps[1..])
  }

  /** In every interleaving the process is delivered exactly the bytes the handlers have
      received, in order, none lost and none repeated. */
  lemma {:induction false} CaptureIsFifo(s: Capture, steps: seq<InStep>)
    requires InGood(s) && IsInRun(s, steps)
    ensures var t := InRun(s, steps);
      && InGood(t) && 0 <= t.count <= |t.ring| && t.wrptr == (t.rdptr + t.count) % |t.ring|
      && t.delivered <= t.received && |t.received| == |t.delivered| + t.count
      && s.received <= t.received && s.delivered <= t.delivered
    decreases |steps|
  {
    if steps == [] {
      AdvanceIsModular(s.rdptr, s.count, |s.ring|);
    } else {
      InStepKeepsGood(s, steps[0]);
      CaptureIsFifo(InNext(s, steps[0]), steps[1..]);
    }
  }

  /** The steps of one call of usb_audio_read for `wanted` bytes, of which it has counted `ret`. */
  ghost predicate OneRead(s: Capture, steps: seq<InStep>, wanted: nat, ret: nat)
    requires IsInRun(s, steps)
    decreases |steps|
  {
    steps == [] ||
    (&& ret <= wanted && (steps[0].Look? ==> steps[0].room == wanted - ret)
     && OneRead(InNext(s, steps[0]), steps[1..], wanted, ret + FinishedBy(s, steps[0])))
  }

  function FinishedBy(s: Capture, step: InStep): nat {
    if step.Finish? && s.reader.Draining? then s.reader.want else 0
  }

  ghost function Fetched(s: Capture, steps: seq<InStep>): nat
    requires IsInRun(s, steps)
    decreases |steps|
  {
    if steps == [] then 0 else FinishedBy(s, steps[0]) + Fetched(InNext(s, steps[0]), steps[1..])
  }

  /** The first locked section wants as many bytes as there are, and no more than the process. */
  lemma LookWantsWhatIsThere(s: Capture, room: nat)
    requires s.reader.Away? && 0 <= s.count
    ensures var t := InNext(s, Look(room)); var k := Min(room, s.count);
      (t.reader.Draining? <==> k > 0) && (t.reader.Draining? ==> t.reader.want == k && t.reader.got == [])
  {
  }

  /** Whatever happens in between, the process is delivered during a call exactly as many bytes as
      the return value counts, the next ones received, and never more than it wanted. */
  lemma {:induction false} ReadDeliversCount(s: Capture, steps: seq<InStep>, wanted: nat, ret: nat)
    requires InGood(s) && IsInRun(s, steps) && OneRead(s, steps, wanted, ret) && ret <= wanted
    requires s.reader.Draining? ==> s.reader.want <= wanted - ret
    ensures ret + Fetched(s, steps) <= wanted
    ensures var t := InRun(s, steps); var n := Fetched(s, steps);
      && |t.delivered| == |s.delivered| + n && |s.delivered| + n <= |t.received|
      && t.delivered == s.delivered + t.received[|s.delivered|..|s.delivered| + n]
    decreases |steps|
  {
    CaptureIsFifo(s, steps);
    if steps != [] {
      InStepKeepsGood(s, steps[0]);
      ReadDeliversCount(InNext(s, steps[0]), steps[1..], wanted, ret + FinishedBy(s, steps[0]));
    }
    FrontOf(InRun(s, steps).received, s.delivered, InRun(s, steps).delivered);
  }

  lemma FrontOf(all: seq<Byte>, a: seq<Byte>, b: seq<Byte>)
    requires a <= b <= all
    ensures b == a + all[|a|..|b|]
  {
    assert b == b[..|a|] + b[|a|..];
  }
}
