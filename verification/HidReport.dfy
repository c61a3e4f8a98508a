/** HID fields and reports: setting values, writing a report out, and analysing a received
    one by comparing it with the last. */
module HidReport {
  import opened Bits
  import opened HidBits

  /** The part of a field that the parser fixes.  Flags and sizes are those of the Main item. */
  datatype Shape = Shape(offset: nat, size: nat, count: nat, min: int, max: int, flags: nat, usage: seq<nat>)
  {
    /** HID_MAIN_ITEM_VARIABLE and HID_MAIN_ITEM_RELATIVE. */
    predicate Variable() { flags / 2 % 2 == 1 }
    predicate Relative() { flags / 4 % 2 == 1 }

    /** Where value `i` starts: offset + i * size. */
    function Position(i: nat): nat {
      if i == 0 then offset else Position(i - 1) + size
    }
    function End(): nat { Position(count) }

    /** Where a value of the logical range is found in the usage table. */
    predicate InRange(v: int) { min <= v <= max }

    /** Sizes 1..31, and for an array field a usage for every logical value. */
    predicate WellFormed() {
      1 <= size <= 31 && -0x8000_0000 <= min && max < 0x8000_0000 &&
      if Variable() then |usage| == count else max - min < |usage|
    }

    /** The buffer holds the field, and the 64-bit window of each of its values. */
    predicate InsideOf(report: seq<Byte>) {
      End() <= 8 * |report| && forall i :: 0 <= i < count ==> WindowFits(report, Position(i))
    }
  }

  /** Bits 1 and 2 of the Main item, as section 6.2.2.5 of the HID class definition numbers them. */
  lemma FlagBits(s: Shape)
    ensures (s.Variable() <==> Bit(s.flags, 1)) && (s.Relative() <==> Bit(s.flags, 2))
  {
    assert Bit(s.flags, 1) == Bit(s.flags / 2, 0);
    assert Bit(s.flags, 2) == Bit(s.flags / 2, 1) == Bit(s.flags / 2 / 2, 0);
  }

  const ERROR_ROLL_OVER := 0x0007_0001

  function Encode(s: Shape, v: int): nat
    requires s.WellFormed()
  {
    if s.min < 0 then S32tonFits(v, s.size); S32ton(v, s.size) else v % 0x1_0000_0000
  }

  function Decode(s: Shape, u: nat): int
    requires s.WellFormed() && u < Pow2(s.size)
  {
    if s.min < 0 then Snto32Decodes(u, s.size); Snto32(u, s.size) else u
  }

  /** A value that survives in a field of this size. */
  predicate Representable(s: Shape, v: int)
    requires s.WellFormed()
  {
    if s.min < 0 then v == Saturate(v, s.size) else 0 <= v < Pow2(s.size)
  }

  /** The values hid_set_field takes. */
  predicate Accepted(s: Shape, v: int)
    requires s.WellFormed()
  {
    s.InRange(v) && (s.min < 0 ==> v == Saturate(v, s.size))
  }

  lemma EncodeDecode(s: Shape, v: int)
    requires s.WellFormed() && Representable(s, v)
    ensures Encode(s, v) < Pow2(s.size) && Decode(s, Encode(s, v)) == v
  {
    Pow2Bounds(s.size);
    if s.min < 0 {
      S32tonFits(v, s.size);
      SaturatingRoundTrip(v, s.size);
    }
  }

  lemma DecodedIsRepresentable(s: Shape, u: nat)
    requires s.WellFormed() && u < Pow2(s.size)
    ensures Representable(s, Decode(s, u))
  {
    Snto32Decodes(u, s.size);
  }

  /** hid_set_field lets through only values the field can hold, exactly when an unsigned
      logical range fits the field. */
  lemma AcceptedFitIff(s: Shape)
    requires s.WellFormed() && s.min <= s.max
    ensures (forall v :: Accepted(s, v) ==> Representable(s, v)) <==> (s.min < 0 || s.max < Pow2(s.size))
  {
    if s.min >= 0 && s.max >= Pow2(s.size) {
      assert Accepted(s, s.max) && !Representable(s, s.max);
    }
  }

  // ----- writing -----

  function FieldBits(bits: seq<bool>, s: Shape, values: seq<int>, n: nat): (r: seq<bool>)
    requires s.WellFormed() && n <= |values|
    ensures |r| == |bits|
  {
    if n == 0 then bits
    else PutBits(FieldBits(bits, s, values, n - 1), s.Position(n - 1), s.size, Encode(s, values[n - 1]))
  }

  ghost predicate SameOutside(a: seq<bool>, b: seq<bool>, lo: nat, hi: nat) {
    |a| == |b| && forall k :: 0 <= k < |a| && !(lo <= k < hi) ==> a[k] == b[k]
  }

  lemma PutSmallValue(bits: seq<bool>, at: nat, n: nat, value: nat)
    requires n <= 31 && at + n <= |bits| && value < Pow2(n)
    ensures SameOutside(bits, PutBits(bits, at, n, value), at, at + n)
    ensures PutBits(bits, at, n, value)[at..at + n] == ToBits(value, n)
  {
    var r := PutBits(bits, at, n, value);
    forall k | 0 <= k < |bits| && !(at <= k < at + n)
      ensures r[k] == bits[k]
    {
      if at + n <= k {
        BitOfSmall(value, n, k - at);
      }
    }
  }

  lemma {:induction false} SomeHighBit(value: nat, n: nat, m: nat) returns (k: nat)
    requires Pow2(n) <= value < Pow2(m)
    ensures n <= k < m && Bit(value, k)
    decreases m
  {
    if m == 0 {
      assert false;
    } else if n == 0 {
      if value % 2 == 1 {
        k := 0;
      } else {
        k := SomeHighBit(value / 2, 0, m - 1);
        k := k + 1;
      }
    } else {
      k := SomeHighBit(value / 2, n - 1, m - 1);
      k := k + 1;
    }
  }

  ghost predicate KeepsNeighbours(at: nat, n: nat, value: nat) {
    forall bits: seq<bool> {:trigger PutBits(bits, at, n, value)} :: |bits| >= at + 32 ==>
      SameOutside(bits, PutBits(bits, at, n, value), at, at + n)
  }

  lemma LargeValueSpills(at: nat, n: nat, value: nat)
    requires Pow2(n) <= value < 0x1_0000_0000
    ensures !KeepsNeighbours(at, n, value)
  {
    assert value < Pow2(32) by { Pow2Values(); }
    var k := SomeHighBit(value, n, 32);
    HighBitSpills(at, n, value, k);
  }

  lemma HighBitSpills(at: nat, n: nat, value: nat, k: nat)
    requires n <= k < 32 && Bit(value, k)
    ensures !KeepsNeighbours(at, n, value)
  {
    var clear := seq(at + 32, _ => false);
    var r := PutBits(clear, at, n, value);
    SpilledBit(clear, at, n, value, k);
  }

  lemma SpilledBit(clear: seq<bool>, at: nat, n: nat, value: nat, k: nat)
    requires n <= k < 32 && Bit(value, k) && |clear| == at + 32 && !clear[at + k]
    ensures !SameOutside(clear, PutBits(clear, at, n, value), at, at + n)
  {
    var r := PutBits(clear, at, n, value);
    assert r[at + k] == ((clear[at + k] && !(at <= at + k < at + n)) || (at <= at + k < at + 32 && Bit(value, at + k - at)));
  }

  /** A write keeps to its own bits in every report exactly when the value fits. */
  lemma NeighboursKeptIff(at: nat, n: nat, value: nat)
    requires 1 <= n <= 31 && value < 0x1_0000_0000
    ensures KeepsNeighbours(at, n, value) <==> value < Pow2(n)
  {
    if value < Pow2(n) {
      forall bits: seq<bool> | |bits| >= at + 32
        ensures SameOutside(bits, PutBits(bits, at, n, value), at, at + n)
      {
        PutSmallValue(bits, at, n, value);
      }
    } else {
      LargeValueSpills(at, n, value);
    }
  }

  lemma {:induction false} PositionsApart(s: Shape, i: nat, j: nat)
    requires i < j
    ensures s.Position(i) + s.size <= s.Position(j)
    decreases j
  {
    if i + 1 < j {
      PositionsApart(s, i, j - 1);
    }
  }

  lemma {:induction false} PositionIs(s: Shape, i: nat)
    ensures s.Position(i) == s.offset + i * s.size
    decreases i
  {
    if i > 0 {
      PositionIs(s, i - 1);
      assert i * s.size == (i - 1) * s.size + s.size;
    }
  }

  /** Slot `i` of a field holds `v`. */
  ghost predicate Holds(bits: seq<bool>, s: Shape, i: nat, v: int)
    requires s.WellFormed()
  {
    s.Position(i) + s.size <= |bits| &&
    bits[s.Position(i)..s.Position(i) + s.size] == ToBits(Encode(s, v), s.size)
  }

  /** After the first `n` values of a field are written they stand in their slots and
      nothing outside those slots has changed. */
  lemma {:induction false} FieldWritten(bits: seq<bool>, s: Shape, values: seq<int>, n: nat)
    requires s.WellFormed() && n <= |values| && s.Position(n) <= |bits|
    requires forall v :: v in values ==> Representable(s, v)
    ensures SameOutside(bits, FieldBits(bits, s, values, n), s.offset, s.Position(n))
    ensures s.offset <= s.Position(n)
    ensures forall i :: 0 <= i < n ==> Holds(FieldBits(bits, s, values, n), s, i, values[i])
    decreases n
  {
    if n > 0 {
      var before := FieldBits(bits, s, values, n - 1);
      var after := FieldBits(bits, s, values, n);
      FieldWritten(bits, s, values, n - 1);
      EncodeDecode(s, values[n - 1]);
      PutSmallValue(before, s.Position(n - 1), s.size, Encode(s, values[n - 1]));
      forall i | 0 <= i < n - 1
        ensures Holds(after, s, i, values[i])
      {
        PositionsApart(s, i, n - 1);
        SlotUntouched(before, after, s.Position(n - 1), s.Position(n), s.Position(i), s.size);
        assert Holds(before, s, i, values[i]);
      }
    }
  }

  lemma SlotUntouched(a: seq<bool>, b: seq<bool>, lo: nat, hi: nat, at: nat, n: nat)
    requires SameOutside(a, b, lo, hi) && at + n <= |a| && (at + n <= lo || hi <= at)
    ensures a[at..at + n] == b[at..at + n]
  {
  }

  // ----- reading -----

  function ValueAt(bits: seq<bool>, s: Shape, i: nat): int
    requires s.WellFormed() && s.Position(i) + s.size <= |bits|
  {
    Decode(s, FromBits(bits[s.Position(i)..s.Position(i) + s.size]))
  }

  lemma SlotsInside(s: Shape)
    ensures forall i :: 0 <= i < s.count ==> s.Position(i) + s.size <= s.End()
  {
    forall i | 0 <= i < s.count
      ensures s.Position(i) + s.size <= s.End()
    {
      PositionsApart(s, i, s.count);
    }
  }

  /** The values a report holds for a field, in terms of its bits. */
  function ValuesIn(bits: seq<bool>, s: Shape): (values: seq<int>)
    requires s.WellFormed() && s.End() <= |bits|
    ensures |values| == s.count
  {
    SlotsInside(s);
    seq(s.count, i requires 0 <= i < s.count => ValueAt(bits, s, i))
  }

  lemma HeldIsRead(bits: seq<bool>, s: Shape, i: nat, v: int)
    requires s.WellFormed() && Representable(s, v) && Holds(bits, s, i, v)
    ensures ValueAt(bits, s, i) == v
  {
    EncodeDecode(s, v);
    FromToBits(Encode(s, v), s.size);
  }

  // ----- whole reports -----

  /** A field with its current values. */
  datatype Entry = Entry(shape: Shape, values: seq<int>) {
    /** The values fit the field, as SetField and InputField leave them. */
    predicate Sound() {
      shape.WellFormed() && |values| == shape.count && forall v :: v in values ==> Representable(shape, v)
    }
  }

  /** What hid_add_field makes of a report: each field lies behind the one before it. */
  predicate LaidOut(entries: seq<Entry>, size: nat) {
    && (forall i :: 0 <= i < |entries| ==> entries[i].shape.End() <= size)
    && (forall i, j :: 0 <= i < j < |entries| ==> entries[i].shape.End() <= entries[j].shape.offset)
  }

  predicate WellFormed(entries: seq<Entry>) {
    forall i :: 0 <= i < |entries| ==> entries[i].shape.WellFormed()
  }

  predicate Sound(entries: seq<Entry>) {
    forall i :: 0 <= i < |entries| ==> entries[i].Sound()
  }

  /** The report after hid_output_field of its first `n` fields. */
  function OutputBits(bits: seq<bool>, entries: seq<Entry>, n: nat): (r: seq<bool>)
    requires n <= |entries| && WellFormed(entries)
    ensures |r| == |bits|
  {
    if n == 0 then bits
    else
      FieldBits(OutputBits(bits, entries, n - 1), entries[n - 1].shape, entries[n - 1].values, |entries[n - 1].values|)
  }

  ghost predicate InSomeField(entries: seq<Entry>, n: nat, k: int)
    requires n <= |entries|
  {
    exists i :: 0 <= i < n && entries[i].shape.offset <= k < entries[i].shape.End()
  }

  /** Writing a report and reading it back gives every field its own values again, and
      leaves every bit that belongs to no field as it was. */
  lemma {:induction false} ReportRoundTrip(bits: seq<bool>, entries: seq<Entry>, n: nat)
    requires n <= |entries| && LaidOut(entries, |bits|) && Sound(entries)
    ensures forall i :: 0 <= i < n ==> ValuesIn(OutputBits(bits, entries, n), entries[i].shape) == entries[i].values
    ensures forall k :: 0 <= k < |bits| && !InSomeField(entries, n, k) ==> OutputBits(bits, entries, n)[k] == bits[k]
    decreases n
  {
    if n > 0 {
      var before, after := OutputBits(bits, entries, n - 1), OutputBits(bits, entries, n);
      var s := entries[n - 1].shape;
      ReportRoundTrip(bits, entries, n - 1);
      EntryRead(before, entries[n - 1]);
      forall i | 0 <= i < n - 1
        ensures ValuesIn(after, entries[i].shape) == entries[i].values
      {
        FieldUntouched(before, after, s.offset, s.End(), entries[i].shape);
      }
      forall k | 0 <= k < |bits| && !InSomeField(entries, n, k)
        ensures after[k] == bits[k]
      {
        assert !InSomeField(entries, n - 1, k);
        assert !(entries[n - 1].shape.offset <= k < entries[n - 1].shape.End());
      }
    }
  }

  lemma EntryRead(before: seq<bool>, e: Entry)
    requires e.Sound() && e.shape.End() <= |before|
    ensures var after := FieldBits(before, e.shape, e.values, |e.values|);
      ValuesIn(after, e.shape) == e.values && SameOutside(before, after, e.shape.offset, e.shape.End())
  {
    var s := e.shape;
    var after := FieldBits(before, s, e.values, s.count);
    FieldWritten(before, s, e.values, s.count);
    SlotsInside(s);
    forall i | 0 <= i < s.count
      ensures ValueAt(after, s, i) == e.values[i]
    {
      assert Holds(after, s, i, e.values[i]);
      HeldIsRead(after, s, i, e.values[i]);
    }
  }

  lemma FieldUntouched(a: seq<bool>, b: seq<bool>, lo: nat, hi: nat, s: Shape)
    requires SameOutside(a, b, lo, hi) && s.WellFormed() && s.End() <= |a| && s.End() <= lo
    ensures ValuesIn(a, s) == ValuesIn(b, s)
  {
    SlotsInside(s);
    forall i | 0 <= i < s.count
      ensures ValueAt(a, s, i) == ValueAt(b, s, i)
    {
      SlotUntouched(a, b, lo, hi, s.Position(i), s.size);
    }
  }

  // ----- analysing -----

  /** hid_process_event for usage `index` of the field. */
  datatype Event = Event(index: int, value: int)

  /** A value that names a usage worth reporting. */
  predicate Tracked(s: Shape, v: int)
    requires s.WellFormed() && !s.Variable()
  {
    s.InRange(v) && s.usage[v - s.min] != 0
  }

  predicate IsRollOver(s: Shape, v: int)
    requires s.WellFormed()
  {
    !s.Variable() && s.InRange(v) && s.usage[v - s.min] == ERROR_ROLL_OVER
  }

  predicate RollsOver(s: Shape, values: seq<int>)
    requires s.WellFormed()
  {
    exists n :: 0 <= n < |values| && IsRollOver(s, values[n])
  }

  function EventsAt(s: Shape, last: seq<int>, now: seq<int>, n: nat): seq<Event>
    requires s.WellFormed() && n < |last| == |now|
  {
    if s.Variable() then
      if (if s.Relative() then now[n] == 0 else now[n] == last[n]) then [] else [Event(n, now[n])]
    else
      (if Tracked(s, last[n]) && last[n] !in now then [Event(last[n] - s.min, 0)] else [])
      + (if Tracked(s, now[n]) && now[n] !in last then [Event(now[n] - s.min, 1)] else [])
  }

  function EventsUpTo(s: Shape, last: seq<int>, now: seq<int>, n: nat): seq<Event>
    requires s.WellFormed() && n <= |last| == |now|
  {
    if n == 0 then [] else EventsUpTo(s, last, now, n - 1) + EventsAt(s, last, now, n - 1)
  }

  /** The events a report gives rise to, and the values kept for the next comparison. */
  function Analyse(s: Shape, last: seq<int>, now: seq<int>): (r: (seq<Event>, seq<int>))
    requires s.WellFormed() && |last| == |now|
  {
    if RollsOver(s, now) then ([], last) else (EventsUpTo(s, last, now, |now|), now)
  }

  /** The usages an array field's values hold down. */
  function Active(s: Shape, values: seq<int>): set<int>
    requires s.WellFormed() && !s.Variable()
  {
    set v | v in values && Tracked(s, v) :: v - s.min
  }

  /** A listener that knows nothing but the events. */
  function Replay(down: set<int>, events: seq<Event>): set<int>
    decreases |events|
  {
    if events == [] then down
    else
      var e := events[|events| - 1];
      var before := Replay(down, events[..|events| - 1]);
      if e.value == 0 then before - {e.index} else before + {e.index}
  }

  lemma {:induction false} ReplayAppend(down: set<int>, a: seq<Event>, b: seq<Event>)
    ensures Replay(down, a + b) == Replay(Replay(down, a), b)
    decreases |b|
  {
    if b == [] {
      assert a + b == a;
    } else {
      var k := |b| - 1;
      assert (a + b)[..|a + b| - 1] == a + b[..k] && (a + b)[|a + b| - 1] == b[k];
      ReplayAppend(down, a, b[..k]);
    }
  }

  /** The tracked values of `values` that `others` lacks, as usage indices. */
  function Lacking(s: Shape, values: seq<int>, others: seq<int>): set<int>
    requires s.WellFormed() && !s.Variable()
  {
    set v | v in values && Tracked(s, v) && v !in others :: v - s.min
  }

  lemma LackingSnoc(s: Shape, values: seq<int>, n: nat, others: seq<int>)
    requires s.WellFormed() && !s.Variable() && n < |values|
    ensures var v := values[n];
      Lacking(s, values[..n + 1], others)
        == Lacking(s, values[..n], others) + (if Tracked(s, v) && v !in others then {v - s.min} else {})
  {
    assert values[..n + 1] == values[..n] + [values[n]];
  }

  lemma NotLackingItself(s: Shape, values: seq<int>, others: seq<int>, n: nat)
    requires s.WellFormed() && !s.Variable() && n < |others|
    ensures others[n] - s.min !in Lacking(s, values, others)
  {
  }

  lemma ReplayAt(s: Shape, last: seq<int>, now: seq<int>, n: nat, down: set<int>)
    requires s.WellFormed() && !s.Variable() && n < |last| == |now|
    ensures Replay(down, EventsAt(s, last, now, n))
         == down - (if Tracked(s, last[n]) && last[n] !in now then {last[n] - s.min} else {})
                 + (if Tracked(s, now[n]) && now[n] !in last then {now[n] - s.min} else {})
  {
    var a := if Tracked(s, last[n]) && last[n] !in now then [Event(last[n] - s.min, 0)] else [];
    var b := if Tracked(s, now[n]) && now[n] !in last then [Event(now[n] - s.min, 1)] else [];
    ReplayAppend(down, a, b);
  }

  lemma {:induction false} ReplayUpTo(s: Shape, last: seq<int>, now: seq<int>, n: nat)
    requires s.WellFormed() && !s.Variable() && n <= |last| == |now|
    ensures Replay(Active(s, last), EventsUpTo(s, last, now, n))
         == Active(s, last) - Lacking(s, last[..n], now) + Lacking(s, now[..n], last)
    decreases n
  {
    hide Active, EventsAt;
    if n > 0 {
      ReplayUpTo(s, last, now, n - 1);
      ReplayNext(s, last, now, n - 1, EventsUpTo(s, last, now, n - 1));
    }
  }

  lemma ReplayNext(s: Shape, last: seq<int>, now: seq<int>, n: nat, sofar: seq<Event>)
    requires s.WellFormed() && !s.Variable() && n < |last| == |now|
    requires Replay(Active(s, last), sofar) == Active(s, last) - Lacking(s, last[..n], now) + Lacking(s, now[..n], last)
    ensures Replay(Active(s, last), sofar + EventsAt(s, last, now, n))
         == Active(s, last) - Lacking(s, last[..n + 1], now) + Lacking(s, now[..n + 1], last)
  {
    var released := if Tracked(s, last[n]) && last[n] !in now then {last[n] - s.min} else {};
    var pressed := if Tracked(s, now[n]) && now[n] !in last then {now[n] - s.min} else {};
    var r, p := Lacking(s, last[..n], now), Lacking(s, now[..n], last);
    ReplayAppend(Active(s, last), sofar, EventsAt(s, last, now, n));
    ReplayAt(s, last, now, n, Active(s, last) - r + p);
    LackingSnoc(s, last, n, now);
    LackingSnoc(s, now, n, last);
    assert released !! p by {
      NotLackingItself(s, now[..n], last, n);
    }
    ReleaseThenPress(Active(s, last), r, p, released, pressed);
  }

  lemma ReleaseThenPress(down: set<int>, r: set<int>, p: set<int>, released: set<int>, pressed: set<int>)
    requires released !! p
    ensures down - r + p - released + pressed == down - (r + released) + (p + pressed)
  {
  }

  /** The press and release events of one report take the usages held down before to
      exactly those it holds down, whatever it repeats. */
  lemma ReplayReport(s: Shape, last: seq<int>, now: seq<int>)
    requires s.WellFormed() && !s.Variable() && |last| == |now|
    ensures var (events, kept) := Analyse(s, last, now);
      Replay(Active(s, last), events) == Active(s, kept) && (RollsOver(s, now) ==> events == [] && kept == last)
  {
    ReplayUpTo(s, last, now, |now|);
    assert last[..|now|] == last && now[..|now|] == now;
    ActiveSplit(s, last, now);
  }

  lemma ActiveSplit(s: Shape, last: seq<int>, now: seq<int>)
    requires s.WellFormed() && !s.Variable()
    ensures Active(s, last) - Lacking(s, last, now) + Lacking(s, now, last) == Active(s, now)
  {
    var result := Active(s, last) - Lacking(s, last, now) + Lacking(s, now, last);
    forall i
      ensures i in result <==> i in Active(s, now)
    {
      var v := i + s.min;
      assert i in Active(s, now) <==> v in now && Tracked(s, v);
      assert i in Active(s, last) <==> v in last && Tracked(s, v);
      assert i in Lacking(s, last, now) <==> v in last && Tracked(s, v) && v !in now;
      assert i in Lacking(s, now, last) <==> v in now && Tracked(s, v) && v !in last;
    }
  }

  /** Every event and the values kept after a series of reports. */
  function AnalyseAll(s: Shape, start: seq<int>, reports: seq<seq<int>>): (r: (seq<Event>, seq<int>))
    requires s.WellFormed() && forall i :: 0 <= i < |reports| ==> |reports[i]| == |start|
    ensures |r.1| == |start|
    decreases |reports|
  {
    if reports == [] then ([], start)
    else
      var (events, kept) := AnalyseAll(s, start, reports[..|reports| - 1]);
      var (more, now) := Analyse(s, kept, reports[|reports| - 1]);
      (events + more, now)
  }

  lemma {:induction false} ReplayAllReports(s: Shape, start: seq<int>, reports: seq<seq<int>>)
    requires s.WellFormed() && !s.Variable() && forall i :: 0 <= i < |reports| ==> |reports[i]| == |start|
    ensures var (events, kept) := AnalyseAll(s, start, reports);
      Replay(Active(s, start), events) == Active(s, kept)
    decreases |reports|
  {
    if reports != [] {
      var k := |reports| - 1;
      ReplayAllReports(s, start, reports[..k]);
      var (events, kept) := AnalyseAll(s, start, reports[..k]);
      ReplayReport(s, kept, reports[k]);
      ReplayAppend(Active(s, start), events, Analyse(s, kept, reports[k]).0);
    }
  }

  function ReplayValues(values: seq<int>, events: seq<Event>): (r: seq<int>)
    requires forall e :: e in events ==> 0 <= e.index < |values|
    ensures |r| == |values|
    decreases |events|
  {
    if events == [] then values
    else
      var e := events[|events| - 1];
      ReplayValues(values, events[..|events| - 1])[e.index := e.value]
  }

  /** For an absolute variable field the events carry exactly the change. */
  lemma {:induction false} ReplayVariable(s: Shape, last: seq<int>, now: seq<int>, n: nat)
    requires s.WellFormed() && s.Variable() && !s.Relative() && n <= |last| == |now|
    ensures forall e :: e in EventsUpTo(s, last, now, n) ==> 0 <= e.index < n
    ensures ReplayValues(last, EventsUpTo(s, last, now, n)) == now[..n] + last[n..]
    decreases n
  {
    hide EventsAt, ReplayValues;
    if n == 0 {
      NothingReplayed(last);
    } else {
      ReplayVariable(s, last, now, n - 1);
      ReplayVariableNext(s, last, now, n - 1, EventsUpTo(s, last, now, n - 1));
    }
  }

  lemma NothingReplayed(values: seq<int>)
    ensures ReplayValues(values, []) == values
  {
  }

  lemma ReplayVariableNext(s: Shape, last: seq<int>, now: seq<int>, n: nat, sofar: seq<Event>)
    requires s.WellFormed() && s.Variable() && !s.Relative() && n < |last| == |now|
    requires forall e :: e in sofar ==> 0 <= e.index < n
    requires ReplayValues(last, sofar) == now[..n] + last[n..]
    ensures forall e :: e in sofar + EventsAt(s, last, now, n) ==> 0 <= e.index < n + 1
    ensures ReplayValues(last, sofar + EventsAt(s, last, now, n)) == now[..n + 1] + last[n + 1..]
  {
    SliceStep(last, now, n + 1);
    if now[n] == last[n] {
      assert sofar + EventsAt(s, last, now, n) == sofar;
    } else {
      assert EventsAt(s, last, now, n) == [Event(n, now[n])];
      ReplayValuesSnoc(last, sofar, Event(n, now[n]));
    }
  }

  lemma SliceStep(last: seq<int>, now: seq<int>, n: nat)
    requires 0 < n <= |last| == |now|
    ensures (now[..n - 1] + last[n - 1..])[n - 1 := now[n - 1]] == now[..n] + last[n..]
    ensures now[n - 1] == last[n - 1] ==> now[..n - 1] + last[n - 1..] == now[..n] + last[n..]
  {
  }

  lemma ReplayValuesSnoc(values: seq<int>, events: seq<Event>, e: Event)
    requires 0 <= e.index < |values| && forall e :: e in events ==> 0 <= e.index < |values|
    ensures ReplayValues(values, events + [e]) == ReplayValues(values, events)[e.index := e.value]
  {
    assert (events + [e])[..|events|] == events;
  }

  // ----- what the events of one usage are -----

  /** The values of the events for usage `n`, in order. */
  function EventsFor(events: seq<Event>, n: int): seq<int>
    decreases |events|
  {
    if events == [] then []
    else
      var e := events[|events| - 1];
      EventsFor(events[..|events| - 1], n) + if e.index == n then [e.value] else []
  }

  /** What a series of reports says about usage `n`. */
  function Column(reports: seq<seq<int>>, n: nat): seq<int>
    requires forall i :: 0 <= i < |reports| ==> n < |reports[i]|
    decreases |reports|
  {
    if reports == [] then [] else Column(reports[..|reports| - 1], n) + [reports[|reports| - 1][n]]
  }

  function NonZero(values: seq<int>): seq<int>
    decreases |values|
  {
    if values == [] then []
    else
      var v := values[|values| - 1];
      NonZero(values[..|values| - 1]) + if v != 0 then [v] else []
  }

  /** The values that differ from the one before, of which the first is `start`. */
  function Changes(start: int, values: seq<int>): seq<int>
    decreases |values|
  {
    if values == [] then []
    else
      var k := |values| - 1;
      var before := if k == 0 then start else values[k - 1];
      Changes(start, values[..k]) + if values[k] != before then [values[k]] else []
  }

  function Total(values: seq<int>): int
    decreases |values|
  {
    if values == [] then 0 else Total(values[..|values| - 1]) + values[|values| - 1]
  }

  lemma {:induction false} EventsForAppend(a: seq<Event>, b: seq<Event>, n: int)
    ensures EventsFor(a + b, n) == EventsFor(a, n) + EventsFor(b, n)
    decreases |b|
  {
    if b == [] {
      assert a + b == a;
    } else {
      assert (a + b)[..|a + b| - 1] == a + b[..|b| - 1];
      EventsForAppend(a, b[..|b| - 1], n);
    }
  }

  lemma EventsForOne(e: Event, n: int)
    ensures EventsFor([e], n) == if e.index == n then [e.value] else []
  {
    assert [e][..0] == [];
  }

  lemma EventsForAt(s: Shape, last: seq<int>, now: seq<int>, m: nat, n: nat)
    requires s.WellFormed() && s.Variable() && m < |last| == |now| && n < |now|
    ensures EventsFor(EventsAt(s, last, now, m), n) ==
      if m == n && now[n] != (if s.Relative() then 0 else last[n]) then [now[n]] else []
  {
    EventsForOne(Event(m, now[m]), n);
    NothingHeard(n);
  }

  /** The values a variable field reports for usage `n` in one report: at most one. */
  lemma {:induction false} EventsForUpTo(s: Shape, last: seq<int>, now: seq<int>, k: nat, n: nat)
    requires s.WellFormed() && s.Variable() && k <= |last| == |now| && n < |now|
    ensures EventsFor(EventsUpTo(s, last, now, k), n) ==
      if n < k && now[n] != (if s.Relative() then 0 else last[n]) then [now[n]] else []
    decreases k
  {
    hide EventsAt, EventsFor;
    if k == 0 {
      NothingHeard(n);
    } else {
      EventsForUpTo(s, last, now, k - 1, n);
      EventsForAppend(EventsUpTo(s, last, now, k - 1), EventsAt(s, last, now, k - 1), n);
      EventsForAt(s, last, now, k - 1, n);
    }
  }

  lemma AnalyseVariable(s: Shape, last: seq<int>, now: seq<int>, n: nat)
    requires s.WellFormed() && s.Variable() && |last| == |now| && n < |now|
    ensures Analyse(s, last, now).1 == now
    ensures EventsFor(Analyse(s, last, now).0, n) ==
      if now[n] != (if s.Relative() then 0 else last[n]) then [now[n]] else []
  {
    EventsForUpTo(s, last, now, |now|, n);
  }

  lemma {:induction false} KeptIsLast(s: Shape, start: seq<int>, reports: seq<seq<int>>)
    requires s.WellFormed() && s.Variable() && forall i :: 0 <= i < |reports| ==> |reports[i]| == |start|
    ensures AnalyseAll(s, start, reports).1 == if reports == [] then start else reports[|reports| - 1]
  {
  }

  /** For a relative usage the events are, in order, exactly the values reported that are not zero;
      so the listener's sum is the sum of all that was reported. */
  lemma {:induction false} RelativeEvents(s: Shape, start: seq<int>, reports: seq<seq<int>>, n: nat)
    requires s.WellFormed() && s.Variable() && s.Relative() && n < |start|
    requires forall i :: 0 <= i < |reports| ==> |reports[i]| == |start|
    ensures var heard := EventsFor(AnalyseAll(s, start, reports).0, n);
      heard == NonZero(Column(reports, n)) && Total(heard) == Total(Column(reports, n))
    decreases |reports|
  {
    hide Analyse, EventsFor, NonZero, Total;
    if reports == [] {
      NothingHeard(n);
      NothingCounted();
    } else {
      var k := |reports| - 1;
      RelativeEvents(s, start, reports[..k], n);
      var (events, kept) := AnalyseAll(s, start, reports[..k]);
      AnalyseVariable(s, kept, reports[k], n);
      EventsForAppend(events, Analyse(s, kept, reports[k]).0, n);
      OneMoreReported(Column(reports[..k], n), reports[k][n]);
    }
  }

  lemma NothingHeard(n: int)
    ensures EventsFor([], n) == []
  {
  }

  lemma NothingCounted()
    ensures NonZero([]) == [] && Total([]) == 0
  {
  }

  lemma OneMoreReported(values: seq<int>, v: int)
    ensures NonZero(values + [v]) == NonZero(values) + if v != 0 then [v] else []
    ensures Total(values + [v]) == Total(values) + v
    ensures Total(NonZero(values) + [v]) == Total(NonZero(values)) + v && NonZero(values) + [] == NonZero(values)
  {
    assert (values + [v])[..|values|] == values;
    assert (NonZero(values) + [v])[..|NonZero(values)|] == NonZero(values);
  }

  /** For an absolute usage they are, in order, exactly the values that differ from the one before. */
  lemma {:induction false} AbsoluteEvents(s: Shape, start: seq<int>, reports: seq<seq<int>>, n: nat)
    requires s.WellFormed() && s.Variable() && !s.Relative() && n < |start|
    requires forall i :: 0 <= i < |reports| ==> |reports[i]| == |start|
    ensures EventsFor(AnalyseAll(s, start, reports).0, n) == Changes(start[n], Column(reports, n))
    decreases |reports|
  {
    hide Analyse, EventsFor;
    if reports == [] {
      NothingHeard(n);
    } else {
      var k := |reports| - 1;
      AbsoluteEvents(s, start, reports[..k], n);
      var (events, kept) := AnalyseAll(s, start, reports[..k]);
      AnalyseVariable(s, kept, reports[k], n);
      KeptIsLast(s, start, reports[..k]);
      EventsForAppend(events, Analyse(s, kept, reports[k]).0, n);
      OneMoreChange(start[n], Column(reports[..k], n), reports[k][n]);
    }
  }

  lemma OneMoreChange(start: int, values: seq<int>, v: int)
    ensures var before := if values == [] then start else values[|values| - 1];
      Changes(start, values + [v]) == Changes(start, values) + if v != before then [v] else []
  {
    assert (values + [v])[..|values|] == values;
  }

  lemma ArrayEventsAtAreChanges(s: Shape, last: seq<int>, now: seq<int>, n: nat)
    requires s.WellFormed() && !s.Variable() && n < |last| == |now|
    ensures forall e :: e in EventsAt(s, last, now, n) ==>
      || (e.value == 0 && e.index in Active(s, last) && e.index !in Active(s, now))
      || (e.value == 1 && e.index in Active(s, now) && e.index !in Active(s, last))
  {
    ActiveIff(s, last, last[n]);
    ActiveIff(s, now, last[n]);
    ActiveIff(s, last, now[n]);
    ActiveIff(s, now, now[n]);
  }

  lemma ActiveIff(s: Shape, values: seq<int>, v: int)
    requires s.WellFormed() && !s.Variable()
    ensures v - s.min in Active(s, values) <==> v in values && Tracked(s, v)
  {
  }

  /** The events of an array field are presses of usages that were not down, with value 1, and
      releases of usages that are down no more, with value 0, and nothing else. */
  lemma {:induction false} ArrayEventsAreChanges(s: Shape, last: seq<int>, now: seq<int>, n: nat)
    requires s.WellFormed() && !s.Variable() && n <= |last| == |now|
    ensures forall e :: e in EventsUpTo(s, last, now, n) ==>
      || (e.value == 0 && e.index in Active(s, last) && e.index !in Active(s, now))
      || (e.value == 1 && e.index in Active(s, now) && e.index !in Active(s, last))
    decreases n
  {
    hide EventsAt, Active;
    if n > 0 {
      ArrayEventsAreChanges(s, last, now, n - 1);
      ArrayEventsAtAreChanges(s, last, now, n - 1);
    }
  }

  /** A report with an ErrorRollOver in an array field is ignored. */
  lemma RollOverIsIgnored(s: Shape, last: seq<int>, now: seq<int>, n: nat)
    requires s.WellFormed() && !s.Variable() && |last| == |now| && n < |now|
    requires s.min <= now[n] <= s.max && s.usage[now[n] - s.min] == 0x7_0001
    ensures Analyse(s, last, now) == ([], last)
  {
    assert IsRollOver(s, now[n]);
  }

  // ----- the driver's objects -----

  class HidField {
    const shape: Shape
    var value: seq<int>

    ghost predicate Valid()
      reads this
    {
      shape.WellFormed() && |value| == shape.count
    }

    ghost function AsEntry(): Entry
      reads this
    {
      Entry(shape, value)
    }

    /** hid_register_field zeroes the values. */
    constructor (s: Shape)
      requires s.WellFormed()
      ensures Valid() && shape == s && AsEntry().Sound() && forall v :: v in value ==> v == 0
    {
      shape := s;
      value := seq(s.count, _ => 0);
    }

    /** hid_set_field */
    method SetField(offset: nat, v: int) returns (ok: bool)
      requires Valid()
      modifies this
      ensures Valid()
      ensures ok <==> offset < shape.count && Accepted(shape, v)
      ensures value == if ok then old(value)[offset := v] else old(value)
      ensures old(AsEntry().Sound()) && (shape.min < 0 || shape.max < Pow2(shape.size)) ==> AsEntry().Sound()
    {
      if offset >= shape.count {
        return false;
      }
      if shape.min < 0 {
        SaturatingRoundTrip(v, shape.size);
        if v != Snto32(S32ton(v, shape.size), shape.size) {
          return false;
        }
      }
      if v > shape.max || v < shape.min {
        return false;
      }
      value := value[offset := v];
      return true;
    }

    /** hid_output_field */
    method OutputField(data: array<Byte>)
      requires Valid() && shape.InsideOf(data[..])
      modifies data
      ensures ReportBits(data[..]) == FieldBits(old(ReportBits(data[..])), shape, value, |value|)
    {
      for n := 0 to shape.count
        invariant ReportBits(data[..]) == FieldBits(old(ReportBits(data[..])), shape, value, n)
      {
        OutputValue(data, n);
      }
    }

    method OutputValue(data: array<Byte>, n: nat)
      requires Valid() && shape.InsideOf(data[..]) && n < shape.count
      modifies data
      ensures ReportBits(data[..])
           == PutBits(old(ReportBits(data[..])), shape.Position(n), shape.size, Encode(shape, value[n]))
    {
      PositionIs(shape, n);
      var v := value[n];
      if shape.min < 0 {
        S32tonFits(v, shape.size);
        Pow2Bounds(shape.size);
        Implement(data, shape.offset + n * shape.size, shape.size, S32ton(v, shape.size));
      } else {
        Implement(data, shape.offset + n * shape.size, shape.size, v % 0x1_0000_0000);
      }
    }

    /** The first loop of hid_input_field: fetch the values, unless one of them is a roll-over. */
    method Fetch(data: array<Byte>) returns (rollOver: bool, now: seq<int>)
      requires Valid() && shape.InsideOf(data[..])
      ensures rollOver == RollsOver(shape, ValuesIn(ReportBits(data[..]), shape))
      ensures !rollOver ==> now == ValuesIn(ReportBits(data[..]), shape)
    {
      now := [];
      ghost var values := ValuesIn(ReportBits(data[..]), shape);
      for n := 0 to shape.count
        invariant now == values[..n]
        invariant forall i :: 0 <= i < n ==> !IsRollOver(shape, values[i])
      {
        var v := FetchValue(data, n);
        if !shape.Variable() && shape.min <= v <= shape.max && shape.usage[v - shape.min] == ERROR_ROLL_OVER {
          assert IsRollOver(shape, values[n]);
          return true, [];
        }
        now := now + [v];
      }
      rollOver := false;
    }

    method FetchValue(data: array<Byte>, n: nat) returns (v: int)
      requires Valid() && shape.InsideOf(data[..]) && n < shape.count
      ensures v == ValuesIn(ReportBits(data[..]), shape)[n]
    {
      PositionIs(shape, n);
      SlotsInside(shape);
      var at := shape.offset + n * shape.size;
      ExtractReadsBits(data[..], at, shape.size);
      var u := Extract(data[..], at, shape.size);
      Snto32Decodes(u, shape.size);
      v := if shape.min < 0 then Snto32(u, shape.size) else u;
    }

    /** The second loop of hid_input_field: report what changed. */
    method Compare(now: seq<int>) returns (events: seq<Event>)
      requires Valid() && |now| == shape.count
      ensures events == EventsUpTo(shape, value, now, shape.count)
    {
      events := [];
      for n := 0 to shape.count
        invariant events == EventsUpTo(shape, value, now, n)
      {
        var more := CompareAt(now, n);
        events := events + more;
      }
    }

    method CompareAt(now: seq<int>, n: nat) returns (events: seq<Event>)
      requires Valid() && n < |now| == shape.count
      ensures events == EventsAt(shape, value, now, n)
    {
      if shape.Variable() {
        if shape.Relative() {
          if now[n] == 0 {
            return [];
          }
        } else if now[n] == value[n] {
          return [];
        }
        return [Event(n, now[n])];
      }
      var released, pressed := [], [];
      if shape.min <= value[n] <= shape.max && shape.usage[value[n] - shape.min] != 0 && value[n] !in now {
        released := [Event(value[n] - shape.min, 0)];
      }
      if shape.min <= now[n] <= shape.max && shape.usage[now[n] - shape.min] != 0 && now[n] !in value {
        pressed := [Event(now[n] - shape.min, 1)];
      }
      return released + pressed;
    }

    /** hid_input_field */
    method InputField(data: array<Byte>) returns (events: seq<Event>)
      requires Valid() && shape.InsideOf(data[..])
      modifies this
      ensures Valid() && (events, value) == Analyse(shape, old(value), ValuesIn(ReportBits(data[..]), shape))
      ensures old(AsEntry().Sound()) ==> AsEntry().Sound()
    {
      var rollOver, now := Fetch(data);
      if rollOver {
        return [];
      }
      events := Compare(now);
      ValuesAreRepresentable(data[..], shape);
      value := now;
    }
  }

  lemma ValuesAreRepresentable(data: seq<Byte>, s: Shape)
    requires s.WellFormed() && s.End() <= 8 * |data|
    ensures forall v :: v in ValuesIn(ReportBits(data), s) ==> Representable(s, v)
  {
    SlotsInside(s);
    forall i | 0 <= i < s.count
      ensures Representable(s, ValueAt(ReportBits(data), s, i))
    {
      DecodedIsRepresentable(s, FromBits(ReportBits(data)[s.Position(i)..s.Position(i) + s.size]));
    }
  }

  ghost function Entries(fields: seq<HidField>): seq<Entry>
    reads fields
  {
    seq(|fields|, i requires 0 <= i < |fields| reads fields => fields[i].AsEntry())
  }

  /** hid_output_report */
  method OutputReport(fields: seq<HidField>, data: array<Byte>)
    requires forall f :: f in fields ==> f.Valid() && f.shape.InsideOf(data[..])
    modifies data
    ensures WellFormed(Entries(fields))
    ensures ReportBits(data[..]) == OutputBits(old(ReportBits(data[..])), Entries(fields), |fields|)
  {
    hide OutputBits, FieldBits;
    ghost var entries := Entries(fields);
    NoneWritten(ReportBits(data[..]), entries);
    for n := 0 to |fields|
      invariant WellFormed(entries) && Entries(fields) == entries
      invariant ReportBits(data[..]) == OutputBits(old(ReportBits(data[..])), entries, n)
    {
      assert fields[n].AsEntry() == entries[n];
      NextWritten(old(ReportBits(data[..])), entries, n);
      fields[n].OutputField(data);
    }
  }

  lemma NoneWritten(bits: seq<bool>, entries: seq<Entry>)
    requires WellFormed(entries)
    ensures OutputBits(bits, entries, 0) == bits
  {
  }

  lemma NextWritten(bits: seq<bool>, entries: seq<Entry>, n: nat)
    requires WellFormed(entries) && n < |entries|
    ensures OutputBits(bits, entries, n + 1) ==
      FieldBits(OutputBits(bits, entries, n), entries[n].shape, entries[n].values, |entries[n].values|)
  {
  }
}
