/** Flow control of the CDC ACM driver's read side: what a throttled tty does not take stays in
    the read URB, which is resubmitted only when nothing is left over. */
module AcmFlow {
  import opened Bits

  const TTY_FLIPBUF_SIZE := 512

  datatype Event =
    | Received(bytes: seq<Byte>, ok: bool)   // the read URB completes
    | Throttle
    | Unthrottle

  // ----- the specification -----

  /** The read side: `held` is what the URB's buffer has for the tty, `ok` and `inFlight` are the
      URB's status, and `inserted` and `received` are histories. */
  datatype Flow = Flow(
    throttle: bool, ok: bool, inFlight: bool, held: seq<Byte>, flips: nat, pushes: nat,
    inserted: seq<Byte>, received: seq<Byte>)

  /** Whether the tty throttles in the course of its n-th push. */
  type Raises = nat -> bool

  /** tty_flip_buffer_push: the line discipline takes what is there, and may throttle. */
  function Pushed(raises: Raises, s: Flow): Flow {
    s.(flips := 0, pushes := s.pushes + 1, throttle := s.throttle || raises(s.pushes))
  }

  /** One byte for the tty; a full flip buffer is pushed first. */
  function InsertedOne(raises: Raises, s: Flow): (t: Flow)
    requires s.held != []
    ensures t.held == s.held[1..]
  {
    var p := if s.flips >= TTY_FLIPBUF_SIZE then Pushed(raises, s) else s;
    p.(held := s.held[1..], flips := p.flips + 1, inserted := s.inserted + [s.held[0]])
  }

  /** The insertion loop: byte by byte until nothing is left or the tty throttles. */
  function InsertedFrom(raises: Raises, s: Flow): Flow
    decreases |s.held|
  {
    if s.held == [] || s.throttle then s else InsertedFrom(raises, InsertedOne(raises, s))
  }

  /** acm_read_bulk */
  function BulkRead(raises: Raises, s: Flow): Flow {
    var t := if s.ok && !s.throttle then Pushed(raises, InsertedFrom(raises, s)) else s;
    if t.throttle then t else t.(held := [], inFlight := true)
  }

  /** One event; an URB that is not in flight does not complete. */
  function Next(raises: Raises, s: Flow, e: Event): Flow {
    match e
    case Received(bytes, good) =>
      if !s.inFlight then s
      else
        BulkRead(raises, s.(held := bytes, ok := good, inFlight := false,
                            received := s.received + if good then bytes else []))
    case Throttle => s.(throttle := true)
    case Unthrottle =>
      if s.inFlight then s.(throttle := false) else BulkRead(raises, s.(throttle := false))
  }

  function RunAll(raises: Raises, s: Flow, events: seq<Event>): Flow
    decreases |events|
  {
    if events == [] then s
    else Next(raises, RunAll(raises, s, events[..|events| - 1]), events[|events| - 1])
  }

  /** The events of a run that happen: all but completions of an URB that is not in flight. */
  function Happened(raises: Raises, s: Flow, events: seq<Event>): seq<Event>
    decreases |events|
  {
    if events == [] then []
    else
      var init, last := events[..|events| - 1], events[|events| - 1];
      Happened(raises, s, init) + if last.Received? && !RunAll(raises, s, init).inFlight then [] else [last]
  }

  /** The bytes of all completions without error. */
  function Intact(events: seq<Event>): seq<Byte>
    decreases |events|
  {
    if events == [] then []
    else
      var last := events[|events| - 1];
      Intact(events[..|events| - 1]) + if last.Received? && last.ok then last.bytes else []
  }

  // ----- what every run keeps -----

  /** Bytes that came with an error are not for the tty. */
  function Left(s: Flow): seq<Byte> { if s.ok then s.held else [] }

  /** The bytes inserted and the bytes left are the bytes received, in order, and none of them went
      into a full flip buffer; the URB rests only while the tty is throttled, and holds nothing while
      it is in flight. */
  ghost predicate Good(s: Flow) {
    && s.received == s.inserted + Left(s) && s.flips <= 512
    && (s.inFlight ==> s.held == []) && (!s.inFlight ==> s.throttle)
  }

  /** The loop moves bytes from the front of what is held to what is inserted. */
  lemma {:induction false} InsertionConserves(raises: Raises, s: Flow)
    ensures var t := InsertedFrom(raises, s);
      && s.inserted <= t.inserted && t.inserted + t.held == s.inserted + s.held
      && t == s.(throttle := t.throttle, held := t.held, flips := t.flips, pushes := t.pushes, inserted := t.inserted)
      && (t.held == [] || t.throttle) && t.pushes >= s.pushes
      && (s.flips <= 512 ==> t.flips <= 512)
    decreases |s.held|
  {
    if s.held != [] && !s.throttle {
      var one := InsertedOne(raises, s);
      InsertionConserves(raises, one);
      assert one.inserted + one.held == s.inserted + s.held;
    }
  }

  lemma BulkReadConserves(raises: Raises, s: Flow)
    requires s.received == s.inserted + Left(s) && !s.inFlight && s.flips <= 512
    ensures var t := BulkRead(raises, s);
      Good(t) && t.received == s.received && s.inserted <= t.inserted && (t.inFlight <==> !t.throttle)
  {
    InsertionConserves(raises, s);
  }

  lemma NextKeepsGood(raises: Raises, s: Flow, e: Event)
    requires Good(s)
    ensures var t := Next(raises, s, e);
      && Good(t) && s.inserted <= t.inserted
      && t.received == s.received + if e.Received? && e.ok && s.inFlight then e.bytes else []
  {
    hide InsertedFrom, BulkRead;
    match e {
      case Received(bytes, good) =>
        if s.inFlight {
          BulkReadConserves(raises, s.(held := bytes, ok := good, inFlight := false,
                                       received := s.received + if good then bytes else []));
        }
      case Throttle =>
      case Unthrottle =>
        if !s.inFlight {
          BulkReadConserves(raises, s.(throttle := false));
        }
    }
  }

  lemma IntactGrows(events: seq<Event>, e: Event)
    ensures Intact(events + [e]) == Intact(events) + if e.Received? && e.ok then e.bytes else []
  {
    assert (events + [e])[..|events|] == events;
  }

  /** However completions, throttling and unthrottling follow each other, and wherever a push
      throttles the tty: what was inserted followed by what is left is what the completions that
      happened brought without error, in order. */
  lemma {:induction false} RunConserves(raises: Raises, s: Flow, events: seq<Event>)
    requires Good(s)
    ensures var t := RunAll(raises, s, events);
      && Good(t) && s.inserted <= t.inserted
      && t.inserted + Left(t) == s.received + Intact(Happened(raises, s, events))
    decreases |events|
  {
    hide Next, Intact, InsertedFrom;
    NothingIntact();
    if events != [] {
      var init, last := events[..|events| - 1], events[|events| - 1];
      RunConserves(raises, s, init);
      var t := RunAll(raises, s, init);
      NextKeepsGood(raises, t, last);
      IntactGrows(Happened(raises, s, init), last);
      var more := if last.Received? && last.ok && t.inFlight then last.bytes else [];
      var before := Intact(Happened(raises, s, init));
      assert s.received + before + more == s.received + (before + more);
      assert Happened(raises, s, init) + [] == Happened(raises, s, init);
    }
  }

  lemma NothingIntact()
    ensures Intact([]) == []
  {
  }

  lemma {:induction false} QuietInsertion(raises: Raises, s: Flow)
    requires !s.throttle && forall n :: n >= s.pushes ==> !raises(n)
    ensures !InsertedFrom(raises, s).throttle
    decreases |s.held|
  {
    if s.held != [] {
      QuietInsertion(raises, InsertedOne(raises, s));
    }
  }

  /** Nothing stays behind: after an unthrottling during which the tty does not throttle again it
      has everything received, and the URB is on its way for more. */
  lemma UnthrottleDrains(raises: Raises, s: Flow)
    requires Good(s) && forall n :: n >= s.pushes ==> !raises(n)
    ensures var t := Next(raises, s, Unthrottle); t.inFlight && !t.throttle && t.inserted == t.received == s.received
  {
    hide InsertedFrom;
    NextKeepsGood(raises, s, Unthrottle);
    InsertionConserves(raises, s.(throttle := false));
    QuietInsertion(raises, s.(throttle := false));
  }

  /** From the moment the tty throttles until it unthrottles it gets nothing, whatever completes. */
  lemma {:induction false} ThrottledGetsNothing(raises: Raises, s: Flow, events: seq<Event>)
    requires Good(s) && Unthrottle !in events
    ensures var t := RunAll(raises, Next(raises, s, Throttle), events); t.throttle && t.inserted == s.inserted
    decreases |events|
  {
    hide InsertedFrom;
    if events != [] {
      var init, last := events[..|events| - 1], events[|events| - 1];
      assert last in events && Unthrottle !in init;
      ThrottledGetsNothing(raises, s, init);
    }
  }

  // ----- the driver -----

  class Acm {
    const data: array<Byte>            // the transfer buffer
    const raises: Raises
    var throttle: bool
    var ok: bool                       // urb->status is zero
    var inFlight: bool                 // urb->status is -EINPROGRESS
    var actualLength: nat
    var flipCount: nat
    var pushes: nat
    ghost var inserted: seq<Byte>      // everything given to tty_insert_flip_char
    ghost var received: seq<Byte>      // everything received without error

    ghost function View(): Flow
      requires actualLength <= data.Length
      reads this, data
    {
      Flow(throttle, ok, inFlight, data[..actualLength], flipCount, pushes, inserted, received)
    }

    ghost predicate Valid()
      reads this, data
    {
      actualLength <= data.Length && Good(View())
    }

    constructor (size: nat, raises: Raises)
      ensures Valid() && View() == Flow(false, true, true, [], 0, 0, [], [])
      ensures this.raises == raises && data.Length == size && fresh(data)
    {
      data := new Byte[size](_ => 0);
      this.raises := raises;
      throttle, ok, inFlight, actualLength, flipCount, pushes := false, true, true, 0, 0, 0;
      inserted, received := [], [];
    }

    method Push()
      requires actualLength <= data.Length
      modifies this`flipCount, this`pushes, this`throttle
      ensures View() == Pushed(raises, old(View()))
    {
      flipCount := 0;
      throttle := throttle || raises(pushes);
      pushes := pushes + 1;
    }

    /** What the loop has come to after `i` bytes. */
    ghost function Midway(i: nat): Flow
      requires i <= actualLength <= data.Length
      reads this, data
    {
      View().(held := data[i..actualLength])
    }

    method InsertOne(i: nat)
      requires i < actualLength <= data.Length
      modifies this`flipCount, this`pushes, this`throttle, this`inserted
      ensures Midway(i + 1) == InsertedOne(raises, old(Midway(i)))
    {
      assert data[i + 1..actualLength] == Midway(i).held[1..];
      if flipCount >= TTY_FLIPBUF_SIZE {
        Push();
      }
      inserted := inserted + [data[i]];
      flipCount := flipCount + 1;
    }

    /** The insertion loop of acm_read_bulk: how many bytes the tty took before it throttled. */
    method Insert() returns (i: nat)
      requires actualLength <= data.Length
      modifies this`flipCount, this`pushes, this`throttle, this`inserted
      ensures i <= actualLength && Midway(i) == InsertedFrom(raises, old(View()))
    {
      hide InsertedOne;
      i := 0;
      assert Midway(0) == View();
      while i < actualLength && !throttle
        invariant i <= actualLength && InsertedFrom(raises, Midway(i)) == InsertedFrom(raises, old(View()))
      {
        InsertOne(i);
        i := i + 1;
      }
    }

    /** memmove(data, data + i, actual_length - i) */
    method MoveDown(i: nat)
      requires i <= actualLength <= data.Length
      modifies data, this`actualLength
      ensures actualLength == old(actualLength) - i && data[..actualLength] == old(data[i..actualLength])
    {
      var left := actualLength - i;
      ghost var rest := data[i..actualLength];
      for k := 0 to left
        invariant forall j :: 0 <= j < k ==> data[j] == rest[j]
        invariant forall j :: k <= j < left ==> data[i + j] == rest[j]
      {
        data[k] := data[i + k];
      }
      actualLength := left;
    }

    /** acm_read_bulk */
    method ReadBulk()
      requires actualLength <= data.Length && !inFlight
      modifies this, data
      ensures actualLength <= data.Length && View() == BulkRead(raises, old(View()))
    {
      hide InsertedFrom;
      var i := 0;
      assert data[0..actualLength] == data[..actualLength];
      if ok && !throttle {
        i := Insert();
        Push();
      }
      if throttle {
        MoveDown(i);
      } else {
        actualLength := 0;
        inFlight := true;
      }
    }

    /** The host controller completes the URB, and the driver handles it. */
    method Completed(bytes: seq<Byte>, good: bool)
      requires Valid() && inFlight && |bytes| <= data.Length
      modifies this, data
      ensures Valid() && View() == Next(raises, old(View()), Received(bytes, good))
    {
      hide BulkRead;
      NextKeepsGood(raises, View(), Received(bytes, good));
      forall k | 0 <= k < |bytes| {
        data[k] := bytes[k];
      }
      actualLength, ok, inFlight := |bytes|, good, false;
      received := received + if good then bytes else [];
      assert data[..actualLength] == bytes;
      ReadBulk();
    }

    /** acm_tty_throttle */
    method TtyThrottle()
      requires Valid()
      modifies this`throttle
      ensures Valid() && View() == Next(raises, old(View()), Throttle)
    {
      throttle := true;
    }

    /** acm_tty_unthrottle: take up what was left over. */
    method TtyUnthrottle()
      requires Valid()
      modifies this, data
      ensures Valid() && View() == Next(raises, old(View()), Unthrottle)
    {
      hide BulkRead;
      NextKeepsGood(raises, View(), Unthrottle);
      throttle := false;
      if !inFlight {
        ReadBulk();
      }
    }

    /** Any run of events; RunConserves says what it comes to. */
    method Run(events: seq<Event>)
      requires Valid() && forall e :: e in events && e.Received? ==> |e.bytes| <= data.Length
      modifies this, data
      ensures Valid() && View() == RunAll(raises, old(View()), events)
      ensures inserted + Left(View()) == old(received) + Intact(Happened(raises, old(View()), events))
      ensures old(inserted) <= inserted
    {
      hide BulkRead, InsertedFrom, Intact, Happened;
      for k := 0 to |events|
        invariant Valid() && View() == RunAll(raises, old(View()), events[..k])
      {
        assert events[..k + 1][..k] == events[..k];
        match events[k] {
          case Received(bytes, good) =>
            if inFlight {
              Completed(bytes, good);
            }
          case Throttle => TtyThrottle();
          case Unthrottle => TtyUnthrottle();
        }
      }
      assert events[..|events|] == events;
      RunConserves(raises, old(View()), events);
    }
  }
}
