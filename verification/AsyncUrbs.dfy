/** The life of asynchronous URBs in usbdevfs: submitted by a process they wait on the pending
    list; completed, discarded or destroyed they come to the completed list; reaped they are freed. */
module AsyncUrbs {

  /** Each URB is a number, in the order of submission; `urbs` holds the user's pointer for each. */
  datatype Devices = Devices(
    urbs: seq<nat>,
    pending: seq<nat>,         // ps->async_pending
    completed: seq<nat>,       // ps->async_completed
    transit: seq<nat>,         // taken off the pending list to be unlinked, and not yet completed
    freed: seq<nat>,           // free_async, in order
    submitting: set<nat>,      // on the list already, but usb_submit_urb has not returned
    host: set<nat>)            // with the host controller

  datatype Step =
    | NewPending(userurb: nat)         // alloc_async and async_newpending
    | Accepted(id: nat)                // usb_submit_urb succeeds
    | Refused(id: nat)                 // usb_submit_urb fails: async_removepending, free_async
    | Complete(id: nat)                // async_completed, also when called from usb_unlink_urb
    | Discard(userurb: nat)            // proc_unlinkurb up to the unlink
    | TakeFirst                        // one turn of destroy_all_async up to the unlink
    | Reap                             // async_getcompleted and free_async

  /** list_del of one entry */
  function Without(list: seq<nat>, id: nat): (r: seq<nat>)
    ensures multiset(r) == if id in list then multiset(list) - multiset{id} else multiset(list)
  {
    if list == [] then []
    else if list[0] == id then
      assert list == [list[0]] + list[1..];
      list[1..]
    else
      assert list == [list[0]] + list[1..];
      [list[0]] + Without(list[1..], id)
  }

  ghost predicate Known(list: seq<nat>, n: nat) {
    forall j :: 0 <= j < |list| ==> list[j] < n
  }

  /** async_getpending: the first entry on the list with the user's pointer. */
  function Find(list: seq<nat>, urbs: seq<nat>, userurb: nat): (k: nat)
    requires Known(list, |urbs|)
    ensures k <= |list| && (k < |list| ==> urbs[list[k]] == userurb)
    ensures forall j :: 0 <= j < k ==> urbs[list[j]] != userurb
  {
    if list == [] || urbs[list[0]] == userurb then 0 else 1 + Find(list[1..], urbs, userurb)
  }

  /** All places where a URB can be. */
  function Places(s: Devices): multiset<nat> {
    multiset(s.pending) + multiset(s.completed) + multiset(s.transit) + multiset(s.freed)
  }

  ghost predicate Placed(s: Devices) {
    forall id: nat :: Places(s)[id] == if id < |s.urbs| then 1 else 0
  }

  ghost predicate Tracked(s: Devices) {
    forall id: nat :: id in s.host || id in s.submitting <==> id in s.pending || id in s.transit
  }

  /** Every URB is in exactly one place, and there once; the host controller will complete exactly
      those that are pending or in transit, once they are submitted. */
  ghost predicate Good(s: Devices) {
    Placed(s) && Tracked(s) && s.host !! s.submitting && Known(s.pending, |s.urbs|)
  }

  ghost predicate Enabled(s: Devices, step: Step) {
    match step
    case Accepted(id) => id in s.submitting
    case Refused(id) => id in s.submitting
    case Complete(id) => id in s.host
    case _ => true
  }

  function Next(s: Devices, step: Step): Devices
    requires Known(s.pending, |s.urbs|)
  {
    match step
    case NewPending(userurb) =>
      s.(urbs := s.urbs + [userurb], pending := s.pending + [|s.urbs|], submitting := s.submitting + {|s.urbs|})
    case Accepted(id) => s.(submitting := s.submitting - {id}, host := s.host + {id})
    case Refused(id) =>
      s.(submitting := s.submitting - {id}, pending := Without(s.pending, id), transit := Without(s.transit, id),
         freed := s.freed + [id])
    case Complete(id) =>
      s.(host := s.host - {id}, pending := Without(s.pending, id), transit := Without(s.transit, id),
         completed := s.completed + [id])
    case Discard(userurb) =>
      var k := Find(s.pending, s.urbs, userurb);
      if k == |s.pending| then s
      else s.(pending := s.pending[..k] + s.pending[k + 1..], transit := s.transit + [s.pending[k]])
    case TakeFirst =>
      if s.pending == [] then s else s.(pending := s.pending[1..], transit := s.transit + [s.pending[0]])
    case Reap =>
      if s.completed == [] then s else s.(completed := s.completed[1..], freed := s.freed + [s.completed[0]])
  }

  lemma SplitAt(list: seq<nat>, k: nat)
    requires k < |list|
    ensures multiset(list) == multiset(list[..k] + list[k + 1..]) + multiset{list[k]}
  {
    assert list == list[..k] + [list[k]] + list[k + 1..];
  }

  /** Where a URB is listed it is a URB, and nowhere else. */
  lemma OnePlace(s: Devices, id: nat)
    requires Placed(s)
    ensures id in s.pending ==> id !in s.completed && id !in s.transit && id !in s.freed && id < |s.urbs|
    ensures id in s.transit ==> id !in s.completed && id !in s.freed && id < |s.urbs|
    ensures id in s.completed ==> id !in s.freed && id < |s.urbs|
    ensures id in s.freed ==> id < |s.urbs|
    ensures multiset(s.pending)[id] <= 1 && multiset(s.transit)[id] <= 1
  {
    assert Places(s)[id]
        == multiset(s.pending)[id] + multiset(s.completed)[id] + multiset(s.transit)[id] + multiset(s.freed)[id];
    assert id in multiset(s.pending) <==> id in s.pending;
    assert id in multiset(s.completed) <==> id in s.completed;
    assert id in multiset(s.transit) <==> id in s.transit;
    assert id in multiset(s.freed) <==> id in s.freed;
  }

  lemma AllKnown(s: Devices)
    requires Placed(s)
    ensures Known(s.pending, |s.urbs|)
  {
    forall j | 0 <= j < |s.pending|
      ensures s.pending[j] < |s.urbs|
    {
      OnePlace(s, s.pending[j]);
    }
  }

  lemma WithoutMember(list: seq<nat>, id: nat, other: nat)
    requires multiset(list)[id] <= 1
    ensures other in Without(list, id) <==> other in list && other != id
  {
    assert other in Without(list, id) <==> other in multiset(Without(list, id));
    assert other in list <==> other in multiset(list);
    assert id in list <==> id in multiset(list);
  }

  lemma StepKeepsGood(s: Devices, step: Step)
    requires Good(s) && Enabled(s, step)
    ensures Good(Next(s, step))
  {
    hide Placed, Tracked, Without, Find;
    match step
    case NewPending(userurb) => NewKeepsGood(s, userurb);
    case Accepted(id) => AcceptKeepsGood(s, id);
    case Refused(id) => LeaveKeepsGood(s, id, Next(s, step));
    case Complete(id) => LeaveKeepsGood(s, id, Next(s, step));
    case Discard(userurb) =>
      var k := Find(s.pending, s.urbs, userurb);
      if k < |s.pending| {
        TakeKeepsGood(s, k, Next(s, step));
      }
    case TakeFirst =>
      if s.pending != [] {
        assert s.pending[..0] + s.pending[0 + 1..] == s.pending[1..];
        TakeKeepsGood(s, 0, Next(s, step));
      }
    case Reap => ReapKeepsGood(s, Next(s, step));
  }

  lemma AcceptKeepsGood(s: Devices, id: nat)
    requires Good(s) && id in s.submitting
    ensures Good(Next(s, Accepted(id)))
  {
    var t := Next(s, Accepted(id));
    assert Places(t) == Places(s);
    assert forall other: nat :: other in t.host || other in t.submitting <==> other in s.host || other in s.submitting;
  }

  lemma NewKeepsGood(s: Devices, userurb: nat)
    requires Good(s)
    ensures Good(Next(s, NewPending(userurb)))
  {
    var t := Next(s, NewPending(userurb));
    assert Places(t) == Places(s) + multiset{|s.urbs|};
    OnePlace(s, |s.urbs|);
  }

  /** A URB that was pending or in transit goes to the completed list or is freed. */
  lemma LeaveKeepsGood(s: Devices, id: nat, t: Devices)
    requires Good(s) && (id in s.host || id in s.submitting)
    requires t.urbs == s.urbs && t.pending == Without(s.pending, id) && t.transit == Without(s.transit, id)
    requires t.host == s.host - {id} && t.submitting == s.submitting - {id}
    requires (t.completed == s.completed + [id] && t.freed == s.freed)
          || (t.completed == s.completed && t.freed == s.freed + [id])
    ensures Good(t)
  {
    hide Without, Places;
    LeavesOnce(s, id, t);
    assert Placed(t);
    forall other: nat
      ensures other in t.host || other in t.submitting <==> other in t.pending || other in t.transit
    {
      WithoutMember(s.pending, id, other);
      WithoutMember(s.transit, id, other);
    }
    AllKnown(t);
  }

  lemma LeavesOnce(s: Devices, id: nat, t: Devices)
    requires Good(s) && (id in s.host || id in s.submitting)
    requires t.pending == Without(s.pending, id) && t.transit == Without(s.transit, id)
    requires (t.completed == s.completed + [id] && t.freed == s.freed)
          || (t.completed == s.completed && t.freed == s.freed + [id])
    ensures Places(t) == Places(s) && multiset(s.pending)[id] <= 1 && multiset(s.transit)[id] <= 1
  {
    hide Without;
    OnePlace(s, id);
    assert multiset(s.completed + [id]) == multiset(s.completed) + multiset{id};
    assert multiset(s.freed + [id]) == multiset(s.freed) + multiset{id};
  }

  lemma TakeKeepsGood(s: Devices, k: nat, t: Devices)
    requires Good(s) && k < |s.pending|
    requires t == s.(pending := s.pending[..k] + s.pending[k + 1..], transit := s.transit + [s.pending[k]])
    ensures Good(t)
  {
    SplitAt(s.pending, k);
    assert Places(t) == Places(s);
    forall id: nat
      ensures id in t.pending || id in t.transit <==> id in s.pending || id in s.transit
    {
      assert id in s.pending <==> id in multiset(s.pending);
      assert id in t.pending <==> id in multiset(t.pending);
    }
    AllKnown(t);
  }

  lemma ReapKeepsGood(s: Devices, t: Devices)
    requires Good(s)
    requires t ==
      if s.completed == [] then s else s.(completed := s.completed[1..], freed := s.freed + [s.completed[0]])
    ensures Good(t)
  {
    if s.completed != [] {
      HeadMoves(s.completed, s.freed);
      assert Places(t) == Places(s);
      assert Tracked(t);
    }
  }

  lemma HeadMoves(from: seq<nat>, to: seq<nat>)
    requires from != []
    ensures multiset(from) == multiset(from[1..]) + multiset{from[0]}
    ensures multiset(to + [from[0]]) == multiset(to) + multiset{from[0]}
  {
    assert from == [from[0]] + from[1..];
  }

  ghost predicate IsRun(s: Devices, steps: seq<Step>)
    requires Good(s)
    decreases |steps|
  {
    steps == [] || (Enabled(s, steps[0]) && (StepKeepsGood(s, steps[0]); IsRun(Next(s, steps[0]), steps[1..])))
  }

  ghost function Run(s: Devices, steps: seq<Step>): (t: Devices)
    requires Good(s) && IsRun(s, steps)
    ensures Good(t)
    decreases |steps|
  {
    if steps == [] then s else
      StepKeepsGood(s, steps[0]);
      Run(Next(s, steps[0]), steps[1..])
  }

  /** In every interleaving each URB that was submitted is pending, in transit, completed or freed,
      never in two of these places, and freed at most once; what is freed stays freed. */
  lemma {:induction false} ExactlyOnePlace(s: Devices, steps: seq<Step>, id: nat)
    requires Good(s) && IsRun(s, steps) && id < |s.urbs|
    ensures var t := Run(s, steps);
      && id < |t.urbs|
      && multiset(t.pending)[id] + multiset(t.completed)[id] + multiset(t.transit)[id] + multiset(t.freed)[id] == 1
      && s.freed <= t.freed
    decreases |steps|
  {
    if steps == [] {
      assert Places(s)[id] == 1;
    } else {
      StepKeepsGood(s, steps[0]);
      ExactlyOnePlace(Next(s, steps[0]), steps[1..], id);
    }
  }

  // ----- an unlink that comes too late -----

  function Reaps(steps: seq<Step>): nat {
    if steps == [] then 0 else (if steps[0].Reap? then 1 else 0) + Reaps(steps[1..])
  }

  /** A completed URB is freed exactly if there are more reaps than entries before it. */
  lemma {:induction false} ReapedIff(s: Devices, steps: seq<Step>, j: nat)
    requires Good(s) && IsRun(s, steps) && j < |s.completed|
    ensures s.completed[j] in Run(s, steps).freed <==> Reaps(steps) > j
    decreases |steps|
  {
    hide Placed, Tracked, Without, Find;
    var id := s.completed[j];
    CompletedIsPlaced(s, id);
    if steps != [] {
      var step, t := steps[0], Next(s, steps[0]);
      StepKeepsGood(s, step);
      if !step.Reap? {
        CompletedStands(s, step);
        ReapedIff(t, steps[1..], j);
      } else if j > 0 {
        ReapedIff(t, steps[1..], j - 1);
      } else {
        FreedStays(t, steps[1..], id);
      }
    }
  }

  lemma CompletedIsPlaced(s: Devices, id: nat)
    requires Good(s) && id in s.completed
    ensures id !in s.freed && id !in s.host && id !in s.submitting
  {
    OnePlace(s, id);
  }

  lemma CompletedStands(s: Devices, step: Step)
    requires Good(s) && Enabled(s, step) && !step.Reap?
    ensures s.completed <= Next(s, step).completed
  {
  }

  lemma {:induction false} FreedStays(s: Devices, steps: seq<Step>, id: nat)
    requires Good(s) && IsRun(s, steps) && id in s.freed
    ensures id in Run(s, steps).freed
    decreases |steps|
  {
    hide Placed, Tracked, Without, Find;
    if steps != [] {
      StepKeepsGood(s, steps[0]);
      FreedStays(Next(s, steps[0]), steps[1..], id);
    }
  }

  /** While one process has the URB off the list, its submission fails in another one, or it
      completes and others reap it and all that completed before it. */
  ghost predicate LostBetween(s: Devices, steps: seq<Step>, id: nat)
    requires Good(s) && IsRun(s, steps)
    decreases |steps|
  {
    steps != [] && (
      || steps[0] == Refused(id)
      || (steps[0] == Complete(id) && Reaps(steps[1..]) > |s.completed|)
      || (StepKeepsGood(s, steps[0]); LostBetween(Next(s, steps[0]), steps[1..], id)))
  }

  /** The URB that proc_unlinkurb or destroy_all_async has taken off the list has been freed before
      they come to unlink it exactly if it was lost in one of these two ways. */
  lemma {:induction false} UnlinkMeetsFreedIff(s: Devices, between: seq<Step>, id: nat)
    requires Good(s) && IsRun(s, between) && id in s.transit
    ensures id in Run(s, between).freed <==> LostBetween(s, between, id)
    decreases |between|
  {
    hide Placed, Tracked, Without, Find;
    OnePlaceGood(s, id);
    if between != [] {
      var step, t := between[0], Next(s, between[0]);
      StepKeepsGood(s, step);
      if step == Refused(id) {
        FreedStays(t, between[1..], id);
      } else if step == Complete(id) {
        ReapedIff(t, between[1..], |s.completed|);
        NotLostOnceCompleted(t, between[1..], id);
      } else {
        TransitStands(s, step, id);
        UnlinkMeetsFreedIff(t, between[1..], id);
      }
    }
  }

  lemma OnePlaceGood(s: Devices, id: nat)
    requires Good(s) && id in s.transit
    ensures id !in s.freed
  {
    OnePlace(s, id);
  }

  lemma TransitStands(s: Devices, step: Step, id: nat)
    requires Good(s) && Enabled(s, step) && id in s.transit && step != Refused(id) && step != Complete(id)
    ensures id in Next(s, step).transit
  {
    hide Find;
    if step.Refused? || step.Complete? {
      OnePlace(s, step.id);
      WithoutMember(s.transit, step.id, id);
    }
  }

  /** A URB is refused or completes only once. */
  lemma {:induction false} NotLostOnceCompleted(s: Devices, steps: seq<Step>, id: nat)
    requires Good(s) && IsRun(s, steps) && (id in s.completed || id in s.freed)
    ensures !LostBetween(s, steps, id)
    decreases |steps|
  {
    hide Placed, Tracked, Without, Find;
    GoneIsGone(s, id);
    if steps != [] {
      StepKeepsGood(s, steps[0]);
      NotLostOnceCompleted(Next(s, steps[0]), steps[1..], id);
    }
  }

  lemma PendingIsNotFreed(s: Devices, id: nat)
    requires Good(s) && id in s.pending
    ensures id !in s.freed
  {
    OnePlace(s, id);
  }

  lemma GoneIsGone(s: Devices, id: nat)
    requires Good(s) && (id in s.completed || id in s.freed)
    ensures id !in s.host && id !in s.submitting
  {
    OnePlace(s, id);
  }

  // ----- whole calls -----

  /** The calls under way besides submissions: URBs taken off the list whose usb_unlink_urb has not
      come yet.  `early` holds those it came to before their usb_submit_urb had returned. */
  datatype Calls = Calls(devices: Devices, unlinking: set<nat>, early: set<nat>)

  datatype Act = Do(step: Step) | Unlinks(id: nat)

  /** The URB that a step takes off the list to unlink it. */
  function TakenOff(s: Devices, step: Step): set<nat>
    requires Known(s.pending, |s.urbs|)
  {
    match step
    case Discard(userurb) =>
      var k := Find(s.pending, s.urbs, userurb);
      if k == |s.pending| then {} else {s.pending[k]}
    case TakeFirst => if s.pending == [] then {} else {s.pending[0]}
    case _ => {}
  }

  ghost predicate Possible(c: Calls, a: Act) {
    match a case Do(step) => Enabled(c.devices, step) case Unlinks(id) => id in c.unlinking
  }

  /** usb_unlink_urb completes a URB that the host controller has, and does nothing otherwise. */
  function After(c: Calls, a: Act): Calls
    requires Known(c.devices.pending, |c.devices.urbs|)
  {
    var s := c.devices;
    match a
    case Do(step) => Calls(Next(s, step), c.unlinking + TakenOff(s, step), c.early)
    case Unlinks(id) =>
      Calls(if id in s.host then Next(s, Complete(id)) else s, c.unlinking - {id},
            if id in s.submitting then c.early + {id} else c.early)
  }

  /** What is in transit is about to be unlinked, or was unlinked too early. */
  ghost predicate Accounted(c: Calls) {
    && Good(c.devices)
    && (forall id: nat :: id in c.devices.transit ==> id in c.unlinking || id in c.early)
    && (forall id: nat :: id in c.unlinking || id in c.early ==>
          id < |c.devices.urbs| && id !in c.devices.pending)
  }

  lemma StepMovesOn(s: Devices, step: Step, id: nat)
    requires Good(s) && Enabled(s, step)
    ensures |s.urbs| <= |Next(s, step).urbs|
    ensures id < |s.urbs| && id in Next(s, step).pending ==> id in s.pending
    ensures id in Next(s, step).transit ==> id in s.transit || id in TakenOff(s, step)
    ensures id in TakenOff(s, step) ==> id < |s.urbs| && id !in Next(s, step).pending
  {
    hide Placed, Tracked, Find, Without, Places;
    StepKeepsGood(s, step);
    OnePlace(Next(s, step), id);
    if step.Refused? || step.Complete? {
      OnePlace(s, step.id);
      WithoutMember(s.pending, step.id, id);
      WithoutMember(s.transit, step.id, id);
    } else if step.Discard? {
      var k := Find(s.pending, s.urbs, step.userurb);
      if k < |s.pending| {
        OnePlace(s, s.pending[k]);
      }
    } else if step.TakeFirst? && s.pending != [] {
      OnePlace(s, s.pending[0]);
    }
  }

  lemma ActKeepsAccounted(c: Calls, a: Act)
    requires Accounted(c) && Possible(c, a)
    ensures Accounted(After(c, a))
  {
    hide Good, Next, TakenOff, Enabled;
    GoodKnows(c.devices);
    forall id: nat
      ensures AccountedAt(After(c, a), id)
    {
      ActKeepsOne(c, a, id);
    }
    if a.Do? {
      StepKeepsGood(c.devices, a.step);
    } else if a.id in c.devices.host {
      CompleteEnabled(c.devices, a.id);
      StepKeepsGood(c.devices, Complete(a.id));
    }
    assert forall id: nat :: AccountedAt(After(c, a), id);
    AccountedEverywhere(After(c, a));
  }

  ghost predicate AccountedAt(c: Calls, id: nat) {
    && (id in c.devices.transit ==> id in c.unlinking || id in c.early)
    && (id in c.unlinking || id in c.early ==> id < |c.devices.urbs| && id !in c.devices.pending)
  }

  lemma AccountedEverywhere(c: Calls)
    requires Good(c.devices) && forall id: nat :: AccountedAt(c, id)
    ensures Accounted(c)
  {
    forall id: nat | id in c.devices.transit ensures id in c.unlinking || id in c.early {
      assert AccountedAt(c, id);
    }
    forall id: nat | id in c.unlinking || id in c.early
      ensures id < |c.devices.urbs| && id !in c.devices.pending
    {
      assert AccountedAt(c, id);
    }
  }

  lemma GoodKnows(s: Devices)
    requires Good(s)
    ensures Known(s.pending, |s.urbs|)
  {
  }

  lemma CompleteEnabled(s: Devices, id: nat)
    requires id in s.host
    ensures Enabled(s, Complete(id))
  {
  }

  lemma ActKeepsOne(c: Calls, a: Act, id: nat)
    requires Accounted(c) && Possible(c, a) && Known(c.devices.pending, |c.devices.urbs|)
    ensures AccountedAt(After(c, a), id)
  {
    hide Placed, Tracked, Find, Without, Places;
    assert AccountedAt(c, id);
    match a {
      case Do(step) => StepMovesOn(c.devices, step, id);
      case Unlinks(other) =>
        assert AccountedAt(c, other);
        if other in c.devices.host {
          StepMovesOn(c.devices, Complete(other), id);
          OnePlace(c.devices, other);
          WithoutMember(c.devices.transit, other, other);
        } else {
          InTransitIfSubmitting(c.devices, other);
        }
    }
  }

  lemma InTransitIfSubmitting(s: Devices, id: nat)
    requires Good(s) && id !in s.host
    ensures id in s.transit ==> id in s.submitting
  {
  }

  ghost predicate IsCallRun(c: Calls, acts: seq<Act>)
    requires Accounted(c)
    decreases |acts|
  {
    acts == [] || (Possible(c, acts[0]) && (ActKeepsAccounted(c, acts[0]); IsCallRun(After(c, acts[0]), acts[1..])))
  }

  ghost function CallRun(c: Calls, acts: seq<Act>): (d: Calls)
    requires Accounted(c) && IsCallRun(c, acts)
    ensures Accounted(d)
    decreases |acts|
  {
    if acts == [] then c
    else
      ActKeepsAccounted(c, acts[0]);
      CallRun(After(c, acts[0]), acts[1..])
  }

  const NO_CALLS := Calls(Devices([], [], [], [], [], {}, {}), {}, {})

  lemma NothingIsGood(s: Devices)
    requires s == NO_CALLS.devices
    ensures Good(s)
  {
    assert Places(s) == multiset{};
  }

  /** Whenever no call is under way, something is in transit exactly if the host controller holds a
      URB that was unlinked before its usb_submit_urb had returned. */
  lemma TransitIsEmptyIff(c: Calls, acts: seq<Act>)
    requires Accounted(c) && IsCallRun(c, acts)
    requires CallRun(c, acts).devices.submitting == {} && CallRun(c, acts).unlinking == {}
    ensures var d := CallRun(c, acts);
      d.devices.transit == [] <==> forall id: nat :: id in d.devices.host ==> id !in d.early
  {
    IdleTransit(CallRun(c, acts));
  }

  lemma IdleTransit(c: Calls)
    requires Accounted(c) && c.devices.submitting == {} && c.unlinking == {}
    ensures forall id: nat :: id in c.devices.transit <==> id in c.devices.host && id in c.early
    ensures c.devices.transit == [] <==> forall id: nat :: id in c.devices.host ==> id !in c.early
  {
    if c.devices.transit != [] {
      assert c.devices.transit[0] in c.devices.transit;
    }
  }

  /** The run of a discard that comes before usb_submit_urb has returned. */
  const EARLY_DISCARD: seq<Act> := [Do(NewPending(7)), Do(Discard(7)), Unlinks(0), Do(Accepted(0))]

  lemma FirstAct(c: Calls, a: Act, rest: seq<Act>, next: Calls, acts: seq<Act>)
    requires Accounted(c) && Possible(c, a) && next == After(c, a) && acts == [a] + rest
    ensures Accounted(next)
    ensures IsCallRun(next, rest) ==> IsCallRun(c, acts) && CallRun(c, acts) == CallRun(next, rest)
  {
    ActKeepsAccounted(c, a);
    assert acts[1..] == rest;
  }

  /** Then no call is under way any more, and the URB is with the host controller but on no list. */
  lemma DiscardTooEarly()
    ensures Accounted(NO_CALLS) && IsCallRun(NO_CALLS, EARLY_DISCARD)
    ensures CallRun(NO_CALLS, EARLY_DISCARD) == Calls(Devices([7], [], [], [0], [], {}, {0}), {}, {0})
  {
    hide Accounted, IsCallRun, CallRun;
    NoCallsAccounted();
    var a := EARLY_DISCARD;
    var listed := Calls(Devices([7], [0], [], [], [], {0}, {}), {}, {});
    var taken := Calls(Devices([7], [], [], [0], [], {0}, {}), {0}, {});
    var unlinked := Calls(Devices([7], [], [], [0], [], {0}, {}), {}, {0});
    var held := Calls(Devices([7], [], [], [0], [], {}, {0}), {}, {0});
    FirstAct(NO_CALLS, a[0], [a[1], a[2], a[3]], listed, a);
    assert Find([0], [7], 7) == 0;
    FirstAct(listed, a[1], [a[2], a[3]], taken, [a[1], a[2], a[3]]);
    FirstAct(taken, a[2], [a[3]], unlinked, [a[2], a[3]]);
    FirstAct(unlinked, a[3], [], held, [a[3]]);
    NoMoreActs(held);
  }

  lemma NoMoreActs(c: Calls)
    requires Accounted(c)
    ensures IsCallRun(c, []) && CallRun(c, []) == c
  {
  }

  lemma NoCallsAccounted()
    ensures Accounted(NO_CALLS)
  {
    NothingIsGood(NO_CALLS.devices);
  }

  // ----- the routines -----

  lemma WithoutShrinks(list: seq<nat>, id: nat)
    ensures |Without(list, id)| == if id in list then |list| - 1 else |list|
    ensures forall other: nat :: other in Without(list, id) ==> other in list
  {
    assert |multiset(Without(list, id))| == |Without(list, id)| && |multiset(list)| == |list|;
    assert forall other: nat :: other in Without(list, id) ==> other in multiset(Without(list, id));
    assert id in multiset(list) <==> id in list;
  }

  class DevState {
    const finishing: nat -> seq<nat>     // the URBs that the host controller completes at each moment
    var moment: nat
    var urbs: seq<nat>
    var pending: seq<nat>
    var completed: seq<nat>
    ghost var transit: seq<nat>
    ghost var freed: seq<nat>
    ghost var submitting: set<nat>
    ghost var unlinking: set<nat>        // taken off the list, and usb_unlink_urb has not come yet
    ghost var early: set<nat>            // unlinked before usb_submit_urb had returned
    ghost var met: set<nat>              // URBs that were freed when usb_unlink_urb came to them
    var host: set<nat>

    ghost function View(): Devices
      reads this
    {
      Devices(urbs, pending, completed, transit, freed, submitting, host)
    }

    ghost function UnderWay(): Calls
      reads this
    {
      Calls(View(), unlinking, early)
    }

    ghost predicate Valid()
      reads this
    {
      Accounted(UnderWay())
    }

    constructor (finishing: nat -> seq<nat>)
      ensures Valid() && UnderWay() == NO_CALLS && met == {}
    {
      this.finishing := finishing;
      moment, urbs, pending, completed, host := 0, [], [], [], {};
      transit, freed, submitting, unlinking, early, met := [], [], {}, {}, {}, {};
      new;
      NothingIsGood(View());
    }

    /** The last part of proc_submiturb, up to usb_submit_urb. */
    method AsyncNewPending(userurb: nat) returns (id: nat)
      requires Valid()
      modifies this`urbs, this`pending, this`submitting
      ensures Valid() && UnderWay() == After(old(UnderWay()), Do(NewPending(userurb))) && id == |old(urbs)|
    {
      ActKeepsAccounted(UnderWay(), Do(NewPending(userurb)));
      id := |urbs|;
      submitting := submitting + {id};
      pending := pending + [id];
      urbs := urbs + [userurb];
    }

    /** usb_submit_urb returns; a URB that is refused is taken off the list and freed. */
    method SubmitReturned(id: nat, ok: bool)
      requires Valid() && id in submitting
      modifies this`pending, this`transit, this`freed, this`submitting, this`host
      ensures Valid() && UnderWay() == After(old(UnderWay()), Do(if ok then Accepted(id) else Refused(id)))
    {
      hide Placed, Tracked, Without;
      ActKeepsAccounted(UnderWay(), Do(Accepted(id)));
      ActKeepsAccounted(UnderWay(), Do(Refused(id)));
      submitting := submitting - {id};
      if ok {
        host := host + {id};
      } else {
        pending, transit := Without(pending, id), Without(transit, id);
        freed := freed + [id];
      }
    }

    /** async_completed */
    method AsyncCompleted(id: nat)
      requires Valid() && id in host
      modifies this`pending, this`transit, this`completed, this`host
      ensures Valid() && UnderWay() == After(old(UnderWay()), Do(Complete(id)))
    {
      hide Placed, Tracked, Without;
      ActKeepsAccounted(UnderWay(), Do(Complete(id)));
      host := host - {id};
      pending, transit := Without(pending, id), Without(transit, id);
      completed := completed + [id];
    }

    /** async_getpending: the first pending URB with the user's pointer is taken off the list. */
    method AsyncGetPending(userurb: nat) returns (found: bool, id: nat)
      requires Valid()
      modifies this`pending, this`transit, this`unlinking
      ensures Valid() && UnderWay() == After(old(UnderWay()), Do(Discard(userurb)))
      ensures found <==> exists k :: 0 <= k < |old(pending)| && urbs[old(pending)[k]] == userurb
      ensures found ==> id in old(pending) && urbs[id] == userurb && id in transit
    {
      hide Placed, Tracked, Find;
      ActKeepsAccounted(UnderWay(), Do(Discard(userurb)));
      var k := 0;
      while k < |pending| && urbs[pending[k]] != userurb
        invariant 0 <= k <= |pending|
        invariant forall j :: 0 <= j < k ==> urbs[pending[j]] != userurb
      {
        k := k + 1;
      }
      found, id := k < |pending|, 0;
      assert k == Find(pending, urbs, userurb);
      if found {
        id := pending[k];
        pending, transit := pending[..k] + pending[k + 1..], transit + [id];
        unlinking := unlinking + {id};
      }
    }

    /** usb_unlink_urb calls the completion handler, unless the host controller does not have the
        URB, because it has completed already or is not submitted yet. */
    method Unlink(id: nat)
      requires Valid() && id in unlinking
      modifies this`pending, this`transit, this`completed, this`host, this`unlinking, this`early, this`met
      ensures Valid() && UnderWay() == After(old(UnderWay()), Unlinks(id))
      ensures met == old(met) + if id in freed then {id} else {}
    {
      hide Placed, Tracked, Places, Without;
      ActKeepsAccounted(UnderWay(), Unlinks(id));
      met := met + if id in freed then {id} else {};
      if id in host {
        AsyncCompleted(id);
      }
      unlinking := unlinking - {id};
      early := if id in submitting then early + {id} else early;
    }

    /** async_getcompleted and free_async: the URB that completed first is reaped. */
    method ReapFirst() returns (found: bool, id: nat)
      requires Valid()
      modifies this`completed, this`freed
      ensures Valid() && UnderWay() == After(old(UnderWay()), Do(Reap))
      ensures found <==> old(completed) != []
      ensures found ==> id == old(completed)[0] && id !in old(freed) && freed == old(freed) + [id]
    {
      ActKeepsAccounted(UnderWay(), Do(Reap));
      found, id := |completed| > 0, 0;
      if found {
        id := completed[0];
        OnePlace(View(), id);
        completed, freed := completed[1..], freed + [id];
      }
    }

    /** Whatever the host controller completes at this moment. */
    method HostRuns()
      requires Valid()
      modifies this`moment, this`pending, this`transit, this`completed, this`host
      ensures Valid() && |pending| <= |old(pending)|
      ensures |pending| + |transit| + |completed| <= |old(pending)| + |old(transit)| + |old(completed)|
      ensures host <= old(host) && old(completed) <= completed
      ensures forall id: nat :: id in transit ==> id in old(transit)
    {
      hide Placed, Tracked, Without, Places;
      var ids := finishing(moment);
      moment := moment + 1;
      for k := 0 to |ids|
        invariant Valid() && |pending| <= |old(pending)|
        invariant |pending| + |transit| + |completed| <= |old(pending)| + |old(transit)| + |old(completed)|
        invariant host <= old(host) && old(completed) <= completed
        invariant forall id: nat :: id in transit ==> id in old(transit)
      {
        if ids[k] in host {
          WithoutShrinks(pending, ids[k]);
          WithoutShrinks(transit, ids[k]);
          HeldIsListed(View(), ids[k]);
          AsyncCompleted(ids[k]);
        }
      }
    }

    /** The first pending URB is taken off the list. */
    method TakeOff() returns (id: nat)
      requires Valid() && pending != []
      modifies this`pending, this`transit, this`unlinking
      ensures Valid() && UnderWay() == After(old(UnderWay()), Do(TakeFirst))
      ensures transit == old(transit) + [id] && |pending| < |old(pending)|
      ensures id !in freed && unlinking == old(unlinking) + {id} && id !in old(unlinking)
    {
      hide Placed, Tracked, Places, Without;
      PendingIsNotFreed(View(), pending[0]);
      ActKeepsAccounted(UnderWay(), Do(TakeFirst));
      id := pending[0];
      pending, transit, unlinking := pending[1..], transit + [id], unlinking + {id};
    }

    /** One turn of the first loop of destroy_all_async. */
    method DestroyOne()
      requires Valid() && pending != []
      modifies this`moment, this`pending, this`transit, this`completed, this`host
      modifies this`unlinking, this`early, this`met
      ensures Valid() && |pending| < |old(pending)| && met == old(met) && unlinking == old(unlinking)
      ensures submitting == {} ==> early == old(early) && forall id: nat :: id in transit ==> id in old(transit)
    {
      hide Placed, Tracked, Places, Without, Next;
      var id := TakeOff();
      HostRuns();
      UnlinkShrinks(UnderWay(), id);
      Unlink(id);
      HostRuns();
    }

    /** destroy_all_async, while completions keep coming in: afterwards both lists are empty, and
        every URB ever submitted has been freed exactly once, and none before its unlink, except for
        those still in transit.  If no call was under way, these are just the URBs that the host
        controller still holds because a discard had come to them too early. */
    method DestroyAllAsync()
      requires Valid()
      modifies this`moment, this`pending, this`transit, this`completed, this`host, this`freed
      modifies this`unlinking, this`early, this`met
      ensures Valid() && pending == [] && completed == [] && met == old(met) && unlinking == old(unlinking)
      ensures forall id: nat :: multiset(freed)[id] == if id < |urbs| && id !in transit then 1 else 0
      ensures submitting == {} ==> early == old(early) && forall id: nat :: id in transit ==> id in old(transit)
      ensures submitting == {} && unlinking == {} ==>
        forall id: nat :: id in transit <==> id in host && id in old(early)
    {
      hide Next, Good;
      while pending != []
        invariant Valid() && met == old(met) && unlinking == old(unlinking)
        invariant submitting == {} ==> early == old(early) && forall id: nat :: id in transit ==> id in old(transit)
        decreases |pending|
      {
        DestroyOne();
      }
      while true
        invariant Valid() && pending == [] && met == old(met) && unlinking == old(unlinking)
        invariant submitting == {} ==> early == old(early) && forall id: nat :: id in transit ==> id in old(transit)
        decreases |transit| + |completed|
      {
        ghost var s := View();
        var found, id := ReapFirst();
        ReapShrinks(s);
        if !found {
          break;
        }
        HostRuns();
      }
      RestIsFreed(View());
      if submitting == {} && unlinking == {} {
        IdleTransit(UnderWay());
      }
    }
  }

  lemma HeldIsListed(s: Devices, id: nat)
    requires Good(s) && id in s.host
    ensures id in s.pending || id in s.transit
    ensures var t := Next(s, Complete(id));
      && t.pending == Without(s.pending, id) && t.transit == Without(s.transit, id)
      && t.completed == s.completed + [id] && t.host == s.host - {id}
  {
  }

  lemma ReapShrinks(s: Devices)
    requires Known(s.pending, |s.urbs|)
    ensures var t := Next(s, Reap);
      && t == s.(completed := t.completed, freed := t.freed)
      && |t.completed| == if s.completed == [] then 0 else |s.completed| - 1
  {
  }

  /** Unlinking takes the URB out of transit, unless its submission is under way. */
  lemma UnlinkShrinks(c: Calls, id: nat)
    requires Accounted(c)
    ensures var t := After(c, Unlinks(id)).devices;
      && |t.pending| <= |c.devices.pending| && t.submitting == c.devices.submitting
      && (c.devices.submitting == {} ==>
            id !in t.transit && forall other: nat :: other in t.transit ==> other in c.devices.transit)
  {
    hide Placed, Places, Without;
    var s := c.devices;
    WithoutShrinks(s.pending, id);
    WithoutShrinks(s.transit, id);
    if id in s.host {
      OnePlace(s, id);
      WithoutMember(s.transit, id, id);
    }
  }

  lemma RestIsFreed(s: Devices)
    requires Good(s) && s.pending == [] && s.completed == []
    ensures forall id: nat :: multiset(s.freed)[id] == if id < |s.urbs| && id !in s.transit then 1 else 0
  {
    forall id: nat
      ensures multiset(s.freed)[id] == if id < |s.urbs| && id !in s.transit then 1 else 0
    {
      assert Places(s)[id] == multiset(s.transit)[id] + multiset(s.freed)[id];
      assert id in s.transit <==> id in multiset(s.transit);
    }
  }
}
