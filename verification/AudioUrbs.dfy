/** The life of the URBs of one audio stream: two for data and two for synchronisation.  Each has
    a flag; completion handlers resubmit it or clear the flag, and the stop routine waits for all
    flags to clear before it frees the transfer buffers. */
module AudioUrbs {

  const ALL: set<nat> := {0, 1, 2, 3}     // URB0, URB1, SYNC0, SYNC1

  /** The process in usbin_start or usbout_start: not there, before the buffer of URB `i` with all
      earlier ones allocated or some allocation `failed`, or about to take the lock again. */
  datatype Starter = NotStarting | Allocating(i: nat, failed: bool) | Ready

  /** The process in usbin_stop or usbout_stop: not there, or in the loop with the flags it last saw. */
  datatype Stopper = NotStopping | Waiting(seen: set<nat>, notKilled: bool)

  datatype Stream = Stream(
    urbs: nat,              // 2, or 4 with a synchronisation endpoint
    connected: bool,
    running: bool,
    flags: set<nat>,        // FLG_URB0RUNNING .. FLG_SYNC1RUNNING
    inFlight: set<nat>,     // submitted, and the completion not yet processed
    buffers: set<nat>,      // transfer buffers that are allocated
    torn: set<nat>,         // URBs whose buffer was freed while they were in flight
    starter: Starter,
    stopper: Stopper)

  /** What a completion handler or the submission of a descriptor may find. */
  datatype Step =
    | BeginStart                                            // not running: give up the lock and allocate
    | Reallocate(got: bool)                                 // free the next buffer and allocate it anew
    | Start(idle: bool, accepted: seq<bool>)                // the locked part of usbin_start, usbout_start
    | Complete(urb: nat, retired: bool, resubmitted: bool)  // a completion handler
    | BeginStop(disconnect: bool)                           // clear FLG_RUNNING
    | Poll(signal: bool)                                    // one turn of the stop loop
    | Release                                               // free the buffers

  function Upto(n: nat): set<nat> { set k | k in ALL && k < n }

  /** Submit the URBs from `i` on that are not running, until one is refused. */
  function Launch(flags: set<nat>, i: nat, urbs: nat, accepted: seq<bool>): (r: (set<nat>, bool))
    requires |accepted| == urbs
    ensures flags <= r.0
    ensures r.1 ==> forall k :: i <= k < urbs ==> k in r.0
    ensures forall k :: k in r.0 && k !in flags ==> i <= k < urbs
    decreases urbs - i
  {
    if i >= urbs then (flags, true)
    else if i in flags then Launch(flags, i + 1, urbs, accepted)
    else if accepted[i] then Launch(flags + {i}, i + 1, urbs, accepted)
    else (flags, false)
  }

  /** None of the URBs from `i` up to `n` that are idle is refused. */
  ghost predicate NoneRefused(flags: set<nat>, accepted: seq<bool>, i: nat, n: nat)
    requires n <= |accepted|
  {
    forall j :: i <= j < n ==> j in flags || accepted[j]
  }

  lemma NoneRefusedFrom(flags: set<nat>, accepted: seq<bool>, i: nat, n: nat)
    requires i < n <= |accepted| && (i in flags || accepted[i])
    ensures NoneRefused(flags, accepted, i, n) <==> NoneRefused(flags + {i}, accepted, i + 1, n)
  {
  }

  /** A URB is running afterwards if it was before, or if none up to it has been refused. */
  ghost predicate LaunchedIff(flags: set<nat>, after: set<nat>, accepted: seq<bool>, i: nat, k: nat) {
    k in after <==> k in flags || (i <= k < |accepted| && NoneRefused(flags, accepted, i, k + 1))
  }

  /** The URBs started are those before the first refusal, and the stream runs if there is none. */
  lemma {:induction false} LaunchIs(flags: set<nat>, i: nat, urbs: nat, accepted: seq<bool>)
    requires |accepted| == urbs
    ensures Launch(flags, i, urbs, accepted).1 <==> NoneRefused(flags, accepted, i, urbs)
    ensures forall k: nat :: LaunchedIff(flags, Launch(flags, i, urbs, accepted).0, accepted, i, k)
    decreases urbs - i
  {
    if i >= urbs {
    } else if i in flags || accepted[i] {
      var more, after := flags + {i}, Launch(flags, i, urbs, accepted).0;
      if i in flags {
        assert more == flags;
      }
      LaunchIs(more, i + 1, urbs, accepted);
      NoneRefusedFrom(flags, accepted, i, urbs);
      hide NoneRefused;
      forall k: nat
        ensures LaunchedIff(flags, after, accepted, i, k)
      {
        assert LaunchedIff(more, after, accepted, i + 1, k);
        if i <= k < urbs {
          NoneRefusedFrom(flags, accepted, i, k + 1);
          OneNotRefused(flags, accepted, i);
        }
      }
    } else {
      assert !NoneRefused(flags, accepted, i, urbs);
      forall k: nat
        ensures LaunchedIff(flags, flags, accepted, i, k)
      {
      }
    }
  }

  lemma OneNotRefused(flags: set<nat>, accepted: seq<bool>, i: nat)
    requires i < |accepted| && (i in flags || accepted[i])
    ensures NoneRefused(flags, accepted, i, i + 1)
  {
  }

  /** A start keeps the lock if it finds the stream running, and else takes it again after the
      allocation; whether the device is still connected is not looked at again. */
  ghost predicate Enabled(s: Stream, step: Step) {
    match step
    case BeginStart => s.starter.NotStarting? && s.connected && !s.running
    case Reallocate(_) => s.starter.Allocating? && s.starter.i < s.urbs
    case Start(_, accepted) =>
      |accepted| == s.urbs && (s.starter.Ready? || (s.starter.NotStarting? && s.connected && s.running))
    case Complete(urb, _, _) => urb in s.inFlight
    case BeginStop(_) => s.stopper.NotStopping?
    case Poll(_) => s.stopper.Waiting? && s.stopper.seen != {}
    case Release => s.stopper.Waiting? && s.stopper.seen == {}
  }

  function AfterAllocation(urbs: nat, i: nat, failed: bool): Starter {
    if i < urbs then Allocating(i, failed) else if failed then NotStarting else Ready
  }

  function Next(s: Stream, step: Step): Stream
    requires step.Reallocate? ==> s.starter.Allocating?
    requires step.Start? ==> |step.accepted| == s.urbs
  {
    match step
    case BeginStart => s.(starter := AfterAllocation(s.urbs, 0, false))
    case Reallocate(got) =>
      var i := s.starter.i;
      s.(torn := s.torn + (s.inFlight * {i}),
         buffers := if got then s.buffers + {i} else s.buffers - {i},
         starter := AfterAllocation(s.urbs, i + 1, s.starter.failed || !got))
    case Start(idle, accepted) =>
      if idle then s.(starter := NotStarting)
      else
        var r := Launch(s.flags, 0, s.urbs, accepted);
        s.(flags := r.0, running := r.1, inFlight := s.inFlight + (r.0 - s.flags), starter := NotStarting)
    case Complete(urb, retired, resubmitted) =>
      if retired && s.running && resubmitted then s.(torn := s.torn - {urb})
      else s.(flags := s.flags - {urb}, inFlight := s.inFlight - {urb}, torn := s.torn - {urb}, running := false)
    case BeginStop(disconnect) =>
      s.(running := false, connected := s.connected && !disconnect, stopper := Waiting(s.flags, true))
    case Poll(signal) =>
      s.(stopper := Waiting(s.flags, if s.stopper.Waiting? then s.stopper.notKilled && !signal else true))
    case Release =>
      s.(torn := s.torn + s.inFlight, buffers := {}, stopper := NotStopping)
  }

  // ----- every run -----

  ghost predicate Good(s: Stream) {
    s.urbs in {2, 4} && s.flags == s.inFlight && s.flags <= Upto(s.urbs)
  }

  ghost predicate IsRun(s: Stream, steps: seq<Step>)
    decreases |steps|
  {
    steps == [] || (Enabled(s, steps[0]) && IsRun(Next(s, steps[0]), steps[1..]))
  }

  ghost function Run(s: Stream, steps: seq<Step>): Stream
    requires IsRun(s, steps)
    decreases |steps|
  {
    if steps == [] then s else Run(Next(s, steps[0]), steps[1..])
  }

  lemma StepKeepsGood(s: Stream, step: Step)
    requires Good(s) && Enabled(s, step)
    ensures Good(Next(s, step))
  {
  }

  /** A flag is set exactly while its URB is in flight. */
  lemma {:induction false} FlagsTrackUrbs(s: Stream, steps: seq<Step>)
    requires Good(s) && IsRun(s, steps)
    ensures Good(Run(s, steps))
    decreases |steps|
  {
    if steps != [] {
      StepKeepsGood(s, steps[0]);
      FlagsTrackUrbs(Next(s, steps[0]), steps[1..]);
    }
  }

  // ----- stopping -----

  ghost predicate NoStart(steps: seq<Step>) {
    forall k :: 0 <= k < |steps| ==> !steps[k].Start?
  }

  function Completions(steps: seq<Step>): nat {
    if steps == [] then 0 else (if steps[0].Complete? then 1 else 0) + Completions(steps[1..])
  }

  /** Once FLG_RUNNING is cleared no completion resubmits: each takes one URB out of flight for good. */
  lemma {:induction false} StoppedDrains(s: Stream, steps: seq<Step>)
    requires Good(s) && IsRun(s, steps) && !s.running && NoStart(steps)
    ensures var t := Run(s, steps);
      !t.running && t.inFlight <= s.inFlight && |t.inFlight| + Completions(steps) == |s.inFlight|
    decreases |steps|
  {
    if steps != [] {
      var t := Next(s, steps[0]);
      if steps[0].Complete? {
        assert s.inFlight == t.inFlight + {steps[0].urb} && steps[0].urb !in t.inFlight;
      }
      assert NoStart(steps[1..]) by {
        assert forall k :: 0 <= k < |steps[1..]| ==> steps[1..][k] == steps[k + 1];
      }
      StepKeepsGood(s, steps[0]);
      StoppedDrains(t, steps[1..]);
    }
  }

  // ----- streaming -----

  /** A completion that retired well and was submitted again. */
  predicate Repeats(step: Step) { step.Complete? && step.retired && step.resubmitted }

  /** After a completion its URB is in flight, with its flag set, exactly if the stream was running,
      the data could be retired and the URB was submitted again; if not, the stream no longer runs.
      Nothing else changes. */
  lemma CompletionStays(s: Stream, step: Step)
    requires Good(s) && Enabled(s, step) && step.Complete?
    ensures var t := Next(s, step);
      && (step.urb in t.inFlight <==> s.running && step.retired && step.resubmitted)
      && (step.urb in t.flags <==> step.urb in t.inFlight)
      && (t.running <==> s.running && step.retired && step.resubmitted)
      && t.inFlight + {step.urb} == s.inFlight && t.flags + {step.urb} == s.flags
      && t.buffers == s.buffers && t.starter == s.starter && t.stopper == s.stopper && t.connected == s.connected
  {
  }

  ghost predicate AllCompletions(steps: seq<Step>) {
    forall k :: 0 <= k < |steps| ==> steps[k].Complete?
  }

  /** The completion at `bad` is the first that is not repeated. */
  ghost predicate FirstNotRepeated(steps: seq<Step>, bad: nat) {
    && bad <= |steps| && (bad < |steps| ==> !Repeats(steps[bad]))
    && forall k :: 0 <= k < bad ==> Repeats(steps[k])
  }

  /** On a running stream every URB stays in flight up to the first completion that is not repeated;
      from that one on each completion takes its URB out. */
  lemma {:induction false} StreamsUntilBad(s: Stream, steps: seq<Step>, bad: nat)
    requires Good(s) && IsRun(s, steps) && s.running && AllCompletions(steps) && FirstNotRepeated(steps, bad)
    ensures var t := Run(s, steps);
      && (t.running <==> bad == |steps|) && t.flags == t.inFlight
      && forall urb :: urb in t.inFlight <==>
           urb in s.inFlight && forall k :: bad <= k < |steps| ==> steps[k].urb != urb
    decreases |steps|
  {
    if steps != [] {
      CompletionStays(s, steps[0]);
      StepKeepsGood(s, steps[0]);
      var t, rest := Next(s, steps[0]), steps[1..];
      assert forall k :: 0 <= k < |rest| ==> rest[k] == steps[k + 1];
      assert forall k :: 1 <= k < |steps| ==> steps[k] == rest[k - 1];
      if bad > 0 {
        assert t.inFlight == s.inFlight;
        StreamsUntilBad(t, rest, bad - 1);
      } else {
        StoppedLoses(t, rest);
      }
    }
  }

  /** And on a stream that does not run each does. */
  lemma {:induction false} StoppedLoses(s: Stream, steps: seq<Step>)
    requires Good(s) && IsRun(s, steps) && !s.running && AllCompletions(steps)
    ensures var t := Run(s, steps);
      && !t.running && t.flags == t.inFlight
      && forall urb :: urb in t.inFlight <==> urb in s.inFlight && forall k :: 0 <= k < |steps| ==> steps[k].urb != urb
    decreases |steps|
  {
    if steps != [] {
      CompletionStays(s, steps[0]);
      StepKeepsGood(s, steps[0]);
      var rest := steps[1..];
      assert forall k :: 0 <= k < |rest| ==> rest[k] == steps[k + 1];
      assert forall k :: 1 <= k < |steps| ==> steps[k] == rest[k - 1];
      StoppedLoses(Next(s, steps[0]), rest);
    }
  }

  // ----- buffers -----

  /** Starts and stops do not overlap, and a start that allocates finds no flag set. */
  ghost predicate Orderly(s: Stream, step: Step) {
    && (s.stopper.Waiting? ==> !step.BeginStart? && !step.Start?)
    && (!s.starter.NotStarting? ==> !step.BeginStop?)
    && (step.BeginStart? ==> s.flags == {})
  }

  ghost predicate AllOrderly(s: Stream, steps: seq<Step>)
    requires IsRun(s, steps)
    decreases |steps|
  {
    steps == [] || (Orderly(s, steps[0]) && AllOrderly(Next(s, steps[0]), steps[1..]))
  }

  /** Every URB in flight has the buffer it was submitted with, a stream that runs or is about to
      has a buffer for every URB, and nothing is in flight that a stopping process has not seen. */
  ghost predicate Owned(s: Stream) {
    && Good(s) && s.torn == {} && s.inFlight <= s.buffers
    && (s.running || s.starter.Ready? ==> Upto(s.urbs) <= s.buffers)
    && (!s.starter.NotStarting? ==> !s.running && s.inFlight == {})
    && (s.starter.Allocating? && !s.starter.failed ==> Upto(s.starter.i) <= s.buffers)
    && (s.stopper.Waiting? ==> !s.running && s.starter.NotStarting? && s.inFlight <= s.stopper.seen)
  }

  lemma StepKeepsOwned(s: Stream, step: Step)
    requires Owned(s) && Enabled(s, step) && Orderly(s, step)
    ensures Owned(Next(s, step))
    ensures step.Release? ==> s.inFlight == {}
  {
    if step.Reallocate? {
      assert Upto(s.starter.i + 1) == Upto(s.starter.i) + {s.starter.i};
    }
  }

  /** However often the stream is started and stopped in order, a URB in flight has the buffer it
      was submitted with, and buffers are freed only when no URB is in flight. */
  lemma {:induction false} FreedWhenIdle(s: Stream, steps: seq<Step>, k: nat)
    requires Owned(s) && IsRun(s, steps) && AllOrderly(s, steps) && k < |steps|
    ensures IsRun(s, steps[..k]) && Enabled(Run(s, steps[..k]), steps[k])
    ensures var t := Run(s, steps[..k]);
      && Owned(t) && (steps[k].Release? ==> t.inFlight == {} && t.flags == {} && !t.running)
      && (steps[k].Start? ==> forall urb: nat :: urb < t.urbs ==> urb in t.buffers)
    decreases k
  {
    if k == 0 {
      assert steps[..0] == [];
    } else {
      assert steps[..k][1..] == steps[1..][..k - 1];
      StepKeepsOwned(s, steps[0]);
      FreedWhenIdle(Next(s, steps[0]), steps[1..], k - 1);
    }
  }

  /** The steps from one start to the next. */
  ghost predicate OneStart(steps: seq<Step>) {
    forall k :: 0 <= k < |steps| ==> !steps[k].BeginStart?
  }

  /** In no run from here on is a buffer freed under a URB in flight, up to the next start. */
  ghost predicate NeverTears(s: Stream) {
    forall steps :: IsRun(s, steps) && AllOrderly(s, steps) && OneStart(steps) ==> Run(s, steps).torn == {}
  }

  lemma {:induction false} OwnedRunIsWhole(s: Stream, steps: seq<Step>)
    requires Owned(s) && IsRun(s, steps) && AllOrderly(s, steps)
    ensures Run(s, steps).torn == {}
    decreases |steps|
  {
    if steps != [] {
      StepKeepsOwned(s, steps[0]);
      OwnedRunIsWhole(Next(s, steps[0]), steps[1..]);
    }
  }

  /** The driver allocates anew on every start that does not find the stream running, even if a URB
      of the last run is still in flight: exactly then it can free the buffer of one. */
  lemma StartTearsIff(s: Stream)
    requires Good(s) && s.torn == {} && s.inFlight <= s.buffers && s.stopper.NotStopping? && Enabled(s, BeginStart)
    ensures NeverTears(Next(s, BeginStart)) <==> s.flags == {}
  {
    var t := Next(s, BeginStart);
    if s.flags == {} {
      assert Owned(t);
      forall steps | IsRun(t, steps) && AllOrderly(t, steps) && OneStart(steps)
        ensures Run(t, steps).torn == {}
      {
        OwnedRunIsWhole(t, steps);
      }
    } else {
      var urb :| urb in s.flags;
      var steps := Reallocations(t, urb + 1);
      assert Run(t, steps).torn != {};
    }
  }

  /** It does happen: when the second URB of a start is refused, the first one stays in flight. */
  lemma SecondRefused(s: Stream)
    requires Owned(s) && s.urbs == 2 && s.connected && s.starter.Ready?
    ensures var step := Start(false, [true, false]); var t := Next(s, step);
      && Enabled(s, step) && Orderly(s, step) && t.flags == {0} && !t.running
      && Enabled(t, BeginStart) && !NeverTears(Next(t, BeginStart))
  {
    var accepted, t := [true, false], Next(s, Start(false, [true, false]));
    assert Launch({0}, 1, 2, accepted) == ({0}, false);
    assert s.flags + {0} == {0};
    StepKeepsOwned(s, Start(false, accepted));
    StartTearsIff(t);
  }

  /** The start goes on until it has replaced `n` more buffers. */
  lemma {:induction false} Reallocations(s: Stream, n: nat) returns (steps: seq<Step>)
    requires s.starter.Allocating? && s.starter.i + n <= s.urbs
    ensures IsRun(s, steps) && AllOrderly(s, steps) && OneStart(steps)
    ensures s.torn <= Run(s, steps).torn
    ensures forall urb :: urb in s.inFlight && s.starter.i <= urb < s.starter.i + n ==> urb in Run(s, steps).torn
    decreases n
  {
    steps := [];
    if n > 0 {
      var t := Next(s, Reallocate(true));
      if n > 1 {
        steps := Reallocations(t, n - 1);
      }
      steps := [Reallocate(true)] + steps;
    }
  }

  // ----- a stop while a start allocates -----

  /** Steps between the two locked sections of one start. */
  ghost predicate Between(steps: seq<Step>) {
    forall k :: 0 <= k < |steps| ==> !steps[k].BeginStart? && !steps[k].Start?
  }

  /** A stop releases the buffers after the start has replaced one. */
  function ReleasedLate(steps: seq<Step>, replaced: bool): bool {
    steps != [] && ((replaced && steps[0].Release?) || ReleasedLate(steps[1..], replaced || steps[0].Reallocate?))
  }

  /** A start is under way on a stream that is idle. */
  ghost predicate Window(s: Stream) {
    && Good(s) && s.torn == {} && s.inFlight == {} && !s.running
    && (s.stopper.Waiting? ==> s.stopper.seen == {})
    && (s.starter.Allocating? ==> s.starter.i < s.urbs)
  }

  /** How many buffers the start has replaced. */
  function Replaced(s: Stream): nat {
    match s.starter case NotStarting => 0 case Allocating(i, _) => i case Ready => s.urbs
  }

  predicate GoesOn(s: Stream) { s.starter.Ready? || (s.starter.Allocating? && !s.starter.failed) }

  lemma WindowStep(s: Stream, step: Step)
    requires Window(s) && Enabled(s, step) && !step.BeginStart? && !step.Start?
    ensures var t := Next(s, step);
      && Window(t) && t.urbs == s.urbs && (GoesOn(t) ==> GoesOn(s))
      && (GoesOn(s) && !(step.Release? && Replaced(s) > 0) && Upto(Replaced(s)) <= s.buffers && GoesOn(t) ==>
            Upto(Replaced(t)) <= t.buffers)
      && (Replaced(s) > 0 && GoesOn(t) ==> Replaced(t) > 0 && (0 !in s.buffers || step.Release? ==> 0 !in t.buffers))
      && (GoesOn(t) ==> (Replaced(t) > 0 <==> Replaced(s) > 0 || step.Reallocate?))
  {
    if step.Reallocate? {
      assert Upto(s.starter.i + 1) == Upto(s.starter.i) + {s.starter.i};
    }
  }

  lemma {:induction false} WindowRun(s: Stream, steps: seq<Step>)
    requires Window(s) && IsRun(s, steps) && Between(steps)
    ensures var t := Run(s, steps);
      && Window(t) && t.urbs == s.urbs && (GoesOn(t) ==> GoesOn(s))
      && (GoesOn(t) && Upto(Replaced(s)) <= s.buffers && !ReleasedLate(steps, Replaced(s) > 0) ==>
            Upto(Replaced(t)) <= t.buffers)
      && (GoesOn(t) && (ReleasedLate(steps, Replaced(s) > 0) || (Replaced(s) > 0 && 0 !in s.buffers)) ==>
            0 !in t.buffers)
    decreases |steps|
  {
    hide Window, Next, Upto, Replaced, GoesOn;
    if steps != [] {
      assert forall k :: 0 <= k < |steps[1..]| ==> steps[1..][k] == steps[k + 1];
      WindowStep(s, steps[0]);
      WindowRun(Next(s, steps[0]), steps[1..]);
    }
  }

  /** Every URB in flight has its buffer, and keeps it until the next start. */
  ghost predicate StaysWhole(s: Stream) { s.inFlight <= s.buffers && NeverTears(s) }

  /** Whether the device is still connected is not looked at again after the allocation.  So a start
      that goes through submits URBs with buffers that stay theirs if and only if every stop that
      came in between was through before the first buffer was replaced. */
  lemma StopInWindowIff(s: Stream, window: seq<Step>, accepted: seq<bool>)
    requires Owned(s) && s.stopper.NotStopping? && s.starter == Allocating(0, false)
    requires IsRun(s, window) && Between(window) && Run(s, window).starter.Ready?
    requires |accepted| == s.urbs && accepted[0]
    ensures Enabled(Run(s, window), Start(false, accepted))
    ensures StaysWhole(Next(Run(s, window), Start(false, accepted)))
      <==> !ReleasedLate(window, false) && Run(s, window).stopper.NotStopping?
  {
    WindowRun(s, window);
    var t := Run(s, window);
    var u := Next(t, Start(false, accepted));
    if ReleasedLate(window, false) {
      FirstLaunched(t, accepted);
    } else if t.stopper.Waiting? {
      FirstLaunched(t, accepted);
      ReleaseTears(u);
    } else {
      assert Owned(t);
      StepKeepsOwned(t, Start(false, accepted));
      forall steps | IsRun(u, steps) && AllOrderly(u, steps) && OneStart(steps)
        ensures Run(u, steps).torn == {}
      {
        OwnedRunIsWhole(u, steps);
      }
    }
  }

  lemma FirstLaunched(t: Stream, accepted: seq<bool>)
    requires |accepted| == t.urbs > 0 && accepted[0] && t.flags == {}
    ensures 0 in Next(t, Start(false, accepted)).inFlight
  {
  }

  lemma ReleaseTears(u: Stream)
    requires u.stopper.Waiting? && u.stopper.seen == {} && 0 in u.inFlight
    ensures !NeverTears(u)
  {
    var steps := [Release];
    assert steps[1..] == [];
    assert Run(u, steps).torn != {};
  }

  lemma FirstStep(s: Stream, step: Step, rest: seq<Step>, steps: seq<Step>)
    requires Enabled(s, step) && steps == [step] + rest && IsRun(Next(s, step), rest)
    ensures IsRun(s, steps) && Run(s, steps) == Run(Next(s, step), rest)
  {
    assert steps[1..] == rest;
  }

  lemma NoSteps(s: Stream)
    ensures IsRun(s, []) && Run(s, []) == s
  {
  }

  lemma OwnedIsIdle(s: Stream)
    requires Owned(s) && !s.starter.NotStarting?
    ensures s.flags == s.inFlight == {} && !s.running
  {
  }

  /** It can happen: the device is disconnected after the allocation, and then URBs are submitted
      to it without buffers. */
  lemma DisconnectInWindow(s: Stream)
    requires Owned(s) && s.urbs == 2 && s.stopper.NotStopping? && s.starter == Allocating(0, false)
    ensures var window := [Reallocate(true), Reallocate(true), BeginStop(true), Release];
      && IsRun(s, window) && Between(window) && Run(s, window).starter.Ready?
      && var t := Next(Run(s, window), Start(false, [true, true]));
      && !t.connected && t.inFlight == {0, 1} && t.buffers == {}
  {
    hide IsRun, Run, Owned;
    var s1 := Next(s, Reallocate(true));
    var s2 := Next(s1, Reallocate(true));
    var s3 := Next(s2, BeginStop(true));
    var s4 := Next(s3, Release);
    OwnedIsIdle(s);
    NoSteps(s4);
    FirstStep(s3, Release, [], [Release]);
    FirstStep(s2, BeginStop(true), [Release], [BeginStop(true), Release]);
    FirstStep(s1, Reallocate(true), [BeginStop(true), Release], [Reallocate(true), BeginStop(true), Release]);
    FirstStep(s, Reallocate(true), [Reallocate(true), BeginStop(true), Release],
              [Reallocate(true), Reallocate(true), BeginStop(true), Release]);
    assert Launch({0, 1}, 2, 2, [true, true]) == ({0, 1}, true);
    assert Launch({0}, 1, 2, [true, true]) == ({0, 1}, true) by {
      assert {0} + {1} == {0, 1};
    }
    assert s4.flags + {0} == {0};
    assert Launch(s4.flags, 0, 2, [true, true]) == ({0, 1}, true);
  }

  // ----- the end of the loop -----

  /** When as many completions have come in as URBs were in flight, the loop sees no flag and ends. */
  lemma LoopEnds(s: Stream, steps: seq<Step>, signal: bool)
    requires Good(s) && IsRun(s, steps) && !s.running && NoStart(steps) && Completions(steps) == |s.inFlight|
    ensures var t := Run(s, steps);
      && t.inFlight == t.flags == {}
      && (Enabled(t, Poll(signal)) ==>
            Next(t, Poll(signal)).stopper == Waiting({}, t.stopper.notKilled && !signal))
  {
    StoppedDrains(s, steps);
    FlagsTrackUrbs(s, steps);
  }

  // ----- the routines -----

  class UsbStream {
    const urbs: nat
    var connected: bool
    var running: bool
    var flags: set<nat>
    var buffers: set<nat>
    var starter: Starter
    var stopper: Stopper
    ghost var inFlight: set<nat>
    ghost var torn: set<nat>

    ghost function View(): Stream
      reads this
    {
      Stream(urbs, connected, running, flags, inFlight, buffers, torn, starter, stopper)
    }

    constructor (sync: bool)
      ensures Owned(View()) && connected && !running && starter.NotStarting? && stopper.NotStopping?
      ensures urbs == if sync then 4 else 2
    {
      urbs := if sync then 4 else 2;
      connected, running, flags, buffers, starter, stopper := true, false, {}, {}, NotStarting, NotStopping;
      inFlight, torn := {}, {};
    }

    /** The first locked section of usbin_start and usbout_start. */
    method BeginStarting() returns (err: bool)
      requires urbs > 0 && starter.NotStarting?
      modifies this`starter
      ensures err <==> !connected
      ensures View() == if connected && !running then Next(old(View()), BeginStart) else old(View())
    {
      err := !connected;
      if connected && !running {
        starter := Allocating(0, false);
      }
    }

    /** kfree and kmalloc for one URB, without the lock. */
    method ReallocateBuffer(got: bool)
      requires Enabled(View(), Reallocate(got))
      modifies this`buffers, this`torn, this`starter
      ensures View() == Next(old(View()), Reallocate(got))
    {
      var i, failed := starter.i, starter.failed || !got;
      torn := torn + (inFlight * {i});
      buffers := if got then buffers + {i} else buffers - {i};
      starter := AfterAllocation(urbs, i + 1, failed);
    }

    /** The locked part of usbin_start and usbout_start.  `accepted` says for each URB whether its
        descriptor can be prepared and the host controller takes it. */
    method StartUrbs(idle: bool, accepted: seq<bool>)
      requires Enabled(View(), Start(idle, accepted))
      modifies this`running, this`flags, this`inFlight, this`starter
      ensures View() == Next(old(View()), Start(idle, accepted))
    {
      starter := NotStarting;
      if idle {
        return;
      }
      running := true;
      ghost var flags0, inFlight0 := flags, inFlight;
      ghost var goal := Launch(flags, 0, |accepted|, accepted);
      for i := 0 to |accepted|
        invariant starter.NotStarting? && flags0 <= flags && inFlight == inFlight0 + (flags - flags0)
        invariant running ==> Launch(flags, i, |accepted|, accepted) == goal
        invariant !running ==> goal == (flags, false)
      {
        if running && i !in flags {
          if accepted[i] {
            flags := flags + {i};
            inFlight := inFlight + {i};
          } else {
            running := false;
          }
        }
      }
    }

    /** The completion handlers. */
    method Completed(urb: nat, retired: bool, resubmitted: bool)
      requires Enabled(View(), Complete(urb, retired, resubmitted)) && Good(View())
      modifies this`running, this`flags, this`inFlight, this`torn
      ensures View() == Next(old(View()), Complete(urb, retired, resubmitted)) && Good(View())
    {
      inFlight, torn := inFlight - {urb}, torn - {urb};
      if retired && running && resubmitted {
        flags := flags + {urb};
        inFlight := inFlight + {urb};
      } else {
        flags := flags - {urb};
        running := false;
      }
    }

    /** The beginning of usbin_stop, usbout_stop and the disconnect routines. */
    method BeginStopping(disconnect: bool)
      requires Enabled(View(), BeginStop(disconnect))
      modifies this`running, this`connected, this`stopper
      ensures View() == Next(old(View()), BeginStop(disconnect))
    {
      running := false;
      if disconnect {
        connected := false;
      }
      stopper := Waiting(flags, true);
    }

    /** One turn of the loop: look at the flags; on the first signal ask for the URBs still running. */
    method PollFlags(signal: bool) returns (unlink: set<nat>)
      requires Enabled(View(), Poll(signal))
      modifies this`stopper
      ensures View() == Next(old(View()), Poll(signal))
      ensures unlink == if old(stopper).notKilled && signal then flags else {}
    {
      var seen := flags;
      unlink := {};
      var notKilled := stopper.notKilled;
      if notKilled && signal {
        unlink := seen;
        notKilled := false;
      }
      stopper := Waiting(seen, notKilled);
    }

    /** The end of the stop routines: the buffers of URBs that are in flight are never freed. */
    method ReleaseBuffers() returns (freed: set<nat>)
      requires Enabled(View(), Release) && Owned(View())
      modifies this`buffers, this`stopper
      ensures View() == Next(old(View()), Release) && Owned(View())
      ensures freed == old(buffers) && inFlight == {}
    {
      StepKeepsOwned(View(), Release);
      freed := buffers;
      buffers := {};
      stopper := NotStopping;
    }
  }
}
