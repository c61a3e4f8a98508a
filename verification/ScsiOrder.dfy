/** The completion-order protocol of the hpusbscsi driver.

    A SCSI command is carried by one data URB, which is refilled for every
    transfer of the command, and is finished by one status byte that arrives on
    an interrupt URB.  The two URBs complete in any order; the driver's six-state
    machine must call the SCSI layer back once both are through.
 */
module ScsiOrder {

  /** HP_STATE_*. */
  datatype HpState = Free | Beginning | Working | Error | Wait | Premature

  /** What a command carries: nothing, a scatter list of `useSg` fragments, or one buffer. */
  datatype Payload = NoPayload | ScatterGather(useSg: nat) | Plain

  /** One filling of the data URB. */
  datatype Transfer = Command | Fragment(index: nat) | Whole

  /** The completion handler the data URB was filled with. */
  datatype Handler = SimpleCommand | ScatterGatherDone | SimplePayload | SimpleDone

  /** The bulk pipe a transfer goes over. */
  datatype Pipe = Out | In

  datatype DataUrb = Idle | InFlight(transfer: Transfer, handler: Handler, pipe: Pipe)

  /** The driver's fields, and what happened so far to the current command. */
  datatype Host = Host(
    state: HpState, fragment: nat, dataPipe: Pipe, payload: Payload, hasCallback: bool, result: Word, urb: DataUrb,
    submitted: seq<Transfer>, completed: seq<Transfer>, initial: Word, statuses: seq<Word>, callbacks: seq<Word>)

  /** A machine word as the set of its one bits. */
  type Word = set<nat>

  const DID_ERROR: Word := {0, 1, 2}
  const DID_BAD_TARGET: Word := {2}

  /** The result word once the status byte has been recorded in it: its six low bits
      are cleared (SCSI_ERR_MASK) and the byte, shifted left by one, is or-ed in. */
  function Record(result: Word, status: Word): Word {
    (set b | b in result && b >= 6 :: b) + (set b | b in status :: b + 1)
  }

  /** Bit by bit: below 6 there is the status byte moved up by one, above it is or-ed to what was there. */
  ghost predicate Recorded(before: Word, status: Word, after: Word) {
    forall b: nat :: b in after <==>
      if b == 0 then false else if b < 6 then b - 1 in status else b in before || b - 1 in status
  }

  lemma RecordIs(result: Word, status: Word)
    ensures Recorded(result, status, Record(result, status))
  {
    forall b: nat | b > 0 && b - 1 in status
      ensures b in Record(result, status)
    {
      assert b == (b - 1) + 1;
    }
  }

  /** The number that the six low bits stand for. */
  function Low(w: Word): nat {
    (if 0 in w then 1 else 0) + (if 1 in w then 2 else 0) + (if 2 in w then 4 else 0)
    + (if 3 in w then 8 else 0) + (if 4 in w then 0x10 else 0) + if 5 in w then 0x20 else 0
  }

  /** The six low bits are twice the status byte, modulo 64; those above lose nothing, and get
      nothing from a byte below 32. */
  lemma RecordedValue(before: Word, status: Word, after: Word)
    requires Recorded(before, status, after)
    ensures Low(after) == 2 * Low(status) % 64
    ensures forall b :: b in before && b >= 6 ==> b in after
    ensures (forall b :: b in status ==> b < 5) ==> forall b :: b in after && b >= 6 ==> b in before
  {
    assert 1 in after <==> 0 in status;
    assert 2 in after <==> 1 in status;
    assert 3 in after <==> 2 in status;
    assert 4 in after <==> 3 in status;
    assert 5 in after <==> 4 in status;
  }

  const NO_COMMAND_YET := Host(Free, 0, Out, NoPayload, false, {}, Idle, [], [], {}, [], [])

  // ----- the handlers, as functions of the state -----

  /** The command block goes out, what it moves goes the way current_data_pipe says. */
  function Submit(h: Host, t: Transfer, handler: Handler): Host {
    h.(urb := InFlight(t, handler, if t.Command? then Out else h.dataPipe), submitted := h.submitted + [t])
  }

  function CallBack(h: Host): Host {
    if h.hasCallback then h.(callbacks := h.callbacks + [h.result]) else h
  }

  /** handle_usb_error */
  function UsbError(h: Host): Host {
    CallBack(if h.hasCallback then h.(result := DID_ERROR) else h).(state := Free)
  }

  function CommandHandler(p: Payload): Handler {
    match p
    case NoPayload => SimpleCommand
    case ScatterGather(_) => ScatterGatherDone
    case Plain => SimplePayload
  }

  /** hpusbscsi_scsi_queuecommand for the device's own lun; `submitted` is the outcome of usb_submit_urb. */
  function Queue(h: Host, p: Payload, pipe: Pipe, hasCallback: bool, result: Word, accepted: bool): Host {
    // fragment index and pipe are set before a violation is noticed
    var f, d := if p.ScatterGather? then 0 else h.fragment, if p.NoPayload? then h.dataPipe else pipe;
    if h.state != Free then h.(fragment := f, dataPipe := d)
    else
      var q := Host(Beginning, f, d, p, hasCallback, result, Idle, [], [], result, [], []);
      if accepted then
        Submit(q, Command, CommandHandler(p))
      else
        CallBack(q.(state := Free, result := if hasCallback then DID_ERROR else result))
  }

  /** control_interrupt_callback */
  function OnStatus(h: Host, ok: bool, status: Word): Host {
    if !ok then
      if h.state != Free then UsbError(h) else h
    else
      var r := h.(result := Record(h.result, status), statuses := h.statuses + [status]);
      match h.state
      case Wait => CallBack(r).(state := Free)
      case Working => r.(state := Premature)
      case Beginning => r.(state := Premature)
      case _ => r.(state := Free)
  }

  /** The data URB leaves the bus; its handler runs next. */
  function Retire(h: Host): Host {
    if h.urb.InFlight? then h.(urb := Idle, completed := h.completed + [h.urb.transfer]) else h
  }

  /** simple_command_callback, and simple_done, which takes the same decision. */
  function OnLast(h: Host, ok: bool): Host {
    if !ok then UsbError(Retire(h))
    else if h.state != Premature then Retire(h).(state := Wait)
    else CallBack(Retire(h)).(state := Free)
  }

  /** scatter_gather_callback */
  function OnScatterGather(h: Host, ok: bool, accepted: bool): Host
    requires h.payload.ScatterGather?
  {
    if !ok then UsbError(Retire(h))
    else
      var handler := if h.fragment + 1 != h.payload.useSg then ScatterGatherDone else SimpleDone;
      var w := Retire(h).(state := if h.state != Premature then Working else Premature,
                          fragment := h.fragment + 1);
      if accepted then Submit(w, Fragment(h.fragment), handler) else w.(state := Error)
  }

  /** simple_payload_callback */
  function OnSimplePayload(h: Host, ok: bool, accepted: bool): Host {
    if !ok || !accepted then UsbError(Retire(h))
    else
      var w := Submit(Retire(h), Whole, SimpleDone);
      if h.state != Premature then w.(state := Working) else CallBack(w).(state := Free)
  }

  /** The driver proper.  The ghost fields are the history of the current command. */
  class HpUsbScsi {
    var state: HpState
    var fragment: nat
    var dataPipe: Pipe         // current_data_pipe
    var payload: Payload       // srb->bufflen, srb->use_sg
    var scallback: bool        // scallback != NULL
    var result: Word           // srb->result
    var dataUrb: DataUrb
    ghost var submitted: seq<Transfer>
    ghost var completed: seq<Transfer>
    ghost var initial: Word
    ghost var statuses: seq<Word>
    ghost var callbacks: seq<Word>

    ghost function View(): Host
      reads this
    {
      Host(state, fragment, dataPipe, payload, scallback, result, dataUrb,
           submitted, completed, initial, statuses, callbacks)
    }

    constructor ()
      ensures View() == NO_COMMAND_YET
    {
      state, fragment, dataPipe, payload, scallback, result, dataUrb := Free, 0, Out, NoPayload, false, {}, Idle;
      submitted, completed, initial, statuses, callbacks := [], [], {}, [], [];
    }

    method SubmitUrb(t: Transfer, handler: Handler)
      modifies this`dataUrb, this`submitted
      ensures View() == Submit(old(View()), t, handler)
    {
      dataUrb := InFlight(t, handler, if t.Command? then Out else dataPipe);
      submitted := submitted + [t];
    }

    method CallScsi()
      modifies this`callbacks
      ensures View() == CallBack(old(View()))
    {
      if scallback {
        callbacks := callbacks + [result];
      }
    }

    method HandleUsbError()
      modifies this
      ensures View() == UsbError(old(View()))
    {
      if scallback {
        result := DID_ERROR;
        CallScsi();
      }
      state := Free;
    }

    method Begin(p: Payload, callback: bool, word: Word)
      modifies this
      ensures View() == Host(Beginning, old(fragment), old(dataPipe), p, callback, word, Idle, [], [], word, [], [])
    {
      state := Beginning;
      scallback, payload, result := callback, p, word;
      dataUrb, submitted, completed, initial, statuses, callbacks := Idle, [], [], word, [], [];
    }

    /** hpusbscsi_scsi_queuecommand; `answers` is what the command is called back with at once. */
    method QueueCommand(lun: nat, id: nat, channel: nat, p: Payload, pipe: Pipe, callback: bool, word: Word,
                        accepted: bool)
      returns (violation: bool, answers: seq<Word>)
      modifies this
      ensures var own := lun == id == channel == 0;
        && violation == (own && old(state) != Free)
        && View() == (if own then Queue(old(View()), p, pipe, callback, word, accepted) else old(View()))
        && answers == (if !own && callback then [DID_BAD_TARGET]
                       else if own && !violation && callback && !accepted then [DID_ERROR] else [])
    {
      answers := [];
      if lun != 0 || id != 0 || channel != 0 {
        if callback {
          answers := [DID_BAD_TARGET];
        }
        return false, answers;
      }
      if !p.NoPayload? {
        if p.ScatterGather? {
          fragment := 0;
        }
        dataPipe := pipe;
      }
      if state != Free {
        return true, [];
      }
      Begin(p, callback, word);
      if accepted {
        SubmitUrb(Command, CommandHandler(p));
      } else {
        state := Free;
        if scallback {
          result := DID_ERROR;
          CallScsi();
          answers := [result];
        }
      }
      return false, answers;
    }

    method ControlInterruptCallback(ok: bool, status: Word)
      modifies this
      ensures View() == OnStatus(old(View()), ok, status)
    {
      if !ok {
        if state != Free {
          HandleUsbError();
        }
        return;
      }
      statuses := statuses + [status];
      result := Record(result, status);
      if state == Wait {
        CallScsi();
      }
      match state
      case Wait => state := Free;
      case Working => state := Premature;
      case Beginning => state := Premature;
      case _ => state := Free;
    }

    method RetireUrb()
      modifies this
      ensures View() == Retire(old(View()))
    {
      if dataUrb.InFlight? {
        completed := completed + [dataUrb.transfer];
        dataUrb := Idle;
      }
    }

    /** simple_command_callback */
    method SimpleCommandCallback(ok: bool)
      requires dataUrb.InFlight? && dataUrb.handler == SimpleCommand
      modifies this
      ensures View() == OnLast(old(View()), ok)
    {
      RetireUrb();
      if !ok {
        HandleUsbError();
        return;
      }
      if state != Premature {
        state := Wait;
      } else {
        CallScsi();
        state := Free;
      }
    }

    /** simple_done */
    method SimpleDoneCallback(ok: bool)
      requires dataUrb.InFlight? && dataUrb.handler == SimpleDone
      modifies this
      ensures View() == OnLast(old(View()), ok)
    {
      RetireUrb();
      if !ok {
        HandleUsbError();
        return;
      }
      if state != Premature {
        state := Wait;
      } else {
        CallScsi();
        state := Free;
      }
    }

    method ScatterGatherCallback(ok: bool, accepted: bool)
      requires dataUrb.InFlight? && dataUrb.handler == ScatterGatherDone && payload.ScatterGather?
      modifies this
      ensures View() == OnScatterGather(old(View()), ok, accepted)
    {
      RetireUrb();
      if !ok {
        HandleUsbError();
        return;
      }
      var handler := if fragment + 1 != payload.useSg then ScatterGatherDone else SimpleDone;
      if state != Premature {
        state := Working;
      }
      var piece := fragment;
      fragment := fragment + 1;
      if accepted {
        SubmitUrb(Fragment(piece), handler);
      } else {
        state := Error;
      }
    }

    method SimplePayloadCallback(ok: bool, accepted: bool)
      requires dataUrb.InFlight? && dataUrb.handler == SimplePayload
      modifies this
      ensures View() == OnSimplePayload(old(View()), ok, accepted)
    {
      RetireUrb();
      if !ok {
        HandleUsbError();
        return;
      }
      if accepted {
        SubmitUrb(Whole, SimpleDone);
      } else {
        HandleUsbError();
        return;
      }
      if state != Premature {
        state := Working;
      } else {
        CallScsi();
        state := Free;
      }
    }
  }

  // ----- runs -----

  /** What the SCSI layer, the device and the host controller do next when nothing goes wrong. */
  datatype Event = QueueCommand(payload: Payload, pipe: Pipe, word: Word) | Status(byte: Word) | DataDone

  /** A command has been queued and its status byte has not arrived. */
  ghost predicate StatusDue(h: Host) {
    h.submitted != [] && h.statuses == []
  }

  /** The SCSI layer has at most one command queued (can_queue is 1); the device sends
      one status byte per command, at any time. */
  ghost predicate Enabled(h: Host, e: Event) {
    match e
    case QueueCommand(p, _, _) =>
      (h == NO_COMMAND_YET || h.callbacks != []) && h.urb.Idle? && (p.ScatterGather? ==> p.useSg > 0)
    case Status(_) => StatusDue(h)
    case DataDone => h.urb.InFlight? && (h.urb.handler.ScatterGatherDone? ==> h.payload.ScatterGather?)
  }

  ghost function Step(h: Host, e: Event): Host
    requires Enabled(h, e)
  {
    match e
    case QueueCommand(p, pipe, word) => Queue(h, p, pipe, true, word, true)
    case Status(b) => OnStatus(h, true, b)
    case DataDone =>
      match h.urb.handler
      case SimpleCommand => OnLast(h, true)
      case SimpleDone => OnLast(h, true)
      case ScatterGatherDone => OnScatterGather(h, true, true)
      case SimplePayload => OnSimplePayload(h, true, true)
  }

  ghost predicate IsRun(h: Host, es: seq<Event>)
    decreases |es|
  {
    es == [] || (Enabled(h, es[0]) && IsRun(Step(h, es[0]), es[1..]))
  }

  ghost function Run(h: Host, es: seq<Event>): Host
    requires IsRun(h, es)
    decreases |es|
  {
    if es == [] then h else Run(Step(h, es[0]), es[1..])
  }

  /** Everything a command has to move, in order. */
  ghost function Plan(p: Payload): (plan: seq<Transfer>)
    ensures |plan| > 0
  {
    match p
    case NoPayload => [Command]
    case ScatterGather(n) => [Command] + seq(n, (i: nat) => Fragment(i))
    case Plain => [Command, Whole]
  }

  ghost predicate Finished(h: Host) {
    h.statuses != [] && h.completed == Plan(h.payload)
  }

  /** The transfers of the command are submitted in plan order, each once, and the next
      only when the one before it is through. */
  ghost predicate InOrder(h: Host) {
    var plan := Plan(h.payload);
    && 0 < |h.submitted| <= |plan|
    && h.submitted == plan[..|h.submitted|]
    && (h.urb.InFlight? ==> h.completed == plan[..|h.submitted| - 1] && h.urb.transfer == plan[|h.submitted| - 1])
    && (h.urb.Idle? ==> h.completed == h.submitted == plan)
  }

  /** The SCSI layer is called back once, with the status byte recorded, exactly when that
      byte and the last transfer are both through; and then the driver is free again. */
  ghost predicate CalledBackWhenFinished(h: Host) {
    && |h.statuses| <= 1
    && h.result == (if h.statuses == [] then h.initial else Record(h.initial, h.statuses[0]))
    && h.callbacks == (if Finished(h) then [h.result] else [])
    && (h.state == Free <==> Finished(h))
  }

  ghost predicate StateTellsPhase(h: Host) {
    && h.hasCallback
    && (h.state == Premature <==> h.statuses != [] && !Finished(h))
    && (h.state == Wait <==> h.statuses == [] && h.urb.Idle?)
    && (h.state == Beginning <==> h.statuses == [] && h.urb.InFlight? && h.urb.transfer == Command)
    && (h.state == Working <==> h.statuses == [] && h.urb.InFlight? && h.urb.transfer != Command)
  }

  ghost predicate HandlerFits(h: Host) {
    && (h.payload.ScatterGather? ==> h.payload.useSg > 0)
    && (h.urb.InFlight? ==> h.urb.pipe == if h.urb.transfer == Command then Out else h.dataPipe)
    && (h.urb.InFlight? ==>
      match h.payload
      case NoPayload => h.urb.handler == SimpleCommand
      case ScatterGather(n) =>
        h.fragment == |h.submitted| - 1 && h.urb.handler == if h.fragment == n then SimpleDone else ScatterGatherDone
      case Plain => h.urb.handler == if h.urb.transfer == Command then SimplePayload else SimpleDone)
  }

  /** No status byte has overtaken the command block of a plain payload. */
  ghost predicate NotOvertaken(h: Host) {
    h.urb.InFlight? && h.urb.handler.SimplePayload? ==> h.statuses == []
  }

  ghost predicate Good(h: Host) {
    h == NO_COMMAND_YET ||
    (InOrder(h) && CalledBackWhenFinished(h) && StateTellsPhase(h) && HandlerFits(h) && NotOvertaken(h))
  }

  ghost predicate Overtakes(h: Host, e: Event) {
    e.Status? && h.urb.InFlight? && h.urb.handler.SimplePayload?
  }

  lemma RetireExtends(h: Host)
    requires h != NO_COMMAND_YET && InOrder(h) && h.urb.InFlight?
    ensures var k := |h.submitted|; Retire(h).completed == h.submitted == Plan(h.payload)[..k]
    ensures h.completed != Plan(h.payload)
    ensures |h.submitted| == |Plan(h.payload)| ==> h.submitted == Plan(h.payload)
  {
    var plan, k := Plan(h.payload), |h.submitted|;
    assert plan[..k - 1] + [plan[k - 1]] == plan[..k];
    assert plan[..|plan|] == plan;
    assert |h.completed| < |plan|;
  }

  lemma LastDoneKeepsGood(h: Host)
    requires Good(h) && Enabled(h, DataDone) && (h.urb.handler.SimpleCommand? || h.urb.handler.SimpleDone?)
    ensures Good(Step(h, DataDone))
  {
    RetireExtends(h);
    assert |h.submitted| == |Plan(h.payload)|;
    var t := Step(h, DataDone);
    assert t.completed == t.submitted == Plan(t.payload) && t.urb.Idle?;
    assert InOrder(t) && HandlerFits(t);
    assert Finished(t) <==> h.statuses != [];
    assert CalledBackWhenFinished(t) && StateTellsPhase(t);
  }

  lemma NextSubmitted(h: Host, h': Host)
    requires h != NO_COMMAND_YET && InOrder(h) && h.urb.InFlight?
    requires |h.submitted| < |Plan(h.payload)| && h'.urb.InFlight? && h'.payload == h.payload
    requires h'.completed == Retire(h).completed && h'.submitted == h.submitted + [h'.urb.transfer]
    requires h'.urb.transfer == Plan(h.payload)[|h.submitted|]
    ensures InOrder(h') && h'.completed != Plan(h.payload)
  {
    RetireExtends(h);
    var plan, k := Plan(h.payload), |h.submitted|;
    assert plan[..k] + [plan[k]] == plan[..k + 1];
  }

  lemma PayloadKeepsGood(h: Host)
    requires Good(h) && Enabled(h, DataDone) && h.urb.handler.SimplePayload?
    ensures Good(Step(h, DataDone))
  {
    hide Record, Recorded;
    RetireExtends(h);
    NextSubmitted(h, Step(h, DataDone));
  }

  lemma FragmentKeepsGood(h: Host)
    requires Good(h) && Enabled(h, DataDone) && h.urb.handler.ScatterGatherDone?
    ensures Good(Step(h, DataDone))
  {
    hide Record, Recorded;
    RetireExtends(h);
    NextSubmitted(h, Step(h, DataDone));
  }

  lemma DataDoneKeepsGood(h: Host)
    requires Good(h) && Enabled(h, DataDone)
    ensures Good(Step(h, DataDone))
  {
    hide Good, Step;
    if h.urb.handler.SimpleCommand? || h.urb.handler.SimpleDone? {
      LastDoneKeepsGood(h);
    } else if h.urb.handler.SimplePayload? {
      PayloadKeepsGood(h);
    } else {
      FragmentKeepsGood(h);
    }
  }

  lemma QueueKeepsGood(h: Host, p: Payload, pipe: Pipe, word: Word)
    requires Good(h) && Enabled(h, QueueCommand(p, pipe, word))
    ensures Good(Step(h, QueueCommand(p, pipe, word)))
    ensures Step(h, QueueCommand(p, pipe, word)).payload == p
  {
    var plan, t := Plan(p), Step(h, QueueCommand(p, pipe, word));
    assert t.submitted == [Command] && t.completed == [] && t.statuses == [] && t.callbacks == [];
    assert [Command] == plan[..1];
    assert [] == plan[..0];
    assert InOrder(t) && HandlerFits(t);
    assert CalledBackWhenFinished(t) && StateTellsPhase(t);
  }

  lemma StepKeepsGood(h: Host, e: Event)
    requires Good(h) && Enabled(h, e) && !Overtakes(h, e)
    ensures Good(Step(h, e))
  {
    match e
    case QueueCommand(p, pipe, word) => QueueKeepsGood(h, p, pipe, word);
    case Status(_) =>
    case DataDone => DataDoneKeepsGood(h);
  }

  ghost predicate NeverOvertakes(h: Host, es: seq<Event>)
    requires IsRun(h, es)
    decreases |es|
  {
    es == [] || (!Overtakes(h, es[0]) && NeverOvertakes(Step(h, es[0]), es[1..]))
  }

  /** In every run of any number of commands, however their status bytes and completions interleave. */
  lemma {:induction false} EveryRunIsGood(h: Host, es: seq<Event>)
    requires Good(h) && IsRun(h, es) && NeverOvertakes(h, es)
    ensures Good(Run(h, es))
    decreases |es|
  {
    if es != [] {
      StepKeepsGood(h, es[0]);
      EveryRunIsGood(Step(h, es[0]), es[1..]);
    }
  }

  /** Commands without a plain payload cannot be overtaken at all. */
  lemma {:induction false} OnlyPlainPayloadsAreOvertaken(h: Host, es: seq<Event>)
    requires Good(h) && IsRun(h, es)
    requires !h.payload.Plain? && forall e | e in es :: e.QueueCommand? ==> !e.payload.Plain?
    ensures NeverOvertakes(h, es)
    decreases |es|
  {
    if es != [] {
      StepKeepsGood(h, es[0]);
      OnlyPlainPayloadsAreOvertaken(Step(h, es[0]), es[1..]);
    }
  }

  // ----- failures -----

  /** After a USB error, or if a command or a payload cannot be submitted, the SCSI layer is called
      back with DID_ERROR, which is 7, and the driver is free. */
  ghost predicate CalledBackWithError(h: Host, t: Host) {
    t.state == Free && t.callbacks == h.callbacks + [{0, 1, 2}]
  }

  lemma ErrorsCallBack(h: Host, status: Word, accepted: bool)
    requires h.hasCallback && h.state != Free
    ensures CalledBackWithError(h, OnStatus(h, false, status)) && CalledBackWithError(h, OnLast(h, false))
    ensures CalledBackWithError(h, OnSimplePayload(h, false, accepted))
    ensures CalledBackWithError(h, OnSimplePayload(h, true, false))
    ensures h.payload.ScatterGather? ==> CalledBackWithError(h, OnScatterGather(h, false, accepted))
  {
  }

  lemma CommandNotAccepted(h: Host, p: Payload, pipe: Pipe, word: Word)
    requires h.state == Free
    ensures var t := Queue(h, p, pipe, true, word, false); t.state == Free && t.callbacks == [{0, 1, 2}]
  {
  }

  /** A fragment that cannot be submitted is different: nobody is called back, and the status byte
      that follows frees the driver without telling the SCSI layer. */
  lemma FragmentNotAccepted(h: Host, status: Word)
    requires h.payload.ScatterGather? && h.hasCallback
    ensures var t := OnScatterGather(h, true, false);
      && t.state == Error && t.callbacks == h.callbacks
      && OnStatus(t, true, status).state == Free && OnStatus(t, true, status).callbacks == h.callbacks
  {
  }

  /** How many events the current command still waits for. */
  ghost function Outstanding(h: Host): int {
    |Plan(h.payload)| - |h.completed| + if h.statuses == [] then 1 else 0
  }

  lemma EventsAreNeverLacking(h: Host, e: Event)
    requires Good(h) && h != NO_COMMAND_YET
    ensures Outstanding(h) >= 0 && (Outstanding(h) == 0 <==> Finished(h))
    ensures Outstanding(h) > 0 ==> (exists b :: Enabled(h, Status(b))) || Enabled(h, DataDone)
    ensures Enabled(h, e) && !e.QueueCommand? ==> Outstanding(Step(h, e)) == Outstanding(h) - 1
  {
    var plan := Plan(h.payload);
    if Outstanding(h) == 0 {
      assert |h.completed| == |plan|;
      assert h.completed == plan[..|plan|];
    }
    assert h.statuses == [] ==> Enabled(h, Status({}));
    if Enabled(h, e) && !e.QueueCommand? {
      assert Step(h, e).payload == h.payload;
    }
  }

  /** A command is through, called back once and the driver free again, after one event for
      each transfer of its plan and one for its status byte; not before, and nothing follows. */
  lemma {:induction false} CommandSettles(h: Host, es: seq<Event>)
    requires Good(h) && h != NO_COMMAND_YET && IsRun(h, es) && NeverOvertakes(h, es)
    requires forall e | e in es :: !e.QueueCommand?
    ensures |es| <= Outstanding(h)
    ensures var last := Run(h, es);
      if |es| == Outstanding(h) then
        && last.state == Free && last.completed == Plan(h.payload) && |last.callbacks| == |last.statuses| == 1
        && Recorded(last.initial, last.statuses[0], last.callbacks[0]) && last.initial == h.initial
      else
        last.state != Free && last.callbacks == []
    decreases |es|
  {
    if es == [] {
      EventsAreNeverLacking(h, DataDone);
      if h.statuses != [] {
        RecordIs(h.initial, h.statuses[0]);
      }
    } else {
      EventsAreNeverLacking(h, es[0]);
      StepKeepsGood(h, es[0]);
      CommandSettles(Step(h, es[0]), es[1..]);
    }
  }

  /** The command block of a plain payload is on its way. */
  ghost predicate PlainBegun(h: Host) {
    && h.state == Beginning && h.payload == Plain && h.hasCallback
    && h.urb.InFlight? && h.urb.transfer == Command && h.urb.handler == SimplePayload
    && h.submitted == [Command] && h.completed == [] && h.statuses == [] && h.callbacks == []
  }

  lemma PlainOvertaken(h: Host, e1: Event, e2: Event, e3: Event)
    requires PlainBegun(h) && e1.Status? && Enabled(h, e1)
    requires !e2.QueueCommand? && Enabled(Step(h, e1), e2)
    requires !e3.QueueCommand? && Enabled(Step(Step(h, e1), e2), e3)
    ensures var h2 := Step(Step(h, e1), e2); var h3 := Step(h2, e3);
      && h3.completed == [Command, Whole] && |h3.statuses| == 1
      && h2.callbacks != [] && h2.completed == [Command] && h3.state == Wait
  {
    assert e2.DataDone? && e3.DataDone?;
  }

  lemma PlainServed(h: Host, e1: Event, e2: Event, e3: Event)
    requires PlainBegun(h) && e1.DataDone? && Enabled(h, e1)
    requires !e2.QueueCommand? && Enabled(Step(h, e1), e2)
    requires !e3.QueueCommand? && Enabled(Step(Step(h, e1), e2), e3)
    ensures var h2 := Step(Step(h, e1), e2); var h3 := Step(h2, e3);
      && h3.completed == [Command, Whole] && |h3.statuses| == 1
      && h2.callbacks == [] && h3.state == Free
  {
    if e2.Status? {
      assert e3.DataDone?;
    } else {
      assert e3.Status?;
    }
  }

  /** A plain payload is served correctly if and only if its status byte does not overtake its
      command block.  When it does, the SCSI layer is called back before the data has moved and
      the driver ends up waiting for a second status byte. */
  lemma PlainPayloadServedIff(h: Host, pipe: Pipe, word: Word, e1: Event, e2: Event, e3: Event)
    requires Good(h) && Enabled(h, QueueCommand(Plain, pipe, word))
    requires !e1.QueueCommand? && !e2.QueueCommand? && !e3.QueueCommand?
    requires Enabled(Step(h, QueueCommand(Plain, pipe, word)), e1)
    requires Enabled(Step(Step(h, QueueCommand(Plain, pipe, word)), e1), e2)
    requires Enabled(Step(Step(Step(h, QueueCommand(Plain, pipe, word)), e1), e2), e3)
    ensures var h2 := Step(Step(Step(h, QueueCommand(Plain, pipe, word)), e1), e2);
      var h3 := Step(h2, e3);
      && h3.completed == Plan(Plain) && |h3.statuses| == 1
      && (h3.state == Free <==> !e1.Status?)
      && (h2.callbacks == [] <==> !e1.Status?)
      && (e1.Status? ==>
            h2.completed == [Command] && h3.state == Wait && Queue(h3, NoPayload, pipe, true, word, true) == h3)
  {
    hide Step, Good;
    var begun := Step(h, QueueCommand(Plain, pipe, word));
    QueueBegins(h, pipe, word);
    if e1.Status? {
      PlainOvertaken(begun, e1, e2, e3);
    } else {
      PlainServed(begun, e1, e2, e3);
    }
  }

  lemma QueueBegins(h: Host, pipe: Pipe, word: Word)
    requires Good(h) && Enabled(h, QueueCommand(Plain, pipe, word))
    ensures PlainBegun(Step(h, QueueCommand(Plain, pipe, word)))
  {
  }
}
