/** Building the OSS mixer of a USB audio device, by a walk over its units that keeps its state in
    a table of channels, a mask of free channel numbers and a bitmap of visited units. */
module AudioMixer {
  import opened Bits
  import opened Numbers
  import opened AudioLevels
  import opened AudioUnits
  import opened AudioControls

  // ----- free channels -----

  ghost predicate Distinct(s: seq<nat>) {
    forall i, j :: 0 <= i < j < |s| ==> s[i] != s[j]
  }

  /** Distinct numbers below `n` that leave one number out are fewer than `n`. */
  lemma {:induction false} FewerThan(s: seq<nat>, n: nat, free: nat, seen: set<nat>)
    requires Distinct(s) && free < n && free in seen
    requires forall i :: 0 <= i < |s| ==> s[i] < n && s[i] !in seen
    requires forall x :: x in seen ==> x < n
    ensures |s| + |seen| <= n
    decreases |s|
  {
    if s == [] {
      SmallSet(seen, n);
    } else {
      var init, last := s[..|s| - 1], s[|s| - 1];
      FewerThan(init, n, free, seen + {last});
    }
  }

  function NumbersOf(channels: seq<Channel>): (s: seq<nat>)
    ensures |s| == |channels|
  {
    seq(|channels|, i requires 0 <= i < |channels| => channels[i].control.osschannel)
  }

  const NO_CHANNEL := Channel(Control(0, 0, 0, 0, false, false), 0, 0, 0, 0)

  class Construction {
    const device: Device
    const oterm: nat                      // the output terminal the walk starts behind
    const mixch: array<Channel>
    var nrmixch: nat
    var mixchmask: set<nat>               // one bits: channels still free
    var visited: set<nat>                 // unitbitmap
    var nrchannels: nat
    var termtype: nat
    var chconfig: nat
    ghost var expanded: seq<nat>          // the units whose descriptors were evaluated, in order
    ghost var heard: Hearing
    ghost var evals: map<nat, Eval>
    ghost var asked: seq<Asked>

    ghost function View(): Mixer
      requires nrmixch <= mixch.Length
      reads this, mixch
    {
      Mixer(mixch[..nrmixch], mixchmask, visited, nrchannels, termtype, chconfig, heard, evals, asked)
    }

    ghost function Numbers(): (s: seq<nat>)
      requires nrmixch <= mixch.Length
      reads this`nrmixch, mixch
    {
      NumbersOf(mixch[..nrmixch])
    }

    /** The channels in use have distinct OSS numbers, none of which is still free, the other
        entries are not marked by a selector, and no unit has been evaluated twice. */
    ghost predicate Valid()
      reads this, mixch
    {
      && mixch.Length == NRDEVICES && nrmixch <= NRDEVICES
      && Distinct(Numbers())
      && (forall i :: 0 <= i < nrmixch ==> Numbers()[i] < NRDEVICES && Numbers()[i] !in mixchmask)
      && (forall i :: nrmixch <= i < NRDEVICES ==> mixch[i].slctunitid == 0)
      && Distinct(expanded)
      && (forall i :: 0 <= i < |expanded| ==> expanded[i] in visited && expanded[i] in device.units)
      && (forall id :: id in visited ==> id in expanded || id !in device.units || id == oterm)
      && Seen(visited)
    }

    /** usb_audio_constructmixer, up to the walk: the output terminal counts as visited. */
    constructor (device: Device, oterm: Byte)
      ensures Valid() && View() == Begun(oterm) && expanded == [] && fresh(mixch)
      ensures this.device == device && this.oterm == oterm
    {
      this.device, this.oterm := device, oterm;
      mixch := new Channel[NRDEVICES](_ => NO_CHANNEL);
      nrmixch, mixchmask, visited := 0, ALL_FREE, {oterm};
      nrchannels, termtype, chconfig := 0, 0, 0;
      expanded, heard, evals, asked := [], NOTHING_HEARD, map[], [];
    }

    /** getmixchannel: a channel that is free gets the next entry of the table, which has room for it. */
    method GetMixChannel(nr: nat) returns (ok: bool)
      requires Valid()
      modifies this`nrmixch, this`mixchmask, mixch
      ensures Valid()
      ensures ok <==> nr < NRDEVICES && nr in old(mixchmask)
      ensures ok ==> nrmixch == old(nrmixch) + 1 && mixchmask == old(mixchmask) - {nr}
      ensures ok ==> Numbers() == old(Numbers()) + [nr] && mixch[..old(nrmixch)] == old(mixch[..nrmixch])
      ensures ok ==> mixch[old(nrmixch)].slctunitid == 0
      ensures !ok ==> View() == old(View())
    {
      if nr >= NRDEVICES || nr !in mixchmask {
        return false;
      }
      FewerThan(Numbers(), NRDEVICES, nr, {nr});
      ghost var numbers := Numbers();
      var c := mixch[nrmixch];
      mixch[nrmixch] := c.(control := c.control.(osschannel := nr));
      nrmixch := nrmixch + 1;
      mixchmask := mixchmask - {nr};
      ok := true;
      assert Numbers() == numbers + [nr];
    }

    /** prepmixch: the range and the levels of the last channel are asked for; it is dropped if the
        device does not answer, but its number stays taken. */
    method PrepMixCh()
      requires Valid() && nrmixch > 0 && mixch[nrmixch - 1].slctunitid == 0
      modifies this`nrmixch, mixch
      ensures Valid() && nrmixch <= old(nrmixch) && Numbers() == old(Numbers())[..nrmixch]
      ensures var last := old(nrmixch) - 1;
        mixch[..nrmixch] == old(mixch[..nrmixch - 1]) + Prepared(device.answer, old(mixch[nrmixch - 1].control))
    {
      hide Level;
      ghost var numbers, before := Numbers(), mixch[..nrmixch - 1];
      var last := nrmixch - 1;
      var ok := AskLevels(last);
      if !ok {
        nrmixch := nrmixch - 1;
      }
      assert mixch[..last] == before;
      assert Numbers() == numbers[..nrmixch];
    }

    /** The requests of prepmixch for the channel at `k`, up to the first that fails. */
    method AskLevels(k: nat) returns (ok: bool)
      requires k < mixch.Length && mixch[k].slctunitid == 0
      modifies mixch
      ensures forall i :: 0 <= i < mixch.Length && i != k ==> mixch[i] == old(mixch[i])
      ensures mixch[k].control == old(mixch[k].control) && mixch[k].slctunitid == 0
      ensures Prepared(device.answer, mixch[k].control) == if ok then [mixch[k]] else []
    {
      var c := mixch[k].control;
      var low := device.answer(c, GetMin);
      if low.Failed? {
        return false;
      }
      mixch[k] := mixch[k].(minval := low.v);
      var high := device.answer(c, GetMax);
      if high.Failed? {
        return false;
      }
      mixch[k] := mixch[k].(maxval := high.v);
      var cur := device.answer(c, GetCur(false));
      if cur.Failed? {
        return false;
      }
      var level := Level(low.v, high.v, cur.v);
      mixch[k] := mixch[k].(value := level);
      if c.stereoIn || c.stereoOut {
        cur := device.answer(c, GetCur(true));
        if cur.Failed? {
          return false;
        }
        level := Level(low.v, high.v, cur.v);
      }
      mixch[k] := mixch[k].(value := mixch[k].value + 256 * level);
      return true;
    }

    /** Channels found before stay, with their numbers. */
    twostate predicate Grown()
      requires old(Valid()) && Valid()
      reads this, mixch
    {
      old(Numbers()) <= Numbers() && mixchmask <= old(mixchmask)
    }

    /** What an evaluation of units keeps. */
    twostate predicate Walked()
      requires old(Valid()) && Valid()
      reads this, mixch
    {
      && Grown() && old(visited) <= visited && |old(visited)| <= |visited|
      && old(expanded) <= expanded
      && (forall i :: |old(expanded)| <= i < |expanded| ==> expanded[i] !in old(visited))
    }

    /** The units evaluated since are the sources or inputs of units evaluated since, and their own
        inputs have been followed. */
    twostate predicate Explored(sources: seq<nat>)
      reads this
    {
      && Reached(device.units, expanded, sources, |old(expanded)|)
      && Followed(device.units, expanded, visited, |old(expanded)|)
    }

    /** The sequence that every handler repeats: claim a channel, describe its control, prepare it. */
    method AddControl(c: Control)
      requires Valid()
      modifies this`nrmixch, this`mixchmask, this`asked, mixch
      ensures Valid() && Grown() && View() == Granted(device.answer, old(View()), c)
    {
      hide Prepared, Distinct;
      ghost var numbers, table := Numbers(), mixch[..nrmixch];
      asked := asked + [Asked(c, mixchmask, heard)];
      var ok := GetMixChannel(c.osschannel);
      if ok {
        assert Numbers()[nrmixch - 1] == c.osschannel;
        mixch[nrmixch - 1] := mixch[nrmixch - 1].(control := c);
        assert Numbers() == numbers + [c.osschannel];
        assert mixch[..nrmixch - 1] == table;
        PrepMixCh();
      } else {
        assert Numbers() == numbers;
      }
    }

    ghost function Unvisited(): (n: int)
      reads this`visited
    {
      256 - |visited|
    }

    /** slctsrc_findunit and its use. */
    method MarkSelected(before: nat, source: nat, slctunitid: nat)
      requires Valid() && before <= nrmixch
      modifies mixch
      ensures Valid() && Numbers() == old(Numbers())
      ensures View() == Marked(old(View()), before, source, slctunitid)
    {
      ghost var numbers, table := Numbers(), mixch[..nrmixch];
      if nrmixch != before {
        mixch[nrmixch - 1] := mixch[nrmixch - 1].(slctunitid := slctunitid);
      } else {
        var i := 0;
        while i < nrmixch && mixch[i].control.unitid != source
          invariant 0 <= i <= nrmixch && forall k :: 0 <= k < i ==> mixch[k].control.unitid != source
        {
          i := i + 1;
        }
        assert i == FindUnit(table, source);
        if i < nrmixch {
          mixch[i] := mixch[i].(slctunitid := slctunitid);
        }
      }
      assert Numbers() == numbers;
    }

    /** test_and_set_bit, the search for the descriptor, and the clearing of the return values. */
    method Enter(unitid: nat) returns (found: bool)
      requires Valid() && unitid < 256 && unitid !in visited
      modifies this`visited, this`expanded, this`heard, this`nrchannels, this`termtype, this`chconfig
      ensures Valid() && Walked() && visited == old(visited) + {unitid} && |visited| == |old(visited)| + 1
      ensures found <==> unitid in device.units
      ensures expanded == if found then old(expanded) + [unitid] else old(expanded)
      ensures found ==> nrchannels == termtype == chconfig == 0 && heard == Hearing(device.units[unitid], [], [])
      ensures !found ==>
        && heard == old(heard) && nrchannels == old(nrchannels)
        && termtype == old(termtype) && chconfig == old(chconfig)
    {
      visited := visited + {unitid};
      SmallSet(visited, 256);
      found := unitid in device.units;
      if found {
        expanded, heard := expanded + [unitid], Hearing(device.units[unitid], [], []);
        nrchannels, termtype, chconfig := 0, 0, 0;
      }
    }

    /** usb_audio_recurseunit: every id is visited at most once, so the walk ends on any graph. */
    method RecurseUnit(unitid: nat)
      requires Valid() && unitid < 256
      modifies this, mixch
      ensures Valid() && Walked() && unitid in visited && Explored([unitid])
      ensures View() == Walk(device, old(View()), unitid)
      decreases Unvisited(), 0
    {
      hide SureInputs, Inputs, WalkUnit;
      ghost var before := expanded;
      if unitid !in visited {
        var found := Enter(unitid);
        if found {
          EvaluateUnit(device.units[unitid]);
          UnitFirst(device.units, before, expanded, unitid, visited);
          evals := evals[unitid := Eval(nrchannels, termtype, heard)];
        }
      }
    }

    /** The next input of a unit. */
    method RecurseInput(pin: nat, ghost sources: seq<nat>, ghost from: nat)
      requires Valid() && pin < 256 && pin in sources && from <= |expanded|
      requires Reached(device.units, expanded, sources, from) && Followed(device.units, expanded, visited, from)
      modifies this, mixch
      ensures Valid() && Walked() && pin in visited
      ensures Reached(device.units, expanded, sources, from) && Followed(device.units, expanded, visited, from)
      ensures View() == Walk(device, old(View()), pin)
      decreases Unvisited(), 1
    {
      hide Reached, Followed, Walk;
      ghost var before, seen := expanded, visited;
      RecurseUnit(pin);
      ReachedGrows(device.units, before, expanded, sources, pin, from);
      FollowedGrows(device.units, before, seen, expanded, visited, from);
    }

    /** The switch over the descriptor subtype; descriptors that are too short are ignored. */
    method EvaluateUnit(d: seq<Byte>)
      requires Valid()
      modifies this, mixch
      ensures Valid() && Walked() && Explored(Inputs(d)) && AllVisited(SureInputs(d), visited)
      ensures View() == WalkUnit(device, old(View()), d)
      decreases Unvisited(), 5
    {
      hide WalkMixer, WalkSelector, WalkFeature, WalkInputs;
      var kind := At(d, 2);
      if kind == INPUT_TERMINAL {
        if At(d, 0) >= 12 {
          nrchannels, termtype, chconfig := At(d, 7), Word(d, 4), Word(d, 8);
        }
      } else if kind == MIXER_UNIT {
        if At(d, 0) >= 10 + At(d, 4) {
          MixerUnit(d);
        }
      } else if kind == SELECTOR_UNIT {
        if At(d, 0) >= 6 + At(d, 4) {
          SelectorUnit(d);
        }
      } else if kind == FEATURE_UNIT {
        if At(d, 0) >= 7 + At(d, 5) {
          FeatureUnit(d);
        }
      } else if kind == PROCESSING_UNIT {
        var p := At(d, 6);
        var c := At(d, 11 + p);
        if At(d, 0) >= 13 + p + c + At(d, 13 + p + c) {
          ProcessingUnit(d);
        }
      } else if kind == EXTENSION_UNIT {
        var p := At(d, 6);
        if At(d, 0) >= 13 + p + At(d, 11 + p) {
          ExtensionUnit(d);
        }
      }
    }

    /** The return values of a unit. */
    method Leave(channels: nat, kind: nat, config: nat)
      requires Valid()
      modifies this`nrchannels, this`termtype, this`chconfig
      ensures Valid() && Numbers() == old(Numbers())
      ensures View() == old(View()).(nrchannels := channels, termtype := kind, chconfig := config)
    {
      nrchannels, termtype, chconfig := channels, kind, config;
    }

    /** All inputs of a unit, one after the other; what each leaves behind is noted. */
    method RecurseInputs(d: seq<Byte>, at: nat, pins: nat) returns (channels: seq<nat>, termtypes: seq<nat>)
      requires Valid() && Inputs(d) == Pins(d, at, pins)
      modifies this, mixch
      ensures Valid() && Walked() && Explored(Inputs(d)) && AllVisited(Inputs(d), visited)
      ensures Trail(View(), channels, termtypes) == WalkInputs(device, old(View()), Pins(d, at, pins))
      decreases Unvisited(), 2
    {
      hide Reached, Followed, Walk;
      ghost var from, sources := |expanded|, Inputs(d);
      NothingExplored(device.units, expanded, sources, visited);
      channels, termtypes := [], [];
      for i := 0 to pins
        invariant Valid() && Walked()
        invariant Reached(device.units, expanded, sources, from) && Followed(device.units, expanded, visited, from)
        invariant forall k :: 0 <= k < i ==> sources[k] in visited
        invariant Trail(View(), channels, termtypes) == WalkInputs(device, old(View()), sources[..i])
      {
        assert sources[i] == At(d, at + i) && sources[..i + 1][..i] == sources[..i];
        RecurseInput(At(d, at + i), sources, from);
        channels, termtypes := channels + [nrchannels], termtypes + [termtype];
      }
      assert sources[..pins] == sources;
    }

    /** usb_audio_mixerunit: after all inputs, the controls that the bitmap makes programmable. */
    method MixerUnit(d: seq<Byte>)
      requires Valid() && At(d, 2) == MIXER_UNIT && LongEnough(d)
      modifies this, mixch
      ensures Valid() && Walked() && Explored(Inputs(d)) && AllVisited(Inputs(d), visited)
      ensures View() == WalkMixer(device, old(View()), d)
      decreases Unvisited(), 3
    {
      hide Reached, Followed, WalkInputs, MixerGranted;
      var pins := At(d, 4);
      if pins == 0 || pins > NRDEVICES {
        NothingExplored(device.units, expanded, Inputs(d), visited);
        return;
      }
      var channels, termt := RecurseInputs(d, 5, pins);
      termtype, chconfig, heard := 0, Word(d, 6 + pins), Hearing(d, channels, termt);
      var bmapsize := BitmapSize(d, channels);
      if At(d, 0) < 10 + pins + bmapsize {
        return;
      }
      MixerControls(d, channels, termt, 9 + pins + bmapsize - 1);
    }

    /** The second loop of usb_audio_mixerunit. */
    method MixerControls(d: seq<Byte>, channels: seq<nat>, termt: seq<nat>, last: int)
      requires Valid() && |channels| == |termt| && termtype == 0
      requires last == 9 + At(d, 4) + BitmapSize(d, channels) - 1
      modifies this`nrmixch, this`mixchmask, this`asked, this`termtype, mixch
      ensures Valid() && Grown()
      ensures View() == MixerGranted(device.answer, old(View()), d, channels, termt, |channels|)
    {
      hide AllGranted, MixerRequest;
      var start := 0;
      for i := 0 to |channels|
        invariant Valid() && Grown() && start == Sum(channels[..i])
        invariant View().(termtype := 0) == MixerGranted(device.answer, old(View()), d, channels, termt, i)
      {
        termtype := termt[i];
        ghost var nr := VolChannel(termtype, mixchmask);
        ghost var m := View();
        MixerControl(d, channels, i, start, last);
        OtherTermtype(device.answer, m, MixerRequest(d, channels, i, nr), 0);
        assert channels[..i + 1][..i] == channels[..i];
        start := start + channels[i];
      }
      termtype := 0;
    }

    method MixerControl(d: seq<Byte>, channels: seq<nat>, i: nat, start: nat, last: int)
      requires Valid() && i < |channels| && start == Sum(channels[..i])
      requires last == 9 + At(d, 4) + BitmapSize(d, channels) - 1
      modifies this`nrmixch, this`mixchmask, this`asked, mixch
      ensures Valid() && Grown()
      ensures var nr := VolChannel(termtype, old(mixchmask));
        View() == AllGranted(device.answer, old(View()), MixerRequest(d, channels, i, nr))
    {
      hide CheckMixBmap, Sum, Granted, VolChannel;
      var nroutch := At(d, 5 + At(d, 4));
      var nr := VolChannel(termtype, mixchmask);
      ghost var m := View();
      if channels[i] >= 2 && CheckMixBmap(d, last, true, nroutch >= 2, start, nroutch) {
        var c := Control(nr, At(d, 3), 0, (start + 1) % 256, true, nroutch >= 2);
        GrantOne(device.answer, m, c);
        AddControl(c);
      } else if CheckMixBmap(d, last, false, nroutch >= 2, start, nroutch) {
        var c := Control(nr, At(d, 3), 0, (start + 1) % 256, false, nroutch >= 2);
        GrantOne(device.answer, m, c);
        AddControl(c);
      }
    }

    /** One input of a selector: unless it disagrees with `chnum`, the number of channels of the
        first, its channel is marked with the input's number. */
    method SelectInput(pin: nat, slctunitid: nat, first: bool, chnum: nat, ghost sources: seq<nat>, ghost from: nat)
      returns (agrees: bool)
      requires Valid() && pin < 256 && pin in sources && from <= |expanded|
      requires Reached(device.units, expanded, sources, from) && Followed(device.units, expanded, visited, from)
      modifies this, mixch
      ensures Valid() && Walked() && pin in visited
      ensures Reached(device.units, expanded, sources, from) && Followed(device.units, expanded, visited, from)
      ensures agrees <==> first || nrchannels == chnum
      ensures var t := Walk(device, old(View()), pin);
        View() == if agrees then Marked(t, |old(View()).table|, pin, slctunitid) else t
      decreases Unvisited(), 2
    {
      hide Reached, Followed, Walk, Marked;
      var before := nrmixch;
      RecurseInput(pin, sources, from);
      agrees := first || nrchannels == chnum;
      if agrees {
        MarkSelected(before, pin, slctunitid);
      }
    }

    /** The other inputs of a selector, until one disagrees with the first. */
    method SelectRest(d: seq<Byte>, ghost from: nat) returns (agrees: bool)
      requires Valid() && At(d, 2) == SELECTOR_UNIT && LongEnough(d) && At(d, 4) > 0 && from <= |expanded|
      requires Reached(device.units, expanded, Inputs(d), from) && Followed(device.units, expanded, visited, from)
      modifies this, mixch
      ensures Valid() && Walked()
      ensures Reached(device.units, expanded, Inputs(d), from) && Followed(device.units, expanded, visited, from)
      ensures WalkSelector(device, old(View()), d, old(nrchannels), 1)
           == View().(termtype := 0, chconfig := 0, nrchannels := if agrees then nrchannels else 0)
      decreases Unvisited(), 3
    {
      hide Reached, Followed, Inputs, SureInputs, LongEnough, Walk, Marked, WalkSelector;
      ghost var sources := Inputs(d);
      SelectorInputs(d);
      ghost var goal := WalkSelector(device, View(), d, nrchannels, 1);
      var pins, chnum := At(d, 4), nrchannels;
      for i := 1 to pins
        invariant Valid() && Walked() && nrchannels == chnum
        invariant Reached(device.units, expanded, sources, from) && Followed(device.units, expanded, visited, from)
        invariant WalkSelector(device, View(), d, chnum, i) == goal
      {
        assert sources[i] == At(d, 5 + i);
        SelectorStep(device, View(), d, chnum, i);
        agrees := SelectInput(At(d, 5 + i), At(d, 3) + 256 * (i + 1), false, chnum, sources, from);
        if !agrees {
          return;
        }
      }
      SelectorEnd(device, View(), d, chnum);
      agrees := true;
    }

    /** usb_audio_selectorunit */
    method SelectorUnit(d: seq<Byte>)
      requires Valid() && At(d, 2) == SELECTOR_UNIT && LongEnough(d)
      modifies this, mixch
      ensures Valid() && Walked() && Explored(Inputs(d)) && AllVisited(SureInputs(d), visited)
      ensures View() == if At(d, 4) == 0 then old(View()) else WalkSelector(device, old(View()), d, 0, 0)
      decreases Unvisited(), 4
    {
      hide Reached, Followed, Inputs, SureInputs, LongEnough, Walk, Marked, WalkSelector;
      ghost var from, sources := |expanded|, Inputs(d);
      SelectorInputs(d);
      NothingExplored(device.units, expanded, sources, visited);
      if At(d, 4) == 0 {
        return;
      }
      assert sources[0] == At(d, 5);
      SelectorStep(device, View(), d, 0, 0);
      var agrees := SelectInput(At(d, 5), At(d, 3) + 256, true, 0, sources, from);
      agrees := SelectRest(d, from);
      Leave(if agrees then nrchannels else 0, 0, 0);
    }

    /** usb_audio_processingunit */
    method ProcessingUnit(d: seq<Byte>)
      requires Valid() && At(d, 2) == PROCESSING_UNIT && LongEnough(d)
      modifies this, mixch
      ensures Valid() && Walked() && Explored(Inputs(d)) && AllVisited(Inputs(d), visited)
      ensures View() == WalkUnit(device, old(View()), d)
      decreases Unvisited(), 3
    {
      hide Reached, Followed, WalkInputs;
      var pins := At(d, 6);
      var channels, termtypes := RecurseInputs(d, 7, pins);
      Leave(At(d, 7 + pins), 0, Word(d, 8 + pins));
      heard := Hearing(d, channels, termtypes);
    }

    /** The loop of an extension unit. */
    method ExtensionUnit(d: seq<Byte>)
      requires Valid() && At(d, 2) == EXTENSION_UNIT && LongEnough(d)
      modifies this, mixch
      ensures Valid() && Walked() && Explored(Inputs(d)) && AllVisited(Inputs(d), visited)
      ensures View() == WalkUnit(device, old(View()), d)
      decreases Unvisited(), 3
    {
      hide Reached, Followed, WalkInputs, Agreed;
      var pins := At(d, 6);
      var channels, types := RecurseInputs(d, 7, pins);
      var j := CommonType(types);
      Leave(At(d, 7 + pins), j, Word(d, 8 + pins));
      heard := Hearing(d, channels, types);
    }

    /** The binary AND of one control over the bytes of the logical channels. */
    method AllHave(d: seq<Byte>, bit: nat) returns (all: bool)
      requires At(d, 0) >= 7 + At(d, 5) && At(d, 5) > 0 && bit > 0
      ensures all <==> OnChannels(d, bit)
    {
      var n := LogicalChannels(d);
      if n == 0 {
        return false;
      }
      all := Has(At(d, 6 + 1 * At(d, 5)), bit);
      var i := 2;
      while i <= n
        invariant 2 <= i <= n + 1
        invariant all <==> forall k :: 1 <= k < i ==> Has(At(d, 6 + k * At(d, 5)), bit)
      {
        all := all && Has(At(d, 6 + i * At(d, 5)), bit);
        i := i + 1;
      }
    }

    /** One control of a feature unit: on each channel, or on the master channel only. */
    method FeatureControl(d: seq<Byte>, bit: nat, nr: nat, selector: nat)
      requires Valid() && At(d, 0) >= 7 + At(d, 5) && At(d, 5) > 0 && bit > 0
      modifies this`nrmixch, this`mixchmask, this`asked, mixch
      ensures Valid() && Grown()
      ensures View() == AllGranted(device.answer, old(View()), FeatureRequest(d, bit, nrchannels, nr, selector))
    {
      hide OnChannels, Granted;
      var all := AllHave(d, bit);
      ghost var m := View();
      if all {
        var c := Control(nr, At(d, 3), selector, 1, nrchannels > 1, nrchannels > 1);
        GrantOne(device.answer, m, c);
        AddControl(c);
      } else if Has(At(d, 6), bit) {
        var c := Control(nr, At(d, 3), selector, 0, false, false);
        GrantOne(device.answer, m, c);
        AddControl(c);
      }
    }

    /** The controls of a feature unit whose source has channels. */
    method FeatureControls(d: seq<Byte>)
      requires Valid() && At(d, 0) >= 7 + At(d, 5) && At(d, 5) > 0 && nrchannels > 0
      modifies this`nrmixch, this`mixchmask, this`asked, mixch
      ensures Valid() && Grown()
      ensures View() == AllGranted(device.answer, old(View()),
                          FeatureRequests(d, nrchannels, old(VolChannel(termtype, mixchmask))))
    {
      hide FeatureRequest, VolChannel, AllGranted;
      var volume := VolChannel(termtype, mixchmask);
      ghost var m := View();
      ghost var a := FeatureRequest(d, 2, nrchannels, volume, VOLUME_CONTROL);
      ghost var b := FeatureRequest(d, 4, nrchannels, BASS, BASS_CONTROL);
      ghost var c := FeatureRequest(d, 16, nrchannels, TREBLE, TREBLE_CONTROL);
      GrantedInTurn(device.answer, m, a, b);
      GrantedInTurn(device.answer, m, a + b, c);
      FeatureControl(d, 2, volume, VOLUME_CONTROL);
      FeatureControl(d, 4, BASS, BASS_CONTROL);
      FeatureControl(d, 16, TREBLE, TREBLE_CONTROL);
    }

    /** usb_audio_featureunit */
    method FeatureUnit(d: seq<Byte>)
      requires Valid() && At(d, 2) == FEATURE_UNIT && LongEnough(d)
      modifies this, mixch
      ensures Valid() && Walked() && Explored(Inputs(d)) && AllVisited(Inputs(d), visited)
      ensures View() == WalkFeature(device, old(View()), d)
      decreases Unvisited(), 3
    {
      hide Reached, Followed, WalkInputs, FeatureRequests, AllGranted;
      var channels, termtypes := RecurseInputs(d, 4, 1);
      heard := Hearing(d, channels, termtypes);
      if At(d, 5) == 0 || nrchannels == 0 {
        return;
      }
      if nrchannels == 1 && LogicalChannels(d) == 2 {
        nrchannels := 2;
      }
      FeatureControls(d);
    }
  }

  lemma SelectorInputs(d: seq<Byte>)
    requires At(d, 2) == SELECTOR_UNIT && LongEnough(d)
    ensures |Inputs(d)| == At(d, 4) && forall i :: 0 <= i < At(d, 4) ==> Inputs(d)[i] == At(d, 5 + i)
    ensures SureInputs(d) == if At(d, 4) > 0 then [At(d, 5)] else []
  {
  }

  lemma NothingExplored(units: Graph, expanded: seq<nat>, sources: seq<nat>, visited: set<nat>)
    ensures Reached(units, expanded, sources, |expanded|) && Followed(units, expanded, visited, |expanded|)
  {
  }

  lemma SelectorStep(dev: Device, m: Mixer, d: seq<Byte>, chnum: nat, i: nat)
    requires Seen(m.visited) && i < At(d, 4)
    ensures var pin := At(d, 5 + i); var t := Walk(dev, m, pin);
      WalkSelector(dev, m, d, chnum, i) ==
        if i > 0 && t.nrchannels != chnum then t.(termtype := 0, chconfig := 0, nrchannels := 0)
        else WalkSelector(dev, Marked(t, |m.table|, pin, At(d, 3) + 256 * (i + 1)), d, t.nrchannels, i + 1)
  {
    hide Walk, Marked;
  }

  lemma SelectorEnd(dev: Device, m: Mixer, d: seq<Byte>, chnum: nat)
    requires Seen(m.visited)
    ensures WalkSelector(dev, m, d, chnum, At(d, 4)) == m.(termtype := 0, chconfig := 0)
  {
    hide Walk, Marked;
  }

  lemma GrantOne(answer: (Control, Query) -> Answer, m: Mixer, c: Control)
    ensures AllGranted(answer, m, [c]) == Granted(answer, m, c)
  {
    assert [c][..0] == [];
  }

  /** Requests do not look at the terminal type. */
  lemma {:induction false} OtherTermtype(answer: (Control, Query) -> Answer, m: Mixer, cs: seq<Control>, termtype: nat)
    ensures AllGranted(answer, m.(termtype := termtype), cs) == AllGranted(answer, m, cs).(termtype := termtype)
    decreases |cs|
  {
    if cs != [] {
      OtherTermtype(answer, m, cs[..|cs| - 1], termtype);
    }
  }

  /** The terminal type that all inputs have, as the loop over them keeps it. */
  method CommonType(types: seq<nat>) returns (j: nat)
    ensures j == Agreed(types)
  {
    j := 0;
    for i := 0 to |types|
      invariant j == Agreed(types[..i])
    {
      AgreedGrows(types[..i], types[i]);
      assert types[..i + 1] == types[..i] + [types[i]];
      if i == 0 {
        j := types[i];
      } else if j != types[i] {
        j := 0;
      }
    }
    assert types[..|types|] == types;
  }

  lemma AgreedGrows(ts: seq<nat>, t: nat)
    ensures Agreed(ts + [t]) == if ts == [] then t else if Agreed(ts) != t then 0 else Agreed(ts)
  {
    var all := ts + [t];
    if ts != [] {
      assert all[0] == ts[0] && all[|ts|] == t;
      assert forall k :: 0 <= k < |ts| ==> all[k] == ts[k];
    }
  }

  /** usb_audio_constructmixer: from any graph the mixer gets at most 25 channels, no OSS number
      twice.  The units evaluated, none of them twice, can be reached from the source, and they are
      closed under the inputs that are followed in any case. */
  method ConstructMixer(device: Device, oterm: Byte, source: Byte)
    returns (channels: seq<Channel>, ghost expanded: seq<nat>)
    ensures channels == Finished(device, oterm, source).table
    ensures Sound(device, {oterm as nat, source as nat}, Finished(device, oterm, source))
    ensures forall id :: id in expanded ==> id in Finished(device, oterm, source).evals
    ensures |channels| <= NRDEVICES && Distinct(NumbersOf(channels))
    ensures forall i :: 0 <= i < |channels| ==> channels[i].control.osschannel < NRDEVICES
    ensures Distinct(expanded) && oterm !in expanded && Reached(device.units, expanded, [source as nat], 0)
    ensures source in device.units && source != oterm ==> source in expanded
    ensures forall id, p :: id in expanded && id in device.units && p in SureInputs(device.units[id]) ==>
      p in expanded || p !in device.units || p == oterm
  {
    hide Walk, Sound;
    MixerIsSound(device, oterm, source);
    var state := new Construction(device, oterm);
    state.RecurseUnit(source);
    channels, expanded := state.mixch[..state.nrmixch], state.expanded;
    assert forall i :: 0 <= i < |channels| ==> channels[i].control.osschannel == NumbersOf(channels)[i];
    Closed(device.units, expanded, state.visited);
  }

  lemma Closed(units: Graph, expanded: seq<nat>, visited: set<nat>)
    requires Followed(units, expanded, visited, 0)
    ensures forall id, p :: id in expanded ==> id in units && (p in SureInputs(units[id]) ==> p in visited)
  {
    forall id, p | id in expanded
      ensures id in units && (p in SureInputs(units[id]) ==> p in visited)
    {
      var i :| 0 <= i < |expanded| && expanded[i] == id;
      assert AllVisited(SureInputs(units[expanded[i]]), visited);
    }
  }
}
