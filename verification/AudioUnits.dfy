/** The unit graph of a USB audio device (USB Audio Class 1.0, section 4.3.2), and what a walk from
    an output terminal back through it comes to.  Units may be shared, and the graph may be cyclic;
    every control found asks for one of the 25 OSS mixer channels. */
module AudioUnits {
  import opened Bits
  import opened Numbers
  import opened AudioLevels

  const NRDEVICES := 25
  const NONE := 0xffff_ffff        // ffs(0) - 1

  // OSS mixer channels
  const VOLUME := 0
  const BASS := 1
  const TREBLE := 2
  const PCM := 4
  const SPEAKER := 5
  const MIC := 7
  const ALTPCM := 10
  const PHONEIN := 20
  const PHONEOUT := 21
  const VIDEO := 22
  const RADIO := 23

  // descriptor subtypes and control selectors
  const INPUT_TERMINAL := 0x02
  const MIXER_UNIT := 0x04
  const SELECTOR_UNIT := 0x05
  const FEATURE_UNIT := 0x06
  const PROCESSING_UNIT := 0x07
  const EXTENSION_UNIT := 0x08
  const VOLUME_CONTROL := 2
  const BASS_CONTROL := 3
  const TREBLE_CONTROL := 5

  /** A control on the device, as the requests for it name it, and the OSS channel it goes to. */
  datatype Control = Control(
    osschannel: nat, unitid: nat, selector: nat, chnum: nat, stereoIn: bool, stereoOut: bool)

  /** One entry of the mixer; `value` is the level on the left in the low and on the right in the
      high byte. */
  datatype Channel = Channel(control: Control, slctunitid: nat, minval: S16, maxval: S16, value: nat)

  // ----- the device -----

  datatype Query = GetMin | GetMax | GetCur(right: bool)
  datatype Answer = Failed | Value(v: S16)

  type Graph = map<nat, seq<Byte>>

  /** The first descriptor with each unit id, and what the device says about a control. */
  datatype Device = Device(units: Graph, answer: (Control, Query) -> Answer)

  /** Byte `i` of a descriptor; whatever lies outside the buffer is taken for zero. */
  function At(d: seq<Byte>, i: int): (b: nat)
    ensures b < 256
  {
    if 0 <= i < |d| then d[i] else 0
  }

  function Word(d: seq<Byte>, i: int): nat { At(d, i) + 256 * At(d, i + 1) }
  predicate Has(b: nat, bit: nat) requires bit > 0 { (b / bit) % 2 == 1 }

  /** Bit `idx` of a mixer unit's bitmap, which ends at byte `last`. */
  predicate Programmable(d: seq<Byte>, last: int, idx: nat) {
    Has(At(d, last - idx / 8), match idx % 8 case 0 => 0x80 case 1 => 0x40 case 2 => 0x20 case 3 => 0x10
                               case 4 => 8 case 5 => 4 case 6 => 2 case _ => 1)
  }

  /** checkmixbmap */
  predicate CheckMixBmap(d: seq<Byte>, last: int, stereoIn: bool, stereoOut: bool, inidx: nat, numoch: nat) {
    && Programmable(d, last, inidx * numoch)
    && (stereoIn || stereoOut ==>
          Programmable(d, last, (if stereoIn then inidx + 1 else inidx) * numoch + if stereoOut then 1 else 0))
  }

  // ----- inputs -----

  predicate AllBytes(ps: seq<nat>) { forall k :: 0 <= k < |ps| ==> ps[k] < 256 }

  /** `n` unit ids in a row. */
  function Pins(d: seq<Byte>, at: nat, n: nat): (ps: seq<nat>)
    ensures |ps| == n && AllBytes(ps)
  {
    var ps := seq<nat>(n, i requires 0 <= i < n => At(d, at + i));
    assert forall k :: 0 <= k < n ==> ps[k] == At(d, at + k);
    ps
  }

  /** Whether a descriptor is long enough for its kind, as the walk checks it. */
  predicate LongEnough(d: seq<Byte>) {
    var n := At(d, 0);
    match At(d, 2)
    case 0x04 => n >= 10 + At(d, 4)
    case 0x05 => n >= 6 + At(d, 4)
    case 0x06 => n >= 7 + At(d, 5)
    case 0x07 => var p := At(d, 6); var c := At(d, 11 + p); n >= 13 + p + c + At(d, 13 + p + c)
    case 0x08 => var p := At(d, 6); n >= 13 + p + At(d, 11 + p)
    case _ => false
  }

  /** The inputs of a unit, and those of them that its evaluation follows in any case: a selector
      gives up when its inputs disagree on the number of channels. */
  function Inputs(d: seq<Byte>): (ps: seq<nat>)
    ensures AllBytes(ps)
  {
    if !LongEnough(d) then []
    else if At(d, 2) == MIXER_UNIT then (if At(d, 4) <= NRDEVICES then Pins(d, 5, At(d, 4)) else [])
    else if At(d, 2) == SELECTOR_UNIT then Pins(d, 5, At(d, 4))
    else if At(d, 2) == FEATURE_UNIT then Pins(d, 4, 1)
    else Pins(d, 7, At(d, 6))
  }

  function SureInputs(d: seq<Byte>): seq<nat> {
    if At(d, 2) == SELECTOR_UNIT then Inputs(d)[..if |Inputs(d)| > 0 then 1 else 0] else Inputs(d)
  }

  /** From position `from` on, every unit evaluated is one of the sources or an input of a unit
      evaluated before it. */
  ghost predicate Reached(units: Graph, expanded: seq<nat>, sources: seq<nat>, from: nat) {
    forall i :: from <= i < |expanded| ==> expanded[i] in sources || HasParent(units, expanded, from, i)
  }

  ghost predicate HasParent(units: Graph, expanded: seq<nat>, from: nat, i: nat)
    requires i < |expanded|
  {
    exists j :: from <= j < i && expanded[j] in units && expanded[i] in Inputs(units[expanded[j]])
  }

  /** From position `from` on, the sure inputs of every unit evaluated have been visited. */
  ghost predicate Followed(units: Graph, expanded: seq<nat>, visited: set<nat>, from: nat) {
    forall i :: from <= i < |expanded| ==> expanded[i] in units && AllVisited(SureInputs(units[expanded[i]]), visited)
  }

  ghost predicate AllVisited(ps: seq<nat>, visited: set<nat>) {
    forall k :: 0 <= k < |ps| ==> ps[k] in visited
  }

  /** What the evaluation of one more input adds. */
  lemma ReachedGrows(units: Graph, before: seq<nat>, after: seq<nat>, sources: seq<nat>, pin: nat, from: nat)
    requires before <= after && from <= |before| && pin in sources
    requires Reached(units, before, sources, from) && Reached(units, after, [pin], |before|)
    ensures Reached(units, after, sources, from)
  {
    forall i | from <= i < |after|
      ensures after[i] in sources || HasParent(units, after, from, i)
    {
      if i < |before| {
        assert after[i] == before[i];
        if HasParent(units, before, from, i) {
          var j :| from <= j < i && before[j] in units && before[i] in Inputs(units[before[j]]);
          assert after[j] == before[j];
        }
      } else if HasParent(units, after, |before|, i) {
        var j :| |before| <= j < i && after[j] in units && after[i] in Inputs(units[after[j]]);
        assert from <= j;
      }
    }
  }

  lemma FollowedGrows(units: Graph, before: seq<nat>, seen: set<nat>, after: seq<nat>, visited: set<nat>, from: nat)
    requires before <= after && from <= |before| && seen <= visited
    requires Followed(units, before, seen, from) && Followed(units, after, visited, |before|)
    ensures Followed(units, after, visited, from)
  {
    forall i | from <= i < |after|
      ensures after[i] in units && AllVisited(SureInputs(units[after[i]]), visited)
    {
      if i < |before| {
        assert after[i] == before[i];
      }
    }
  }

  /** A unit evaluated first, then what its inputs lead to. */
  lemma UnitFirst(units: Graph, before: seq<nat>, after: seq<nat>, unitid: nat, visited: set<nat>)
    requires unitid in units && before + [unitid] <= after
    requires Reached(units, after, Inputs(units[unitid]), |before| + 1)
    requires Followed(units, after, visited, |before| + 1) && AllVisited(SureInputs(units[unitid]), visited)
    ensures Reached(units, after, [unitid], |before|) && Followed(units, after, visited, |before|)
  {
    assert after[|before|] == unitid;
    forall i | |before| <= i < |after|
      ensures after[i] in [unitid] || HasParent(units, after, |before|, i)
    {
      if i > |before| {
        if after[i] in Inputs(units[unitid]) {
          assert after[|before|] in units;
        } else {
          var j :| |before| + 1 <= j < i && after[j] in units && after[i] in Inputs(units[after[j]]);
          assert |before| <= j;
        }
      }
    }
  }

  // ----- the controls of a unit -----

  /** The number of logical channels of a feature unit, an unsigned char in the driver.  The length
      check of the walk keeps it from wrapping below zero. */
  function LogicalChannels(d: seq<Byte>): (n: nat)
    requires At(d, 0) >= 7 + At(d, 5) && At(d, 5) > 0
    ensures n < 255
  {
    QuotientPositive(At(d, 0) - 7, At(d, 5));
    (At(d, 0) - 7) / At(d, 5) - 1
  }

  /** There are logical channels, and all of them have the control. */
  ghost predicate OnChannels(d: seq<Byte>, bit: nat)
    requires At(d, 0) >= 7 + At(d, 5) && At(d, 5) > 0 && bit > 0
  {
    LogicalChannels(d) > 0 && forall i :: 1 <= i <= LogicalChannels(d) ==> Has(At(d, 6 + i * At(d, 5)), bit)
  }

  /** A feature unit asks for one control on its channels, or on the master channel, or not at all. */
  ghost function FeatureRequest(d: seq<Byte>, bit: nat, channels: nat, nr: nat, selector: nat): seq<Control>
    requires At(d, 0) >= 7 + At(d, 5) && At(d, 5) > 0 && bit > 0
  {
    if OnChannels(d, bit) then [Control(nr, At(d, 3), selector, 1, channels > 1, channels > 1)]
    else if Has(At(d, 6), bit) then [Control(nr, At(d, 3), selector, 0, false, false)]
    else []
  }

  ghost function FeatureRequests(d: seq<Byte>, channels: nat, volume: nat): seq<Control>
    requires At(d, 0) >= 7 + At(d, 5)
  {
    if At(d, 5) == 0 || channels == 0 then []
    else
      FeatureRequest(d, 2, channels, volume, VOLUME_CONTROL)
      + FeatureRequest(d, 4, channels, BASS, BASS_CONTROL)
      + FeatureRequest(d, 16, channels, TREBLE, TREBLE_CONTROL)
  }

  /** The size of a mixer unit's bitmap, whose last byte the bits are counted from. */
  function BitmapSize(d: seq<Byte>, channels: seq<nat>): nat {
    (At(d, 5 + At(d, 4)) * Sum(channels) + 7) / 8
  }

  /** A mixer unit asks for one control for input `i` if the bitmap says that it is programmable:
      a stereo one if the input has two channels or more and both are, or a mono one.  The driver keeps
      the channel number in one byte. */
  ghost function MixerRequest(d: seq<Byte>, channels: seq<nat>, i: nat, nr: nat): seq<Control>
    requires i < |channels|
  {
    var nroutch := At(d, 5 + At(d, 4));
    var last := 9 + At(d, 4) + BitmapSize(d, channels) - 1;
    var start := Sum(channels[..i]);
    if channels[i] >= 2 && CheckMixBmap(d, last, true, nroutch >= 2, start, nroutch) then
      [Control(nr, At(d, 3), 0, (start + 1) % 256, true, nroutch >= 2)]
    else if CheckMixBmap(d, last, false, nroutch >= 2, start, nroutch) then
      [Control(nr, At(d, 3), 0, (start + 1) % 256, false, nroutch >= 2)]
    else []
  }

  // ----- free channels -----

  /** getvolchannel: a free channel that suits the type of the terminal behind a volume control. */
  function VolChannel(termtype: nat, free: set<nat>): (nr: nat)
    ensures nr == NONE || nr in free
    ensures nr == NONE ==> {6, 8, 14, 15, 16, 17, 18, 19} !! free
    ensures termtype / 256 == 2 && MIC in free ==> nr == MIC
    ensures termtype / 256 == 3 && SPEAKER in free ==> nr == SPEAKER
  {
    if termtype / 256 == 0 && VOLUME in free then VOLUME
    else if termtype / 256 == 1 && PCM in free then PCM
    else if termtype / 256 == 1 && ALTPCM in free then ALTPCM
    else if termtype / 256 == 2 && MIC in free then MIC
    else if termtype / 256 == 3 && SPEAKER in free then SPEAKER
    else if termtype / 256 == 5 && PHONEIN in free then PHONEIN
    else if termtype / 256 == 5 && PHONEOUT in free then PHONEOUT
    else if 0x710 <= termtype <= 0x711 && RADIO in free then RADIO
    else if 0x709 <= termtype <= 0x70f && VIDEO in free then VIDEO
    else if 6 in free then 6         // LINE
    else if 8 in free then 8         // CD
    else if 14 in free then 14       // LINE1 .. LINE3
    else if 15 in free then 15
    else if 16 in free then 16
    else if 17 in free then 17       // DIGITAL1 .. DIGITAL3
    else if 18 in free then 18
    else if 19 in free then 19
    else NONE
  }

  lemma {:induction false} SmallSet(s: set<nat>, n: nat)
    requires forall x :: x in s ==> x < n
    ensures |s| <= n
    decreases n
  {
    if n == 0 {
      assert s == {};
    } else {
      SmallSet(s - {n - 1}, n - 1);
      if n - 1 in s {
        assert s == (s - {n - 1}) + {n - 1};
      } else {
        assert s == s - {n - 1};
      }
    }
  }

  // ----- the walk -----

  /** What the inputs of a unit with this descriptor have left behind, one after the other. */
  datatype Hearing = Hearing(desc: seq<Byte>, channels: seq<nat>, termtypes: seq<nat>)

  /** What a unit left behind when its evaluation was over. */
  datatype Eval = Eval(nrchannels: nat, termtype: nat, heard: Hearing)

  /** A request for a channel: by which unit, and which numbers were free then. */
  datatype Asked = Asked(control: Control, free: set<nat>, heard: Hearing)

  /** What the walk has come to: the channels found, the OSS numbers still free, the units visited,
      and what the last unit evaluated left behind.  The other fields are its history. */
  datatype Mixer = Mixer(
    table: seq<Channel>, free: set<nat>, visited: set<nat>, nrchannels: nat, termtype: nat, chconfig: nat,
    heard: Hearing, evals: map<nat, Eval>, asked: seq<Asked>)

  const NOTHING_HEARD := Hearing([], [], [])

  /** mixchmask at the start: all bits of the word are set. */
  const ALL_FREE: set<nat> :=
    {0, 1, 2, 3, 4, 5, 6, 7, 8, 9, 10, 11, 12, 13, 14, 15,
     16, 17, 18, 19, 20, 21, 22, 23, 24, 25, 26, 27, 28, 29, 30, 31}

  /** usb_audio_constructmixer, up to the walk. */
  function Begun(oterm: Byte): Mixer {
    Mixer([], ALL_FREE, {oterm}, 0, 0, 0, NOTHING_HEARD, map[], [])
  }

  /** prepmixch: the entry for a control, if the device answers every request for it. */
  function Prepared(answer: (Control, Query) -> Answer, c: Control): (r: seq<Channel>)
    ensures |r| <= 1 && forall i :: 0 <= i < |r| ==> r[i].control == c && r[i].slctunitid == 0
  {
    var low, high, left := answer(c, GetMin), answer(c, GetMax), answer(c, GetCur(false));
    var right := if c.stereoIn || c.stereoOut then answer(c, GetCur(true)) else left;
    if low.Failed? || high.Failed? || left.Failed? || right.Failed? then []
    else [Channel(c, 0, low.v, high.v, Level(low.v, high.v, left.v) + 256 * Level(low.v, high.v, right.v))]
  }

  /** One request for a channel: granted if the number is free; the number is taken even if the
      device then does not answer. */
  function Granted(answer: (Control, Query) -> Answer, m: Mixer, c: Control): Mixer {
    var n := m.(asked := m.asked + [Asked(c, m.free, m.heard)]);
    if c.osschannel >= NRDEVICES || c.osschannel !in m.free then n
    else n.(free := m.free - {c.osschannel}, table := m.table + Prepared(answer, c))
  }

  function AllGranted(answer: (Control, Query) -> Answer, m: Mixer, cs: seq<Control>): Mixer
    decreases |cs|
  {
    if cs == [] then m
    else Granted(answer, AllGranted(answer, m, cs[..|cs| - 1]), cs[|cs| - 1])
  }

  lemma {:induction false} GrantedInTurn(answer: (Control, Query) -> Answer, m: Mixer, a: seq<Control>, b: seq<Control>)
    ensures AllGranted(answer, m, a + b) == AllGranted(answer, AllGranted(answer, m, a), b)
    decreases |b|
  {
    if b == [] {
      assert a + b == a;
    } else {
      assert (a + b)[..|a + b| - 1] == a + b[..|b| - 1];
      GrantedInTurn(answer, m, a, b[..|b| - 1]);
    }
  }

  /** The requests of a mixer unit for its first `n` inputs: each asks for the volume channel that
      its terminal type gets at that moment. */
  ghost function MixerGranted(answer: (Control, Query) -> Answer, m: Mixer, d: seq<Byte>, channels: seq<nat>,
                              termtypes: seq<nat>, n: nat): Mixer
    requires n <= |channels| == |termtypes|
  {
    if n == 0 then m
    else
      var p := MixerGranted(answer, m, d, channels, termtypes, n - 1);
      AllGranted(answer, p, MixerRequest(d, channels, n - 1, VolChannel(termtypes[n - 1], p.free)))
  }

  /** slctsrc_findunit */
  function FindUnit(table: seq<Channel>, unitid: nat): (k: nat)
    ensures k <= |table| && (k < |table| ==> table[k].control.unitid == unitid)
    ensures forall j :: 0 <= j < k ==> table[j].control.unitid != unitid
  {
    if table == [] || table[0].control.unitid == unitid then 0 else 1 + FindUnit(table[1..], unitid)
  }

  /** The selector input is noted at the channel just found, or else at the first channel of the
      source, or nowhere. */
  function Marked(m: Mixer, before: nat, source: nat, slctunitid: nat): (r: Mixer)
    ensures r == m.(table := r.table) && |r.table| == |m.table|
  {
    var k := if |m.table| > before then |m.table| - 1 else FindUnit(m.table, source);
    if k < |m.table| then m.(table := m.table[k := m.table[k].(slctunitid := slctunitid)]) else m
  }

  /** The terminal type of an extension unit: that of its inputs, if they all have the same. */
  ghost function Agreed(termtypes: seq<nat>): nat {
    if termtypes != [] && forall k :: 0 <= k < |termtypes| ==> termtypes[k] == termtypes[0] then termtypes[0] else 0
  }

  ghost predicate Seen(visited: set<nat>) {
    |visited| <= 256 && forall id :: id in visited ==> id < 256
  }

  /** The state after some inputs, with the channel count and the terminal type each left behind. */
  datatype Trail = Trail(after: Mixer, channels: seq<nat>, termtypes: seq<nat>)

  function Entered(m: Mixer, visited: set<nat>, d: seq<Byte>): Mixer {
    m.(visited := visited, nrchannels := 0, termtype := 0, chconfig := 0, heard := Hearing(d, [], []))
  }

  function Evaluated(m: Mixer, unitid: nat): Mixer {
    m.(evals := m.evals[unitid := Eval(m.nrchannels, m.termtype, m.heard)])
  }

  /** usb_audio_recurseunit: a unit visited before changes nothing, and so leaves behind what the
      unit evaluated last did. */
  ghost function Walk(dev: Device, m: Mixer, unitid: nat): (r: Mixer)
    requires Seen(m.visited) && unitid < 256
    ensures Seen(r.visited) && |m.visited| <= |r.visited|
    decreases 256 - |m.visited|, 0, 0
  {
    if unitid in m.visited then m
    else
      var visited := m.visited + {unitid};
      SmallSet(visited, 256);
      if unitid !in dev.units then m.(visited := visited)
      else
        Evaluated(WalkUnit(dev, Entered(m, visited, dev.units[unitid]), dev.units[unitid]), unitid)
  }

  ghost function WalkInputs(dev: Device, m: Mixer, pins: seq<nat>): (r: Trail)
    requires Seen(m.visited) && AllBytes(pins)
    ensures Seen(r.after.visited) && |m.visited| <= |r.after.visited|
    ensures |r.channels| == |r.termtypes| == |pins|
    decreases 256 - |m.visited|, 1, |pins|
  {
    if pins == [] then Trail(m, [], [])
    else
      var t := WalkInputs(dev, m, pins[..|pins| - 1]);
      var after := Walk(dev, t.after, pins[|pins| - 1]);
      Trail(after, t.channels + [after.nrchannels], t.termtypes + [after.termtype])
  }

  /** The inputs of a selector from `i` on: each is followed and marked, until one has another
      number of channels than the first. */
  ghost function WalkSelector(dev: Device, m: Mixer, d: seq<Byte>, chnum: nat, i: nat): (r: Mixer)
    requires Seen(m.visited)
    ensures Seen(r.visited) && |m.visited| <= |r.visited|
    decreases 256 - |m.visited|, 1, At(d, 4) - i
  {
    if i >= At(d, 4) then m.(termtype := 0, chconfig := 0)
    else
      var pin := At(d, 5 + i);
      var t := Walk(dev, m, pin);
      if i > 0 && t.nrchannels != chnum then t.(termtype := 0, chconfig := 0, nrchannels := 0)
      else WalkSelector(dev, Marked(t, |m.table|, pin, At(d, 3) + 256 * (i + 1)), d, t.nrchannels, i + 1)
  }

  ghost function WalkMixer(dev: Device, m: Mixer, d: seq<Byte>): (r: Mixer)
    requires Seen(m.visited)
    ensures Seen(r.visited) && |m.visited| <= |r.visited|
    decreases 256 - |m.visited|, 2, 0
  {
    var pins := At(d, 4);
    if pins == 0 || pins > NRDEVICES then m
    else
      var t := WalkInputs(dev, m, Pins(d, 5, pins));
      var u := t.after.(termtype := 0, chconfig := Word(d, 6 + pins), heard := Hearing(d, t.channels, t.termtypes));
      if At(d, 0) < 10 + pins + BitmapSize(d, t.channels) then u
      else
        GrantKeeps(dev.answer, u, d, t.channels, t.termtypes, pins);
        MixerGranted(dev.answer, u, d, t.channels, t.termtypes, pins)
  }

  ghost function WalkFeature(dev: Device, m: Mixer, d: seq<Byte>): (r: Mixer)
    requires Seen(m.visited) && At(d, 0) >= 7 + At(d, 5)
    ensures Seen(r.visited) && |m.visited| <= |r.visited|
    decreases 256 - |m.visited|, 2, 0
  {
    var r := WalkInputs(dev, m, Pins(d, 4, 1));
    var t := r.after.(heard := Hearing(d, r.channels, r.termtypes));
    if At(d, 5) == 0 || t.nrchannels == 0 then t
    else
      var u := if t.nrchannels == 1 && LogicalChannels(d) == 2 then t.(nrchannels := 2) else t;
      var requests := FeatureRequests(d, u.nrchannels, VolChannel(u.termtype, u.free));
      AllGrantKeeps(dev.answer, u, requests);
      AllGranted(dev.answer, u, requests)
  }

  /** The switch over the descriptor subtype; descriptors that are too short are ignored. */
  ghost function WalkUnit(dev: Device, m: Mixer, d: seq<Byte>): (r: Mixer)
    requires Seen(m.visited)
    ensures Seen(r.visited) && |m.visited| <= |r.visited|
    decreases 256 - |m.visited|, 3, 0
  {
    var kind := At(d, 2);
    if kind == INPUT_TERMINAL then
      if At(d, 0) >= 12 then m.(nrchannels := At(d, 7), termtype := Word(d, 4), chconfig := Word(d, 8)) else m
    else if !LongEnough(d) then m
    else if kind == MIXER_UNIT then WalkMixer(dev, m, d)
    else if kind == SELECTOR_UNIT then (if At(d, 4) == 0 then m else WalkSelector(dev, m, d, 0, 0))
    else if kind == FEATURE_UNIT then WalkFeature(dev, m, d)
    else
      var p := At(d, 6);
      var t := WalkInputs(dev, m, Pins(d, 7, p));
      t.after.(nrchannels := At(d, 7 + p), chconfig := Word(d, 8 + p), heard := Hearing(d, t.channels, t.termtypes),
               termtype := if kind == PROCESSING_UNIT then 0 else Agreed(t.termtypes))
  }

  lemma {:induction false} AllGrantKeeps(answer: (Control, Query) -> Answer, m: Mixer, cs: seq<Control>)
    ensures var r := AllGranted(answer, m, cs); r == m.(table := r.table, free := r.free, asked := r.asked)
    decreases |cs|
  {
    if cs != [] {
      AllGrantKeeps(answer, m, cs[..|cs| - 1]);
    }
  }

  lemma {:induction false} GrantKeeps(answer: (Control, Query) -> Answer, m: Mixer, d: seq<Byte>, channels: seq<nat>,
                                      termtypes: seq<nat>, n: nat)
    requires n <= |channels| == |termtypes|
    ensures var r := MixerGranted(answer, m, d, channels, termtypes, n);
      r == m.(table := r.table, free := r.free, asked := r.asked)
    decreases n
  {
    if n > 0 {
      GrantKeeps(answer, m, d, channels, termtypes, n - 1);
      var p := MixerGranted(answer, m, d, channels, termtypes, n - 1);
      AllGrantKeeps(answer, p, MixerRequest(d, channels, n - 1, VolChannel(termtypes[n - 1], p.free)));
    }
  }

  lemma QuotientPositive(a: nat, b: nat)
    requires a >= b > 0 && a < 256
    ensures 1 <= a / b <= a
  {
    var q, r := a / b, a % b;
    assert a == b * q + r;
    if q <= 0 {
      MulMonotone(b, q, 0);
    }
    if q > a {
      MulMonotone(q, 1, b);
    }
  }
}
