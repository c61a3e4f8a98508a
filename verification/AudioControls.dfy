/** Which controls the finished mixer has, told from the descriptors of the units evaluated: every
    entry is a control that its unit's descriptor has, and every such control that the device answers
    for has an entry, unless its OSS number had gone to another one before. */
module AudioControls {
  import opened Bits
  import opened Numbers
  import opened AudioLevels
  import opened AudioUnits

  // ----- feature units -----

  /** Byte `k` of the controls of a feature unit (0: the master channel) has the bit. */
  predicate HasControl(d: seq<Byte>, bit: nat, k: nat)
    requires bit > 0
  {
    At(d, 6 + k * At(d, 5)) / bit % 2 == 1
  }

  /** A feature unit with `size` bytes for each channel has that many beside the master. */
  predicate IsFeature(d: seq<Byte>) { At(d, 2) == 6 && At(d, 0) >= 7 + At(d, 5) && At(d, 5) > 0 }

  function ChannelsBeside(d: seq<Byte>): int
    requires At(d, 5) > 0
  {
    (At(d, 0) - 7) / At(d, 5) - 1
  }

  predicate OnAll(d: seq<Byte>, bit: nat)
    requires At(d, 5) > 0 && bit > 0
  {
    ChannelsBeside(d) > 0 && forall k :: 1 <= k <= ChannelsBeside(d) ==> HasControl(d, bit, k)
  }

  /** Volume, bass and treble: the selector of the request and the bit of the descriptor. */
  predicate IsControl(selector: nat, bit: nat) { (selector, bit) in {(2, 2), (3, 4), (5, 16)} }

  /** A mono source is taken for stereo if the unit has two channels. */
  function SourceChannels(h: Hearing): int
    requires IsFeature(h.desc) && h.channels != []
  {
    if h.channels[0] == 1 && ChannelsBeside(h.desc) == 2 then 2 else h.channels[0]
  }

  /** The OSS numbers for a volume control, by the type of the terminal behind it, best first. */
  function Wanted(termtype: nat): seq<nat> {
    var lines := [6, 8, 14, 15, 16, 17, 18, 19];
    if termtype < 0x100 then [0] + lines
    else if 0x100 <= termtype < 0x200 then [4, 10] + lines
    else if 0x200 <= termtype < 0x300 then [7] + lines
    else if 0x300 <= termtype < 0x400 then [5] + lines
    else if 0x500 <= termtype < 0x600 then [20, 21] + lines
    else if 0x709 <= termtype <= 0x70f then [22] + lines
    else if 0x710 <= termtype <= 0x711 then [23] + lines
    else lines
  }

  function FirstFree(wanted: seq<nat>, free: set<nat>): nat {
    if wanted == [] then 0xffff_ffff
    else if wanted[0] in free then wanted[0]
    else FirstFree(wanted[1..], free)
  }

  lemma LinesFree(free: set<nat>)
    ensures FirstFree([6, 8, 14, 15, 16, 17, 18, 19], free) ==
      if 6 in free then 6 else if 8 in free then 8 else if 14 in free then 14 else if 15 in free then 15
      else if 16 in free then 16 else if 17 in free then 17 else if 18 in free then 18
      else if 19 in free then 19 else 0xffff_ffff
  {
    hide FirstFree;
    var w := [6, 8, 14, 15, 16, 17, 18, 19];
    FirstOfFour(w, free);
    assert w[4..] == [16, 17, 18, 19];
    FirstOfFour(w[4..], free);
  }

  lemma FirstOfFour(w: seq<nat>, free: set<nat>)
    requires |w| >= 4
    ensures FirstFree(w, free) ==
      if w[0] in free then w[0] else if w[1] in free then w[1] else if w[2] in free then w[2]
      else if w[3] in free then w[3] else FirstFree(w[4..], free)
    ensures |w| == 4 ==> FirstFree(w[4..], free) == 0xffff_ffff
  {
    hide FirstFree;
    NextFree(w, free);
    NextFree(w[1..], free);
    assert w[1..][1..] == w[2..];
    NextFree(w[2..], free);
    assert w[2..][1..] == w[3..];
    NextFree(w[3..], free);
    assert w[3..][1..] == w[4..];
    if |w| == 4 {
      NoneFree(w[4..], free);
    }
  }

  lemma NextFree(w: seq<nat>, free: set<nat>)
    requires w != []
    ensures FirstFree(w, free) == if w[0] in free then w[0] else FirstFree(w[1..], free)
  {
  }

  lemma NoneFree(w: seq<nat>, free: set<nat>)
    requires w == []
    ensures FirstFree(w, free) == 0xffff_ffff
  {
  }

  /** getvolchannel picks the best of them that is free. */
  lemma VolumeIsFirstFree(termtype: nat, free: set<nat>)
    ensures VolChannel(termtype, free) == FirstFree(Wanted(termtype), free)
  {
    hide FirstFree;
    var w := Wanted(termtype);
    var lines := [6, 8, 14, 15, 16, 17, 18, 19];
    LinesFree(free);
    NextFree(w, free);
    if termtype < 0x100 || 0x200 <= termtype < 0x400 || 0x709 <= termtype <= 0x711 {
      assert w[1..] == lines;
    } else if 0x100 <= termtype < 0x200 || 0x500 <= termtype < 0x600 {
      NextFree(w[1..], free);
      assert w[1..][1..] == lines;
    }
  }

  /** A request that the descriptor of a feature unit gives rise to, after what its source has left. */
  ghost predicate FeatureAsks(a: Asked) {
    var d, c := a.heard.desc, a.control;
    && IsFeature(d) && |a.heard.channels| == |a.heard.termtypes| == 1 && a.heard.channels[0] > 0
    && c.unitid == At(d, 3)
    && (c.selector == 2 ==> c.osschannel == FirstFree(Wanted(a.heard.termtypes[0]), a.free))
    && (c.selector == 3 ==> c.osschannel == 1) && (c.selector == 5 ==> c.osschannel == 2)
    && exists bit :: IsControl(c.selector, bit) &&
         if OnAll(d, bit) then c.chnum == 1 && c.stereoIn == c.stereoOut == (SourceChannels(a.heard) > 1)
         else HasControl(d, bit, 0) && c.chnum == 0 && !c.stereoIn && !c.stereoOut
  }

  // ----- mixer units -----

  predicate IsMixer(d: seq<Byte>) { At(d, 2) == 4 && At(d, 0) >= 10 + At(d, 4) && 0 < At(d, 4) <= 25 }

  function OutChannels(d: seq<Byte>): nat { At(d, 5 + At(d, 4)) }

  function BitmapBytes(h: Hearing): nat { (OutChannels(h.desc) * Sum(h.channels) + 7) / 8 }

  /** Bit `idx` of the bitmap, counted from the high end of its last byte. */
  predicate BitmapBit(h: Hearing, idx: nat) {
    At(h.desc, 8 + At(h.desc, 4) + BitmapBytes(h) - idx / 8) / Pow2(7 - idx % 8) % 2 == 1
  }

  /** The node of the bitmap for an input channel and output channel 0, and for the one beside both. */
  predicate Free(h: Hearing, input: nat, stereoIn: bool) {
    var out := OutChannels(h.desc);
    && BitmapBit(h, input * out)
    && (stereoIn || out >= 2 ==>
          BitmapBit(h, (if stereoIn then input + 1 else input) * out + if out >= 2 then 1 else 0))
  }

  ghost predicate MixerAsksFor(a: Asked, i: nat)
    requires i < |a.heard.channels|
  {
    var h, c := a.heard, a.control;
    var input := Sum(h.channels[..i]);
    && c.unitid == At(h.desc, 3) && c.selector == 0 && c.chnum == (input + 1) % 256
    && c.stereoOut == (OutChannels(h.desc) >= 2)
    && c.stereoIn == (h.channels[i] >= 2 && Free(h, input, true)) && Free(h, input, c.stereoIn)
    && (i < |h.termtypes| ==> c.osschannel == FirstFree(Wanted(h.termtypes[i]), a.free))
  }

  ghost predicate MixerAsks(a: Asked) {
    && IsMixer(a.heard.desc) && |a.heard.channels| == |a.heard.termtypes| == At(a.heard.desc, 4)
    && At(a.heard.desc, 0) >= 10 + At(a.heard.desc, 4) + BitmapBytes(a.heard)
    && exists i :: 0 <= i < |a.heard.channels| && MixerAsksFor(a, i)
  }

  ghost predicate Justified(a: Asked) { FeatureAsks(a) || MixerAsks(a) }

  lemma ProgrammableIs(d: seq<Byte>, last: int, idx: nat)
    ensures Programmable(d, last, idx) <==> At(d, last - idx / 8) / Pow2(7 - idx % 8) % 2 == 1
  {
    Pow2Small();
  }

  lemma Pow2Small()
    ensures Pow2(0) == 1 && Pow2(1) == 2 && Pow2(2) == 4 && Pow2(3) == 8
    ensures Pow2(4) == 0x10 && Pow2(5) == 0x20 && Pow2(6) == 0x40 && Pow2(7) == 0x80
  {
  }

  lemma FreeIs(h: Hearing, input: nat, stereoIn: bool)
    ensures Free(h, input, stereoIn) <==>
      CheckMixBmap(h.desc, 9 + At(h.desc, 4) + BitmapSize(h.desc, h.channels) - 1, stereoIn,
                   OutChannels(h.desc) >= 2, input, OutChannels(h.desc))
  {
    hide Programmable, Pow2;
    var out, last := OutChannels(h.desc), 9 + At(h.desc, 4) + BitmapSize(h.desc, h.channels) - 1;
    var second := (if stereoIn then input + 1 else input) * out + if out >= 2 then 1 else 0;
    ProgrammableIs(h.desc, last, input * out);
    ProgrammableIs(h.desc, last, second);
  }

  /** What a mixer unit asks for input `i` is what its bitmap says. */
  lemma MixerRequestIs(h: Hearing, i: nat, free: set<nat>)
    requires i < |h.channels| == |h.termtypes|
    ensures var cs := MixerRequest(h.desc, h.channels, i, VolChannel(h.termtypes[i], free));
      && |cs| <= 1 && (cs == [] <==> !Free(h, Sum(h.channels[..i]), false)
                                     && !(h.channels[i] >= 2 && Free(h, Sum(h.channels[..i]), true)))
      && (cs != [] ==> MixerAsksFor(Asked(cs[0], free, h), i))
  {
    hide Free, CheckMixBmap, VolChannel, FirstFree, Wanted;
    FreeIs(h, Sum(h.channels[..i]), true);
    FreeIs(h, Sum(h.channels[..i]), false);
    VolumeIsFirstFree(h.termtypes[i], free);
  }

  lemma OnAllIs(d: seq<Byte>, bit: nat)
    requires IsFeature(d) && bit > 0
    ensures OnAll(d, bit) <==> OnChannels(d, bit)
    ensures ChannelsBeside(d) == LogicalChannels(d)
  {
    if OnAll(d, bit) {
      forall i | 1 <= i <= LogicalChannels(d)
        ensures Has(At(d, 6 + i * At(d, 5)), bit)
      {
        assert HasControl(d, bit, i);
      }
    }
    if OnChannels(d, bit) {
      forall k | 1 <= k <= ChannelsBeside(d)
        ensures HasControl(d, bit, k)
      {
        assert Has(At(d, 6 + k * At(d, 5)), bit);
      }
    }
  }

  /** One of the three controls of a feature unit. */
  lemma FeatureRequestIs(h: Hearing, selector: nat, bit: nat, nr: nat, free: set<nat>)
    requires IsFeature(h.desc) && |h.channels| == |h.termtypes| == 1 && h.channels[0] > 0 && IsControl(selector, bit)
    requires selector == 2 ==> nr == VolChannel(h.termtypes[0], free)
    requires (selector == 3 ==> nr == 1) && (selector == 5 ==> nr == 2)
    ensures var cs := FeatureRequest(h.desc, bit, SourceChannels(h), nr, selector);
      && |cs| <= 1 && (cs == [] <==> !OnAll(h.desc, bit) && !HasControl(h.desc, bit, 0))
      && (cs != [] ==> cs[0].selector == selector && FeatureAsks(Asked(cs[0], free, h)))
  {
    hide OnAll, OnChannels, VolChannel, FirstFree, Wanted;
    OnAllIs(h.desc, bit);
    VolumeIsFirstFree(h.termtypes[0], free);
    assert HasControl(h.desc, bit, 0) <==> Has(At(h.desc, 6), bit) by {
      assert 6 + 0 * At(h.desc, 5) == 6;
    }
  }

  // ----- numbers and entries -----

  predicate TakenBefore(asked: seq<Asked>, k: nat, nr: nat)
    requires k <= |asked|
  {
    exists j :: 0 <= j < k && asked[j].control.osschannel == nr
  }

  /** A number is free after `k` requests if none of them was for it. */
  ghost predicate FreeAfter(asked: seq<Asked>, k: nat, free: set<nat>)
    requires k <= |asked|
  {
    forall nr: nat :: nr in free <==> nr < 32 && !(nr < 25 && TakenBefore(asked, k, nr))
  }

  /** The request at `k` is the first one for its number. */
  predicate First(asked: seq<Asked>, k: nat)
    requires k < |asked|
  {
    asked[k].control.osschannel < 25 && !TakenBefore(asked, k, asked[k].control.osschannel)
  }

  /** The device answers every request for a control. */
  predicate Answers(dev: Device, c: Control) {
    && dev.answer(c, GetMin).Value? && dev.answer(c, GetMax).Value? && dev.answer(c, GetCur(false)).Value?
    && (c.stereoIn || c.stereoOut ==> dev.answer(c, GetCur(true)).Value?)
  }

  /** An entry holds what the device says about its control. */
  ghost predicate EntryReads(dev: Device, e: Channel) {
    && Answers(dev, e.control)
    && e.minval == dev.answer(e.control, GetMin).v && e.maxval == dev.answer(e.control, GetMax).v
    && e.value % 256 == Level(e.minval, e.maxval, dev.answer(e.control, GetCur(false)).v)
    && (e.control.stereoIn || e.control.stereoOut ==>
          e.value / 256 == Level(e.minval, e.maxval, dev.answer(e.control, GetCur(true)).v))
  }

  ghost predicate HasEntry(m: Mixer, c: Control) {
    exists i :: 0 <= i < |m.table| && m.table[i].control == c
  }

  ghost predicate WasFirst(asked: seq<Asked>, c: Control) {
    exists k :: 0 <= k < |asked| && asked[k].control == c && First(asked, k)
  }

  /** The entries are the controls that were the first to ask for their number and for which the
      device answers. */
  ghost predicate TableRight(dev: Device, m: Mixer) {
    && (forall i :: 0 <= i < |m.table| ==> EntryReads(dev, m.table[i]) && WasFirst(m.asked, m.table[i].control))
    && (forall k :: 0 <= k < |m.asked| && First(m.asked, k) && Answers(dev, m.asked[k].control) ==>
          HasEntry(m, m.asked[k].control))
  }

  ghost predicate RequestsRight(m: Mixer) {
    && FreeAfter(m.asked, |m.asked|, m.free)
    && forall k :: 0 <= k < |m.asked| ==> FreeAfter(m.asked, k, m.asked[k].free) && Justified(m.asked[k])
  }

  lemma PreparedReads(dev: Device, c: Control)
    ensures var p := Prepared(dev.answer, c);
      && (p != [] <==> Answers(dev, c)) && (p != [] ==> |p| == 1 && p[0].control == c && EntryReads(dev, p[0]))
  {
    hide Level;
  }

  lemma TakenGrows(asked: seq<Asked>, more: seq<Asked>, k: nat, nr: nat)
    requires asked <= more && k <= |asked|
    ensures TakenBefore(more, k, nr) <==> TakenBefore(asked, k, nr)
  {
  }

  lemma FirstGrows(asked: seq<Asked>, more: seq<Asked>, k: nat)
    requires asked <= more && k < |asked|
    ensures First(more, k) <==> First(asked, k)
  {
    TakenGrows(asked, more, k, asked[k].control.osschannel);
  }

  lemma WasFirstGrows(asked: seq<Asked>, more: seq<Asked>, c: Control)
    requires asked <= more && WasFirst(asked, c)
    ensures WasFirst(more, c)
  {
    var k :| 0 <= k < |asked| && asked[k].control == c && First(asked, k);
    FirstGrows(asked, more, k);
    assert more[k].control == c;
  }

  lemma TakenOnceMore(asked: seq<Asked>, a: Asked, nr: nat)
    ensures TakenBefore(asked + [a], |asked| + 1, nr) <==> TakenBefore(asked, |asked|, nr) || a.control.osschannel == nr
  {
    var more := asked + [a];
    if TakenBefore(asked, |asked|, nr) {
      var j :| 0 <= j < |asked| && asked[j].control.osschannel == nr;
      assert more[j].control.osschannel == nr;
    }
    assert more[|asked|] == a;
  }

  lemma GrantKeepsRequests(answer: (Control, Query) -> Answer, m: Mixer, c: Control)
    requires RequestsRight(m) && Justified(Asked(c, m.free, m.heard))
    ensures RequestsRight(Granted(answer, m, c))
  {
    hide Justified, Prepared, TakenBefore;
    var t, a := Granted(answer, m, c), Asked(c, m.free, m.heard);
    forall nr: nat
      ensures nr in t.free <==> nr < 32 && !(nr < 25 && TakenBefore(t.asked, |t.asked|, nr))
    {
      TakenOnceMore(m.asked, a, nr);
    }
    forall k | 0 <= k < |t.asked|
      ensures FreeAfter(t.asked, k, t.asked[k].free)
    {
      forall nr: nat
        ensures TakenBefore(t.asked, k, nr) <==> TakenBefore(m.asked, k, nr)
      {
        TakenGrows(m.asked, t.asked, k, nr);
      }
    }
  }

  lemma GrantKeepsTable(dev: Device, m: Mixer, c: Control)
    requires RequestsRight(m) && TableRight(dev, m)
    ensures TableRight(dev, Granted(dev.answer, m, c))
  {
    hide Justified, Prepared, EntryReads, Answers, TakenBefore, WasFirst, HasEntry;
    var t, n := Granted(dev.answer, m, c), |m.asked|;
    PreparedReads(dev, c);
    TakenGrows(m.asked, t.asked, n, c.osschannel);
    assert First(t.asked, n) <==> c.osschannel < 25 && c.osschannel in m.free;
    forall i | 0 <= i < |t.table|
      ensures EntryReads(dev, t.table[i]) && WasFirst(t.asked, t.table[i].control)
    {
      if i < |m.table| {
        assert t.table[i] == m.table[i];
        WasFirstGrows(m.asked, t.asked, m.table[i].control);
      } else {
        IsFirst(t.asked, n);
      }
    }
    forall k | 0 <= k < |t.asked| && First(t.asked, k) && Answers(dev, t.asked[k].control)
      ensures HasEntry(t, t.asked[k].control)
    {
      if k < n {
        FirstGrows(m.asked, t.asked, k);
        EntryStays(m, t, m.asked[k].control);
      } else {
        EntryAt(t, |m.table|);
      }
    }
  }

  lemma IsFirst(asked: seq<Asked>, k: nat)
    requires k < |asked| && First(asked, k)
    ensures WasFirst(asked, asked[k].control)
  {
  }

  lemma EntryAt(m: Mixer, i: nat)
    requires i < |m.table|
    ensures HasEntry(m, m.table[i].control)
  {
  }

  lemma EntryStays(m: Mixer, t: Mixer, c: Control)
    requires m.table <= t.table && HasEntry(m, c)
    ensures HasEntry(t, c)
  {
    var i :| 0 <= i < |m.table| && m.table[i].control == c;
    assert t.table[i].control == c;
  }

  /** A mark changes no control. */
  lemma MarkKeepsTable(dev: Device, m: Mixer, before: nat, source: nat, slctunitid: nat)
    requires TableRight(dev, m)
    ensures TableRight(dev, Marked(m, before, source, slctunitid))
  {
    hide WasFirst, HasEntry, First;
    var t := Marked(m, before, source, slctunitid);
    hide Answers;
    forall i | 0 <= i < |t.table|
      ensures t.table[i].control == m.table[i].control
      ensures EntryReads(dev, t.table[i]) && WasFirst(t.asked, t.table[i].control)
    {
      assert EntryReads(dev, m.table[i]);
    }
    forall k | 0 <= k < |t.asked| && First(t.asked, k) && Answers(dev, t.asked[k].control)
      ensures HasEntry(t, t.asked[k].control)
    {
      assert HasEntry(m, m.asked[k].control);
      SameEntries(m, t, m.asked[k].control);
    }
  }

  lemma SameEntries(m: Mixer, t: Mixer, c: Control)
    requires HasEntry(m, c) && |m.table| == |t.table|
    requires forall i :: 0 <= i < |m.table| ==> t.table[i].control == m.table[i].control
    ensures HasEntry(t, c)
  {
    var i :| 0 <= i < |m.table| && m.table[i].control == c;
    assert t.table[i].control == c;
  }

  // ----- evaluations -----

  /** The units whose inputs are heard one after the other before they ask or leave something. */
  function HeardInputs(d: seq<Byte>): seq<nat> {
    if IsMixer(d) then Pins(d, 5, At(d, 4))
    else if At(d, 2) == 6 && At(d, 0) >= 7 + At(d, 5) then Pins(d, 4, 1)
    else if At(d, 2) in {7, 8} && LongEnough(d) then Pins(d, 7, At(d, 6))
    else []
  }

  /** Some unit other than `u` has `p` for an input. */
  ghost predicate LedFromOther(units: Graph, u: nat, p: nat) {
    exists v :: v in units && v != u && p in Inputs(units[v])
  }

  /** Input `k` of unit `u` may have been visited before `u` follows it. */
  ghost predicate Elsewhere(units: Graph, roots: set<nat>, u: nat, pins: seq<nat>, k: nat)
    requires k < |pins|
  {
    pins[k] !in units || pins[k] in roots || pins[k] == u || pins[k] in pins[..k] || LedFromOther(units, u, pins[k])
  }

  /** An input has left behind what its own evaluation did, or, if it may have been visited before,
      what was there already. */
  ghost predicate HeardAt(units: Graph, roots: set<nat>, u: nat, evals: map<nat, Eval>, pins: seq<nat>,
                          channels: seq<nat>, termtypes: seq<nat>, n: nat, t: nat, k: nat)
    requires k < |pins| == |channels| == |termtypes|
  {
    || (pins[k] in evals && channels[k] == evals[pins[k]].nrchannels && termtypes[k] == evals[pins[k]].termtype)
    || (Elsewhere(units, roots, u, pins, k)
        && if k == 0 then channels[k] == n && termtypes[k] == t
           else channels[k] == channels[k - 1] && termtypes[k] == termtypes[k - 1])
  }

  ghost predicate HeardRight(units: Graph, roots: set<nat>, u: nat, evals: map<nat, Eval>, pins: seq<nat>,
                             channels: seq<nat>, termtypes: seq<nat>, n: nat, t: nat)
  {
    && |channels| == |termtypes| == |pins|
    && forall k :: 0 <= k < |pins| ==> HeardAt(units, roots, u, evals, pins, channels, termtypes, n, t, k)
  }

  /** The terminal type that all inputs have, or 0 if there is none. */
  ghost predicate IsCommon(termtypes: seq<nat>, t: nat) {
    if termtypes == [] || exists k :: 0 <= k < |termtypes| && termtypes[k] != termtypes[0] then t == 0
    else t == termtypes[0]
  }

  lemma AgreedIsCommon(termtypes: seq<nat>)
    ensures IsCommon(termtypes, Agreed(termtypes))
  {
  }

  /** What a unit leaves behind, from its descriptor and what its inputs have left. */
  ghost predicate EvalRight(d: seq<Byte>, e: Eval) {
    && (At(d, 2) == 2 && At(d, 0) >= 12 ==> e.nrchannels == At(d, 7) && e.termtype == At(d, 4) + 256 * At(d, 5))
    && (At(d, 2) in {7, 8} && LongEnough(d) ==>
          && e.heard.desc == d && e.nrchannels == At(d, 7 + At(d, 6))
          && if At(d, 2) == 7 then e.termtype == 0 else IsCommon(e.heard.termtypes, e.termtype))
    && (IsMixer(d) ==>
          && e.heard.desc == d && |e.heard.channels| == At(d, 4)
          && e.termtype == 0 && e.nrchannels == e.heard.channels[At(d, 4) - 1])
    && (At(d, 2) == 6 && At(d, 0) >= 7 + At(d, 5) ==>
          && e.heard.desc == d && |e.heard.channels| == |e.heard.termtypes| == 1 && e.termtype == e.heard.termtypes[0]
          && e.nrchannels == if At(d, 5) > 0 then SourceChannels(e.heard) else e.heard.channels[0])
  }

  /** Every control that the descriptor has, and a source with channels, has been asked for. */
  ghost predicate AllAsked(h: Hearing, asked: seq<Asked>) {
    && (IsFeature(h.desc) && |h.channels| == 1 && h.channels[0] > 0 ==>
          forall selector, bit :: IsControl(selector, bit) && (OnAll(h.desc, bit) || HasControl(h.desc, bit, 0)) ==>
            AskedSelector(h, asked, selector))
    && (IsMixer(h.desc) && |h.channels| == At(h.desc, 4)
        && At(h.desc, 0) >= 10 + At(h.desc, 4) + BitmapBytes(h) ==>
          forall i :: 0 <= i < |h.channels| && Free(h, Sum(h.channels[..i]), false) ==> AskedInput(h, asked, i))
  }

  ghost predicate AskedSelector(h: Hearing, asked: seq<Asked>, selector: nat) {
    exists k :: 0 <= k < |asked| && asked[k].heard == h && asked[k].control.selector == selector
  }

  ghost predicate AskedInput(h: Hearing, asked: seq<Asked>, i: nat) {
    exists k :: 0 <= k < |asked| && asked[k].heard == h && i < |h.channels| && MixerAsksFor(asked[k], i)
  }

  ghost predicate EvalSound(dev: Device, roots: set<nat>, m: Mixer, id: nat, e: Eval) {
    && id in dev.units && EvalRight(dev.units[id], e)
    && (HeardInputs(dev.units[id]) != [] ==>
          && HeardRight(dev.units, roots, id, m.evals, HeardInputs(dev.units[id]), e.heard.channels, e.heard.termtypes,
                        0, 0)
          && AllAsked(e.heard, m.asked))
  }

  /** Every request comes from a unit evaluated. */
  ghost predicate Owner(dev: Device, m: Mixer, a: Asked, id: nat) {
    id in m.evals && id in dev.units && m.evals[id].heard == a.heard && a.heard.desc == dev.units[id]
  }

  ghost predicate Owned(dev: Device, m: Mixer, k: nat)
    requires k < |m.asked|
  {
    exists id :: Owner(dev, m, m.asked[k], id)
  }

  /** A mark names a selector unit and one of its inputs, counted from 1. */
  predicate IsMark(d: seq<Byte>, n: nat) { At(d, 2) == 5 && n % 256 == At(d, 3) && 1 <= n / 256 <= At(d, 4) }

  ghost predicate MarkedBy(units: Graph, visited: set<nat>, n: nat) {
    n == 0 || exists u :: u in visited && u in units && IsMark(units[u], n)
  }

  ghost predicate MarksRight(units: Graph, visited: set<nat>, table: seq<Channel>) {
    forall i :: 0 <= i < |table| ==> MarkedBy(units, visited, table[i].slctunitid)
  }

  lemma MarksGrow(units: Graph, visited: set<nat>, more: set<nat>, table: seq<Channel>)
    requires MarksRight(units, visited, table) && visited <= more
    ensures MarksRight(units, more, table)
  {
    forall i | 0 <= i < |table|
      ensures MarkedBy(units, more, table[i].slctunitid)
    {
      assert MarkedBy(units, visited, table[i].slctunitid);
    }
  }

  lemma GrantKeepsMarks(answer: (Control, Query) -> Answer, units: Graph, m: Mixer, c: Control)
    requires MarksRight(units, m.visited, m.table)
    ensures MarksRight(units, m.visited, Granted(answer, m, c).table)
  {
    hide Prepared, IsMark;
  }

  /** The mark goes to the entry that the input has just got, or else to the first entry of the input
      itself. */
  lemma MarkGoesTo(m: Mixer, before: nat, source: nat, n: nat) returns (k: nat)
    ensures k <= |m.table| &&
      Marked(m, before, source, n).table ==
        if k < |m.table| then m.table[k := m.table[k].(slctunitid := n)] else m.table
    ensures |m.table| > before ==> k == |m.table| - 1
    ensures |m.table| <= before ==>
      && (k < |m.table| ==> m.table[k].control.unitid == source)
      && forall j :: 0 <= j < k ==> m.table[j].control.unitid != source
  {
    k := if |m.table| > before then |m.table| - 1 else FindUnit(m.table, source);
  }

  lemma MarkKeepsMarks(units: Graph, m: Mixer, before: nat, source: nat, slctunitid: nat)
    requires MarksRight(units, m.visited, m.table) && MarkedBy(units, m.visited, slctunitid)
    ensures MarksRight(units, m.visited, Marked(m, before, source, slctunitid).table)
  {
    hide MarkedBy;
  }

  /** A unit is one of the roots, or an input of a unit visited. */
  ghost predicate Led(units: Graph, roots: set<nat>, visited: set<nat>, id: nat) {
    id in roots || exists v :: v in visited && v in units && id in Inputs(units[v])
  }

  ghost predicate AllLed(units: Graph, roots: set<nat>, visited: set<nat>) {
    forall id :: id in visited ==> Led(units, roots, visited, id)
  }

  /** The entries and the requests are right, and so is what is known of each unit evaluated. */
  ghost predicate Grounded(dev: Device, roots: set<nat>, m: Mixer) {
    && Seen(m.visited) && RequestsRight(m) && TableRight(dev, m) && AllLed(dev.units, roots, m.visited)
    && MarksRight(dev.units, m.visited, m.table)
    && forall id :: id in m.evals ==> id in m.visited && EvalSound(dev, roots, m, id, m.evals[id])
  }

  ghost predicate Sound(dev: Device, roots: set<nat>, m: Mixer) {
    Grounded(dev, roots, m) && forall k :: 0 <= k < |m.asked| ==> Owned(dev, m, k)
  }

  /** The same while a unit is asking. */
  ghost predicate SoundFor(dev: Device, roots: set<nat>, m: Mixer, d: seq<Byte>) {
    && Grounded(dev, roots, m)
    && forall k :: 0 <= k < |m.asked| ==> Owned(dev, m, k) || (m.asked[k].heard == m.heard && m.heard.desc == d)
  }

  ghost predicate Later(m: Mixer, r: Mixer) {
    && m.visited <= r.visited && m.asked <= r.asked
    && (forall id :: id in m.evals ==> id in r.evals && r.evals[id] == m.evals[id])
    && (forall id :: id in r.evals ==> id in m.evals || id !in m.visited)
  }

  lemma LaterTwice(a: Mixer, b: Mixer, c: Mixer)
    requires Later(a, b) && Later(b, c)
    ensures Later(a, c)
  {
  }

  lemma AllAskedGrows(h: Hearing, asked: seq<Asked>, more: seq<Asked>)
    requires asked <= more && AllAsked(h, asked)
    ensures AllAsked(h, more)
  {
    hide OnAll, HasControl, Free, MixerAsksFor;
    forall selector | AskedSelector(h, asked, selector)
      ensures AskedSelector(h, more, selector)
    {
      var k :| 0 <= k < |asked| && asked[k].heard == h && asked[k].control.selector == selector;
      assert more[k] == asked[k];
    }
    forall i | 0 <= i < |h.channels| && AskedInput(h, asked, i)
      ensures AskedInput(h, more, i)
    {
      var k :| 0 <= k < |asked| && asked[k].heard == h && i < |h.channels| && MixerAsksFor(asked[k], i);
      assert more[k] == asked[k];
    }
  }

  lemma HeardRightGrows(units: Graph, roots: set<nat>, u: nat, evals: map<nat, Eval>, more: map<nat, Eval>,
                        pins: seq<nat>, channels: seq<nat>,
                        termtypes: seq<nat>, n: nat, t: nat)
    requires HeardRight(units, roots, u, evals, pins, channels, termtypes, n, t)
    requires forall id :: id in evals ==> id in more && more[id] == evals[id]
    ensures HeardRight(units, roots, u, more, pins, channels, termtypes, n, t)
  {
    hide Elsewhere;
    forall k | 0 <= k < |pins|
      ensures HeardAt(units, roots, u, more, pins, channels, termtypes, n, t, k)
    {
      assert HeardAt(units, roots, u, evals, pins, channels, termtypes, n, t, k);
    }
  }

  lemma EvalSoundGrows(dev: Device, roots: set<nat>, m: Mixer, r: Mixer, id: nat, e: Eval)
    requires EvalSound(dev, roots, m, id, e) && Later(m, r)
    ensures EvalSound(dev, roots, r, id, e)
  {
    hide EvalRight, AllAsked, HeardRight, HeardInputs;
    if HeardInputs(dev.units[id]) != [] {
      HeardRightGrows(dev.units, roots, id, m.evals, r.evals, HeardInputs(dev.units[id]), e.heard.channels,
                      e.heard.termtypes, 0, 0);
      AllAskedGrows(e.heard, m.asked, r.asked);
    }
  }

  lemma OwnedStays(dev: Device, m: Mixer, r: Mixer, k: nat)
    requires k < |m.asked| && Owned(dev, m, k) && Later(m, r)
    ensures Owned(dev, r, k)
  {
    var id :| Owner(dev, m, m.asked[k], id);
    assert Owner(dev, r, r.asked[k], id);
  }

  // ----- the walk -----

  predicate SameBut(m: Mixer, r: Mixer) {
    r == m.(nrchannels := r.nrchannels, termtype := r.termtype, chconfig := r.chconfig, heard := r.heard)
  }

  lemma SameButSound(dev: Device, roots: set<nat>, m: Mixer, r: Mixer)
    requires Sound(dev, roots, m) && SameBut(m, r)
    ensures Sound(dev, roots, r) && Later(m, r)
  {
    hide EvalSound, Owner;
    forall id | id in m.evals
      ensures EvalSound(dev, roots, r, id, r.evals[id])
    {
      EvalSoundGrows(dev, roots, m, r, id, m.evals[id]);
    }
    forall k | 0 <= k < |m.asked|
      ensures Owned(dev, r, k)
    {
      OwnedStays(dev, m, r, k);
    }
  }

  /** From `m` to `r` some units have been evaluated: those that the inputs lead to. */
  ghost predicate Explored(units: Graph, m: Mixer, r: Mixer, pins: seq<nat>) {
    && m.visited <= r.visited
    && forall id :: id in r.visited && id !in m.visited ==>
      && (id in units ==> id in r.evals)
      && (id in pins || LedByNew(units, m, r, id))
  }

  ghost predicate LedByNew(units: Graph, m: Mixer, r: Mixer, id: nat) {
    exists v :: v in r.visited && v !in m.visited && v in units && id in Inputs(units[v])
  }

  /** What holds when the evaluation of unit `u`, with descriptor `d` is over. */
  ghost predicate UnitDone(dev: Device, roots: set<nat>, u: nat, m: Mixer, r: Mixer, d: seq<Byte>) {
    && SoundFor(dev, roots, r, d) && Later(m, r) && Explored(dev.units, m, r, Inputs(d))
    && EvalRight(d, Eval(r.nrchannels, r.termtype, r.heard))
    && (HeardInputs(d) != [] ==>
          && HeardRight(dev.units, roots, u, r.evals, HeardInputs(d), r.heard.channels, r.heard.termtypes, 0, 0)
          && AllAsked(r.heard, r.asked))
  }

  lemma SoundIsSoundFor(dev: Device, roots: set<nat>, m: Mixer, d: seq<Byte>)
    requires Sound(dev, roots, m)
    ensures SoundFor(dev, roots, m, d)
  {
  }

  lemma EnteredSound(dev: Device, roots: set<nat>, m: Mixer, visited: set<nat>, d: seq<Byte>)
    requires Sound(dev, roots, m) && m.visited <= visited && Seen(visited) && AllLed(dev.units, roots, visited)
    ensures Sound(dev, roots, Entered(m, visited, d)) && Later(m, Entered(m, visited, d))
    ensures Sound(dev, roots, m.(visited := visited)) && Later(m, m.(visited := visited))
  {
    hide EvalSound, Owner;
    var r, t := Entered(m, visited, d), m.(visited := visited);
    MarksGrow(dev.units, m.visited, visited, m.table);
    forall id | id in m.evals
      ensures EvalSound(dev, roots, r, id, m.evals[id]) && EvalSound(dev, roots, t, id, m.evals[id])
    {
      EvalSoundGrows(dev, roots, m, r, id, m.evals[id]);
      EvalSoundGrows(dev, roots, m, t, id, m.evals[id]);
    }
    forall k | 0 <= k < |m.asked|
      ensures Owned(dev, r, k) && Owned(dev, t, k)
    {
      OwnedStays(dev, m, r, k);
      OwnedStays(dev, m, t, k);
    }
  }

  lemma EvaluatedSound(dev: Device, roots: set<nat>, n: Mixer, r: Mixer, id: nat)
    requires id in dev.units && id !in n.evals && id in n.visited
    requires UnitDone(dev, roots, id, n, r, dev.units[id])
    ensures Sound(dev, roots, Evaluated(r, id)) && Later(n, Evaluated(r, id).(evals := r.evals))
    ensures forall other :: other in r.evals ==> Evaluated(r, id).evals[other] == r.evals[other]
    ensures id !in r.evals
  {
    hide EvalRight, AllAsked, HeardRight, HeardInputs, RequestsRight, TableRight, Inputs, Led, LedByNew, MarkedBy;
    var t, e := Evaluated(r, id), Eval(r.nrchannels, r.termtype, r.heard);
    assert id !in r.evals;
    forall other | other in t.evals
      ensures EvalSound(dev, roots, t, other, t.evals[other])
    {
      if other == id {
        if HeardInputs(dev.units[id]) != [] {
          HeardRightGrows(dev.units, roots, id, r.evals, t.evals, HeardInputs(dev.units[id]), r.heard.channels,
                          r.heard.termtypes, 0, 0);
        }
      } else {
        EvalStays(dev, roots, r, t, other);
      }
    }
    forall k | 0 <= k < |t.asked|
      ensures Owned(dev, t, k)
    {
      if Owned(dev, r, k) {
        var other :| Owner(dev, r, r.asked[k], other);
        assert Owner(dev, t, t.asked[k], other);
      } else {
        assert Owner(dev, t, t.asked[k], id);
      }
    }
    TableStays(dev, r, t);
  }

  lemma EvalStays(dev: Device, roots: set<nat>, r: Mixer, t: Mixer, other: nat)
    requires other in r.evals && EvalSound(dev, roots, r, other, r.evals[other]) && t.asked == r.asked
    requires forall id :: id in r.evals ==> id in t.evals && t.evals[id] == r.evals[id]
    ensures EvalSound(dev, roots, t, other, t.evals[other])
  {
    hide EvalRight, AllAsked, HeardRight, HeardInputs;
    var e := r.evals[other];
    if HeardInputs(dev.units[other]) != [] {
      HeardRightGrows(dev.units, roots, other, r.evals, t.evals, HeardInputs(dev.units[other]), e.heard.channels,
                      e.heard.termtypes, 0, 0);
    }
  }

  lemma TableStays(dev: Device, m: Mixer, r: Mixer)
    requires RequestsRight(m) && TableRight(dev, m)
    requires r.table == m.table && r.asked == m.asked && r.free == m.free
    ensures RequestsRight(r) && TableRight(dev, r)
  {
    hide EntryReads, WasFirst, First, Answers, Justified;
    forall c | HasEntry(m, c)
      ensures HasEntry(r, c)
    {
      EntryStays(m, r, c);
    }
  }

  // ----- asking -----

  /** From `m` to `r` a unit has only asked. */
  ghost predicate OnlyAsked(dev: Device, roots: set<nat>, m: Mixer, r: Mixer, d: seq<Byte>) {
    && SoundFor(dev, roots, r, d) && m.asked <= r.asked && r == m.(table := r.table, free := r.free, asked := r.asked)
  }

  lemma GrantIsAsking(dev: Device, roots: set<nat>, m: Mixer, c: Control, d: seq<Byte>)
    requires SoundFor(dev, roots, m, d) && m.heard.desc == d && Justified(Asked(c, m.free, m.heard))
    ensures OnlyAsked(dev, roots, m, Granted(dev.answer, m, c), d)
    ensures Granted(dev.answer, m, c).asked == m.asked + [Asked(c, m.free, m.heard)]
  {
    hide RequestsRight, TableRight, EvalSound, Owner, Justified, Prepared;
    var r := Granted(dev.answer, m, c);
    GrantKeepsRequests(dev.answer, m, c);
    GrantKeepsTable(dev, m, c);
    GrantKeepsMarks(dev.answer, dev.units, m, c);
    forall id | id in m.evals
      ensures EvalSound(dev, roots, r, id, r.evals[id])
    {
      EvalSoundGrows(dev, roots, m, r, id, m.evals[id]);
    }
    forall k | 0 <= k < |r.asked|
      ensures Owned(dev, r, k) || (r.asked[k].heard == r.heard && r.heard.desc == d)
    {
      if k < |m.asked| && Owned(dev, m, k) {
        OwnedStays(dev, m, r, k);
      }
    }
  }

  /** At most one request. */
  lemma GrantsAreAsking(dev: Device, roots: set<nat>, m: Mixer, cs: seq<Control>, d: seq<Byte>)
    requires SoundFor(dev, roots, m, d) && m.heard.desc == d && |cs| <= 1
    requires cs != [] ==> Justified(Asked(cs[0], m.free, m.heard))
    ensures OnlyAsked(dev, roots, m, AllGranted(dev.answer, m, cs), d)
    ensures AllGranted(dev.answer, m, cs).asked ==
      if cs == [] then m.asked else m.asked + [Asked(cs[0], m.free, m.heard)]
  {
    hide SoundFor, Justified, Granted;
    if cs != [] {
      GrantIsAsking(dev, roots, m, cs[0], d);
      assert cs[..0] == [];
      assert AllGranted(dev.answer, m, cs) == Granted(dev.answer, m, cs[0]);
    }
  }

  lemma OnlyAskedTwice(dev: Device, roots: set<nat>, a: Mixer, b: Mixer, c: Mixer, d: seq<Byte>)
    requires OnlyAsked(dev, roots, a, b, d) && OnlyAsked(dev, roots, b, c, d)
    ensures OnlyAsked(dev, roots, a, c, d)
  {
    hide SoundFor;
  }

  lemma SelectorIsAsked(h: Hearing, asked: seq<Asked>, k: nat, more: seq<Asked>)
    requires k < |asked| && asked[k].heard == h && asked <= more
    ensures AskedSelector(h, more, asked[k].control.selector)
  {
    assert more[k] == asked[k];
  }

  lemma InputIsAsked(h: Hearing, asked: seq<Asked>, k: nat, more: seq<Asked>, i: nat)
    requires k < |asked| && asked[k].heard == h && asked <= more && i < |h.channels| && MixerAsksFor(asked[k], i)
    ensures AskedInput(h, more, i)
  {
    assert more[k] == asked[k];
  }

  /** The requests of a mixer unit for its first `n` inputs. */
  lemma {:induction false} MixerAsking(dev: Device, roots: set<nat>, m: Mixer, d: seq<Byte>, n: nat)
    requires SoundFor(dev, roots, m, d) && m.heard.desc == d && IsMixer(d)
    requires |m.heard.channels| == |m.heard.termtypes| == At(d, 4) && n <= At(d, 4)
    requires At(d, 0) >= 10 + At(d, 4) + BitmapBytes(m.heard)
    ensures var r := MixerGranted(dev.answer, m, d, m.heard.channels, m.heard.termtypes, n);
      && OnlyAsked(dev, roots, m, r, d)
      && forall i :: 0 <= i < n && Free(m.heard, Sum(m.heard.channels[..i]), false) ==> AskedInput(m.heard, r.asked, i)
    decreases n
  {
    hide SoundFor, MixerAsksFor, Free, IsMixer, AskedInput, Sum, VolChannel, MixerRequest, BitmapBytes, AllGranted;
    if n > 0 {
      var h := m.heard;
      var p := MixerGranted(dev.answer, m, d, h.channels, h.termtypes, n - 1);
      MixerAsking(dev, roots, m, d, n - 1);
      MixerAsksOne(dev, roots, p, d, n - 1);
      var r := MixerGranted(dev.answer, m, d, h.channels, h.termtypes, n);
      OnlyAskedTwice(dev, roots, m, p, r, d);
      forall i | 0 <= i < n && Free(h, Sum(h.channels[..i]), false)
        ensures AskedInput(h, r.asked, i)
      {
        if i < n - 1 {
          AskedInputStays(h, p.asked, r.asked, i);
        }
      }
    }
  }

  lemma AskedInputStays(h: Hearing, asked: seq<Asked>, more: seq<Asked>, i: nat)
    requires asked <= more && AskedInput(h, asked, i)
    ensures AskedInput(h, more, i)
  {
    hide MixerAsksFor;
    var k :| 0 <= k < |asked| && asked[k].heard == h && i < |h.channels| && MixerAsksFor(asked[k], i);
    InputIsAsked(h, asked, k, more, i);
  }

  lemma MixerAsksOne(dev: Device, roots: set<nat>, p: Mixer, d: seq<Byte>, i: nat)
    requires SoundFor(dev, roots, p, d) && p.heard.desc == d && IsMixer(d)
    requires |p.heard.channels| == |p.heard.termtypes| == At(d, 4) && i < At(d, 4)
    requires At(d, 0) >= 10 + At(d, 4) + BitmapBytes(p.heard)
    ensures var r :=
      AllGranted(dev.answer, p, MixerRequest(d, p.heard.channels, i, VolChannel(p.heard.termtypes[i], p.free)));
      && OnlyAsked(dev, roots, p, r, d)
      && (Free(p.heard, Sum(p.heard.channels[..i]), false) ==> AskedInput(p.heard, r.asked, i))
  {
    hide SoundFor, MixerAsksFor, Free, Sum, VolChannel, MixerRequest, BitmapBytes, AllGranted;
    var h := p.heard;
    var cs := MixerRequest(d, h.channels, i, VolChannel(h.termtypes[i], p.free));
    MixerRequestIs(h, i, p.free);
    if cs != [] {
      assert MixerAsks(Asked(cs[0], p.free, h));
    }
    GrantsAreAsking(dev, roots, p, cs, d);
    var r := AllGranted(dev.answer, p, cs);
    if cs != [] {
      InputIsAsked(h, r.asked, |p.asked|, r.asked, i);
    }
  }

  /** One control of a feature unit. */
  lemma FeatureAsksOne(dev: Device, roots: set<nat>, m: Mixer, d: seq<Byte>, selector: nat, bit: nat, nr: nat)
    requires SoundFor(dev, roots, m, d) && m.heard.desc == d && IsFeature(d) && IsControl(selector, bit)
    requires |m.heard.channels| == |m.heard.termtypes| == 1 && m.heard.channels[0] > 0
    requires selector == 2 ==> nr == VolChannel(m.heard.termtypes[0], m.free)
    requires (selector == 3 ==> nr == 1) && (selector == 5 ==> nr == 2)
    ensures var r := AllGranted(dev.answer, m, FeatureRequest(d, bit, SourceChannels(m.heard), nr, selector));
      && OnlyAsked(dev, roots, m, r, d)
      && (OnAll(d, bit) || HasControl(d, bit, 0) ==> AskedSelector(m.heard, r.asked, selector))
  {
    hide SoundFor, FeatureAsks, MixerAsks, OnAll, HasControl, FeatureRequest, VolChannel, AllGranted;
    var cs := FeatureRequest(d, bit, SourceChannels(m.heard), nr, selector);
    FeatureRequestIs(m.heard, selector, bit, nr, m.free);
    GrantsAreAsking(dev, roots, m, cs, d);
    var r := AllGranted(dev.answer, m, cs);
    if cs != [] {
      SelectorIsAsked(m.heard, r.asked, |m.asked|, r.asked);
    }
  }

  lemma AskedSelectorStays(h: Hearing, asked: seq<Asked>, more: seq<Asked>, selector: nat)
    requires asked <= more && AskedSelector(h, asked, selector)
    ensures AskedSelector(h, more, selector)
  {
    var k :| 0 <= k < |asked| && asked[k].heard == h && asked[k].control.selector == selector;
    SelectorIsAsked(h, asked, k, more);
  }

  /** The three controls of a feature unit. */
  lemma FeatureAsking(dev: Device, roots: set<nat>, m: Mixer, d: seq<Byte>)
    requires SoundFor(dev, roots, m, d) && m.heard.desc == d && IsFeature(d)
    requires |m.heard.channels| == |m.heard.termtypes| == 1 && m.heard.channels[0] > 0
    ensures var r := AllGranted(dev.answer, m,
        FeatureRequests(d, SourceChannels(m.heard), VolChannel(m.heard.termtypes[0], m.free)));
      OnlyAsked(dev, roots, m, r, d) && AllAsked(m.heard, r.asked)
  {
    hide SoundFor, OnAll, HasControl, FeatureRequest, VolChannel, AllGranted, AskedSelector;
    var n, nr := SourceChannels(m.heard), VolChannel(m.heard.termtypes[0], m.free);
    var a, b, c := FeatureRequest(d, 2, n, nr, 2), FeatureRequest(d, 4, n, 1, 3), FeatureRequest(d, 16, n, 2, 5);
    GrantedInTurn(dev.answer, m, a, b);
    GrantedInTurn(dev.answer, m, a + b, c);
    FeatureAsksOne(dev, roots, m, d, 2, 2, nr);
    var p := AllGranted(dev.answer, m, a);
    FeatureAsksOne(dev, roots, p, d, 3, 4, 1);
    var q := AllGranted(dev.answer, p, b);
    FeatureAsksOne(dev, roots, q, d, 5, 16, 2);
    var r := AllGranted(dev.answer, q, c);
    OnlyAskedTwice(dev, roots, m, p, q, d);
    OnlyAskedTwice(dev, roots, m, q, r, d);
    forall selector, bit | IsControl(selector, bit) && (OnAll(d, bit) || HasControl(d, bit, 0))
      ensures AskedSelector(m.heard, r.asked, selector)
    {
      if selector == 2 {
        AskedSelectorStays(m.heard, p.asked, r.asked, 2);
      } else if selector == 3 {
        AskedSelectorStays(m.heard, q.asked, r.asked, 3);
      }
    }
  }

  // ----- the walk keeps it -----

  /** What a unit leaves behind when it has been walked to. */
  ghost predicate LeftBehind(units: Graph, m: Mixer, r: Mixer, id: nat) {
    || (id in r.evals && r.nrchannels == r.evals[id].nrchannels && r.termtype == r.evals[id].termtype)
    || ((id in m.visited || id !in units) && r.nrchannels == m.nrchannels && r.termtype == m.termtype)
  }

  lemma {:induction false} WalkSound(dev: Device, roots: set<nat>, m: Mixer, unitid: nat)
    requires Sound(dev, roots, m) && unitid < 256 && Led(dev.units, roots, m.visited, unitid)
    ensures var r := Walk(dev, m, unitid);
      && Sound(dev, roots, r) && Later(m, r) && LeftBehind(dev.units, m, r, unitid)
      && Explored(dev.units, m, r, [unitid])
    decreases 256 - |m.visited|, 0, 0
  {
    hide WalkUnit, UnitDone, EvalSound, RequestsRight, TableRight, Owned, Led, LedByNew;
    if unitid !in m.visited {
      var visited := m.visited + {unitid};
      SmallSet(visited, 256);
      LedGrows(dev.units, roots, m.visited, unitid);
      EnteredSound(dev, roots, m, visited, if unitid in dev.units then dev.units[unitid] else []);
      if unitid in dev.units {
        var n := Entered(m, visited, dev.units[unitid]);
        LedBefore(dev.units, roots, m.visited, unitid);
        WalkUnitSound(dev, roots, unitid, n, dev.units[unitid]);
        var r := WalkUnit(dev, n, dev.units[unitid]);
        EvaluatedSound(dev, roots, n, r, unitid);
        WalkedLater(dev, roots, m, n, r, unitid);
      }
    }
  }

  lemma LedGrows(units: Graph, roots: set<nat>, visited: set<nat>, id: nat)
    requires AllLed(units, roots, visited) && Led(units, roots, visited, id)
    ensures AllLed(units, roots, visited + {id})
  {
  }

  lemma LedMore(units: Graph, roots: set<nat>, visited: set<nat>, more: set<nat>, id: nat)
    requires Led(units, roots, visited, id) && visited <= more
    ensures Led(units, roots, more, id)
  {
  }

  /** What has been visited before unit `u` is led to from elsewhere. */
  ghost predicate Before(units: Graph, roots: set<nat>, u: nat, visited: set<nat>) {
    u in visited && forall p :: p in visited ==> p in roots || p == u || LedFromOther(units, u, p)
  }

  lemma LedBefore(units: Graph, roots: set<nat>, visited: set<nat>, u: nat)
    requires AllLed(units, roots, visited) && u !in visited
    ensures Before(units, roots, u, visited + {u})
  {
    forall p | p in visited && p !in roots
      ensures LedFromOther(units, u, p)
    {
      assert Led(units, roots, visited, p);
    }
  }

  lemma WalkedLater(dev: Device, roots: set<nat>, m: Mixer, n: Mixer, r: Mixer, id: nat)
    requires Later(m, n) && n.evals == m.evals && n.visited == m.visited + {id} && id !in m.visited && id !in r.evals
    requires id in dev.units && UnitDone(dev, roots, id, n, r, dev.units[id])
    ensures Later(m, Evaluated(r, id)) && LeftBehind(dev.units, m, Evaluated(r, id), id)
    ensures Explored(dev.units, m, Evaluated(r, id), [id])
  {
    hide SoundFor, EvalRight, AllAsked, HeardRight, HeardInputs, Inputs;
    var t := Evaluated(r, id);
    forall other | other in t.visited && other !in m.visited && other != id
      ensures LedByNew(dev.units, m, t, other)
    {
      if other !in Inputs(dev.units[id]) {
        var v :| v in r.visited && v !in n.visited && v in dev.units && other in Inputs(dev.units[v]);
        assert v in t.visited && v !in m.visited;
      }
    }
  }

  lemma {:induction false} WalkInputsSound(dev: Device, roots: set<nat>, u: nat, m: Mixer, pins: seq<nat>)
    requires Sound(dev, roots, m) && AllBytes(pins) && Before(dev.units, roots, u, m.visited)
    requires u in dev.units && forall id :: id in pins ==> id in Inputs(dev.units[u])
    ensures var t := WalkInputs(dev, m, pins);
      && Sound(dev, roots, t.after) && Later(m, t.after) && Explored(dev.units, m, t.after, pins)
      && HeardRight(dev.units, roots, u, t.after.evals, pins, t.channels, t.termtypes, m.nrchannels, m.termtype)
      && t.after.nrchannels == (if pins == [] then m.nrchannels else t.channels[|pins| - 1])
      && t.after.termtype == (if pins == [] then m.termtype else t.termtypes[|pins| - 1])
    decreases 256 - |m.visited|, 1, |pins|
  {
    hide Walk, Grounded, Owned, LedFromOther, Inputs, Led, LeftBehind, Explored, HeardAt;
    SoundIsSeen(dev, roots, m);
    if pins == [] {
      LaterNow(dev, m);
      ExploredNow(dev.units, m, m);
    } else {
      var init, pin := pins[..|pins| - 1], pins[|pins| - 1];
      var t := WalkInputs(dev, m, init);
      WalkInputsSound(dev, roots, u, m, init);
      SoundIsSeen(dev, roots, t.after);
      InputIsLed(dev.units, roots, u, m.visited, pin);
      LedMore(dev.units, roots, m.visited, t.after.visited, pin);
      WalkSound(dev, roots, t.after, pin);
      var r := Walk(dev, t.after, pin);
      LaterTwice(m, t.after, r);
      ExploredTwice(dev.units, m, t.after, r, init, [pin]);
      assert init + [pin] == pins;
      VisitedElsewhere(dev.units, roots, u, m, t.after, pins);
      HeardOneMore(dev.units, roots, u, t.after, r, pins, t.channels, t.termtypes, m.nrchannels, m.termtype);
    }
  }

  lemma InputIsLed(units: Graph, roots: set<nat>, u: nat, visited: set<nat>, pin: nat)
    requires u in units && u in visited && pin in Inputs(units[u])
    ensures Led(units, roots, visited, pin)
  {
  }

  lemma ExploredNow(units: Graph, m: Mixer, r: Mixer)
    requires r.visited == m.visited
    ensures Explored(units, m, r, [])
  {
  }

  lemma ExploredWider(units: Graph, m: Mixer, r: Mixer, ps: seq<nat>, qs: seq<nat>)
    requires Explored(units, m, r, ps) && forall id :: id in ps ==> id in qs
    ensures Explored(units, m, r, qs)
  {
    hide LedByNew;
  }

  /** Nothing is visited when a unit asks or is marked. */
  lemma ExploredSame(units: Graph, m: Mixer, r: Mixer, t: Mixer, ps: seq<nat>)
    requires Explored(units, m, r, ps) && t.visited == r.visited && t.evals == r.evals
    ensures Explored(units, m, t, ps)
  {
    hide Inputs;
    forall id | id in t.visited && id !in m.visited && id !in ps
      ensures LedByNew(units, m, t, id)
    {
      assert LedByNew(units, m, r, id);
    }
  }

  lemma ExploredTwice(units: Graph, a: Mixer, b: Mixer, c: Mixer, ps: seq<nat>, qs: seq<nat>)
    requires Explored(units, a, b, ps) && Explored(units, b, c, qs) && Later(b, c)
    ensures Explored(units, a, c, ps + qs)
  {
    hide Inputs;
    forall id | id in c.visited && id !in a.visited
      ensures (id in units ==> id in c.evals) && (id in ps + qs || LedByNew(units, a, c, id))
    {
      if id in b.visited {
        if id !in ps {
          var v :| v in b.visited && v !in a.visited && v in units && id in Inputs(units[v]);
          assert v in c.visited;
        }
      } else if id !in qs {
        var v :| v in c.visited && v !in b.visited && v in units && id in Inputs(units[v]);
        assert v !in a.visited;
      }
    }
  }

  /** If its last input has been visited before unit `u` follows it, it is led to from elsewhere. */
  lemma VisitedElsewhere(units: Graph, roots: set<nat>, u: nat, m: Mixer, r: Mixer, pins: seq<nat>)
    requires pins != [] && Before(units, roots, u, m.visited) && Explored(units, m, r, pins[..|pins| - 1])
    ensures pins[|pins| - 1] in r.visited || pins[|pins| - 1] !in units ==>
      Elsewhere(units, roots, u, pins, |pins| - 1)
  {
  }

  lemma SoundIsSeen(dev: Device, roots: set<nat>, m: Mixer)
    requires Sound(dev, roots, m)
    ensures Seen(m.visited) && forall id :: id in m.evals ==> id in m.visited
  {
  }

  lemma LaterNow(dev: Device, m: Mixer)
    ensures Later(m, m)
  {
  }

  lemma HeardOneMore(units: Graph, roots: set<nat>, u: nat, m: Mixer, r: Mixer, pins: seq<nat>, channels: seq<nat>,
                     termtypes: seq<nat>, n: nat, t: nat)
    requires pins != [] && Later(m, r)
    requires HeardRight(units, roots, u, m.evals, pins[..|pins| - 1], channels, termtypes, n, t)
    requires LeftBehind(units, m, r, pins[|pins| - 1])
    requires pins[|pins| - 1] in m.visited || pins[|pins| - 1] !in units ==>
      Elsewhere(units, roots, u, pins, |pins| - 1)
    requires m.nrchannels == if |pins| == 1 then n else channels[|pins| - 2]
    requires m.termtype == if |pins| == 1 then t else termtypes[|pins| - 2]
    ensures HeardRight(units, roots, u, r.evals, pins, channels + [r.nrchannels], termtypes + [r.termtype], n, t)
  {
    var init, last := pins[..|pins| - 1], |pins| - 1;
    var cs, ts := channels + [r.nrchannels], termtypes + [r.termtype];
    hide LedFromOther;
    HeardRightGrows(units, roots, u, m.evals, r.evals, init, channels, termtypes, n, t);
    forall k | 0 <= k < |pins|
      ensures HeardAt(units, roots, u, r.evals, pins, cs, ts, n, t, k)
    {
      if k < last {
        assert init[k] == pins[k] && init[..k] == pins[..k];
        assert HeardAt(units, roots, u, r.evals, init, channels, termtypes, n, t, k);
      }
    }
  }

  lemma MarkedSound(dev: Device, roots: set<nat>, m: Mixer, before: nat, source: nat, slctunitid: nat)
    requires Sound(dev, roots, m)
    requires MarkedBy(dev.units, m.visited, slctunitid)
    ensures var r := Marked(m, before, source, slctunitid); Sound(dev, roots, r) && Later(m, r)
  {
    hide EvalSound, Owner, EntryReads, WasFirst, HasEntry;
    var r := Marked(m, before, source, slctunitid);
    MarkKeepsTable(dev, m, before, source, slctunitid);
    MarkKeepsMarks(dev.units, m, before, source, slctunitid);
    forall id | id in m.evals
      ensures EvalSound(dev, roots, r, id, r.evals[id])
    {
      EvalSoundGrows(dev, roots, m, r, id, m.evals[id]);
    }
    forall k | 0 <= k < |m.asked|
      ensures Owned(dev, r, k)
    {
      OwnedStays(dev, m, r, k);
    }
  }

  lemma SelectorMark(units: Graph, u: nat, visited: set<nat>, i: nat)
    requires u in units && u in visited && At(units[u], 2) == SELECTOR_UNIT && i < At(units[u], 4)
    ensures MarkedBy(units, visited, At(units[u], 3) + 256 * (i + 1))
  {
    assert IsMark(units[u], At(units[u], 3) + 256 * (i + 1));
  }

  lemma {:induction false} WalkSelectorSound(dev: Device, roots: set<nat>, u: nat, m: Mixer, d: seq<Byte>,
                                             chnum: nat, i: nat)
    requires Sound(dev, roots, m) && At(d, 2) == SELECTOR_UNIT && LongEnough(d)
    requires u in dev.units && dev.units[u] == d && u in m.visited
    ensures var r := WalkSelector(dev, m, d, chnum, i);
      Sound(dev, roots, r) && Later(m, r) && Explored(dev.units, m, r, Inputs(d))
    decreases 256 - |m.visited|, 1, At(d, 4) - i
  {
    hide Walk, Marked, Sound, Explored, Led;
    SoundIsSeen(dev, roots, m);
    if i >= At(d, 4) {
      SameButSound(dev, roots, m, m.(termtype := 0, chconfig := 0));
      ExploredNow(dev.units, m, m.(termtype := 0, chconfig := 0));
      ExploredWider(dev.units, m, m.(termtype := 0, chconfig := 0), [], Inputs(d));
    } else {
      var pin := At(d, 5 + i);
      var t := Walk(dev, m, pin);
      assert Inputs(d)[i] == pin;
      InputIsLed(dev.units, roots, u, m.visited, pin);
      WalkSound(dev, roots, m, pin);
      ExploredWider(dev.units, m, t, [pin], Inputs(d));
      if i > 0 && t.nrchannels != chnum {
        var r := t.(termtype := 0, chconfig := 0, nrchannels := 0);
        SameButSound(dev, roots, t, r);
        LaterTwice(m, t, r);
        ExploredSame(dev.units, m, t, r, Inputs(d));
      } else {
        var v := Marked(t, |m.table|, pin, At(d, 3) + 256 * (i + 1));
        SelectorMark(dev.units, u, t.visited, i);
        MarkedSound(dev, roots, t, |m.table|, pin, At(d, 3) + 256 * (i + 1));
        LaterTwice(m, t, v);
        ExploredSame(dev.units, m, t, v, Inputs(d));
        WalkSelectorSound(dev, roots, u, v, d, t.nrchannels, i + 1);
        var r := WalkSelector(dev, v, d, t.nrchannels, i + 1);
        LaterTwice(m, v, r);
        ExploredTwice(dev.units, m, v, r, Inputs(d), Inputs(d));
        ExploredWider(dev.units, m, r, Inputs(d) + Inputs(d), Inputs(d));
      }
    }
  }

  lemma QuietUnit(dev: Device, roots: set<nat>, u: nat, m: Mixer, r: Mixer, d: seq<Byte>)
    requires Sound(dev, roots, r) && Later(m, r) && Explored(dev.units, m, r, Inputs(d)) && HeardInputs(d) == []
    requires EvalRight(d, Eval(r.nrchannels, r.termtype, r.heard))
    ensures UnitDone(dev, roots, u, m, r, d)
  {
    hide Sound;
    SoundIsSoundFor(dev, roots, r, d);
  }

  /** A processing or an extension unit asks for nothing. */
  lemma PlainUnit(dev: Device, roots: set<nat>, u: nat, m: Mixer, r: Mixer, d: seq<Byte>)
    requires At(d, 2) in {7, 8} && r.heard.desc == d
    requires Sound(dev, roots, r) && Later(m, r) && Explored(dev.units, m, r, Inputs(d))
    requires EvalRight(d, Eval(r.nrchannels, r.termtype, r.heard))
    requires HeardRight(dev.units, roots, u, r.evals, HeardInputs(d), r.heard.channels, r.heard.termtypes, 0, 0)
    ensures UnitDone(dev, roots, u, m, r, d)
  {
    hide Sound, EvalRight, HeardRight, HeardInputs, Explored;
    SoundIsSoundFor(dev, roots, r, d);
  }

  lemma QuietIsExplored(units: Graph, m: Mixer, r: Mixer, d: seq<Byte>)
    requires r.visited == m.visited
    ensures Explored(units, m, r, Inputs(d))
  {
    ExploredNow(units, m, r);
    ExploredWider(units, m, r, [], Inputs(d));
  }

  lemma NothingToHear(d: seq<Byte>)
    ensures At(d, 2) !in {4, 6, 7, 8} || !LongEnough(d) || (At(d, 2) == 4 && (At(d, 4) == 0 || At(d, 4) > 25)) ==>
      HeardInputs(d) == [] && !IsMixer(d)
  {
  }

  lemma {:induction false} WalkMixerSound(dev: Device, roots: set<nat>, u: nat, m: Mixer, d: seq<Byte>)
    requires Sound(dev, roots, m) && At(d, 2) == MIXER_UNIT && LongEnough(d) && m.nrchannels == m.termtype == 0
    requires u in dev.units && dev.units[u] == d && Before(dev.units, roots, u, m.visited)
    ensures UnitDone(dev, roots, u, m, WalkMixer(dev, m, d), d)
    decreases 256 - |m.visited|, 2, 0
  {
    hide WalkInputs, Sound, SoundFor, HeardRight, MixerGranted, Sum, Explored, Before, AllAsked;
    SoundIsSeen(dev, roots, m);
    var pins := At(d, 4);
    if pins == 0 || pins > NRDEVICES {
      NothingToHear(d);
      LaterNow(dev, m);
      QuietIsExplored(dev.units, m, m, d);
      QuietUnit(dev, roots, u, m, m, d);
    } else {
      var t := WalkInputs(dev, m, Pins(d, 5, pins));
      assert Inputs(d) == Pins(d, 5, pins) == HeardInputs(d);
      WalkInputsSound(dev, roots, u, m, Pins(d, 5, pins));
      var v := t.after.(termtype := 0, chconfig := Word(d, 6 + pins), heard := Hearing(d, t.channels, t.termtypes));
      SameButSound(dev, roots, t.after, v);
      LaterTwice(m, t.after, v);
      SoundIsSoundFor(dev, roots, v, d);
      ExploredSame(dev.units, m, t.after, v, Inputs(d));
      if At(d, 0) >= 10 + pins + BitmapSize(d, t.channels) {
        MixerAsking(dev, roots, v, d, pins);
        var r := MixerGranted(dev.answer, v, d, t.channels, t.termtypes, pins);
        AskedLater(dev, roots, m, v, r, d);
        ExploredSame(dev.units, m, v, r, Inputs(d));
        AllInputsAsked(v.heard, r.asked);
      } else {
        TooSmall(v.heard, v.asked);
      }
    }
  }

  lemma AllInputsAsked(h: Hearing, asked: seq<Asked>)
    requires IsMixer(h.desc)
    requires forall i :: 0 <= i < At(h.desc, 4) && i < |h.channels| && Free(h, Sum(h.channels[..i]), false) ==>
      AskedInput(h, asked, i)
    ensures AllAsked(h, asked)
  {
    hide Free, AskedInput;
  }

  lemma TooSmall(h: Hearing, asked: seq<Asked>)
    requires IsMixer(h.desc) && At(h.desc, 0) < 10 + At(h.desc, 4) + BitmapBytes(h)
    ensures AllAsked(h, asked)
  {
  }

  lemma AskedLater(dev: Device, roots: set<nat>, m: Mixer, u: Mixer, r: Mixer, d: seq<Byte>)
    requires Later(m, u) && OnlyAsked(dev, roots, u, r, d)
    ensures Later(m, r)
  {
    hide SoundFor;
  }

  lemma {:induction false} WalkFeatureSound(dev: Device, roots: set<nat>, u: nat, m: Mixer, d: seq<Byte>)
    requires Sound(dev, roots, m) && At(d, 2) == FEATURE_UNIT && LongEnough(d) && m.nrchannels == m.termtype == 0
    requires u in dev.units && dev.units[u] == d && Before(dev.units, roots, u, m.visited)
    ensures UnitDone(dev, roots, u, m, WalkFeature(dev, m, d), d)
    decreases 256 - |m.visited|, 2, 0
  {
    hide WalkInputs, Sound, SoundFor, HeardRight, AllGranted, FeatureRequests, VolChannel, Explored, Before, AllAsked;
    SoundIsSeen(dev, roots, m);
    var w := WalkInputs(dev, m, Pins(d, 4, 1));
    assert Inputs(d) == Pins(d, 4, 1) == HeardInputs(d);
    WalkInputsSound(dev, roots, u, m, Pins(d, 4, 1));
    var t := w.after.(heard := Hearing(d, w.channels, w.termtypes));
    if At(d, 5) == 0 || t.nrchannels == 0 {
      SameButSound(dev, roots, w.after, t);
      LaterTwice(m, w.after, t);
      SoundIsSoundFor(dev, roots, t, d);
      ExploredSame(dev.units, m, w.after, t, Inputs(d));
      NothingToAsk(t.heard, t.asked);
    } else {
      OnAllCount(d);
      var v := if t.nrchannels == 1 && LogicalChannels(d) == 2 then t.(nrchannels := 2) else t;
      SameButSound(dev, roots, w.after, v);
      LaterTwice(m, w.after, v);
      SoundIsSoundFor(dev, roots, v, d);
      FeatureAsking(dev, roots, v, d);
      var r := AllGranted(dev.answer, v, FeatureRequests(d, v.nrchannels, VolChannel(v.termtype, v.free)));
      AskedLater(dev, roots, m, v, r, d);
      ExploredSame(dev.units, m, w.after, r, Inputs(d));
    }
  }

  lemma OnAllCount(d: seq<Byte>)
    requires IsFeature(d)
    ensures ChannelsBeside(d) == LogicalChannels(d)
  {
    OnAllIs(d, 2);
  }

  lemma NothingToAsk(h: Hearing, asked: seq<Asked>)
    requires At(h.desc, 2) == 6 && |h.channels| == 1 && (At(h.desc, 5) == 0 || h.channels[0] == 0)
    ensures AllAsked(h, asked)
  {
  }

  lemma PlainInputs(d: seq<Byte>)
    requires At(d, 2) in {7, 8} && LongEnough(d)
    ensures Inputs(d) == Pins(d, 7, At(d, 6)) == HeardInputs(d) && !IsMixer(d)
  {
  }

  lemma {:induction false} WalkUnitSound(dev: Device, roots: set<nat>, u: nat, m: Mixer, d: seq<Byte>)
    requires Sound(dev, roots, m) && m.nrchannels == m.termtype == 0
    requires u in dev.units && dev.units[u] == d && Before(dev.units, roots, u, m.visited)
    ensures UnitDone(dev, roots, u, m, WalkUnit(dev, m, d), d)
    decreases 256 - |m.visited|, 3, 0
  {
    hide WalkInputs, WalkMixer, WalkFeature, WalkSelector, Sound, UnitDone, HeardRight, HeardInputs, IsMixer;
    hide Explored, Agreed, IsCommon;
    SoundIsSeen(dev, roots, m);
    var kind := At(d, 2);
    NothingToHear(d);
    LaterNow(dev, m);
    var r := WalkUnit(dev, m, d);
    if kind == INPUT_TERMINAL || !LongEnough(d) {
      SameButSound(dev, roots, m, r);
      QuietIsExplored(dev.units, m, r, d);
      QuietUnit(dev, roots, u, m, r, d);
    } else if kind == MIXER_UNIT {
      WalkMixerSound(dev, roots, u, m, d);
    } else if kind == SELECTOR_UNIT {
      if At(d, 4) > 0 {
        WalkSelectorSound(dev, roots, u, m, d, 0, 0);
      } else {
        QuietIsExplored(dev.units, m, r, d);
      }
      QuietUnit(dev, roots, u, m, r, d);
    } else if kind == FEATURE_UNIT {
      WalkFeatureSound(dev, roots, u, m, d);
    } else {
      var p := At(d, 6);
      var t := WalkInputs(dev, m, Pins(d, 7, p));
      PlainInputs(d);
      WalkInputsSound(dev, roots, u, m, Pins(d, 7, p));
      SameButSound(dev, roots, t.after, r);
      LaterTwice(m, t.after, r);
      ExploredSame(dev.units, m, t.after, r, Inputs(d));
      AgreedIsCommon(t.termtypes);
      PlainUnit(dev, roots, u, m, r, d);
    }
  }

  // ----- the finished mixer -----

  /** The walk of usb_audio_constructmixer, from the source of the output terminal. */
  ghost function Finished(dev: Device, oterm: Byte, source: Byte): Mixer {
    Walk(dev, Begun(oterm), source)
  }

  lemma AllAreFree(nr: nat)
    ensures nr in ALL_FREE <==> nr < 32
  {
  }

  lemma BeginsSound(dev: Device, oterm: Byte, source: Byte)
    ensures Sound(dev, {oterm as nat, source as nat}, Begun(oterm))
  {
    var m := Begun(oterm);
    forall nr: nat
      ensures nr in m.free <==> nr < 32 && !(nr < 25 && TakenBefore(m.asked, 0, nr))
    {
      AllAreFree(nr);
    }
  }

  /** What the finished mixer holds, and which units have been evaluated for it. */
  lemma MixerIsSound(dev: Device, oterm: Byte, source: Byte)
    ensures Sound(dev, {oterm as nat, source as nat}, Finished(dev, oterm, source))
    ensures forall id :: id in Finished(dev, oterm, source).visited && id in dev.units && id != oterm as nat ==>
      id in Finished(dev, oterm, source).evals
  {
    hide Walk, Sound, Led;
    var roots := {oterm as nat, source as nat};
    BeginsSound(dev, oterm, source);
    RootIsLed(dev.units, roots, Begun(oterm).visited, source);
    WalkSound(dev, roots, Begun(oterm), source);
  }

  lemma RootIsLed(units: Graph, roots: set<nat>, visited: set<nat>, id: nat)
    requires id in roots
    ensures Led(units, roots, visited, id)
  {
  }

  /** A bass or treble control as the descriptor of a feature unit and its source have it. */
  predicate ToneHere(d: seq<Byte>, h: Hearing, c: Control) {
    var bit := if c.osschannel == 1 then 4 else 16;
    && IsFeature(d) && h.desc == d && h.channels != []
    && c.unitid == At(d, 3) && c.selector == (if c.osschannel == 1 then 3 else 5)
    && if OnAll(d, bit) then c.chnum == 1 && c.stereoIn == c.stereoOut == (SourceChannels(h) > 1)
       else HasControl(d, bit, 0) && c.chnum == 0 && !c.stereoIn && !c.stereoOut
  }

  lemma {:induction false} FirstFreeIsWanted(w: seq<nat>, free: set<nat>)
    ensures FirstFree(w, free) in w || FirstFree(w, free) == 0xffff_ffff
    decreases |w|
  {
    if w != [] {
      FirstFreeIsWanted(w[1..], free);
    }
  }

  lemma VolumeIsNoTone(termtype: nat, free: set<nat>)
    ensures FirstFree(Wanted(termtype), free) !in {1, 2}
  {
    FirstFreeIsWanted(Wanted(termtype), free);
    hide FirstFree;
    assert 1 !in Wanted(termtype) && 2 !in Wanted(termtype);
  }

  lemma ToneAsked(a: Asked)
    requires Justified(a) && a.control.osschannel in {1, 2}
    ensures ToneHere(a.heard.desc, a.heard, a.control)
  {
    hide FirstFree, Wanted, OnAll, HasControl, Free, BitmapBytes;
    if MixerAsks(a) {
      var i :| 0 <= i < |a.heard.channels| && MixerAsksFor(a, i);
      VolumeIsNoTone(a.heard.termtypes[i], a.free);
    } else {
      VolumeIsNoTone(a.heard.termtypes[0], a.free);
    }
  }

  /** Every entry is a control that the descriptor of a unit evaluated has, the first to ask for its
      number, with the levels that the device says. */
  lemma EntryIsJustified(dev: Device, oterm: Byte, source: Byte, i: nat) returns (id: nat, k: nat)
    requires i < |Finished(dev, oterm, source).table|
    ensures var r := Finished(dev, oterm, source);
      && id in dev.units && id in r.evals && k < |r.asked|
      && r.asked[k].control == r.table[i].control && r.asked[k].heard == r.evals[id].heard
      && r.asked[k].heard.desc == dev.units[id]
      && Justified(r.asked[k]) && First(r.asked, k) && FreeAfter(r.asked, k, r.asked[k].free)
      && EntryReads(dev, r.table[i])
  {
    hide Finished, Justified, EvalSound, FreeAfter, First, Led, EntryReads;
    MixerIsSound(dev, oterm, source);
    var r := Finished(dev, oterm, source);
    k :| 0 <= k < |r.asked| && r.asked[k].control == r.table[i].control && First(r.asked, k);
    assert Owned(dev, r, k);
    id :| Owner(dev, r, r.asked[k], id);
  }

  /** An OSS bass or treble channel is the bass or treble control of a feature unit evaluated. */
  lemma ToneEntryIs(dev: Device, oterm: Byte, source: Byte, i: nat)
    requires i < |Finished(dev, oterm, source).table|
    requires Finished(dev, oterm, source).table[i].control.osschannel in {1, 2}
    ensures var r := Finished(dev, oterm, source);
      exists id :: id in dev.units && id in r.evals && ToneHere(dev.units[id], r.evals[id].heard, r.table[i].control)
  {
    hide Finished, ToneHere, Justified, FreeAfter, First, EntryReads;
    var id, k := EntryIsJustified(dev, oterm, source, i);
    ToneAsked(Finished(dev, oterm, source).asked[k]);
  }

  /** A control that a feature unit has, and a source with channels, has an entry if its request was
      the first for its number and the device answers. */
  lemma ControlIsFound(dev: Device, oterm: Byte, source: Byte, id: nat, selector: nat, bit: nat) returns (k: nat)
    requires id in dev.units && id in Finished(dev, oterm, source).evals && IsFeature(dev.units[id])
    requires IsControl(selector, bit) && (OnAll(dev.units[id], bit) || HasControl(dev.units[id], bit, 0))
    requires var h := Finished(dev, oterm, source).evals[id].heard; |h.channels| == 1 ==> h.channels[0] > 0
    ensures var r := Finished(dev, oterm, source);
      && k < |r.asked| && r.asked[k].heard == r.evals[id].heard && r.asked[k].heard.desc == dev.units[id]
      && r.asked[k].control.unitid == At(dev.units[id], 3) && r.asked[k].control.selector == selector
      && (selector == 3 ==> r.asked[k].control.osschannel == 1)
      && (selector == 5 ==> r.asked[k].control.osschannel == 2)
      && (First(r.asked, k) && Answers(dev, r.asked[k].control) ==> HasEntry(r, r.asked[k].control))
  {
    hide Finished, FreeAfter, First, Led, EntryReads, OnAll, HasControl, HeardRight, HasEntry, Answers;
    hide FirstFree, Wanted;
    MixerIsSound(dev, oterm, source);
    var r := Finished(dev, oterm, source);
    assert EvalSound(dev, {oterm as nat, source as nat}, r, id, r.evals[id]);
    var h := r.evals[id].heard;
    assert AskedSelector(h, r.asked, selector);
    k :| 0 <= k < |r.asked| && r.asked[k].heard == h && r.asked[k].control.selector == selector;
    assert Justified(r.asked[k]);
  }

  /** Likewise an input of a mixer unit that its bitmap says is programmable. */
  lemma InputIsFound(dev: Device, oterm: Byte, source: Byte, id: nat, i: nat) returns (k: nat)
    requires id in dev.units && id in Finished(dev, oterm, source).evals && IsMixer(dev.units[id])
    requires i < At(dev.units[id], 4)
    requires var h, d := Finished(dev, oterm, source).evals[id].heard, dev.units[id];
      |h.channels| == At(d, 4) && h.desc == d ==>
        At(d, 0) >= 10 + At(d, 4) + BitmapBytes(h) && Free(h, Sum(h.channels[..i]), false)
    ensures var r := Finished(dev, oterm, source);
      && k < |r.asked| && r.asked[k].heard == r.evals[id].heard && r.asked[k].heard.desc == dev.units[id]
      && |r.asked[k].heard.channels| == At(dev.units[id], 4) && MixerAsksFor(r.asked[k], i)
      && (First(r.asked, k) && Answers(dev, r.asked[k].control) ==> HasEntry(r, r.asked[k].control))
  {
    hide Finished, FreeAfter, First, Led, EntryReads, Free, BitmapBytes, HeardRight, HasEntry, Answers, MixerAsksFor;
    MixerIsSound(dev, oterm, source);
    var r := Finished(dev, oterm, source);
    assert EvalSound(dev, {oterm as nat, source as nat}, r, id, r.evals[id]);
    var h := r.evals[id].heard;
    assert AskedInput(h, r.asked, i);
    k :| 0 <= k < |r.asked| && r.asked[k].heard == h && i < |h.channels| && MixerAsksFor(r.asked[k], i);
  }

  /** A feature unit whose source is an input terminal that no other unit leads to has the channels
      and the type of that terminal. */
  lemma TerminalIsHeard(dev: Device, oterm: Byte, source: Byte, id: nat)
    requires id in dev.units && id in Finished(dev, oterm, source).evals && IsFeature(dev.units[id])
    requires var p := At(dev.units[id], 4);
      && p in dev.units && p !in {id, oterm as nat, source as nat} && !LedFromOther(dev.units, id, p)
      && At(dev.units[p], 2) == 2 && At(dev.units[p], 0) >= 12
    ensures var h, d := Finished(dev, oterm, source).evals[id].heard, dev.units[At(dev.units[id], 4)];
      h.channels == [At(d, 7)] && h.termtypes == [At(d, 4) + 256 * At(d, 5)]
  {
    hide Finished, FreeAfter, First, Led, EntryReads, AllAsked, LedFromOther, RequestsRight, TableRight;
    hide OnAll, HasControl;
    MixerIsSound(dev, oterm, source);
    var r, roots, p := Finished(dev, oterm, source), {oterm as nat, source as nat}, At(dev.units[id], 4);
    assert EvalSound(dev, roots, r, id, r.evals[id]);
    var h := r.evals[id].heard;
    assert HeardInputs(dev.units[id]) == [p];
    assert HeardAt(dev.units, roots, id, r.evals, [p], h.channels, h.termtypes, 0, 0, 0);
    assert EvalSound(dev, roots, r, p, r.evals[p]);
  }

  /** Somebody was the first to ask for a number. */
  lemma {:induction false} SomeoneFirst(asked: seq<Asked>, k: nat) returns (j: nat)
    requires k < |asked| && asked[k].control.osschannel < 25
    ensures j <= k && First(asked, j) && asked[j].control.osschannel == asked[k].control.osschannel
    decreases k
  {
    if TakenBefore(asked, k, asked[k].control.osschannel) {
      var i :| 0 <= i < k && asked[i].control.osschannel == asked[k].control.osschannel;
      j := SomeoneFirst(asked, i);
    } else {
      j := k;
    }
  }

  /** If the device answers, then a bass or treble control behind an input terminal with channels gets
      the mixer its bass or treble channel. */
  lemma ToneIsFound(dev: Device, oterm: Byte, source: Byte, id: nat, selector: nat, bit: nat)
    requires id in dev.units && id in Finished(dev, oterm, source).evals && IsFeature(dev.units[id])
    requires var p := At(dev.units[id], 4);
      && p in dev.units && p !in {id, oterm as nat, source as nat} && !LedFromOther(dev.units, id, p)
      && At(dev.units[p], 2) == 2 && At(dev.units[p], 0) >= 12 && At(dev.units[p], 7) > 0
    requires (selector, bit) in {(3, 4), (5, 16)} && (OnAll(dev.units[id], bit) || HasControl(dev.units[id], bit, 0))
    requires forall c :: Answers(dev, c)
    ensures var r := Finished(dev, oterm, source);
      exists i :: 0 <= i < |r.table| && r.table[i].control.osschannel == if selector == 3 then 1 else 2
  {
    hide Finished, Answers, OnAll, HasControl, First, LedFromOther;
    TerminalIsHeard(dev, oterm, source, id);
    var k := ControlIsFound(dev, oterm, source, id, selector, bit);
    var r := Finished(dev, oterm, source);
    var j := SomeoneFirst(r.asked, k);
    assert HasEntry(r, r.asked[j].control) by {
      FirstHasEntry(dev, oterm, source, j);
    }
  }

  lemma FirstHasEntry(dev: Device, oterm: Byte, source: Byte, j: nat)
    requires j < |Finished(dev, oterm, source).asked| && First(Finished(dev, oterm, source).asked, j)
    requires forall c :: Answers(dev, c)
    ensures HasEntry(Finished(dev, oterm, source), Finished(dev, oterm, source).asked[j].control)
  {
    hide Finished, First, HasEntry, EvalSound, Led, RequestsRight;
    MixerIsSound(dev, oterm, source);
  }
}
