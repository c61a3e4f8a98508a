/** What a report descriptor means, read off its list of items: which settings are in force at an
    item, which usages have been collected there, which collections enclose it, and which fields its
    reports have.  The parser is measured against this reading; none of it runs the interpreter. */
module HidDescriptor {
  import opened Bits
  import opened Numbers
  import opened HidParsing

  // ----- items -----

  /** A short item in its bytes: a prefix of tag, type and size, and the operand, low byte first. */
  lemma ShortItemLayout(bytes: seq<Byte>, start: nat)
    requires start < |bytes| && Fetch(bytes, start).Short?
    ensures var (item, next) := (Fetch(bytes, start).item, Fetch(bytes, start).next);
      var kind := match item.kind case Main => 0 case Global => 1 case Local => 2 case Reserved => 3;
      var size := if item.size == 4 then 3 else item.size;
      && bytes[start] == 16 * item.tag + 4 * kind + size && next == start + 1 + item.size <= |bytes|
      && (item.size == 0 ==> item.data == 0)
      && (item.size == 1 ==> item.data == bytes[start + 1])
      && (item.size == 2 ==> item.data == bytes[start + 1] as int + 0x100 * bytes[start + 2] as int)
      && (item.size == 4 ==>
            item.data == bytes[start + 1] as int + 0x100 * bytes[start + 2] as int
                         + 0x1_0000 * bytes[start + 3] as int + 0x100_0000 * bytes[start + 4] as int)
  {
    var size := Fetch(bytes, start).item.size;
    LittleEndianIs(bytes[start + 1..start + 1 + size]);
  }

  lemma LittleEndianIs(b: seq<Byte>)
    requires |b| <= 4
    ensures LittleEndian(b) == (if |b| > 0 then b[0] as int else 0) + 0x100 * (if |b| > 1 then b[1] as int else 0)
                               + 0x1_0000 * (if |b| > 2 then b[2] as int else 0)
                               + 0x100_0000 * (if |b| > 3 then b[3] as int else 0)
  {
    if |b| > 0 {
      OneLess(b);
      if |b| > 1 {
        OneLess(b[1..]);
        if |b| > 2 {
          OneLess(b[2..]);
          if |b| > 3 {
            OneLess(b[3..]);
          }
        }
      }
    }
  }

  lemma OneLess(b: seq<Byte>)
    requires b != []
    ensures LittleEndian(b) == b[0] + 256 * LittleEndian(b[1..])
    ensures |b| == 1 ==> LittleEndian(b) == b[0]
    ensures |b| > 1 ==> b[1..][1..] == b[2..]
    ensures |b| > 2 ==> b[2..][1..] == b[3..]
  {
  }

  /** A signed operand is the number in two's complement. */
  lemma SignedIs(item: Item, bits: nat)
    requires (item.size, bits) in {(1, 0x100), (2, 0x1_0000), (4, 0x1_0000_0000)} && item.data < bits
    ensures -(bits / 2) <= item.Signed() < bits / 2 && (item.data - item.Signed()) % bits == 0
  {
  }

  // ----- settings in force -----

  /** The operand of a Global item; minima and maxima are signed. */
  function Operand(item: Item): int {
    if 1 <= item.tag <= 4 then item.Signed() else item.data
  }

  /** The operand of the last Global item with this tag that is in force after the items: reading
      back from the end, what stands between a Pop and its Push is passed over.  `skip` counts the
      Pops whose Push is still to come. */
  function InForce(items: seq<Item>, tag: nat, skip: nat): int
    decreases |items|
  {
    if items == [] then 0
    else
      var init, last := items[..|items| - 1], items[|items| - 1];
      if Pops(last) then InForce(init, tag, skip + 1)
      else if Pushes(last) && skip > 0 then InForce(init, tag, skip - 1)
      else if skip == 0 && last.kind == Global && last.tag == tag then Operand(last)
      else InForce(init, tag, skip)
  }

  function Setting(g: Environment, tag: nat): int {
    match tag
    case 0 => g.usagePage
    case 1 => g.logicalMinimum
    case 2 => g.logicalMaximum
    case 3 => g.physicalMinimum
    case 4 => g.physicalMaximum
    case 5 => g.unitExponent
    case 6 => g.unit
    case 7 => g.reportSize
    case 8 => g.reportId
    case _ => g.reportCount
  }

  /** The environment that `skip` more Pops would bring back. */
  function Environs(st: State, skip: nat): Environment
    requires skip <= |st.saved|
  {
    if skip == 0 then st.global else st.saved[|st.saved| - skip]
  }

  lemma SettingStep(st: State, item: Item, tag: nat, skip: nat)
    requires Interpret(st, item).Some? && tag <= 9 && skip <= |Interpret(st, item).value.saved|
    ensures var now := Setting(Environs(Interpret(st, item).value, skip), tag);
      if Pops(item) then skip + 1 <= |st.saved| && now == Setting(Environs(st, skip + 1), tag)
      else if Pushes(item) && skip > 0 then skip - 1 <= |st.saved| && now == Setting(Environs(st, skip - 1), tag)
      else if skip == 0 && item.kind == Global && item.tag == tag then now == Operand(item)
      else skip <= |st.saved| && now == Setting(Environs(st, skip), tag)
  {
  }

  /** The parser's settings, and the saved ones, are those in force. */
  lemma {:induction false} SettingsInForce(items: seq<Item>, tag: nat, skip: nat)
    requires RunItems(items).Some? && tag <= 9 && skip <= |RunItems(items).value.saved|
    ensures Setting(Environs(RunItems(items).value, skip), tag) == InForce(items, tag, skip)
    decreases |items|
  {
    hide Interpret, Setting, Environs;
    if items == [] {
      NothingInForce(tag);
    } else {
      var init, last := items[..|items| - 1], items[|items| - 1];
      SettingStep(RunItems(init).value, last, tag, skip);
      if Pops(last) {
        SettingsInForce(init, tag, skip + 1);
      } else if Pushes(last) && skip > 0 {
        SettingsInForce(init, tag, skip - 1);
      } else if !(skip == 0 && last.kind == Global && last.tag == tag) {
        SettingsInForce(init, tag, skip);
      }
    }
  }

  lemma NothingInForce(tag: nat)
    ensures Setting(Environs(START, 0), tag) == 0
  {
  }

  // ----- usages -----

  /** A usage: with one or two bytes, the page in force and the operand; else the operand. */
  function Full(before: seq<Item>, item: Item): int {
    if item.size <= 2 then (InForce(before, 0, 0) * 0x1_0000 + item.data) % 0x1_0000_0000
    else item.data % 0x1_0000_0000
  }

  /** The last Usage Minimum since the last Main item. */
  function MinimumAfter(items: seq<Item>): int
    decreases |items|
  {
    if items == [] then 0
    else
      var init, last := items[..|items| - 1], items[|items| - 1];
      if last.kind == Main then 0
      else if last.kind == Local && last.tag == 1 then Full(init, last)
      else MinimumAfter(init)
  }

  function Range(first: int, last: int): seq<int> {
    if first > last then [] else seq(last - first + 1, i => first + i)
  }

  /** The usages since the last Main item, in order: each Usage, and each range. */
  function Collected(items: seq<Item>): seq<int>
    decreases |items|
  {
    if items == [] then []
    else
      var init, last := items[..|items| - 1], items[|items| - 1];
      if last.kind == Main then []
      else if last.kind == Local && last.tag == 0 then Collected(init) + [Full(init, last)]
      else if last.kind == Local && last.tag == 2 then Collected(init) + Range(MinimumAfter(init), Full(init, last))
      else Collected(init)
  }

  lemma FullIs(items: seq<Item>, item: Item)
    requires RunItems(items).Some?
    ensures FullUsage(RunItems(items).value, item) == Full(items, item)
  {
    SettingsInForce(items, 0, 0);
  }

  lemma LocalStep(st: State, item: Item)
    requires Interpret(st, item).Some? && st.local.delimiterBranch == st.local.delimiterDepth == 0
    ensures var t := Interpret(st, item).value.local;
      && t.delimiterBranch == t.delimiterDepth == 0
      && t.minimum == (if item.kind == Main then 0
                       else if item.kind == Local && item.tag == 1 then FullUsage(st, item) else st.local.minimum)
      && t.usages == (if item.kind == Main then []
                      else if item.kind == Local && item.tag == 0 then st.local.usages + [FullUsage(st, item)]
                      else if item.kind == Local && item.tag == 2 then
                        st.local.usages + Range(st.local.minimum, FullUsage(st, item))
                      else st.local.usages)
  {
    hide FullUsage, FieldAdded, Opened;
    if item.kind == Local && item.tag == 2 {
      var first, last := st.local.minimum, FullUsage(st, item);
      RangeAddedIs(st, first, last);
      RangeIs(st.local.usages, first, last);
    } else if item.kind == Local && item.tag == 0 {
      RangeIs(st.local.usages, FullUsage(st, item), FullUsage(st, item));
    }
  }

  lemma RangeIs(usages: seq<nat>, first: nat, last: nat)
    ensures first <= last ==> Range(first, last) == From(first, last - first + 1)
    ensures first > last ==> usages + Range(first, last) == usages
    ensures first == last ==> From(first, 1) == [first]
  {
  }

  /** The parser has collected exactly these usages. */
  lemma {:induction false} UsagesCollected(items: seq<Item>)
    requires RunItems(items).Some?
    ensures var local := RunItems(items).value.local;
      && local.usages == Collected(items) && local.minimum == MinimumAfter(items)
      && local.delimiterBranch == local.delimiterDepth == 0
    decreases |items|
  {
    hide Interpret, Full, Range, FullUsage;
    if items != [] {
      var init, last := items[..|items| - 1], items[|items| - 1];
      UsagesCollected(init);
      LocalStep(RunItems(init).value, last);
      FullIs(init, last);
    }
  }

  // ----- collections -----

  /** The first usage of the innermost collection of a kind that is open after the items: reading
      back, what stands between an End and its Begin is passed over. */
  function Enclosing(items: seq<Item>, kind: nat, skip: nat): int
    decreases |items|
  {
    if items == [] then 0
    else
      var init, last := items[..|items| - 1], items[|items| - 1];
      if Ends(last) then Enclosing(init, kind, skip + 1)
      else if Begins(last) && skip > 0 then Enclosing(init, kind, skip - 1)
      else if Begins(last) && last.data % 4 == kind then (if Collected(init) == [] then 0 else Collected(init)[0])
      else Enclosing(init, kind, skip)
  }

  /** The collections left open when `skip` more of them have ended. */
  function StillOpen(st: State, skip: nat): seq<Collection>
    requires skip <= |st.open|
  {
    st.open[..|st.open| - skip]
  }

  lemma EnclosingStep(st: State, item: Item, kind: nat, skip: nat)
    requires Interpret(st, item).Some? && skip <= |Interpret(st, item).value.open|
    ensures var now := Innermost(StillOpen(Interpret(st, item).value, skip), kind);
      if Ends(item) then skip + 1 <= |st.open| && now == Innermost(StillOpen(st, skip + 1), kind)
      else if Begins(item) && skip > 0 then skip - 1 <= |st.open| && now == Innermost(StillOpen(st, skip - 1), kind)
      else if Begins(item) && item.data % 4 == kind then now == UsageAt(st.local.usages, 0)
      else skip <= |st.open| && now == Innermost(StillOpen(st, skip), kind)
  {
    hide FieldAdded, LocalItem, GlobalItem;
    var t := Interpret(st, item).value;
    if Ends(item) {
      assert StillOpen(t, skip) == StillOpen(st, skip + 1);
    } else if Begins(item) {
      if skip > 0 {
        assert StillOpen(t, skip) == StillOpen(st, skip - 1);
      } else {
        assert StillOpen(t, 0)[..|st.open|] == StillOpen(st, 0);
      }
    } else {
      SameOpen(st, item);
    }
  }

  lemma SameOpen(st: State, item: Item)
    requires Interpret(st, item).Some? && !Begins(item) && !Ends(item)
    ensures Interpret(st, item).value.open == st.open
  {
  }

  /** The parser's stack tells the enclosing collections. */
  lemma {:induction false} EnclosingIs(items: seq<Item>, kind: nat, skip: nat)
    requires RunItems(items).Some? && skip <= |RunItems(items).value.open|
    ensures Innermost(StillOpen(RunItems(items).value, skip), kind) == Enclosing(items, kind, skip)
    decreases |items|
  {
    hide Interpret, Innermost, StillOpen, Collected;
    if items == [] {
      NothingOpen(kind);
    } else {
      var init, last := items[..|items| - 1], items[|items| - 1];
      EnclosingStep(RunItems(init).value, last, kind, skip);
      UsagesCollected(init);
      if Ends(last) {
        EnclosingIs(init, kind, skip + 1);
      } else if Begins(last) && skip > 0 {
        EnclosingIs(init, kind, skip - 1);
      } else if !(Begins(last) && last.data % 4 == kind) {
        EnclosingIs(init, kind, skip);
      }
    }
  }

  lemma NothingOpen(kind: nat)
    ensures Innermost(StillOpen(START, 0), kind) == 0
  {
  }

  /** The first usages of the Application collections, of which the driver keeps sixteen. */
  function Applications(items: seq<Item>): seq<int>
    decreases |items|
  {
    if items == [] then []
    else
      var init, last := items[..|items| - 1], items[|items| - 1];
      Applications(init) +
        if Begins(last) && last.data % 4 == 1 then [if Collected(init) == [] then 0 else Collected(init)[0]] else []
  }

  function Front<T>(s: seq<T>, n: nat): seq<T> { if |s| <= n then s else s[..n] }

  lemma ApplicationStep(st: State, item: Item)
    requires Interpret(st, item).Some?
    ensures Interpret(st, item).value.applications ==
      if Begins(item) && item.data % 4 == 1 && |st.applications| < 16 then
        st.applications + [UsageAt(st.local.usages, 0)]
      else st.applications
  {
  }

  lemma {:induction false} ApplicationsAre(items: seq<Item>)
    requires RunItems(items).Some?
    ensures RunItems(items).value.applications == Front(Applications(items), 16)
    decreases |items|
  {
    hide Interpret, Collected;
    if items != [] {
      var init, last := items[..|items| - 1], items[|items| - 1];
      ApplicationsAre(init);
      ApplicationStep(RunItems(init).value, last);
      UsagesCollected(init);
    }
  }

  // ----- reports -----

  /** An Input, Output or Feature item for the report with this type and id. */
  predicate DeclaresFor(before: seq<Item>, item: Item, key: (nat, nat)) {
    && item.kind == Main && (item.tag, key.0) in {(8, 0), (9, 1), (11, 2)}
    && InForce(before, 8, 0) == key.1
  }

  /** A variable field has a usage for each value, an array field those collected. */
  function UsageCount(before: seq<Item>, item: Item): int {
    if item.data / 2 % 2 == 1 then InForce(before, 9, 0) else |Collected(before)|
  }

  /** The bits that all items for a report add up to, with or without usages. */
  function SizeOf(items: seq<Item>, key: (nat, nat)): int
    decreases |items|
  {
    if items == [] then 0
    else
      var init, last := items[..|items| - 1], items[|items| - 1];
      SizeOf(init, key) + if DeclaresFor(init, last, key) then InForce(init, 7, 0) * InForce(init, 9, 0) else 0
  }

  /** Where the items with usages for a report stand. */
  function FieldItems(items: seq<Item>, key: (nat, nat)): (at: seq<nat>)
    ensures forall j :: 0 <= j < |at| ==> at[j] < |items|
    decreases |items|
  {
    if items == [] then []
    else
      var init, last := items[..|items| - 1], items[|items| - 1];
      FieldItems(init, key) + if DeclaresFor(init, last, key) && UsageCount(init, last) != 0 then [|init|] else []
  }

  predicate Mentioned(items: seq<Item>, key: (nat, nat)) {
    exists k :: 0 <= k < |items| && DeclaresFor(items[..k], items[k], key)
  }

  /** What a field has from its item and from the items before it. */
  ghost predicate FieldMeans(before: seq<Item>, item: Item, key: (nat, nat), f: Field) {
    && f.flags == item.data && f.offset == SizeOf(before, key)
    && (forall tag :: 0 <= tag <= 9 ==> Setting(f.settings, tag) == InForce(before, tag, 0))
    && f.physical == Enclosing(before, 0, 0) && f.application == Enclosing(before, 1, 0)
    && f.logical == Enclosing(before, 2, 0)
    && |f.usage| == UsageCount(before, item)
    && forall k :: 0 <= k < |f.usage| ==> f.usage[k] == if k < |Collected(before)| then Collected(before)[k] else 0
  }

  /** The fields are those of the items, in order, as many as the driver has room for. */
  ghost predicate FieldsMean(items: seq<Item>, key: (nat, nat), fields: seq<Field>) {
    var at := FieldItems(items, key);
    && |fields| == Min(64, |at|)
    && forall j :: 0 <= j < |fields| ==> FieldMeans(items[..at[j]], items[at[j]], key, fields[j])
  }

  predicate DeclaresIn(st: State, item: Item, key: (nat, nat)) {
    item.kind == Main && (item.tag, key.0) in {(8, 0), (9, 1), (11, 2)} && st.global.reportId == key.1
  }

  function Usages(st: State, item: Item): nat {
    if IsVariable(item.data) then st.global.reportCount else |st.local.usages|
  }

  function Declared(st: State, item: Item, key: (nat, nat)): Field {
    Field(Innermost(st.open, PHYSICAL), Innermost(st.open, LOGICAL), Innermost(st.open, APPLICATION),
          UsageTable(st.local.usages, Usages(st, item)), item.data, Registered(st.reports, key).size, st.global)
  }

  lemma ReportStep(st: State, item: Item, key: (nat, nat))
    requires Interpret(st, item).Some?
    ensures var t := Interpret(st, item).value;
      var was, now := Registered(st.reports, key), Registered(t.reports, key);
      && (key in t.reports <==> key in st.reports || DeclaresIn(st, item, key))
      && now.size == was.size + (if DeclaresIn(st, item, key) then st.global.reportSize * st.global.reportCount else 0)
      && now.fields == was.fields +
           if DeclaresIn(st, item, key) && Usages(st, item) != 0 && |was.fields| != 64 then [Declared(st, item, key)]
           else []
  {
    hide LocalItem, GlobalItem, Innermost, UsageTable;
    if !(item.kind == Main && item.tag in {8, 9, 11}) {
      SameReports(st, item);
    }
  }

  lemma SameReports(st: State, item: Item)
    requires Interpret(st, item).Some? && !(item.kind == Main && item.tag in {8, 9, 11})
    ensures Interpret(st, item).value.reports == st.reports
  {
  }

  lemma DeclaredMeans(items: seq<Item>, item: Item, key: (nat, nat))
    requires RunItems(items).Some? && Registered(RunItems(items).value.reports, key).size == SizeOf(items, key)
    ensures var st := RunItems(items).value;
      && (DeclaresIn(st, item, key) <==> DeclaresFor(items, item, key))
      && Usages(st, item) == UsageCount(items, item)
      && FieldMeans(items, item, key, Declared(st, item, key))
      && st.global.reportSize == InForce(items, 7, 0) && st.global.reportCount == InForce(items, 9, 0)
  {
    hide RunItems, Innermost;
    var st := RunItems(items).value;
    forall tag | 0 <= tag <= 9
      ensures Setting(st.global, tag) == InForce(items, tag, 0)
    {
      SettingsInForce(items, tag, 0);
    }
    assert Setting(st.global, 7) == InForce(items, 7, 0) && Setting(st.global, 8) == InForce(items, 8, 0)
        && Setting(st.global, 9) == InForce(items, 9, 0);
    UsagesCollected(items);
    AllOpen(st);
    EnclosingIs(items, 0, 0);
    EnclosingIs(items, 1, 0);
    EnclosingIs(items, 2, 0);
  }

  lemma AllOpen(st: State)
    ensures StillOpen(st, 0) == st.open
  {
  }

  lemma FieldsGrow(init: seq<Item>, items: seq<Item>, key: (nat, nat), was: seq<Field>, now: seq<Field>, f: Field)
    requires items != [] && init == items[..|items| - 1] && FieldsMean(init, key, was)
    requires var last := items[|items| - 1];
      var adds := DeclaresFor(init, last, key) && UsageCount(init, last) != 0;
      (adds ==> FieldMeans(init, last, key, f)) && now == was + if adds && |was| != 64 then [f] else []
    ensures FieldsMean(items, key, now)
  {
    hide FieldMeans, DeclaresFor, UsageCount;
    var at, before := FieldItems(items, key), FieldItems(init, key);
    forall j | 0 <= j < |now|
      ensures FieldMeans(items[..at[j]], items[at[j]], key, now[j])
    {
      if j < |was| {
        assert at[j] == before[j] && init[..at[j]] == items[..at[j]] && init[at[j]] == items[at[j]];
      } else {
        assert at[j] == |init|;
      }
    }
  }

  /** Which reports there are, how long they are and what their fields are, from the items alone. */
  lemma {:induction false} ReportsAreDeclared(items: seq<Item>, key: (nat, nat))
    requires RunItems(items).Some?
    ensures var reports := RunItems(items).value.reports;
      && (key in reports <==> Mentioned(items, key))
      && Registered(reports, key).size == SizeOf(items, key)
      && FieldsMean(items, key, Registered(reports, key).fields)
    decreases |items|
  {
    hide Interpret, FieldsMean, FieldMeans, DeclaresFor, UsageCount, Usages, Mentioned, DeclaresIn, Declared;
    hide Registered;
    if items == [] {
      NothingDeclared(key);
    } else {
      var init, last := items[..|items| - 1], items[|items| - 1];
      ReportsAreDeclared(init, key);
      var st := RunItems(init).value;
      ReportStep(st, last, key);
      DeclaredMeans(init, last, key);
      MentionedStep(init, items, key);
      FieldsGrow(init, items, key, Registered(st.reports, key).fields,
                 Registered(RunItems(items).value.reports, key).fields, Declared(st, last, key));
    }
  }

  lemma MentionedStep(init: seq<Item>, items: seq<Item>, key: (nat, nat))
    requires items != [] && init == items[..|items| - 1]
    ensures Mentioned(items, key) <==> Mentioned(init, key) || DeclaresFor(init, items[|items| - 1], key)
  {
    hide DeclaresFor;
    if Mentioned(init, key) {
      var k :| 0 <= k < |init| && DeclaresFor(init[..k], init[k], key);
      assert items[..k] == init[..k] && items[k] == init[k];
    }
    if Mentioned(items, key) {
      var k :| 0 <= k < |items| && DeclaresFor(items[..k], items[k], key);
      if k < |init| {
        assert items[..k] == init[..k] && items[k] == init[k];
      }
    }
  }

  lemma NothingDeclared(key: (nat, nat))
    ensures RunItems([]) == Some(START) && Registered(START.reports, key) == ReportOf(0, [])
    ensures key !in START.reports && !Mentioned([], key) && SizeOf([], key) == 0 && FieldsMean([], key, [])
  {
  }

  // ----- refusal -----

  /** An item that is refused where it stands. */
  predicate Refused(before: seq<Item>, item: Item) {
    match item.kind
    case Main =>
      || (item.tag == 12 && Depth(before) <= 0)
      || (item.tag in {8, 9, 11} && item.data / 2 % 2 == 0 && InForce(before, 2, 0) <= InForce(before, 1, 0))
    case Global =>
      || (item.tag == 11 && PushDepth(before) <= 0)
      || (item.tag == 7 && item.data > 32) || (item.tag == 9 && item.data > 1024)
      || (item.tag == 8 && item.data == 0) || item.tag > 11
    case Local =>
      || item.size == 0 || item.tag == 10
      || (item.tag == 0 && |Collected(before)| >= 1024)
      || (item.tag == 2 &&
            var first, last := MinimumAfter(before), Full(before, item);
            last == 0xffff_ffff || (first <= last && |Collected(before)| + last - first + 1 > 1024))
    case Reserved => false
  }

  predicate RefusedIn(st: State, item: Item) {
    match item.kind
    case Main =>
      || (item.tag == 12 && st.open == [])
      || (item.tag in {8, 9, 11} && !IsVariable(item.data) && st.global.logicalMaximum <= st.global.logicalMinimum)
    case Global =>
      || (item.tag == 11 && st.saved == [])
      || (item.tag == 7 && item.data > 32) || (item.tag == 9 && item.data > 1024)
      || (item.tag == 8 && item.data == 0) || item.tag > 11
    case Local =>
      || item.size == 0 || item.tag == 10
      || (item.tag == 0 && |st.local.usages| >= 1024)
      || (item.tag == 2 &&
            var first, last := st.local.minimum, FullUsage(st, item);
            last == LAST_USAGE || (first <= last && |st.local.usages| + (last - first + 1) > 1024))
    case Reserved => false
  }

  lemma RefusalStep(st: State, item: Item)
    requires st.local.delimiterBranch == 0
    ensures Interpret(st, item).None? <==> RefusedIn(st, item)
  {
    hide FullUsage, Innermost, UsageTable, RangeAdded;
    if item.kind == Local && item.tag == 2 {
      RangeAddedIs(st, st.local.minimum, FullUsage(st, item));
    }
  }

  lemma RefusedIs(items: seq<Item>, item: Item)
    requires RunItems(items).Some?
    ensures RefusedIn(RunItems(items).value, item) <==> Refused(items, item)
  {
    hide RunItems, FullUsage, Full, Depth, PushDepth;
    var st := RunItems(items).value;
    SettingsInForce(items, 1, 0);
    SettingsInForce(items, 2, 0);
    UsagesCollected(items);
    FullIs(items, item);
    DepthIsBalance(items);
  }

  /** The items run through if and only if none is refused where it stands. */
  lemma {:induction false} RunsIffNoneRefused(items: seq<Item>)
    ensures RunItems(items).Some? <==> forall k :: 0 <= k < |items| ==> !Refused(items[..k], items[k])
    decreases |items|
  {
    hide Refused, Interpret, RefusedIn;
    if items != [] {
      var n := |items| - 1;
      var init := items[..n];
      RunsIffNoneRefused(init);
      assert forall k :: 0 <= k < n ==> init[..k] == items[..k] && init[k] == items[k];
      if RunItems(init).Some? {
        UsagesCollected(init);
        RefusalStep(RunItems(init).value, items[n]);
        RefusedIs(init, items[n]);
      } else {
        var k :| 0 <= k < n && Refused(init[..k], init[k]);
        assert Refused(items[..k], items[k]);
      }
    }
  }

  /** What the parser accepts, from the items alone: none is refused, nothing nests more than four
      deep, and every collection is closed. */
  lemma AcceptableFromItems(bytes: seq<Byte>)
    ensures var items := Items(bytes, 0).items;
      Acceptable(bytes) <==>
        && bytes != [] && Items(bytes, 0).whole
        && (forall k :: 0 <= k < |items| ==> !Refused(items[..k], items[k]))
        && (forall k :: 0 <= k <= |items| ==> Depth(items[..k]) <= 4 && PushDepth(items[..k]) <= 4)
        && Depth(items) == 0
  {
    hide Items, Refused, RunItems, Depth, PushDepth;
    var items := Items(bytes, 0).items;
    RunsIffNoneRefused(items);
    if RunItems(items).Some? {
      DepthIsBalance(items);
      UsagesCollected(items);
      forall k | 0 <= k <= |items|
        ensures RunItems(items[..k]).Some?
        ensures |RunItems(items[..k]).value.open| == Depth(items[..k])
        ensures |RunItems(items[..k]).value.saved| == PushDepth(items[..k])
      {
        PrefixRuns(items, k);
        DepthIsBalance(items[..k]);
      }
    }
  }

  /** And it stays within its table if every field is declared under a report id below 256. */
  lemma WithinTableFromItems(bytes: seq<Byte>)
    requires Acceptable(bytes)
    ensures var items := Items(bytes, 0).items;
      WithinTable(bytes) <==>
        forall k :: 0 <= k < |items| && items[k].kind == Main && items[k].tag in {8, 9, 11} ==>
          InForce(items[..k], 8, 0) < 256
  {
    hide Items, RunItems, InForce, Reached;
    var items := Items(bytes, 0).items;
    forall k | 0 <= k < |items|
      ensures Reached(items, k) && RunItems(items[..k]).Some?
      ensures RunItems(items[..k]).value.global.reportId == InForce(items[..k], 8, 0)
    {
      AllReached(items, k);
      SettingsInForce(items[..k], 8, 0);
      assert Setting(RunItems(items[..k]).value.global, 8) == InForce(items[..k], 8, 0);
    }
    if WithinTable(bytes) {
      forall k | 0 <= k < |items| && items[k].kind == Main && items[k].tag in {8, 9, 11}
        ensures InForce(items[..k], 8, 0) < 256
      {
        assert Reached(items, k) && !Strays(RunItems(items[..k]).value, items[k]);
      }
    }
  }

  lemma AllReached(items: seq<Item>, k: nat)
    requires RunItems(items).Some? && StaysShallow(items) && k <= |items|
    ensures Reached(items, k)
  {
    PrefixRuns(items, k);
    forall j | 0 <= j <= k && RunItems(items[..k][..j]).Some?
      ensures Shallow(RunItems(items[..k][..j]).value)
    {
      assert items[..k][..j] == items[..j];
    }
  }
}
