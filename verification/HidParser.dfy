/** The report-descriptor parser of the HID core: an item interpreter with a stack of saved
    global states and a stack of open collections, both four deep.

    The reference is an interpreter over the same items whose stacks are unbounded lists. */
module HidParsing {
  import opened Bits
  import opened Numbers
  import Report = HidReport

  datatype Option<+T> = None | Some(value: T)

  const STACK_SIZE := 4          // HID_GLOBAL_STACK_SIZE, HID_COLLECTION_STACK_SIZE
  const MAX_USAGES := 1024
  const MAX_FIELDS := 64
  const MAX_APPLICATIONS := 16
  const LAST_USAGE := 0xffff_ffff
  const TABLE_SIZE := 256        // report_id_hash

  const PHYSICAL := 0
  const APPLICATION := 1
  const LOGICAL := 2

  // ----- items -----

  datatype ItemType = Main | Global | Local | Reserved

  /** A short item; `data` is its operand as an unsigned number of `size` bytes. */
  datatype Item = Item(kind: ItemType, tag: nat, size: nat, data: nat) {
    /** item_sdata */
    function Signed(): int {
      if size == 1 && data >= 0x80 then data - 0x100
      else if size == 2 && data >= 0x8000 then data - 0x1_0000
      else if size == 4 && data >= 0x8000_0000 then data - 0x1_0000_0000
      else data
    }
  }

  datatype Fetched = Nothing | Long(next: nat) | Short(item: Item, next: nat)

  function KindOf(b: Byte): ItemType {
    match b / 4 % 4 case 0 => Main case 1 => Global case 2 => Local case _ => Reserved
  }

  function LittleEndian(bytes: seq<Byte>): (n: nat)
    decreases |bytes|
  {
    if bytes == [] then 0 else bytes[0] + 256 * LittleEndian(bytes[1..])
  }

  /** fetch_item.  A two-byte item cut short falls through into the four-byte case, and fails there. */
  function Fetch(bytes: seq<Byte>, start: nat): (r: Fetched)
    requires start <= |bytes|
    ensures !r.Nothing? ==> start < r.next <= |bytes|
    ensures r.Short? ==> r.item.size in {0, 1, 2, 4}
  {
    if start == |bytes| then Nothing
    else
      var b := bytes[start];
      if b / 16 == 15 then
        if |bytes| - (start + 1) >= 2 && |bytes| - (start + 3) >= bytes[start + 1] then
          Long(start + 3 + bytes[start + 1])
        else Nothing
      else
        var size := if b % 4 == 3 then 4 else b % 4;
        if |bytes| - (start + 1) >= size then
          Short(Item(KindOf(b), b / 16, size, LittleEndian(bytes[start + 1..start + 1 + size])), start + 1 + size)
        else Nothing
  }

  /** The short items a descriptor begins with, and whether they are the whole of it. */
  datatype Cut = Cut(items: seq<Item>, whole: bool)

  function Items(bytes: seq<Byte>, start: nat): Cut
    requires start <= |bytes|
    decreases |bytes| - start
  {
    if start == |bytes| then Cut([], true)
    else
      match Fetch(bytes, start)
      case Short(item, next) => var rest := Items(bytes, next); Cut([item] + rest.items, rest.whole)
      case _ => Cut([], false)
  }

  // ----- the environments -----

  datatype Environment = Environment(
    usagePage: nat, logicalMinimum: int, logicalMaximum: int, physicalMinimum: int, physicalMaximum: int,
    unitExponent: nat, unit: nat, reportId: nat, reportSize: nat, reportCount: nat)

  const NO_ENVIRONMENT := Environment(0, 0, 0, 0, 0, 0, 0, 0, 0, 0)

  datatype Collection = Collection(kind: nat, usage: nat)

  /** A registered field; `settings` is the global state it was declared under. */
  datatype Field = Field(
    physical: nat, logical: nat, application: nat, usage: seq<nat>, flags: nat, offset: nat, settings: Environment)

  datatype ReportOf = ReportOf(size: nat, fields: seq<Field>)

  /** A report is known by its type (input, output, feature) and its id. */
  type Reports = map<(nat, nat), ReportOf>

  /** The local state: the usages collected for the next Main item. */
  datatype Locals = Locals(usages: seq<nat>, minimum: U32, delimiterDepth: nat, delimiterBranch: nat)

  const NO_LOCALS := Locals([], 0, 0, 0)

  /** The parser with its stacks as lists, the top at the end. */
  datatype State = State(
    global: Environment, saved: seq<Environment>, local: Locals, open: seq<Collection>,
    applications: seq<nat>, reports: Reports)

  const START := State(NO_ENVIRONMENT, [], NO_LOCALS, [], [], map[])

  /** The usage of the innermost open collection of a kind, or 0. */
  function Innermost(open: seq<Collection>, kind: nat): nat {
    if open == [] then 0
    else if open[|open| - 1].kind == kind then open[|open| - 1].usage
    else Innermost(open[..|open| - 1], kind)
  }

  function UsageAt(usages: seq<nat>, i: nat): nat {
    if i < |usages| then usages[i] else 0
  }

  /** The first `n` collected usages; missing ones are zero. */
  function UsageTable(usages: seq<nat>, n: nat): (table: seq<nat>)
    ensures |table| == n
  {
    seq(n, (i: nat) => UsageAt(usages, i))
  }

  predicate IsVariable(flags: nat) { flags / 2 % 2 == 1 }

  // ----- the reference interpreter -----

  /** hid_register_report */
  function Registered(reports: Reports, key: (nat, nat)): ReportOf {
    if key in reports then reports[key] else ReportOf(0, [])
  }

  /** hid_add_field */
  function FieldAdded(st: State, kind: nat, flags: nat): Option<State> {
    if !IsVariable(flags) && st.global.logicalMaximum <= st.global.logicalMinimum then None
    else
      var key := (kind, st.global.reportId);
      var report := Registered(st.reports, key);
      var usages := if IsVariable(flags) then st.global.reportCount else |st.local.usages|;
      var size := report.size + st.global.reportSize * st.global.reportCount;
      if usages == 0 || |report.fields| == MAX_FIELDS then
        Some(st.(reports := st.reports[key := ReportOf(size, report.fields)]))
      else
        var field := Field(
          Innermost(st.open, PHYSICAL), Innermost(st.open, LOGICAL), Innermost(st.open, APPLICATION),
          UsageTable(st.local.usages, usages), flags, report.size, st.global);
        Some(st.(reports := st.reports[key := ReportOf(size, report.fields + [field])]))
  }

  function Opened(st: State, kind: nat): State {
    var usage := UsageAt(st.local.usages, 0);
    st.(open := st.open + [Collection(kind, usage)],
        applications := if kind == APPLICATION && |st.applications| < MAX_APPLICATIONS
                        then st.applications + [usage] else st.applications)
  }

  function MainItem(st: State, item: Item): Option<State> {
    var r :=
      match item.tag
      case 10 => Some(Opened(st, item.data % 4))
      case 12 => if st.open == [] then None else Some(st.(open := st.open[..|st.open| - 1]))
      case 8 => FieldAdded(st, 0, item.data)
      case 9 => FieldAdded(st, 1, item.data)
      case 11 => FieldAdded(st, 2, item.data)
      case _ => Some(st);
    if r.Some? then Some(r.value.(local := NO_LOCALS)) else None
  }

  function GlobalItem(st: State, item: Item): Option<State> {
    var g := st.global;
    match item.tag
    case 10 => Some(st.(saved := st.saved + [g]))
    case 11 =>
      if st.saved == [] then None
      else Some(st.(global := st.saved[|st.saved| - 1], saved := st.saved[..|st.saved| - 1]))
    case 0 => Some(st.(global := g.(usagePage := item.data)))
    case 1 => Some(st.(global := g.(logicalMinimum := item.Signed())))
    case 2 => Some(st.(global := g.(logicalMaximum := item.Signed())))
    case 3 => Some(st.(global := g.(physicalMinimum := item.Signed())))
    case 4 => Some(st.(global := g.(physicalMaximum := item.Signed())))
    case 5 => Some(st.(global := g.(unitExponent := item.data)))
    case 6 => Some(st.(global := g.(unit := item.data)))
    case 7 => if item.data > 32 then None else Some(st.(global := g.(reportSize := item.data)))
    case 9 => if item.data > MAX_USAGES then None else Some(st.(global := g.(reportCount := item.data)))
    case 8 => if item.data == 0 then None else Some(st.(global := g.(reportId := item.data)))
    case _ => None
  }

  /** A usage of one or two bytes is completed with the current usage page. */
  function FullUsage(st: State, item: Item): U32 {
    Wrap32(if item.size <= 2 then st.global.usagePage * 0x1_0000 + item.data else item.data)
  }

  /** The loop over a usage range, whose counter is an unsigned int: what it adds from `n` on.  Each
      turn takes a place in the table of usages, so it ends even where the counter wraps. */
  function RangeAdded(st: State, n: U32, last: U32): (r: Option<State>)
    ensures r.Some? ==> r.value == st.(local := st.local.(usages := r.value.local.usages))
    decreases MAX_USAGES - |st.local.usages|
  {
    if n > last then Some(st)
    else if |st.local.usages| >= MAX_USAGES then None
    else RangeAdded(st.(local := st.local.(usages := st.local.usages + [n])), Wrap32(n + 1), last)
  }

  function From(first: nat, n: nat): seq<nat> { seq(n, (i: nat) => first + i) }

  /** The usages from `first` to `last`, if there is room for them. */
  function UsagesAdded(st: State, first: nat, last: nat): Option<State> {
    if first > last then Some(st)
    else if |st.local.usages| + (last - first + 1) > MAX_USAGES then None
    else Some(st.(local := st.local.(usages := st.local.usages + From(first, last - first + 1))))
  }

  function LocalItem(st: State, item: Item): Option<State> {
    if item.size == 0 then None
    else
      match item.tag
      case 10 => None  // a delimiter is never accepted: its handler reports failure either way
      case 0 =>
        if st.local.delimiterBranch > 1 then Some(st)
        else UsagesAdded(st, FullUsage(st, item), FullUsage(st, item))
      case 1 =>
        if st.local.delimiterBranch > 1 then Some(st)
        else Some(st.(local := st.local.(minimum := FullUsage(st, item))))
      case 2 =>
        if st.local.delimiterBranch > 1 then Some(st) else RangeAdded(st, st.local.minimum, FullUsage(st, item))
      case _ => Some(st)
  }

  function Interpret(st: State, item: Item): Option<State> {
    match item.kind
    case Main => MainItem(st, item)
    case Global => GlobalItem(st, item)
    case Local => LocalItem(st, item)
    case Reserved => Some(st)
  }

  /** The reference run over a list of items. */
  function RunItems(items: seq<Item>): Option<State>
    decreases |items|
  {
    if items == [] then Some(START)
    else
      match RunItems(items[..|items| - 1])
      case None => None
      case Some(st) => Interpret(st, items[|items| - 1])
  }

  // ----- usage ranges that end with the last number -----

  /** A Usage Maximum that, completed with the usage page, is the last 32-bit number. */
  predicate EndsLast(st: State, item: Item) {
    && item.kind == Local && item.tag == 2 && item.size != 0 && st.local.delimiterBranch <= 1
    && FullUsage(st, item) == LAST_USAGE
  }

  lemma OneFurther(usages: seq<nat>, n: nat, k: nat)
    ensures usages + [n] + From(n + 1, k) == usages + From(n, k + 1)
  {
    assert [n] + From(n + 1, k) == From(n, k + 1);
    assert usages + [n] + From(n + 1, k) == usages + ([n] + From(n + 1, k));
  }

  /** At the last number the comparison always holds: the loop goes on from zero until the table of
      usages is full, and fails.  Anywhere else it adds the range, if there is room for it. */
  lemma {:induction false} RangeAddedIs(st: State, n: U32, last: U32)
    ensures RangeAdded(st, n, last) == if last == LAST_USAGE then None else UsagesAdded(st, n, last)
    decreases MAX_USAGES - |st.local.usages|
  {
    if n <= last && |st.local.usages| < MAX_USAGES {
      var more := st.(local := st.local.(usages := st.local.usages + [n]));
      RangeAddedIs(more, Wrap32(n + 1), last);
      if last < LAST_USAGE {
        assert Wrap32(n + 1) == n + 1;
        OneFurther(st.local.usages, n, last - n);
        assert n == last ==> From(n + 1, 0) == [] && more.local.usages + [] == more.local.usages;
      }
    }
  }

  /** The loop adds what it should if and only if the range ends below the last number, or would not
      fit anyway. */
  lemma RangeAddedIff(st: State, n: U32, last: U32)
    ensures RangeAdded(st, n, last) == UsagesAdded(st, n, last)
      <==> last < LAST_USAGE || UsagesAdded(st, n, last).None?
  {
    RangeAddedIs(st, n, last);
  }

  /** The interpreter with a counter of any width. */
  function IdealInterpret(st: State, item: Item): Option<State> {
    if EndsLast(st, item) then UsagesAdded(st, st.local.minimum, LAST_USAGE) else Interpret(st, item)
  }

  function IdealRun(items: seq<Item>): Option<State>
    decreases |items|
  {
    if items == [] then Some(START)
    else
      match IdealRun(items[..|items| - 1])
      case None => None
      case Some(st) => IdealInterpret(st, items[|items| - 1])
  }

  /** No usage range that the ideal interpreter comes to ends with the last number. */
  ghost predicate RangesEnd(items: seq<Item>) {
    forall k :: 0 <= k < |items| && IdealRun(items[..k]).Some? ==> !EndsLast(IdealRun(items[..k]).value, items[k])
  }

  lemma EndingLastFails(st: State, item: Item)
    requires EndsLast(st, item)
    ensures Interpret(st, item).None?
  {
    RangeAddedIs(st, st.local.minimum, LAST_USAGE);
  }

  /** The driver's interpreter runs through exactly what the ideal one runs through without such a
      range, and then to the same state. */
  lemma {:induction false} RunsIff(items: seq<Item>)
    ensures RunItems(items).Some? <==> IdealRun(items).Some? && RangesEnd(items)
    ensures RunItems(items).Some? ==> RunItems(items) == IdealRun(items)
    decreases |items|
  {
    hide Interpret, EndsLast;
    if items != [] {
      var n := |items| - 1;
      var init := items[..n];
      RunsIff(init);
      assert forall k :: 0 <= k <= n ==> init[..k] == items[..k];
      if IdealRun(init).Some? && EndsLast(IdealRun(init).value, items[n]) {
        EndingLastFails(IdealRun(init).value, items[n]);
      }
    }
  }

  predicate Shallow(st: State) {
    |st.saved| <= STACK_SIZE && |st.open| <= STACK_SIZE
  }

  /** Neither stack ever grows beyond what the driver has room for. */
  ghost predicate StaysShallow(items: seq<Item>) {
    forall k :: 0 <= k <= |items| && RunItems(items[..k]).Some? ==> Shallow(RunItems(items[..k]).value)
  }

  lemma RunSnoc(items: seq<Item>, item: Item)
    requires RunItems(items).Some?
    ensures RunItems(items + [item]) == Interpret(RunItems(items).value, item)
  {
    assert (items + [item])[..|items|] == items;
  }

  lemma {:induction false} FailureIsFinal(items: seq<Item>, k: nat)
    requires k <= |items| && RunItems(items[..k]).None?
    ensures RunItems(items).None?
    decreases |items|
  {
    if k == |items| {
      assert items[..k] == items;
    } else {
      assert items[..|items| - 1][..k] == items[..k];
      FailureIsFinal(items[..|items| - 1], k);
    }
  }

  lemma ShallowSnoc(items: seq<Item>, item: Item)
    requires StaysShallow(items)
    requires RunItems(items + [item]).Some? ==> Shallow(RunItems(items + [item]).value)
    ensures StaysShallow(items + [item])
  {
    forall k | 0 <= k <= |items| + 1 && RunItems((items + [item])[..k]).Some?
      ensures Shallow(RunItems((items + [item])[..k]).value)
    {
      if k <= |items| {
        assert (items + [item])[..k] == items[..k];
      } else {
        assert (items + [item])[..k] == items + [item];
      }
    }
  }

  // ----- the table of reports -----

  predicate Declares(item: Item) { item.kind == Main && item.tag in {8, 9, 11} }

  /** An Input, Output or Feature item makes hid_register_report index its table with the report
      id, which hid_parser_global has only compared with 0. */
  predicate Strays(st: State, item: Item) { Declares(item) && st.global.reportId >= TABLE_SIZE }

  /** The parser gets as far as the item at `k`. */
  ghost predicate Reached(items: seq<Item>, k: nat)
    requires k <= |items|
  {
    RunItems(items[..k]).Some? && StaysShallow(items[..k])
  }

  ghost predicate StaysInTable(items: seq<Item>) {
    forall k :: 0 <= k < |items| && Reached(items, k) ==> !Strays(RunItems(items[..k]).value, items[k])
  }

  /** Every Input, Output or Feature item is reached with a report id of at most 255. */
  ghost predicate WithinTable(bytes: seq<Byte>) { StaysInTable(Items(bytes, 0).items) }

  lemma StaysPrefix(items: seq<Item>, rest: seq<Item>)
    requires StaysInTable(items + rest)
    ensures StaysInTable(items)
  {
    forall k | 0 <= k < |items| && Reached(items, k)
      ensures !Strays(RunItems(items[..k]).value, items[k])
    {
      assert (items + rest)[..k] == items[..k];
      assert Reached(items + rest, k);
    }
  }

  lemma StaysSnoc(items: seq<Item>, item: Item)
    requires RunItems(items).Some? && StaysShallow(items) && StaysInTable(items)
    ensures StaysInTable(items + [item]) <==> !Strays(RunItems(items).value, item)
  {
    var all := items + [item];
    assert all[..|items|] == items && Reached(all, |items|);
    forall k | 0 <= k < |items| && Reached(all, k)
      ensures !Strays(RunItems(all[..k]).value, all[k])
    {
      assert all[..k] == items[..k];
      assert Reached(items, k);
    }
  }

  /** A descriptor that runs through stays in the table exactly if no report it registers has an
      id past the end of it. */
  lemma {:induction false} KeysInTable(items: seq<Item>)
    requires RunItems(items).Some? && StaysShallow(items)
    ensures StaysInTable(items) <==> forall key :: key in RunItems(items).value.reports ==> key.1 < TABLE_SIZE
    decreases |items|
  {
    if items != [] {
      var n := |items| - 1;
      var before, item := items[..n], items[n];
      assert items == before + [item];
      forall k | 0 <= k <= n && RunItems(before[..k]).Some?
        ensures Shallow(RunItems(before[..k]).value)
      {
        assert before[..k] == items[..k];
      }
      KeysInTable(before);
      if StaysInTable(before) {
        StaysSnoc(before, item);
        NewKey(RunItems(before).value, item);
      } else if StaysInTable(items) {
        StaysPrefix(before, [item]);
      } else {
        NewKey(RunItems(before).value, item);
      }
    }
  }

  lemma NewKey(st: State, item: Item)
    requires Interpret(st, item).Some?
    ensures forall key :: key in Interpret(st, item).value.reports <==>
      key in st.reports || (Declares(item) && key == (DeclaredType(item.tag), st.global.reportId))
  {
  }

  function DeclaredType(tag: nat): nat { match tag case 8 => 0 case 9 => 1 case _ => 2 }

  // ----- the parser itself -----

  class HidParser {
    var global: Environment
    const globalStack: array<Environment>
    var globalStackPtr: nat
    const usage: array<nat>
    var usageIndex: nat
    var usageMinimum: U32
    var delimiterDepth: nat
    var delimiterBranch: nat
    const collectionStack: array<Collection>
    var collectionStackPtr: nat
    var applications: seq<nat>
    var reports: Reports
    var outside: bool              // an index past the end of report_id_hash, where the model stops

    ghost predicate Valid()
      reads this, usage, globalStack
    {
      && globalStack.Length == STACK_SIZE && globalStackPtr <= STACK_SIZE
      && collectionStack.Length == STACK_SIZE && collectionStackPtr <= STACK_SIZE
      && usage.Length == MAX_USAGES && usageIndex <= MAX_USAGES
      && (forall i :: usageIndex <= i < MAX_USAGES ==> usage[i] == 0)
      && global.reportCount <= MAX_USAGES
      && (forall i :: 0 <= i < globalStackPtr ==> globalStack[i].reportCount <= MAX_USAGES)
    }

    ghost function View(): State
      requires Valid()
      reads this, globalStack, usage, collectionStack
    {
      State(global, globalStack[..globalStackPtr],
            Locals(usage[..usageIndex], usageMinimum, delimiterDepth, delimiterBranch),
            collectionStack[..collectionStackPtr], applications, reports)
    }

    constructor ()
      ensures Valid() && View() == START && !outside
      ensures fresh(globalStack) && fresh(usage) && fresh(collectionStack)
    {
      global := NO_ENVIRONMENT;
      globalStack := new Environment[STACK_SIZE](_ => NO_ENVIRONMENT);
      usage := new nat[MAX_USAGES](_ => 0);
      collectionStack := new Collection[STACK_SIZE](_ => Collection(0, 0));
      globalStackPtr, collectionStackPtr := 0, 0;
      usageIndex, usageMinimum, delimiterDepth, delimiterBranch := 0, 0, 0, 0;
      applications, reports, outside := [], map[], false;
    }

    /** open_collection */
    method OpenCollection(kind: nat) returns (ok: bool)
      requires Valid()
      modifies this, collectionStack
      ensures Valid() && outside == old(outside)
      ensures ok == Shallow(Opened(old(View()), kind))
      ensures ok ==> View() == Opened(old(View()), kind)
    {
      var first := usage[0];
      if kind == APPLICATION && |applications| < MAX_APPLICATIONS {
        applications := applications + [first];
      }
      if collectionStackPtr == STACK_SIZE {
        return false;
      }
      collectionStack[collectionStackPtr] := Collection(kind, first);
      collectionStackPtr := collectionStackPtr + 1;
      return true;
    }
  
    /** close_collection */
    method CloseCollection() returns (ok: bool)
      requires Valid()
      modifies this
      ensures Valid() && outside == old(outside) && ok == (old(View()).open != [])
      ensures ok ==> var st := old(View()); View() == st.(open := st.open[..|st.open| - 1])
    {
      if collectionStackPtr == 0 {
        return false;
      }
      collectionStackPtr := collectionStackPtr - 1;
      return true;
    }

    /** hid_lookup_collection: climb down from the top of the stack. */
    method LookupCollection(kind: nat) returns (found: nat)
      requires Valid()
      ensures found == Innermost(View().open, kind)
    {
      var n := collectionStackPtr;
      assert collectionStack[..n] == View().open;
      while n > 0
        invariant n <= collectionStackPtr
        invariant Innermost(View().open, kind) == Innermost(collectionStack[..n], kind)
      {
        n := n - 1;
        assert collectionStack[..n + 1][..n] == collectionStack[..n];
        if collectionStack[n].kind == kind {
          return collectionStack[n].usage;
        }
      }
      return 0;
    }

    /** hid_add_usage */
    method AddUsage(u: nat) returns (ok: bool)
      requires Valid()
      modifies this, usage
      ensures Valid() && outside == old(outside) && ok == (old(usageIndex) < MAX_USAGES)
      ensures ok ==> var st := old(View()); View() == st.(local := st.local.(usages := st.local.usages + [u]))
      ensures !ok ==> View() == old(View())
    {
      if usageIndex >= MAX_USAGES {
        return false;
      }
      usage[usageIndex] := u;
      usageIndex := usageIndex + 1;
      return true;
    }

    /** The loop over a usage range. */
    method AddUsageRange(first: U32, last: U32) returns (ok: bool)
      requires Valid()
      modifies this, usage
      ensures Valid() && outside == old(outside) && ok == RangeAdded(old(View()), first, last).Some?
      ensures ok ==> View() == RangeAdded(old(View()), first, last).value
    {
      var n: U32 := first;
      while n <= last
        invariant Valid() && outside == old(outside)
        invariant RangeAdded(View(), n, last) == RangeAdded(old(View()), first, last)
        decreases MAX_USAGES - usageIndex
      {
        ok := AddUsage(n);
        if !ok {
          return false;
        }
        n := Wrap32(n + 1);
      }
      return true;
    }

    /** The usage table of a new field. */
    method CopyUsages(n: nat) returns (table: seq<nat>)
      requires Valid() && n <= MAX_USAGES
      ensures table == UsageTable(View().local.usages, n)
    {
      table := [];
      for i := 0 to n
        invariant table == usage[..i]
      {
        table := table + [usage[i]];
      }
      assert forall i :: 0 <= i < n ==> table[i] == UsageAt(usage[..usageIndex], i);
    }

    /** hid_add_field; hid_register_report comes first. */
    method AddField(kind: nat, flags: nat) returns (ok: bool)
      requires Valid() && !outside
      modifies this
      ensures Valid() && outside == (old(global).reportId >= TABLE_SIZE)
      ensures ok == (!outside && FieldAdded(old(View()), kind, flags).Some?)
      ensures ok ==> View() == FieldAdded(old(View()), kind, flags).value
    {
      hide Innermost, UsageTable;
      if global.reportId >= TABLE_SIZE {
        outside := true;
        return false;
      }
      var key := (kind, global.reportId);
      var report := Registered(reports, key);
      var usages;
      if !IsVariable(flags) {
        if global.logicalMaximum <= global.logicalMinimum {
          return false;
        }
        usages := usageIndex;
      } else {
        usages := global.reportCount;
      }
      var size := report.size + global.reportSize * global.reportCount;
      if usages == 0 || |report.fields| == MAX_FIELDS {
        SetReport(key, ReportOf(size, report.fields));
        return true;
      }
      var field := NewField(usages, flags, report.size);
      SetReport(key, ReportOf(size, report.fields + [field]));
      return true;
    }

    method NewField(usages: nat, flags: nat, offset: nat) returns (field: Field)
      requires Valid() && usages <= MAX_USAGES
      ensures var st := View(); field == Field(
        Innermost(st.open, PHYSICAL), Innermost(st.open, LOGICAL), Innermost(st.open, APPLICATION),
        UsageTable(st.local.usages, usages), flags, offset, st.global)
    {
      var physical := LookupCollection(PHYSICAL);
      var logical := LookupCollection(LOGICAL);
      var application := LookupCollection(APPLICATION);
      var table := CopyUsages(usages);
      field := Field(physical, logical, application, table, flags, offset, global);
    }

    method SetReport(key: (nat, nat), report: ReportOf)
      requires Valid()
      modifies this`reports
      ensures Valid() && View() == old(View()).(reports := old(reports)[key := report])
    {
      reports := reports[key := report];
    }

    method ResetLocal()
      requires Valid()
      modifies this, usage
      ensures Valid() && outside == old(outside) && View() == old(View()).(local := NO_LOCALS)
    {
      forall i | 0 <= i < usage.Length {
        usage[i] := 0;
      }
      usageIndex, usageMinimum, delimiterDepth, delimiterBranch := 0, 0, 0, 0;
    }

    /** hid_parser_main */
    method ParserMain(item: Item) returns (ok: bool)
      requires Valid() && !outside && item.kind == Main
      modifies this, usage, collectionStack
      ensures Valid() && outside == Strays(old(View()), item)
      ensures ok == (!outside && MainItem(old(View()), item).Some? && Shallow(MainItem(old(View()), item).value))
      ensures ok ==> View() == MainItem(old(View()), item).value
    {
      match item.tag {
        case 10 => ok := OpenCollection(item.data % 4);
        case 12 => ok := CloseCollection();
        case 8 => ok := AddField(0, item.data);
        case 9 => ok := AddField(1, item.data);
        case 11 => ok := AddField(2, item.data);
        case _ => ok := true;
      }
      ResetLocal();
    }

    method PushGlobal() returns (ok: bool)
      requires Valid()
      modifies this, globalStack
      ensures Valid() && outside == old(outside) && ok == (|old(View()).saved| < STACK_SIZE)
      ensures ok ==> var st := old(View()); View() == st.(saved := st.saved + [st.global])
    {
      if globalStackPtr == STACK_SIZE {
        return false;
      }
      globalStack[globalStackPtr] := global;
      globalStackPtr := globalStackPtr + 1;
      return true;
    }

    method PopGlobal() returns (ok: bool)
      requires Valid()
      modifies this
      ensures Valid() && outside == old(outside) && ok == (old(View()).saved != [])
      ensures ok ==>
        var st := old(View()); var n := |st.saved| - 1; View() == st.(global := st.saved[n], saved := st.saved[..n])
    {
      if globalStackPtr == 0 {
        return false;
      }
      globalStackPtr := globalStackPtr - 1;
      global := globalStack[globalStackPtr];
      return true;
    }

    /** hid_parser_global */
    method ParserGlobal(item: Item) returns (ok: bool)
      requires Valid()
      modifies this, globalStack
      ensures (ok ==> Valid()) && outside == old(outside)
      ensures ok == (GlobalItem(old(View()), item).Some? && Shallow(GlobalItem(old(View()), item).value))
      ensures ok ==> View() == GlobalItem(old(View()), item).value
    {
      match item.tag {
        case 10 =>
          ok := PushGlobal();
          return ok;
        case 11 =>
          ok := PopGlobal();
          return ok;
        case 0 => global := global.(usagePage := item.data);
        case 1 => global := global.(logicalMinimum := item.Signed());
        case 2 => global := global.(logicalMaximum := item.Signed());
        case 3 => global := global.(physicalMinimum := item.Signed());
        case 4 => global := global.(physicalMaximum := item.Signed());
        case 5 => global := global.(unitExponent := item.data);
        case 6 => global := global.(unit := item.data);
        case 7 =>
          global := global.(reportSize := item.data);
          if global.reportSize > 32 {
            return false;
          }
        case 9 =>
          global := global.(reportCount := item.data);
          if global.reportCount > MAX_USAGES {
            return false;
          }
        case 8 =>
          global := global.(reportId := item.data);
          if global.reportId == 0 {
            return false;
          }
        case _ => return false;
      }
      return true;
    }

    /** hid_parser_local */
    method ParserLocal(item: Item) returns (ok: bool)
      requires Valid()
      modifies this, usage
      ensures Valid() && outside == old(outside)
      ensures ok == LocalItem(old(View()), item).Some?
      ensures ok ==> View() == LocalItem(old(View()), item).value
    {
      if item.size == 0 {
        return false;
      }
      var data: U32 := Wrap32(if item.size <= 2 then global.usagePage * 0x1_0000 + item.data else item.data);
      match item.tag {
        case 10 =>
          if item.data != 0 {
            if delimiterDepth == 0 {
              delimiterDepth := delimiterDepth + 1;
              delimiterBranch := delimiterBranch + 1;
            }
          } else if delimiterDepth >= 1 {
            delimiterDepth := delimiterDepth - 1;
          }
          return false;
        case 0 =>
          if delimiterBranch > 1 {
            return true;
          }
          ok := AddUsage(data);
          assert ok ==> View().local.usages == old(View()).local.usages + From(data, 1);
          return ok;
        case 1 =>
          if delimiterBranch > 1 {
            return true;
          }
          usageMinimum := data;
          return true;
        case 2 =>
          if delimiterBranch > 1 {
            return true;
          }
          ok := AddUsageRange(usageMinimum, data);
          return ok;
        case _ => return true;
      }
    }

    /** The dispatch on the item type in hid_parse_report. */
    method Dispatch(item: Item) returns (ok: bool)
      requires Valid() && !outside
      modifies this, usage, globalStack, collectionStack
      ensures (ok ==> Valid()) && outside == Strays(old(View()), item)
      ensures ok == (!outside && Interpret(old(View()), item).Some? && Shallow(Interpret(old(View()), item).value))
      ensures ok ==> View() == Interpret(old(View()), item).value
    {
      match item.kind {
        case Main => ok := ParserMain(item);
        case Global => ok := ParserGlobal(item);
        case Local => ok := ParserLocal(item);
        case Reserved => ok := true;
      }
    }
  }

  /** What hid_parse_report accepts: a nonempty list of short items that the reference
      interpreter runs through without ever needing deep stacks, leaving no collection open. */
  ghost predicate Acceptable(bytes: seq<Byte>) {
    && bytes != []
    && Items(bytes, 0).whole
    && var items := Items(bytes, 0).items;
    && StaysShallow(items)
    && RunItems(items).Some?
    && RunItems(items).value.open == []
    && RunItems(items).value.local.delimiterDepth == 0
  }

  /** The same for the ideal interpreter. */
  ghost predicate Proper(bytes: seq<Byte>) {
    && bytes != []
    && Items(bytes, 0).whole
    && var items := Items(bytes, 0).items;
    && (forall k :: 0 <= k <= |items| && IdealRun(items[..k]).Some? ==> Shallow(IdealRun(items[..k]).value))
    && IdealRun(items).Some?
    && IdealRun(items).value.open == []
    && IdealRun(items).value.local.delimiterDepth == 0
  }

  lemma AcceptableIff(bytes: seq<Byte>)
    ensures Acceptable(bytes) <==> Proper(bytes) && RangesEnd(Items(bytes, 0).items)
  {
    hide IdealRun, RunItems;
    var items := Items(bytes, 0).items;
    RunsIff(items);
    if RunItems(items).Some? {
      forall k | 0 <= k <= |items|
        ensures RunItems(items[..k]) == IdealRun(items[..k])
      {
        PrefixRuns(items, k);
        RunsIff(items[..k]);
      }
    }
  }

  function Followed(done: seq<Item>, rest: Cut): Cut { Cut(done + rest.items, rest.whole) }

  lemma FollowedNothing(rest: Cut)
    ensures Followed([], rest) == rest
  {
    assert [] + rest.items == rest.items;
  }

  lemma FollowedItem(bytes: seq<Byte>, start: nat, done: seq<Item>)
    requires start < |bytes| && Fetch(bytes, start).Short?
    ensures var f := Fetch(bytes, start);
      Followed(done, Items(bytes, start)) == Followed(done + [f.item], Items(bytes, f.next))
  {
    var f := Fetch(bytes, start);
    var rest := Items(bytes, f.next).items;
    assert done + ([f.item] + rest) == done + [f.item] + rest;
  }

  /** After an item the interpreter fails at, no other item is reached. */
  lemma RejectedItem(done: seq<Item>, item: Item, rest: seq<Item>)
    requires RunItems(done).Some? && StaysInTable(done + [item])
    requires var r := Interpret(RunItems(done).value, item); r.None? || !Shallow(r.value)
    ensures var items := done + [item] + rest;
      !(RunItems(items).Some? && StaysShallow(items)) && StaysInTable(items)
  {
    RunSnoc(done, item);
    var reached, items := done + [item], done + [item] + rest;
    NotBeyond(reached, items, |items|);
    assert items[..|items|] == items;
    forall k | 0 <= k < |items| && Reached(items, k)
      ensures !Strays(RunItems(items[..k]).value, items[k])
    {
      if k <= |done| {
        assert items[..k] == reached[..k];
        assert Reached(reached, k);
      } else {
        NotBeyond(reached, items, k);
      }
    }
  }

  lemma NotBeyond(failed: seq<Item>, items: seq<Item>, k: nat)
    requires failed <= items && |failed| <= k <= |items|
    requires RunItems(failed).None? || !Shallow(RunItems(failed).value)
    ensures !Reached(items, k)
  {
    assert items[..k][..|failed|] == failed;
    if RunItems(failed).None? {
      FailureIsFinal(items[..k], |failed|);
    }
  }

  /** How a call of hid_parse_report ends; in the last case by an access outside its table. */
  datatype Outcome = Parsed(applications: seq<nat>, reports: Reports) | Refused | LeftTable

  /** The loop of hid_parse_report. */
  method ParseItems(bytes: seq<Byte>) returns (outcome: Outcome)
    ensures outcome.LeftTable? <==> !WithinTable(bytes)
    ensures outcome.Parsed? <==> WithinTable(bytes) && Acceptable(bytes)
    ensures outcome.Parsed? ==>
      var st := RunItems(Items(bytes, 0).items).value; outcome == Parsed(st.applications, st.reports)
  {
    hide Strays, Interpret, Fetch;
    var parser := new HidParser();
    var start := 0;
    ghost var done: seq<Item> := [];
    FollowedNothing(Items(bytes, 0));
    while true
      invariant start <= |bytes| && (start == |bytes| ==> bytes == [])
      invariant fresh(parser) && fresh(parser.usage) && fresh(parser.globalStack) && fresh(parser.collectionStack)
      invariant parser.Valid() && !parser.outside
      invariant RunItems(done) == Some(parser.View()) && StaysShallow(done) && StaysInTable(done)
      invariant Items(bytes, 0) == Followed(done, Items(bytes, start))
      decreases |bytes| - start
    {
      match Fetch(bytes, start) {
        case Nothing =>
          assert done + [] == done;
          return Refused;
        case Long(_) =>
          assert done + [] == done;
          return Refused;
        case Short(item, next) =>
          FollowedItem(bytes, start, done);
          StaysSnoc(done, item);
          var ok := parser.Dispatch(item);
          if parser.outside {
            if WithinTable(bytes) {
              StaysPrefix(done + [item], Items(bytes, next).items);
            }
            return LeftTable;
          }
          if !ok {
            RejectedItem(done, item, Items(bytes, next).items);
            return Refused;
          }
          RunSnoc(done, item);
          ShallowSnoc(done, item);
          done := done + [item];
          start := next;
          if start == |bytes| {
            assert done + [] == done;
            if parser.collectionStackPtr != 0 || parser.delimiterDepth != 0 {
              return Refused;
            }
            return Parsed(parser.applications, parser.reports);
          }
      }
    }
  }

  /** hid_parse_report: it ends on every byte string.  It stays within its table exactly if every
      item that declares a field is reached with a report id of at most 255; then it accepts
      exactly the proper strings in which no usage range ends with the last 32-bit number, and has
      registered what the ideal interpreter has. */
  method ParseReport(bytes: seq<Byte>) returns (outcome: Outcome)
    ensures outcome.LeftTable? <==> !WithinTable(bytes)
    ensures outcome.Parsed? <==> WithinTable(bytes) && Proper(bytes) && RangesEnd(Items(bytes, 0).items)
    ensures outcome.Parsed? ==> Acceptable(bytes) && IdealRun(Items(bytes, 0).items) == RunItems(Items(bytes, 0).items)
    ensures outcome.Parsed? ==>
      var st := IdealRun(Items(bytes, 0).items).value; outcome == Parsed(st.applications, st.reports)
  {
    hide WithinTable, RangesEnd;
    outcome := ParseItems(bytes);
    AcceptableIff(bytes);
    RunsIff(Items(bytes, 0).items);
  }

  // ----- a descriptor that leaves the table -----

  const REPORT_ID_256: seq<Byte> := [0x86, 0x00, 0x01, 0x75, 0x08, 0x95, 0x01, 0x81, 0x02]

  lemma ReportId256Items()
    ensures Items(REPORT_ID_256, 0)
         == Cut([Item(Global, 8, 2, 256), Item(Global, 7, 1, 8), Item(Global, 9, 1, 1), Item(Main, 8, 1, 2)], true)
  {
    var bytes := REPORT_ID_256;
    assert LittleEndian(bytes[1..3]) == 256 by {
      assert bytes[1..3][1..] == [0x01];
      assert LittleEndian(bytes[1..3][1..]) == 1;
    }
    assert Fetch(bytes, 0) == Short(Item(KindOf(0x86), 8, 2, LittleEndian(bytes[0 + 1..0 + 1 + 2])), 0 + 1 + 2);
    OneByteItem(bytes, 3);
    OneByteItem(bytes, 5);
    OneByteItem(bytes, 7);
    var last: seq<Item> := [Item(Main, 8, 1, 2)];
    assert Items(bytes, 7) == Cut(last, true);
    assert Items(bytes, 5) == Cut([Item(Global, 9, 1, 1)] + last, true);
    assert Items(bytes, 3) == Cut([Item(Global, 7, 1, 8)] + ([Item(Global, 9, 1, 1)] + last), true);
  }

  lemma OneByteItem(bytes: seq<Byte>, start: nat)
    requires start + 2 <= |bytes| && bytes[start] / 16 != 15 && bytes[start] % 4 == 1
    ensures Fetch(bytes, start)
         == Short(Item(KindOf(bytes[start]), bytes[start] / 16, 1, bytes[start + 1]), start + 2)
  {
    var operand := bytes[start + 1..start + 1 + 1];
    assert operand == [bytes[start + 1]];
    assert LittleEndian(operand) == bytes[start + 1];
  }

  lemma RunOne(items: seq<Item>, st: State, item: Item)
    requires RunItems(items) == Some(st) && StaysShallow(items) && Interpret(st, item).Some?
    requires Shallow(Interpret(st, item).value)
    ensures RunItems(items + [item]) == Interpret(st, item) && StaysShallow(items + [item])
  {
    RunSnoc(items, item);
    ShallowSnoc(items, item);
  }

  /** Report Id 256, Report Size 8, Report Count 1, Input (variable): the descriptor would be
      accepted, but the driver registers its report past the end of the table. */
  lemma ReportId256()
    ensures Acceptable(REPORT_ID_256) && !WithinTable(REPORT_ID_256)
    ensures (0, 256) in RunItems(Items(REPORT_ID_256, 0).items).value.reports
  {
    hide RunItems, StaysShallow, StaysInTable, Items;
    ReportId256Items();
    var i0, i1, i2, i3 := Item(Global, 8, 2, 256), Item(Global, 7, 1, 8), Item(Global, 9, 1, 1), Item(Main, 8, 1, 2);
    var g := NO_ENVIRONMENT.(reportId := 256);
    NothingRun();
    RunOne([], START, i0);
    assert [] + [i0] == [i0] && [i0] + [i1] == [i0, i1] && [i0, i1] + [i2] == [i0, i1, i2];
    RunOne([i0], START.(global := g), i1);
    RunOne([i0, i1], START.(global := g.(reportSize := 8)), i2);
    var st := START.(global := g.(reportSize := 8, reportCount := 1));
    RunOne([i0, i1, i2], st, i3);
    var items := [i0, i1, i2] + [i3];
    assert items == Items(REPORT_ID_256, 0).items;
    KeysInTable(items);
  }

  lemma NothingRun()
    ensures RunItems([]) == Some(START) && StaysShallow([])
  {
  }

  // ----- a descriptor whose usage range ends with the last number -----

  const FULL_RANGE: seq<Byte> := [0x1b, 0xff, 0xff, 0xff, 0xff, 0x2b, 0xff, 0xff, 0xff, 0xff]

  lemma LargestItem(bytes: seq<Byte>, start: nat)
    requires start + 5 <= |bytes| && bytes[start] / 16 != 15 && bytes[start] % 4 == 3
    requires bytes[start + 1..start + 5] == [0xff, 0xff, 0xff, 0xff]
    ensures Fetch(bytes, start)
         == Short(Item(KindOf(bytes[start]), bytes[start] / 16, 4, LAST_USAGE), start + 5)
  {
    var four: seq<Byte> := [0xff, 0xff, 0xff, 0xff];
    assert four[1..] == [0xff, 0xff, 0xff] && four[1..][1..] == [0xff, 0xff] && four[1..][1..][1..] == [0xff];
    assert LittleEndian(four[1..][1..][1..]) == 0xff;
    assert LittleEndian(four[1..][1..]) == 0xffff;
    assert LittleEndian(four[1..]) == 0xff_ffff;
    assert bytes[start + 1..start + 1 + 4] == four;
  }

  lemma FullRangeItems()
    ensures Items(FULL_RANGE, 0) == Cut([Item(Local, 1, 4, LAST_USAGE), Item(Local, 2, 4, LAST_USAGE)], true)
  {
    LargestItem(FULL_RANGE, 0);
    LargestItem(FULL_RANGE, 5);
    assert Items(FULL_RANGE, 5) == Cut([Item(Local, 2, 4, LAST_USAGE)], true);
  }

  lemma IdealSnoc(items: seq<Item>, item: Item)
    requires IdealRun(items).Some?
    ensures IdealRun(items + [item]) == IdealInterpret(IdealRun(items).value, item)
  {
    assert (items + [item])[..|items|] == items;
  }

  /** Usage Minimum and Usage Maximum with all bits set, a range of one usage: a proper descriptor,
      which the driver refuses. */
  lemma FullRange()
    ensures Proper(FULL_RANGE) && WithinTable(FULL_RANGE) && !Acceptable(FULL_RANGE)
    ensures IdealRun(Items(FULL_RANGE, 0).items).value.local.usages == [LAST_USAGE]
  {
    hide IdealRun, RunItems, Items, RangesEnd;
    FullRangeItems();
    AcceptableIff(FULL_RANGE);
    var low, high := Item(Local, 1, 4, LAST_USAGE), Item(Local, 2, 4, LAST_USAGE);
    var begun := START.(local := NO_LOCALS.(minimum := LAST_USAGE));
    NothingRunIdeally();
    IdealSnoc([], low);
    assert [] + [low] == [low] && [low] + [high] == [low, high];
    assert IdealInterpret(START, low) == Some(begun);
    IdealSnoc([low], high);
    assert IdealInterpret(begun, high) == Some(begun.(local := begun.local.(usages := [LAST_USAGE]))) by {
      assert [] + From(LAST_USAGE, 1) == [LAST_USAGE];
    }
    var items := [low, high];
    forall k | 0 <= k <= |items|
      ensures IdealRun(items[..k]).Some? && Shallow(IdealRun(items[..k]).value)
    {
      assert items[..0] == [] && items[..1] == [low] && items[..2] == items;
    }
    assert !RangesEnd(items) by {
      RangeAtEnd(items, 1);
    }
  }

  lemma RangeAtEnd(items: seq<Item>, k: nat)
    requires k < |items| && IdealRun(items[..k]).Some? && EndsLast(IdealRun(items[..k]).value, items[k])
    ensures !RangesEnd(items)
  {
  }

  lemma NothingRunIdeally()
    ensures IdealRun([]) == Some(START)
  {
  }

  // ----- what acceptance means -----

  predicate Begins(i: Item) { i.kind == Main && i.tag == 10 }
  predicate Ends(i: Item) { i.kind == Main && i.tag == 12 }
  predicate Pushes(i: Item) { i.kind == Global && i.tag == 10 }
  predicate Pops(i: Item) { i.kind == Global && i.tag == 11 }
  predicate Delimits(i: Item) { i.kind == Local && i.tag == 10 }

  /** Begin Collection items less End Collection items. */
  function Depth(items: seq<Item>): int
    decreases |items|
  {
    if items == [] then 0
    else
      var last := items[|items| - 1];
      Depth(items[..|items| - 1]) + (if Begins(last) then 1 else 0) - (if Ends(last) then 1 else 0)
  }

  /** Push items less Pop items. */
  function PushDepth(items: seq<Item>): int
    decreases |items|
  {
    if items == [] then 0
    else
      var last := items[|items| - 1];
      PushDepth(items[..|items| - 1]) + (if Pushes(last) then 1 else 0) - (if Pops(last) then 1 else 0)
  }

  lemma InterpretMovesStacks(st: State, item: Item)
    requires Interpret(st, item).Some?
    ensures !Delimits(item)
    ensures var r := Interpret(st, item).value;
      && |r.open| == |st.open| + (if Begins(item) then 1 else 0) - (if Ends(item) then 1 else 0)
      && |r.saved| == |st.saved| + (if Pushes(item) then 1 else 0) - (if Pops(item) then 1 else 0)
  {
  }

  /** The stacks of the reference interpreter are exactly as deep as the items say. */
  lemma {:induction false} DepthIsBalance(items: seq<Item>)
    requires RunItems(items).Some?
    ensures |RunItems(items).value.open| == Depth(items)
    ensures |RunItems(items).value.saved| == PushDepth(items)
    ensures forall i :: i in items ==> !Delimits(i)
    decreases |items|
  {
    if items != [] {
      var k := |items| - 1;
      DepthIsBalance(items[..k]);
      InterpretMovesStacks(RunItems(items[..k]).value, items[k]);
      assert items == items[..k] + [items[k]];
    }
  }

  /** In an accepted descriptor collections and saved states nest, at most four deep, every
      collection is closed again, and there is no delimiter. */
  lemma AcceptedIsBalanced(bytes: seq<Byte>)
    requires Acceptable(bytes)
    ensures var items := Items(bytes, 0).items;
      && (forall k :: 0 <= k <= |items| ==> 0 <= Depth(items[..k]) <= 4 && 0 <= PushDepth(items[..k]) <= 4)
      && Depth(items) == 0
      && (forall i :: i in items ==> !Delimits(i))
  {
    var items := Items(bytes, 0).items;
    DepthIsBalance(items);
    forall k | 0 <= k <= |items|
      ensures 0 <= Depth(items[..k]) <= 4 && 0 <= PushDepth(items[..k]) <= 4
    {
      if RunItems(items[..k]).None? {
        FailureIsFinal(items, k);
      }
      DepthIsBalance(items[..k]);
    }
  }

  lemma PrefixRuns(items: seq<Item>, k: nat)
    requires RunItems(items).Some? && k <= |items|
    ensures RunItems(items[..k]).Some?
  {
    if RunItems(items[..k]).None? {
      FailureIsFinal(items, k);
    }
  }

  /** The item at `b` began the collection that is `d` deep at the end, and it has not been closed. */
  ghost predicate BeganAt(items: seq<Item>, d: nat, b: nat) {
    && b < |items| && Begins(items[b]) && Depth(items[..b]) == d
    && forall k {:trigger items[..k]} :: b < k <= |items| ==> Depth(items[..k]) > d
  }

  /** What stands on the collection stack are the collections begun and not yet ended, each
      with the first usage that preceded its Begin item. */
  lemma {:induction false} OpenCollectionBegan(items: seq<Item>, d: nat) returns (b: nat)
    requires RunItems(items).Some? && d < |RunItems(items).value.open|
    ensures BeganAt(items, d, b) && RunItems(items[..b]).Some?
    ensures RunItems(items).value.open[d]
         == Collection(items[b].data % 4, UsageAt(RunItems(items[..b]).value.local.usages, 0))
    decreases |items|
  {
    var n := |items| - 1;
    var before, item := items[..n], items[n];
    DepthIsBalance(before);
    DepthIsBalance(items);
    if Begins(item) && d == |RunItems(before).value.open| {
      b := n;
      assert items[..n + 1] == items;
    } else {
      OpenKeepsBelow(RunItems(before).value, item, d);
      b := OpenCollectionBegan(before, d);
      assert before[..b] == items[..b];
      forall k | b < k <= |items|
        ensures Depth(items[..k]) > d
      {
        if k <= n {
          assert items[..k] == before[..k];
        } else {
          assert items[..k] == items;
        }
      }
    }
  }

  lemma OpenKeepsBelow(st: State, item: Item, d: nat)
    requires Interpret(st, item).Some? && d < |Interpret(st, item).value.open|
    requires !(Begins(item) && d == |st.open|)
    ensures d < |st.open| && Interpret(st, item).value.open[d] == st.open[d]
  {
  }

  /** The Push at `p` saved the state that is `d` deep at the end, and it has not been popped. */
  ghost predicate PushedAt(items: seq<Item>, d: nat, p: nat) {
    && p < |items| && Pushes(items[p]) && PushDepth(items[..p]) == d
    && forall k {:trigger items[..k]} :: p < k <= |items| ==> PushDepth(items[..k]) > d
  }

  lemma {:induction false} SavedStatePushed(items: seq<Item>, d: nat) returns (p: nat)
    requires RunItems(items).Some? && d < |RunItems(items).value.saved|
    ensures PushedAt(items, d, p) && RunItems(items[..p]).Some?
    ensures RunItems(items).value.saved[d] == RunItems(items[..p]).value.global
    decreases |items|
  {
    var n := |items| - 1;
    var before, item := items[..n], items[n];
    DepthIsBalance(before);
    DepthIsBalance(items);
    if Pushes(item) && d == |RunItems(before).value.saved| {
      p := n;
      assert items[..n + 1] == items;
    } else {
      SavedKeepsBelow(RunItems(before).value, item, d);
      p := SavedStatePushed(before, d);
      assert before[..p] == items[..p];
      forall k | p < k <= |items|
        ensures PushDepth(items[..k]) > d
      {
        if k <= n {
          assert items[..k] == before[..k];
        } else {
          assert items[..k] == items;
        }
      }
    }
  }

  lemma SavedKeepsBelow(st: State, item: Item, d: nat)
    requires Interpret(st, item).Some? && d < |Interpret(st, item).value.saved|
    requires !(Pushes(item) && d == |st.saved|)
    ensures d < |st.saved| && Interpret(st, item).value.saved[d] == st.saved[d]
  {
  }

  /** A Pop brings back the whole global state of the matching Push. */
  lemma PopRestoresMatchingPush(items: seq<Item>, pop: Item) returns (p: nat)
    requires Pops(pop) && RunItems(items + [pop]).Some?
    ensures RunItems(items).Some? && PushDepth(items) > 0 && PushedAt(items, PushDepth(items) - 1, p)
    ensures RunItems(items[..p]).Some?
    ensures RunItems(items + [pop]).value.global == RunItems(items[..p]).value.global
  {
    assert (items + [pop])[..|items|] == items;
    PrefixRuns(items + [pop], |items|);
    DepthIsBalance(items);
    p := SavedStatePushed(items, |RunItems(items).value.saved| - 1);
  }

  /** Innermost finds the last collection of its kind, or there is none. */
  lemma {:induction false} InnermostIsLast(open: seq<Collection>, kind: nat) returns (i: int)
    ensures -1 <= i < |open| && forall j :: i < j < |open| ==> open[j].kind != kind
    ensures if i == -1 then Innermost(open, kind) == 0
            else open[i].kind == kind && Innermost(open, kind) == open[i].usage
    decreases |open|
  {
    var n := |open| - 1;
    if open == [] {
      i := -1;
    } else if open[n].kind == kind {
      i := n;
    } else {
      i := InnermostIsLast(open[..n], kind);
    }
  }

  /** A field as the Input, Output or Feature item at `i` declares it. */
  ghost predicate DeclaredAt(items: seq<Item>, i: nat, key: (nat, nat), f: Field)
    requires RunItems(items).Some?
  {
    && i < |items| && items[i].kind == Main && items[i].data == f.flags
    && items[i].tag == (match key.0 case 0 => 8 case 1 => 9 case _ => 11) && key.0 <= 2
    && RunItems(items[..i]).Some?
    && var st := RunItems(items[..i]).value;
    && f.settings == st.global && key.1 == st.global.reportId
    && f.physical == Innermost(st.open, PHYSICAL)
    && f.logical == Innermost(st.open, LOGICAL)
    && f.application == Innermost(st.open, APPLICATION)
    && f.usage == UsageTable(st.local.usages, |f.usage|)
    && |f.usage| == (if IsVariable(f.flags) then st.global.reportCount else |st.local.usages|)
    && f.offset == Registered(st.reports, key).size
  }

  lemma InterpretExtendsReports(st: State, item: Item, key: (nat, nat))
    requires Interpret(st, item).Some? && key in Interpret(st, item).value.reports
    ensures var before, after := Registered(st.reports, key), Interpret(st, item).value.reports[key];
      before.fields <= after.fields && |after.fields| <= |before.fields| + 1
  {
  }

  /** Every registered field was declared by some item, and carries the global state, the
      usages and the innermost collections of that moment. */
  lemma {:induction false} FieldWasDeclared(items: seq<Item>, key: (nat, nat), j: nat) returns (i: nat)
    requires RunItems(items).Some? && key in RunItems(items).value.reports
    requires j < |RunItems(items).value.reports[key].fields|
    ensures DeclaredAt(items, i, key, RunItems(items).value.reports[key].fields[j])
    decreases |items|
  {
    var n := |items| - 1;
    var before, st, item := items[..n], RunItems(items[..n]).value, items[n];
    InterpretExtendsReports(st, item, key);
    var f := RunItems(items).value.reports[key].fields[j];
    if j < |Registered(st.reports, key).fields| {
      i := FieldWasDeclared(before, key, j);
      assert before[..i] == items[..i];
      assert DeclaredAt(before, i, key, f);
    } else {
      i := n;
    }
  }

  // ----- layout -----

  /** The fields of a report occupy consecutive, disjoint stretches of it. */
  ghost predicate Consecutive(r: ReportOf) {
    && (forall i :: 0 <= i < |r.fields| ==> FieldEnd(r.fields[i]) <= r.size)
    && (forall i, j :: 0 <= i < j < |r.fields| ==> FieldEnd(r.fields[i]) <= r.fields[j].offset)
  }

  function FieldEnd(f: Field): nat {
    f.offset + f.settings.reportSize * f.settings.reportCount
  }

  lemma InterpretKeepsLayout(st: State, item: Item)
    requires Interpret(st, item).Some?
    requires forall key :: key in st.reports ==> Consecutive(st.reports[key])
    ensures var r := Interpret(st, item).value; forall key :: key in r.reports ==> Consecutive(r.reports[key])
  {
    if item.kind == Main && item.tag in {8, 9, 11} {
      var kind := if item.tag == 8 then 0 else if item.tag == 9 then 1 else 2;
      AddFieldKeepsLayout(st, kind, item.data);
    }
  }

  lemma AddFieldKeepsLayout(st: State, kind: nat, flags: nat)
    requires FieldAdded(st, kind, flags).Some?
    requires forall key :: key in st.reports ==> Consecutive(st.reports[key])
    ensures var r := FieldAdded(st, kind, flags).value; forall key :: key in r.reports ==> Consecutive(r.reports[key])
  {
    var key := (kind, st.global.reportId);
    var before, after := Registered(st.reports, key), FieldAdded(st, kind, flags).value.reports[key];
    assert Consecutive(before);
    assert after.size == before.size + st.global.reportSize * st.global.reportCount >= before.size;
    assert Consecutive(after);
  }

  lemma {:induction false} ReportsAreLaidOut(items: seq<Item>)
    requires RunItems(items).Some?
    ensures forall key :: key in RunItems(items).value.reports ==> Consecutive(RunItems(items).value.reports[key])
    decreases |items|
  {
    if items != [] {
      var n := |items| - 1;
      ReportsAreLaidOut(items[..n]);
      InterpretKeepsLayout(RunItems(items[..n]).value, items[n]);
    }
  }

  /** Each item adds at most 2^15 bits to one report. */
  ghost predicate Bounded(st: State, n: nat) {
    && Small(st.global) && (forall i :: 0 <= i < |st.saved| ==> Small(st.saved[i]))
    && forall key :: key in st.reports ==> st.reports[key].size <= 0x8000 * n
  }

  predicate Small(g: Environment) { g.reportSize <= 32 && g.reportCount <= MAX_USAGES }

  lemma InterpretKeepsBounds(st: State, item: Item, n: nat)
    requires Bounded(st, n) && Interpret(st, item).Some?
    ensures Bounded(Interpret(st, item).value, n + 1)
  {
    var g := st.global;
    assert g.reportSize * g.reportCount <= 0x8000 by {
      MulMonotone(g.reportSize, g.reportCount, MAX_USAGES);
      MulMonotone(MAX_USAGES, g.reportSize, 32);
    }
  }

  lemma {:induction false} SizesBounded(items: seq<Item>)
    requires RunItems(items).Some?
    ensures Bounded(RunItems(items).value, |items|)
    decreases |items|
  {
    hide Interpret, Bounded;
    if items == [] {
      StartIsBounded();
    } else {
      var n := |items| - 1;
      SizesBounded(items[..n]);
      InterpretKeepsBounds(RunItems(items[..n]).value, items[n], n);
    }
  }

  lemma StartIsBounded()
    ensures Bounded(START, 0)
  {
  }

  lemma {:induction false} ItemsAreFew(bytes: seq<Byte>, start: nat)
    requires start <= |bytes|
    ensures |Items(bytes, start).items| <= |bytes| - start
    decreases |bytes| - start
  {
    hide Fetch;
    if start < |bytes| && Fetch(bytes, start).Short? {
      ItemsAreFew(bytes, Fetch(bytes, start).next);
    }
  }

  /** From descriptors as long as the driver reads them, no sum of report sizes wraps. */
  lemma SizesDoNotWrap(bytes: seq<Byte>)
    requires |bytes| <= 4096 && RunItems(Items(bytes, 0).items).Some?
    ensures forall key :: key in RunItems(Items(bytes, 0).items).value.reports ==>
      RunItems(Items(bytes, 0).items).value.reports[key].size < 0x1_0000_0000
  {
    hide RunItems, Items;
    ItemsAreFew(bytes, 0);
    SizesBounded(Items(bytes, 0).items);
  }

  /** The part of a parsed field that reports are read and written by. */
  function ShapeOf(f: Field): Report.Shape {
    var g := f.settings;
    Report.Shape(f.offset, g.reportSize, g.reportCount, g.logicalMinimum, g.logicalMaximum, f.flags, f.usage)
  }

  /** Whatever descriptor the parser gets through, the reports it describes can be written and read
      back: every field returns its own values and no other bit of the report is touched. */
  lemma ParsedReportsRoundTrip(bytes: seq<Byte>, key: (nat, nat), bits: seq<bool>, entries: seq<Report.Entry>)
    requires WithinTable(bytes) && Acceptable(bytes) && key in RunItems(Items(bytes, 0).items).value.reports
    requires var r := RunItems(Items(bytes, 0).items).value.reports[key];
      && r.size <= |bits| && |entries| == |r.fields|
      && forall i :: 0 <= i < |entries| ==> entries[i].shape == ShapeOf(r.fields[i])
    requires Report.Sound(entries)
    ensures key.1 < TABLE_SIZE && Report.LaidOut(entries, |bits|)
    ensures forall i :: 0 <= i < |entries| ==>
      Report.ValuesIn(Report.OutputBits(bits, entries, |entries|), entries[i].shape) == entries[i].values
    ensures forall k :: 0 <= k < |bits| && !Report.InSomeField(entries, |entries|, k) ==>
      Report.OutputBits(bits, entries, |entries|)[k] == bits[k]
  {
    KeysInTable(Items(bytes, 0).items);
    ReportsAreLaidOut(Items(bytes, 0).items);
    ConsecutiveIsLaidOut(RunItems(Items(bytes, 0).items).value.reports[key], |bits|, entries);
    Report.ReportRoundTrip(bits, entries, |entries|);
  }

  lemma ConsecutiveIsLaidOut(r: ReportOf, size: nat, entries: seq<Report.Entry>)
    requires Consecutive(r) && r.size <= size && |entries| == |r.fields|
    requires forall i :: 0 <= i < |entries| ==> entries[i].shape == ShapeOf(r.fields[i])
    ensures Report.LaidOut(entries, size)
  {
    forall i | 0 <= i < |entries|
      ensures entries[i].shape.End() == FieldEnd(r.fields[i]) && entries[i].shape.offset == r.fields[i].offset
    {
      Report.PositionIs(entries[i].shape, entries[i].shape.count);
      assert r.fields[i].settings.reportSize * r.fields[i].settings.reportCount
          == r.fields[i].settings.reportCount * r.fields[i].settings.reportSize;
    }
  }
}
