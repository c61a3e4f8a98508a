/** Reads that start anywhere: the text dump of all devices, the descriptors of one device, and
    the directory of one bus.  Each is a window onto a sequence that depends on the devices alone. */
module DeviceListing {
  import opened Numbers

  const MAX_TOPO_LEVEL := 6

  datatype Port = Empty | Plugged(device: Device)
  datatype Device = Device(devnum: nat, ports: seq<Port>)
  datatype Bus = Bus(busnum: nat, rootHub: Device)

  /** The text about one device, from its bus, level, index, count and the device itself. */
  type Printer = (nat, nat, nat, nat, Device) -> string

  // ----- windows -----

  /** `n` elements from position `p` on, or as many as there are. */
  function Window<T>(s: seq<T>, p: nat, n: nat): (w: seq<T>)
    ensures |w| <= n && (p + n <= |s| ==> |w| == n)
  {
    s[Min(p, |s|)..Min(p + n, |s|)]
  }

  /** Continuing a window into what follows. */
  lemma WindowAppends<T>(s: seq<T>, t: seq<T>, p: nat, n: nat)
    ensures var w := Window(s, p, n);
      Window(s + t, p, n) == w + Window(t, if p > |s| then p - |s| else 0, n - |w|)
  {
  }

  /** Two reads, one after the other, are one read. */
  lemma WindowsJoin<T>(s: seq<T>, p: nat, m: nat, n: nat)
    ensures var w := Window(s, p, m); Window(s, p, m + n) == w + Window(s, p + m, n)
  {
    var w, v, u := Window(s, p, m), Window(s, p + m, n), Window(s, p, m + n);
    if p + m <= |s| {
      assert u == w + v;
    } else {
      assert v == [];
    }
  }

  // ----- the dump of all devices -----

  /** Preorder, without what lies below the depth limit. */
  function Dump(show: Printer, bus: nat, d: Device, level: nat, index: nat, count: nat): string
    decreases d, |d.ports| + 1
  {
    if level > MAX_TOPO_LEVEL then "" else show(bus, level, index, count, d) + DumpPorts(show, bus, d, level, |d.ports|)
  }

  /** The devices at the first `k` ports; those plugged in are counted from 1. */
  function DumpPorts(show: Printer, bus: nat, d: Device, level: nat, k: nat): string
    requires k <= |d.ports|
    decreases d, k
  {
    if k == 0 then ""
    else if d.ports[k - 1].Empty? then DumpPorts(show, bus, d, level, k - 1)
    else DumpPorts(show, bus, d, level, k - 1)
         + Dump(show, bus, d.ports[k - 1].device, level + 1, k - 1, PluggedIn(d, k))
  }

  function PluggedIn(d: Device, k: nat): nat
    requires k <= |d.ports|
  {
    if k == 0 then 0 else PluggedIn(d, k - 1) + if d.ports[k - 1].Plugged? then 1 else 0
  }

  function DumpAll(show: Printer, buses: seq<Bus>): string {
    if buses == [] then "" else
      DumpAll(show, buses[..|buses| - 1])
      + Dump(show, buses[|buses| - 1].busnum, buses[|buses| - 1].rootHub, 0, 0, 0)
  }

  /** The pointers that usb_device_dump passes down. */
  class Reader {
    const show: Printer
    var buffer: string             // written so far
    var nbytes: nat
    var skipBytes: nat
    var fileOffset: nat

    constructor (show: Printer, p: nat, n: nat)
      ensures this.show == show && Reading("", p, n) && fileOffset == p && buffer == ""
    {
      this.show := show;
      buffer, nbytes, skipBytes, fileOffset := "", n, p, p;
    }

    /** Of the text so far, the window has been written. */
    ghost predicate Reading(text: string, p: nat, n: nat)
      reads this
    {
      && buffer == Window(text, p, n) && nbytes == n - |buffer| && fileOffset == p + |buffer|
      && (nbytes > 0 ==> skipBytes == if p > |text| then p - |text| else 0)
    }

    /** Copy what of one device's text falls into the window. */
    method CopyText(text: string, ghost before: string, ghost p: nat, ghost n: nat) returns (written: nat)
      requires Reading(before, p, n) && nbytes > 0
      modifies this
      ensures Reading(before + text, p, n) && |buffer| == |old(buffer)| + written
    {
      WindowAppends(before, text, p, n);
      var length := |text|;
      written := 0;
      if length > skipBytes {
        length := length - skipBytes;
        if length > nbytes {
          length := nbytes;
        }
        buffer := buffer + text[skipBytes..skipBytes + length];
        nbytes := nbytes - length;
        fileOffset := fileOffset + length;
        written := length;
        skipBytes := 0;
      } else {
        skipBytes := skipBytes - length;
      }
    }

    /** Once the window is full, what follows does not matter. */
    lemma Full(before: string, more: string, p: nat, n: nat)
      requires Reading(before, p, n) && nbytes == 0
      ensures Reading(before + more, p, n)
    {
      WindowAppends(before, more, p, n);
    }

    /** usb_device_dump */
    method DumpDevice(bus: nat, d: Device, level: nat, index: nat, count: nat,
                      ghost before: string, ghost p: nat, ghost n: nat) returns (written: nat)
      requires Reading(before, p, n)
      modifies this
      ensures Reading(before + Dump(show, bus, d, level, index, count), p, n)
      ensures |buffer| == |old(buffer)| + written
      decreases d
    {
      hide Window, Dump, DumpPorts, Reading;
      if nbytes == 0 {
        Full(before, Dump(show, bus, d, level, index, count), p, n);
        return 0;
      }
      DumpIs(show, bus, d, level, index, count, before);
      if level > MAX_TOPO_LEVEL {
        return 0;
      }
      var text := show(bus, level, index, count, d);
      written := CopyText(text, before, p, n);
      ghost var done := before + text;
      var cnt := 0;
      assert done == done + DumpPorts(show, bus, d, level, 0) by {
        DumpNext(show, bus, d, level, 0, 0, done);
      }
      for chix := 0 to |d.ports|
        invariant Reading(done + DumpPorts(show, bus, d, level, chix), p, n)
        invariant cnt == PluggedIn(d, chix) && |buffer| == |old(buffer)| + written
      {
        ghost var dumped := done + DumpPorts(show, bus, d, level, chix);
        DumpNext(show, bus, d, level, chix, cnt, done);
        if d.ports[chix].Plugged? {
          cnt := cnt + 1;
          var more := DumpDevice(bus, d.ports[chix].device, level + 1, chix, cnt, dumped, p, n);
          written := written + more;
        }
      }
    }
  }

  lemma DumpIs(show: Printer, bus: nat, d: Device, level: nat, index: nat, count: nat, before: string)
    ensures level > MAX_TOPO_LEVEL ==> before + Dump(show, bus, d, level, index, count) == before
    ensures level <= MAX_TOPO_LEVEL ==>
      before + Dump(show, bus, d, level, index, count)
      == before + show(bus, level, index, count, d) + DumpPorts(show, bus, d, level, |d.ports|)
  {
  }

  lemma DumpNext(show: Printer, bus: nat, d: Device, level: nat, k: nat, cnt: nat, done: string)
    requires k <= |d.ports| && cnt == PluggedIn(d, k)
    ensures DumpPorts(show, bus, d, level, 0) == ""
    ensures k < |d.ports| && d.ports[k].Empty? ==>
      DumpPorts(show, bus, d, level, k + 1) == DumpPorts(show, bus, d, level, k) && PluggedIn(d, k + 1) == cnt
    ensures k < |d.ports| && d.ports[k].Plugged? ==>
      && PluggedIn(d, k + 1) == cnt + 1
      && done + DumpPorts(show, bus, d, level, k + 1)
         == done + DumpPorts(show, bus, d, level, k) + Dump(show, bus, d.ports[k].device, level + 1, k, cnt + 1)
  {
  }

  /** usb_device_read: bytes [p, p + n) of the dump over all buses. */
  method DeviceRead(show: Printer, buses: seq<Bus>, p: nat, n: nat) returns (data: string, ppos: nat)
    ensures data == Window(DumpAll(show, buses), p, n) && ppos == p + |data|
  {
    if n == 0 {
      return "", p;
    }
    var r := new Reader(show, p, n);
    for i := 0 to |buses|
      invariant r.show == show && fresh(r) && r.Reading(DumpAll(show, buses[..i]), p, n)
    {
      assert buses[..i + 1][..i] == buses[..i];
      var written := r.DumpDevice(buses[i].busnum, buses[i].rootHub, 0, 0, 0, DumpAll(show, buses[..i]), p, n);
    }
    assert buses[..|buses|] == buses;
    data, ppos := r.buffer, r.fileOffset;
  }

  // ----- the descriptors of one device -----

  function Joined(raw: seq<seq<int>>): seq<int> {
    if raw == [] then [] else Joined(raw[..|raw| - 1]) + raw[|raw| - 1]
  }

  /** usbdev_read: bytes [p, p + n) of the device descriptor followed by the raw configurations,
      each as long as its wTotalLength. */
  method DescriptorRead(descriptor: seq<int>, raw: seq<seq<int>>, p: nat, n: nat) returns (data: seq<int>, ppos: nat)
    ensures data == Window(descriptor + Joined(raw), p, n) && ppos == p + |data|
  {
    hide Window, Joined;
    var nbytes: nat := n;
    data, ppos := [], p;
    FirstWindow(descriptor, p, n);
    if ppos < |descriptor| {
      var len := |descriptor| - ppos;
      if len > nbytes {
        len := nbytes;
      }
      data := descriptor[ppos..ppos + len];
      ppos, nbytes := ppos + len, nbytes - len;
    }
    var pos: nat := |descriptor|;
    var i := 0;
    ghost var sofar := descriptor;
    NothingJoined(descriptor, raw);
    while nbytes > 0 && i < |raw|
      invariant 0 <= i <= |raw| && sofar == descriptor + Joined(raw[..i]) && pos == |sofar|
      invariant data == Window(sofar, p, n)
      invariant ppos == p + |data| && nbytes == n - |data|
    {
      var config := raw[i];
      WindowOntoNext(sofar, config, p, n, ppos, nbytes);
      JoinedGrows(descriptor, raw, i);
      if ppos < pos + |config| {
        var len := |config| - (ppos - pos);
        if len > nbytes {
          len := nbytes;
        }
        data := data + config[ppos - pos..ppos - pos + len];
        ppos, nbytes := ppos + len, nbytes - len;
      }
      sofar := sofar + config;
      pos := pos + |config|;
      i := i + 1;
    }
    RestUnread(descriptor, raw, i, p, n);
  }

  /** A window that is not yet full ends where the sequence ends, and goes on in the next one. */
  lemma WindowOntoNext<T>(s: seq<T>, t: seq<T>, p: nat, n: nat, end: nat, left: nat)
    requires end == p + |Window(s, p, n)| && left == n - |Window(s, p, n)| && left > 0
    ensures end >= |s|
    ensures end < |s| + |t| ==>
      var len := Min(|t| - (end - |s|), left);
      Window(s + t, p, n) == Window(s, p, n) + t[end - |s|..end - |s| + len]
    ensures end >= |s| + |t| ==> Window(s + t, p, n) == Window(s, p, n)
  {
    WindowAppends(s, t, p, n);
  }

  lemma FirstWindow<T>(s: seq<T>, p: nat, n: nat)
    ensures Window(s, p, n) == if p < |s| then s[p..p + Min(|s| - p, n)] else []
  {
  }

  lemma NothingJoined(descriptor: seq<int>, raw: seq<seq<int>>)
    ensures descriptor + Joined(raw[..0]) == descriptor
  {
  }

  lemma JoinedGrows(descriptor: seq<int>, raw: seq<seq<int>>, i: nat)
    requires i < |raw|
    ensures descriptor + Joined(raw[..i]) + raw[i] == descriptor + Joined(raw[..i + 1])
  {
    assert raw[..i + 1][..i] == raw[..i];
  }

  lemma {:induction false} JoinedSplits(raw: seq<seq<int>>, i: nat)
    requires i <= |raw|
    ensures Joined(raw[..i]) <= Joined(raw)
    decreases |raw|
  {
    if i == |raw| {
      assert raw[..i] == raw;
    } else {
      JoinedSplits(raw[..|raw| - 1], i);
      assert raw[..|raw| - 1][..i] == raw[..i];
    }
  }

  /** Where a read is satisfied, what follows does not matter. */
  lemma RestUnread(descriptor: seq<int>, raw: seq<seq<int>>, i: nat, p: nat, n: nat)
    requires i <= |raw|
    ensures var w := Window(descriptor + Joined(raw[..i]), p, n);
      |w| == n || i == |raw| ==> w == Window(descriptor + Joined(raw), p, n)
  {
    JoinedSplits(raw, i);
    var sofar := descriptor + Joined(raw[..i]);
    var rest := Joined(raw)[|Joined(raw[..i])|..];
    assert descriptor + Joined(raw) == sofar + rest;
    WindowAppends(sofar, rest, p, n);
    if i == |raw| {
      assert raw[..i] == raw;
    }
  }

  // ----- the directory of one bus -----

  datatype Entry = Dot | DotDot | Numbered(devnum: nat)

  function Preorder(d: Device): seq<Entry>
    decreases d, |d.ports| + 1
  {
    [Numbered(d.devnum)] + PreorderPorts(d, |d.ports|)
  }

  function PreorderPorts(d: Device, k: nat): seq<Entry>
    requires k <= |d.ports|
    decreases d, k
  {
    if k == 0 then []
    else if d.ports[k - 1].Empty? then PreorderPorts(d, k - 1)
    else PreorderPorts(d, k - 1) + Preorder(d.ports[k - 1].device)
  }

  function Listing(root: Device): seq<Entry> { [Dot, DotDot] + Preorder(root) }

  class Directory {
    const root: Device
    var fpos: nat                      // filp->f_pos
    var room: nat                      // entries that filldir still takes in this call
    ghost var listed: seq<Entry>       // entries that filldir has taken in all calls

    constructor (root: Device)
      ensures this.root == root && fpos == 0 && listed == []
    {
      this.root := root;
      fpos, room, listed := 0, 0, [];
    }

    /** filldir, and the step of the position when it succeeds. */
    method Fill(e: Entry) returns (ok: bool)
      modifies this
      ensures ok <==> old(room) > 0
      ensures ok ==> room == old(room) - 1 && fpos == old(fpos) + 1 && listed == old(listed) + [e]
      ensures !ok ==> room == old(room) && fpos == old(fpos) && listed == old(listed)
    {
      ok := room > 0;
      if ok {
        room, fpos, listed := room - 1, fpos + 1, listed + [e];
      }
    }

    ghost predicate Filling(entries: seq<Entry>, p: nat, n: nat, listed0: seq<Entry>)
      reads this
    {
      Filled(entries, p, n, listed0, listed, room, fpos)
    }

    /** bus_readdir: -1 when filldir is full, otherwise how many entries are still to be skipped. */
    method BusReaddir(d: Device, pos: nat, ghost before: seq<Entry>, ghost p: nat, ghost n: nat,
                      ghost listed0: seq<Entry>)
      returns (r: int)
      requires Filling(before, p, n, listed0) && |before| <= p + n && pos == Left(p, |before|)
      modifies this
      ensures Filling(before + Preorder(d), p, n, listed0)
      ensures r >= 0 ==> |before + Preorder(d)| <= p + n && r == Left(p, |before + Preorder(d)|)
      ensures r < 0 ==> r == -1 && |before + Preorder(d)| > p + n
      decreases d
    {
      hide Filled, Preorder, PreorderPorts;
      var e := Numbered(d.devnum);
      PreorderIs(d, before);
      Taken(before, e, p, n, listed0, listed, room, fpos);
      r := pos;
      if r > 0 {
        r := r - 1;
      } else {
        var ok := Fill(e);
        if !ok {
          Stuck(before, Preorder(d), p, n, listed0, listed, room, fpos);
          return -1;
        }
      }
      ghost var done := before + [e];
      for i := 0 to |d.ports|
        invariant Filling(done + PreorderPorts(d, i), p, n, listed0) && |done + PreorderPorts(d, i)| <= p + n
        invariant r == Left(p, |done + PreorderPorts(d, i)|)
      {
        PreorderNext(d, i, done);
        if d.ports[i].Plugged? {
          r := BusReaddir(d.ports[i].device, r, done + PreorderPorts(d, i), p, n, listed0);
          if r < 0 {
            ghost var rest := PortsArePrefix(d, i + 1);
            Overfull(done + PreorderPorts(d, i + 1), rest, p, n, listed0, listed, room, fpos);
            assert done + PreorderPorts(d, i + 1) + rest == before + Preorder(d);
            return -1;
          }
        }
      }
    }

    /** usbdevfs_bus_readdir with room for `n` entries. */
    method Readdir(n: nat)
      requires fpos <= |Listing(root)| && listed == Listing(root)[..fpos]
      modifies this
      ensures fpos == Min(old(fpos) + n, |Listing(root)|) && listed == Listing(root)[..fpos]
    {
      hide Filled, Preorder;
      room := n;
      ghost var p, listed0 := fpos, listed;
      NothingFilled(p, n, listed0);
      ghost var none: seq<Entry> := [];
      Taken(none, Dot, p, n, listed0, listed, room, fpos);
      assert none + [Dot] == [Dot];
      if fpos == 0 {
        var ok := Fill(Dot);
        if !ok {
          return;
        }
      }
      Taken([Dot], DotDot, p, n, listed0, listed, room, fpos);
      assert [Dot] + [DotDot] == [Dot, DotDot];
      if fpos == 1 {
        var ok := Fill(DotDot);
        if !ok {
          OneListed(root);
          return;
        }
      }
      Positions([Dot, DotDot], p, n, listed0, listed, room, fpos);
      var r := BusReaddir(root, fpos - 2, [Dot, DotDot], p, n, listed0);
      ListedFurther(Listing(root), p, n, listed0, listed, room, fpos);
    }
  }

  /** How many of `p` entries are still to be skipped after `k`. */
  function Left(p: nat, k: nat): nat { if p > k then p - k else 0 }

  /** Of the entries so far, those from `p` on have been listed, up to `n` of them. */
  ghost predicate Filled(entries: seq<Entry>, p: nat, n: nat, listed0: seq<Entry>,
                         listed: seq<Entry>, room: nat, fpos: nat) {
    var w := Window(entries, p, n);
    listed == listed0 + w && room == n - |w| && fpos == p + |w|
  }

  lemma NothingFilled(p: nat, n: nat, listed0: seq<Entry>)
    ensures Filled([], p, n, listed0, listed0, n, p)
  {
  }

  /** The next entry is skipped, or listed if there is room. */
  lemma Taken(before: seq<Entry>, e: Entry, p: nat, n: nat, listed0: seq<Entry>, listed: seq<Entry>, room: nat, fpos: nat)
    requires Filled(before, p, n, listed0, listed, room, fpos) && |before| <= p + n
    ensures p > |before| ==> Filled(before + [e], p, n, listed0, listed, room, fpos) && fpos == p
    ensures p <= |before| ==> fpos == |before| && room == p + n - |before|
    ensures p <= |before| && room > 0 ==> Filled(before + [e], p, n, listed0, listed + [e], room - 1, fpos + 1)
  {
    WindowAppends(before, [e], p, n);
  }

  lemma Positions(before: seq<Entry>, p: nat, n: nat, listed0: seq<Entry>, listed: seq<Entry>, room: nat, fpos: nat)
    requires Filled(before, p, n, listed0, listed, room, fpos) && |before| <= p + n
    ensures fpos == if p > |before| then p else |before|
  {
  }

  /** Without room nothing more is listed. */
  lemma Stuck(before: seq<Entry>, more: seq<Entry>, p: nat, n: nat, listed0: seq<Entry>,
              listed: seq<Entry>, room: nat, fpos: nat)
    requires Filled(before, p, n, listed0, listed, room, fpos) && room == 0
    requires p <= |before| <= p + n && more != []
    ensures Filled(before + more, p, n, listed0, listed, room, fpos) && |before + more| > p + n
  {
    WindowAppends(before, more, p, n);
  }

  lemma Overfull(before: seq<Entry>, more: seq<Entry>, p: nat, n: nat, listed0: seq<Entry>,
                 listed: seq<Entry>, room: nat, fpos: nat)
    requires Filled(before, p, n, listed0, listed, room, fpos) && |before| > p + n
    ensures Filled(before + more, p, n, listed0, listed, room, fpos) && |before + more| > p + n
  {
    WindowAppends(before, more, p, n);
  }

  lemma PreorderIs(d: Device, before: seq<Entry>)
    ensures Preorder(d) != []
    ensures before + Preorder(d) == before + [Numbered(d.devnum)] + PreorderPorts(d, |d.ports|)
    ensures before + [Numbered(d.devnum)] == before + [Numbered(d.devnum)] + PreorderPorts(d, 0)
  {
  }

  lemma PreorderNext(d: Device, i: nat, done: seq<Entry>)
    requires i < |d.ports|
    ensures d.ports[i].Empty? ==> PreorderPorts(d, i + 1) == PreorderPorts(d, i)
    ensures d.ports[i].Plugged? ==>
      done + PreorderPorts(d, i + 1) == done + PreorderPorts(d, i) + Preorder(d.ports[i].device)
  {
  }

  lemma PortsArePrefix(d: Device, i: nat) returns (rest: seq<Entry>)
    requires i <= |d.ports|
    ensures PreorderPorts(d, |d.ports|) == PreorderPorts(d, i) + rest
  {
    var k := i;
    rest := [];
    while k < |d.ports|
      invariant i <= k <= |d.ports| && PreorderPorts(d, k) == PreorderPorts(d, i) + rest
    {
      rest := rest + if d.ports[k].Empty? then [] else Preorder(d.ports[k].device);
      k := k + 1;
    }
  }

  lemma OneListed(root: Device)
    ensures |Listing(root)| >= 2 && Listing(root)[..1] == [Dot]
  {
  }

  lemma ListedFurther(all: seq<Entry>, p: nat, n: nat, listed0: seq<Entry>, listed: seq<Entry>, room: nat, fpos: nat)
    requires p <= |all| && listed0 == all[..p] && Filled(all, p, n, listed0, listed, room, fpos)
    ensures fpos == Min(p + n, |all|) && listed == all[..fpos]
  {
  }

  /** However the calls are cut short, together they list every entry once, in preorder. */
  method ReadWholeDirectory(root: Device, rooms: seq<nat>) returns (ghost listed: seq<Entry>, end: nat)
    ensures end == Min(Sum(rooms), |Listing(root)|) && listed == Listing(root)[..end]
  {
    var dir := new Directory(root);
    for i := 0 to |rooms|
      invariant fresh(dir) && dir.root == root && dir.fpos == Min(Sum(rooms[..i]), |Listing(root)|)
      invariant dir.listed == Listing(root)[..dir.fpos]
    {
      assert rooms[..i + 1][..i] == rooms[..i];
      dir.Readdir(rooms[i]);
    }
    assert rooms[..|rooms|] == rooms;
    listed, end := dir.listed, dir.fpos;
  }

  /** Each device in the tree. */
  function Devices(d: Device): multiset<nat>
    decreases d, |d.ports| + 1
  {
    multiset{d.devnum} + PortDevices(d, |d.ports|)
  }

  function PortDevices(d: Device, k: nat): multiset<nat>
    requires k <= |d.ports|
    decreases d, k
  {
    if k == 0 then multiset{}
    else if d.ports[k - 1].Empty? then PortDevices(d, k - 1)
    else PortDevices(d, k - 1) + Devices(d.ports[k - 1].device)
  }

  lemma {:induction false} PortsListDevices(d: Device, k: nat, devnum: nat)
    requires k <= |d.ports|
    ensures multiset(PreorderPorts(d, k))[Numbered(devnum)] == PortDevices(d, k)[devnum]
    decreases d, k
  {
    if k > 0 {
      PortsListDevices(d, k - 1, devnum);
      if d.ports[k - 1].Plugged? {
        PreorderListsDevices(d.ports[k - 1].device, devnum);
      }
    }
  }

  /** The preorder has each device of the tree, as often as it occurs there. */
  lemma {:induction false} PreorderListsDevices(d: Device, devnum: nat)
    ensures multiset(Preorder(d))[Numbered(devnum)] == Devices(d)[devnum]
    decreases d, |d.ports| + 1
  {
    PortsListDevices(d, |d.ports|, devnum);
  }
}
