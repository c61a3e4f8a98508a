/** The order in which the devices of a bus are listed, told by their paths: the ports that lead
    from the root hub to them. */
module DevicePaths {
  import opened DeviceListing

  type Path = seq<nat>

  predicate Reaches(d: Device, p: Path)
    decreases |p|
  {
    p == [] || (p[0] < |d.ports| && d.ports[p[0]].Plugged? && Reaches(d.ports[p[0]].device, p[1..]))
  }

  function DeviceAt(d: Device, p: Path): Device
    requires Reaches(d, p)
    decreases |p|
  {
    if p == [] then d else DeviceAt(d.ports[p[0]].device, p[1..])
  }

  /** A hub before what is plugged into it, a lower port before a higher one. */
  predicate Before(p: Path, q: Path)
    decreases |p|
  {
    q != [] && (p == [] || p[0] < q[0] || (p[0] == q[0] && Before(p[1..], q[1..])))
  }

  ghost predicate InOrder(ps: seq<Path>) {
    forall i, j :: 0 <= i < j < |ps| ==> Before(ps[i], ps[j])
  }

  ghost predicate AllReached(d: Device, ps: seq<Path>) {
    forall i :: 0 <= i < |ps| ==> Reaches(d, ps[i])
  }

  lemma {:induction false} ReachesUpto(d: Device, p: Path)
    requires Reaches(d, p) && p != []
    ensures Reaches(d, p[..|p| - 1])
    decreases |p|
  {
    if |p| > 1 {
      ReachesUpto(d.ports[p[0]].device, p[1..]);
      assert p[..|p| - 1][1..] == p[1..][..|p| - 2];
    }
  }

  // ----- the text -----

  /** The text about the device at `p`: its level, the port it is plugged into, and its number among
      those plugged into the same hub, counted from 1. */
  function Shown(show: Printer, bus: nat, d: Device, level: nat, index: nat, count: nat, p: Path): string
    requires Reaches(d, p)
  {
    if p == [] then show(bus, level, index, count, d)
    else
      ReachesUpto(d, p);
      var port := p[|p| - 1];
      show(bus, level + |p|, port, PluggedIn(DeviceAt(d, p[..|p| - 1]), Ports(d, p)), DeviceAt(d, p))
  }

  /** The ports up to and with the last one of the path. */
  function Ports(d: Device, p: Path): (k: nat)
    requires Reaches(d, p) && p != [] && Reaches(d, p[..|p| - 1])
    ensures k == p[|p| - 1] + 1 && k <= |DeviceAt(d, p[..|p| - 1]).ports|
  {
    LastPort(d, p);
    p[|p| - 1] + 1
  }

  lemma {:induction false} LastPort(d: Device, p: Path)
    requires Reaches(d, p) && p != [] && Reaches(d, p[..|p| - 1])
    ensures p[|p| - 1] < |DeviceAt(d, p[..|p| - 1]).ports|
    decreases |p|
  {
    if |p| > 1 {
      assert p[..|p| - 1][1..] == p[1..][..|p| - 2];
      LastPort(d.ports[p[0]].device, p[1..]);
    }
  }

  function Texts(show: Printer, bus: nat, d: Device, level: nat, index: nat, count: nat, ps: seq<Path>): string
    requires AllReached(d, ps)
    decreases |ps|
  {
    if ps == [] then ""
    else
      Texts(show, bus, d, level, index, count, ps[..|ps| - 1])
      + Shown(show, bus, d, level, index, count, ps[|ps| - 1])
  }

  function Under(k: nat, qs: seq<Path>): (ps: seq<Path>)
    ensures |ps| == |qs| && forall i :: 0 <= i < |qs| ==> ps[i] == [k] + qs[i]
  {
    seq(|qs|, i requires 0 <= i < |qs| => [k] + qs[i])
  }

  lemma UnderIsReached(d: Device, k: nat, qs: seq<Path>)
    requires k < |d.ports| && d.ports[k].Plugged? && AllReached(d.ports[k].device, qs)
    ensures AllReached(d, Under(k, qs))
  {
    forall i | 0 <= i < |qs|
      ensures Reaches(d, [k] + qs[i])
    {
      assert ([k] + qs[i])[1..] == qs[i];
    }
  }

  lemma ShownUnder(show: Printer, bus: nat, d: Device, level: nat, index: nat, count: nat, k: nat, q: Path)
    requires k < |d.ports| && d.ports[k].Plugged? && Reaches(d.ports[k].device, q)
    ensures Reaches(d, [k] + q)
    ensures Shown(show, bus, d, level, index, count, [k] + q)
         == Shown(show, bus, d.ports[k].device, level + 1, k, PluggedIn(d, k + 1), q)
  {
    var p := [k] + q;
    assert p[1..] == q;
    if q != [] {
      ReachesUpto(d.ports[k].device, q);
      ReachesUpto(d, p);
      assert p[..|p| - 1][1..] == q[..|q| - 1];
    } else {
      assert p == [k] && p[..0] == [] && p[1..] == [];
      assert DeviceAt(d, p) == d.ports[k].device && DeviceAt(d, p[..0]) == d;
    }
  }

  lemma {:induction false} TextsUnder(show: Printer, bus: nat, d: Device, level: nat, index: nat, count: nat, k: nat,
                                      qs: seq<Path>)
    requires k < |d.ports| && d.ports[k].Plugged? && AllReached(d.ports[k].device, qs)
    ensures AllReached(d, Under(k, qs))
    ensures Texts(show, bus, d, level, index, count, Under(k, qs))
         == Texts(show, bus, d.ports[k].device, level + 1, k, PluggedIn(d, k + 1), qs)
    decreases |qs|
  {
    UnderIsReached(d, k, qs);
    if qs != [] {
      var init, last := qs[..|qs| - 1], qs[|qs| - 1];
      TextsUnder(show, bus, d, level, index, count, k, init);
      ShownUnder(show, bus, d, level, index, count, k, last);
      assert Under(k, qs)[..|qs| - 1] == Under(k, init);
    }
  }

  lemma {:induction false} TextsAdd(show: Printer, bus: nat, d: Device, level: nat, index: nat, count: nat,
                                    ps: seq<Path>, qs: seq<Path>)
    requires AllReached(d, ps) && AllReached(d, qs)
    ensures AllReached(d, ps + qs)
    ensures Texts(show, bus, d, level, index, count, ps + qs)
         == Texts(show, bus, d, level, index, count, ps) + Texts(show, bus, d, level, index, count, qs)
    decreases |qs|
  {
    hide Shown, Reaches;
    if qs == [] {
      assert ps + qs == ps;
    } else {
      var init := qs[..|qs| - 1];
      TextsAdd(show, bus, d, level, index, count, ps, init);
      TextsLast(show, bus, d, level, index, count, ps + init, qs[|qs| - 1]);
      assert ps + qs == (ps + init) + [qs[|qs| - 1]];
    }
  }

  lemma TextsLast(show: Printer, bus: nat, d: Device, level: nat, index: nat, count: nat, ps: seq<Path>, p: Path)
    requires AllReached(d, ps) && Reaches(d, p)
    ensures AllReached(d, ps + [p])
    ensures Texts(show, bus, d, level, index, count, ps + [p])
         == Texts(show, bus, d, level, index, count, ps) + Shown(show, bus, d, level, index, count, p)
  {
    hide Shown, Reaches;
    assert (ps + [p])[..|ps|] == ps;
  }

  // ----- the dump -----

  /** All devices, or those down to level 6 when `d` is at `level`. */
  datatype Depth = All | From(level: nat) {
    predicate Has(p: Path) { All? || level + |p| <= 6 }
    function Below(): Depth { if All? then All else From(level + 1) }
  }

  ghost predicate Lists(d: Device, depth: Depth, ps: seq<Path>) {
    forall p: Path :: p in ps <==> Reaches(d, p) && depth.Has(p)
  }

  ghost predicate ListsPorts(d: Device, depth: Depth, k: nat, ps: seq<Path>) {
    forall p: Path :: p in ps <==> p != [] && p[0] < k && Reaches(d, p) && depth.Has(p)
  }

  lemma ReachedIn(d: Device, ps: seq<Path>)
    requires forall p: Path :: p in ps ==> Reaches(d, p)
    ensures AllReached(d, ps)
  {
  }

  /** The dump of a bus is the text about each device down to level 6, in the order of their paths,
      each once. */
  lemma {:induction false} DumpIsInOrder(show: Printer, bus: nat, d: Device, level: nat, index: nat, count: nat)
    returns (ps: seq<Path>)
    ensures InOrder(ps) && Lists(d, From(level), ps) && AllReached(d, ps)
    ensures Dump(show, bus, d, level, index, count) == Texts(show, bus, d, level, index, count, ps)
    decreases d, |d.ports| + 1
  {
    if level > MAX_TOPO_LEVEL {
      ps := [];
    } else {
      var qs := PortsInOrder(show, bus, d, level, index, count, |d.ports|);
      var root: seq<Path> := [[]];
      ps := root + qs;
      TextsAdd(show, bus, d, level, index, count, root, qs);
      RootText(show, bus, d, level, index, count);
      RootFirst(d, From(level), qs);
    }
  }

  lemma RootText(show: Printer, bus: nat, d: Device, level: nat, index: nat, count: nat)
    ensures Texts(show, bus, d, level, index, count, [[]]) == show(bus, level, index, count, d)
  {
    var root: seq<Path> := [[]];
    assert root[..0] == [];
  }

  lemma RootFirst(d: Device, depth: Depth, qs: seq<Path>)
    requires depth.Has([]) && InOrder(qs) && ListsPorts(d, depth, |d.ports|, qs)
    ensures InOrder([[]] + qs) && Lists(d, depth, [[]] + qs)
  {
    var root: seq<Path> := [[]];
    var ps := root + qs;
    forall p: Path
      ensures p in ps <==> Reaches(d, p) && depth.Has(p)
    {
      assert p in ps <==> p == [] || p in qs;
    }
    forall i, j | 0 <= i < j < |ps|
      ensures Before(ps[i], ps[j])
    {
      assert ps[j] == qs[j - 1];
      assert qs[j - 1] in qs;
      if i > 0 {
        assert ps[i] == qs[i - 1];
      }
    }
  }

  lemma {:induction false} PortsInOrder(show: Printer, bus: nat, d: Device, level: nat, index: nat, count: nat, k: nat)
    returns (ps: seq<Path>)
    requires k <= |d.ports|
    ensures InOrder(ps) && ListsPorts(d, From(level), k, ps) && AllReached(d, ps)
    ensures DumpPorts(show, bus, d, level, k) == Texts(show, bus, d, level, index, count, ps)
    decreases d, k
  {
    hide Texts, Reaches, InOrder, Lists, ListsPorts, Shown;
    ps := [];
    NoPorts(show, bus, d, level, index, count);
    if k > 0 {
      var init := PortsInOrder(show, bus, d, level, index, count, k - 1);
      if d.ports[k - 1].Empty? {
        ps := init;
        EmptyPort(d, From(level), k, ps);
      } else {
        var child := d.ports[k - 1].device;
        var qs := DumpIsInOrder(show, bus, child, level + 1, k - 1, PluggedIn(d, k));
        TextsUnder(show, bus, d, level, index, count, k - 1, qs);
        TextsAdd(show, bus, d, level, index, count, init, Under(k - 1, qs));
        PortsThen(d, From(level), k, init, qs);
        ps := init + Under(k - 1, qs);
      }
    }
  }

  lemma NoPorts(show: Printer, bus: nat, d: Device, level: nat, index: nat, count: nat)
    ensures InOrder([]) && (forall depth :: ListsPorts(d, depth, 0, []))
    ensures Texts(show, bus, d, level, index, count, []) == ""
  {
  }

  lemma EmptyPort(d: Device, depth: Depth, k: nat, ps: seq<Path>)
    requires 0 < k <= |d.ports| && d.ports[k - 1].Empty? && ListsPorts(d, depth, k - 1, ps)
    ensures ListsPorts(d, depth, k, ps)
  {
  }

  lemma UnderHas(k: nat, qs: seq<Path>, p: Path)
    ensures p in Under(k, qs) <==> p != [] && p[0] == k && p[1..] in qs
  {
    if p in Under(k, qs) {
      var i :| 0 <= i < |qs| && Under(k, qs)[i] == p;
      assert p[1..] == qs[i];
    }
    if p != [] && p[0] == k && p[1..] in qs {
      var i :| 0 <= i < |qs| && qs[i] == p[1..];
      assert Under(k, qs)[i] == p;
    }
  }

  lemma PortsThen(d: Device, depth: Depth, k: nat, init: seq<Path>, qs: seq<Path>)
    requires 0 < k <= |d.ports| && d.ports[k - 1].Plugged?
    requires InOrder(init) && ListsPorts(d, depth, k - 1, init)
    requires InOrder(qs) && Lists(d.ports[k - 1].device, depth.Below(), qs)
    ensures InOrder(init + Under(k - 1, qs)) && ListsPorts(d, depth, k, init + Under(k - 1, qs))
  {
    var more := Under(k - 1, qs);
    var ps := init + more;
    forall p: Path
      ensures p in ps <==> p != [] && p[0] < k && Reaches(d, p) && depth.Has(p)
    {
      UnderHas(k - 1, qs, p);
      assert p in ps <==> p in init || p in more;
    }
    forall i, j | 0 <= i < j < |ps|
      ensures Before(ps[i], ps[j])
    {
      OneBefore(d, depth, k, init, qs, i, j);
    }
  }

  lemma OneBefore(d: Device, depth: Depth, k: nat, init: seq<Path>, qs: seq<Path>, i: nat, j: nat)
    requires k > 0 && InOrder(init) && ListsPorts(d, depth, k - 1, init) && InOrder(qs)
    requires i < j < |init| + |qs|
    ensures var ps := init + Under(k - 1, qs); Before(ps[i], ps[j])
  {
    var more := Under(k - 1, qs);
    if j >= |init| {
      var q := qs[j - |init|];
      assert more[j - |init|] == [k - 1] + q && ([k - 1] + q)[1..] == q;
      if i >= |init| {
        var p := qs[i - |init|];
        assert more[i - |init|] == [k - 1] + p && ([k - 1] + p)[1..] == p;
      } else {
        assert init[i] in init;
      }
    }
  }

  // ----- the directory -----

  /** The entries are the numbers of the devices that the paths lead to. */
  ghost predicate Names(d: Device, ps: seq<Path>, entries: seq<Entry>) {
    |entries| == |ps| && forall i :: 0 <= i < |ps| ==>
      Reaches(d, ps[i]) && entries[i] == Numbered(DeviceAt(d, ps[i]).devnum)
  }

  /** The directory of a bus lists every device on it once, in the order of their paths. */
  lemma {:induction false} PreorderIsInOrder(d: Device) returns (ps: seq<Path>)
    ensures InOrder(ps) && Lists(d, All, ps) && Names(d, ps, Preorder(d))
    decreases d, |d.ports| + 1
  {
    var qs := PreorderPortsInOrder(d, |d.ports|);
    ps := [[]] + qs;
    RootFirst(d, All, qs);
  }

  lemma {:induction false} PreorderPortsInOrder(d: Device, k: nat) returns (ps: seq<Path>)
    requires k <= |d.ports|
    ensures InOrder(ps) && ListsPorts(d, All, k, ps) && Names(d, ps, PreorderPorts(d, k))
    decreases d, k
  {
    hide InOrder, Lists, ListsPorts;
    ps := [];
    NothingInOrder(d);
    if k > 0 {
      var init := PreorderPortsInOrder(d, k - 1);
      if d.ports[k - 1].Empty? {
        ps := init;
        EmptyPort(d, All, k, ps);
      } else {
        var qs := PreorderIsInOrder(d.ports[k - 1].device);
        NamesUnder(d, k - 1, qs, Preorder(d.ports[k - 1].device));
        PortsThen(d, All, k, init, qs);
        ps := init + Under(k - 1, qs);
      }
    }
  }

  lemma NothingInOrder(d: Device)
    ensures InOrder([]) && ListsPorts(d, All, 0, [])
  {
  }

  lemma NamesUnder(d: Device, k: nat, qs: seq<Path>, entries: seq<Entry>)
    requires k < |d.ports| && d.ports[k].Plugged? && Names(d.ports[k].device, qs, entries)
    ensures Names(d, Under(k, qs), entries)
  {
    forall i | 0 <= i < |qs|
      ensures Reaches(d, Under(k, qs)[i]) && entries[i] == Numbered(DeviceAt(d, Under(k, qs)[i]).devnum)
    {
      assert ([k] + qs[i])[1..] == qs[i];
    }
  }
}
