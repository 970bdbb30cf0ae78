/** When the pod CIDRs of a node end up marked, and what a node that the allocator meets for the
    first time leads to. */
module PodMarking {
  import opened Common
  import opened Bits
  import opened Prefixes
  import opened Geometry
  import opened SetState
  import opened CloudSpec
  import opened MaskLadder
  import opened Discovery
  import opened KeyGuard
  import opened NodeSelection

  /** The outcome for one pod CIDR: occupied if a set contains its first address; else the prefix
      that serves the node is chosen, and the pod CIDR is not tried again. */
  ghost predicate PodOutcome(m: Sets, m': Sets, p: Prefix, v: NodeView, ok: bool)
    requires ValidSets(m) && ValidSets(m') && p.Valid() && v.Valid()
  {
    if Tracks(m, p.First()) then exists r :: OccupyOutcome(m, m', p, r) && (if ok then r == Ok(true) else r.Err?)
    else exists d :: DefineOutcome(m, m', v, d) && (ok <==> d.Ok?)
  }

  /** No tracked prefix serves the node, one of its own prefixes gets a set that contains the pod
      CIDR's first address, and every block of it that meets the pod CIDR contains a public
      address that the node reports. */
  ghost predicate NodeFills(m: Sets, v: NodeView, p: Prefix)
    requires ValidSets(m) && v.Valid() && p.Valid()
  {
    && !Served(m, v.Cidrs())
    && exists h :: h in v.Cidrs() && Fills(h, v, p)
  }

  ghost predicate Fills(h: HostPrefix, v: NodeView, p: Prefix)
    requires p.Valid()
  {
    && h.Valid() && h.family == V6 && h.bits != 128 && Ladder(h, v.MaxPods()).Ok?
    && var g := Ladder(h, v.MaxPods()).value;
       && g.Valid() && g.cluster.Contains(p.First())
       && forall b | b in Cover(g, p) :: HoldsAddress(g, b, v.addresses)
  }

  /** On success, with keys that stay disjoint, the pod CIDR is marked if and only if a set
      contained it before, or the node's own addresses happen to fill it. */
  lemma PodMarkedExactly(m: Sets, m': Sets, p: Prefix, v: NodeView)
    requires ValidSets(m) && ValidSets(m') && p.Valid() && v.Valid()
    requires PodOutcome(m, m', p, v, true) && DisjointKeys(m')
    ensures Marked(m', p) <==> Tracks(m, p.First()) || NodeFills(m, v, p)
  {
    hide WellFormed, Marked, OccupyOutcome, DefineOutcome, NodeFills, DisjointKeys, Tracks, Prefix.Valid, Served;
    if !Tracks(m, p.First()) {
      var d :| DefineOutcome(m, m', v, d) && d.Ok?;
      if Marked(m', p) {
        MarkedIsFilled(m, m', p, v, d);
      }
      if NodeFills(m, v, p) {
        FilledIsMarked(m, m', p, v, d);
      }
    } else {
      OccupiedIsMarked(m, m', p);
    }
  }

  lemma OccupiedIsMarked(m: Sets, m': Sets, p: Prefix)
    requires ValidSets(m) && ValidSets(m') && p.Valid() && OccupyOutcome(m, m', p, Ok(true))
    ensures Marked(m', p)
  {
  }

  lemma MarkedIsFilled(m: Sets, m': Sets, p: Prefix, v: NodeView, d: Result<Option<HostPrefix>, Error>)
    requires ValidSets(m) && ValidSets(m') && p.Valid() && v.Valid() && DefineOutcome(m, m', v, d) && d.Ok?
    requires !Tracks(m, p.First()) && Marked(m', p)
    ensures NodeFills(m, v, p)
  {
    hide WellFormed, Cover, AddAll, NodeReserved, Serves, HoldsAddress, Discovered, Ladder;
    var k :| Hit(m', k, p.First()) && Cover(m'[k].g, p) <= m'[k].s.used;
    assert !Hit(m, k, p.First());
    assert k !in m;
    var m1 := AddAll(m, v.Cidrs(), v.MaxPods()).0;
    AddAllFresh(m, v.Cidrs(), v.MaxPods(), k);
    var h :| h in v.Cidrs() && AsksFor(h, v.MaxPods(), m1[k]);
    assert forall b | b in Cover(m1[k].g, p) :: HoldsAddress(m1[k].g, b, v.addresses);
    assert Fills(h, v, p);
  }

  lemma FilledIsMarked(m: Sets, m': Sets, p: Prefix, v: NodeView, d: Result<Option<HostPrefix>, Error>)
    requires ValidSets(m) && ValidSets(m') && p.Valid() && v.Valid() && DefineOutcome(m, m', v, d) && d.Ok?
    requires !Tracks(m, p.First()) && NodeFills(m, v, p) && DisjointKeys(m')
    ensures Marked(m', p)
  {
    hide WellFormed, Cover, AddAll, Serves, HoldsAddress, Discovered, Ladder, NewKeys, DisjointKeys, NodeReserved;
    var h :| h in v.Cidrs() && Fills(h, v, p);
    var m1 := AddAll(m, v.Cidrs(), v.MaxPods()).0;
    var k := Ladder(h, v.MaxPods()).value.cluster;
    AddedKey(m, v.Cidrs(), v.MaxPods(), h);
    assert !Hit(m, k, p.First());
    assert Hit(m', k, p.First());
    forall b | b in Cover(m'[k].g, p)
      ensures b in m'[k].s.used
    {
      HeldIsUsed(m', k, b, v.addresses) by {
        InCover(m'[k].g, b, p);
      }
    }
  }

  lemma InCover(g: Geometry, b: nat, p: Prefix)
    requires g.Valid() && p.Valid() && b in Cover(g, p)
    ensures b < g.Max()
  {
  }

  /** A prefix that is not refused has its set, with the geometry of the ladder if its key is new. */
  lemma AddedKey(m: Sets, cidrs: seq<HostPrefix>, maxPods: nat, h: HostPrefix)
    requires ValidSets(m) && ValidCidrs(cidrs) && AddAll(m, cidrs, maxPods).1
    requires h in cidrs && h.bits != 128 && Ladder(h, maxPods).Ok?
    ensures var g := Ladder(h, maxPods).value;
            var m1 := AddAll(m, cidrs, maxPods).0;
            g.cluster in m1 && (g.cluster !in m ==> m1[g.cluster].g == g)
  {
    hide WellFormed, AddAll, Ladder, NewKey;
    var m1, k := AddAll(m, cidrs, maxPods).0, NewKey(h);
    AddAllKeys(m, cidrs, maxPods);
    LadderKey(h, maxPods);
    assert k in NewKeys(cidrs);
    if k !in m {
      AddAllFresh(m, cidrs, maxPods, k);
      var h' :| h' in cidrs && AsksFor(h', maxPods, m1[k]);
      LadderKey(h', maxPods);
      LadderByKey(h, h', maxPods);
    }
  }

  /** The key determines the node mask. */
  lemma LadderByKey(h: HostPrefix, h': HostPrefix, maxPods: nat)
    requires h.Valid() && h.family == V6 && h'.Valid() && h'.family == V6
    requires Ladder(h, maxPods).Ok? && Ladder(h', maxPods).Ok? && NewKey(h) == NewKey(h')
    ensures Ladder(h, maxPods) == Ladder(h', maxPods)
  {
    hide Pow2, MaskTo;
  }

  /** With disjoint keys, a block around a reserved address is in use. */
  lemma HeldIsUsed(m: Sets, k: Prefix, b: nat, addrs: seq<Addr>)
    requires ValidSets(m) && DisjointKeys(m) && NodeReserved(m, addrs)
    requires k in m && b < m[k].g.Max() && HoldsAddress(m[k].g, b, addrs)
    ensures b in m[k].s.used
  {
    hide WellFormed, NodeAddress, DisjointKeys;
    var a :| a in addrs && NodeAddress(a) && m[k].g.Block(b).Covers(a);
    BlockInside(m[k].g, b);
    ContainsIsCovers(k, a);
    assert Hit(m, k, a);
    var k' :| Protected(m, k', a);
    ContainsIsCovers(k', a);
    OneHit(m, k, k', a);
    BlocksPartitionCluster(m[k].g, a);
  }

  // ----- lists of pod CIDRs

  /** The pod CIDRs one after the other, up to the first failure. */
  ghost predicate PodsOutcome(m: Sets, m': Sets, pods: seq<Prefix>, v: NodeView, ok: bool)
    requires ValidSets(m) && ValidSets(m') && v.Valid() && forall p | p in pods :: p.Valid()
    decreases |pods|
  {
    if pods == [] then m' == m && ok
    else
      var last := |pods| - 1;
      assert pods[last] in pods;
      || (!ok && PodsOutcome(m, m', pods[..last], v, false))
      || exists m1 :: ValidSets(m1) && PodsOutcome(m, m1, pods[..last], v, true) && PodOutcome(m1, m', pods[last], v, ok)
  }

  lemma OccupiedOutcome(m: Sets, m': Sets, p: Prefix, v: NodeView, o: Result<bool, Error>)
    requires ValidSets(m) && ValidSets(m') && p.Valid() && v.Valid() && OccupyOutcome(m, m', p, o)
    ensures Extends(m, m')
    ensures o.Err? || o.value ==> PodOutcome(m, m', p, v, o.Ok?)
    ensures o.Ok? && !o.value ==> m' == m && !Tracks(m, p.First())
  {
    hide WellFormed, Prefix.Contains, Marked, OccupiedSome, OccupiedAs, OccupyAt, DisjointKeys, Narrow, DefineOutcome;
    match o
    case Err(e) =>
      assert Tracks(m, p.First());
    case Ok(found) =>
      if found {
        assert OccupyOutcome(m, m', p, Ok(true));
        assert Tracks(m, p.First());
      } else {
        assert OccupyOutcome(m, m', p, Ok(false));
      }
  }

  lemma DefinedOutcome(m: Sets, m': Sets, p: Prefix, v: NodeView, d: Result<Option<HostPrefix>, Error>)
    requires ValidSets(m) && ValidSets(m') && p.Valid() && v.Valid() && DefineOutcome(m, m', v, d)
    requires !Tracks(m, p.First())
    ensures PodOutcome(m, m', p, v, d.Ok?)
  {
    hide WellFormed, DefineOutcome, OccupyOutcome;
  }

  lemma PodsNone(m: Sets, pods: seq<Prefix>, v: NodeView)
    requires ValidSets(m) && v.Valid()
    ensures PodsOutcome(m, m, pods[..0], v, true)
  {
  }

  lemma PodsOneMore(m: Sets, m1: Sets, m2: Sets, pods: seq<Prefix>, v: NodeView, i: nat, ok: bool)
    requires ValidSets(m) && ValidSets(m1) && ValidSets(m2) && v.Valid() && (forall p | p in pods :: p.Valid())
    requires i < |pods| && PodsOutcome(m, m1, pods[..i], v, true)
    requires pods[i].Valid() && PodOutcome(m1, m2, pods[i], v, ok)
    ensures PodsOutcome(m, m2, pods[..i + 1], v, ok)
  {
    hide WellFormed, PodOutcome, ValidSets;
    assert pods[..i + 1][..i] == pods[..i];
  }

  /** A failure ends the list. */
  lemma {:induction false} PodsStop(m: Sets, m': Sets, pods: seq<Prefix>, v: NodeView, i: nat)
    requires ValidSets(m) && ValidSets(m') && v.Valid() && (forall p | p in pods :: p.Valid())
    requires i <= |pods| && PodsOutcome(m, m', pods[..i], v, false)
    ensures PodsOutcome(m, m', pods, v, false)
    decreases |pods|
  {
    hide WellFormed, PodOutcome, ValidSets;
    if i == |pods| {
      assert pods[..i] == pods;
    } else {
      var last := |pods| - 1;
      assert pods[..last][..i] == pods[..i];
      PodsStop(m, m', pods[..last], v, i);
    }
  }

  /** Sets are only added, and on success every pod CIDR that a set contained at first is marked. */
  lemma {:induction false} PodsMarked(m: Sets, m': Sets, pods: seq<Prefix>, v: NodeView, ok: bool)
    requires ValidSets(m) && ValidSets(m') && v.Valid() && (forall p | p in pods :: p.Valid())
    requires PodsOutcome(m, m', pods, v, ok)
    ensures Extends(m, m') && (ok ==> MarkedUpTo(m, m', pods, |pods|))
    decreases |pods|
  {
    hide WellFormed, PodOutcome, ValidSets, Extends, MarkedUpTo, Tracks, Marked;
    if pods == [] {
      ExtendsRefl(m);
      MarkedNone(m, m', pods);
    } else {
      var last := |pods| - 1;
      assert pods[last] in pods;
      if !ok && PodsOutcome(m, m', pods[..last], v, false) {
        PodsMarked(m, m', pods[..last], v, false);
      } else {
        var m1 :| ValidSets(m1) && PodsOutcome(m, m1, pods[..last], v, true) && PodOutcome(m1, m', pods[last], v, ok);
        PodsMarked(m, m1, pods[..last], v, true);
        PodExtends(m1, m', pods[last], v, ok);
        MarkedPrefix(m, m1, pods, last);
        PodHandled(m, m1, m', pods, last, ok);
      }
    }
  }

  lemma MarkedPrefix(start: Sets, m: Sets, pods: seq<Prefix>, n: nat)
    requires ValidSets(start) && ValidSets(m) && (forall p | p in pods :: p.Valid()) && n <= |pods|
    requires MarkedUpTo(start, m, pods[..n], n)
    ensures MarkedUpTo(start, m, pods, n)
  {
    hide Marked, Tracks, ValidSets;
    assert forall i: nat | i < n :: pods[..n][i] == pods[i];
  }

  lemma PodExtends(m: Sets, m': Sets, p: Prefix, v: NodeView, ok: bool)
    requires ValidSets(m) && ValidSets(m') && p.Valid() && v.Valid() && PodOutcome(m, m', p, v, ok)
    ensures Extends(m, m') && (ok && Tracks(m, p.First()) ==> Marked(m', p))
  {
    hide WellFormed, Marked, DefineOutcome, Tracks, OccupiedSome, OccupiedAs, OccupyAt, DisjointKeys, Narrow, Prefix.Contains;
    if Tracks(m, p.First()) {
      if ok {
        OccupiedIsMarked(m, m', p);
      }
    } else {
      var d :| DefineOutcome(m, m', v, d) && (ok <==> d.Ok?);
      DefinedExtends(m, m', v, d);
    }
  }

  // ----- a node on its own prefix, met with an empty map

  /** A node with one interface, which carries the address h. */
  ghost predicate OneInterface(v: NodeView, h: HostPrefix) {
    && v.Valid() && v.addresses != [] && PublicHost(h)
    && v.ifaces == [Iface("eth0", IfacePrefix(V6, h.addr, h.bits))]
    && (PublicOf(v.addresses) == [] || h.Host() in v.addresses)
  }

  lemma OneDiscovered(v: NodeView, h: HostPrefix)
    requires OneInterface(v, h)
    ensures v.Cidrs() == [h]
  {
    hide Pow2, IsGlobalUnicast, IsPrivate, Discovered;
    var i := v.ifaces[0];
    var filter := PublicOf(v.addresses);
    assert i.address.addr < Pow2(Width(V6));
    assert forall x | x in v.ifaces :: x == i;
    assert AcceptedV6(filter, i);
    assert Accepted(filter, v.ifaces) == {h};
    assert !Swallows(h, h);
    assert Kept({h}) == {h};
    assert Elements([h]) == {h} && Sorted([h]);
    SortedListsAgree(v.Cidrs(), [h]);
  }

  /** From an empty map, the set of the ladder is added. */
  lemma FirstSet(h: HostPrefix, maxPods: nat)
    requires h.Valid() && h.family == V6 && h.bits <= 117
    ensures ValidCidrs([h]) && AddAll(map[], [h], maxPods) == (OneSet(Ladder(h, maxPods).value, 0), true)
  {
    hide Pow2, MaskTo;
    AddAllNothing(map[], [h], maxPods);
    AddAllOneMore(map[], [h], maxPods, 0);
    assert [h][..1] == [h] && [h][..0] == [];
    assert Ladder(h, maxPods).Ok?;
  }

  /** A node that reports no public address is given the first block of the set that is added for
      it, which may well be the block around the address of its interface. */
  lemma UnreportedAddressGiven(v: NodeView, h: HostPrefix)
    requires OneInterface(v, h) && PublicOf(v.addresses) == [] && h.bits <= 117
    ensures var g := Ladder(h, v.MaxPods()).value;
            && g.Valid() && ValidSets(OneSet(g, 0)) && DisjointKeys(OneSet(g, 0))
            && DefineOutcome(map[], OneSet(g, 0), v, Ok(Some(h)))
            && TakeAt(OneSet(g, 0), h.Host()) == Ok(Some(g.Block(0)))
  {
    hide Pow2, MaskTo, Ladder, AddAll, Serves, Discovered, Allocate, NodeOccupied, WellFormed, IsGlobalUnicast,
         IsPrivate;
    FirstGeometry(h, v.MaxPods());
    var g := Ladder(h, v.MaxPods()).value;
    FirstSet(h, v.MaxPods());
    OneDiscovered(v, h);
    OneSetValid(g, 0);
    NothingToOccupy(OneSet(g, 0), v.addresses);
    TakenAtCursor(OneSet(g, 0), g, 0, h.Host());
  }

  lemma FirstGeometry(h: HostPrefix, maxPods: nat)
    requires h.Valid() && h.family == V6 && h.bits <= 117
    ensures Ladder(h, maxPods).Ok?
    ensures var g := Ladder(h, maxPods).value; g.Valid() && g.cluster.Covers(h.Host()) && g.Max() >= 2
  {
    hide Pow2, MaskTo;
    LadderSizes(h, maxPods);
    var g := Ladder(h, maxPods).value;
    OneBelow(g.nodeMask - g.cluster.len);
  }

  /** A set that is alone in the map and has its first free block at b gives that block. */
  lemma TakenAtCursor(m: Sets, g: Geometry, b: nat, ip: Addr)
    requires ValidSets(m) && m.Keys == {g.cluster} && m[g.cluster].g == g && g.cluster.Covers(ip)
    requires FirstFree(g, m[g.cluster].s, b)
    ensures TakeAt(m, ip) == Ok(Some(g.Block(b)))
  {
    hide Allocate, Pow2, FirstFree;
    ContainsIsCovers(g.cluster, ip);
    assert Hit(m, g.cluster, ip);
    AllocateFirstFree(g, m[g.cluster].s, b);
    FoundIsTaken(m, g.cluster, ip);
  }

  /** The map after a node on its own prefix was met: its first block is in use. */
  ghost function AfterFirst(g: Geometry): Sets {
    map[g.cluster := Tracked(g, State({0}, 0))]
  }

  /** After a restart with an empty map, the pod CIDR of a node on its own prefix is not marked: the
      set is added for the node, but the pod CIDR is not tried again. The next node on that prefix
      is given the same pod CIDR. */
  lemma RestartHandsOut(v: NodeView, h: HostPrefix, g: Geometry)
    requires OneInterface(v, h) && v.addresses == [h.Host()] && h.bits <= 117 && g == Ladder(h, v.MaxPods()).value
    requires g.Valid() ==> g.Block(0).Covers(h.Host())
    ensures g.Valid() && g.Block(1).Valid() && ValidSets(AfterFirst(g)) && DisjointKeys(AfterFirst(g))
    ensures PodOutcome(map[], AfterFirst(g), g.Block(1), v, true) && !Marked(AfterFirst(g), g.Block(1))
    ensures TakeAt(AfterFirst(g), h.Host()) == Ok(Some(g.Block(1)))
  {
    hide Pow2, MaskTo, Ladder, AddAll, Serves, Discovered, Allocate, NodeOccupied, WellFormed, IsGlobalUnicast,
         IsPrivate, Cover;
    FirstGeometry(h, v.MaxPods());
    FirstSet(h, v.MaxPods());
    OneDiscovered(v, h);
    AfterFirstValid(g);
    FirstOccupied(g, h.Host(), v.addresses);
    BlockInside(g, 1);
    CoverOfBlock(g, 1);
    assert DefineOutcome(map[], AfterFirst(g), v, Ok(Some(h)));
    TakenAtCursor(AfterFirst(g), g, 1, h.Host());
  }

  lemma AfterFirstValid(g: Geometry)
    requires g.Valid()
    ensures ValidSets(AfterFirst(g)) && DisjointKeys(AfterFirst(g)) && ValidSets(OneSet(g, 0))
  {
  }

  lemma FirstOccupied(g: Geometry, a: Addr, addrs: seq<Addr>)
    requires g.Valid() && g.Block(0).Covers(a) && NodeAddress(a) && addrs == [a]
    ensures ValidSets(OneSet(g, 0)) && ValidSets(AfterFirst(g)) && NodeOccupied(OneSet(g, 0), AfterFirst(g), addrs)
  {
    hide IsPrivate, Pow2;
    BlockInside(g, 0);
    BlocksPartitionCluster(g, a);
    assert Protected(AfterFirst(g), g.cluster, a);
    assert a in addrs;
    assert HoldsAddress(g, 0, addrs);
  }

  /** 2000::1 lies in the first block of 2000::/64. */
  lemma FirstBlock(h: HostPrefix, maxPods: nat, e: nat)
    requires e == 118 && h == HostPrefix(V6, Pow2(e + 7) + 1, 64)
    ensures PublicHost(h)
    ensures var g := Ladder(h, maxPods).value;
            g == Geometry(Prefix(V6, Pow2(e + 7), 64), 80) && g.Valid() && g.Block(0).Covers(h.Host())
  {
    hide Pow2, MaskTo, IsGlobalUnicast, IsPrivate;
    OneBelow(48);
    OneBelow(64);
    OneBelow(e);
    PublicAbove(1, 64, e);
    MaskedBase(h, 1, 64, e);
    LadderSizes(h, maxPods);
  }

  function NodeWith(reported: Addr, h: HostPrefix): NodeView {
    NodeView([reported], [Iface("eth0", IfacePrefix(V6, h.addr, h.bits))], None, None)
  }

  /** A node that reports 10.0.0.1 only and has 2000::1/64 on its interface is given 2000::/80. */
  lemma OwnInterfaceExample(h: HostPrefix, v: NodeView, e: nat)
    requires e == 118 && h == HostPrefix(V6, Pow2(e + 7) + 1, 64) && v == NodeWith(Addr(V4, 0x0a00_0001), h)
    ensures v.Valid() && v.Cidrs() == [h]
    ensures var g := Geometry(Prefix(V6, Pow2(e + 7), 64), 80);
            && g.Valid() && ValidSets(OneSet(g, 0)) && DisjointKeys(OneSet(g, 0))
            && DefineOutcome(map[], OneSet(g, 0), v, Ok(Some(h)))
            && TakeAt(OneSet(g, 0), h.Host()) == Ok(Some(g.Block(0))) && g.Block(0).Covers(h.Host())
  {
    hide Pow2, MaskTo, Ladder, IsGlobalUnicast, IsPrivate, Discovered, DefineOutcome, TakeAt;
    FirstBlock(h, v.MaxPods(), e);
    V4Bound(32);
    OneDiscovered(v, h);
    UnreportedAddressGiven(v, h);
  }

  lemma V4Bound(w: nat)
    requires w == 32
    ensures 0x0a00_0001 < Pow2(w)
  {
    assert Pow2(8) == 256;
    assert Pow2(16) == 65536;
    Pow2Add(16, 16);
  }

  /** With no set tracked, a node 2000::1/64 that has the pod CIDR 2000:0:0:0:1::/80 gets its set,
      but not its mark, and the next node on that prefix is given the same pod CIDR. */
  lemma RestartExample(h: HostPrefix, v: NodeView, e: nat)
    requires e == 118 && h == HostPrefix(V6, Pow2(e + 7) + 1, 64) && v == NodeWith(h.Host(), h)
    ensures v.Valid()
    ensures var g := Geometry(Prefix(V6, Pow2(e + 7), 64), 80);
            && g.Valid() && g.Block(1).Valid() && ValidSets(AfterFirst(g)) && DisjointKeys(AfterFirst(g))
            && PodOutcome(map[], AfterFirst(g), g.Block(1), v, true) && !Marked(AfterFirst(g), g.Block(1))
            && TakeAt(AfterFirst(g), h.Host()) == Ok(Some(g.Block(1)))
  {
    hide Pow2, MaskTo, Ladder, IsGlobalUnicast, IsPrivate, PodOutcome, TakeAt, Marked;
    FirstBlock(h, v.MaxPods(), e);
    FirstGeometry(h, v.MaxPods());
    RestartHandsOut(v, h, Ladder(h, v.MaxPods()).value);
  }
}
