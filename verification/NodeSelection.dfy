/** Which prefix serves a node, and what the allocator's two promises about a node come to: its
    pod CIDRs are marked, and it is never given a block around one of its own addresses. */
module NodeSelection {
  import opened Common
  import opened Bits
  import opened Prefixes
  import opened Geometry
  import opened SetState
  import opened CloudSpec
  import opened MaskLadder
  import opened Discovery
  import opened KeyGuard

  /** The public IPv6 addresses of a list, in order. */
  function PublicOf(addrs: seq<Addr>): (r: seq<Addr>)
    ensures forall a :: a in r <==> a in addrs && NodeAddress(a)
  {
    if addrs == [] then []
    else
      var last := |addrs| - 1;
      assert addrs == addrs[..last] + [addrs[last]];
      PublicOf(addrs[..last]) + (if NodeAddress(addrs[last]) then [addrs[last]] else [])
  }

  /** What the allocator knows of a node: the addresses it reports, its interfaces and its
      reported pod quantities. */
  datatype NodeView = NodeView(addresses: seq<Addr>, ifaces: seq<Iface>,
                               allocatable: Option<int>, capacity: Option<int>) {
    predicate Valid() {
      ValidIfaces(ifaces) && forall a | a in addresses :: a.Valid()
    }

    /** Discovery looks at the public addresses that the node reports, or at all if there are none. */
    ghost function Cidrs(): (cidrs: seq<HostPrefix>)
      requires Valid()
      ensures ValidCidrs(cidrs) && Discovered(cidrs)
    {
      var cidrs := Listed(PublicOf(addresses), ifaces);
      DiscoveryIsDiscovered(PublicOf(addresses), ifaces, cidrs);
      cidrs
    }

    function MaxPods(): nat {
      NodeMaxPods(allocatable, capacity)
    }
  }

  ghost predicate Served(m: Sets, cidrs: seq<HostPrefix>) {
    exists k :: k in m && Serves(k, cidrs)
  }

  /** The outcome of choosing the prefix that serves a node. A node without addresses is refused.
      Without discovered prefixes nothing happens. A tracked prefix that serves them is taken, and
      no set is added. Else the sets are added, and the first prefix is taken. On success the
      node's own addresses are occupied. */
  ghost predicate DefineOutcome(m: Sets, m': Sets, v: NodeView, r: Result<Option<HostPrefix>, Error>)
    requires ValidSets(m) && ValidSets(m') && v.Valid()
  {
    if v.addresses == [] then r.Err? && m' == m
    else if v.Cidrs() == [] then r == Ok(None) && m' == m
    else if Served(m, v.Cidrs()) then
      && (exists k :: k in m && Serves(k, v.Cidrs()) && r == Ok(Some(HostPrefix(k.family, k.base, k.len))))
      && NodeOccupied(m, m', v.addresses)
    else
      var (m1, ok) := AddAll(m, v.Cidrs(), v.MaxPods());
      if !ok then r.Err? && m' == m1
      else r == Ok(Some(v.Cidrs()[0])) && NodeOccupied(m1, m', v.addresses)
  }

  lemma OccupiedSame(m: Sets, m': Sets, addrs: seq<Addr>)
    requires ValidSets(m) && ValidSets(m') && NodeOccupied(m, m', PublicOf(addrs))
    ensures NodeOccupied(m, m', addrs)
  {
    hide WellFormed, NodeAddress, Reserved, Hit;
    assert forall a | a in addrs && NodeAddress(a) :: a in PublicOf(addrs);
    forall k, b: nat | k in m && b in m'[k].s.used && b !in m[k].s.used
      ensures HoldsAddress(m[k].g, b, addrs)
    {
      assert HoldsAddress(m[k].g, b, PublicOf(addrs));
    }
  }

  lemma NothingSelected(m: Sets, v: NodeView, e: Error)
    requires ValidSets(m) && v.Valid()
    ensures v.addresses == [] ==> DefineOutcome(m, m, v, Err(e))
    ensures v.addresses != [] && v.Cidrs() == [] ==> DefineOutcome(m, m, v, Ok(None))
  {
    hide WellFormed, Discovered;
  }

  lemma ServedOutcome(m: Sets, m': Sets, v: NodeView, k: Prefix)
    requires ValidSets(m) && ValidSets(m') && v.Valid() && v.addresses != [] && v.Cidrs() != []
    requires k in m && Serves(k, v.Cidrs()) && NodeOccupied(m, m', PublicOf(v.addresses))
    ensures DefineOutcome(m, m', v, Ok(Some(HostPrefix(k.family, k.base, k.len))))
  {
    hide WellFormed, NodeOccupied, Serves, Discovered, AddAll;
    OccupiedSame(m, m', v.addresses);
  }

  lemma RefusedOutcome(m: Sets, v: NodeView, e: Error)
    requires ValidSets(m) && v.Valid() && v.addresses != [] && v.Cidrs() != []
    requires (forall k | k in m :: !Serves(k, v.Cidrs())) && !AddAll(m, v.Cidrs(), v.MaxPods()).1
    ensures DefineOutcome(m, AddAll(m, v.Cidrs(), v.MaxPods()).0, v, Err(e))
  {
    hide WellFormed, NodeOccupied, Serves, Discovered, AddAll;
  }

  lemma AddedOutcome(m: Sets, m1: Sets, m': Sets, v: NodeView)
    requires ValidSets(m) && ValidSets(m1) && ValidSets(m') && v.Valid() && v.addresses != [] && v.Cidrs() != []
    requires forall k | k in m :: !Serves(k, v.Cidrs())
    requires AddAll(m, v.Cidrs(), v.MaxPods()) == (m1, true) && NodeOccupied(m1, m', PublicOf(v.addresses))
    ensures DefineOutcome(m, m', v, Ok(Some(v.Cidrs()[0])))
  {
    hide WellFormed, NodeOccupied, Serves, Discovered, AddAll;
    OccupiedSame(m1, m', v.addresses);
  }

  /** Sets are only added, and none loses a used block. */
  lemma DefinedExtends(m: Sets, m': Sets, v: NodeView, r: Result<Option<HostPrefix>, Error>)
    requires ValidSets(m) && ValidSets(m') && v.Valid() && DefineOutcome(m, m', v, r)
    ensures Extends(m, m')
  {
    hide WellFormed, AddAll, NodeReserved, Serves, HoldsAddress, Discovered;
    AddAllKeys(m, v.Cidrs(), v.MaxPods());
  }

  /** The prefix that was chosen lies in a tracked set, unless none served and the first
      discovered one is a single address. */
  lemma DefinedIsTracked(m: Sets, m': Sets, v: NodeView, r: Result<Option<HostPrefix>, Error>)
    requires ValidSets(m) && ValidSets(m') && v.Valid() && DefineOutcome(m, m', v, r) && r.Ok?
    requires v.Cidrs() != [] && (Served(m, v.Cidrs()) || v.Cidrs()[0].bits != 128)
    ensures r.value.Some? && Tracks(m', r.value.value.Host())
  {
    hide WellFormed, AddAll, NodeReserved, Serves, NewKey, HoldsAddress, Discovered;
    if Served(m, v.Cidrs()) {
      var k :| k in m && Serves(k, v.Cidrs()) && r == Ok(Some(HostPrefix(k.family, k.base, k.len)));
      KeyTracks(m', k);
    } else {
      var h := v.Cidrs()[0];
      assert h in v.Cidrs();
      AddAllKeys(m, v.Cidrs(), v.MaxPods());
      NewKeyInside(h);
      assert NewKey(h) in NewKeys(v.Cidrs());
      ContainsIsCovers(NewKey(h), h.Host());
      assert Hit(m', NewKey(h), h.Host());
    }
  }

  /** The keys stay disjoint, on success and on failure, if and only if the node was refused, a
      tracked prefix served it, or none escapes the guard. */
  lemma DefinedKeysDisjoint(m: Sets, m': Sets, v: NodeView, r: Result<Option<HostPrefix>, Error>)
    requires ValidSets(m) && ValidSets(m') && v.Valid() && DefineOutcome(m, m', v, r) && DisjointKeys(m)
    ensures DisjointKeys(m') <==> KeepsKeys(m, v)
  {
    hide WellFormed, AddAll, NodeReserved, Serves, SomeEscape, HoldsAddress, Discovered, DisjointKeys, Taken;
    if v.addresses == [] || v.Cidrs() == [] {
    } else if Served(m, v.Cidrs()) {
      ShapeKeeps(m, m');
    } else {
      GuardedKeysDisjoint(m, v.Cidrs(), v.MaxPods());
      ShapeKeeps(AddAll(m, v.Cidrs(), v.MaxPods()).0, m');
    }
  }

  ghost predicate KeepsKeys(m: Sets, v: NodeView)
    requires ValidSets(m) && v.Valid()
  {
    || v.addresses == [] || v.Cidrs() == [] || Served(m, v.Cidrs())
    || !SomeEscape(m, Taken(v.Cidrs(), v.MaxPods()))
  }

  /** A node with one discovered prefix of /118 to /123 that nothing tracked serves gets its set if and
      only if its pods fit the room that the length leaves. The pods are the allocatable ones if that
      is a positive number, whatever the capacity; else the capacity if positive; else 110. */
  lemma PodCountDecides(m: Sets, m': Sets, v: NodeView, r: Result<Option<HostPrefix>, Error>, h: HostPrefix)
    requires ValidSets(m) && ValidSets(m') && v.Valid() && DefineOutcome(m, m', v, r) && v.addresses != []
    requires v.Cidrs() == [h] && h.Valid() && 118 <= h.bits <= 123 && !Served(m, [h])
    ensures h.Masked() !in m
    ensures v.allocatable.Some? && v.allocatable.value > 0 ==>
              (h.Masked() in m' <==> v.allocatable.value <= Room(h.bits))
    ensures !(v.allocatable.Some? && v.allocatable.value > 0) && v.capacity.Some? && v.capacity.value > 0 ==>
              (h.Masked() in m' <==> v.capacity.value <= Room(h.bits))
    ensures !(v.allocatable.Some? && v.allocatable.value > 0) && !(v.capacity.Some? && v.capacity.value > 0) ==>
              (h.Masked() in m' <==> 110 <= Room(h.bits))
    ensures r.Ok? <==> h.Masked() in m'
  {
    hide WellFormed, AddAll, NodeReserved, HoldsAddress, Pow2, MaskTo, IsGlobalUnicast, IsPrivate, Swallows, Room;
    assert h in v.Cidrs() && PublicHost(h);
    UnservedKey(m, h);
    OneAdded(m, h, v.MaxPods());
    PodsFitPerPrefix(h, v.MaxPods());
    LadderAtEnd(h, v.MaxPods());
  }

  /** The key of a public prefix that nothing serves is not tracked. */
  lemma UnservedKey(m: Sets, h: HostPrefix)
    requires ValidSets(m) && PublicHost(h) && h.bits >= 7 && !Served(m, [h])
    ensures h.Masked() !in m
  {
    hide WellFormed, Pow2, MaskTo, IsGlobalUnicast, IsPrivate;
    var k := h.Masked();
    MaskedValid(h);
    ContainsIsCovers(k, k.First());
    assert [h][0].Valid() && k.Contains([h][0].Masked().First());
    if IsPrivate(k.First()) {
      PrivateKey(k, h.Host());
    }
    assert Serves(k, [h]);
  }

  lemma OneAdded(m: Sets, h: HostPrefix, maxPods: nat)
    requires ValidSets(m) && h.Valid() && h.family == V6 && h.bits != 128
    ensures ValidCidrs([h])
    ensures AddAll(m, [h], maxPods) ==
            if Ladder(h, maxPods).Ok? then (WithSet(m, Ladder(h, maxPods).value), true) else (m, false)
  {
    hide WellFormed, Ladder, WithSet;
    AddAllNothing(m, [h], maxPods);
    AddAllOneMore(m, [h], maxPods, 0);
    assert [h][..1] == [h] && [h][..0] == [];
  }

  lemma LadderAtEnd(h: HostPrefix, maxPods: nat)
    requires h.Valid() && h.family == V6 && h.bits >= 64
    ensures Ladder(h, maxPods).Ok? ==> Ladder(h, maxPods).value.cluster == h.Masked()
    ensures h.bits > 117 ==> PodsFit(h, maxPods)
  {
    hide Pow2, MaskTo;
  }

  // ----- a node's own addresses

  /** The address whose set serves each cluster CIDR: IPv6 entries follow the node's own prefix. */
  function Targets(clusters: seq<Prefix>, global: Option<HostPrefix>): (ips: seq<Addr>)
    ensures |ips| == |clusters|
  {
    if clusters == [] then []
    else
      var last := |clusters| - 1;
      var ip := if clusters[last].family == V6 && global.Some? then global.value.Host() else clusters[last].First();
      Targets(clusters[..last], global) + [ip]
  }

  lemma {:induction false} TargetAt(clusters: seq<Prefix>, global: Option<HostPrefix>, i: nat)
    requires i < |clusters|
    ensures Targets(clusters, global)[i] ==
            if clusters[i].family == V6 && global.Some? then global.value.Host() else clusters[i].First()
  {
    var last := |clusters| - 1;
    if i < last {
      TargetAt(clusters[..last], global, i);
    }
  }

  /** From m, the selection for the node leads to m' with disjoint keys, and the reservation that
      follows for some cluster CIDRs proposes these blocks. */
  ghost predicate Proposes(v: NodeView, m: Sets, m': Sets, global: Option<HostPrefix>, clusters: seq<Prefix>,
                           got: seq<Option<Prefix>>)
    requires v.Valid()
  {
    && ValidSets(m) && ValidSets(m') && DisjointKeys(m') && DefineOutcome(m, m', v, Ok(global))
    && got == ReserveAll(m', Targets(clusters, global)).1
  }

  ghost predicate MayPropose(v: NodeView, got: seq<Option<Prefix>>)
    requires v.Valid()
  {
    exists m, m', global, clusters :: Proposes(v, m, m', global, clusters, got)
  }

  /** The addresses of the discovered prefixes. */
  ghost function Hosts(cidrs: seq<HostPrefix>): (r: seq<Addr>)
    ensures |r| == |cidrs| && forall i | 0 <= i < |r| :: r[i] == cidrs[i].Host()
  {
    seq(|cidrs|, i requires 0 <= i < |cidrs| => cidrs[i].Host())
  }

  /** If discovery found prefixes, no proposed block contains an address that the node reports. */
  lemma OwnAddresses(m: Sets, m': Sets, v: NodeView, global: Option<HostPrefix>, ips: seq<Addr>)
    requires ValidSets(m) && ValidSets(m') && v.Valid() && DefineOutcome(m, m', v, Ok(global)) && DisjointKeys(m')
    ensures v.Cidrs() != [] ==> NoneCovers(ReserveAll(m', ips).1, v.addresses)
    ensures v.Cidrs() != [] && (exists a :: a in v.addresses && NodeAddress(a)) ==>
              NoneCovers(ReserveAll(m', ips).1, Hosts(v.Cidrs()))
  {
    hide WellFormed, AddAll, NodeReserved, Serves, DisjointKeys, Discovered, ReserveAll, NodeAddress, HoldsAddress;
    if v.Cidrs() != [] {
      OwnAddressNeverGiven(m', v.addresses, ips);
      if a :| a in v.addresses && NodeAddress(a) {
        assert a in PublicOf(v.addresses);
        forall x | x in Hosts(v.Cidrs())
          ensures x in v.addresses
        {
          HostsReported(v, x);
        }
      }
    }
  }

  /** The same with a condition on the state before. */
  lemma OwnAddressesKept(m: Sets, m': Sets, v: NodeView, global: Option<HostPrefix>, ips: seq<Addr>)
    requires ValidSets(m) && ValidSets(m') && v.Valid() && DefineOutcome(m, m', v, Ok(global))
    ensures DisjointKeys(m) && KeepsKeys(m, v) ==> DisjointKeys(m')
    ensures DisjointKeys(m) && KeepsKeys(m, v) && v.Cidrs() != [] ==>
              && NoneCovers(ReserveAll(m', ips).1, v.addresses)
              && (PublicOf(v.addresses) != [] ==> NoneCovers(ReserveAll(m', ips).1, Hosts(v.Cidrs())))
  {
    hide WellFormed, DefineOutcome, KeepsKeys, DisjointKeys, Discovered, ReserveAll, NodeAddress, NoneCovers;
    if DisjointKeys(m) && KeepsKeys(m, v) {
      DefinedKeysDisjoint(m, m', v, Ok(global));
      OwnAddresses(m, m', v, global, ips);
      if PublicOf(v.addresses) != [] {
        assert PublicOf(v.addresses)[0] in PublicOf(v.addresses);
      }
    }
  }

  /** With a filter, every discovered address is a reported one. */
  lemma HostsReported(v: NodeView, x: Addr)
    requires v.Valid() && PublicOf(v.addresses) != [] && x in Hosts(v.Cidrs())
    ensures x in v.addresses
  {
    hide Pow2, SkippedLink, IsGlobalUnicast, IsPrivate, Discovered, Swallows;
    var i :| 0 <= i < |v.Cidrs()| && x == v.Cidrs()[i].Host();
    assert v.Cidrs()[i] in Elements(Listed(PublicOf(v.addresses), v.ifaces));
  }

  /** Whatever the set, a cursor that stands on the block around an address hands that block out,
      and the selection does nothing about it when there are no discovered prefixes, or when the
      set serves a node that reports no public address. */
  lemma OwnBlockGiven(g: Geometry, v: NodeView, a: Addr)
    requires g.Valid() && g.cluster.family == V6 && g.cluster.Covers(a) && v.Valid() && v.addresses != []
    requires v.Cidrs() == [] || (PublicOf(v.addresses) == [] && Serves(g.cluster, v.Cidrs()))
    ensures MayPropose(v, [Some(g.Block(IndexOf(g, a)))]) && g.Block(IndexOf(g, a)).Covers(a)
  {
    hide Allocate, WellFormed, Serves, Discovered, Pow2, IsPrivate;
    var m, b := OneSet(g, IndexOf(g, a)), IndexOf(g, a);
    BlocksPartitionCluster(g, a);
    OneSetValid(g, b);
    var global := if v.Cidrs() == [] then None else Some(HostPrefix(V6, g.cluster.base, g.cluster.len));
    if v.Cidrs() != [] {
      assert g.cluster in m;
      NothingToOccupy(m, v.addresses);
    }
    assert DefineOutcome(m, m, v, Ok(global));
    OneTarget(g.cluster, global);
    GivenAtCursor(g, b);
    assert Proposes(v, m, m, global, [g.cluster], [Some(g.Block(b))]);
  }

  lemma OneSetValid(g: Geometry, b: nat)
    requires g.Valid() && b < g.Max()
    ensures ValidSets(OneSet(g, b)) && DisjointKeys(OneSet(g, b))
  {
  }

  lemma OneTarget(k: Prefix, global: Option<HostPrefix>)
    requires k.family == V6 && (global.Some? ==> global.value.Host() == k.First())
    ensures Targets([k], global) == [k.First()]
  {
    TargetAt([k], global, 0);
  }

  lemma NothingToOccupy(m: Sets, addrs: seq<Addr>)
    requires ValidSets(m) && PublicOf(addrs) == []
    ensures NodeOccupied(m, m, addrs)
  {
    hide WellFormed, NodeAddress;
    assert forall a | a in addrs && NodeAddress(a) :: a in PublicOf(addrs);
  }

  /** A reservation from a single unused set takes the block at the cursor. */
  lemma GivenAtCursor(g: Geometry, b: nat)
    requires g.Valid() && b < g.Max()
    ensures ValidSets(OneSet(g, b)) && DisjointKeys(OneSet(g, b))
    ensures ReserveAll(OneSet(g, b), [g.cluster.First()]).1 == [Some(g.Block(b))]
  {
    hide Allocate, Pow2;
    var m, ip := OneSet(g, b), g.cluster.First();
    ContainsIsCovers(g.cluster, ip);
    assert Hit(m, g.cluster, ip);
    AllocateFirstFree(g, State({}, b), b);
    FoundIsTaken(m, g.cluster, ip);
    ReserveNothing(m, [ip]);
    ReserveOneMore(m, [ip], 0);
    assert [ip][..1] == [ip];
  }

  /** An address that the node reports is in no proposed block, from any state, if and only if
      discovery found a prefix or the node reports no public IPv6 address. */
  lemma OwnAddressesExactly(v: NodeView)
    requires v.Valid() && v.addresses != []
    ensures (forall got | MayPropose(v, got) :: NoneCovers(got, v.addresses)) <==>
            v.Cidrs() != [] || PublicOf(v.addresses) == []
  {
    hide WellFormed, Discovered, DisjointKeys, DefineOutcome, ReserveAll, NodeAddress, Pow2;
    if v.Cidrs() != [] {
      forall got | MayPropose(v, got)
        ensures NoneCovers(got, v.addresses)
      {
        var m, m', global, clusters :| Proposes(v, m, m', global, clusters, got);
        OwnAddresses(m, m', v, global, Targets(clusters, global));
      }
    } else if PublicOf(v.addresses) != [] {
      var a := PublicOf(v.addresses)[0];
      assert a in PublicOf(v.addresses);
      var g := AroundAddress(a);
      OwnBlockGiven(g, v, a);
      assert Some(g.Block(IndexOf(g, a))) in [Some(g.Block(IndexOf(g, a)))];
    } else {
      assert forall a | a in v.addresses && NodeAddress(a) :: a in PublicOf(v.addresses);
    }
  }

  /** The /64 around an address, cut into /80 blocks. */
  lemma AroundAddress(a: Addr) returns (g: Geometry)
    requires a.Valid() && NodeAddress(a)
    ensures g.Valid() && g.cluster.family == V6 && g.cluster.Covers(a)
  {
    hide Pow2, MaskTo;
    MaskedValid(HostPrefix(V6, a.value, 64));
    g := Geometry(HostPrefix(V6, a.value, 64).Masked(), 80);
  }

  /** The address of a discovered prefix is in no proposed block, from any state, if and only if
      the node reports a public IPv6 address. */
  lemma OwnHostsExactly(v: NodeView)
    requires v.Valid() && v.addresses != [] && v.Cidrs() != []
    ensures (forall got | MayPropose(v, got) :: NoneCovers(got, Hosts(v.Cidrs()))) <==> PublicOf(v.addresses) != []
  {
    hide WellFormed, Discovered, DisjointKeys, DefineOutcome, ReserveAll, NodeAddress, Pow2, Serves;
    if PublicOf(v.addresses) != [] {
      assert PublicOf(v.addresses)[0] in PublicOf(v.addresses);
      forall got | MayPropose(v, got)
        ensures NoneCovers(got, Hosts(v.Cidrs()))
      {
        var m, m', global, clusters :| Proposes(v, m, m', global, clusters, got);
        OwnAddresses(m, m', v, global, Targets(clusters, global));
      }
    } else {
      var g := EverythingServes(v);
      var a := Hosts(v.Cidrs())[0];
      OwnBlockGiven(g, v, a);
      assert Some(g.Block(IndexOf(g, a))) in [Some(g.Block(IndexOf(g, a)))];
      assert a in Hosts(v.Cidrs());
    }
  }

  /** ::/0 serves every node, and contains its addresses. */
  lemma EverythingServes(v: NodeView) returns (g: Geometry)
    requires v.Valid() && v.Cidrs() != []
    ensures g.Valid() && g.cluster.family == V6 && Serves(g.cluster, v.Cidrs())
    ensures var a := Hosts(v.Cidrs())[0]; g.cluster.Covers(a) && NodeAddress(a)
  {
    hide Pow2, MaskTo, IsGlobalUnicast, Shr;
    var h := v.Cidrs()[0];
    assert h in v.Cidrs() && PublicHost(h);
    g := Geometry(Prefix(V6, 0, 0), 16);
    WholeSpace(121);
    MaskedValid(h);
    EndBound(h.Masked());
    ContainsIsCovers(g.cluster, h.Masked().First());
    assert Meets(g.cluster, v.Cidrs());
  }

  lemma WholeSpace(e: nat)
    ensures Prefix(V6, 0, 0).Valid() && Shr(0, e) == 0
  {
    Pow2Mono(0, 128);
    DivModUnique(0, Pow2(128), 0, 0);
    DivModUnique(0, Pow2(e), 0, 0);
  }
}
