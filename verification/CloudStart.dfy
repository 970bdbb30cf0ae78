/** What the cloud allocator's constructor leaves behind: the sets of the cluster CIDRs, filtered by
    the service ranges, after the pod CIDRs of the listed nodes were gone through. */
module CloudStart {
  import opened Common
  import opened Prefixes
  import opened Geometry
  import opened SetState
  import opened CloudSpec
  import opened NodeSelection
  import opened PodMarking
  import opened ServiceFilter
  import opened CloudProtocol
  import opened CloudSafety
  import RP = RangeProtocol

  datatype ListedNode = ListedNode(pods: seq<Prefix>, view: NodeView) {
    predicate Valid() {
      view.Valid() && forall p | p in pods :: p.Valid()
    }
  }

  /** The service ranges one after the other. */
  ghost predicate FilteredAll(m: Sets, m': Sets, ranges: seq<Prefix>)
    requires ValidSets(m) && forall p | p in ranges :: p.Valid()
    decreases |ranges|
  {
    if ranges == [] then m' == m
    else
      var last := |ranges| - 1;
      assert ranges[last] in ranges;
      exists m1 :: ValidSets(m1) && FilteredAll(m, m1, ranges[..last]) && FilterOutcome(m1, m', ranges[last])
  }

  /** One listed node: only lists of one or two pod CIDRs are looked at. */
  ghost predicate NodeOutcome(m: Sets, m': Sets, node: ListedNode, ok: bool)
    requires ValidSets(m) && ValidSets(m') && node.Valid()
  {
    if 0 < |node.pods| <= 2 then PodsOutcome(m, m', node.pods, node.view, ok) else m' == m && ok
  }

  /** The listed nodes one after the other, all accepted. */
  ghost predicate NodesOutcome(m: Sets, m': Sets, nodes: seq<ListedNode>)
    requires ValidSets(m) && ValidSets(m') && forall n | n in nodes :: n.Valid()
    decreases |nodes|
  {
    if nodes == [] then m' == m
    else
      var last := |nodes| - 1;
      assert nodes[last] in nodes;
      exists m1 :: ValidSets(m1) && NodesOutcome(m, m1, nodes[..last]) && NodeOutcome(m1, m', nodes[last], true)
  }

  /** From empty sets to the sets the constructor returns. */
  ghost predicate Constructed(m: Sets, m': Sets, ranges: seq<Prefix>, nodes: seq<ListedNode>)
    requires ValidSets(m) && ValidSets(m') && (forall p | p in ranges :: p.Valid()) && forall n | n in nodes :: n.Valid()
  {
    exists m1 :: ValidSets(m1) && FilteredAll(m, m1, ranges) && NodesOutcome(m1, m', nodes)
  }

  /** The node at position i is refused, after the service ranges and all nodes before it. */
  ghost predicate RefusedAt(m: Sets, m1: Sets, m2: Sets, m3: Sets, ranges: seq<Prefix>, nodes: seq<ListedNode>, i: nat)
    requires ValidSets(m) && (forall p | p in ranges :: p.Valid()) && forall n | n in nodes :: n.Valid()
  {
    && i < |nodes| && ValidSets(m1) && ValidSets(m2) && ValidSets(m3) && nodes[i] in nodes
    && FilteredAll(m, m1, ranges) && NodesOutcome(m1, m2, nodes[..i]) && NodeOutcome(m2, m3, nodes[i], false)
  }

  /** Some listed node is refused. */
  ghost predicate RefusesSome(m: Sets, ranges: seq<Prefix>, nodes: seq<ListedNode>)
    requires ValidSets(m) && (forall p | p in ranges :: p.Valid()) && forall n | n in nodes :: n.Valid()
  {
    exists m1, m2, m3, i: nat :: RefusedAt(m, m1, m2, m3, ranges, nodes, i)
  }

  // ----- how the loops follow

  lemma FilteredOneMore(m: Sets, m1: Sets, m2: Sets, ranges: seq<Prefix>, i: nat)
    requires ValidSets(m) && ValidSets(m1) && (forall p | p in ranges :: p.Valid()) && i < |ranges| && ranges[i].Valid()
    requires FilteredAll(m, m1, ranges[..i]) && FilterOutcome(m1, m2, ranges[i])
    ensures FilteredAll(m, m2, ranges[..i + 1])
  {
    hide FilterOutcome, ValidSets;
    assert ranges[..i + 1][..i] == ranges[..i];
  }

  lemma NodesOneMore(m: Sets, m1: Sets, m2: Sets, nodes: seq<ListedNode>, i: nat)
    requires ValidSets(m) && ValidSets(m1) && ValidSets(m2) && (forall n | n in nodes :: n.Valid()) && i < |nodes|
    requires nodes[i].Valid() && NodesOutcome(m, m1, nodes[..i]) && NodeOutcome(m1, m2, nodes[i], true)
    ensures NodesOutcome(m, m2, nodes[..i + 1])
  {
    hide NodeOutcome, ValidSets;
    assert nodes[..i + 1][..i] == nodes[..i];
  }

  lemma RefusedBy(m: Sets, m1: Sets, m2: Sets, m3: Sets, ranges: seq<Prefix>, nodes: seq<ListedNode>, i: nat)
    requires ValidSets(m) && ValidSets(m1) && ValidSets(m2) && ValidSets(m3)
    requires (forall p | p in ranges :: p.Valid()) && (forall n | n in nodes :: n.Valid()) && i < |nodes|
    requires FilteredAll(m, m1, ranges) && NodesOutcome(m1, m2, nodes[..i]) && nodes[i].Valid()
    requires NodeOutcome(m2, m3, nodes[i], false)
    ensures RefusesSome(m, ranges, nodes)
  {
    hide FilteredAll, NodesOutcome, NodeOutcome, ValidSets;
    assert RefusedAt(m, m1, m2, m3, ranges, nodes, i);
  }

  lemma ConstructedBy(m: Sets, m1: Sets, m': Sets, ranges: seq<Prefix>, nodes: seq<ListedNode>)
    requires ValidSets(m) && ValidSets(m1) && ValidSets(m')
    requires (forall p | p in ranges :: p.Valid()) && forall n | n in nodes :: n.Valid()
    requires FilteredAll(m, m1, ranges) && NodesOutcome(m1, m', nodes)
    ensures Constructed(m, m', ranges, nodes)
  {
    hide FilteredAll, NodesOutcome, ValidSets;
  }

  // ----- what the result means

  lemma {:induction false} FilteredExtends(m: Sets, m': Sets, ranges: seq<Prefix>)
    requires ValidSets(m) && (forall p | p in ranges :: p.Valid()) && FilteredAll(m, m', ranges)
    ensures ValidSets(m') && Extends(m, m') && SameShape(m, m')
    decreases |ranges|
  {
    hide WellFormed, Marked, OccupiedSome, OccupiedAs, OccupyAt, DisjointKeys, Narrow, Prefix.Contains;
    if ranges != [] {
      var last := |ranges| - 1;
      assert ranges[last] in ranges;
      var m1 :| ValidSets(m1) && FilteredAll(m, m1, ranges[..last]) && FilterOutcome(m1, m', ranges[last]);
      FilteredExtends(m, m1, ranges[..last]);
    }
  }

  lemma NodeExtends(m: Sets, m': Sets, node: ListedNode)
    requires ValidSets(m) && ValidSets(m') && node.Valid() && NodeOutcome(m, m', node, true)
    ensures Extends(m, m')
    ensures |node.pods| <= 2 ==> forall p | p in node.pods && Tracks(m, p.First()) :: Marked(m', p)
  {
    hide WellFormed, PodsOutcome, Marked, Tracks, Extends;
    if 0 < |node.pods| <= 2 {
      PodsMarked(m, m', node.pods, node.view, true);
    } else {
      ExtendsRefl(m);
    }
  }

  /** Every pod CIDR of a listed node, with at most two of them, that a cluster CIDR contains is
      marked in the end. */
  lemma {:induction false} NodesMarked(m: Sets, m': Sets, nodes: seq<ListedNode>)
    requires ValidSets(m) && ValidSets(m') && (forall n | n in nodes :: n.Valid()) && NodesOutcome(m, m', nodes)
    ensures Extends(m, m')
    ensures forall n, p | n in nodes && |n.pods| <= 2 && p in n.pods && Tracks(m, p.First()) :: p.Valid() && Marked(m', p)
    decreases |nodes|
  {
    hide WellFormed, NodeOutcome, Marked, Tracks, Extends;
    if nodes == [] {
      ExtendsRefl(m);
    } else {
      var last := |nodes| - 1;
      assert nodes[last] in nodes;
      var m1 :| ValidSets(m1) && NodesOutcome(m, m1, nodes[..last]) && NodeOutcome(m1, m', nodes[last], true);
      NodesMarked(m, m1, nodes[..last]);
      NodeExtends(m1, m', nodes[last]);
      ExtendsTrans(m, m1, m');
      forall n, p | n in nodes && |n.pods| <= 2 && p in n.pods && Tracks(m, p.First())
        ensures p.Valid() && Marked(m', p)
      {
        if n in nodes[..last] {
          ExtendsMarked(m1, m', p);
        } else {
          assert n == nodes[last];
          ExtendsTracks(m, m1, p.First());
        }
      }
    }
  }

  /** The state when the workers start. */
  ghost function Begin(clusters: seq<Prefix>, m: Sets, nodes: seq<ListedNode>): Sys {
    Sys(clusters, m, map i: nat | i < |nodes| :: Node(i) := nodes[i].pods, map[])
  }

  ghost predicate Placed(m: Sets, p: Prefix)
    requires ValidSets(m)
  {
    p.Valid() && exists c :: c in m && p.Inside(c)
  }

  /** Pod CIDRs as the allocator writes them: at most two a node, each inside a cluster CIDR, no two
      on the same block. */
  ghost predicate Orderly(m: Sets, nodes: seq<ListedNode>)
    requires ValidSets(m)
  {
    && (forall n | n in nodes :: |n.pods| <= 2)
    && (forall n, p | n in nodes && p in n.pods :: Placed(m, p))
    && forall i: nat, j: nat, i': nat, j': nat, c, b: nat |
         && i < |nodes| && j < |nodes[i].pods| && i' < |nodes| && j' < |nodes[i'].pods| && c in m
         && nodes[i].pods[j].Valid() && nodes[i'].pods[j'].Valid()
         && b in Cover(m[c].g, nodes[i].pods[j]) && b in Cover(m[c].g, nodes[i'].pods[j']) ::
         i == i' && j == j'
  }

  ghost predicate AllTracked(m: Sets, pods: seq<Prefix>)
    requires ValidSets(m)
  {
    forall p | p in pods :: Tracks(m, p.First())
  }

  lemma ShapeTracked(m: Sets, m': Sets, a: Addr)
    requires ValidSets(m) && ValidSets(m') && SameShape(m, m')
    ensures Tracks(m, a) <==> Tracks(m', a)
  {
    hide WellFormed, Prefix.Contains;
    if k :| Hit(m, k, a) {
      assert Hit(m', k, a);
    }
    if k :| Hit(m', k, a) {
      assert Hit(m, k, a);
    }
  }

  /** No set is added for pod CIDRs that tracked prefixes contain. */
  lemma {:induction false} PodsShape(m: Sets, m': Sets, pods: seq<Prefix>, v: NodeView, ok: bool)
    requires ValidSets(m) && ValidSets(m') && v.Valid() && (forall p | p in pods :: p.Valid())
    requires PodsOutcome(m, m', pods, v, ok) && AllTracked(m, pods)
    ensures SameShape(m, m')
    decreases |pods|
  {
    hide WellFormed, PodOutcome, ValidSets, Tracks;
    if pods != [] {
      var last := |pods| - 1;
      assert pods[last] in pods;
      if !ok && PodsOutcome(m, m', pods[..last], v, false) {
        PodsShape(m, m', pods[..last], v, false);
      } else {
        var m1 :| ValidSets(m1) && PodsOutcome(m, m1, pods[..last], v, true) && PodOutcome(m1, m', pods[last], v, ok);
        PodsShape(m, m1, pods[..last], v, true);
        ShapeTracked(m, m1, pods[last].First());
        TrackedShape(m1, m', pods[last], v, ok);
      }
    }
  }

  lemma TrackedShape(m: Sets, m': Sets, p: Prefix, v: NodeView, ok: bool)
    requires ValidSets(m) && ValidSets(m') && p.Valid() && v.Valid() && PodOutcome(m, m', p, v, ok) && Tracks(m, p.First())
    ensures SameShape(m, m')
  {
    hide WellFormed, Tracks, Marked, OccupiedSome, OccupiedAs, OccupyAt, DisjointKeys, Narrow, DefineOutcome;
  }

  lemma {:induction false} NodesShape(m: Sets, m': Sets, nodes: seq<ListedNode>)
    requires ValidSets(m) && ValidSets(m') && (forall n | n in nodes :: n.Valid()) && NodesOutcome(m, m', nodes)
    requires forall n | n in nodes :: AllTracked(m, n.pods)
    ensures SameShape(m, m')
    decreases |nodes|
  {
    hide WellFormed, PodsOutcome, ValidSets, Tracks;
    if nodes != [] {
      var last := |nodes| - 1;
      var n := nodes[last];
      assert n in nodes;
      var m1 :| ValidSets(m1) && NodesOutcome(m, m1, nodes[..last]) && NodeOutcome(m1, m', n, true);
      NodesShape(m, m1, nodes[..last]);
      forall p | p in n.pods
        ensures Tracks(m1, p.First())
      {
        ShapeTracked(m, m1, p.First());
      }
      if 0 < |n.pods| <= 2 {
        PodsShape(m1, m', n.pods, n.view, true);
      }
    }
  }

  lemma OrderlyTracked(m: Sets, nodes: seq<ListedNode>, n: ListedNode)
    requires ValidSets(m) && Orderly(m, nodes) && n in nodes
    ensures AllTracked(m, n.pods)
  {
    hide WellFormed, Cover;
    forall p | p in n.pods
      ensures Tracks(m, p.First())
    {
      assert Placed(m, p);
      var c :| c in m && p.Inside(c);
      ContainsIsCovers(c, p.First());
      assert Hit(m, c, p.First());
    }
  }

  /** The sets of an orderly node list: no key is added, and every pod CIDR is marked. */
  lemma ConstructedSets(m: Sets, m': Sets, ranges: seq<Prefix>, nodes: seq<ListedNode>)
    requires ValidSets(m) && ValidSets(m') && (forall p | p in ranges :: p.Valid()) && (forall n | n in nodes :: n.Valid())
    requires Orderly(m, nodes) && Constructed(m, m', ranges, nodes)
    ensures SameShape(m, m') && forall n, p | n in nodes && p in n.pods :: p.Valid() && Marked(m', p)
  {
    hide WellFormed, FilteredAll, NodesOutcome, Marked, Tracks, Cover;
    var m1 :| ValidSets(m1) && FilteredAll(m, m1, ranges) && NodesOutcome(m1, m', nodes);
    FilteredExtends(m, m1, ranges);
    forall n | n in nodes
      ensures AllTracked(m1, n.pods)
    {
      OrderlyTracked(m, nodes, n);
      forall p | p in n.pods
        ensures Tracks(m1, p.First())
      {
        ShapeTracked(m, m1, p.First());
      }
    }
    NodesShape(m1, m', nodes);
    NodesMarked(m1, m', nodes);
  }

  /** No node of an orderly list is refused, unless a set has 2^32 blocks. */
  lemma OrderlyAccepted(m: Sets, ranges: seq<Prefix>, nodes: seq<ListedNode>)
    requires ValidSets(m) && Narrow(m) && (forall p | p in ranges :: p.Valid()) && (forall n | n in nodes :: n.Valid())
    requires Orderly(m, nodes)
    ensures !RefusesSome(m, ranges, nodes)
  {
    hide WellFormed, FilteredAll, NodesOutcome, Tracks, Cover, Narrow, PodsOutcome, Orderly;
    forall m1, m2, m3, i: nat
      ensures !RefusedAt(m, m1, m2, m3, ranges, nodes, i)
    {
      if RefusedAt(m, m1, m2, m3, ranges, nodes, i) {
        FilteredExtends(m, m1, ranges);
        forall n | n in nodes
          ensures AllTracked(m1, n.pods)
        {
          OrderlyTracked(m, nodes, n);
          ShapeAllTracked(m, m1, n.pods);
        }
        NodesShape(m1, m2, nodes[..i]);
        ShapeAllTracked(m1, m2, nodes[i].pods);
        ShapeKeeps(m, m2);
        TrackedAccepted(m2, m3, nodes[i].pods, nodes[i].view);
      }
    }
  }

  lemma ShapeAllTracked(m: Sets, m': Sets, pods: seq<Prefix>)
    requires ValidSets(m) && ValidSets(m') && SameShape(m, m') && AllTracked(m, pods)
    ensures AllTracked(m', pods)
  {
    hide WellFormed, Tracks;
    forall p | p in pods
      ensures Tracks(m', p.First())
    {
      ShapeTracked(m, m', p.First());
    }
  }

  /** Pod CIDRs that tracked prefixes contain are not refused. */
  lemma {:induction false} TrackedAccepted(m: Sets, m': Sets, pods: seq<Prefix>, v: NodeView)
    requires ValidSets(m) && ValidSets(m') && v.Valid() && (forall p | p in pods :: p.Valid())
    requires Narrow(m) && AllTracked(m, pods)
    ensures !PodsOutcome(m, m', pods, v, false)
    decreases |pods|
  {
    hide WellFormed, PodOutcome, ValidSets, Tracks, Narrow;
    if pods != [] {
      var last := |pods| - 1;
      assert pods[last] in pods;
      TrackedAccepted(m, m', pods[..last], v);
      forall m1 | ValidSets(m1) && PodsOutcome(m, m1, pods[..last], v, true)
        ensures !PodOutcome(m1, m', pods[last], v, false)
      {
        PodsShape(m, m1, pods[..last], v, true);
        ShapeTracked(m, m1, pods[last].First());
        ShapeKeeps(m, m1);
        OneAccepted(m1, m', pods[last], v);
      }
    }
  }

  lemma OneAccepted(m: Sets, m': Sets, p: Prefix, v: NodeView)
    requires ValidSets(m) && ValidSets(m') && p.Valid() && v.Valid() && Narrow(m) && Tracks(m, p.First())
    ensures !PodOutcome(m, m', p, v, false)
  {
    hide WellFormed, Marked, OccupiedSome, OccupiedAs, OccupyAt, DisjointKeys, Narrow, DefineOutcome, Prefix.Contains, Grows;
    var k :| Hit(m, k, p.First());
  }

  /** A slot of the beginning is a pod CIDR of a listed node. */
  lemma BeginSlot(clusters: seq<Prefix>, m: Sets, nodes: seq<ListedNode>, x: Slot)
    requires IsSlot(Begin(clusters, m, nodes), x)
    ensures x.h.Node? && x.h.name < |nodes| && x.i < |nodes[x.h.name].pods|
    ensures Pod(Begin(clusters, m, nodes), x) == nodes[x.h.name].pods[x.i]
    ensures nodes[x.h.name] in nodes && nodes[x.h.name].pods[x.i] in nodes[x.h.name].pods
  {
  }

  lemma BeginValid(clusters: seq<Prefix>, m: Sets, nodes: seq<ListedNode>)
    requires ValidSets(m) && DisjointKeys(m) && forall n, p | n in nodes && p in n.pods :: p.Valid()
    ensures ValidSys(Begin(clusters, m, nodes))
  {
    hide WellFormed, DisjointKeys, Prefix.Valid;
    var s := Begin(clusters, m, nodes);
    forall h, p | h in s.hold && p in s.hold[h]
      ensures p.Valid()
    {
      assert nodes[h.name] in nodes;
    }
  }

  /** No two pod CIDRs of an orderly list meet the same block. */
  lemma BeginSole(clusters: seq<Prefix>, m0: Sets, m: Sets, nodes: seq<ListedNode>, x: Slot, y: Slot, k: Prefix, b: nat)
    requires ValidSets(m0) && Orderly(m0, nodes) && SameShape(m0, m) && ValidSys(Begin(clusters, m, nodes))
    requires var s := Begin(clusters, m, nodes); Needs(s, x, k, b) && Needs(s, y, k, b)
    ensures x == y
  {
    hide WellFormed, DisjointKeys, Cover;
    BeginSlot(clusters, m, nodes, x);
    BeginSlot(clusters, m, nodes, y);
  }

  lemma BeginSets(clusters: seq<Prefix>, m: Sets, nodes: seq<ListedNode>)
    ensures Begin(clusters, m, nodes).m == m
  {
  }

  lemma BeginHome(clusters: seq<Prefix>, m0: Sets, m: Sets, nodes: seq<ListedNode>, x: Slot) returns (c: Prefix)
    requires ValidSets(m0) && Orderly(m0, nodes) && SameShape(m0, m) && IsSlot(Begin(clusters, m, nodes), x)
    ensures Pod(Begin(clusters, m, nodes), x).Valid() && c in m && c in m0 && c.len <= Width(c.family)
    ensures Pod(Begin(clusters, m, nodes), x).Inside(c)
  {
    hide WellFormed, Cover;
    BeginSlot(clusters, m, nodes, x);
    var p := nodes[x.h.name].pods[x.i];
    assert Placed(m0, p);
    c :| c in m0 && p.Inside(c);
  }

  lemma BeginFits(clusters: seq<Prefix>, m0: Sets, m: Sets, nodes: seq<ListedNode>)
    requires ValidSets(m0) && Orderly(m0, nodes) && SameShape(m0, m) && ValidSys(Begin(clusters, m, nodes))
    ensures FitsSets(Begin(clusters, m, nodes))
  {
    hide WellFormed, DisjointKeys, Cover, Needs, Orderly, Begin;
    var s := Begin(clusters, m, nodes);
    BeginSets(clusters, m, nodes);
    forall x, k | IsSlot(s, x) && k in s.m && Pod(s, x).Valid() && Pod(s, x).Overlaps(k)
      ensures Pod(s, x).Inside(k)
    {
      var c := BeginHome(clusters, m0, m, nodes, x);
      OneHome(m, Pod(s, x), c, k);
    }
    forall x, y, k, b: nat | Needs(s, x, k, b) && Needs(s, y, k, b)
      ensures x == y
    {
      BeginSole(clusters, m0, m, nodes, x, y, k, b);
    }
  }

  lemma BeginApart(clusters: seq<Prefix>, m0: Sets, m: Sets, nodes: seq<ListedNode>, x: Slot, y: Slot)
    requires ValidSets(m0) && Orderly(m0, nodes) && SameShape(m0, m) && ValidSys(Begin(clusters, m, nodes))
    requires var s := Begin(clusters, m, nodes); FitsSets(s) && IsSlot(s, x) && IsSlot(s, y) && x != y
    ensures var s := Begin(clusters, m, nodes);
            Pod(s, x).Valid() && Pod(s, y).Valid() && !Pod(s, x).Overlaps(Pod(s, y))
  {
    hide WellFormed, DisjointKeys, Cover, Orderly, Begin;
    var s := Begin(clusters, m, nodes);
    BeginSets(clusters, m, nodes);
    PodValid(s, x);
    PodValid(s, y);
    var p, q := Pod(s, x), Pod(s, y);
    var c := BeginHome(clusters, m0, m, nodes, x);
    if p.Overlaps(q) {
      assert q.Overlaps(c);
      forall b: nat | b in Cover(m[c].g, p)
        ensures b !in Cover(m[c].g, q)
      {
        assert Needs(s, x, c, b);
        assert Needs(s, y, c, b) <==> b in Cover(m[c].g, q);
      }
      DisjointCovers(m[c].g, p, q);
    }
  }

  /** For an orderly node list the constructor leaves a start at which every pod CIDR is marked. */
  lemma ConstructedStart(clusters: seq<Prefix>, m0: Sets, m: Sets, ranges: seq<Prefix>, nodes: seq<ListedNode>)
    requires ValidSets(m0) && DisjointKeys(m0) && (forall c | c in clusters :: c in m0)
    requires ValidSets(m) && (forall p | p in ranges :: p.Valid()) && (forall n | n in nodes :: n.Valid())
    requires Orderly(m0, nodes) && Constructed(m0, m, ranges, nodes)
    ensures var s := Begin(clusters, m, nodes); Start(s) && FitsSets(s) && AllPodsMarked(s)
  {
    hide WellFormed, DisjointKeys, Cover, Constructed, Orderly, FitsSets, Marked, Needs;
    ConstructedSets(m0, m, ranges, nodes);
    ShapeKeeps(m0, m);
    BeginValid(clusters, m, nodes);
    BeginFits(clusters, m0, m, nodes);
    var s := Begin(clusters, m, nodes);
    forall x: Slot, y: Slot, a: Addr |
      IsSlot(s, x) && IsSlot(s, y) && x != y && Pod(s, x).Valid() && Pod(s, y).Valid()
      ensures !(Pod(s, x).Covers(a) && Pod(s, y).Covers(a))
    {
      BeginApart(clusters, m0, m, nodes, x, y);
      OverlapsMeaning(Pod(s, x), Pod(s, y));
    }
    forall x, y, k, b: nat | Needs(s, x, k, b) && Frees(s, y, k, b)
      ensures x == y
    {
      BeginSole(clusters, m0, m, nodes, x, y, k, b);
    }
    forall x | IsSlot(s, x)
      ensures Pod(s, x).Valid() && Marked(s.m, Pod(s, x))
    {
      BeginSlot(clusters, m, nodes, x);
    }
  }

  /** ... so the pod CIDRs of live nodes stay disjoint over all runs that follow. */
  lemma ConstructedIsSafe(env: RP.Env, clusters: seq<Prefix>, m0: Sets, m: Sets, ranges: seq<Prefix>,
                          nodes: seq<ListedNode>, run: seq<Event>)
    requires ValidSets(m0) && DisjointKeys(m0) && (forall c | c in clusters :: c in m0)
    requires ValidSets(m) && (forall p | p in ranges :: p.Valid()) && (forall n | n in nodes :: n.Valid())
    requires Orderly(m0, nodes) && Constructed(m0, m, ranges, nodes) && !env.lostAcks && !env.finalizers
    requires var s := Begin(clusters, m, nodes); ValidSys(s) && IsTrace(env, s, run)
    ensures PodsDisjoint(After(env, Begin(clusters, m, nodes), run))
  {
    hide Start, FitsSets, AllPodsMarked, Constructed, Orderly, Begin, PodsDisjoint, Guarded;
    ConstructedStart(clusters, m0, m, ranges, nodes);
    RunsAreDisjoint(env, Begin(clusters, m, nodes), run);
  }
}
