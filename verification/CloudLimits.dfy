/** Where the cloud allocator's safety ends. A live pod CIDR that a reservation can reach, an
    applied patch reported as an error, or a node served with a deletion timestamp each lead to two
    nodes with the same pod CIDR. */
module CloudLimits {
  import opened Common
  import opened Prefixes
  import opened Geometry
  import opened SetState
  import opened CloudSpec
  import opened MaskLadder
  import opened Discovery
  import opened KeyGuard
  import opened NodeSelection
  import opened PodMarking
  import opened CloudProtocol
  import opened CloudSafety
  import B = Bits
  import R = RangeSpec
  import RP = RangeProtocol

  // ----- a node for every plan

  /** A node that reports 10.0.0.1 and has one interface prefix and room for n pods. */
  function NodeOn(h: HostPrefix, n: nat): NodeView {
    NodeView([Addr(V4, 0x0a00_0001)], [Iface("eth0", IfacePrefix(V6, h.addr, h.bits))], Some(n), None)
  }

  lemma NodeOnView(h: HostPrefix, n: nat)
    requires PublicHost(h) && n > 0
    ensures var v := NodeOn(h, n);
            v.Valid() && v.addresses != [] && PublicOf(v.addresses) == [] && v.Cidrs() == [h] && v.MaxPods() == n
  {
    hide B.Pow2, IsGlobalUnicast, IsPrivate, Discovered;
    V4Bound(32);
    var v := NodeOn(h, n);
    OneDiscovered(v, h);
  }

  /** A node without a public interface. */
  function PlainNode(): NodeView {
    NodeView([Addr(V4, 0x0a00_0001)], [], None, None)
  }

  lemma PlainNodeView()
    ensures var v := PlainNode(); v.Valid() && v.addresses != [] && v.Cidrs() == []
  {
    hide B.Pow2, Discovered;
    V4Bound(32);
    var v := PlainNode();
    assert Accepted(PublicOf(v.addresses), v.ifaces) == {};
    assert Kept({}) == {};
    EmptyElements(v.Cidrs());
  }

  /** The plan can be started: some node makes the allocator reserve along it. */
  ghost predicate Starts(m: Sets, plan: Plan, v: NodeView, global: Option<HostPrefix>)
    requires ValidSets(m)
  {
    && v.Valid() && ValidNext(PlanSets(m, plan)) && DefineOutcome(m, PlanSets(m, plan), v, Ok(global))
    && (global.Some? <==> plan.Through?)
    && (plan.Through? ==> Hit(PlanSets(m, plan), plan.g.cluster, global.value.Host()))
  }

  lemma PublicKeyServes(m: Sets, k: Prefix, h: HostPrefix)
    requires ValidSets(m) && DisjointKeys(m) && k in m && k.family == V6 && !IsPrivate(k.First())
    requires PublicHost(h) && k.Contains(h.Masked().First())
    ensures Starts(m, Through(m[k].g), NodeOn(h, 1), Some(HostPrefix(k.family, k.base, k.len)))
  {
    hide WellFormed, IsGlobalUnicast, IsPrivate, Discovered, AddAll, NodeOccupied, MaskTo, DisjointKeys;
    NodeOnView(h, 1);
    var v := NodeOn(h, 1);
    NothingToOccupy(m, v.addresses);
    assert [h][0].Valid() && k.Contains([h][0].Masked().First());
    assert Serves(k, v.Cidrs());
    assert Served(m, v.Cidrs());
    KeyHit(m, k);
  }

  lemma KeyHit(m: Sets, k: Prefix)
    requires ValidSets(m) && k in m
    ensures Hit(m, k, k.First())
  {
    ContainsIsCovers(k, k.First());
  }

  lemma PrivateKeyServes(m: Sets, k: Prefix, h: HostPrefix)
    requires ValidSets(m) && DisjointKeys(m) && k in m && k.family == V6 && IsPrivate(k.First())
    requires PublicHost(h) && h.bits == 128 && k.Covers(h.Host())
    ensures Starts(m, Through(m[k].g), NodeOn(h, 1), Some(h))
  {
    hide WellFormed, IsGlobalUnicast, IsPrivate, Discovered, NodeOccupied, DisjointKeys, AddAll, B.Pow2;
    NodeOnView(h, 1);
    var v := NodeOn(h, 1);
    NothingToOccupy(m, v.addresses);
    HostMasked(h);
    ContainsIsCovers(k, h.Host());
    forall k' | k' in m
      ensures !Serves(k', [h])
    {
      if Serves(k', [h]) {
        OneHit(m, k, k', h.Host());
      }
    }
    SingleAddsNothing(m, h);
  }

  lemma SingleAddsNothing(m: Sets, h: HostPrefix)
    requires ValidSets(m) && h.Valid() && h.family == V6 && h.bits == 128
    ensures ValidCidrs([h]) && AddAll(m, [h], 1) == (m, true)
  {
    hide WellFormed, Ladder;
    AddAllNothing(m, [h], 1);
    AddAllOneMore(m, [h], 1, 0);
    assert [h][..1] == [h] && [h][..0] == [];
  }

  lemma HostMasked(h: HostPrefix)
    requires h.Valid() && h.family == V6 && h.bits == 128
    ensures h.Masked().First() == h.Host()
  {
    assert B.Pow2(0) == 1;
  }

  /** The prefix that the ladder keys a set by is itself a public interface prefix, with the same
      set. */
  lemma BuiltPrefix(h: HostPrefix, n: nat, g: Geometry) returns (h': HostPrefix)
    requires PublicHost(h) && h.bits != 128 && Ladder(h, n) == Ok(g)
    ensures PublicHost(h') && h'.bits != 128 && Ladder(h', n) == Ok(g) && h'.Masked() == g.cluster
    ensures g.cluster.Covers(h'.Host()) && g.cluster.Valid() && g.Valid() && h'.Host() == h.Host()
  {
    hide B.Pow2, MaskTo, IsGlobalUnicast, IsPrivate;
    LadderSizes(h, n);
    h' := HostPrefix(V6, h.addr, g.cluster.len);
  }

  lemma NewKeyServes(m: Sets, g: Geometry) returns (v: NodeView, global: HostPrefix)
    requires ValidSets(m) && DisjointKeys(m) && Addable(m, g) && g.cluster !in m
    ensures Starts(m, Through(g), v, Some(global)) && CanServe(g.cluster)
  {
    hide WellFormed, IsGlobalUnicast, IsPrivate, Discovered, NodeOccupied, DisjointKeys, Ladder, B.Pow2, MaskTo;
    var h0, n: nat :| n > 0 && PublicHost(h0) && h0.bits != 128 && Ladder(h0, n) == Ok(g);
    var h := BuiltPrefix(h0, n, g);
    v, global := NodeOn(h, n), h;
    NodeOnView(h, n);
    AddedDisjoint(m, g);
    NothingToOccupy(WithSet(m, g), v.addresses);
    forall k | k in m
      ensures !Serves(k, [h])
    {
      ContainsIsCovers(k, g.cluster.First());
    }
    AddAllNothing(m, [h], n);
    AddAllOneMore(m, [h], n, 0);
    assert [h][..1] == [h] && [h][..0] == [];
    ContainsIsCovers(g.cluster, h.Host());
  }

  /** Every valid plan can be started, and stays valid for the sets it leads to. */
  lemma PlanStarts(m: Sets, plan: Plan) returns (v: NodeView, global: Option<HostPrefix>)
    requires ValidSets(m) && DisjointKeys(m) && ValidPlan(m, plan)
    ensures Starts(m, plan, v, global)
    ensures ValidPlan(PlanSets(m, plan), plan) && PlanSets(PlanSets(m, plan), plan) == PlanSets(m, plan)
  {
    hide WellFormed, IsGlobalUnicast, IsPrivate, Built, DefineOutcome, B.Pow2, MaskTo, DisjointKeys;
    if plan.ByCluster? {
      v, global := PlainNode(), None;
      PlainStarts(m);
    } else if plan.g.cluster in m {
      var k := plan.g.cluster;
      if !IsPrivate(k.First()) {
        var h := NetworkIn(k);
        v, global := NodeOn(h, 1), Some(HostPrefix(k.family, k.base, k.len));
        PublicKeyServes(m, k, h);
      } else {
        var h0 :| PublicHost(h0) && k.Covers(h0.Host());
        var h := HostPrefix(V6, h0.addr, 128);
        v, global := NodeOn(h, 1), Some(h);
        PrivateKeyServes(m, k, h);
      }
    } else {
      var h: HostPrefix;
      v, h := NewKeyServes(m, plan.g);
      global := Some(h);
    }
  }

  lemma PlainStarts(m: Sets)
    requires ValidSets(m) && DisjointKeys(m)
    ensures Starts(m, ByCluster, PlainNode(), None)
  {
    hide WellFormed, DisjointKeys, Discovered;
    PlainNodeView();
  }

  /** A public key that can serve contains the network address of some interface prefix. */
  lemma NetworkIn(k: Prefix) returns (h: HostPrefix)
    requires CanServe(k) && !IsPrivate(k.First())
    ensures PublicHost(h) && k.Contains(h.Masked().First())
  {
    hide IsGlobalUnicast, IsPrivate, B.Pow2, MaskTo;
    if h1 :| PublicHost(h1) && k.Contains(h1.Masked().First()) {
      h := h1;
    } else {
      var h0 :| PublicHost(h0) && k.Covers(h0.Host());
      h := HostPrefix(V6, h0.addr, 128);
      HostMasked(h);
      ContainsIsCovers(k, h.Host());
    }
  }

  // ----- one complete reservation

  /** A free block of a tracked set. */
  ghost predicate Free(m: Sets, k: Prefix, b: nat)
    requires ValidSets(m)
  {
    k in m && b < m[k].g.Max() && b !in m[k].s.used
  }

  ghost predicate SomeFree(m: Sets, k: Prefix)
    requires ValidSets(m)
  {
    exists b: nat :: Free(m, k, b)
  }

  /** What the set at the key hands out next. */
  ghost function Head(m: Sets, k: Prefix): (b: nat)
    requires ValidSets(m) && SomeFree(m, k)
    ensures Free(m, k, b) && Allocate(m[k].g, m[k].s).1 == Some(b)
    ensures Allocate(m[k].g, m[k].s).0.used == m[k].s.used + {b}
  {
    QueueListsFree(m[k].g, m[k].s);
    AllocateDequeues(m[k].g, m[k].s);
    Allocate(m[k].g, m[k].s).1.value
  }

  ghost function HeadBlock(m: Sets, k: Prefix): Prefix
    requires ValidSets(m) && SomeFree(m, k)
  {
    var b := Head(m, k);
    m[k].g.Block(b)
  }

  /** Different keys around the addresses, each with a free block. */
  ghost predicate Ready(m: Sets, ips: seq<Addr>, keys: seq<Prefix>)
    requires ValidSets(m)
  {
    && |ips| == |keys|
    && (forall i: nat | i < |keys| :: Hit(m, keys[i], ips[i]) && SomeFree(m, keys[i]))
    && forall i: nat, j: nat | i < j < |keys| :: keys[i] != keys[j]
  }

  /** The sets after the first n keys were reserved from. */
  ghost predicate TookFirst(m: Sets, m': Sets, keys: seq<Prefix>, n: nat)
    requires ValidSets(m) && ValidSets(m') && n <= |keys|
  {
    && SameShape(m, m')
    && (forall i: nat | i < n :: keys[i] in m && m'[keys[i]].s == Allocate(m[keys[i]].g, m[keys[i]].s).0)
    && (forall k | k in m && k !in keys[..n] :: m'[k] == m[k])
  }

  /** One more: the next key's head, and nothing else changes. */
  lemma TakeNext(m: Sets, m1: Sets, ips: seq<Addr>, keys: seq<Prefix>, n: nat)
    requires ValidSets(m) && DisjointKeys(m) && ValidSets(m1) && Ready(m, ips, keys) && n < |keys|
    requires TookFirst(m, m1, keys, n)
    ensures TakeAt(m1, ips[n]) == Ok(Some(HeadBlock(m, keys[n])))
    ensures ValidSets(AllocateAt(m1, ips[n])) && TookFirst(m, AllocateAt(m1, ips[n]), keys, n + 1)
  {
    hide WellFormed, Allocate, DisjointKeys, SomeFree, TakeAt, AllocateAt, Free, TookFirst, Hit;
    var k := keys[n];
    assert k !in keys[..n];
    TookShape(m, m1, keys, n, k);
    TakeHead(m1, k, ips[n], Head(m, k)) by {
      ReadyHit(m, m1, ips, keys, n);
    }
    AllocateAtValid(m1, ips[n]);
    TookMore(m, m1, keys, n, k);
  }

  lemma ReadyHit(m: Sets, m1: Sets, ips: seq<Addr>, keys: seq<Prefix>, n: nat)
    requires ValidSets(m) && ValidSets(m1) && Ready(m, ips, keys) && n < |keys| && SameShape(m, m1)
    ensures Hit(m1, keys[n], ips[n])
  {
    hide WellFormed, Prefix.Contains, SomeFree;
  }

  lemma TookShape(m: Sets, m1: Sets, keys: seq<Prefix>, n: nat, k: Prefix)
    requires ValidSets(m) && DisjointKeys(m) && ValidSets(m1) && n < |keys| && TookFirst(m, m1, keys, n)
    requires k !in keys[..n] && SomeFree(m, k)
    ensures SameShape(m, m1) && DisjointKeys(m1) && k in m && k in m1 && m1[k] == m[k]
    ensures Allocate(m1[k].g, m1[k].s).1 == Some(Head(m, k)) && HeadBlock(m, k) == m1[k].g.Block(Head(m, k))
  {
    hide WellFormed, Allocate, DisjointKeys, SomeFree;
    ShapeKeeps(m, m1);
    HeadWasFree(m, k);
  }

  lemma TookMore(m: Sets, m1: Sets, keys: seq<Prefix>, n: nat, k: Prefix)
    requires ValidSets(m) && ValidSets(m1) && n < |keys| && TookFirst(m, m1, keys, n)
    requires k == keys[n] && k !in keys[..n] && k in m && k in m1 && m1[k] == m[k]
    requires ValidSets(m1[k := m1[k].(s := Allocate(m1[k].g, m1[k].s).0)])
    ensures TookFirst(m, m1[k := m1[k].(s := Allocate(m1[k].g, m1[k].s).0)], keys, n + 1)
  {
    hide WellFormed, Allocate;
    assert keys[..n + 1] == keys[..n] + [k];
  }

  lemma TakeHead(m: Sets, k: Prefix, ip: Addr, b: nat)
    requires ValidSets(m) && DisjointKeys(m) && Hit(m, k, ip) && Allocate(m[k].g, m[k].s).1 == Some(b)
    ensures TakeAt(m, ip) == Ok(Some(m[k].g.Block(b)))
    ensures AllocateAt(m, ip) == m[k := m[k].(s := Allocate(m[k].g, m[k].s).0)]
  {
    hide WellFormed, Allocate, DisjointKeys, Prefix.Contains;
    FoundIsTaken(m, k, ip);
    FoundIsAt(m, k, ip);
  }

  // ----- the distance from the cursor to a block

  function Distance(next: nat, b: nat, max: nat): nat
    requires next < max && b < max
  {
    if next <= b then b - next else b + max - next
  }

  /** While a block is free the cursor does not pass it. */
  lemma CursorComesCloser(g: Geometry, s: State, b: nat)
    requires g.Valid() && WellFormed(g, s) && b < g.Max() && b !in s.used
    requires Allocate(g, s).1.Some? && Allocate(g, s).1.value != b
    ensures Allocate(g, s).0.next < g.Max()
    ensures Distance(Allocate(g, s).0.next, b, g.Max()) < Distance(s.next, b, g.Max())
  {
    HeadIsFirstFree(g, s);
    CursorStep(Allocate(g, s).1.value, g.Max());
  }

  // ----- a list of releases

  /** One of the CIDRs is released in this set and meets the block. */
  ghost predicate FreedBy(m: Sets, pods: seq<Prefix>, k: Prefix, b: nat)
    requires ValidSets(m)
  {
    exists p :: p in pods && p.Valid() && Hit(m, k, p.First()) && b in Cover(m[k].g, p)
  }

  /** The sets after the CIDRs were released. */
  ghost predicate Freed(m: Sets, m': Sets, pods: seq<Prefix>)
    requires ValidSets(m)
  {
    && SameShape(m, m')
    && (forall k | k in m :: m'[k].s.next == m[k].s.next)
    && (forall k, b: nat | k in m :: b in m'[k].s.used <==> b in m[k].s.used && !FreedBy(m, pods, k, b))
  }

  lemma FreedNone(m: Sets)
    requires ValidSets(m)
    ensures Freed(m, m, [])
  {
  }

  lemma ReleasedOne(m: Sets, p: Prefix, k: Prefix, b: nat)
    requires ValidSets(m) && Narrow(m) && p.Valid() && k in m
    ensures ReleaseAt(m, p)[k].s.next == m[k].s.next && ReleaseAt(m, p)[k].g == m[k].g
    ensures b in ReleaseAt(m, p)[k].s.used <==>
              b in m[k].s.used && !(Hit(m, k, p.First()) && b in Cover(m[k].g, p))
  {
    hide WellFormed, Cover, Indices, Prefix.Contains;
    if Hit(m, k, p.First()) {
      FoundSetAccepts(m, k, p);
    }
  }

  lemma FreedMore(m: Sets, m1: Sets, m2: Sets, p: Prefix, rest: seq<Prefix>)
    requires ValidSets(m) && Narrow(m) && p.Valid() && ValidSets(m1) && m1 == ReleaseAt(m, p) && Freed(m1, m2, rest)
    ensures Freed(m, m2, [p] + rest)
  {
    hide WellFormed, ReleaseAt, Narrow, FreedBy, Prefix.Valid;
    AtValid(m, p);
    forall k | k in m
      ensures m2[k].g == m[k].g && m2[k].s.next == m[k].s.next
    {
      FreedMoreAt(m, m1, m2, p, rest, k, 0);
    }
    forall k, b: nat | k in m
      ensures b in m2[k].s.used <==> b in m[k].s.used && !FreedBy(m, [p] + rest, k, b)
    {
      FreedMoreAt(m, m1, m2, p, rest, k, b);
    }
  }

  lemma FreedMoreAt(m: Sets, m1: Sets, m2: Sets, p: Prefix, rest: seq<Prefix>, k: Prefix, b: nat)
    requires ValidSets(m) && Narrow(m) && p.Valid() && ValidSets(m1) && m1 == ReleaseAt(m, p) && Freed(m1, m2, rest)
    requires k in m && k in m1
    ensures k in m2 && m2[k].g == m[k].g && m2[k].s.next == m[k].s.next
    ensures b in m2[k].s.used <==> b in m[k].s.used && !FreedBy(m, [p] + rest, k, b)
  {
    hide WellFormed, ReleaseAt, Narrow, FreedBy, Prefix.Contains, Cover;
    ReleasedOne(m, p, k, b);
    FreedByMore(m, m1, p, rest, k, b);
  }

  lemma FreedByMore(m: Sets, m1: Sets, p: Prefix, rest: seq<Prefix>, k: Prefix, b: nat)
    requires ValidSets(m) && ValidSets(m1) && p.Valid() && k in m && k in m1 && m1[k].g == m[k].g
    ensures FreedBy(m, [p] + rest, k, b) <==> (Hit(m, k, p.First()) && b in Cover(m[k].g, p)) || FreedBy(m1, rest, k, b)
  {
    hide WellFormed, Cover, Prefix.Contains;
    if FreedBy(m1, rest, k, b) {
      var q :| q in rest && q.Valid() && Hit(m1, k, q.First()) && b in Cover(m1[k].g, q);
      assert q in [p] + rest && Hit(m, k, q.First());
    }
    if Hit(m, k, p.First()) && b in Cover(m[k].g, p) {
      assert p in [p] + rest;
    }
    if FreedBy(m, [p] + rest, k, b) {
      var q :| q in [p] + rest && q.Valid() && Hit(m, k, q.First()) && b in Cover(m[k].g, q);
      assert q == p || q in rest;
    }
  }

  // ----- runs

  lemma Extend(env: RP.Env, s: Sys, run: seq<Event>, ev: Event)
    requires ValidSys(s) && IsTrace(env, s, run) && Enabled(env, After(env, s, run), ev)
    ensures IsTrace(env, s, run + [ev]) && After(env, s, run + [ev]) == Next(After(env, s, run), ev)
  {
    assert (run + [ev])[..|run|] == run;
  }

  /** A worker releases all it holds and ends. */
  lemma {:induction false} ReleaseRun(env: RP.Env, s: Sys, run: seq<Event>, pid: nat) returns (run': seq<Event>)
    requires ValidSys(s) && IsTrace(env, s, run)
    requires var t := After(env, s, run); Narrow(t.m) && pid in t.work && t.work[pid].Releasing?
    ensures IsTrace(env, s, run')
    ensures var t, t' := After(env, s, run), After(env, s, run');
            && Freed(t.m, t'.m, t.hold[Worker(pid)]) && t'.clusters == t.clusters
            && t'.hold == t.hold - {Worker(pid)} && t'.work == t.work - {pid}
    decreases |After(env, s, run).hold[Worker(pid)]|
  {
    hide WellFormed, DisjointKeys, IsTrace, After, ReleaseAt, Freed, Refuses, Prefix.Valid;
    var t := After(env, s, run);
    var w := Worker(pid);
    var pods := t.hold[w];
    Extend(env, s, run, ReleaseOne(pid));
    run' := run + [ReleaseOne(pid)];
    if pods == [] {
      FreedNone(t.m);
    } else {
      PodValid(t, Slot(w, 0));
      NoneRefuses(t.m, pods[0]);
      AtValid(t.m, pods[0]);
      ShapeKeeps(t.m, ReleaseAt(t.m, pods[0]));
      var t1 := After(env, s, run');
      run' := ReleaseRun(env, s, run', pid);
      FreedMore(t.m, t1.m, After(env, s, run').m, pods[0], pods[1..]);
      assert pods == [pods[0]] + pods[1..];
    }
  }

  lemma NoneRefuses(m: Sets, p: Prefix)
    requires ValidSets(m) && Narrow(m) && p.Valid()
    ensures !Refuses(m, p)
  {
    hide WellFormed, Indices, Prefix.Contains;
    forall k | Hit(m, k, p.First())
      ensures Indices(m[k].g, Some(p)).Ok?
    {
      FoundSetAccepts(m, k, p);
    }
  }

  /** The heads of the first n keys. */
  ghost function Heads(m: Sets, keys: seq<Prefix>, n: nat): (r: seq<Prefix>)
    requires ValidSets(m) && n <= |keys| && forall i: nat | i < |keys| :: SomeFree(m, keys[i])
    ensures |r| == n && forall i: nat | i < n :: r[i] == HeadBlock(m, keys[i])
  {
    if n == 0 then [] else Heads(m, keys, n - 1) + [HeadBlock(m, keys[n - 1])]
  }

  /** The state while a worker reserves: it holds the heads of the first n keys. */
  ghost predicate Reserved(t: Sys, t': Sys, m: Sets, pid: nat, name: nat, ips: seq<Addr>, keys: seq<Prefix>, n: nat)
    requires ValidSets(m)
  {
    && Ready(m, ips, keys) && n <= |keys| && ValidSets(t'.m) && TookFirst(m, t'.m, keys, n)
    && t'.clusters == t.clusters
    && t'.hold == t.hold[Worker(pid) := Heads(m, keys, n)]
    && t'.work == t.work[pid := Reserving(name, ips, n, true)]
  }

  lemma {:induction false} ReserveRun(env: RP.Env, s: Sys, run: seq<Event>, t: Sys, m: Sets, pid: nat, name: nat,
                                      ips: seq<Addr>, keys: seq<Prefix>, n: nat) returns (run': seq<Event>)
    requires ValidSys(s) && IsTrace(env, s, run) && ValidSets(m) && DisjointKeys(m)
    requires Reserved(t, After(env, s, run), m, pid, name, ips, keys, n)
    ensures IsTrace(env, s, run')
    ensures Reserved(t, After(env, s, run'), m, pid, name, ips, keys, |keys|)
    decreases |keys| - n
  {
    hide WellFormed, DisjointKeys, IsTrace, After, Ready, TookFirst, Heads, TakeAt, AllocateAt;
    run' := run;
    if n < |keys| {
      var t1 := After(env, s, run);
      ReadyLength(m, ips, keys);
      TakeNext(m, t1.m, ips, keys, n);
      HeadsMore(m, keys, n);
      Extend(env, s, run, ReserveOne(pid));
      run' := ReserveRun(env, s, run + [ReserveOne(pid)], t, m, pid, name, ips, keys, n + 1);
    }
  }

  lemma ReadyLength(m: Sets, ips: seq<Addr>, keys: seq<Prefix>)
    requires ValidSets(m) && Ready(m, ips, keys)
    ensures |ips| == |keys| && forall i: nat | i < |keys| :: SomeFree(m, keys[i])
  {
  }

  lemma HeadsMore(m: Sets, keys: seq<Prefix>, n: nat)
    requires ValidSets(m) && n < |keys| && forall i: nat | i < |keys| :: SomeFree(m, keys[i])
    ensures Heads(m, keys, n + 1) == Heads(m, keys, n) + [HeadBlock(m, keys[n])]
  {
  }

  /** At most one cluster CIDR of each family, as the allocator asks of its caller. */
  predicate OnePerFamily(clusters: seq<Prefix>) {
    forall i: nat, j: nat | i < j < |clusters| :: clusters[i].family != clusters[j].family
  }

  function PlanKeys(clusters: seq<Prefix>, plan: Plan): (keys: seq<Prefix>)
    ensures |keys| == |clusters| && forall i: nat | i < |keys| :: keys[i] == KeyFor(clusters[i], plan)
  {
    seq(|clusters|, i requires 0 <= i < |clusters| => KeyFor(clusters[i], plan))
  }

  /** Nothing is in flight, and every set of the plan has a free block. */
  ghost predicate PlanReady(t: Sys, plan: Plan) {
    && ValidSys(t) && t.work == map[] && (forall c | c in t.clusters :: c in t.m)
    && t.clusters != [] && OnePerFamily(t.clusters) && ValidPlan(t.m, plan) && Narrow(t.m)
    && (PlanValid(t, plan);
        forall c | c in t.clusters :: SomeFree(PlanSets(t.m, plan), KeyFor(c, plan)))
  }

  lemma PlanFamily(m: Sets, plan: Plan)
    requires ValidSets(m) && ValidPlan(m, plan) && plan.Through?
    ensures plan.g.cluster.family == V6
  {
    hide B.Pow2, MaskTo, IsGlobalUnicast, IsPrivate;
    if plan.g.cluster !in m {
      var h, n: nat :| n > 0 && PublicHost(h) && h.bits != 128 && Ladder(h, n) == Ok(plan.g);
    }
  }

  lemma PlanNarrow(m: Sets, plan: Plan)
    requires ValidSets(m) && ValidPlan(m, plan) && Narrow(m)
    ensures Narrow(PlanSets(m, plan))
  {
    hide WellFormed, CanServe, Built;
    if plan.Through? {
      PlanFamily(m, plan);
    }
  }

  /** The addresses of a started plan find its keys. */
  lemma PlanTargets(t: Sys, plan: Plan, v: NodeView, global: Option<HostPrefix>)
    requires PlanReady(t, plan) && Starts(t.m, plan, v, global)
    ensures Ready(PlanSets(t.m, plan), Targets(t.clusters, global), PlanKeys(t.clusters, plan))
  {
    hide WellFormed, DisjointKeys, DefineOutcome, SomeFree, ValidPlan, Targets, ValidSets, Prefix.Contains;
    var m1, keys := PlanSets(t.m, plan), PlanKeys(t.clusters, plan);
    forall i: nat | i < |keys|
      ensures Hit(m1, keys[i], Targets(t.clusters, global)[i]) && SomeFree(m1, keys[i])
    {
      assert t.clusters[i] in t.clusters;
      PlanTarget(t, plan, v, global, i);
    }
    if plan.Through? {
      PlanFamily(t.m, plan);
    }
  }

  lemma PlanTarget(t: Sys, plan: Plan, v: NodeView, global: Option<HostPrefix>, i: nat)
    requires ValidSys(t) && Starts(t.m, plan, v, global) && i < |t.clusters| && t.clusters[i] in t.m
    ensures Hit(PlanSets(t.m, plan), KeyFor(t.clusters[i], plan), Targets(t.clusters, global)[i])
  {
    hide WellFormed, DisjointKeys, DefineOutcome, Prefix.Contains;
    TargetAt(t.clusters, global, i);
    KeyHit(t.m, t.clusters[i]);
  }

  /** A worker for the named node holds the heads of the plan's sets and is about to patch. */
  ghost predicate Proposed(t: Sys, t': Sys, plan: Plan, name: nat) {
    && PlanReady(t, plan) && ValidSys(t')
    && var m1 := PlanSets(t.m, plan);
       var keys := PlanKeys(t.clusters, plan);
       && ValidSets(m1) && (forall i: nat | i < |keys| :: SomeFree(m1, keys[i])) && TookFirst(m1, t'.m, keys, |keys|)
       && t'.clusters == t.clusters && t'.hold == t.hold[Worker(0) := Heads(m1, keys, |keys|)]
       && exists ips :: t'.work == map[0 := Patching(name, ips, true, 0)]
  }

  lemma ProposeRun(env: RP.Env, s: Sys, run: seq<Event>, plan: Plan, name: nat) returns (run': seq<Event>)
    requires ValidSys(s) && IsTrace(env, s, run) && PlanReady(After(env, s, run), plan)
    ensures IsTrace(env, s, run') && Proposed(After(env, s, run), After(env, s, run'), plan, name)
  {
    hide WellFormed, DisjointKeys, IsTrace, After, DefineOutcome, ValidPlan, Ready, TookFirst, Heads, Narrow, SomeFree,
         OnePerFamily;
    var t := After(env, s, run);
    var m1, keys := PlanSets(t.m, plan), PlanKeys(t.clusters, plan);
    var v, global := PlanStarts(t.m, plan);
    PlanTargets(t, plan, v, global);
    var ips := Targets(t.clusters, global);
    ReadyLength(m1, ips, keys);
    var ev := Select(0, name, v, global, m1);
    Extend(env, s, run, ev);
    TookNone(m1, keys);
    var r1 := ReserveRun(env, s, run + [ev], t, m1, 0, name, ips, keys, 0);
    Extend(env, s, r1, Decide(0, Some([])));
    run' := r1 + [Decide(0, Some([]))];
  }

  lemma TookNone(m: Sets, keys: seq<Prefix>)
    requires ValidSets(m)
    ensures TookFirst(m, m, keys, 0)
  {
  }

  // ----- what becomes of a proposal

  /** The block taken from each set of the plan is the only one that its release frees there. */
  lemma HeadsFreed(m: Sets, m2: Sets, keys: seq<Prefix>, k: Prefix, b: nat)
    requires ValidSets(m) && DisjointKeys(m) && ValidSets(m2) && (forall i: nat | i < |keys| :: SomeFree(m, keys[i]))
    requires SameShape(m, m2) && k in m
    ensures FreedBy(m2, Heads(m, keys, |keys|), k, b) <==> k in keys && SomeFree(m, k) && b == Head(m, k)
  {
    hide WellFormed, DisjointKeys, Cover, SomeFree, Prefix.Contains, Free;
    var L := Heads(m, keys, |keys|);
    forall i: nat | i < |keys|
      ensures L[i].Valid()
      ensures Hit(m2, k, L[i].First()) && b in Cover(m2[k].g, L[i]) <==> keys[i] == k && b == Head(m, k)
    {
      HeadMeets(m, m2, keys[i], k, b);
    }
    if k in keys && b == Head(m, k) {
      var i: nat :| i < |keys| && keys[i] == k;
      assert L[i] in L;
    }
  }

  lemma HeadMeets(m: Sets, m2: Sets, k0: Prefix, k: Prefix, b: nat)
    requires ValidSets(m) && DisjointKeys(m) && ValidSets(m2) && SomeFree(m, k0) && SameShape(m, m2) && k in m
    ensures HeadBlock(m, k0).Valid()
    ensures Hit(m2, k, HeadBlock(m, k0).First()) && b in Cover(m2[k].g, HeadBlock(m, k0)) <==>
              k0 == k && SomeFree(m, k) && b == Head(m, k)
  {
    hide WellFormed, DisjointKeys, Cover;
    var b0 := Head(m, k0);
    BlockOfOneSet(m, k0, b0, k0, b0);
    CoverOfBlock(m[k0].g, b0);
    if Hit(m2, k, HeadBlock(m, k0).First()) {
      assert Hit(m, k, HeadBlock(m, k0).First());
      OneHit(m, k, k0, HeadBlock(m, k0).First());
    }
  }

  /** The sets after a proposal was given back: the cursors of the plan's sets moved on, and the same
      blocks are in use. */
  ghost predicate Rotated(m: Sets, m': Sets, keys: seq<Prefix>)
    requires ValidSets(m)
  {
    && SameUsed(m, m')
    && forall k | k in keys && k in m :: m'[k].s.next == Allocate(m[k].g, m[k].s).0.next
  }

  lemma GivenBack(m: Sets, m2: Sets, m3: Sets, keys: seq<Prefix>)
    requires ValidSets(m) && DisjointKeys(m) && ValidSets(m2) && (forall i: nat | i < |keys| :: SomeFree(m, keys[i]))
    requires TookFirst(m, m2, keys, |keys|) && Freed(m2, m3, Heads(m, keys, |keys|))
    ensures Rotated(m, m3, keys)
  {
    hide WellFormed, DisjointKeys, Allocate, Heads, FreedBy, SomeFree, Free, Head;
    assert keys[..|keys|] == keys;
    forall k | k in m
      ensures m3[k].s.used == m[k].s.used
    {
      GivenBackAt(m, m2, m3, keys, k);
    }
  }

  lemma GivenBackAt(m: Sets, m2: Sets, m3: Sets, keys: seq<Prefix>, k: Prefix)
    requires ValidSets(m) && DisjointKeys(m) && ValidSets(m2) && (forall i: nat | i < |keys| :: SomeFree(m, keys[i]))
    requires SameShape(m, m2) && k in m && k in m3
    requires m2[k].s.used == if k in keys then Allocate(m[k].g, m[k].s).0.used else m[k].s.used
    requires forall b: nat :: b in m3[k].s.used <==> b in m2[k].s.used && !FreedBy(m2, Heads(m, keys, |keys|), k, b)
    ensures m3[k].s.used == m[k].s.used
  {
    hide WellFormed, DisjointKeys, Allocate, Heads, FreedBy, SomeFree, Free, Head;
    if k in keys {
      var i: nat :| i < |keys| && keys[i] == k;
      HeadWasFree(m, k);
    }
    forall b: nat
      ensures b in m3[k].s.used <==> b in m[k].s.used
    {
      HeadsFreed(m, m2, keys, k, b);
    }
  }

  lemma HeadWasFree(m: Sets, k: Prefix)
    requires ValidSets(m) && SomeFree(m, k)
    ensures k in m && Head(m, k) !in m[k].s.used && Allocate(m[k].g, m[k].s).0.used == m[k].s.used + {Head(m, k)}
  {
    var b := Head(m, k);
  }

  /** Attempts that are reported as failed, up to the last, and the return of the blocks. */
  lemma GiveUpRun(env: RP.Env, s: Sys, run: seq<Event>, tries: nat) returns (run': seq<Event>)
    requires ValidSys(s) && IsTrace(env, s, run) && tries <= 2
    requires var t := After(env, s, run);
             && Narrow(t.m) && Worker(0) in t.hold
             && exists name, ips :: t.work == map[0 := Patching(name, ips, true, tries)]
    ensures IsTrace(env, s, run')
    ensures var t, t' := After(env, s, run), After(env, s, run');
            && Freed(t.m, t'.m, t.hold[Worker(0)]) && t'.clusters == t.clusters
            && t'.hold == t.hold - {Worker(0)} && t'.work == map[]
    decreases 3 - tries
  {
    hide WellFormed, DisjointKeys, IsTrace, After, Freed, Narrow;
    var t := After(env, s, run);
    var name, ips :| t.work == map[0 := Patching(name, ips, true, tries)];
    var ev := PatchErr(0, R.OtherFailure);
    Extend(env, s, run, ev);
    if tries < 2 {
      assert After(env, s, run + [ev]).work == map[0 := Patching(name, ips, true, tries + 1)];
      run' := GiveUpRun(env, s, run + [ev], tries + 1);
    } else {
      run' := ReleaseRun(env, s, run + [ev], 0);
    }
  }

  /** A proposal that comes to nothing. */
  lemma FailedRun(env: RP.Env, s: Sys, run: seq<Event>, plan: Plan, name: nat, run1: seq<Event>)
    returns (run': seq<Event>)
    requires ValidSys(s) && IsTrace(env, s, run) && IsTrace(env, s, run1)
    requires Proposed(After(env, s, run), After(env, s, run1), plan, name)
    ensures IsTrace(env, s, run')
    ensures var t, t' := After(env, s, run), After(env, s, run');
            && t'.clusters == t.clusters && t'.hold == t.hold && t'.work == map[]
            && ValidSets(PlanSets(t.m, plan)) && Rotated(PlanSets(t.m, plan), t'.m, PlanKeys(t.clusters, plan))
  {
    hide WellFormed, DisjointKeys, IsTrace, After, Freed, TookFirst, Heads, Rotated, ValidPlan, SomeFree;
    var t, t1 := After(env, s, run), After(env, s, run1);
    PlanValid(t, plan);
    PlanNarrow(t.m, plan);
    TookNarrow(PlanSets(t.m, plan), t1.m, PlanKeys(t.clusters, plan));
    run' := GiveUpRun(env, s, run1, 0);
    GivenBack(PlanSets(t.m, plan), t1.m, After(env, s, run').m, PlanKeys(t.clusters, plan));
    assert After(env, s, run').hold == t.hold;
  }

  lemma TookNarrow(m: Sets, m': Sets, keys: seq<Prefix>)
    requires ValidSets(m) && ValidSets(m') && TookFirst(m, m', keys, |keys|) && Narrow(m)
    ensures Narrow(m')
  {
  }

  // ----- a second node on a block

  /** A live pod CIDR meets a free block of a set of the plan, and a node waits to be served. */
  ghost predicate Chasing(t: Sys, plan: Plan, name: nat, x: Slot, c: Prefix, b: nat) {
    && PlanReady(t, plan) && c in t.clusters
    && Node(name) in t.hold && t.hold[Node(name)] == [] && x.h.Node? && IsSlot(t, x) && Pod(t, x).Valid()
    && var m1 := PlanSets(t.m, plan);
       ValidSets(m1) && Free(m1, KeyFor(c, plan), b) && b in Cover(m1[KeyFor(c, plan)].g, Pod(t, x))
  }

  /** If the waiting node is patched with that block, two nodes share an address. */
  lemma PatchClashes(env: RP.Env, s: Sys, run: seq<Event>, plan: Plan, name: nat, x: Slot, c: Prefix, b: nat,
                     run1: seq<Event>) returns (run': seq<Event>)
    requires ValidSys(s) && IsTrace(env, s, run) && IsTrace(env, s, run1)
    requires Chasing(After(env, s, run), plan, name, x, c, b)
    requires Proposed(After(env, s, run), After(env, s, run1), plan, name)
    requires var m1 := PlanSets(After(env, s, run).m, plan);
             SomeFree(m1, KeyFor(c, plan)) && Head(m1, KeyFor(c, plan)) == b
    ensures IsTrace(env, s, run') && !PodsDisjoint(After(env, s, run'))
  {
    hide WellFormed, DisjointKeys, IsTrace, After, TookFirst, SomeFree, Cover, PodsDisjoint, Head, PlanReady, PlanSets,
         ValidSys;
    var t := After(env, s, run);
    var m1, keys := PlanSets(t.m, plan), PlanKeys(t.clusters, plan);
    var i: nat :| i < |t.clusters| && t.clusters[i] == c;
    assert keys[i] == KeyFor(c, plan);
    PatchRun(env, s, t, run1, plan, name);
    run' := run1 + [PatchOk(0)];
    var t' := After(env, s, run');
    assert IsSlot(t', x) && Pod(t', x) == Pod(t, x);
    SharesBlock(t', x, Slot(Node(name), i), m1, KeyFor(c, plan), b);
  }

  /** The waiting node gets the proposal. */
  lemma PatchRun(env: RP.Env, s: Sys, t: Sys, run: seq<Event>, plan: Plan, name: nat)
    requires ValidSys(s) && IsTrace(env, s, run) && Proposed(t, After(env, s, run), plan, name)
    requires Node(name) in t.hold && t.hold[Node(name)] == []
    ensures IsTrace(env, s, run + [PatchOk(0)])
    ensures var keys := PlanKeys(t.clusters, plan);
            After(env, s, run + [PatchOk(0)]).hold ==
            t.hold[Worker(0) := []][Node(name) := Heads(PlanSets(t.m, plan), keys, |keys|)] - {Worker(0)}
  {
    hide WellFormed, DisjointKeys, IsTrace, After, TookFirst, SomeFree, PlanReady, PlanSets, Heads;
    Extend(env, s, run, PatchOk(0));
  }

  lemma SharesBlock(s: Sys, x: Slot, y: Slot, m: Sets, k: Prefix, b: nat)
    requires ValidSys(s) && IsSlot(s, x) && IsSlot(s, y) && x != y && x.h.Node? && y.h.Node?
    requires ValidSets(m) && SomeFree(m, k) && Head(m, k) == b && Pod(s, y) == HeadBlock(m, k)
    requires k in m && Pod(s, x).Valid() && b in Cover(m[k].g, Pod(s, x))
    ensures !PodsDisjoint(s)
  {
    hide WellFormed, DisjointKeys, SomeFree;
    BlockInside(m[k].g, b);
    OverlapsMeaning(Pod(s, x), Pod(s, y));
    var a :| Pod(s, x).Covers(a) && Pod(s, y).Covers(a);
  }

  /** A proposal that comes to nothing leaves the situation as it is, but with the cursor closer. */
  lemma StillChasing(t: Sys, t': Sys, plan: Plan, name: nat, x: Slot, c: Prefix, b: nat)
    requires Chasing(t, plan, name, x, c, b) && ValidSys(t')
    requires t'.clusters == t.clusters && t'.hold == t.hold && t'.work == map[]
    requires Rotated(PlanSets(t.m, plan), t'.m, PlanKeys(t.clusters, plan))
    requires SomeFree(PlanSets(t.m, plan), KeyFor(c, plan)) && Head(PlanSets(t.m, plan), KeyFor(c, plan)) != b
    ensures Chasing(t', plan, name, x, c, b) && PlanSets(t'.m, plan) == t'.m
    ensures Approach(t', plan, c, b) < Approach(t, plan, c, b)
  {
    hide WellFormed, DisjointKeys, SomeFree, Cover, Allocate, Head, Narrow;
    var m1, k := PlanSets(t.m, plan), KeyFor(c, plan);
    PlanValid(t, plan);
    PlanNarrow(t.m, plan);
    PlanStays(t, t', plan);
    var i: nat :| i < |t.clusters| && t.clusters[i] == c;
    assert PlanKeys(t.clusters, plan)[i] == k;
    Closer(m1, k, b);
  }

  ghost function Approach(t: Sys, plan: Plan, c: Prefix, b: nat): nat
    requires ValidSys(t) && ValidPlan(t.m, plan)
    requires var m1 := PlanSets(t.m, plan); ValidSets(m1) && Free(m1, KeyFor(c, plan), b)
  {
    var t1 := PlanSets(t.m, plan)[KeyFor(c, plan)];
    Distance(t1.s.next, b, t1.g.Max())
  }

  lemma Closer(m: Sets, k: Prefix, b: nat)
    requires ValidSets(m) && SomeFree(m, k) && Free(m, k, b) && Head(m, k) != b
    ensures Allocate(m[k].g, m[k].s).0.next < m[k].g.Max()
    ensures Distance(Allocate(m[k].g, m[k].s).0.next, b, m[k].g.Max()) < Distance(m[k].s.next, b, m[k].g.Max())
  {
    hide Allocate, SomeFree;
    CursorComesCloser(m[k].g, m[k].s, b);
  }

  lemma PlanStays(t: Sys, t': Sys, plan: Plan)
    requires PlanReady(t, plan) && ValidSys(t') && t'.clusters == t.clusters && t'.work == map[]
    requires ValidSets(PlanSets(t.m, plan)) && Narrow(PlanSets(t.m, plan)) && SameUsed(PlanSets(t.m, plan), t'.m)
    ensures PlanReady(t', plan) && PlanSets(t'.m, plan) == t'.m
  {
    hide WellFormed, DisjointKeys, ValidPlan, SomeFree, Narrow, OnePerFamily;
    PlanSetsStay(t.m, t'.m, plan);
    ShapeKeeps(PlanSets(t.m, plan), t'.m);
    forall c | c in t.clusters
      ensures SomeFree(t'.m, KeyFor(c, plan))
    {
      StillFree(PlanSets(t.m, plan), t'.m, KeyFor(c, plan));
    }
  }

  lemma PlanSetsStay(m: Sets, m': Sets, plan: Plan)
    requires ValidSets(m) && DisjointKeys(m) && ValidPlan(m, plan)
    requires ValidSets(PlanSets(m, plan)) && ValidSets(m') && SameShape(PlanSets(m, plan), m')
    ensures ValidPlan(m', plan) && PlanSets(m', plan) == m'
  {
    hide WellFormed, DisjointKeys, CanServe, Built;
    var v, global := PlanStarts(m, plan);
  }

  lemma StillFree(m: Sets, m': Sets, k: Prefix)
    requires ValidSets(m) && ValidSets(m') && SameUsed(m, m') && SomeFree(m, k)
    ensures SomeFree(m', k)
  {
    hide WellFormed;
    var b: nat :| Free(m, k, b);
    assert Free(m', k, b);
  }

  /** Proposal after proposal moves the cursor up to the block, and the next one is patched. */
  lemma {:induction false} Chase(env: RP.Env, s: Sys, run: seq<Event>, plan: Plan, name: nat, x: Slot, c: Prefix, b: nat)
    returns (run': seq<Event>)
    requires ValidSys(s) && IsTrace(env, s, run) && Chasing(After(env, s, run), plan, name, x, c, b)
    ensures IsTrace(env, s, run') && !PodsDisjoint(After(env, s, run'))
    decreases Approach(After(env, s, run), plan, c, b)
  {
    hide WellFormed, DisjointKeys, IsTrace, After, PodsDisjoint, Cover, Allocate, SomeFree, Rotated, TookFirst, Narrow,
         Proposed, Head, Approach;
    var t := After(env, s, run);
    var run1 := ProposeRun(env, s, run, plan, name);
    var k := KeyFor(c, plan);
    if Head(PlanSets(t.m, plan), k) == b {
      run' := PatchClashes(env, s, run, plan, name, x, c, b, run1);
    } else {
      var run2 := FailedRun(env, s, run, plan, name, run1);
      StillChasing(t, After(env, s, run2), plan, name, x, c, b);
      run' := Chase(env, s, run2, plan, name, x, c, b);
    }
  }

  // ----- all other nodes go

  /** A pod CIDR of someone else frees the block. */
  ghost predicate OtherFrees(s: Sys, h: Holder, k: Prefix, b: nat)
    requires ValidSys(s)
  {
    exists z: Slot :: z.h != h && Frees(s, z, k, b)
  }

  /** Nothing is in flight, and only nodes hold pod CIDRs. */
  ghost predicate Quiet(t: Sys) {
    ValidSys(t) && t.work == map[] && Narrow(t.m) && forall h | h in t.hold :: h.Node?
  }

  /** What is left when all others are gone. */
  ghost predicate Cleared(t: Sys, t': Sys, h: Holder) {
    && Quiet(t) && Quiet(t') && t'.clusters == t.clusters && SameShape(t.m, t'.m)
    && (forall h' | h' in t'.hold :: h' == h)
    && (h in t'.hold <==> h in t.hold) && (h in t.hold ==> t'.hold[h] == t.hold[h])
    && (forall k, b: nat | k in t.m && b in t'.m[k].s.used :: b in t.m[k].s.used && !OtherFrees(t, h, k, b))
  }

  lemma DeleteRun(env: RP.Env, s: Sys, run: seq<Event>, name: nat) returns (run': seq<Event>)
    requires ValidSys(s) && IsTrace(env, s, run) && Quiet(After(env, s, run)) && Node(name) in After(env, s, run).hold
    ensures IsTrace(env, s, run')
    ensures var t, t' := After(env, s, run), After(env, s, run');
            && Quiet(t') && t'.clusters == t.clusters && Freed(t.m, t'.m, t.hold[Node(name)])
            && t'.hold == t.hold - {Node(name)}
  {
    hide WellFormed, DisjointKeys, IsTrace, After, FreedBy;
    var t := After(env, s, run);
    Extend(env, s, run, DeleteNode(name, 0));
    run' := ReleaseRun(env, s, run + [DeleteNode(name, 0)], 0);
  }

  lemma {:induction false} ClearOthers(env: RP.Env, s: Sys, run: seq<Event>, h: Holder) returns (run': seq<Event>)
    requires ValidSys(s) && IsTrace(env, s, run) && Quiet(After(env, s, run))
    ensures IsTrace(env, s, run') && Cleared(After(env, s, run), After(env, s, run'), h)
    decreases |After(env, s, run).hold.Keys - {h}|
  {
    hide WellFormed, DisjointKeys, IsTrace, After, Freed, OtherFrees, Narrow;
    var t := After(env, s, run);
    run' := run;
    if h' :| h' in t.hold && h' != h {
      var run1 := DeleteRun(env, s, run, h'.name);
      var t1 := After(env, s, run1);
      assert t1.hold.Keys - {h} < t.hold.Keys - {h} by {
        assert h' in t.hold.Keys - {h} && h' !in t1.hold.Keys;
      }
      SmallerSet(t1.hold.Keys - {h}, t.hold.Keys - {h});
      run' := ClearOthers(env, s, run1, h);
      ClearedMore(t, t1, After(env, s, run'), h, h');
    } else {
      NothingFreed(t, h);
    }
  }

  lemma SmallerSet(a: set<Holder>, b: set<Holder>)
    requires a < b
    ensures |a| < |b|
  {
    var x :| x in b && x !in a;
    assert b == a + (b - a) && x in b - a;
  }

  lemma NothingFreed(t: Sys, h: Holder)
    requires Quiet(t) && forall h' | h' in t.hold :: h' == h
    ensures Cleared(t, t, h)
  {
    hide WellFormed, DisjointKeys, Cover;
  }

  lemma ClearedMore(t: Sys, t1: Sys, t2: Sys, h: Holder, gone: Holder)
    requires Quiet(t) && Quiet(t1) && gone in t.hold && gone != h && t1.clusters == t.clusters
    requires Freed(t.m, t1.m, t.hold[gone]) && t1.hold == t.hold - {gone} && Cleared(t1, t2, h)
    ensures Cleared(t, t2, h)
  {
    hide WellFormed, DisjointKeys, FreedBy, Narrow, OtherFrees;
    forall k, b: nat | k in t.m && b in t2.m[k].s.used
      ensures b in t.m[k].s.used && !OtherFrees(t, h, k, b)
    {
      NotFreedBefore(t, t1, h, gone, k, b);
    }
  }

  lemma NotFreedBefore(t: Sys, t1: Sys, h: Holder, gone: Holder, k: Prefix, b: nat)
    requires ValidSys(t) && ValidSys(t1) && gone in t.hold && t1.hold == t.hold - {gone} && SameShape(t.m, t1.m)
    requires k in t.m && !FreedBy(t.m, t.hold[gone], k, b) && !OtherFrees(t1, h, k, b)
    ensures !OtherFrees(t, h, k, b)
  {
    hide WellFormed, DisjointKeys, FreedBy, Frees;
    forall z: Slot | z.h != h
      ensures !Frees(t, z, k, b)
    {
      FreesLater(t, t1, gone, z, k, b);
    }
  }

  lemma FreesLater(t: Sys, t1: Sys, gone: Holder, z: Slot, k: Prefix, b: nat)
    requires ValidSys(t) && ValidSys(t1) && gone in t.hold && t1.hold == t.hold - {gone} && SameShape(t.m, t1.m)
    ensures Frees(t, z, k, b) ==> if z.h == gone then FreedBy(t.m, t.hold[gone], k, b) else Frees(t1, z, k, b)
  {
    hide WellFormed, DisjointKeys, Cover, Prefix.Contains;
    if Frees(t, z, k, b) && z.h == gone {
      assert Pod(t, z) in t.hold[gone];
    }
  }

  /** A number above all names. */
  lemma {:induction false} FreshNumber(hs: set<Holder>) returns (n: nat)
    ensures forall h | h in hs && h.Node? :: h.name < n
    decreases |hs|
  {
    if hs == {} {
      n := 0;
    } else {
      var h :| h in hs;
      var n' := FreshNumber(hs - {h});
      n := if h.Worker? || h.name < n' then n' else h.name + 1;
    }
  }

  // ----- a reachable pod CIDR

  /** The set has a block that is free, or that someone other than the holder can free. */
  ghost predicate RoomBeside(s: Sys, h: Holder, k: Prefix)
    requires ValidSys(s)
  {
    k in s.m && exists b: nat :: b < s.m[k].g.Max() && (b !in s.m[k].s.used || OtherFrees(s, h, k, b))
  }

  /** What the constructor documents of its caller, and no set of 2^32 blocks. */
  ghost predicate Config(s: Sys) {
    OnePerFamily(s.clusters) && Narrow(s.m)
  }

  lemma PlanShape(m: Sets, m': Sets, plan: Plan)
    requires ValidSets(m) && ValidSets(m') && SameShape(m, m') && ValidPlan(m, plan)
    ensures ValidPlan(m', plan)
  {
    hide WellFormed, CanServe, Built;
  }

  /** What others can free is free once they are gone. */
  lemma ClearedFree(s: Sys, t: Sys, h: Holder, plan: Plan, k: Prefix, b: nat)
    requires ValidSys(s) && ValidSys(t) && Cleared(s, t, h) && ValidPlan(s.m, plan)
    requires ValidSys(s.(m := PlanSets(s.m, plan))) && ValidSets(PlanSets(t.m, plan))
    requires var s1 := s.(m := PlanSets(s.m, plan));
             k in s1.m && b < s1.m[k].g.Max() && (b !in s1.m[k].s.used || OtherFrees(s1, h, k, b))
    ensures Free(PlanSets(t.m, plan), k, b) && PlanSets(t.m, plan)[k].g == PlanSets(s.m, plan)[k].g
  {
    hide WellFormed, DisjointKeys, Cover, ValidPlan, Prefix.Contains, Narrow;
    var s1 := s.(m := PlanSets(s.m, plan));
    if k in s.m && OtherFrees(s1, h, k, b) {
      var z: Slot :| z.h != h && Frees(s1, z, k, b);
      assert Frees(s, z, k, b);
      assert OtherFrees(s, h, k, b);
    }
  }

  lemma StartQuiet(s: Sys)
    requires Start(s) && Config(s)
    ensures Quiet(s)
  {
  }

  /** After the others are gone, the plan has room. */
  lemma ClearedReady(s: Sys, t: Sys, h: Holder, plan: Plan)
    requires Start(s) && Config(s) && s.clusters != [] && Cleared(s, t, h) && ValidPlan(s.m, plan)
    requires ValidSys(s.(m := PlanSets(s.m, plan)))
    requires forall c | c in s.clusters :: RoomBeside(s.(m := PlanSets(s.m, plan)), h, KeyFor(c, plan))
    ensures PlanReady(t, plan)
  {
    hide WellFormed, DisjointKeys, Cover, OtherFrees, PodsDisjoint, Narrow, ValidPlan, PlanSets, Free, Needs, Frees;
    PlanShape(s.m, t.m, plan);
    PlanValid(t, plan);
    var s1 := s.(m := PlanSets(s.m, plan));
    forall c | c in t.clusters
      ensures SomeFree(PlanSets(t.m, plan), KeyFor(c, plan))
    {
      var k := KeyFor(c, plan);
      var b: nat :| b < s1.m[k].g.Max() && (b !in s1.m[k].s.used || OtherFrees(s1, h, k, b));
      ClearedFree(s, t, h, plan, k, b);
    }
  }

  /** What exposes a pod CIDR is a free block or another holder's release. */
  lemma ExposedByOther(s: Sys, plan: Plan, x: Slot, k: Prefix, b: nat)
    requires Start(s) && ValidSys(s.(m := PlanSets(s.m, plan)))
    requires Exposed(s.(m := PlanSets(s.m, plan)), x, k, b)
    ensures var s1 := s.(m := PlanSets(s.m, plan));
            k in s1.m && b < s1.m[k].g.Max() && (b !in s1.m[k].s.used || OtherFrees(s1, x.h, k, b))
  {
    hide WellFormed, DisjointKeys, PodsDisjoint, Prefix.Contains;
    var s1 := s.(m := PlanSets(s.m, plan));
    if b in s1.m[k].s.used {
      var y :| y != x && Frees(s1, y, k, b);
      assert k in s.m;
      assert Needs(s, x, k, b) && Frees(s, y, k, b);
    }
  }

  /** A live pod CIDR that a plan exposes, with room beside its node, leads to a second node on one
      of its blocks. */
  lemma ReachedBreaks(env: RP.Env, s: Sys, plan: Plan, x: Slot, c: Prefix, b: nat) returns (run: seq<Event>)
    requires Start(s) && Config(s) && ValidPlan(s.m, plan) && c in s.clusters
    requires ValidSys(s.(m := PlanSets(s.m, plan)))
    requires forall c' | c' in s.clusters :: RoomBeside(s.(m := PlanSets(s.m, plan)), x.h, KeyFor(c', plan))
    requires Exposed(s.(m := PlanSets(s.m, plan)), x, KeyFor(c, plan), b)
    ensures IsTrace(env, s, run) && !PodsDisjoint(After(env, s, run))
  {
    hide WellFormed, DisjointKeys, PodsDisjoint, Cover, Narrow, ValidPlan, PlanSets, RoomBeside, Exposed, OtherFrees,
         OnePerFamily, Config, Quiet, SomeFree, Free, PlanReady;
    var s1 := s.(m := PlanSets(s.m, plan));
    var k := KeyFor(c, plan);
    StartQuiet(s);
    var run0 := ClearOthers(env, s, [], x.h);
    var t0 := After(env, s, run0);
    ClearedReady(s, t0, x.h, plan);
    var n := FreshNumber(s.hold.Keys);
    ExposedByOther(s, plan, x, k, b);
    ExposedSlot(s, s1, x, k, b);
    Extend(env, s, run0, CreateNode(n));
    var t := After(env, s, run0 + [CreateNode(n)]);
    SameReady(t0, t, plan);
    PlanReadySets(t, plan);
    ClearedFree(s, t0, x.h, plan, k, b);
    run := Chase(env, s, run0 + [CreateNode(n)], plan, n, x, c, b);
  }

  lemma ExposedSlot(s: Sys, s1: Sys, x: Slot, k: Prefix, b: nat)
    requires Start(s) && ValidSys(s1) && s1.hold == s.hold && Exposed(s1, x, k, b)
    ensures x.h in s.hold && x.h.Node? && IsSlot(s, x) && Pod(s, x).Valid()
    ensures k in s1.m && b in Cover(s1.m[k].g, Pod(s, x))
  {
    hide PodsDisjoint, WellFormed, DisjointKeys, Cover;
  }

  lemma SameReady(t: Sys, t': Sys, plan: Plan)
    requires PlanReady(t, plan) && ValidSys(t') && t'.m == t.m && t'.clusters == t.clusters && t'.work == t.work
    ensures PlanReady(t', plan)
  {
    hide WellFormed, DisjointKeys, ValidPlan, SomeFree;
  }

  lemma PlanReadySets(t: Sys, plan: Plan)
    requires PlanReady(t, plan)
    ensures ValidSets(PlanSets(t.m, plan)) && ValidSys(t)
  {
    hide WellFormed, DisjointKeys, ValidPlan, SomeFree;
    PlanValid(t, plan);
  }

  // ----- what can happen, exactly

  ghost predicate AllRunsDisjoint(env: RP.Env, s: Sys)
    requires ValidSys(s)
  {
    forall run | IsTrace(env, s, run) :: PodsDisjoint(After(env, s, run))
  }

  /** No node alone holds all the room that is left in a set. */
  ghost predicate NoLastRoom(s: Sys)
    requires ValidSys(s)
  {
    forall plan, h, c | Feasible(s, plan) && h in s.hold && c in s.clusters ::
      && ValidSys(s.(m := PlanSets(s.m, plan)))
      && RoomBeside(s.(m := PlanSets(s.m, plan)), h, KeyFor(c, plan))
  }

  /** What makes a start reachable is a feasible plan that exposes a pod CIDR. */
  lemma ReachedPlan(s: Sys) returns (plan: Plan, x: Slot, c: Prefix, b: nat)
    requires Start(s) && !Unreached(s)
    ensures Feasible(s, plan) && c in s.clusters && ValidSys(s.(m := PlanSets(s.m, plan)))
    ensures Exposed(s.(m := PlanSets(s.m, plan)), x, KeyFor(c, plan), b)
  {
    hide WellFormed, DisjointKeys, PodsDisjoint, Cover, Feasible, Exposed, Needs, Frees;
    if x0, k, b0: nat :| k in s.m && Reachable(s, k) && Exposed(s, x0, k, b0) {
      plan, c :| c in s.clusters && k == KeyFor(c, plan) && Feasible(s, plan);
      x, b := x0, b0;
      FeasibleValid(s, plan);
      StillExposed(s, plan, x, k, b);
    } else {
      var x0, g :| IsSlot(s, x0) && Pod(s, x0).Valid() && Addable(s.m, g) && Reachable(s, g.cluster) &&
                   Pod(s, x0).Overlaps(g.cluster);
      plan, c :| c in s.clusters && g.cluster == KeyFor(c, plan) && Feasible(s, plan);
      x := x0;
      FeasibleValid(s, plan);
      b := NewExposed(s, plan, x, c, g);
    }
  }

  lemma FeasibleValid(s: Sys, plan: Plan)
    requires ValidSys(s) && Feasible(s, plan)
    ensures ValidPlan(s.m, plan) && ValidSys(s.(m := PlanSets(s.m, plan)))
  {
    hide WellFormed, DisjointKeys, ValidPlan, HasRoom;
    PlanValid(s, plan);
  }

  lemma StillExposed(s: Sys, plan: Plan, x: Slot, k: Prefix, b: nat)
    requires ValidSys(s) && ValidSys(s.(m := PlanSets(s.m, plan))) && Exposed(s, x, k, b)
    ensures Exposed(s.(m := PlanSets(s.m, plan)), x, k, b)
  {
    hide WellFormed, DisjointKeys, Cover, Prefix.Contains;
    var s1 := s.(m := PlanSets(s.m, plan));
    if b in s.m[k].s.used {
      var y :| y != x && Frees(s, y, k, b);
      assert Frees(s1, y, k, b);
    }
  }

  lemma NewExposed(s: Sys, plan: Plan, x: Slot, c: Prefix, g: Geometry) returns (b: nat)
    requires Start(s) && ValidPlan(s.m, plan) && ValidSys(s.(m := PlanSets(s.m, plan))) && c in s.clusters
    requires IsSlot(s, x) && Pod(s, x).Valid() && Addable(s.m, g) && g.cluster == KeyFor(c, plan)
    requires Pod(s, x).Overlaps(g.cluster)
    ensures Exposed(s.(m := PlanSets(s.m, plan)), x, KeyFor(c, plan), b)
  {
    hide WellFormed, DisjointKeys, PodsDisjoint, Built, CanServe;
    assert g.cluster.Overlaps(g.cluster);
    assert g.cluster !in s.m;
    assert plan.Through? && plan.g.cluster == g.cluster;
    CoverEmptyIffDisjoint(plan.g, Pod(s, x));
    b :| b in Cover(plan.g, Pod(s, x));
  }

  /** Without lost acknowledgements and finalizers, and unless one node alone holds the last room of a
      set, the pod CIDRs of live nodes are disjoint over all runs if and only if no set that can
      serve a reservation exposes one. */
  lemma UnreachedExactly(env: RP.Env, s: Sys)
    requires Start(s) && Config(s) && NoLastRoom(s) && !env.lostAcks && !env.finalizers
    ensures AllRunsDisjoint(env, s) <==> Unreached(s)
  {
    hide WellFormed, DisjointKeys, PodsDisjoint, Unreached, Config, IsTrace, After, Exposed, Feasible, RoomBeside, Needs, Frees;
    if Unreached(s) {
      forall run | IsTrace(env, s, run)
        ensures PodsDisjoint(After(env, s, run))
      {
        UnreachedIsSafe(env, s, run);
      }
    } else {
      var run := ReachedRun(env, s);
    }
  }

  lemma ReachedRun(env: RP.Env, s: Sys) returns (run: seq<Event>)
    requires Start(s) && Config(s) && NoLastRoom(s) && !Unreached(s)
    ensures IsTrace(env, s, run) && !PodsDisjoint(After(env, s, run))
  {
    hide WellFormed, DisjointKeys, PodsDisjoint, Unreached, Config, IsTrace, After, Feasible, RoomBeside, Frees, Cover;
    var plan, x, c, b := ReachedPlan(s);
    FeasibleValid(s, plan);
    ExposedSlot(s, s.(m := PlanSets(s.m, plan)), x, KeyFor(c, plan), b);
    run := ReachedBreaks(env, s, plan, x, c, b);
  }

  /** In the terms of marking: where pod CIDRs fit the sets, the condition is that each of them is
      marked or out of reach of every set that can serve a reservation. */
  lemma MarkedExactly(env: RP.Env, s: Sys)
    requires Start(s) && Config(s) && NoLastRoom(s) && FitsSets(s) && !env.lostAcks && !env.finalizers
    ensures AllRunsDisjoint(env, s) <==> MarkedOrOut(s)
  {
    hide AllRunsDisjoint, Unreached, MarkedOrOut, NoLastRoom, FitsSets, Config, Start;
    UnreachedExactly(env, s);
    UnreachedIsMarked(s);
  }

  /** A pod CIDR of a family that no cluster CIDR has is out of reach, marked or not. */
  lemma OtherFamilyOut(s: Sys, x: Slot)
    requires Start(s) && IsSlot(s, x) && Pod(s, x).Valid() && forall c | c in s.clusters :: c.family != Pod(s, x).family
    ensures OutOfReach(s, x)
  {
    hide WellFormed, DisjointKeys, PodsDisjoint, HasRoom, ValidPlan, Built, Cover;
    forall k | Reachable(s, k)
      ensures k.family != Pod(s, x).family
    {
      var plan, c :| c in s.clusters && k == KeyFor(c, plan) && Feasible(s, plan);
      if plan.Through? {
        PlanFamily(s.m, plan);
      }
    }
  }

  /** An IPv4 cluster CIDR without room, as one inside a service range, puts everything out of
      reach. */
  lemma FullClusterOut(s: Sys, c: Prefix)
    requires Start(s) && c in s.clusters && c.family == V4 && !HasRoom(s, c)
    ensures Unreached(s)
  {
    hide WellFormed, DisjointKeys, PodsDisjoint, ValidPlan, Exposed, Addable;
    forall k
      ensures !Reachable(s, k)
    {
      if Reachable(s, k) {
        var plan, c' :| c' in s.clusters && k == KeyFor(c', plan) && Feasible(s, plan);
        FeasibleValid(s, plan);
        assert HasRoom(s.(m := PlanSets(s.m, plan)), KeyFor(c, plan));
        RoomStays(s, plan, c);
      }
    }
  }

  lemma RoomStays(s: Sys, plan: Plan, k: Prefix)
    requires ValidSys(s) && ValidSys(s.(m := PlanSets(s.m, plan))) && k in s.m
    requires HasRoom(s.(m := PlanSets(s.m, plan)), k)
    ensures HasRoom(s, k)
  {
    hide WellFormed, DisjointKeys, Cover, Prefix.Contains;
    var s1 := s.(m := PlanSets(s.m, plan));
    var b: nat :| b < s1.m[k].g.Max() && !Permanent(s1, k, b);
    if Permanent(s, k, b) {
      forall x
        ensures !Frees(s1, x, k, b)
      {
        assert !Frees(s, x, k, b);
      }
    }
  }

  // ----- lost acknowledgements and deletion timestamps

  /** Once all nodes are gone, every feasible plan has free blocks. */
  lemma FeasibleReady(s: Sys, t: Sys, h: Holder, plan: Plan)
    requires Start(s) && Config(s) && s.clusters != [] && h !in s.hold && Cleared(s, t, h) && Feasible(s, plan)
    ensures PlanReady(t, plan)
  {
    hide WellFormed, DisjointKeys, PodsDisjoint, Cleared, Config, ValidPlan, Cover, PlanSets, PlanReady;
    FeasibleValid(s, plan);
    var s1 := s.(m := PlanSets(s.m, plan));
    forall c | c in s.clusters
      ensures RoomBeside(s1, h, KeyFor(c, plan))
    {
      var k := KeyFor(c, plan);
      assert HasRoom(s1, k);
      var b: nat :| b < s1.m[k].g.Max() && !Permanent(s1, k, b);
      if b in s1.m[k].s.used {
        var z :| Frees(s1, z, k, b);
        assert z.h != h;
        assert OtherFrees(s1, h, k, b);
      }
    }
    ClearedReady(s, t, h, plan);
  }

  /** All nodes gone, two new ones, and a proposal for the first of them. */
  lemma ProposeToNew(env: RP.Env, s: Sys, plan: Plan) returns (run: seq<Event>, run1: seq<Event>, n: nat)
    requires Start(s) && Config(s) && s.clusters != [] && Feasible(s, plan)
    ensures IsTrace(env, s, run) && IsTrace(env, s, run1)
    ensures var t := After(env, s, run);
            && Proposed(t, After(env, s, run1), plan, n) && Node(n) in t.hold && t.hold[Node(n)] == []
            && Node(n + 1) in t.hold && t.hold[Node(n + 1)] == []
  {
    hide WellFormed, DisjointKeys, PodsDisjoint, IsTrace, After, Feasible, Config, Quiet, PlanReady, OtherFrees, Proposed;
    n := FreshNumber(s.hold.Keys);
    StartQuiet(s);
    BeginTrace(env, s);
    var r0 := ClearOthers(env, s, [], Node(n));
    var t0 := After(env, s, r0);
    FeasibleReady(s, t0, Node(n), plan);
    Extend(env, s, r0, CreateNode(n));
    var r1 := r0 + [CreateNode(n)];
    Extend(env, s, r1, CreateNode(n + 1));
    run := r1 + [CreateNode(n + 1)];
    SameReady(t0, After(env, s, run), plan);
    run1 := ProposeRun(env, s, run, plan, n);
  }

  lemma BeginTrace(env: RP.Env, s: Sys)
    requires ValidSys(s)
    ensures IsTrace(env, s, []) && After(env, s, []) == s
  {
  }

  /** The blocks of a node that was patched are free again: the second node can be given them. */
  lemma PatchedAndFreed(t: Sys, t': Sys, plan: Plan, n: nat)
    requires PlanReady(t, plan) && ValidSets(PlanSets(t.m, plan)) && ValidSys(t')
    requires var keys := PlanKeys(t.clusters, plan);
             && (forall i: nat | i < |keys| :: SomeFree(PlanSets(t.m, plan), keys[i]))
             && t'.hold == t.hold[Node(n) := Heads(PlanSets(t.m, plan), keys, |keys|)]
             && Rotated(PlanSets(t.m, plan), t'.m, keys)
    requires t'.clusters == t.clusters && t'.work == map[]
    requires Node(n + 1) in t.hold && t.hold[Node(n + 1)] == []
    ensures var c := t.clusters[0];
            && SomeFree(PlanSets(t.m, plan), KeyFor(c, plan))
            && Chasing(t', plan, n + 1, Slot(Node(n), 0), c, Head(PlanSets(t.m, plan), KeyFor(c, plan)))
  {
    hide WellFormed, DisjointKeys, Cover, Allocate, Narrow, ValidPlan, SomeFree, OnePerFamily, Head, PlanReady, PlanSets;
    PlanReadyParts(t, plan);
    var m1, c := PlanSets(t.m, plan), t.clusters[0];
    var k := KeyFor(c, plan);
    assert PlanKeys(t.clusters, plan)[0] == k;
    var b := Head(m1, k);
    HeadWasFree(m1, k);
    PlanNarrow(t.m, plan);
    PlanStays(t, t', plan);
    BlockInside(m1[k].g, b);
    CoverOfBlock(m1[k].g, b);
    assert Free(t'.m, k, b) && t'.m[k].g == m1[k].g;
  }

  lemma PlanReadyParts(t: Sys, plan: Plan)
    requires PlanReady(t, plan)
    ensures ValidSys(t) && ValidPlan(t.m, plan) && Narrow(t.m) && t.clusters != []
  {
  }

  /** The sets after a proposal was patched and its blocks released all the same. */
  lemma ReleasedProposal(t: Sys, t1: Sys, t2: Sys, plan: Plan, n: nat)
    requires Proposed(t, t1, plan, n) && ValidSets(PlanSets(t.m, plan))
    requires Freed(t1.m, t2.m, t1.hold[Worker(0)])
    ensures Rotated(PlanSets(t.m, plan), t2.m, PlanKeys(t.clusters, plan))
  {
    hide WellFormed, DisjointKeys, TookFirst, Freed, Heads, Rotated, ValidPlan, SomeFree;
    PlanValid(t, plan);
    GivenBack(PlanSets(t.m, plan), t1.m, t2.m, PlanKeys(t.clusters, plan));
  }

  /** After a proposal for node n, the node has the blocks, and they are released all the same. */
  ghost predicate Orphaned(t: Sys, t1: Sys, t2: Sys, n: nat)
    requires ValidSets(t1.m)
  {
    && Worker(0) in t1.hold && Freed(t1.m, t2.m, t1.hold[Worker(0)])
    && t2.clusters == t.clusters && t2.work == map[] && t2.hold == t.hold[Node(n) := t1.hold[Worker(0)]]
  }

  lemma OrphanedBreaks(env: RP.Env, s: Sys, r0: seq<Event>, r1: seq<Event>, r2: seq<Event>, plan: Plan, n: nat)
    returns (run: seq<Event>)
    requires ValidSys(s) && IsTrace(env, s, r0) && IsTrace(env, s, r1) && IsTrace(env, s, r2)
    requires Proposed(After(env, s, r0), After(env, s, r1), plan, n)
    requires Orphaned(After(env, s, r0), After(env, s, r1), After(env, s, r2), n)
    requires var t := After(env, s, r0); Node(n + 1) in t.hold && t.hold[Node(n + 1)] == []
    ensures IsTrace(env, s, run) && !PodsDisjoint(After(env, s, run))
  {
    hide WellFormed, DisjointKeys, PodsDisjoint, IsTrace, After, PlanReady, TookFirst, Heads, Freed, Rotated, SomeFree, Chasing;
    var t, t1, t2 := After(env, s, r0), After(env, s, r1), After(env, s, r2);
    ProposedNarrow(t, t1, plan, n);
    ReleasedProposal(t, t1, t2, plan, n);
    PatchedAndFreed(t, t2, plan, n);
    run := Chase(env, s, r2, plan, n + 1, Slot(Node(n), 0), t.clusters[0],
                 Head(PlanSets(t.m, plan), KeyFor(t.clusters[0], plan)));
  }

  lemma LostAckOrphans(env: RP.Env, s: Sys, r0: seq<Event>, r1: seq<Event>, plan: Plan, n: nat) returns (r2: seq<Event>)
    requires ValidSys(s) && IsTrace(env, s, r0) && IsTrace(env, s, r1) && env.lostAcks
    requires Proposed(After(env, s, r0), After(env, s, r1), plan, n)
    requires var t := After(env, s, r0); Node(n) in t.hold && t.hold[Node(n)] == []
    ensures IsTrace(env, s, r2) && Orphaned(After(env, s, r0), After(env, s, r1), After(env, s, r2), n)
  {
    hide WellFormed, DisjointKeys, IsTrace, After, PlanReady, TookFirst, Heads, Freed, SomeFree, Narrow, PlanSets;
    var t, t1 := After(env, s, r0), After(env, s, r1);
    var lost := PatchLost(0, R.ServerTimeout);
    Extend(env, s, r1, lost);
    ProposedNarrow(t, t1, plan, n);
    var ips :| t1.work == map[0 := Patching(n, ips, true, 0)];
    assert After(env, s, r1 + [lost]).work == map[0 := Patching(n, ips, true, 1)];
    r2 := GiveUpRun(env, s, r1 + [lost], 1);
    assert After(env, s, r2).hold == t.hold[Node(n) := t1.hold[Worker(0)]];
  }

  lemma FinalizerOrphans(env: RP.Env, s: Sys, r0: seq<Event>, r1: seq<Event>, plan: Plan, n: nat) returns (r2: seq<Event>)
    requires ValidSys(s) && IsTrace(env, s, r0) && IsTrace(env, s, r1) && env.finalizers
    requires Proposed(After(env, s, r0), After(env, s, r1), plan, n)
    requires var t := After(env, s, r0); Node(n) in t.hold && t.hold[Node(n)] == []
    ensures IsTrace(env, s, r2) && Orphaned(After(env, s, r0), After(env, s, r1), After(env, s, r2), n)
  {
    hide WellFormed, DisjointKeys, IsTrace, After, PlanReady, TookFirst, Heads, Freed, SomeFree, Narrow, PlanSets;
    var t, t1 := After(env, s, r0), After(env, s, r1);
    Extend(env, s, r1, PatchOk(0));
    ProposedNarrow(t, t1, plan, n);
    Extend(env, s, r1 + [PatchOk(0)], SyncDeleting(n, 0));
    r2 := ReleaseRun(env, s, r1 + [PatchOk(0)] + [SyncDeleting(n, 0)], 0);
    assert After(env, s, r2).hold == t.hold[Node(n) := t1.hold[Worker(0)]];
  }

  /** An applied patch that is reported as failed: the blocks of the live node are released, and a
      second node is given one. */
  lemma LostAckRun(env: RP.Env, s: Sys, plan: Plan) returns (run: seq<Event>)
    requires Start(s) && Config(s) && s.clusters != [] && Feasible(s, plan) && env.lostAcks
    ensures IsTrace(env, s, run) && !PodsDisjoint(After(env, s, run))
  {
    hide WellFormed, DisjointKeys, PodsDisjoint, IsTrace, After, Feasible, Config, Start, Proposed, Orphaned;
    StartTracked(s);
    var r0, r1, n := ProposeToNew(env, s, plan);
    var r2 := LostAckOrphans(env, s, r0, r1, plan, n);
    run := OrphanedBreaks(env, s, r0, r1, r2, plan, n);
  }

  lemma ProposedNarrow(t: Sys, t': Sys, plan: Plan, n: nat)
    requires Proposed(t, t', plan, n)
    ensures Narrow(t'.m) && ValidSets(PlanSets(t.m, plan)) && t.clusters != [] && Worker(0) !in t.hold
  {
    hide WellFormed, DisjointKeys, ValidPlan, SomeFree, Heads, TookFirst;
    PlanNarrow(t.m, plan);
    TookNarrow(PlanSets(t.m, plan), t'.m, PlanKeys(t.clusters, plan));
  }

  /** A node under deletion is released while it is still served. */
  lemma FinalizerRun(env: RP.Env, s: Sys, plan: Plan) returns (run: seq<Event>)
    requires Start(s) && Config(s) && s.clusters != [] && Feasible(s, plan) && env.finalizers
    ensures IsTrace(env, s, run) && !PodsDisjoint(After(env, s, run))
  {
    hide WellFormed, DisjointKeys, PodsDisjoint, IsTrace, After, Feasible, Config, Start, Proposed, Orphaned;
    StartTracked(s);
    var r0, r1, n := ProposeToNew(env, s, plan);
    var r2 := FinalizerOrphans(env, s, r0, r1, plan, n);
    run := OrphanedBreaks(env, s, r0, r1, r2, plan, n);
  }

  /** If some reservation can be served at all, the pod CIDRs of live nodes are disjoint over all runs
      if and only if no set that can serve one exposes a pod CIDR, and the environment neither loses
      acknowledgements nor serves nodes under deletion. */
  lemma DisjointExactly(env: RP.Env, s: Sys, plan: Plan)
    requires Start(s) && Config(s) && NoLastRoom(s) && s.clusters != [] && Feasible(s, plan)
    ensures AllRunsDisjoint(env, s) <==> Unreached(s) && !env.lostAcks && !env.finalizers
  {
    hide WellFormed, DisjointKeys, PodsDisjoint, Unreached, IsTrace, After, Start, Config, NoLastRoom, Feasible;
    if env.lostAcks {
      var run := LostAckRun(env, s, plan);
    } else if env.finalizers {
      var run := FinalizerRun(env, s, plan);
    } else {
      UnreachedExactly(env, s);
    }
  }
}
