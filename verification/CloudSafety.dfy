/** Which sets a reservation of the cloud allocator can be served from, and why pod CIDRs of live
    nodes stay disjoint if none of these sets can hand out a block of one. */
module CloudSafety {
  import opened Common
  import opened Prefixes
  import opened Geometry
  import opened SetState
  import opened CloudSpec
  import opened MaskLadder
  import opened Discovery
  import opened KeyGuard
  import opened NodeSelection
  import opened PodMarking
  import opened CloudProtocol
  import R = RangeSpec
  import RP = RangeProtocol

  // ----- sets that can serve a reservation

  /** Some node's prefix makes the allocator reserve at this key: a public key that contains the
      network address of an interface prefix, or a key around a public interface address. */
  ghost predicate CanServe(k: Prefix) {
    && k.Valid() && k.family == V6
    && (|| (!IsPrivate(k.First()) && exists h :: PublicHost(h) && k.Contains(h.Masked().First()))
        || exists h :: PublicHost(h) && k.Covers(h.Host()))
  }

  /** The set that the ladder builds for some public interface prefix. */
  ghost predicate Built(g: Geometry) {
    exists h, n: nat :: n > 0 && PublicHost(h) && h.bits != 128 && Ladder(h, n) == Ok(g)
  }

  /** ... whose key no tracked one meets. */
  ghost predicate Addable(m: Sets, g: Geometry)
    requires ValidSets(m)
  {
    g.Valid() && Built(g) && forall k | k in m :: !g.cluster.Overlaps(k)
  }

  /** How the IPv6 cluster CIDRs of a reservation are served: each from its own set, or all from
      the set of the node's prefix. */
  datatype Plan = ByCluster | Through(g: Geometry)

  ghost predicate ValidPlan(m: Sets, plan: Plan)
    requires ValidSets(m)
  {
    plan.Through? ==>
      if plan.g.cluster in m then plan.g == m[plan.g.cluster].g && CanServe(plan.g.cluster) else Addable(m, plan.g)
  }

  ghost function PlanSets(m: Sets, plan: Plan): Sets {
    if plan.Through? then WithSet(m, plan.g) else m
  }

  function KeyFor(c: Prefix, plan: Plan): Prefix {
    if c.family == V6 && plan.Through? then plan.g.cluster else c
  }

  lemma PlanValid(s: Sys, plan: Plan)
    requires ValidSys(s) && ValidPlan(s.m, plan)
    ensures ValidSys(s.(m := PlanSets(s.m, plan)))
  {
    hide WellFormed, CanServe, Built, Prefix.Valid;
    if plan.Through? && plan.g.cluster !in s.m {
      AddedDisjoint(s.m, plan.g);
    }
  }

  lemma AddedDisjoint(m: Sets, g: Geometry)
    requires ValidSets(m) && DisjointKeys(m) && g.Valid() && forall k | k in m :: !g.cluster.Overlaps(k)
    ensures ValidSets(WithSet(m, g)) && DisjointKeys(WithSet(m, g))
  {
  }

  /** In use for good: no held pod CIDR frees the block. */
  ghost predicate Permanent(s: Sys, k: Prefix, b: nat)
    requires ValidSys(s)
  {
    k in s.m && b in s.m[k].s.used && forall x :: !Frees(s, x, k, b)
  }

  ghost predicate HasRoom(s: Sys, k: Prefix)
    requires ValidSys(s)
  {
    k in s.m && exists b: nat :: b < s.m[k].g.Max() && !Permanent(s, k, b)
  }

  /** Every set of the plan has a block that is free, or that some holder can free. */
  ghost predicate Feasible(s: Sys, plan: Plan)
    requires ValidSys(s)
  {
    && ValidPlan(s.m, plan)
    && (PlanValid(s, plan);
        forall c | c in s.clusters :: HasRoom(s.(m := PlanSets(s.m, plan)), KeyFor(c, plan)))
  }

  /** The pod CIDR meets a block that is free or that another holder can free. */
  ghost predicate Exposed(s: Sys, x: Slot, k: Prefix, b: nat)
    requires ValidSys(s)
  {
    Needs(s, x, k, b) && (b !in s.m[k].s.used || exists y :: y != x && Frees(s, y, k, b))
  }

  /** The key serves some feasible plan. */
  ghost predicate Reachable(s: Sys, k: Prefix)
    requires ValidSys(s)
  {
    exists plan, c :: c in s.clusters && k == KeyFor(c, plan) && Feasible(s, plan)
  }

  /** No set that can serve a reservation exposes a pod CIDR: one that is tracked has every block
      that a pod CIDR meets in use, with nobody else to free it, and one that can be added meets
      none. */
  ghost predicate Unreached(s: Sys)
    requires ValidSys(s)
  {
    && (forall x, k, b: nat | k in s.m && Reachable(s, k) :: !Exposed(s, x, k, b))
    && (forall x, g | IsSlot(s, x) && Pod(s, x).Valid() && Addable(s.m, g) && Reachable(s, g.cluster) ::
          !Pod(s, x).Overlaps(g.cluster))
  }

  // ----- the invariant over a run from s0

  /** For a class of keys: what a pod CIDR meets is in use, and only its own release frees it. */
  ghost predicate Guarded(s: Sys, F: iset<Prefix>)
    requires ValidSys(s)
  {
    forall x, k, b: nat | k in F :: !Exposed(s, x, k, b)
  }

  /** The conditions on a start that make a class of keys guarded for good. */
  ghost predicate SafeFor(s0: Sys, F: iset<Prefix>)
    requires ValidSys(s0)
  {
    && Guarded(s0, F)
    && forall x, g | IsSlot(s0, x) && Pod(s0, x).Valid() && Addable(s0.m, g) && g.cluster in F ::
         !Pod(s0, x).Overlaps(g.cluster)
  }

  /** Sets are only added, by the ladder; what was in use for good still is. */
  ghost predicate Grown(s0: Sys, s: Sys)
    requires ValidSys(s0) && ValidSys(s)
  {
    && s.clusters == s0.clusters
    && s0.m.Keys <= s.m.Keys && (forall k | k in s0.m :: s.m[k].g == s0.m[k].g)
    && (forall k | k in s.m && k !in s0.m :: Built(s.m[k].g))
    && (forall k, b: nat | Permanent(s0, k, b) :: b in s.m[k].s.used)
  }

  /** A block that was handed out since the start. */
  ghost predicate Fresh(s0: Sys, s: Sys, p: Prefix, k: Prefix, b: nat)
    requires ValidSys(s0) && ValidSys(s)
  {
    IsBlock(s.m, k, b, p) && !Permanent(s0, k, b)
  }

  ghost predicate IsFresh(s0: Sys, s: Sys, p: Prefix)
    requires ValidSys(s0) && ValidSys(s)
  {
    exists k, b: nat :: Fresh(s0, s, p, k, b)
  }

  ghost predicate IsOld(s0: Sys, p: Prefix) {
    exists x :: IsSlot(s0, x) && Pod(s0, x) == p
  }

  /** Every pod CIDR is one of the start or a block handed out since. */
  ghost predicate Known(s0: Sys, s: Sys)
    requires ValidSys(s0) && ValidSys(s)
  {
    forall x | IsSlot(s, x) :: IsOld(s0, Pod(s, x)) || IsFresh(s0, s, Pod(s, x))
  }

  /** Where a worker's addresses come from. */
  ghost predicate Origin(m: Sets, global: Option<HostPrefix>) {
    global.Some? ==>
      || PublicHost(global.value)
      || exists k :: k in m && CanServe(k) && k.First() == global.value.Host()
  }

  ghost predicate Targeted(s: Sys, ips: seq<Addr>) {
    exists global :: ips == Targets(s.clusters, global) && Origin(s.m, global)
  }

  /** The i-th block of a worker comes from the set around its i-th address. */
  ghost predicate From(s0: Sys, s: Sys, p: Prefix, ip: Addr)
    requires ValidSys(s0) && ValidSys(s)
  {
    exists k, b: nat :: Hit(s.m, k, ip) && Fresh(s0, s, p, k, b)
  }

  ghost predicate Aligned(s0: Sys, s: Sys, got: seq<Prefix>, ips: seq<Addr>, n: nat, whole: bool)
    requires ValidSys(s0) && ValidSys(s)
  {
    && n <= |ips| && Targeted(s, ips)
    && (whole ==> |got| == n && forall i: nat | i < n :: From(s0, s, got[i], ips[i]))
  }

  ghost predicate WorkOk(s0: Sys, s: Sys, pid: nat)
    requires ValidSys(s0) && ValidSys(s) && pid in s.work
  {
    match s.work[pid]
    case Reserving(_, ips, idx, whole) => Aligned(s0, s, s.hold[Worker(pid)], ips, idx, whole)
    case Patching(_, ips, whole, _) => Aligned(s0, s, s.hold[Worker(pid)], ips, |ips|, whole)
    case Releasing(_) => true
  }

  ghost predicate AllWorkOk(s0: Sys, s: Sys)
    requires ValidSys(s0) && ValidSys(s)
  {
    forall pid | pid in s.work :: WorkOk(s0, s, pid)
  }

  ghost predicate Inv(s0: Sys, F: iset<Prefix>, s: Sys)
    requires ValidSys(s0) && ValidSys(s)
  {
    Grown(s0, s) && Known(s0, s) && Guarded(s, F) && AllWorkOk(s0, s) && PodsDisjoint(s)
  }

  lemma StartInv(s0: Sys, F: iset<Prefix>)
    requires Start(s0) && Guarded(s0, F)
    ensures Inv(s0, F, s0)
  {
    hide WellFormed, Cover, DisjointKeys, Exposed, PodsDisjoint;
  }

  // ----- how the parts follow a step

  /** Each pod CIDR is one of before. */
  ghost predicate Copies(s: Sys, s': Sys, f: Slot -> Slot)
    requires ValidSys(s) && ValidSys(s')
  {
    forall x | IsSlot(s', x) :: IsSlot(s, f(x)) && Pod(s', x) == Pod(s, f(x))
  }

  /** ... and no two of them are the same one. */
  ghost predicate Follows(s: Sys, s': Sys, f: Slot -> Slot)
    requires ValidSys(s) && ValidSys(s')
  {
    && Copies(s, s', f)
    && (forall x, y | IsSlot(s', x) && IsSlot(s', y) && f(x) == f(y) :: x == y)
  }

  ghost predicate SameGeometry(m: Sets, m': Sets) {
    m.Keys <= m'.Keys && forall k | k in m :: m'[k].g == m[k].g
  }

  lemma NeedsBefore(s: Sys, s': Sys, f: Slot -> Slot, x: Slot, k: Prefix, b: nat)
    requires ValidSys(s) && ValidSys(s') && Follows(s, s', f) && SameGeometry(s.m, s'.m) && k in s.m
    ensures Needs(s', x, k, b) ==> Needs(s, f(x), k, b)
    ensures Frees(s', x, k, b) ==> Frees(s, f(x), k, b)
  {
    hide WellFormed, Cover, DisjointKeys, Prefix.Contains;
  }

  /** A class of keys stays guarded if what is needed stays in use and no pod CIDR meets a new key
      of the class. */
  lemma GuardFollows(s: Sys, s': Sys, f: Slot -> Slot, F: iset<Prefix>)
    requires ValidSys(s) && ValidSys(s') && Guarded(s, F) && Follows(s, s', f) && SameGeometry(s.m, s'.m)
    requires forall x, k, b: nat | IsSlot(s', x) && k in F && Needs(s, f(x), k, b) :: b in s'.m[k].s.used
    requires forall x, k | IsSlot(s', x) && k in s'.m && k !in s.m && k in F && Pod(s', x).Valid() ::
               !Pod(s', x).Overlaps(k)
    ensures Guarded(s', F)
  {
    hide WellFormed, Cover, DisjointKeys, Needs, Frees;
    forall x, k, b: nat | k in F
      ensures !Exposed(s', x, k, b)
    {
      if Needs(s', x, k, b) {
        NeedsKey(s', x, k, b);
        assert k in s.m;
        NeedsBefore(s, s', f, x, k, b);
        forall y | y != x && IsSlot(s', y)
          ensures !Frees(s', y, k, b)
        {
          NeedsBefore(s, s', f, y, k, b);
          assert !Exposed(s, f(x), k, b);
        }
        assert forall y | Frees(s', y, k, b) :: IsSlot(s', y) by {
          FreesIsSlot(s', k, b);
        }
      }
    }
  }

  lemma FreesIsSlot(s: Sys, k: Prefix, b: nat)
    requires ValidSys(s)
    ensures forall y | Frees(s, y, k, b) :: IsSlot(s, y)
  {
  }

  lemma NeedsKey(s: Sys, x: Slot, k: Prefix, b: nat)
    requires ValidSys(s) && Needs(s, x, k, b)
    ensures IsSlot(s, x) && k in s.m && Pod(s, x).Valid() && Pod(s, x).Overlaps(k)
  {
    hide WellFormed, DisjointKeys;
    BlockInside(s.m[k].g, b);
  }

  /** The sets stay as they are, and nobody gains a pod CIDR. */
  lemma QuietKeeps(s0: Sys, F: iset<Prefix>, s: Sys, s': Sys, f: Slot -> Slot)
    requires ValidSys(s0) && ValidSys(s) && ValidSys(s') && Inv(s0, F, s)
    requires s'.m == s.m && s'.clusters == s.clusters && Follows(s, s', f)
    requires AllWorkOk(s0, s') && PodsDisjoint(s')
    ensures Inv(s0, F, s')
  {
    hide WellFormed, DisjointKeys, PodsDisjoint, AllWorkOk, Permanent, Guarded, Known, Follows, Built;
    StillGuarded(s, s', f, F);
    assert Copies(s, s', f) by {
      FollowsCopies(s, s', f);
    }
    StillKnown(s0, s, s', f);
  }

  lemma FollowsCopies(s: Sys, s': Sys, f: Slot -> Slot)
    requires ValidSys(s) && ValidSys(s') && Follows(s, s', f)
    ensures Copies(s, s', f)
  {
  }

  /** The sets only grow, by keys that no pod CIDR meets if they are of the class. */
  lemma StillGuarded(s: Sys, s': Sys, f: Slot -> Slot, F: iset<Prefix>)
    requires ValidSys(s) && ValidSys(s') && Guarded(s, F) && Follows(s, s', f) && Extends(s.m, s'.m)
    requires forall x, k | IsSlot(s', x) && k in s'.m && k !in s.m && k in F && Pod(s', x).Valid() ::
               !Pod(s', x).Overlaps(k)
    ensures Guarded(s', F)
  {
    hide WellFormed, Cover, DisjointKeys, Needs, Frees, Exposed, Guarded, Follows;
    forall x, k, b: nat | IsSlot(s', x) && k in F && Needs(s, f(x), k, b)
      ensures k in s'.m && b in s'.m[k].s.used
    {
      NeedsUsed(s, F, f(x), k, b);
    }
    GuardFollows(s, s', f, F);
  }

  lemma StillKnown(s0: Sys, s: Sys, s': Sys, f: Slot -> Slot)
    requires ValidSys(s0) && ValidSys(s) && ValidSys(s') && Known(s0, s) && Copies(s, s', f) && SameGeometry(s.m, s'.m)
    ensures Known(s0, s')
  {
    hide WellFormed, DisjointKeys, IsOld, IsFresh;
    forall x | IsSlot(s', x)
      ensures IsOld(s0, Pod(s', x)) || IsFresh(s0, s', Pod(s', x))
    {
      assert IsSlot(s, f(x));
      FreshGrows(s0, s, s', Pod(s', x));
    }
  }

  lemma NeedsUsed(s: Sys, F: iset<Prefix>, x: Slot, k: Prefix, b: nat)
    requires ValidSys(s) && Guarded(s, F) && k in F && Needs(s, x, k, b)
    ensures k in s.m && b in s.m[k].s.used
  {
    assert !Exposed(s, x, k, b);
  }

  /** The nodes have what they had, or nothing. */
  ghost predicate FewerPods(s: Sys, s': Sys) {
    forall h: Holder | h in s'.hold && h.Node? :: s'.hold[h] == [] || (h in s.hold && s'.hold[h] == s.hold[h])
  }

  lemma FewerDisjoint(s: Sys, s': Sys)
    requires ValidSys(s) && ValidSys(s') && PodsDisjoint(s) && FewerPods(s, s')
    ensures PodsDisjoint(s')
  {
    hide WellFormed, DisjointKeys, Prefix.Covers, Prefix.Valid;
    assert forall x: Slot | IsSlot(s', x) && x.h.Node? :: IsSlot(s, x) && Pod(s', x) == Pod(s, x);
  }

  /** A worker that goes on with the same blocks. */
  lemma WorkFrame(s0: Sys, s: Sys, s': Sys, pid: nat)
    requires ValidSys(s0) && ValidSys(s) && ValidSys(s') && SameGeometry(s.m, s'.m) && s'.clusters == s.clusters
    requires pid in s.work && pid in s'.work && s'.work[pid] == s.work[pid] && WorkOk(s0, s, pid)
    requires s'.hold[Worker(pid)] == s.hold[Worker(pid)]
    ensures WorkOk(s0, s', pid)
  {
    hide WellFormed, DisjointKeys, Aligned;
    match s.work[pid]
    case Reserving(_, ips, idx, whole) => AlignedGrows(s0, s, s', s.hold[Worker(pid)], ips, idx, whole);
    case Patching(_, ips, whole, _) => AlignedGrows(s0, s, s', s.hold[Worker(pid)], ips, |ips|, whole);
    case Releasing(_) =>
  }

  /** All workers but one go on as before. */
  lemma OthersWork(s0: Sys, s: Sys, s': Sys, me: nat)
    requires ValidSys(s0) && ValidSys(s) && ValidSys(s') && SameGeometry(s.m, s'.m) && s'.clusters == s.clusters
    requires AllWorkOk(s0, s)
    requires forall pid | pid in s'.work && pid != me ::
               pid in s.work && s'.work[pid] == s.work[pid] && s'.hold[Worker(pid)] == s.hold[Worker(pid)]
    requires me in s'.work ==> WorkOk(s0, s', me)
    ensures AllWorkOk(s0, s')
  {
    hide WellFormed, Cover, DisjointKeys, WorkOk;
    forall pid | pid in s'.work
      ensures WorkOk(s0, s', pid)
    {
      if pid != me {
        WorkFrame(s0, s, s', pid);
      }
    }
  }

  lemma AllWork(s0: Sys, s: Sys, s': Sys)
    requires ValidSys(s0) && ValidSys(s) && ValidSys(s') && SameGeometry(s.m, s'.m) && s'.clusters == s.clusters
    requires s'.hold == s.hold && s'.work == s.work && AllWorkOk(s0, s)
    ensures AllWorkOk(s0, s')
  {
    hide WellFormed, DisjointKeys, WorkOk;
    forall pid | pid in s'.work
      ensures WorkOk(s0, s', pid)
    {
      WorkFrame(s0, s, s', pid);
    }
  }

  // ----- the sets grow

  lemma FreshGrows(s0: Sys, s: Sys, s': Sys, p: Prefix)
    requires ValidSys(s0) && ValidSys(s) && ValidSys(s') && SameGeometry(s.m, s'.m)
    ensures IsFresh(s0, s, p) ==> IsFresh(s0, s', p)
    ensures forall ip :: From(s0, s, p, ip) ==> From(s0, s', p, ip)
  {
    hide WellFormed, DisjointKeys, Permanent, Prefix.Contains;
    if k, b: nat :| Fresh(s0, s, p, k, b) {
      assert Fresh(s0, s', p, k, b);
    }
    forall ip | From(s0, s, p, ip)
      ensures From(s0, s', p, ip)
    {
      var k, b: nat :| Hit(s.m, k, ip) && Fresh(s0, s, p, k, b);
      assert Hit(s'.m, k, ip) && Fresh(s0, s', p, k, b);
    }
  }

  lemma AlignedGrows(s0: Sys, s: Sys, s': Sys, got: seq<Prefix>, ips: seq<Addr>, n: nat, whole: bool)
    requires ValidSys(s0) && ValidSys(s) && ValidSys(s') && SameGeometry(s.m, s'.m) && s'.clusters == s.clusters
    requires Aligned(s0, s, got, ips, n, whole)
    ensures Aligned(s0, s', got, ips, n, whole)
  {
    hide WellFormed, DisjointKeys, From, CanServe;
    var global :| ips == Targets(s.clusters, global) && Origin(s.m, global);
    assert Origin(s'.m, global);
    if whole {
      forall i: nat | i < n
        ensures From(s0, s', got[i], ips[i])
      {
        FreshGrows(s0, s, s', got[i]);
      }
    }
  }

  /** A known pod CIDR meets no new key of the class. */
  lemma KnownMissesNew(s0: Sys, F: iset<Prefix>, s: Sys, m': Sets, x: Slot, k: Prefix)
    requires ValidSys(s0) && ValidSys(s) && SafeFor(s0, F) && Grown(s0, s) && Known(s0, s)
    requires ValidNext(m') && SameGeometry(s.m, m') && IsSlot(s, x) && Pod(s, x).Valid()
    requires k in m' && k !in s.m && k in F && Built(m'[k].g)
    ensures !Pod(s, x).Overlaps(k)
  {
    hide WellFormed, Cover, Guarded, Built, Permanent;
    var p := Pod(s, x);
    if IsOld(s0, p) {
      var x0 :| IsSlot(s0, x0) && Pod(s0, x0) == p;
      assert Addable(s0.m, m'[k].g);
    } else {
      var k0, b: nat :| Fresh(s0, s, p, k0, b);
      BlockInside(s.m[k0].g, b);
      assert !k.Overlaps(k0);
    }
  }

  lemma GrowKeeps(s0: Sys, F: iset<Prefix>, s: Sys, m': Sets)
    requires ValidSys(s0) && ValidSys(s) && SafeFor(s0, F) && Inv(s0, F, s)
    requires ValidNext(m') && Extends(s.m, m') && forall k | k in m' && k !in s.m :: Built(m'[k].g)
    ensures ValidSys(s.(m := m')) && Inv(s0, F, s.(m := m'))
  {
    hide WellFormed, DisjointKeys, PodsDisjoint, AllWorkOk, Known, Built, Grown, Guarded;
    var s' := s.(m := m');
    var id := (x: Slot) => x;
    forall x, k | IsSlot(s', x) && k in s'.m && k !in s.m && k in F && Pod(s', x).Valid()
      ensures !Pod(s', x).Overlaps(k)
    {
      KnownMissesNew(s0, F, s, m', x, k);
    }
    StillGuarded(s, s', id, F);
    StillKnown(s0, s, s', id);
    StillGrown(s0, s, s');
    AllWork(s0, s, s');
    FewerDisjoint(s, s');
  }

  lemma StillGrown(s0: Sys, s: Sys, s': Sys)
    requires ValidSys(s0) && ValidSys(s) && ValidSys(s') && Grown(s0, s) && s'.clusters == s.clusters
    requires Extends(s.m, s'.m) && forall k | k in s'.m && k !in s.m :: Built(s'.m[k].g)
    ensures Grown(s0, s')
  {
    hide WellFormed, DisjointKeys, Built, Frees;
  }

  // ----- the sets after a selection

  lemma DefinedBuilt(m: Sets, m': Sets, v: NodeView, r: Result<Option<HostPrefix>, Error>, k: Prefix)
    requires ValidSets(m) && ValidSets(m') && v.Valid() && DefineOutcome(m, m', v, r) && k in m' && k !in m
    ensures Built(m'[k].g)
  {
    hide WellFormed, AddAll, NodeReserved, Serves, HoldsAddress, Ladder, IsGlobalUnicast, IsPrivate, Swallows;
    var n := v.MaxPods();
    AddAllFresh(m, v.Cidrs(), n, k);
    var h :| h in v.Cidrs() && AsksFor(h, n, AddAll(m, v.Cidrs(), n).0[k]);
    assert PublicHost(h);
    assert Ladder(h, n) == Ok(m'[k].g);
  }

  lemma DefinedGrows(m: Sets, m': Sets, v: NodeView, r: Result<Option<HostPrefix>, Error>)
    requires ValidSets(m) && ValidSets(m') && v.Valid() && DefineOutcome(m, m', v, r)
    ensures Extends(m, m') && forall k | k in m' && k !in m :: Built(m'[k].g)
  {
    hide WellFormed, DefineOutcome, Built, Extends;
    DefinedExtends(m, m', v, r);
    forall k | k in m' && k !in m
      ensures Built(m'[k].g)
    {
      DefinedBuilt(m, m', v, r, k);
    }
  }

  lemma PodGrows(m: Sets, m': Sets, p: Prefix, v: NodeView, ok: bool)
    requires ValidSets(m) && ValidSets(m') && p.Valid() && v.Valid() && PodOutcome(m, m', p, v, ok)
    ensures Extends(m, m') && forall k | k in m' && k !in m :: Built(m'[k].g)
  {
    hide WellFormed, DefineOutcome, Built, Tracks, Marked, OccupiedSome, OccupiedAs, OccupyAt, DisjointKeys, Narrow, Prefix.Contains;
    PodExtends(m, m', p, v, ok);
    if !Tracks(m, p.First()) {
      var d :| DefineOutcome(m, m', v, d) && (ok <==> d.Ok?);
      DefinedGrows(m, m', v, d);
    }
  }

  lemma DefinedOrigin(m: Sets, m': Sets, v: NodeView, global: Option<HostPrefix>)
    requires ValidSets(m) && ValidSets(m') && v.Valid() && DefineOutcome(m, m', v, Ok(global))
    ensures Origin(m', global)
  {
    hide WellFormed, AddAll, NodeReserved, HoldsAddress, IsGlobalUnicast, IsPrivate, Swallows;
    if v.addresses != [] && v.Cidrs() != [] {
      if Served(m, v.Cidrs()) {
        var k :| k in m && Serves(k, v.Cidrs()) && global == Some(HostPrefix(k.family, k.base, k.len));
        var i :| 0 <= i < |v.Cidrs()| && v.Cidrs()[i].Valid() && k.Contains(v.Cidrs()[i].Masked().First());
        assert v.Cidrs()[i] in v.Cidrs();
        assert PublicHost(v.Cidrs()[i]);
        assert CanServe(k);
        assert k in m' && k.First() == global.value.Host();
      } else {
        assert v.Cidrs()[0] in v.Cidrs();
      }
    }
  }

  // ----- a reservation

  /** The state after a block was added to what a worker holds. */
  function Append(s: Sys, pid: nat, p: Prefix, w: Work): Sys
    requires Worker(pid) in s.hold
  {
    Put(Assign(s, Worker(pid), s.hold[Worker(pid)] + [p]), pid, w)
  }

  /** A slot of the longer list is the new one or was there before. */
  lemma AppendNeeds(s: Sys, s': Sys, pid: nat, p: Prefix, w: Work, k: Prefix, b: nat, x: Slot, k': Prefix, b': nat)
    requires ValidSys(s) && pid in s.work && s' == Append(s, pid, p, w) && ValidSys(s') && IsBlock(s.m, k, b, p)
    ensures var z := Slot(Worker(pid), |s.hold[Worker(pid)]|);
            && (x == z ==> (Needs(s', x, k', b') <==> k' == k && b' == b))
            && (x != z ==> (Needs(s', x, k', b') <==> Needs(s, x, k', b')))
            && (x != z ==> (Frees(s', x, k', b') <==> Frees(s, x, k', b')))
  {
    hide WellFormed, Cover, DisjointKeys, Prefix.Contains;
    BlockInside(s.m[k].g, b);
    CoverOfBlock(s.m[k].g, b);
    if x == Slot(Worker(pid), |s.hold[Worker(pid)]|) && Needs(s', x, k', b') {
      NeedsKey(s', x, k', b');
      BlockHome(s.m, k, b, k');
    }
  }

  lemma BlockHome(m: Sets, k: Prefix, b: nat, k': Prefix)
    requires ValidSets(m) && DisjointKeys(m) && k in m && k' in m && b < m[k].g.Max()
    requires m[k].g.Block(b).Valid() && m[k].g.Block(b).Overlaps(k')
    ensures k' == k
  {
    hide WellFormed;
    BlockInside(m[k].g, b);
  }

  lemma AppendGuarded(s: Sys, s': Sys, F: iset<Prefix>, pid: nat, p: Prefix, w: Work, k: Prefix, b: nat)
    requires ValidSys(s) && pid in s.work && s' == Append(s, pid, p, w) && ValidSys(s') && IsBlock(s.m, k, b, p)
    requires Guarded(s, F) && b in s.m[k].s.used && (k in F ==> forall x :: !Needs(s, x, k, b))
    ensures Guarded(s', F)
  {
    hide WellFormed, Cover, DisjointKeys, Needs;
    var z := Slot(Worker(pid), |s.hold[Worker(pid)]|);
    forall x, k', b': nat | k' in F
      ensures !Exposed(s', x, k', b')
    {
      assert !Exposed(s, x, k', b');
      AppendNeeds(s, s', pid, p, w, k, b, x, k', b');
      forall y | y != x
        ensures !(Needs(s', x, k', b') && Frees(s', y, k', b'))
      {
        AppendNeeds(s, s', pid, p, w, k, b, y, k', b');
      }
    }
  }

  lemma AppendKeeps(s0: Sys, F: iset<Prefix>, s: Sys, pid: nat, p: Prefix, k: Prefix, b: nat)
    requires ValidSys(s0) && ValidSys(s) && Inv(s0, F, s)
    requires pid in s.work && s.work[pid].Reserving? && s.work[pid].idx < |s.work[pid].ips|
    requires Fresh(s0, s, p, k, b) && b in s.m[k].s.used && Hit(s.m, k, s.work[pid].ips[s.work[pid].idx])
    requires k in F ==> forall x :: !Needs(s, x, k, b)
    ensures var s' := Append(s, pid, p, s.work[pid].(idx := s.work[pid].idx + 1));
            ValidSys(s') && Inv(s0, F, s')
  {
    hide WellFormed, DisjointKeys, Guarded, Grown, IsOld, Known, AllWorkOk, PodsDisjoint, Needs, Fresh, Hit, IsBlock, WorkOk;
    var w := s.work[pid];
    var s' := Append(s, pid, p, w.(idx := w.idx + 1));
    AppendValid(s0, s, p, k, b);
    assert ValidSys(s');
    AppendGuarded(s, s', F, pid, p, w.(idx := w.idx + 1), k, b) by {
      FreshBlock(s0, s, p, k, b);
    }
    AppendKnown(s0, s, s', pid, p, w.(idx := w.idx + 1), k, b);
    AppendWork(s0, s, s', pid, p, k, b);
    FewerDisjoint(s, s');
    GrownFrame(s0, s, s');
  }

  lemma FreshBlock(s0: Sys, s: Sys, p: Prefix, k: Prefix, b: nat)
    requires ValidSys(s0) && ValidSys(s) && Fresh(s0, s, p, k, b)
    ensures IsBlock(s.m, k, b, p)
  {
  }

  lemma AppendValid(s0: Sys, s: Sys, p: Prefix, k: Prefix, b: nat)
    requires ValidSys(s0) && ValidSys(s) && Fresh(s0, s, p, k, b)
    ensures p.Valid()
  {
    hide WellFormed, DisjointKeys;
    BlockInside(s.m[k].g, b);
  }

  lemma GrownFrame(s0: Sys, s: Sys, s': Sys)
    requires ValidSys(s0) && ValidSys(s) && ValidSys(s') && Grown(s0, s) && s'.m == s.m && s'.clusters == s.clusters
    ensures Grown(s0, s')
  {
    hide WellFormed, DisjointKeys, Built, Permanent;
  }

  lemma AppendKnown(s0: Sys, s: Sys, s': Sys, pid: nat, p: Prefix, w: Work, k: Prefix, b: nat)
    requires ValidSys(s0) && ValidSys(s) && ValidSys(s') && pid in s.work && s' == Append(s, pid, p, w)
    requires Known(s0, s) && Fresh(s0, s, p, k, b)
    ensures Known(s0, s')
  {
    hide WellFormed, DisjointKeys, IsOld, IsFresh;
    FreshIs(s0, s', p, k, b);
    forall x | IsSlot(s', x)
      ensures IsOld(s0, Pod(s', x)) || IsFresh(s0, s', Pod(s', x))
    {
      if x != Slot(Worker(pid), |s.hold[Worker(pid)]|) {
        assert IsSlot(s, x) && Pod(s', x) == Pod(s, x);
        FreshGrows(s0, s, s', Pod(s', x));
      }
    }
  }

  lemma FreshIs(s0: Sys, s: Sys, p: Prefix, k: Prefix, b: nat)
    requires ValidSys(s0) && ValidSys(s) && Fresh(s0, s, p, k, b)
    ensures IsFresh(s0, s, p)
    ensures forall ip :: Hit(s.m, k, ip) ==> From(s0, s, p, ip)
  {
    hide Fresh, WellFormed, DisjointKeys, Hit;
  }

  lemma AppendWork(s0: Sys, s: Sys, s': Sys, pid: nat, p: Prefix, k: Prefix, b: nat)
    requires ValidSys(s0) && ValidSys(s) && ValidSys(s') && AllWorkOk(s0, s)
    requires pid in s.work && s.work[pid].Reserving? && s.work[pid].idx < |s.work[pid].ips|
    requires s' == Append(s, pid, p, s.work[pid].(idx := s.work[pid].idx + 1))
    requires Fresh(s0, s, p, k, b) && Hit(s.m, k, s.work[pid].ips[s.work[pid].idx])
    ensures AllWorkOk(s0, s')
  {
    hide WellFormed, DisjointKeys, From, Origin, Fresh, Hit;
    var w := s.work[pid];
    var got := s.hold[Worker(pid)];
    assert WorkOk(s0, s, pid);
    AlignedGrows(s0, s, s', got, w.ips, w.idx, w.whole);
    FreshIs(s0, s', p, k, b) by {
      FreshSame(s0, s, s', p, k, b);
    }
    assert Aligned(s0, s', got + [p], w.ips, w.idx + 1, w.whole);
    OthersWork(s0, s, s', pid);
  }

  lemma FreshSame(s0: Sys, s: Sys, s': Sys, p: Prefix, k: Prefix, b: nat)
    requires ValidSys(s0) && ValidSys(s) && ValidSys(s') && s'.m == s.m && Fresh(s0, s, p, k, b)
    ensures Fresh(s0, s', p, k, b)
  {
  }

  /** A reservation takes a block that no pod CIDR meets. */
  lemma ReserveKeeps(s0: Sys, F: iset<Prefix>, s: Sys, pid: nat)
    requires ValidSys(s0) && ValidSys(s) && SafeFor(s0, F) && Inv(s0, F, s)
    requires pid in s.work && s.work[pid].Reserving? && s.work[pid].idx < |s.work[pid].ips|
    ensures ValidSys(StepReserve(s, pid)) && Inv(s0, F, StepReserve(s, pid))
  {
    hide WellFormed, DisjointKeys, Inv, SafeFor, AllocateAt, Allocate, TakeAt;
    ReserveValid(s, pid);
    var w := s.work[pid];
    var ip := w.ips[w.idx];
    match TakeAt(s.m, ip)
    case Err(_) => DropKeeps(s0, F, s, pid);
    case Ok(None) => SkipKeeps(s0, F, s, pid);
    case Ok(Some(p)) =>
      var k := TookFrom(s.m, ip);
      TakenFrom(s.m, k, ip);
      var b := Allocate(s.m[k].g, s.m[k].s).1.value;
      var m1 := AllocateAt(s.m, ip);
      TakenGrows(s0, F, s, k, b, ip, m1);
      AppendKeeps(s0, F, s.(m := m1), pid, p, k, b);
  }

  lemma TakenGrows(s0: Sys, F: iset<Prefix>, s: Sys, k: Prefix, b: nat, ip: Addr, m1: Sets)
    requires ValidSys(s0) && ValidSys(s) && SafeFor(s0, F) && Inv(s0, F, s) && Hit(s.m, k, ip)
    requires m1 == AllocateAt(s.m, ip) && SameShape(s.m, m1) && b < s.m[k].g.Max() && b !in s.m[k].s.used
    requires forall k' | k' in s.m :: m1[k'].s.used == s.m[k'].s.used + (if k' == k then {b} else {})
    ensures ValidSys(s.(m := m1)) && Inv(s0, F, s.(m := m1)) && Hit(m1, k, ip)
    ensures Fresh(s0, s.(m := m1), s.m[k].g.Block(b), k, b) && b in m1[k].s.used
    ensures k in F ==> forall x :: !Needs(s.(m := m1), x, k, b)
  {
    hide WellFormed, DisjointKeys, SafeFor, AllocateAt, Known, AllWorkOk, PodsDisjoint, Built, Cover;
    AllocateAtValid(s.m, ip);
    ShapeKeeps(s.m, m1);
    GrowKeeps(s0, F, s, m1);
    forall x | k in F
      ensures !Needs(s.(m := m1), x, k, b)
    {
      assert !Exposed(s, x, k, b);
    }
  }

  /** A worker that ends or moves on without a block. */
  lemma DropKeeps(s0: Sys, F: iset<Prefix>, s: Sys, pid: nat)
    requires ValidSys(s0) && ValidSys(s) && Inv(s0, F, s) && pid in s.work
    ensures ValidSys(Drop(s, pid)) && Inv(s0, F, Drop(s, pid))
  {
    hide WellFormed, DisjointKeys, WorkOk, Known, Guarded, Grown, Prefix.Valid, PodsDisjoint;
    var s' := Drop(s, pid);
    OthersWork(s0, s, s', pid);
    FewerDisjoint(s, s');
    QuietKeeps(s0, F, s, s', (x: Slot) => x);
  }

  /** A worker that goes on with the blocks it has. */
  lemma PutKeeps(s0: Sys, F: iset<Prefix>, s: Sys, pid: nat, w: Work)
    requires ValidSys(s0) && ValidSys(s) && Inv(s0, F, s) && pid in s.work
    requires ValidSys(Put(s, pid, w)) && WorkOk(s0, Put(s, pid, w), pid)
    ensures Inv(s0, F, Put(s, pid, w))
  {
    hide WellFormed, DisjointKeys, WorkOk, Known, Guarded, Grown, Prefix.Valid, PodsDisjoint;
    var s' := Put(s, pid, w);
    OthersWork(s0, s, s', pid);
    FewerDisjoint(s, s');
    QuietKeeps(s0, F, s, s', (x: Slot) => x);
  }

  lemma SkipKeeps(s0: Sys, F: iset<Prefix>, s: Sys, pid: nat)
    requires ValidSys(s0) && ValidSys(s) && Inv(s0, F, s)
    requires pid in s.work && s.work[pid].Reserving? && s.work[pid].idx < |s.work[pid].ips|
    ensures var s' := Put(s, pid, s.work[pid].(idx := s.work[pid].idx + 1, whole := false));
            ValidSys(s') && Inv(s0, F, s')
  {
    hide WellFormed, DisjointKeys, Known, Guarded, Grown, Prefix.Valid, PodsDisjoint, From, Origin;
    var w := s.work[pid];
    var s' := Put(s, pid, w.(idx := w.idx + 1, whole := false));
    assert ValidSys(s');
    assert WorkOk(s0, s, pid);
    AlignedGrows(s0, s, s', s.hold[Worker(pid)], w.ips, w.idx, w.whole);
    PutKeeps(s0, F, s, pid, w.(idx := w.idx + 1, whole := false));
  }

  // ----- a release

  lemma ReleasedUsed(s: Sys, pid: nat, k: Prefix, b: nat)
    requires ValidSys(s) && pid in s.work && s.work[pid].Releasing? && s.hold[Worker(pid)] != [] && k in s.m
    requires s.hold[Worker(pid)][0].Valid()
    requires b in s.m[k].s.used && !Frees(s, Slot(Worker(pid), 0), k, b)
    ensures b in ReleaseAt(s.m, s.hold[Worker(pid)][0])[k].s.used
  {
    hide WellFormed, DisjointKeys, Indices, Prefix.Contains, Cover;
  }

  /** A release frees only blocks that no other pod CIDR meets. */
  lemma ReleaseGuarded(s: Sys, s': Sys, F: iset<Prefix>, pid: nat)
    requires ValidSys(s) && pid in s.work && s.work[pid].Releasing? && s.hold[Worker(pid)] != []
    requires s.hold[Worker(pid)][0].Valid() && ValidSys(s') && SameGeometry(s.m, s'.m) && s'.m.Keys == s.m.Keys
    requires s'.m == ReleaseAt(s.m, s.hold[Worker(pid)][0])
    requires s'.hold == s.hold[Worker(pid) := s.hold[Worker(pid)][1..]] && Guarded(s, F)
    ensures Guarded(s', F)
  {
    hide WellFormed, DisjointKeys, Cover, Needs, Frees, ReleaseAt, Guarded, Exposed;
    var w := Worker(pid);
    var f := (x: Slot) => if x.h == w then Slot(w, x.i + 1) else x;
    forall x, k, b: nat | IsSlot(s', x) && k in F && Needs(s, f(x), k, b)
      ensures k in s'.m && b in s'.m[k].s.used
    {
      NeedsUsed(s, F, f(x), k, b);
      OnlyOwnRelease(s, F, f(x), Slot(w, 0), k, b);
      ReleasedUsed(s, pid, k, b);
    }
    GuardFollows(s, s', f, F);
  }

  lemma OnlyOwnRelease(s: Sys, F: iset<Prefix>, x: Slot, y: Slot, k: Prefix, b: nat)
    requires ValidSys(s) && Guarded(s, F) && k in F && Needs(s, x, k, b) && y != x
    ensures !Frees(s, y, k, b)
  {
    assert !Exposed(s, x, k, b);
  }

  /** What was in use for good is not freed. */
  lemma ReleaseSpares(s0: Sys, s: Sys, x: Slot, k: Prefix, b: nat)
    requires ValidSys(s0) && ValidSys(s) && Grown(s0, s) && Known(s0, s) && IsSlot(s, x) && Permanent(s0, k, b)
    ensures !Frees(s, x, k, b)
  {
    hide WellFormed, DisjointKeys, Built, Cover, Prefix.Contains;
    var p := Pod(s, x);
    PodValid(s, x);
    if IsOld(s0, p) {
      var x0 :| IsSlot(s0, x0) && Pod(s0, x0) == p;
      assert !Frees(s0, x0, k, b);
    } else {
      var k1, b1: nat :| Fresh(s0, s, p, k1, b1);
      if Frees(s, x, k, b) {
        NeedsKey(s, x, k, b);
        BlockHome(s.m, k1, b1, k);
        CoverOfBlock(s.m[k].g, b1);
      }
    }
  }

  lemma ReleaseKeeps(s0: Sys, F: iset<Prefix>, s: Sys, pid: nat)
    requires ValidSys(s0) && ValidSys(s) && Inv(s0, F, s) && pid in s.work && s.work[pid].Releasing?
    ensures ValidSys(StepRelease(s, pid)) && Inv(s0, F, StepRelease(s, pid))
  {
    hide WellFormed, DisjointKeys, Guarded, Grown, Known, AllWorkOk, PodsDisjoint, Refuses, ReleaseAt, Prefix.Valid;
    ReleaseValid(s, pid);
    var s' := StepRelease(s, pid);
    var w := Worker(pid);
    var pods := s.hold[w];
    if pods == [] || (s.work[pid].stop && Refuses(s.m, pods[0])) {
      DropKeeps(s0, F, s, pid);
    } else {
      PodValid(s, Slot(w, 0));
      AtValid(s.m, pods[0]);
      ReleaseGuarded(s, s', F, pid);
      StillKnown(s0, s, s', (x: Slot) => if x.h == w then Slot(w, x.i + 1) else x);
      ReleaseGrown(s0, s, s', pid);
      OthersWork(s0, s, s', pid);
      FewerDisjoint(s, s');
    }
  }

  lemma ReleaseGrown(s0: Sys, s: Sys, s': Sys, pid: nat)
    requires ValidSys(s0) && ValidSys(s) && ValidSys(s') && Grown(s0, s) && Known(s0, s)
    requires pid in s.work && s.work[pid].Releasing? && s.hold[Worker(pid)] != [] && s.hold[Worker(pid)][0].Valid()
    requires s'.m == ReleaseAt(s.m, s.hold[Worker(pid)][0]) && s'.clusters == s.clusters && SameShape(s.m, s'.m)
    ensures Grown(s0, s')
  {
    hide WellFormed, DisjointKeys, Known, ReleaseAt, Built, Frees;
    forall k, b: nat | Permanent(s0, k, b)
      ensures b in s'.m[k].s.used
    {
      ReleaseSpares(s0, s, Slot(Worker(pid), 0), k, b);
      ReleasedUsed(s, pid, k, b);
    }
  }

  // ----- a patch

  /** The worker's blocks all come from keys of the class. */
  ghost predicate InClass(s0: Sys, s: Sys, F: iset<Prefix>, got: seq<Prefix>)
    requires ValidSys(s0) && ValidSys(s)
  {
    forall i: nat | i < |got| :: FreshIn(s0, s, F, got[i])
  }

  ghost predicate FreshIn(s0: Sys, s: Sys, F: iset<Prefix>, p: Prefix)
    requires ValidSys(s0) && ValidSys(s)
  {
    exists k, b: nat :: k in F && Fresh(s0, s, p, k, b)
  }

  /** A worker's block of the class shares no address with another held pod CIDR. */
  lemma BlockApart(s0: Sys, s: Sys, F: iset<Prefix>, w: Slot, y: Slot, k: Prefix, b: nat)
    requires ValidSys(s0) && ValidSys(s) && Guarded(s, F) && IsSlot(s, w) && IsSlot(s, y) && w != y
    requires k in F && Fresh(s0, s, Pod(s, w), k, b)
    ensures Pod(s, w).Valid() && Pod(s, y).Valid() && !Pod(s, w).Overlaps(Pod(s, y))
  {
    hide WellFormed, DisjointKeys, Permanent;
    PodValid(s, w);
    PodValid(s, y);
    BlockInside(s.m[k].g, b);
    ContainsIsCovers(k, Pod(s, w).First());
    CoverOfBlock(s.m[k].g, b);
    assert Frees(s, w, k, b);
    assert !Exposed(s, y, k, b);
  }

  lemma PatchDisjoint(s0: Sys, F: iset<Prefix>, s: Sys, pid: nat)
    requires ValidSys(s0) && ValidSys(s) && Guarded(s, F) && PodsDisjoint(s) && ServerAccepts(s, pid)
    requires InClass(s0, s, F, s.hold[Worker(pid)])
    ensures var s' := Drop(Assign(s, Node(s.work[pid].name), s.hold[Worker(pid)]), pid);
            ValidSys(s') && PodsDisjoint(s')
  {
    hide WellFormed, DisjointKeys, Fresh, Guarded;
    var n, w := Node(s.work[pid].name), Worker(pid);
    var s' := Drop(Assign(s, n, s.hold[w]), pid);
    assert ValidSys(s');
    forall x: Slot, y: Slot, a: Addr | IsSlot(s', x) && IsSlot(s', y) && x.h.Node? && y.h.Node? && x != y &&
                                       Pod(s', x).Valid() && Pod(s', y).Valid()
      ensures !(Pod(s', x).Covers(a) && Pod(s', y).Covers(a))
    {
      var x', y' := if x.h == n then Slot(w, x.i) else x, if y.h == n then Slot(w, y.i) else y;
      if x.h == n {
        var k, b: nat :| k in F && Fresh(s0, s, s.hold[w][x.i], k, b);
        BlockApart(s0, s, F, x', y', k, b);
        OverlapsMeaning(Pod(s', x), Pod(s', y));
      } else if y.h == n {
        var k, b: nat :| k in F && Fresh(s0, s, s.hold[w][y.i], k, b);
        BlockApart(s0, s, F, y', x', k, b);
        OverlapsMeaning(Pod(s', y), Pod(s', x));
      } else {
        assert IsSlot(s, x) && IsSlot(s, y) && Pod(s', x) == Pod(s, x) && Pod(s', y) == Pod(s, y);
      }
    }
  }

  lemma PatchKeeps(s0: Sys, F: iset<Prefix>, s: Sys, pid: nat)
    requires ValidSys(s0) && ValidSys(s) && Inv(s0, F, s) && ServerAccepts(s, pid)
    requires InClass(s0, s, F, s.hold[Worker(pid)])
    ensures var s' := Drop(Assign(s, Node(s.work[pid].name), s.hold[Worker(pid)]), pid);
            ValidSys(s') && Inv(s0, F, s')
  {
    hide WellFormed, DisjointKeys, Guarded, Grown, Known, WorkOk, PodsDisjoint, InClass, Prefix.Valid;
    var n, w := Node(s.work[pid].name), Worker(pid);
    var s' := Drop(Assign(s, n, s.hold[w]), pid);
    PatchDisjoint(s0, F, s, pid);
    OthersWork(s0, s, s', pid);
    QuietKeeps(s0, F, s, s', (x: Slot) => if x.h == n then Slot(w, x.i) else x);
  }

  // ----- every step

  lemma DeleteKeeps(s0: Sys, F: iset<Prefix>, s: Sys, name: nat, pid: nat)
    requires ValidSys(s0) && ValidSys(s) && Inv(s0, F, s) && Node(name) in s.hold && pid !in s.work
    ensures var s' := Next(s, DeleteNode(name, pid)); ValidSys(s') && Inv(s0, F, s')
  {
    hide WellFormed, DisjointKeys, Guarded, Grown, Known, WorkOk, PodsDisjoint, Prefix.Valid;
    var s' := Next(s, DeleteNode(name, pid));
    NextValid(s, DeleteNode(name, pid));
    ReleasingOk(s0, s', pid);
    OthersWork(s0, s, s', pid);
    FewerDisjoint(s, s');
    QuietKeeps(s0, F, s, s', (x: Slot) => if x.h == Worker(pid) then Slot(Node(name), x.i) else x);
  }

  lemma ReleasingOk(s0: Sys, s: Sys, pid: nat)
    requires ValidSys(s0) && ValidSys(s) && pid in s.work && s.work[pid].Releasing?
    ensures WorkOk(s0, s, pid)
  {
  }

  lemma CreateKeeps(s0: Sys, F: iset<Prefix>, s: Sys, name: nat)
    requires ValidSys(s0) && ValidSys(s) && Inv(s0, F, s) && Node(name) !in s.hold
    ensures var s' := Next(s, CreateNode(name)); ValidSys(s') && Inv(s0, F, s')
  {
    hide WellFormed, DisjointKeys, Guarded, Grown, Known, WorkOk, PodsDisjoint, Prefix.Valid;
    var s' := Next(s, CreateNode(name));
    NextValid(s, CreateNode(name));
    forall pid | pid in s'.work
      ensures WorkOk(s0, s', pid)
    {
      WorkFrame(s0, s, s', pid);
    }
    FewerDisjoint(s, s');
    QuietKeeps(s0, F, s, s', (x: Slot) => x);
  }

  lemma SelectKeeps(s0: Sys, F: iset<Prefix>, s: Sys, pid: nat, name: nat, v: NodeView, global: Option<HostPrefix>,
                    m': Sets)
    requires ValidSys(s0) && ValidSys(s) && SafeFor(s0, F) && Inv(s0, F, s) && pid !in s.work
    requires v.Valid() && ValidNext(m') && DefineOutcome(s.m, m', v, Ok(global))
    ensures var s' := Next(s, Select(pid, name, v, global, m')); ValidSys(s') && Inv(s0, F, s')
  {
    hide WellFormed, DisjointKeys, Guarded, Grown, Known, WorkOk, PodsDisjoint, Prefix.Valid, DefineOutcome, SafeFor,
         Origin, Built, Extends;
    var s' := Next(s, Select(pid, name, v, global, m'));
    NextValid(s, Select(pid, name, v, global, m'));
    DefinedGrows(s.m, m', v, Ok(global));
    DefinedOrigin(s.m, m', v, global);
    var s1 := s.(m := m');
    GrowKeeps(s0, F, s, m');
    NewWorkOk(s0, s', pid, global);
    OthersWork(s0, s1, s', pid);
    FewerDisjoint(s1, s');
    QuietKeeps(s0, F, s1, s', (x: Slot) => x);
  }

  lemma NewWorkOk(s0: Sys, s: Sys, pid: nat, global: Option<HostPrefix>)
    requires ValidSys(s0) && ValidSys(s) && pid in s.work && s.work[pid].Reserving? && s.work[pid].idx == 0
    requires s.work[pid].ips == Targets(s.clusters, global) && Origin(s.m, global) && s.hold[Worker(pid)] == []
    ensures WorkOk(s0, s, pid)
  {
    hide WellFormed, DisjointKeys, Origin;
  }

  lemma DecideKeeps(s0: Sys, F: iset<Prefix>, s: Sys, pid: nat, cached: Option<seq<Prefix>>)
    requires ValidSys(s0) && ValidSys(s) && Inv(s0, F, s)
    requires pid in s.work && s.work[pid].Reserving? && s.work[pid].idx == |s.work[pid].ips|
    ensures var s' := Next(s, Decide(pid, cached)); ValidSys(s') && Inv(s0, F, s')
  {
    hide WellFormed, DisjointKeys, Guarded, Grown, Known, Aligned, PodsDisjoint, Prefix.Valid;
    var w := s.work[pid];
    NextValid(s, Decide(pid, cached));
    var s' := Next(s, Decide(pid, cached));
    assert WorkOk(s0, s, pid);
    if pid !in s'.work {
      DropKeeps(s0, F, s, pid);
    } else if s'.work[pid].Releasing? {
      PutKeeps(s0, F, s, pid, Releasing(false));
    } else {
      AlignedGrows(s0, s, s', s.hold[Worker(pid)], w.ips, w.idx, w.whole);
      PutKeeps(s0, F, s, pid, Patching(w.name, w.ips, w.whole, 0));
    }
  }

  lemma PatchErrKeeps(s0: Sys, F: iset<Prefix>, s: Sys, pid: nat, e: R.PatchError)
    requires ValidSys(s0) && ValidSys(s) && Inv(s0, F, s) && pid in s.work && s.work[pid].Patching?
    ensures var s' := Next(s, PatchErr(pid, e)); ValidSys(s') && Inv(s0, F, s')
  {
    hide WellFormed, DisjointKeys, Guarded, Grown, Known, Aligned, PodsDisjoint, Prefix.Valid;
    var w := s.work[pid];
    NextValid(s, PatchErr(pid, e));
    var s' := Next(s, PatchErr(pid, e));
    assert WorkOk(s0, s, pid);
    if w.tries + 1 < R.CIDR_UPDATE_RETRIES {
      AlignedGrows(s0, s, s', s.hold[Worker(pid)], w.ips, |w.ips|, w.whole);
      PutKeeps(s0, F, s, pid, w.(tries := w.tries + 1));
    } else {
      PutKeeps(s0, F, s, pid, Releasing(false));
    }
  }

  /** Every step of an environment without lost acknowledgements and finalizers keeps the
      invariant, if complete reservations come from keys of the class. */
  lemma NextKeepsInv(env: RP.Env, s0: Sys, F: iset<Prefix>, s: Sys, ev: Event)
    requires ValidSys(s0) && ValidSys(s) && SafeFor(s0, F) && Inv(s0, F, s)
    requires Enabled(env, s, ev) && !env.lostAcks && !env.finalizers
    requires ev.PatchOk? ==> InClass(s0, s, F, s.hold[Worker(ev.pid)])
    ensures ValidSys(Next(s, ev)) && Inv(s0, F, Next(s, ev))
  {
    hide WellFormed, DisjointKeys, Inv, SafeFor, InClass, StepReserve, StepRelease, DefineOutcome, PodOutcome, Extends, Built;
    NextValid(s, ev);
    match ev
    case CreateNode(name) => CreateKeeps(s0, F, s, name);
    case DeleteNode(name, pid) => DeleteKeeps(s0, F, s, name, pid);
    case Select(pid, name, v, global, m') => SelectKeeps(s0, F, s, pid, name, v, global, m');
    case SelectFails(v, m') =>
      var e :| DefineOutcome(s.m, m', v, Err(e));
      DefinedGrows(s.m, m', v, Err(e));
      GrowKeeps(s0, F, s, m');
    case OccupyPod(p, v, ok, m') =>
      PodGrows(s.m, m', p, v, ok);
      GrowKeeps(s0, F, s, m');
    case ReserveOne(pid) => ReserveKeeps(s0, F, s, pid);
    case Decide(pid, cached) => DecideKeeps(s0, F, s, pid, cached);
    case PatchOk(pid) => PatchKeeps(s0, F, s, pid);
    case PatchErr(pid, e) => PatchErrKeeps(s0, F, s, pid, e);
    case ReleaseOne(pid) => ReleaseKeeps(s0, F, s, pid);
  }

  // ----- a complete reservation follows a feasible plan

  ghost function ReachableKeys(s: Sys): iset<Prefix>
    requires ValidSys(s)
  {
    iset k | Reachable(s, k)
  }

  /** The set around a worker's IPv6 address can serve a reservation. */
  lemma HitCanServe(m: Sets, global: HostPrefix, k: Prefix)
    requires ValidSets(m) && DisjointKeys(m) && Origin(m, Some(global)) && Hit(m, k, global.Host()) && k.family == V6
    ensures CanServe(k)
  {
    hide WellFormed, DisjointKeys, IsGlobalUnicast, IsPrivate;
    ContainsIsCovers(k, global.Host());
    if !PublicHost(global) {
      var k' :| k' in m && CanServe(k') && k'.First() == global.Host();
      ContainsIsCovers(k', k'.First());
      OneHit(m, k, k', global.Host());
    }
  }

  lemma ThroughValid(s0: Sys, s: Sys, global: HostPrefix, k: Prefix)
    requires ValidSys(s0) && ValidSys(s) && Grown(s0, s)
    requires Origin(s.m, Some(global)) && Hit(s.m, k, global.Host()) && k.family == V6
    ensures ValidPlan(s0.m, Through(s.m[k].g))
  {
    hide WellFormed, CanServe, Built, Origin, Permanent, Prefix.Contains;
    HitCanServe(s.m, global, k);
  }

  /** A block that was handed out since the start leaves room in its set there. */
  lemma FreshRoom(s0: Sys, s: Sys, plan: Plan, p: Prefix, k: Prefix, b: nat)
    requires ValidSys(s0) && ValidSys(s) && Grown(s0, s) && ValidPlan(s0.m, plan) && Fresh(s0, s, p, k, b)
    requires k in s0.m || (plan.Through? && plan.g == s.m[k].g && plan.g.cluster == k)
    ensures ValidSys(s0.(m := PlanSets(s0.m, plan))) && HasRoom(s0.(m := PlanSets(s0.m, plan)), k)
  {
    hide WellFormed, DisjointKeys, CanServe, Built, Cover, ValidPlan, Prefix.Contains;
    PlanValid(s0, plan);
    var s1 := s0.(m := PlanSets(s0.m, plan));
    if k in s0.m {
      if Permanent(s1, k, b) {
        forall x
          ensures !Frees(s0, x, k, b)
        {
          assert !Frees(s1, x, k, b);
        }
      }
    }
    assert !Permanent(s1, k, b);
  }

  /** The key that serves a cluster CIDR is the one the plan names. */
  lemma ServedKey(s0: Sys, s: Sys, global: Option<HostPrefix>, plan: Plan, i: nat, k: Prefix)
    requires ValidSys(s0) && ValidSys(s) && Grown(s0, s) && i < |s.clusters|
    requires forall c | c in s0.clusters :: c in s0.m
    requires Hit(s.m, k, Targets(s.clusters, global)[i])
    requires if global.Some? && s.clusters[i].family == V6
             then plan.Through? && Hit(s.m, plan.g.cluster, global.value.Host())
             else plan.ByCluster? || s.clusters[i].family == V4
    ensures k == KeyFor(s.clusters[i], plan)
  {
    hide WellFormed, DisjointKeys, Built, Permanent;
    var c := s.clusters[i];
    TargetAt(s.clusters, global, i);
    assert c in s.clusters;
    if global.Some? && c.family == V6 {
      OneHit(s.m, k, plan.g.cluster, global.value.Host());
    } else {
      ContainsIsCovers(c, c.First());
      OneHit(s.m, k, c, c.First());
    }
  }

  /** The plan that a worker with a complete reservation followed. */
  lemma WorkerPlan(s0: Sys, s: Sys, global: Option<HostPrefix>, got: seq<Prefix>) returns (plan: Plan)
    requires ValidSys(s0) && ValidSys(s) && Grown(s0, s) && Origin(s.m, global) && |got| == |s.clusters|
    requires forall i: nat | i < |got| :: From(s0, s, got[i], Targets(s.clusters, global)[i])
    ensures ValidPlan(s0.m, plan)
    ensures FitsPlan(s, global, plan)
  {
    hide WellFormed, DisjointKeys, Built, Permanent, Origin, ValidPlan, Prefix.Contains, IsBlock;
    plan := ByCluster;
    assert ValidPlan(s0.m, ByCluster) by {
      ByClusterValid(s0.m);
    }
    if global.Some? {
      if j: nat :| j < |s.clusters| && s.clusters[j].family == V6 {
        TargetAt(s.clusters, global, j);
        var k, b: nat :| Hit(s.m, k, Targets(s.clusters, global)[j]) && Fresh(s0, s, got[j], k, b);
        OriginFamily(s.m, global.value, k);
        ThroughValid(s0, s, global.value, k);
        plan := Through(s.m[k].g);
      }
    }
  }

  lemma OriginFamily(m: Sets, global: HostPrefix, k: Prefix)
    requires ValidSets(m) && Origin(m, Some(global)) && Hit(m, k, global.Host())
    ensures k.family == V6
  {
    hide IsGlobalUnicast, IsPrivate;
    if !PublicHost(global) {
      var k' :| k' in m && CanServe(k') && k'.First() == global.Host();
    }
  }

  lemma ByClusterValid(m: Sets)
    requires ValidSets(m)
    ensures ValidPlan(m, ByCluster)
  {
  }

  /** The blocks of a complete reservation come from reachable keys. */
  lemma CompleteInClass(s0: Sys, s: Sys, pid: nat)
    requires ValidSys(s0) && ValidSys(s) && Grown(s0, s) && AllWorkOk(s0, s)
    requires forall c | c in s0.clusters :: c in s0.m
    requires pid in s.work && s.work[pid].Patching? && s.work[pid].whole
    ensures InClass(s0, s, ReachableKeys(s0), s.hold[Worker(pid)])
  {
    hide WellFormed, DisjointKeys, Grown, Origin, ValidPlan, Feasible, Fresh, Hit, HasRoom;
    assert WorkOk(s0, s, pid);
    var got, ips := s.hold[Worker(pid)], s.work[pid].ips;
    var global :| ips == Targets(s.clusters, global) && Origin(s.m, global);
    var plan := WorkerPlan(s0, s, global, got);
    WorkerFeasible(s0, s, global, got, plan);
    GrownClusters(s0, s);
    forall i: nat | i < |got|
      ensures FreshIn(s0, s, ReachableKeys(s0), got[i])
    {
      var k, b := ServedFrom(s0, s, global, got, plan, i);
      assert s0.clusters[i] in s0.clusters;
      assert Reachable(s0, k);
    }
  }

  lemma GrownClusters(s0: Sys, s: Sys)
    requires ValidSys(s0) && ValidSys(s) && Grown(s0, s)
    ensures s.clusters == s0.clusters
  {
  }

  ghost predicate FitsPlan(s: Sys, global: Option<HostPrefix>, plan: Plan)
    requires ValidSys(s)
  {
    && (plan.Through? ==> plan.g.cluster in s.m && plan.g == s.m[plan.g.cluster].g)
    && forall i: nat | i < |s.clusters| ::
         if global.Some? && s.clusters[i].family == V6
         then plan.Through? && Hit(s.m, plan.g.cluster, global.value.Host())
         else plan.ByCluster? || s.clusters[i].family == V4
  }

  lemma ServedFrom(s0: Sys, s: Sys, global: Option<HostPrefix>, got: seq<Prefix>, plan: Plan, i: nat)
    returns (k: Prefix, b: nat)
    requires ValidSys(s0) && ValidSys(s) && Grown(s0, s) && |got| == |s.clusters| && i < |got|
    requires forall c | c in s0.clusters :: c in s0.m
    requires From(s0, s, got[i], Targets(s.clusters, global)[i]) && FitsPlan(s, global, plan)
    ensures k == KeyFor(s.clusters[i], plan) && Fresh(s0, s, got[i], k, b)
  {
    hide WellFormed, DisjointKeys, Grown, Fresh, Hit;
    k, b :| Hit(s.m, k, Targets(s.clusters, global)[i]) && Fresh(s0, s, got[i], k, b);
    ServedKey(s0, s, global, plan, i, k);
  }

  lemma WorkerFeasible(s0: Sys, s: Sys, global: Option<HostPrefix>, got: seq<Prefix>, plan: Plan)
    requires ValidSys(s0) && ValidSys(s) && Grown(s0, s) && |got| == |s.clusters|
    requires forall c | c in s0.clusters :: c in s0.m
    requires forall i: nat | i < |got| :: From(s0, s, got[i], Targets(s.clusters, global)[i])
    requires ValidPlan(s0.m, plan) && FitsPlan(s, global, plan)
    ensures Feasible(s0, plan)
  {
    hide WellFormed, DisjointKeys, Grown, ValidPlan, From, Fresh, HasRoom, Hit;
    PlanValid(s0, plan);
    GrownClusters(s0, s);
    forall c | c in s0.clusters
      ensures HasRoom(s0.(m := PlanSets(s0.m, plan)), KeyFor(c, plan))
    {
      var i: nat :| i < |s.clusters| && s.clusters[i] == c;
      var k, b := ServedFrom(s0, s, global, got, plan, i);
      FreshRoom(s0, s, plan, got[i], k, b);
    }
  }

  // ----- safety over runs

  lemma {:induction false} InvOverRuns(env: RP.Env, s0: Sys, F: iset<Prefix>, run: seq<Event>)
    requires Start(s0) && SafeFor(s0, F) && ReachableKeys(s0) <= F
    requires IsTrace(env, s0, run) && !env.lostAcks && !env.finalizers
    ensures Inv(s0, F, After(env, s0, run))
    decreases |run|
  {
    hide Inv, Next, Enabled, ValidSys, SafeFor, ReachableKeys, Start;
    StartTracked(s0);
    if run == [] {
      BeginInv(s0, F);
    } else {
      var last := |run| - 1;
      InvOverRuns(env, s0, F, run[..last]);
      var s, ev := After(env, s0, run[..last]), run[last];
      if ev.PatchOk? {
        PatchInClass(env, s0, F, s, ev);
      }
      NextKeepsInv(env, s0, F, s, ev);
    }
  }

  lemma StartTracked(s0: Sys)
    requires Start(s0)
    ensures ValidSys(s0) && forall c | c in s0.clusters :: c in s0.m
  {
  }

  lemma BeginInv(s0: Sys, F: iset<Prefix>)
    requires Start(s0) && SafeFor(s0, F)
    ensures Inv(s0, F, s0)
  {
    hide Inv, Start, Guarded;
    StartInv(s0, F);
  }

  lemma PatchInClass(env: RP.Env, s0: Sys, F: iset<Prefix>, s: Sys, ev: Event)
    requires ValidSys(s0) && ValidSys(s) && Inv(s0, F, s) && Enabled(env, s, ev) && ev.PatchOk?
    requires (forall c | c in s0.clusters :: c in s0.m) && ReachableKeys(s0) <= F
    ensures Worker(ev.pid) in s.hold && InClass(s0, s, F, s.hold[Worker(ev.pid)])
  {
    hide WellFormed, DisjointKeys, ReachableKeys, Grown, Known, Guarded, AllWorkOk, PodsDisjoint, Fresh;
    CompleteInClass(s0, s, ev.pid);
    var got := s.hold[Worker(ev.pid)];
    forall i: nat | i < |got|
      ensures FreshIn(s0, s, F, got[i])
    {
      assert FreshIn(s0, s, ReachableKeys(s0), got[i]);
    }
  }

  /** From a start at which no set that can serve a reservation exposes a pod CIDR, the pod CIDRs of
      live nodes share no address in any reachable state. */
  lemma UnreachedIsSafe(env: RP.Env, s: Sys, run: seq<Event>)
    requires Start(s) && Unreached(s) && IsTrace(env, s, run) && !env.lostAcks && !env.finalizers
    ensures PodsDisjoint(After(env, s, run))
  {
    hide IsTrace, After, PodsDisjoint, Exposed, Reachable, Addable, Known, Grown, AllWorkOk;
    var F := ReachableKeys(s);
    assert Guarded(s, F) by {
      UnreachedGuards(s);
    }
    InvOverRuns(env, s, F, run);
  }

  lemma UnreachedGuards(s: Sys)
    requires ValidSys(s) && Unreached(s)
    ensures Guarded(s, ReachableKeys(s))
  {
    hide WellFormed, DisjointKeys, Cover, Reachable;
  }

  // ----- marked pod CIDRs

  /** No pod CIDR is larger than a tracked prefix that it meets, and no two meet the same block. */
  ghost predicate FitsSets(s: Sys)
    requires ValidSys(s)
  {
    && (forall x, k | IsSlot(s, x) && k in s.m && Pod(s, x).Valid() && Pod(s, x).Overlaps(k) :: Pod(s, x).Inside(k))
    && forall x, y, k, b: nat | Needs(s, x, k, b) && Needs(s, y, k, b) :: x == y
  }

  /** A pod CIDR inside a tracked prefix meets no other tracked prefix. */
  lemma OneHome(m: Sets, p: Prefix, k: Prefix, k': Prefix)
    requires ValidSets(m) && DisjointKeys(m) && p.Valid() && k in m && k' in m && p.Inside(k) && p.Overlaps(k')
    ensures k == k'
  {
    hide WellFormed;
  }

  lemma MarkedHome(s: Sys, x: Slot) returns (k: Prefix)
    requires ValidSys(s) && FitsSets(s) && IsSlot(s, x) && Pod(s, x).Valid() && Marked(s.m, Pod(s, x))
    ensures k in s.m && Pod(s, x).Inside(k) && Cover(s.m[k].g, Pod(s, x)) <= s.m[k].s.used
  {
    hide WellFormed, Cover, DisjointKeys, Needs;
    var p := Pod(s, x);
    k :| Hit(s.m, k, p.First()) && Cover(s.m[k].g, p) <= s.m[k].s.used;
    ContainsIsCovers(k, p.First());
  }

  /** A marked pod CIDR is not exposed anywhere, and no set that can be added meets it. */
  lemma MarkedGuarded(s: Sys, x: Slot)
    requires ValidSys(s) && FitsSets(s) && IsSlot(s, x) && Pod(s, x).Valid() && Marked(s.m, Pod(s, x))
    ensures forall k, b: nat :: !Exposed(s, x, k, b)
    ensures forall g | Addable(s.m, g) :: !Pod(s, x).Overlaps(g.cluster)
  {
    hide WellFormed, Cover, DisjointKeys, Marked, Built;
    var k0 := MarkedHome(s, x);
    forall k, b: nat
      ensures !Exposed(s, x, k, b)
    {
      if Needs(s, x, k, b) {
        NeedsKey(s, x, k, b);
        OneHome(s.m, Pod(s, x), k0, k);
      }
    }
  }

  ghost predicate AllPodsMarked(s: Sys)
    requires ValidSys(s)
  {
    forall x | IsSlot(s, x) :: Pod(s, x).Valid() && Marked(s.m, Pod(s, x))
  }

  ghost function AllKeys(): iset<Prefix> {
    iset k: Prefix | k.len >= 0
  }

  lemma MarkedSafeFor(s: Sys)
    requires ValidSys(s) && FitsSets(s) && AllPodsMarked(s)
    ensures SafeFor(s, AllKeys())
  {
    hide WellFormed, DisjointKeys, Marked, FitsSets, Exposed, Built;
    forall x, k, b: nat
      ensures !Exposed(s, x, k, b)
    {
      if IsSlot(s, x) {
        MarkedGuarded(s, x);
      } else {
        NotExposed(s, x, k, b);
      }
    }
    forall x, g | IsSlot(s, x) && Pod(s, x).Valid() && Addable(s.m, g)
      ensures !Pod(s, x).Overlaps(g.cluster)
    {
      MarkedGuarded(s, x);
    }
  }

  lemma NotExposed(s: Sys, x: Slot, k: Prefix, b: nat)
    requires ValidSys(s) && !IsSlot(s, x)
    ensures !Exposed(s, x, k, b)
  {
  }

  /** If every pod CIDR was marked at the start, then in every reachable state the pod CIDRs of live
      nodes share no address, and every block that a holder's pod CIDR meets is in use with nobody
      else to free it. */
  lemma RunsAreDisjoint(env: RP.Env, s: Sys, run: seq<Event>)
    requires Start(s) && FitsSets(s) && AllPodsMarked(s)
    requires IsTrace(env, s, run) && !env.lostAcks && !env.finalizers
    ensures PodsDisjoint(After(env, s, run)) && Guarded(After(env, s, run), AllKeys())
  {
    hide IsTrace, After, PodsDisjoint, Known, Grown, AllWorkOk, Start, FitsSets, AllPodsMarked, Reachable, SafeFor, Guarded;
    StartTracked(s);
    MarkedSafeFor(s);
    InvOverRuns(env, s, AllKeys(), run);
  }

  /** No set that can serve a reservation, tracked or yet to be added, meets the pod CIDR. */
  ghost predicate OutOfReach(s: Sys, x: Slot)
    requires ValidSys(s) && IsSlot(s, x) && Pod(s, x).Valid()
  {
    && (forall k | k in s.m && Reachable(s, k) :: !Pod(s, x).Overlaps(k))
    && (forall g | Addable(s.m, g) && Reachable(s, g.cluster) :: !Pod(s, x).Overlaps(g.cluster))
  }

  ghost predicate MarkedOrOut(s: Sys)
    requires ValidSys(s)
  {
    forall x | IsSlot(s, x) :: Pod(s, x).Valid() && (Marked(s.m, Pod(s, x)) || OutOfReach(s, x))
  }

  /** Where pod CIDRs fit the sets, no set exposes one if and only if each is marked or out of
      reach. */
  lemma UnreachedIsMarked(s: Sys)
    requires Start(s) && FitsSets(s)
    ensures Unreached(s) <==> MarkedOrOut(s)
  {
    hide WellFormed, DisjointKeys, Marked, Exposed, Addable, Reachable, FitsSets, OutOfReach, Unreached, PodsDisjoint;
    if Unreached(s) {
      forall x | IsSlot(s, x)
        ensures Pod(s, x).Valid() && (Marked(s.m, Pod(s, x)) || OutOfReach(s, x))
      {
        PodValid(s, x);
        UnreachedMarks(s, x);
      }
    }
    if MarkedOrOut(s) {
      MarkedUnreached(s);
    }
  }

  lemma UnreachedMarks(s: Sys, x: Slot)
    requires ValidSys(s) && FitsSets(s) && Unreached(s) && IsSlot(s, x) && Pod(s, x).Valid()
    ensures Marked(s.m, Pod(s, x)) || OutOfReach(s, x)
  {
    hide WellFormed, DisjointKeys, Cover, Reachable, Addable, Frees;
    var p := Pod(s, x);
    if k :| k in s.m && Reachable(s, k) && p.Overlaps(k) {
      ContainsIsCovers(k, p.First());
      assert Hit(s.m, k, p.First());
      forall b | b in Cover(s.m[k].g, p)
        ensures b in s.m[k].s.used
      {
        assert !Exposed(s, x, k, b);
      }
    }
  }

  lemma MarkedUnreached(s: Sys)
    requires ValidSys(s) && FitsSets(s) && MarkedOrOut(s)
    ensures Unreached(s)
  {
    hide WellFormed, DisjointKeys, Marked, Exposed, Built, Reachable, FitsSets;
    forall x, k, b: nat | k in s.m && Reachable(s, k)
      ensures !Exposed(s, x, k, b)
    {
      if !IsSlot(s, x) {
        NotExposed(s, x, k, b);
      } else if Marked(s.m, Pod(s, x)) {
        MarkedGuarded(s, x);
      } else {
        OutNotExposed(s, x, k, b);
      }
    }
    forall x, g | IsSlot(s, x) && Pod(s, x).Valid() && Addable(s.m, g) && Reachable(s, g.cluster)
      ensures !Pod(s, x).Overlaps(g.cluster)
    {
      if Marked(s.m, Pod(s, x)) {
        MarkedGuarded(s, x);
      }
    }
  }

  lemma OutNotExposed(s: Sys, x: Slot, k: Prefix, b: nat)
    requires ValidSys(s) && IsSlot(s, x) && Pod(s, x).Valid() && OutOfReach(s, x) && k in s.m && Reachable(s, k)
    ensures !Exposed(s, x, k, b)
  {
    hide WellFormed, DisjointKeys, Reachable, Addable, Frees, Cover;
    if Needs(s, x, k, b) {
      NeedsKey(s, x, k, b);
    }
  }

  // ----- what nobody can free

  lemma ReserveGrown(s0: Sys, s: Sys, pid: nat)
    requires ValidSys(s0) && ValidSys(s) && Grown(s0, s) && Known(s0, s)
    requires pid in s.work && s.work[pid].Reserving? && s.work[pid].idx < |s.work[pid].ips|
    ensures ValidSys(StepReserve(s, pid)) && Grown(s0, StepReserve(s, pid)) && Known(s0, StepReserve(s, pid))
  {
    hide WellFormed, DisjointKeys, Grown, Known, AllocateAt, Allocate, TakeAt, Prefix.Valid, Built;
    ReserveValid(s, pid);
    var s', w := StepReserve(s, pid), s.work[pid];
    var ip := w.ips[w.idx];
    var id := (x: Slot) => x;
    match TakeAt(s.m, ip)
    case Err(_) =>
      StillGrown(s0, s, s');
      StillKnown(s0, s, s', id);
    case Ok(None) =>
      StillGrown(s0, s, s');
      StillKnown(s0, s, s', id);
    case Ok(Some(p)) =>
      var k := TookFrom(s.m, ip);
      TakenFrom(s.m, k, ip);
      var b := Allocate(s.m[k].g, s.m[k].s).1.value;
      var s1 := s.(m := AllocateAt(s.m, ip));
      AllocateAtValid(s.m, ip);
      ShapeKeeps(s.m, s1.m);
      StillGrown(s0, s, s1);
      StillKnown(s0, s, s1, id);
      TakenFresh(s0, s, k, b);
      AppendKnown(s0, s1, s', pid, p, w.(idx := w.idx + 1), k, b);
      StillGrown(s0, s1, s');
  }

  lemma TakenFresh(s0: Sys, s: Sys, k: Prefix, b: nat)
    requires ValidSys(s0) && ValidSys(s) && Grown(s0, s) && k in s.m && b !in s.m[k].s.used
    ensures !Permanent(s0, k, b)
  {
    hide WellFormed, DisjointKeys, Built, Frees;
  }

  /** A step that may add sets. */
  lemma SelectGrown(s0: Sys, s: Sys, ev: Event)
    requires ValidSys(s0) && ValidSys(s) && Grown(s0, s) && Known(s0, s) && Enabled(RP.Env(true, true), s, ev)
    requires ev.Select? || ev.SelectFails? || ev.OccupyPod?
    ensures ValidSys(Next(s, ev)) && Grown(s0, Next(s, ev)) && Known(s0, Next(s, ev))
  {
    hide WellFormed, DisjointKeys, Grown, Known, Built, DefineOutcome, PodOutcome, Prefix.Valid, Extends, ValidSets;
    NextValid(s, ev);
    match ev {
      case Select(pid, name, v, global, m') =>
        DefinedGrows(s.m, m', v, Ok(global));
      case SelectFails(v, m') =>
        var e :| DefineOutcome(s.m, m', v, Err(e));
        DefinedGrows(s.m, m', v, Err(e));
      case OccupyPod(p, v, ok, m') =>
        PodGrows(s.m, m', p, v, ok);
    }
    SetsGrown(s0, s, Next(s, ev));
  }

  /** Every step, whatever the environment, spares what nobody could free at s0. */
  lemma NextGrown(s0: Sys, s: Sys, ev: Event)
    requires ValidSys(s0) && ValidSys(s) && Grown(s0, s) && Known(s0, s) && Enabled(RP.Env(true, true), s, ev)
    ensures ValidSys(Next(s, ev)) && Grown(s0, Next(s, ev)) && Known(s0, Next(s, ev))
  {
    hide WellFormed, DisjointKeys, Grown, Known, StepReserve, StepRelease, DefineOutcome, PodOutcome, Prefix.Valid, ValidSets,
         ValidNext;
    NextValid(s, ev);
    match ev
    case ReserveOne(pid) => ReserveGrown(s0, s, pid);
    case ReleaseOne(pid) => ReleaseKnown(s0, s, pid);
    case CreateNode(name) => HoldersGrown(s0, s, Next(s, ev), Node(name), Node(name));
    case DeleteNode(name, pid) => HoldersGrown(s0, s, Next(s, ev), Worker(pid), Node(name));
    case Decide(pid, _) => HoldersGrown(s0, s, Next(s, ev), Worker(pid), Worker(pid));
    case PatchOk(pid) => HoldersGrown(s0, s, Next(s, ev), Node(s.work[pid].name), Worker(pid));
    case PatchErr(pid, e) => HoldersGrown(s0, s, Next(s, ev), Worker(pid), Worker(pid));
    case PatchLost(pid, e) => HoldersGrown(s0, s, Next(s, ev), Node(s.work[pid].name), Worker(pid));
    case SyncDeleting(name, pid) => HoldersGrown(s0, s, Next(s, ev), Worker(pid), Node(name));
    case _ => SelectGrown(s0, s, ev);
  }

  /** The sets only grow, and nobody gains a pod CIDR. */
  lemma SetsGrown(s0: Sys, s: Sys, s': Sys)
    requires ValidSys(s0) && ValidSys(s) && ValidSys(s') && Grown(s0, s) && Known(s0, s) && s'.clusters == s.clusters
    requires Extends(s.m, s'.m) && forall k | k in s'.m && k !in s.m :: Built(s'.m[k].g)
    requires forall h | h in s'.hold :: s'.hold[h] == [] || (h in s.hold && s'.hold[h] == s.hold[h])
    ensures Grown(s0, s') && Known(s0, s')
  {
    hide WellFormed, DisjointKeys, Grown, Known, Built;
    StillGrown(s0, s, s');
    StillKnown(s0, s, s', (x: Slot) => x);
  }

  /** The sets stay, and one holder has what another had. */
  lemma HoldersGrown(s0: Sys, s: Sys, s': Sys, to: Holder, from: Holder)
    requires ValidSys(s0) && ValidSys(s) && ValidSys(s') && Grown(s0, s) && Known(s0, s)
    requires s'.clusters == s.clusters && s'.m == s.m
    requires forall h | h in s'.hold ::
               || s'.hold[h] == [] || (h in s.hold && s'.hold[h] == s.hold[h])
               || (h == to && from in s.hold && s'.hold[h] == s.hold[from])
    ensures Grown(s0, s') && Known(s0, s')
  {
    hide WellFormed, DisjointKeys, Grown, Known, Built;
    GrownFrame(s0, s, s');
    StillKnown(s0, s, s', (x: Slot) =>
                 if x.h == to && from in s.hold && x.h in s'.hold && s'.hold[x.h] == s.hold[from] then Slot(from, x.i) else x);
  }

  lemma ReleaseKnown(s0: Sys, s: Sys, pid: nat)
    requires ValidSys(s0) && ValidSys(s) && Grown(s0, s) && Known(s0, s) && pid in s.work && s.work[pid].Releasing?
    ensures ValidSys(StepRelease(s, pid)) && Grown(s0, StepRelease(s, pid)) && Known(s0, StepRelease(s, pid))
  {
    hide WellFormed, DisjointKeys, Grown, Known, Refuses, ReleaseAt, Prefix.Valid;
    ReleaseValid(s, pid);
    var s', w := StepRelease(s, pid), Worker(pid);
    var pods := s.hold[w];
    if pods == [] || (s.work[pid].stop && Refuses(s.m, pods[0])) {
      HoldersGrown(s0, s, s', w, w);
    } else {
      PodValid(s, Slot(w, 0));
      AtValid(s.m, pods[0]);
      StillKnown(s0, s, s', (x: Slot) => if x.h == w then Slot(w, x.i + 1) else x);
      ReleaseGrown(s0, s, s', pid);
    }
  }

  /** Over every run of every environment, a block in use that no holder frees stays in use. */
  lemma {:induction false} PermanentStays(env: RP.Env, s: Sys, run: seq<Event>)
    requires ValidSys(s) && IsTrace(env, s, run)
    ensures Grown(s, After(env, s, run)) && Known(s, After(env, s, run))
    decreases |run|
  {
    hide Next, ValidSys, Grown, Known, Permanent;
    if run == [] {
      GrownAtFirst(s);
    } else {
      var last := |run| - 1;
      PermanentStays(env, s, run[..last]);
      AnyEnabled(env, After(env, s, run[..last]), run[last]);
      NextGrown(s, After(env, s, run[..last]), run[last]);
    }
  }

  lemma AnyEnabled(env: RP.Env, s: Sys, ev: Event)
    requires ValidSys(s) && Enabled(env, s, ev)
    ensures Enabled(RP.Env(true, true), s, ev)
  {
    hide DefineOutcome, PodOutcome, ValidNext;
  }

  lemma GrownAtFirst(s: Sys)
    requires ValidSys(s)
    ensures Grown(s, s) && Known(s, s)
  {
    hide WellFormed, DisjointKeys, Frees;
  }

  /** A reserved address over runs: if at s the block around it is in use and no holder's pod CIDR
      meets it, then no reservation of any later state is given a block around that address. */
  lemma OwnAddressOverRuns(env: RP.Env, s: Sys, run: seq<Event>, k: Prefix, a: Addr, ip: Addr)
    requires ValidSys(s) && IsTrace(env, s, run) && Protected(s.m, k, a)
    requires forall x :: !Frees(s, x, k, IndexOf(s.m[k].g, a))
    ensures var r := TakeAt(After(env, s, run).m, ip);
            r.Ok? && r.value.Some? ==> r.value.value.Valid() && !r.value.value.Covers(a)
  {
    hide WellFormed, DisjointKeys, IsTrace, After, Known, Built, TakeAt, Frees;
    PermanentStays(env, s, run);
    var t := After(env, s, run);
    assert Permanent(s, k, IndexOf(s.m[k].g, a));
    assert Protected(t.m, k, a);
    TakeMisses(t.m, ip, k, a);
  }
}
