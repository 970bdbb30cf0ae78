/** The range allocator: one CIDR set per cluster CIDR, indexed by position. What the informer
    cache returns and how the API server answers are parameters of the calls that use them. */
module RangeAllocators {
  import opened Common
  import opened Prefixes
  import opened Geometry
  import opened SetState
  import opened CidrSets
  import opened RangeSpec

  class RangeAllocator {
    const cidrSets: seq<CidrSet>

    ghost predicate Valid()
      reads this, cidrSets
    {
      && (forall i | 0 <= i < |cidrSets| :: cidrSets[i].Valid())
      && (forall i, j | 0 <= i < j < |cidrSets| :: cidrSets[i] != cidrSets[j])
    }

    ghost function Geometries(): (gs: seq<Geometry>)
      reads this
      ensures |gs| == |cidrSets| && forall i | 0 <= i < |gs| :: gs[i] == cidrSets[i].geometry
    {
      seq(|cidrSets|, i requires 0 <= i < |cidrSets| => cidrSets[i].geometry)
    }

    ghost function Values(): (ss: seq<State>)
      reads this, cidrSets
      ensures |ss| == |cidrSets| && forall i | 0 <= i < |ss| :: ss[i] == cidrSets[i].Value()
    {
      seq(|cidrSets|, i requires 0 <= i < |cidrSets| reads this, cidrSets => cidrSets[i].Value())
    }

    constructor (sets: seq<CidrSet>)
      requires forall i | 0 <= i < |sets| :: sets[i].Valid()
      requires forall i, j | 0 <= i < j < |sets| :: sets[i] != sets[j]
      ensures Valid() && cidrSets == sets
    {
      cidrSets := sets;
    }

    static method BuildSets(clusters: seq<Prefix>, masks: seq<nat>) returns (r: Result<seq<CidrSet>, Error>)
      requires ValidParams(clusters, masks)
      ensures r.Ok? <==> Buildable(clusters, masks)
      ensures r.Ok? ==>
                var sets := r.value;
                && |sets| == |clusters| && fresh(sets)
                && (forall i | 0 <= i < |sets| :: sets[i].Valid() && sets[i].Value() == State({}, 0))
                && (forall i | 0 <= i < |sets| :: sets[i].geometry == Geometry(clusters[i], masks[i]))
                && (forall i, j | 0 <= i < j < |sets| :: sets[i] != sets[j])
    {
      var sets: seq<CidrSet> := [];
      for idx := 0 to |clusters|
        invariant |sets| == idx && fresh(sets)
        invariant forall i | 0 <= i < idx :: NewGeometry(clusters[i], masks[i]).Ok?
        invariant forall i | 0 <= i < idx :: sets[i].Valid() && sets[i].Value() == State({}, 0)
        invariant forall i | 0 <= i < idx :: sets[i].geometry == Geometry(clusters[i], masks[i])
        invariant forall i, j | 0 <= i < j < idx :: sets[i] != sets[j]
      {
        var s := CidrSet.New(clusters[idx], masks[idx]);
        if s.Err? {
          return Err(s.error);
        }
        sets := sets + [s.value];
      }
      r := Ok(sets);
    }

    method FilterOutAll(ranges: seq<Prefix>)
      requires Valid() && ValidPods(ranges) && Constructed(Geometries(), Values(), [], [])
      modifies cidrSets
      ensures Valid() && Constructed(Geometries(), Values(), ranges, [])
    {
      hide Constructed, WellFormed;
      ghost var gs := Geometries();
      assert ranges[..0] == [];
      for k := 0 to |ranges|
        invariant Valid() && Constructed(gs, Values(), ranges[..k], [])
      {
        ghost var before := Values();
        FilterOutServiceRange(ranges[k]);
        ConstructedRange(gs, before, Values(), ranges[..k], ranges[k]);
        assert ranges[..k] + [ranges[k]] == ranges[..k + 1];
      }
      assert ranges[..|ranges|] == ranges;
    }

    method OccupyAll(ghost ranges: seq<Prefix>, nodes: seq<seq<Prefix>>) returns (r: Result<(), Error>)
      requires Valid() && ValidPods(ranges) && (forall n | n in nodes :: ValidPods(n))
      requires Constructed(Geometries(), Values(), ranges, [])
      modifies cidrSets
      ensures Valid()
      ensures r.Ok? <==> forall n | n in nodes :: AllGood(Geometries(), n)
      ensures r.Ok? ==> Constructed(Geometries(), Values(), ranges, nodes)
    {
      hide Constructed, WellFormed, Indices, OccupiedUpTo;
      ghost var gs := Geometries();
      assert nodes[..0] == [];
      for k := 0 to |nodes|
        invariant Valid() && Constructed(gs, Values(), ranges, nodes[..k])
        invariant forall n | n in nodes[..k] :: AllGood(gs, n)
      {
        ghost var before := Values();
        var o := OccupyCIDRs(nodes[k]);
        if o.Err? {
          assert nodes[k] in nodes;
          return o;
        }
        ConstructedNode(gs, before, Values(), ranges, nodes[..k], nodes[k]);
        assert nodes[..k] + [nodes[k]] == nodes[..k + 1];
      }
      assert nodes[..|nodes|] == nodes;
      r := Ok(());
    }

    /** Builds one set per cluster CIDR, filters the service ranges out of them and marks the
        listed nodes' pod CIDRs. Fails exactly when a set cannot be built or a node has a pod
        CIDR that no set takes; otherwise exactly those blocks are in use. */
    static method New(clusters: seq<Prefix>, masks: seq<nat>, ranges: seq<Prefix>, nodes: seq<seq<Prefix>>)
      returns (r: Result<RangeAllocator, Error>)
      requires ValidParams(clusters, masks) && ValidPods(ranges) && forall n | n in nodes :: ValidPods(n)
      ensures var gs := GeometriesOf(clusters, masks);
              r.Ok? <==> Buildable(clusters, masks) && forall n | n in nodes :: AllGood(gs, n)
      ensures r.Ok? ==>
                var ra := r.value;
                && fresh(ra) && fresh(ra.cidrSets) && ra.Valid()
                && ra.Geometries() == GeometriesOf(clusters, masks)
                && Constructed(ra.Geometries(), ra.Values(), ranges, nodes)
    {
      hide Constructed, AllGood;
      var built := BuildSets(clusters, masks);
      if built.Err? {
        return Err(built.error);
      }
      var ra := new RangeAllocator(built.value);
      assert ra.Geometries() == GeometriesOf(clusters, masks);
      ConstructedEmpty(ra.Geometries(), ra.Values());
      ra.FilterOutAll(ranges);
      var o := ra.OccupyAll(ranges, nodes);
      if o.Err? {
        return Err(o.error);
      }
      r := Ok(ra);
    }

    /** Marks each pod CIDR of a node in the set at its position, up to the first bad one. */
    method OccupyCIDRs(pods: seq<Prefix>) returns (r: Result<(), Error>)
      requires Valid() && ValidPods(pods)
      modifies cidrSets
      ensures Valid()
      ensures var k := GoodPrefix(Geometries(), pods, 0);
              && (r.Ok? <==> k == |pods|)
              && k <= |cidrSets| && OccupiedUpTo(Geometries(), old(Values()), Values(), pods, k)
    {
      hide Indices, SetState.Occupy, WellFormed;
      ghost var gs, start := Geometries(), Values();
      var idx := 0;
      while idx < |pods|
        invariant 0 <= idx <= |pods| && idx <= |cidrSets| && Valid()
        invariant GoodPrefix(gs, pods, idx) == GoodPrefix(gs, pods, 0)
        invariant OccupiedUpTo(gs, start, Values(), pods, idx)
      {
        if idx >= |cidrSets| {
          return Err(NoSuchSet);
        }
        ghost var before := Values();
        var o := cidrSets[idx].Occupy(Some(pods[idx]));
        if o.Err? {
          assert Values() == before;
          return Err(o.error);
        }
        OccupiedOneMore(gs, start, before, Values(), pods, idx);
        idx := idx + 1;
      }
      r := Ok(());
    }

    /** Frees each pod CIDR of a deleted node in the set at its position, up to the first bad one. */
    method ReleaseCIDR(pods: seq<Prefix>) returns (r: Result<(), Error>)
      requires Valid() && ValidPods(pods)
      modifies cidrSets
      ensures Valid()
      ensures var k := GoodPrefix(Geometries(), pods, 0);
              && (r.Ok? <==> k == |pods|)
              && k <= |cidrSets| && ReleasedUpTo(Geometries(), old(Values()), Values(), pods, k)
    {
      hide Indices, SetState.Release, WellFormed;
      ghost var gs, start := Geometries(), Values();
      var idx := 0;
      while idx < |pods|
        invariant 0 <= idx <= |pods| && idx <= |cidrSets| && Valid()
        invariant GoodPrefix(gs, pods, idx) == GoodPrefix(gs, pods, 0)
        invariant ReleasedUpTo(gs, start, Values(), pods, idx)
      {
        if idx >= |cidrSets| {
          return Err(NoSuchSet);
        }
        ghost var before := Values();
        var o := cidrSets[idx].Release(Some(pods[idx]));
        if o.Err? {
          assert Values() == before;
          return Err(o.error);
        }
        ReleasedOneMore(gs, start, before, Values(), pods, idx);
        idx := idx + 1;
      }
      r := Ok(());
    }

    /** Gives a complete reservation back; a set's refusal is only logged. */
    method ReturnAll(cidrs: seq<Prefix>)
      requires Valid() && ValidPods(cidrs) && |cidrs| == |cidrSets|
      modifies cidrSets
      ensures Valid()
      ensures ReleasedUpTo(Geometries(), old(Values()), Values(), cidrs, |cidrSets|)
    {
      hide Indices, SetState.Release, WellFormed;
      ghost var gs, start := Geometries(), Values();
      for idx := 0 to |cidrs|
        invariant Valid() && ReleasedUpTo(gs, start, Values(), cidrs, idx)
      {
        ghost var before := Values();
        var _ := cidrSets[idx].Release(Some(cidrs[idx]));
        ReleasedOneMore(gs, start, before, Values(), cidrs, idx);
      }
    }

    /** Marks a service range in every set whose cluster it meets. */
    method FilterOutServiceRange(range: Prefix)
      requires Valid() && range.Valid()
      modifies cidrSets
      ensures Valid()
      ensures FilteredUpTo(Geometries(), old(Values()), Values(), range, |cidrSets|)
    {
      hide WellFormed, SetState.Occupy, Indices, OutOfCluster;
      ghost var gs, start := Geometries(), Values();
      for idx := 0 to |cidrSets|
        invariant Valid() && FilteredUpTo(gs, start, Values(), range, idx)
      {
        ghost var before := Values();
        if !OutOfCluster(cidrSets[idx].geometry.cluster, range) {
          var _ := cidrSets[idx].Occupy(Some(range));
        }
        FilteredOneMore(gs, start, before, Values(), range, idx);
      }
    }

    /** Reserves one block from every set; stops at the first exhausted one, and the blocks
        reserved up to there stay reserved. */
    method Reserve() returns (r: Result<(), Error>, got: seq<Prefix>)
      requires Valid()
      modifies cidrSets
      ensures Valid() && ValidPods(got)
      ensures r == if |got| == |cidrSets| then Ok(()) else Err(NoCIDRsRemaining)
      ensures |got| == Reservable(Geometries(), old(Values()), 0)
      ensures ReservedUpTo(Geometries(), old(Values()), Values(), got, |got|)
    {
      hide Allocate, WellFormed;
      ghost var gs, start := Geometries(), Values();
      got := [];
      r := Ok(());
      var idx := 0;
      while idx < |cidrSets|
        invariant 0 <= idx <= |cidrSets| && Valid() && r.Ok?
        invariant Reservable(gs, start, idx) == Reservable(gs, start, 0)
        invariant ReservedUpTo(gs, start, Values(), got, idx)
      {
        ghost var before := Values();
        var p := cidrSets[idx].AllocateNext();
        ReservedOneMore(gs, start, before, Values(), got, idx);
        if p.Err? {
          r := Err(p.error);
          break;
        }
        got := got + [p.value];
        idx := idx + 1;
      }
      ReservedValid(gs, start, Values(), got, idx);
    }

    /** Assigns a complete reservation to a node: the cached node is read again, then the server
        is patched up to three times. `cached` is what the second read returns and `patches`
        are the answers to the patch attempts, `None` for success. */
    method UpdateCIDRsAllocation(proposal: seq<Prefix>, cached: Option<seq<Prefix>>,
                                 patches: seq<Option<PatchError>>)
      returns (r: Result<(), Error>)
      requires Valid() && ValidPods(proposal) && |proposal| == |cidrSets|
      requires |patches| == CIDR_UPDATE_RETRIES
      modifies cidrSets
      ensures Valid()
      ensures cached.None? ==> r.Err? && Values() == old(Values())
      ensures cached == Some(proposal) ==> r.Ok? && Values() == old(Values())
      ensures cached.Some? && cached.value != proposal && cached.value != [] ==>
                r.Ok? && ReleasedUpTo(Geometries(), old(Values()), Values(), proposal, |cidrSets|)
      ensures cached == Some([]) && proposal != [] ==>
                if None in patches then r.Ok? && Values() == old(Values())
                else r.Err? && ReleasedUpTo(Geometries(), old(Values()), Values(), proposal, |cidrSets|)
    {
      match Reread(cached, proposal)
      case Lost =>
        r := Err(NodeNotFound);
      case Matches =>
        r := Ok(());
      case Reject =>
        ReturnAll(proposal);
        r := Ok(());
      case Proceed =>
        var err := Untyped;
        var i := 0;
        while i < CIDR_UPDATE_RETRIES
          invariant 0 <= i <= CIDR_UPDATE_RETRIES && None !in patches[..i]
          invariant err == Untyped && Valid() && Values() == old(Values())
        {
          if patches[i] == None {
            return Ok(());
          }
          err := Flatten(patches[i].value);
          i := i + 1;
        }
        assert patches[..i] == patches;
        if !IsServerTimeout(err) {
          ReturnAll(proposal);
        }
        r := Err(PatchFailed);
    }

    /** A node that has pod CIDRs gets them marked; one without gets a reservation, `got`, and if
        that is complete an assignment. A reservation that is turned down leaves the used blocks
        and the counter of a set as they were, exactly when it has fewer than 2^32 blocks. */
    method AllocateOrOccupyCIDR(pods: seq<Prefix>, cached: Option<seq<Prefix>>, patches: seq<Option<PatchError>>)
      returns (r: Result<(), Error>, got: seq<Prefix>)
      requires Valid() && ValidPods(pods) && |patches| == CIDR_UPDATE_RETRIES
      modifies cidrSets
      ensures Valid()
      ensures pods != [] ==>
                var k := GoodPrefix(Geometries(), pods, 0);
                got == [] && k <= |cidrSets| && (r.Ok? <==> k == |pods|) &&
                OccupiedUpTo(Geometries(), old(Values()), Values(), pods, k)
      ensures pods == [] ==> |got| == Reservable(Geometries(), old(Values()), 0)
      ensures pods == [] && |got| < |cidrSets| ==>
                r == Err(NoCIDRsRemaining) && ReservedUpTo(Geometries(), old(Values()), Values(), got, |got|)
      ensures pods == [] && |got| == |cidrSets| && cached.None? ==>
                r.Err? && ReservedUpTo(Geometries(), old(Values()), Values(), got, |cidrSets|)
      ensures pods == [] && |got| == |cidrSets| && cached == Some(got) ==>
                r.Ok? && ReservedUpTo(Geometries(), old(Values()), Values(), got, |cidrSets|)
      ensures pods == [] && |got| == |cidrSets| && cached.Some? && cached.value != got && cached.value != [] ==>
                r.Ok? && GivenBack(Geometries(), old(Values()), Values())
      ensures pods == [] && |got| == |cidrSets| && cached == Some([]) && got != [] ==>
                if None in patches
                then r.Ok? && ReservedUpTo(Geometries(), old(Values()), Values(), got, |cidrSets|)
                else r.Err? && GivenBack(Geometries(), old(Values()), Values())
      ensures forall i | 0 <= i < |cidrSets| ::
                cidrSets[i].used == old(cidrSets[i].used) ==>
                  cidrSets[i].allocatedCIDRs == old(cidrSets[i].allocatedCIDRs)
    {
      hide WellFormed;
      if |pods| > 0 {
        r := OccupyCIDRs(pods);
        return r, [];
      }
      ghost var before := Values();
      r, got := Reserve();
      if r.Err? {
        return;
      }
      ghost var mid := Values();
      r := UpdateCIDRsAllocation(got, cached, patches);
      if ReleasedUpTo(Geometries(), mid, Values(), got, |cidrSets|) {
        ReserveThenReturnIsNeutral(Geometries(), before, mid, Values(), got);
      }
    }
  }
}
