/** The cloud allocator: a growing map from prefix to CIDR set. Sets are found by enumerating
    the map, in an order the language leaves open, and taking the first key that contains an
    address. Informer cache reads, patch answers and the node's addresses and interfaces are
    parameters of the calls that use them. */
module CloudAllocators {
  import opened Common
  import Bits
  import opened Prefixes
  import opened Geometry
  import opened SetState
  import opened CidrSets
  import opened CloudSpec
  import opened CloudOutcomes
  import opened MaskLadder
  import opened Discovery
  import opened KeyGuard
  import opened NodeSelection
  import opened PodMarking
  import opened ServiceFilter
  import opened CloudStart
  import R = RangeSpec

  /** The node mask at a key: a repeated cluster CIDR keeps its last one. */
  function MaskAt(clusters: seq<Prefix>, masks: seq<nat>, k: Prefix): nat
    requires |clusters| == |masks| && k in clusters
  {
    var last := |clusters| - 1;
    if clusters[last] == k then masks[last]
    else
      assert k in clusters[..last];
      MaskAt(clusters[..last], masks[..last], k)
  }

  lemma MaskAtStep(clusters: seq<Prefix>, masks: seq<nat>, i: nat, k: Prefix)
    requires |clusters| == |masks| && i < |clusters| && k in clusters[..i + 1]
    ensures k != clusters[i] ==> k in clusters[..i]
    ensures MaskAt(clusters[..i + 1], masks[..i + 1], k) ==
            if k == clusters[i] then masks[i] else MaskAt(clusters[..i], masks[..i], k)
  {
    assert clusters[..i + 1][..i] == clusters[..i] && masks[..i + 1][..i] == masks[..i];
    assert clusters[..i + 1] == clusters[..i] + [clusters[i]];
  }

  /** The unused sets of the cluster CIDRs. */
  ghost function FirstSets(clusters: seq<Prefix>, masks: seq<nat>): Sets
    requires |clusters| == |masks|
  {
    map k | k in clusters :: Tracked(Geometry(k, MaskAt(clusters, masks, k)), State({}, 0))
  }

  /** The decision on the re-read node. A missing block never equals an assigned CIDR. */
  function Reread(cached: Option<seq<Prefix>>, proposed: seq<Option<Prefix>>): R.Verdict {
    if cached.None? then R.Lost
    else if |cached.value| == |proposed| && (forall i | 0 <= i < |proposed| :: proposed[i] == Some(cached.value[i]))
      then R.Matches
    else if cached.value != [] then R.Reject
    else R.Proceed
  }

  method MeetsAny(k: Prefix, cidrs: seq<HostPrefix>) returns (r: bool)
    requires k.Valid() && forall h | h in cidrs :: h.Valid()
    ensures r <==> Meets(k, cidrs)
  {
    hide Bits.Pow2, MaskTo;
    for i := 0 to |cidrs|
      invariant forall j | 0 <= j < i :: cidrs[j].Valid() && !k.Contains(cidrs[j].Masked().First())
    {
      assert cidrs[i] in cidrs;
      if k.Contains(cidrs[i].Masked().First()) {
        return true;
      }
    }
    return false;
  }

  method PublicAddresses(addrs: seq<Addr>) returns (r: seq<Addr>)
    ensures r == PublicOf(addrs)
  {
    hide IsPrivate;
    r := [];
    for i := 0 to |addrs|
      invariant r == PublicOf(addrs[..i])
    {
      assert addrs[..i + 1][..i] == addrs[..i];
      if addrs[i].family == V6 && !IsPrivate(addrs[i]) {
        r := r + [addrs[i]];
      }
    }
    assert addrs[..|addrs|] == addrs;
  }

  class CloudAllocator {
    const clusterCIDRs: seq<Prefix>
    var cidrSets: map<Prefix, CidrSet>

    /** Every key is the cluster CIDR of its set. */
    ghost predicate Valid()
      reads this, cidrSets.Values
    {
      forall k | k in cidrSets :: cidrSets[k].Valid() && cidrSets[k].geometry.cluster == k
    }

    ghost function Value(): (m: Sets)
      requires Valid()
      reads this, cidrSets.Values
      ensures ValidSets(m) && m.Keys == cidrSets.Keys
    {
      map k | k in cidrSets :: Tracked(cidrSets[k].geometry, cidrSets[k].Value())
    }

    constructor (clusters: seq<Prefix>, sets: map<Prefix, CidrSet>)
      requires forall k | k in sets :: sets[k].Valid() && sets[k].geometry.cluster == k
      ensures Valid() && clusterCIDRs == clusters && cidrSets == sets
    {
      clusterCIDRs := clusters;
      cidrSets := sets;
    }

    /** One unused set per cluster CIDR. */
    static method BuildSets(clusters: seq<Prefix>, masks: seq<nat>) returns (r: Result<map<Prefix, CidrSet>, Error>)
      requires R.ValidParams(clusters, masks)
      ensures r.Ok? <==> R.Buildable(clusters, masks)
      ensures r.Ok? ==>
                && (forall k :: k in r.value <==> k in clusters)
                && (forall k | k in r.value ::
                      && fresh(r.value[k]) && r.value[k].Valid() && r.value[k].Value() == State({}, 0)
                      && r.value[k].geometry == Geometry(k, MaskAt(clusters, masks, k)))
    {
      hide WellFormed, Bits.Pow2, MaskAt;
      var sets: map<Prefix, CidrSet> := map[];
      for i := 0 to |clusters|
        invariant forall j | 0 <= j < i :: NewGeometry(clusters[j], masks[j]).Ok?
        invariant forall k :: k in sets <==> k in clusters[..i]
        invariant forall k | k in sets :: fresh(sets[k]) && sets[k].Valid() && sets[k].Value() == State({}, 0)
        invariant forall k | k in sets :: sets[k].geometry == Geometry(k, MaskAt(clusters[..i], masks[..i], k))
      {
        var s := CidrSet.New(clusters[i], masks[i]);
        if s.Err? {
          return Err(s.error);
        }
        forall k | k in clusters[..i + 1]
          ensures k != clusters[i] ==> k in clusters[..i]
          ensures MaskAt(clusters[..i + 1], masks[..i + 1], k) ==
                  if k == clusters[i] then masks[i] else MaskAt(clusters[..i], masks[..i], k)
        {
          MaskAtStep(clusters, masks, i, k);
        }
        sets := sets[clusters[i] := s.value];
      }
      assert clusters[..|clusters|] == clusters && masks[..|masks|] == masks;
      r := Ok(sets);
    }

    /** Builds one set per cluster CIDR, at the key that is that CIDR. Fails exactly when a set
        cannot be built. */
    static method New(clusters: seq<Prefix>, masks: seq<nat>) returns (r: Result<CloudAllocator, Error>)
      requires R.ValidParams(clusters, masks)
      ensures r.Ok? <==> R.Buildable(clusters, masks)
      ensures r.Ok? ==>
                var ca := r.value;
                && fresh(ca) && ca.Valid() && ca.clusterCIDRs == clusters && fresh(ca.cidrSets.Values)
                && (forall k :: k in ca.cidrSets <==> k in clusters)
                && ca.Value() == FirstSets(clusters, masks)
    {
      hide WellFormed, Bits.Pow2, MaskAt;
      var sets := BuildSets(clusters, masks);
      if sets.Err? {
        return Err(sets.error);
      }
      var ca := new CloudAllocator(clusters, sets.value);
      assert ca.Value() == FirstSets(clusters, masks);
      r := Ok(ca);
    }

    /** Builds the sets, filters the service ranges and goes through the listed nodes; a set that
        cannot be built and a node that is refused are errors. */
    static method Construct(clusters: seq<Prefix>, masks: seq<nat>, ranges: seq<Prefix>, nodes: seq<ListedNode>)
      returns (r: Result<CloudAllocator, Error>)
      requires R.ValidParams(clusters, masks) && (forall p | p in ranges :: p.Valid())
      requires forall n | n in nodes :: n.Valid()
      ensures R.Buildable(clusters, masks) ==> ValidSets(FirstSets(clusters, masks))
      ensures r.Ok? ==>
                var ca := r.value;
                && R.Buildable(clusters, masks) && ca.Valid() && ca.clusterCIDRs == clusters
                && Constructed(FirstSets(clusters, masks), ca.Value(), ranges, nodes)
      ensures r.Err? ==>
                !R.Buildable(clusters, masks) || RefusesSome(FirstSets(clusters, masks), ranges, nodes)
      ensures (R.Buildable(clusters, masks) && Narrow(FirstSets(clusters, masks)) &&
               Orderly(FirstSets(clusters, masks), nodes)) ==> r.Ok?
    {
      hide WellFormed, FirstSets, FilterOutcome, PodsOutcome, FilterEnough, AllMarked, Extends, MarkedUpTo, Constructed, Orderly,
           Narrow, RefusesSome;
      var built := New(clusters, masks);
      if built.Err? {
        return built;
      }
      var ca := built.value;
      ghost var m0 := ca.Value();
      if Narrow(m0) && Orderly(m0, nodes) {
        OrderlyAccepted(m0, ranges, nodes);
      }
      assert ranges[..0] == [] && nodes[..0] == [];
      for i := 0 to |ranges|
        invariant fresh(ca) && ca.Valid() && fresh(ca.cidrSets.Values) && FilteredAll(m0, ca.Value(), ranges[..i])
      {
        ghost var before := ca.Value();
        assert ranges[i] in ranges;
        ca.FilterOutServiceRange(ranges[i]);
        FilteredOneMore(m0, before, ca.Value(), ranges, i);
      }
      assert ranges[..|ranges|] == ranges;
      ghost var m1 := ca.Value();
      for i := 0 to |nodes|
        invariant fresh(ca) && ca.Valid() && fresh(ca.cidrSets.Values) && NodesOutcome(m1, ca.Value(), nodes[..i])
      {
        ghost var before := ca.Value();
        assert nodes[i] in nodes;
        if |nodes[i].pods| > 0 {
          var o := ca.OccupyPodCIDRs(nodes[i].pods, nodes[i].view);
          if o.Err? {
            RefusedBy(m0, m1, before, ca.Value(), ranges, nodes, i);
            return Err(o.error);
          }
        }
        NodesOneMore(m1, before, ca.Value(), nodes, i);
      }
      assert nodes[..|nodes|] == nodes;
      ConstructedBy(m0, m1, ca.Value(), ranges, nodes);
      r := Ok(ca);
    }

    /** Some key that contains the address, if there is one; which one is open. */
    method Lookup(ip: Addr) returns (r: Option<Prefix>)
      requires Valid()
      ensures r.None? <==> forall k | k in cidrSets :: !k.Contains(ip)
      ensures r.Some? ==> Hit(Value(), r.value, ip)
    {
      var keys := cidrSets.Keys;
      while keys != {}
        invariant keys <= cidrSets.Keys
        invariant forall k | k in cidrSets && k !in keys :: !k.Contains(ip)
        decreases |keys|
      {
        var k :| k in keys;
        if k.Contains(ip) {
          return Some(k);
        }
        keys := keys - {k};
      }
      return None;
    }

    /** The call on the set at a key, seen from the map: no other set changes. */
    method OccupyIn(k: Prefix, p: Prefix) returns (r: Result<(), Error>)
      requires Valid() && p.Valid() && k in cidrSets
      modifies cidrSets[k]
      ensures Valid() && cidrSets == old(cidrSets)
      ensures var t := old(Value())[k];
              && Value() == WithState(old(Value()), k, SetState.Occupy(t.g, t.s, Some(p)))
              && (r.Ok? <==> Indices(t.g, Some(p)).Ok?)
    {
      hide SetState.Occupy, WellFormed, Indices;
      r := cidrSets[k].Occupy(Some(p));
    }

    method ReleaseIn(k: Prefix, p: Prefix) returns (r: Result<(), Error>)
      requires Valid() && p.Valid() && k in cidrSets
      modifies cidrSets[k]
      ensures Valid() && cidrSets == old(cidrSets)
      ensures var t := old(Value())[k];
              && Value() == WithState(old(Value()), k, SetState.Release(t.g, t.s, Some(p)))
              && (r.Ok? <==> Indices(t.g, Some(p)).Ok?)
    {
      hide SetState.Release, WellFormed, Indices;
      r := cidrSets[k].Release(Some(p));
    }

    method AllocateIn(k: Prefix) returns (r: Result<Prefix, Error>)
      requires Valid() && k in cidrSets
      modifies cidrSets[k]
      ensures Valid() && cidrSets == old(cidrSets)
      ensures var t := old(Value())[k];
              && Value() == WithState(old(Value()), k, Allocate(t.g, t.s).0)
              && TakeFrom(t) == (if r.Ok? then Ok(Some(r.value)) else Err(r.error))
      ensures r.Ok? ==> r.value.Valid()
    {
      hide WellFormed, Allocate;
      TakenIsBlock(Value()[k]);
      r := cidrSets[k].AllocateNext();
    }

    /** Occupies the CIDR in a set whose key contains its first address. It can only fail on a
        `Wide` set, and with disjoint keys the outcome does not depend on the order. */
    method OccupyCIDR(p: Prefix) returns (r: Result<bool, Error>)
      requires Valid() && p.Valid()
      modifies cidrSets.Values
      ensures Valid() && cidrSets == old(cidrSets)
      ensures OccupyOutcome(old(Value()), Value(), p, r)
    {
      hide OccupyOutcome, SetState.Occupy, WellFormed, Indices;
      var found := Lookup(p.First());
      if found.None? {
        NothingFoundOutcome(Value(), p);
        return Ok(false);
      }
      ghost var before := Value();
      var o := OccupyIn(found.value, p);
      r := if o.Err? then Err(o.error) else Ok(true);
      FoundOutcome(before, found.value, p, r);
    }

    /** Occupies the range in a set whose key contains its first address; a failure is only
        logged. Every block that meets the range is marked if each set has them marked already or
        is the only one around that address, and for some order only then. */
    method FilterOutServiceRange(range: Prefix)
      requires Valid() && range.Valid()
      modifies cidrSets.Values
      ensures Valid() && cidrSets == old(cidrSets)
      ensures FilterOutcome(old(Value()), Value(), range)
      ensures FilterEnough(old(Value()), range) ==> AllMarked(Value(), range)
    {
      hide OccupyOutcome, FilterEnough, AllMarked, WellFormed;
      ghost var m := Value();
      var o := OccupyCIDR(range);
      if FilterEnough(m, range) {
        FilterMarks(m, Value(), range);
      }
    }

    /** Frees the CIDR in a set whose key contains its first address, if there is one. */
    method ReleaseCIDR(p: Prefix) returns (r: Result<(), Error>)
      requires Valid() && p.Valid()
      modifies cidrSets.Values
      ensures Valid() && cidrSets == old(cidrSets)
      ensures Narrow(old(Value())) ==> r.Ok?
      ensures ReleaseOutcome(old(Value()), Value(), p, r.Ok?) && OnlyFrees(old(Value()), Value(), [Some(p)])
      ensures DisjointKeys(old(Value())) ==> Value() == ReleaseAt(old(Value()), p)
    {
      hide SetState.Release, ReleaseAt, DisjointKeys, Narrow, WellFormed, Indices, OnlyFrees, OnlyTakes, ReleaseOutcome;
      ghost var before := Value();
      var found := Lookup(p.First());
      if found.None? {
        NothingFoundIsAt(before, p.First());
        NothingReleasedOutcome(before, p);
        OnlyNothing(before);
        OnlyFreesMore(before, before, [], [Some(p)]);
        return Ok(());
      }
      ReleasedFound(before, found.value, p);
      ReleasedOnly(before, found.value, p);
      r := ReleaseIn(found.value, p);
      ReleasedOutcome(before, found.value, p, r.Ok?);
    }

    /** Frees each CIDR in a set whose key contains its first address, up to the first missing or
        refused one. With disjoint keys the outcome does not depend on the order. */
    method ReleaseCIDRs(cidrs: seq<Option<Prefix>>) returns (r: Result<(), Error>)
      requires Valid() && ValidBlocks(cidrs)
      modifies cidrSets.Values
      ensures Valid() && cidrSets == old(cidrSets) && OnlyFrees(old(Value()), Value(), cidrs)
      ensures ReleasesOutcome(old(Value()), Value(), cidrs, r.Ok?)
      ensures var n := LeadingBlocks(cidrs);
              var m := old(Value());
              DisjointKeys(m) && Narrow(m) ==>
                && (r.Ok? <==> n == |cidrs|)
                && ValidBlocks(cidrs[..n]) && Value() == ReturnAll(m, cidrs[..n])
    {
      hide SetState.Release, ReleaseAt, ReturnAll, LeadingBlocks, DisjointKeys, Narrow, WellFormed, Indices, OnlyFrees,
           OnlyTakes, ReleasesOutcome, ReleaseOutcome;
      ghost var m := Value();
      ReleasesNone(m, cidrs);
      ReturnNothing(m, cidrs);
      OnlyNothing(m);
      OnlyFreesMore(m, m, [], cidrs);
      var i := 0;
      while i < |cidrs|
        invariant 0 <= i <= |cidrs| && i <= LeadingBlocks(cidrs)
        invariant Valid() && cidrSets == old(cidrSets) && ValidBlocks(cidrs[..i])
        invariant SameShape(m, Value()) && OnlyFrees(m, Value(), cidrs) && ReleasesOutcome(m, Value(), cidrs[..i], true)
        invariant DisjointKeys(m) && Narrow(m) ==> Value() == ReturnAll(m, cidrs[..i])
      {
        if cidrs[i].None? {
          ReleasesMore(m, Value(), Value(), cidrs, i, false);
          ReleasesStop(m, Value(), cidrs, i + 1);
          return Err(Unparsable);
        }
        ReturnOneMore(m, cidrs, i);
        ghost var before := Value();
        ShapeKeeps(m, before);
        var o := ReleaseCIDR(cidrs[i].value);
        OnlyFreesMore(before, Value(), [cidrs[i]], cidrs);
        OnlyFreesTrans(m, before, Value(), cidrs);
        ReleasesMore(m, before, Value(), cidrs, i, o.Ok?);
        if o.Err? {
          ReleasesStop(m, Value(), cidrs, i + 1);
          return o;
        }
        i := i + 1;
      }
      assert cidrs[..i] == cidrs;
      r := Ok(());
    }

    /** Gives a reservation back block by block; a failure is only logged. */
    method ReturnBlocks(got: seq<Option<Prefix>>)
      requires Valid() && ValidBlocks(got)
      modifies cidrSets.Values
      ensures Valid() && cidrSets == old(cidrSets) && OnlyFrees(old(Value()), Value(), got)
      ensures ReturnOutcome(old(Value()), Value(), got)
      ensures DisjointKeys(old(Value())) ==> Value() == ReturnAll(old(Value()), got)
    {
      hide ReleaseAt, ReturnAll, DisjointKeys, WellFormed, OnlyFrees, OnlyTakes, ReleaseOutcome, ReleasesOutcome, ReturnOutcome;
      ghost var m := Value();
      ReleasesNone(m, got);
      OnlyNothing(m);
      OnlyFreesMore(m, m, [], got);
      ReturnNothing(m, got);
      for i := 0 to |got|
        invariant Valid() && cidrSets == old(cidrSets) && ValidBlocks(got[..i])
        invariant SameShape(m, Value()) && OnlyFrees(m, Value(), got) && ReturnOutcome(m, Value(), got[..i])
        invariant DisjointKeys(m) ==> Value() == ReturnAll(m, got[..i])
      {
        ReturnOneMore(m, got, i);
        ghost var before := Value();
        ShapeKeeps(m, before);
        assert ValidBlocks([got[i]]);
        var o := ReleaseCIDRs([got[i]]);
        OnlyFreesMore(before, Value(), [got[i]], got);
        OnlyFreesTrans(m, before, Value(), got);
        ReleasesSingle(before, Value(), got[i], o.Ok?);
        ReturnMore(m, before, Value(), got, i, o.Ok?);
        if DisjointKeys(m) && got[i].Some? {
          ReleaseOrderFree(before, Value(), got[i].value, o.Ok?);
        }
      }
      assert got[..|got|] == got;
    }

    /** One block for the address, from a set whose key contains it; none if there is no such set. */
    method Take(ip: Addr) returns (r: Result<Option<Prefix>, Error>)
      requires Valid()
      modifies cidrSets.Values
      ensures Valid() && cidrSets == old(cidrSets)
      ensures r.Ok? && r.value.Some? ==> r.value.value.Valid()
      ensures TakeOutcome(old(Value()), Value(), ip, r)
      ensures if r.Ok? then OnlyTakes(old(Value()), Value(), [r.value]) else Value() == old(Value())
      ensures DisjointKeys(old(Value())) ==>
                && (r.Ok? <==> TakeAt(old(Value()), ip).Ok?)
                && (if r.Ok? then r == TakeAt(old(Value()), ip) && Value() == AllocateAt(old(Value()), ip)
                    else Value() == old(Value()))
    {
      hide DisjointKeys, WellFormed, Allocate, AllocateAt, TakeAt, TakeFrom, OnlyTakes, OnlyFrees, TakeOutcome;
      ghost var before := Value();
      var found := Lookup(ip);
      if found.None? {
        NothingTaken(before, ip);
        NothingTakenOutcome(before, ip);
        OnlyNothing(before);
        return Ok(None);
      }
      if DisjointKeys(before) {
        AllocatedFound(before, found.value, ip);
      }
      ExhaustedKeeps(before, found.value);
      if TakeFrom(before[found.value]).Ok? {
        TakenOnly(before, found.value);
      }
      var p := AllocateIn(found.value);
      r := if p.Err? then Err(p.error) else Ok(Some(p.value));
      TakenOutcome(before, found.value, ip, r);
    }

    /** Reserves one block per cluster CIDR and stops at the first exhausted set; the blocks
        reserved up to there stay reserved. */
    method Reserve(global: Option<HostPrefix>) returns (r: Result<(), Error>, got: seq<Option<Prefix>>)
      requires Valid()
      modifies cidrSets.Values
      ensures Valid() && cidrSets == old(cidrSets) && ValidBlocks(got)
      ensures ReserveOutcome(old(Value()), Value(), Targets(clusterCIDRs, global), got)
      ensures |got| <= |clusterCIDRs| && (r.Ok? <==> |got| == |clusterCIDRs|)
      ensures r.Err? ==> Exhausted(Value(), Targets(clusterCIDRs, global)[|got|])
      ensures OnlyTakes(old(Value()), Value(), got)
      ensures DisjointKeys(old(Value())) ==>
                (Value(), got, r.Ok?) == ReserveAll(old(Value()), Targets(clusterCIDRs, global))
    {
      hide DisjointKeys, WellFormed, ReserveAll, Targets, AllocateAt, TakeAt, OnlyTakes, OnlyFrees, SameShape, TakeOutcome,
           ReserveOutcome, Exhausted;
      ghost var m, ips := Value(), Targets(clusterCIDRs, global);
      got := [];
      r := Ok(());
      ReservedNone(m, ips);
      ReserveNone(m, ips);
      var idx := 0;
      while idx < |clusterCIDRs|
        invariant 0 <= idx <= |clusterCIDRs| && Valid() && cidrSets == old(cidrSets) && r.Ok?
        invariant ReservedSoFar(m, Value(), ips, idx, got) && ReserveOutcome(m, Value(), ips, got)
      {
        var cidr := clusterCIDRs[idx];
        var ip := cidr.First();
        if cidr.family == V6 && global.Some? {
          ip := global.value.Host();
        }
        TargetAt(clusterCIDRs, global, idx);
        ghost var before := Value();
        var o := Take(ip);
        ReservedStep(m, before, Value(), ips, idx, got, o);
        if o.Err? {
          TakeExhausted(before, Value(), ip, o);
          r := Err(o.error);
          return;
        }
        ReserveMore(m, before, Value(), ips, got, o.value);
        got := got + [o.value];
        idx := idx + 1;
      }
      assert ips[..idx] == ips;
    }

    /** Assigns a reservation to a node: the cached node is read again, then the server is
        patched up to three times. */
    method UpdateCIDRsAllocation(proposal: seq<Option<Prefix>>, cached: Option<seq<Prefix>>,
                                 patches: seq<Option<R.PatchError>>)
      returns (r: Result<(), Error>)
      requires Valid() && ValidBlocks(proposal) && |patches| == R.CIDR_UPDATE_RETRIES
      modifies cidrSets.Values
      ensures Valid() && cidrSets == old(cidrSets)
      ensures cached.None? ==> r.Err? && Value() == old(Value())
      ensures cached.Some? && SameList(cached.value, proposal) ==> r.Ok? && Value() == old(Value())
      ensures cached.Some? && !SameList(cached.value, proposal) && cached.value != [] ==>
                r.Ok? && Returned(old(Value()), Value(), proposal)
      ensures cached == Some([]) && proposal != [] ==>
                if None in patches then r.Ok? && Value() == old(Value())
                else r.Err? && Returned(old(Value()), Value(), proposal)
    {
      hide DisjointKeys, ReturnAll, WellFormed, OnlyFrees, ReturnOutcome;
      match Reread(cached, proposal)
      case Lost =>
        r := Err(NodeNotFound);
      case Matches =>
        r := Ok(());
      case Reject =>
        ReturnBlocks(proposal);
        r := Ok(());
      case Proceed =>
        var err := R.Untyped;
        var i := 0;
        while i < R.CIDR_UPDATE_RETRIES
          invariant 0 <= i <= R.CIDR_UPDATE_RETRIES && None !in patches[..i] && err == R.Untyped
          invariant Valid() && cidrSets == old(cidrSets) && Value() == old(Value())
        {
          if patches[i] == None {
            return Ok(());
          }
          err := R.Flatten(patches[i].value);
          i := i + 1;
        }
        assert patches[..i] == patches;
        if !R.IsServerTimeout(err) {
          ReturnBlocks(proposal);
        }
        r := Err(PatchFailed);
    }

    /** The node has no pod CIDRs: reserve and assign. `got` is what was reserved, up to the first
        exhausted set, and m1 the sets then; a complete reservation is proposed. With disjoint keys,
        one that is given back leaves every set's used blocks and counter as they were. */
    method AllocateCIDRs(global: Option<HostPrefix>, cached: Option<seq<Prefix>>, patches: seq<Option<R.PatchError>>)
      returns (r: Result<(), Error>, proposed: Option<seq<Option<Prefix>>>, ghost m1: Sets,
               ghost got: seq<Option<Prefix>>)
      requires Valid() && |patches| == R.CIDR_UPDATE_RETRIES
      modifies cidrSets.Values
      ensures Valid() && cidrSets == old(cidrSets) && ValidSets(m1) && ValidBlocks(got) && |got| <= |clusterCIDRs|
      ensures ReserveOutcome(old(Value()), m1, Targets(clusterCIDRs, global), got) && OnlyTakes(old(Value()), m1, got)
      ensures proposed == if |got| == |clusterCIDRs| then Some(got) else None
      ensures proposed.None? ==> r.Err? && Value() == m1 && Exhausted(m1, Targets(clusterCIDRs, global)[|got|])
      ensures proposed.Some? ==> Assigned(m1, Value(), got, cached, None in patches, r.Ok?)
      ensures DisjointKeys(old(Value())) ==>
                && (m1, got, proposed.Some?) == ReserveAll(old(Value()), Targets(clusterCIDRs, global))
                && (proposed.Some? && Narrow(old(Value())) && Returned(m1, Value(), got) ==>
                      SameUsed(old(Value()), Value()))
      ensures SameUsed(old(Value()), Value()) ==>
                forall k | k in cidrSets :: cidrSets[k].allocatedCIDRs == old(cidrSets[k].allocatedCIDRs)
    {
      hide WellFormed, ReserveAll, ReturnAll, Targets, DisjointKeys, Narrow, OnlyTakes, OnlyFrees, ReserveOutcome,
           ReturnOutcome, Exhausted, SameList;
      ghost var m := Value();
      var reserved, blocks := Reserve(global);
      m1, got := Value(), blocks;
      if reserved.Err? {
        r, proposed := reserved, None;
      } else {
        ShapeKeeps(m, m1);
        if DisjointKeys(m) && Narrow(m) {
          ReserveThenReturnIsNeutral(m, Targets(clusterCIDRs, global));
        }
        proposed := Some(blocks);
        r := UpdateCIDRsAllocation(blocks, cached, patches);
      }
      assert forall k | k in cidrSets :: cidrSets[k].allocatedCIDRs == |Value()[k].s.used|;
      assert forall k | k in cidrSets :: old(cidrSets[k].allocatedCIDRs) == |m[k].s.used|;
    }

    /** Adds a set for an IPv6 prefix. An existing set at the same key is kept. */
    method AddCIDRSet(h: HostPrefix, maxPods: nat) returns (r: Result<(), Error>)
      requires Valid() && h.Valid() && h.family == V6
      modifies this
      ensures Valid()
      ensures r.Ok? <==> Ladder(h, maxPods).Ok?
      ensures match Ladder(h, maxPods)
              case Err(_) => cidrSets == old(cidrSets)
              case Ok(g) =>
                && g.cluster in cidrSets && g.Valid() && g.cluster.Contains(h.Host())
                && (if g.cluster in old(cidrSets) then cidrSets == old(cidrSets)
                    else fresh(cidrSets[g.cluster]) && cidrSets == old(cidrSets)[g.cluster := cidrSets[g.cluster]])
      ensures Value() == match Ladder(h, maxPods)
                         case Err(_) => old(Value())
                         case Ok(g) => WithSet(old(Value()), g)
    {
      hide WellFormed, Ladder, WithSet, Bits.Pow2, MaskTo;
      match Ladder(h, maxPods)
      case Err(e) => r := Err(e);
      case Ok(g) =>
        LadderSizes(h, maxPods);
        ContainsIsCovers(g.cluster, h.Host());
        Track(g);
        r := Ok(());
    }

    /** Builds a set and tracks it, unless its key is there already. A geometry within the limit
        on mask lengths is never refused. */
    method Track(g: Geometry)
      requires Valid() && g.Valid()
      modifies this
      ensures Valid() && g.cluster in cidrSets
      ensures if g.cluster in old(cidrSets) then cidrSets == old(cidrSets)
              else fresh(cidrSets[g.cluster]) && cidrSets == old(cidrSets)[g.cluster := cidrSets[g.cluster]]
      ensures Value() == WithSet(old(Value()), g)
    {
      hide WellFormed, Bits.Pow2;
      var s := CidrSet.New(g.cluster, g.nodeMask);
      assert s.Ok?;
      if g.cluster !in cidrSets {
        cidrSets := cidrSets[g.cluster := s.value];
      }
    }

    /** Marks the node's public IPv6 addresses in the sets that contain them, and nothing else. */
    method OccupyNodeIPs(addrs: seq<Addr>) returns (r: Result<(), Error>)
      requires Valid() && forall a | a in addrs :: a.Valid()
      modifies cidrSets.Values
      ensures Valid() && cidrSets == old(cidrSets) && r.Ok?
      ensures NodeOccupied(old(Value()), Value(), addrs)
    {
      hide WellFormed, NodeOccupied, OccupyAt, DisjointKeys, IsPrivate, Marked, OccupiedSome, OccupiedAs, Grows, Narrow;
      ghost var m := Value();
      NodeOccupiedNone(m, addrs);
      for i := 0 to |addrs|
        invariant Valid() && cidrSets == old(cidrSets) && NodeOccupied(m, Value(), addrs[..i])
      {
        ghost var before := Value();
        var a := addrs[i];
        assert a in addrs;
        HostRouteValid(a);
        if a.family != V6 || IsPrivate(a) {
          NodeOccupiedOneMore(m, before, before, addrs, i);
          continue;
        }
        var o := OccupyCIDR(HostRoute(a));
        // An IPv6 address in a tracked prefix is never refused, so no error is passed on.
        assert o.Ok?;
        NodeOccupiedOneMore(m, before, Value(), addrs, i);
      }
      assert addrs[..|addrs|] == addrs;
      r := Ok(());
    }

    /** A tracked public IPv6 prefix that contains the network address of one of the node's
        prefixes, if there is one; which one is open. */
    method FindTracked(cidrs: seq<HostPrefix>) returns (r: Option<Prefix>)
      requires Valid() && ValidCidrs(cidrs)
      ensures r.Some? ==> r.value in cidrSets && Serves(r.value, cidrs)
      ensures r.None? ==> forall k | k in cidrSets :: !Serves(k, cidrs)
    {
      hide WellFormed, Meets, Bits.Pow2;
      var keys := cidrSets.Keys;
      while keys != {}
        invariant keys <= cidrSets.Keys
        invariant forall k | k in cidrSets && k !in keys :: !Serves(k, cidrs)
        decreases |keys|
      {
        var k :| k in keys;
        keys := keys - {k};
        if k.family == V4 || IsPrivate(k.First()) {
          continue;
        }
        var met := MeetsAny(k, cidrs);
        if met {
          return Some(k);
        }
      }
      return None;
    }

    /** Adds a set for every discovered prefix but single addresses, up to the first failure. */
    method AddCIDRSets(cidrs: seq<HostPrefix>, maxPods: nat) returns (r: Result<(), Error>)
      requires Valid() && ValidCidrs(cidrs)
      modifies this
      ensures Valid() && (Value(), r.Ok?) == AddAll(old(Value()), cidrs, maxPods)
      ensures fresh(cidrSets.Values - old(cidrSets).Values)
    {
      hide WellFormed, Ladder, WithSet, AddAll, ValidCidrs;
      ghost var m := Value();
      AddAllNothing(m, cidrs, maxPods);
      for i := 0 to |cidrs|
        invariant Valid() && ValidCidrs(cidrs[..i]) && (Value(), true) == AddAll(m, cidrs[..i], maxPods)
        invariant fresh(cidrSets.Values - old(cidrSets).Values)
      {
        AddAllOneMore(m, cidrs, maxPods, i);
        if cidrs[i].bits != 128 {
          var o := AddCIDRSet(cidrs[i], maxPods);
          if o.Err? {
            AddAllStops(m, cidrs, maxPods, i);
            return o;
          }
        }
      }
      assert cidrs[..|cidrs|] == cidrs;
      r := Ok(());
    }

    /** Takes a tracked prefix that serves the discovered ones, or adds sets for them, and reserves
        the node's own addresses. */
    method SelectPrefix(v: NodeView, ips: seq<Addr>, cidrs: seq<HostPrefix>)
      returns (r: Result<Option<HostPrefix>, Error>)
      requires Valid() && v.Valid() && v.addresses != []
      requires ips == PublicOf(v.addresses) && cidrs == v.Cidrs() && cidrs != []
      modifies this, cidrSets.Values
      ensures Valid() && fresh(cidrSets.Values - old(cidrSets).Values)
      ensures DefineOutcome(old(Value()), Value(), v, r)
    {
      hide WellFormed, AddAll, NodeOccupied, Serves, ValidCidrs, DefineOutcome, Discovered;
      ghost var m := Value();
      var found := FindTracked(cidrs);
      if found.Some? {
        var k := found.value;
        var _ := OccupyNodeIPs(ips);
        ServedOutcome(m, Value(), v, k);
        return Ok(Some(HostPrefix(k.family, k.base, k.len)));
      }
      var added := AddCIDRSets(cidrs, v.MaxPods());
      if added.Err? {
        RefusedOutcome(m, v, added.error);
        return Err(added.error);
      }
      ghost var mid := Value();
      var _ := OccupyNodeIPs(ips);
      AddedOutcome(m, mid, Value(), v);
      r := Ok(Some(cidrs[0]));
    }

    /** Discovers the node's prefixes and chooses the one whose set serves the node. */
    method DefineNodeGlobalCIDRs(v: NodeView) returns (r: Result<Option<HostPrefix>, Error>)
      requires Valid() && v.Valid()
      modifies this, cidrSets.Values
      ensures Valid() && fresh(cidrSets.Values - old(cidrSets).Values)
      ensures DefineOutcome(old(Value()), Value(), v, r)
    {
      hide WellFormed, DefineOutcome, ValidCidrs, Discovered, Accepted, Kept, Elements, V4Prefixes, Sorted, ValidV6;
      ghost var m := Value();
      NothingSelected(m, v, NoAddresses);
      if |v.addresses| == 0 {
        return Err(NoAddresses);
      }
      var ips := PublicAddresses(v.addresses);
      var _, cidrs := NodeCIDRDiscovery(ips, v.ifaces);
      if |cidrs| == 0 {
        return Ok(None);
      }
      r := SelectPrefix(v, ips, cidrs);
    }

    /** One of a node's pod CIDRs: marked if a set contained it; else the prefix that serves the
        node is chosen, and the pod CIDR is not tried again. */
    method OccupyPodCIDR(p: Prefix, v: NodeView) returns (r: Result<(), Error>)
      requires Valid() && p.Valid() && v.Valid()
      modifies this, cidrSets.Values
      ensures Valid() && Extends(old(Value()), Value()) && fresh(cidrSets.Values - old(cidrSets).Values)
      ensures PodOutcome(old(Value()), Value(), p, v, r.Ok?)
      ensures r.Ok? && DisjointKeys(Value()) ==>
                (Marked(Value(), p) <==> Tracks(old(Value()), p.First()) || NodeFills(old(Value()), v, p))
    {
      hide WellFormed, Extends, Marked, OccupyOutcome, DisjointKeys, DefineOutcome, Tracks, NodeFills, PodOutcome;
      ghost var m := Value();
      var o := OccupyCIDR(p);
      OccupiedOutcome(m, Value(), p, v, o);
      if o.Err? {
        return Err(o.error);
      }
      if o.value {
        r := Ok(());
      } else {
        var d := DefineNodeGlobalCIDRs(v);
        DefinedExtends(m, Value(), v, d);
        DefinedOutcome(m, Value(), p, v, d);
        r := if d.Err? then Err(d.error) else Ok(());
      }
      if r.Ok? && DisjointKeys(Value()) {
        PodMarkedExactly(m, Value(), p, v);
      }
    }

    method OccupyEach(pods: seq<Prefix>, v: NodeView) returns (r: Result<(), Error>)
      requires Valid() && (forall p | p in pods :: p.Valid()) && v.Valid()
      modifies this, cidrSets.Values
      ensures Valid() && PodsOutcome(old(Value()), Value(), pods, v, r.Ok?)
      ensures fresh(cidrSets.Values - old(cidrSets).Values)
    {
      hide WellFormed, Extends, Marked, PodOutcome, PodsOutcome, Tracks, NodeFills, DisjointKeys, ValidSets, ValidCidrs;
      ghost var m := Value();
      PodsNone(m, pods, v);
      for i := 0 to |pods|
        invariant Valid() && PodsOutcome(m, Value(), pods[..i], v, true)
        invariant fresh(cidrSets.Values - old(cidrSets).Values)
      {
        ghost var before := Value();
        assert pods[i] in pods;
        var o := OccupyPodCIDR(pods[i], v);
        PodsOneMore(m, before, Value(), pods, v, i, o.Ok?);
        if o.Err? {
          PodsStop(m, Value(), pods, v, i + 1);
          return o;
        }
      }
      assert pods[..|pods|] == pods;
      r := Ok(());
    }

    /** The node has pod CIDRs: each is handled in turn. On success those that a set contained at
        first are marked; `PodMarkedExactly` says which others are. */
    method OccupyPodCIDRs(pods: seq<Prefix>, v: NodeView) returns (r: Result<(), Error>)
      requires Valid() && (forall p | p in pods :: p.Valid()) && v.Valid()
      modifies this, cidrSets.Values
      ensures Valid() && Extends(old(Value()), Value()) && fresh(cidrSets.Values - old(cidrSets).Values)
      ensures |pods| > 2 ==> r.Ok? && Value() == old(Value())
      ensures |pods| <= 2 ==> PodsOutcome(old(Value()), Value(), pods, v, r.Ok?)
      ensures |pods| <= 2 && r.Ok? ==> MarkedUpTo(old(Value()), Value(), pods, |pods|)
    {
      hide WellFormed, Extends, MarkedUpTo, PodsOutcome, ValidCidrs;
      ghost var m := Value();
      if |pods| == 0 || |pods| > 2 {
        ExtendsRefl(m);
        if |pods| == 0 {
          PodsNone(m, pods, v);
          MarkedNone(m, m, pods);
          assert pods[..0] == pods;
        }
        return Ok(());
      }
      r := OccupyEach(pods, v);
      PodsMarked(m, Value(), pods, v, r.Ok?);
    }

    /** A node that has pod CIDRs gets them marked. For one without, the prefix that serves it is
        chosen, and blocks are reserved and assigned; `mid` and m1 are the sets after the choice and
        after the reservation, `got` the blocks reserved. If discovery found prefixes and the keys
        stay disjoint, no proposed block contains a public address that the node reports, and if
        there is one, none contains a discovered address. */
    method AllocateOrOccupyCIDR(pods: seq<Prefix>, v: NodeView, cached: Option<seq<Prefix>>,
                                patches: seq<Option<R.PatchError>>)
      returns (r: Result<(), Error>, proposed: Option<seq<Option<Prefix>>>, ghost mid: Sets, ghost m1: Sets,
               ghost got: seq<Option<Prefix>>)
      requires Valid() && (forall p | p in pods :: p.Valid()) && v.Valid()
      requires |patches| == R.CIDR_UPDATE_RETRIES
      modifies this, cidrSets.Values
      ensures Valid() && ValidSets(mid) && Extends(old(Value()), mid)
      ensures ValidSets(m1) && ValidBlocks(got) && |got| <= |clusterCIDRs|
      ensures pods != [] ==> proposed.None? && Value() == mid
      ensures |pods| > 2 ==> r.Ok? && mid == old(Value())
      ensures 0 < |pods| <= 2 ==> PodsOutcome(old(Value()), mid, pods, v, r.Ok?)
      ensures 0 < |pods| <= 2 && r.Ok? ==> MarkedUpTo(old(Value()), mid, pods, |pods|)
      ensures pods == [] ==>
                || (exists e :: DefineOutcome(old(Value()), mid, v, Err(e)) && r == Err(e) && proposed.None? &&
                                Value() == mid)
                || (exists global ::
                      && DefineOutcome(old(Value()), mid, v, Ok(global))
                      && ReserveOutcome(mid, m1, Targets(clusterCIDRs, global), got) && OnlyTakes(mid, m1, got)
                      && proposed == (if |got| == |clusterCIDRs| then Some(got) else None)
                      && (proposed.None? ==>
                            r.Err? && Value() == m1 && Exhausted(m1, Targets(clusterCIDRs, global)[|got|]))
                      && (proposed.Some? ==> Assigned(m1, Value(), got, cached, None in patches, r.Ok?))
                      && (DisjointKeys(mid) ==>
                            && (m1, got, proposed.Some?) == ReserveAll(mid, Targets(clusterCIDRs, global))
                            && (proposed.Some? && Narrow(mid) && Returned(m1, Value(), got) ==>
                                  SameUsed(mid, Value()))))
      ensures proposed.Some? && v.Cidrs() != [] && DisjointKeys(old(Value())) && KeepsKeys(old(Value()), v) ==>
                && NoneCovers(proposed.value, v.addresses)
                && (PublicOf(v.addresses) != [] ==> NoneCovers(proposed.value, Hosts(v.Cidrs())))
    {
      hide WellFormed, Extends, ReserveAll, Targets, DisjointKeys, Narrow, KeepsKeys, NoneCovers, MarkedUpTo, PodsOutcome,
           ValidCidrs, DefineOutcome, SameUsed, Discovered, ReserveOutcome, OnlyTakes, Exhausted, Assigned, Returned;
      ghost var m := Value();
      proposed, got := None, [];
      if |pods| > 0 {
        r := OccupyPodCIDRs(pods, v);
        mid, m1 := Value(), Value();
        return;
      }
      var global := DefineNodeGlobalCIDRs(v);
      mid, m1 := Value(), Value();
      DefinedExtends(m, mid, v, global);
      if global.Err? {
        r := Err(global.error);
        return;
      }
      r, proposed, m1, got := AllocateCIDRs(global.value, cached, patches);
      OwnAddressesKept(m, mid, v, global.value, Targets(clusterCIDRs, global.value));
    }
  }
}
