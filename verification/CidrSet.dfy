/** The CIDR set object: a bitmap of used blocks, a redundant counter and a round-robin cursor,
    updated in place. The bitmap is the set of positions of its one bits. Every method holds
    the set's lock around its state change, so a call is one atomic step. */
module CidrSets {
  import opened Common
  import Bits
  import opened Prefixes
  import opened Geometry
  import opened SetState

  class CidrSet {
    const geometry: Geometry
    const maxCIDRs: nat
    var allocatedCIDRs: int
    var nextCandidate: nat
    var used: set<nat>

    /** The counter is the number of one bits, no bit lies beyond the last block, and the
        cursor names a block. */
    ghost predicate Valid()
      reads this
    {
      && geometry.Valid()
      && maxCIDRs == geometry.Max()
      && allocatedCIDRs == |used|
      && WellFormed(geometry, Value())
    }

    ghost function Value(): State
      reads this
    {
      State(used, nextCandidate)
    }

    constructor (g: Geometry)
      requires g.Valid()
      ensures Valid() && geometry == g && Value() == State({}, 0)
    {
      geometry := g;
      maxCIDRs := g.Max();
      allocatedCIDRs := 0;
      nextCandidate := 0;
      used := {};
    }

    /** Fails exactly for an IPv6 node mask more than 16 bits longer than the cluster mask. */
    static method New(cluster: Prefix, nodeMask: nat) returns (r: Result<CidrSet, Error>)
      requires cluster.Valid() && cluster.len <= nodeMask <= Width(cluster.family)
      ensures r.Ok? <==> cluster.family == V4 || nodeMask <= cluster.len + 16
      ensures r.Err? ==> r.error == SubNetTooBig
      ensures r.Ok? ==> fresh(r.value) && r.value.Valid() && r.value.Value() == State({}, 0)
      ensures r.Ok? ==> r.value.geometry == Geometry(cluster, nodeMask)
    {
      match NewGeometry(cluster, nodeMask)
      case Err(e) => r := Err(e);
      case Ok(g) =>
        var s := new CidrSet(g);
        r := Ok(s);
    }

    /** Takes the head of the free queue; fails, changing nothing, when the counter says full. */
    method AllocateNext() returns (r: Result<Prefix, Error>)
      requires Valid()
      modifies this
      ensures Valid()
      ensures Value() == Allocate(geometry, old(Value())).0
      ensures match Allocate(geometry, old(Value())).1
              case None => r == Err(NoCIDRsRemaining)
              case Some(b) => b !in old(used) && r == Ok(geometry.Block(b))
    {
      hide Allocate, Indices;
      if allocatedCIDRs == maxCIDRs {
        AllocateFull(geometry, Value());
        return Err(NoCIDRsRemaining);
      }
      var candidate := nextCandidate;
      var i := 0;
      while i < maxCIDRs
        invariant Valid() && Value() == old(Value())
        invariant 0 <= i <= maxCIDRs
        invariant candidate == ScanPosition(nextCandidate, i, maxCIDRs)
        invariant ScannedUsed(used, nextCandidate, i, maxCIDRs)
      {
        ScanStep(used, nextCandidate, i, maxCIDRs);
        if candidate !in used {
          break;
        }
        candidate := (candidate + 1) % maxCIDRs;
        i := i + 1;
      }
      ScanFindsFirstFree(geometry, Value(), i);
      AllocateFirstFree(geometry, Value(), candidate);

      nextCandidate := (candidate + 1) % maxCIDRs;
      used := used + {candidate};
      allocatedCIDRs := allocatedCIDRs + 1;
      r := Ok(IndexToCIDRBlock(geometry, candidate));
    }

    /** Clears the bit of every block that meets the CIDR, counting each cleared bit once. */
    method Release(cidr: Option<Prefix>) returns (r: Result<(), Error>)
      requires Valid() && (cidr.Some? ==> cidr.value.Valid())
      modifies this
      ensures Valid()
      ensures Value() == SetState.Release(geometry, old(Value()), cidr)
      ensures r.Ok? <==> Indices(geometry, cidr).Ok?
      ensures r.Err? ==> Value() == old(Value())
    {
      hide Indices, Cover, Bits.Pow2;
      var range := Indices(geometry, cidr);
      if range.Err? {
        return Err(range.error);
      }
      var (begin, end) := range.value;
      VisitedIsCover(geometry, cidr, used, used);
      var i := begin;
      while i <= end
        invariant begin <= i <= end + 1
        invariant allocatedCIDRs == |used| && nextCandidate == old(nextCandidate)
        invariant forall j: nat :: j in used <==> j in old(used) && !(begin <= j < i)
      {
        if i in used {
          used := used - {i};
          allocatedCIDRs := allocatedCIDRs - 1;
        }
        i := i + 1;
      }
      VisitedIsCover(geometry, cidr, old(used), used);
      r := Ok(());
    }

    /** Sets the bit of every block that meets the CIDR, counting each newly set bit once. */
    method Occupy(cidr: Option<Prefix>) returns (r: Result<(), Error>)
      requires Valid() && (cidr.Some? ==> cidr.value.Valid())
      modifies this
      ensures Valid()
      ensures Value() == SetState.Occupy(geometry, old(Value()), cidr)
      ensures r.Ok? <==> Indices(geometry, cidr).Ok?
      ensures r.Err? ==> Value() == old(Value())
    {
      hide Indices, Cover, Bits.Pow2;
      var range := Indices(geometry, cidr);
      if range.Err? {
        return Err(range.error);
      }
      var (begin, end) := range.value;
      VisitedIsCover(geometry, cidr, used, used);
      var i := begin;
      while i <= end
        invariant begin <= i <= end + 1
        invariant allocatedCIDRs == |used| && nextCandidate == old(nextCandidate)
        invariant forall j: nat :: j in used <==> j in old(used) || begin <= j < i
      {
        if i !in used {
          used := used + {i};
          allocatedCIDRs := allocatedCIDRs + 1;
        }
        i := i + 1;
      }
      VisitedIsCover(geometry, cidr, old(used), used);
      r := Ok(());
    }
  }
}
