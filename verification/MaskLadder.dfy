/** How the cloud allocator sizes the set for a new IPv6 prefix. */
module MaskLadder {
  import opened Common
  import opened Bits
  import opened Prefixes
  import opened Geometry

  const DEFAULT_NODE_MAX_PODS := 110

  /** The pod capacity of a node: allocatable, else total capacity, else the kubelet default.
      `None` stands for a quantity that is absent or not an integer. */
  function NodeMaxPods(allocatable: Option<int>, capacity: Option<int>): (n: nat)
    ensures n > 0
  {
    if allocatable.Some? && allocatable.value > 0 then allocatable.value
    else if capacity.Some? && capacity.value > 0 then capacity.value
    else DEFAULT_NODE_MAX_PODS
  }

  /** Usable addresses of a pod subnet. */
  function Capacity(mask: nat): int
    requires mask <= 128
  {
    Pow2(128 - mask) - 2
  }

  /** The prefix the set is built on and the node mask inside it. */
  function Ladder(h: HostPrefix, maxPods: nat): Result<Geometry, Error>
    requires h.Valid() && h.family == V6
  {
    var bits := h.bits;
    if bits < 64 then Ok(Geometry(HostPrefix(V6, h.addr, 64).Masked(), 80))
    else if bits > 123 then Err(TooSmall)
    else if bits > 117 then
      if maxPods > Capacity(bits + 1) then Err(TooSmall) else Ok(Geometry(h.Masked(), bits + 1))
    else if bits > 111 then Ok(Geometry(h.Masked(), bits + 2))
    else if bits > 105 then Ok(Geometry(h.Masked(), bits + 4))
    else if bits > 99 then Ok(Geometry(h.Masked(), bits + 8))
    else Ok(Geometry(h.Masked(), bits + 16))
  }

  lemma Capacities()
    ensures Capacity(119) == 510 && Capacity(124) == 14
  {
    assert Pow2(4) == 16;
    assert Pow2(9) == 32 * Pow2(4);
  }

  lemma CapacityAtLeast(mask: nat, mask': nat)
    requires mask <= mask' <= 128
    ensures Capacity(mask) >= Capacity(mask')
  {
    Pow2Mono(128 - mask', 128 - mask);
  }

  /** The key contains the host address, the set is never refused as too big, the node mask is
      strictly longer than the key and at most /124, and the pod subnet has room for the
      requested pods or for 510. */
  lemma LadderSizes(h: HostPrefix, maxPods: nat)
    requires h.Valid() && h.family == V6 && Ladder(h, maxPods).Ok?
    ensures var g := Ladder(h, maxPods).value;
            && g.Valid() && g.cluster.Covers(h.Host())
            && NewGeometry(g.cluster, g.nodeMask) == Ok(g)
            && g.cluster.len < g.nodeMask <= 124 && g.nodeMask <= g.cluster.len + 16
            && g.cluster.len == (if h.bits < 64 then 64 else h.bits)
            && Capacity(g.nodeMask) >= (if maxPods <= 510 then maxPods else 510)
  {
    hide Pow2, MaskTo;
    var g := Ladder(h, maxPods).value;
    MaskedValid(h);
    MaskedValid(HostPrefix(V6, h.addr, 64));
    Capacities();
    if h.bits <= 117 {
      CapacityAtLeast(g.nodeMask, 119);
    }
  }

  /** The documented promise: an error, or a pod subnet with room for maxPods pods. */
  ghost predicate PodsFit(h: HostPrefix, maxPods: nat)
    requires h.Valid() && h.family == V6
  {
    var r := Ladder(h, maxPods);
    r.Ok? ==> r.value.nodeMask <= 128 && maxPods <= Capacity(r.value.nodeMask)
  }

  /** The pods there is room for, by the length of the prefix alone. */
  function Room(bits: nat): int
    requires bits <= 123
  {
    if bits < 64 then Pow2(48) - 2
    else if bits <= 99 then Pow2(112 - bits) - 2
    else if bits <= 105 then Pow2(120 - bits) - 2
    else if bits <= 111 then Pow2(124 - bits) - 2
    else if bits <= 117 then Pow2(126 - bits) - 2
    else Pow2(127 - bits) - 2
  }

  /** For a given prefix the promise is kept if and only if the prefix is longer than /117, where
      the pod count is looked at, or the pods fit the room that its length leaves; a prefix for
      which the count is not looked at never leaves room for less than 510. */
  lemma PodsFitPerPrefix(h: HostPrefix, maxPods: nat)
    requires h.Valid() && h.family == V6
    ensures PodsFit(h, maxPods) <==> h.bits > 117 || maxPods <= Room(h.bits)
    ensures Ladder(h, maxPods).Ok? && PodsFit(h, maxPods) <==> h.bits <= 123 && maxPods <= Room(h.bits)
    ensures maxPods <= 510 ==> PodsFit(h, maxPods)
  {
    hide Pow2, MaskTo;
    if h.bits <= 117 {
      RoomBound(h.bits);
    }
  }

  /** No prefix that the pod count is not looked at for leaves room for less than 510 pods, and
      a /117 leaves no more. */
  lemma RoomBound(bits: nat)
    requires bits <= 117
    ensures Room(bits) >= 510 && Room(117) == 510
  {
    hide Pow2;
    Pow2Nine();
    Pow2Mono(9, 48);
    if 64 <= bits <= 99 {
      Pow2Mono(9, 112 - bits);
    } else if 100 <= bits <= 105 {
      Pow2Mono(9, 120 - bits);
    } else if 106 <= bits <= 111 {
      Pow2Mono(9, 124 - bits);
    } else if 112 <= bits {
      Pow2Mono(9, 126 - bits);
    }
  }

  lemma Pow2Nine()
    ensures Pow2(9) == 512
  {
    assert Pow2(4) == 16;
    assert Pow2(9) == 32 * Pow2(4);
  }

  /** 2000::1/117 is cut into pod subnets of 510 usable addresses without looking at the pod
      count. */
  lemma TooManyPodsAccepted(h: HostPrefix, maxPods: nat)
    requires h == HostPrefix(V6, Pow2(125) + 1, 117) && maxPods > 510
    ensures PublicHost(h) && Ladder(h, maxPods).Ok? && !PodsFit(h, maxPods)
  {
    hide Pow2, MaskTo;
    OneBelow(118);
    PublicAbove(1, 117, 118);
    RoomBound(117);
    PodsFitPerPrefix(h, maxPods);
  }

  lemma OneBelow(e: nat)
    requires e > 0
    ensures 1 < Pow2(e)
  {
  }

  /** Over the prefixes that discovery can pass on, the promise is kept by all of them if and only
      if maxPods is at most 510. */
  lemma PodsFitExactly(maxPods: nat)
    ensures (forall h: HostPrefix | PublicHost(h) :: PodsFit(h, maxPods)) <==> maxPods <= 510
  {
    if maxPods > 510 {
      TooManyPodsAccepted(HostPrefix(V6, Pow2(125) + 1, 117), maxPods);
    } else {
      forall h: HostPrefix | PublicHost(h)
        ensures PodsFit(h, maxPods)
      {
        PodsFitPerPrefix(h, maxPods);
      }
    }
  }

  // ----- the key of a new set

  /** The prefix itself, or the /64 around the host address if the prefix is shorter. */
  function NewKey(h: HostPrefix): Prefix
    requires h.Valid() && h.family == V6
  {
    if h.bits < 64 then HostPrefix(V6, h.addr, 64).Masked() else h.Masked()
  }

  lemma NewKeyInside(h: HostPrefix)
    requires h.Valid() && h.family == V6
    ensures NewKey(h).Valid() && NewKey(h).Covers(h.Host()) && NewKey(h).Inside(h.Masked())
    ensures NewKey(h).len >= 64 && NewKey(h).len >= h.bits
  {
    hide Pow2, MaskTo;
    MaskedValid(h);
    MaskedValid(HostPrefix(V6, h.addr, 64));
    OverlapsMeaning(h.Masked(), NewKey(h));
    Nested(h.Masked(), NewKey(h));
  }
}
