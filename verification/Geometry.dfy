/** How a cluster prefix is cut into node blocks, and how the code moves between a block's
    index and its address. `Block` is the plain arithmetic; `IndexToCIDRBlock`,
    `IndexForIP` and `Indices` follow the word-level code. */
module Geometry {
  import opened Common
  import opened Bits
  import opened Prefixes

  const SUBNET_MAX_DIFF := 16

  datatype Geometry = Geometry(cluster: Prefix, nodeMask: nat) {
    predicate Valid() {
      && cluster.Valid()
      && cluster.len <= nodeMask <= Width(cluster.family)
      && (cluster.family == V6 ==> nodeMask - cluster.len <= SUBNET_MAX_DIFF)
    }

    /** Number of blocks. */
    function Max(): (n: nat)
      requires Valid()
      ensures n >= 1
    {
      Pow2(nodeMask - cluster.len)
    }

    function BlockSize(): (n: nat)
      requires Valid()
      ensures n >= 1
    {
      Pow2(Width(cluster.family) - nodeMask)
    }

    /** The i-th block, by multiplication. */
    function Block(i: nat): Prefix
      requires Valid()
    {
      Prefix(cluster.family, cluster.base + i * BlockSize(), nodeMask)
    }

    /** 2^32 IPv4 blocks: the block count no longer fits the 32-bit word it is compared in. */
    predicate Wide() {
      cluster.family == V4 && nodeMask >= cluster.len + 32
    }
  }

  /** The blocks that meet a prefix. */
  function Cover(g: Geometry, p: Prefix): set<nat>
    requires g.Valid() && p.Valid()
  {
    set i: nat | i < g.Max() && g.Block(i).Overlaps(p)
  }

  // ----- the word-level code

  function NewGeometry(cluster: Prefix, nodeMask: nat): Result<Geometry, Error> {
    if cluster.family == V6 && nodeMask - cluster.len > SUBNET_MAX_DIFF then Err(SubNetTooBig)
    else Ok(Geometry(cluster, nodeMask))
  }

  function BlockBaseV4(base: nat, nodeMask: nat, i: nat): nat
    requires nodeMask <= 32
  {
    Or(base, Shl(32, Truncate(32, i), 32 - nodeMask))
  }

  /** An address of two h-bit words is assembled half by half; h is 64 for IPv6. */
  function BlockBaseHalves(h: nat, base: nat, clusterMask: nat, nodeMask: nat, i: nat): nat
    requires nodeMask <= h + h
  {
    var left, right := Hi(h, base), Lo(h, base);
    if nodeMask <= h then
      Join(h, Or(left, Shl(h, i, h - nodeMask)), right)
    else
      var btl := nodeMask - h;
      var left' := if clusterMask < h && BitLen(i) > btl then Or(left, Shr(i, btl)) else left;
      Join(h, left', Or(right, Shl(h, i, h + h - nodeMask)))
  }

  function IndexToCIDRBlock(g: Geometry, i: nat): Prefix
    requires g.Valid()
  {
    var base := if g.cluster.family == V4
                then BlockBaseV4(g.cluster.base, g.nodeMask, i)
                else BlockBaseHalves(64, g.cluster.base, g.cluster.len, g.nodeMask, i);
    Prefix(g.cluster.family, base, g.nodeMask)
  }

  function IndexForIP(g: Geometry, a: Addr): Result<nat, Error>
    requires g.Valid() && a.family == g.cluster.family
  {
    var w := if a.family == V4 then 32 else 64;
    var index := Truncate(w, Shr(Xor(g.cluster.base, a.value), Width(a.family) - g.nodeMask));
    if index >= Truncate(w, g.Max()) then Err(OutOfRange) else Ok(index)
  }

  /** Last address of a prefix: the host bits are OR-ed in, half by half for IPv6. */
  function LastAddr(p: Prefix): Addr
    requires p.Valid()
  {
    var host := p.Size() - 1;
    if p.family == V4 then Addr(V4, Or(p.base, host))
    else
      var left := Or(Hi(64, p.base), Hi(64, host));
      var right := Or(Lo(64, p.base), Lo(64, host));
      Addr(V6, Join(64, left, right))
  }

  predicate OutOfCluster(c: Prefix, p: Prefix): (out: bool)
    requires c.Valid() && p.Valid()
    ensures c.family != p.family ==> out
  {
    && !(c.family == p.family && c.Contains(MaskTo(p.First(), c.len)))
    && !(c.family == p.family && p.Contains(MaskTo(c.First(), p.len)))
  }

  /** First and last block index that a CIDR touches. */
  function Indices(g: Geometry, cidr: Option<Prefix>): Result<(int, int), Error>
    requires g.Valid() && (cidr.Some? ==> cidr.value.Valid())
  {
    if cidr.None? then Err(NilCIDR)
    else
      var p := cidr.value;
      if OutOfCluster(g.cluster, p) then Err(OutOfRange)
      else if g.cluster.len < p.len then
        var begin :- IndexForIP(g, MaskTo(p.First(), g.nodeMask));
        var end :- IndexForIP(g, MaskTo(LastAddr(p), g.nodeMask));
        Ok((begin, end))
      else Ok((0, g.Max() - 1))
  }

  // ----- index to address

  lemma SizeSplit(g: Geometry)
    requires g.Valid()
    ensures g.cluster.Size() == g.Max() * g.BlockSize()
  {
    Pow2Add(g.nodeMask - g.cluster.len, Width(g.cluster.family) - g.nodeMask);
  }

  /** The offset of block i, with the whole block, stays below the cluster size. */
  lemma OffsetBound(i: nat, n: nat, s: nat)
    requires i < n && s > 0
    ensures 0 <= i * s && i * s + s <= n * s
  {
    MulMono(0, i, s);
    MulMono(i + 1, n, s);
    MulDistr(i, 1, s);
  }

  lemma ShlFits(w: nat, i: nat, k: nat, m: nat)
    requires m <= w && i * Pow2(k) < Pow2(m)
    ensures Shl(w, i, k) == i * Pow2(k)
  {
    Pow2Mono(m, w);
    MulMono(0, i, Pow2(k));
    DivModUnique(i * Pow2(k), Pow2(w), 0, i * Pow2(k));
  }

  lemma QuotientBounds(x: nat, s: nat, n: nat, i: nat)
    requires s > 0
    ensures i == x / s <==> i * s <= x < i * s + s
    ensures x < n * s ==> x / s < n
    ensures x / s <= i <==> x < i * s + s
    ensures i <= x / s <==> i * s <= x
  {
    var q := x / s;
    assert q * s <= x < q * s + s;
    if i < q {
      MulMono(i + 1, q, s);
      MulDistr(i, 1, s);
    } else if q < i {
      MulMono(q + 1, i, s);
      MulDistr(q, 1, s);
    }
    if n <= q {
      MulMono(n, q, s);
    }
  }

  lemma BlockBaseV4Correct(base: nat, c: nat, n: nat, i: nat, w: nat)
    requires w == 32 && c <= n <= w && base % Pow2(w - c) == 0 && i < Pow2(n - c)
    ensures BlockBaseV4(base, n, i) == base + i * Pow2(w - n)
  {
    hide Pow2, Or, Shl;
    Pow2Add(n - c, w - n);
    OffsetBound(i, Pow2(n - c), Pow2(w - n));
    Pow2Mono(n - c, w);
    DivModUnique(i, Pow2(w), 0, i);
    ShlFits(w, i, w - n, w - c);
    OrAligned(base, i * Pow2(w - n), w - c);
  }

  /** A base aligned beyond the low half has nothing there, and its high half is aligned. */
  lemma HighHalf(base: nat, h: nat, k: nat)
    requires h <= k && base % Pow2(k) == 0
    ensures Lo(h, base) == 0 && base == Hi(h, base) * Pow2(h)
    ensures Hi(h, base) % Pow2(k - h) == 0
  {
    AlignedFiner(base, h, k);
    Pow2Add(h, k - h);
    DivModMul(base, Pow2(h), Pow2(k - h));
    var q := base / Pow2(h) % Pow2(k - h);
    if q > 0 {
      MulMono(1, q, Pow2(h));
    }
  }

  lemma MulAligned(r: nat, m: nat)
    requires m > 0
    ensures r * m >= 0 && (r * m) % m == 0
  {
    MulMono(0, r, m);
    DivModUnique(r * m, m, r, 0);
  }

  /** Low half of a base whose alignment lies within it. */
  lemma LowHalf(base: nat, h: nat, k: nat)
    requires k <= h && base % Pow2(k) == 0
    ensures base == Hi(h, base) * Pow2(h) + Lo(h, base)
    ensures Lo(h, base) % Pow2(k) == 0
  {
    Pow2Add(k, h - k);
    LowPart(base, Pow2(k), Pow2(h - k));
    DivModEquation(base, Pow2(h));
  }

  lemma LowPart(x: nat, m: nat, d: nat)
    requires m > 0 && d > 0 && x % m == 0
    ensures m * d > 0 && x % (m * d) % m == 0
  {
    DivModMul(x, m, d);
    MulAligned(x / m % d, m);
  }

  /** The two-halves construction is the full-width formula when the block starts in the left half. */
  lemma HalvesLeft(base: nat, c: nat, n: nat, i: nat, h: nat)
    requires c <= n <= h && base % Pow2(h + h - c) == 0 && i < Pow2(n - c)
    ensures BlockBaseHalves(h, base, c, n, i) == base + i * Pow2(h + h - n)
  {
    hide Pow2, Or, Shl, BitLen;
    var left, p := Hi(h, base), Pow2(h - n);
    HighHalf(base, h, h + h - c);
    Pow2Add(n - c, h - n);
    OffsetBound(i, Pow2(n - c), p);
    ShlFits(h, i, h - n, h - c);
    OrAligned(left, i * p, h - c);
    Pow2Add(h - n, h);
    MulAssoc(i, p, Pow2(h));
    MulDistr(left, i * p, Pow2(h));
  }

  /** Splitting a shifted index at a word boundary. */
  lemma ShiftedIndex(i: nat, b: nat, s: nat, q: nat, r: nat)
    requires q == i / Pow2(b) && r == i % Pow2(b)
    ensures Shl(b + s, i, s) == r * Pow2(s)
    ensures i * Pow2(s) == q * Pow2(b + s) + r * Pow2(s)
    ensures r < Pow2(b) && 0 <= r * Pow2(s) < Pow2(b + s)
  {
    Pow2Add(b, s);
    DivModEquation(i, Pow2(b));
    ScaledSplit(i, Pow2(b), Pow2(s), q, r);
  }

  lemma ScaledSplit(i: nat, m: nat, s: nat, q: nat, r: nat)
    requires i == q * m + r && r < m && s > 0
    ensures i * s == q * (m * s) + r * s && 0 <= r * s < m * s
    ensures (i * s) % (m * s) == r * s
  {
    MulDistr(q * m, r, s);
    MulAssoc(q, m, s);
    OffsetBound(r, m, s);
    DivModUnique(i * s, m * s, q, r * s);
  }

  /** ... and when it starts in the right half or straddles the word boundary: first a cluster prefix
      that ends in the left half, */
  lemma HalvesStraddle(base: nat, c: nat, n: nat, i: nat, h: nat)
    requires c < h < n <= h + h && base % Pow2(h + h - c) == 0 && i < Pow2(n - c)
    ensures BlockBaseHalves(h, base, c, n, i) == base + i * Pow2(h + h - n)
  {
    hide Pow2, Or, Shl, BitLen;
    var left, btl, s := Hi(h, base), n - h, h + h - n;
    var q, r := Shr(i, btl), i % Pow2(btl);
    HighHalf(base, h, h + h - c);
    ShiftedIndex(i, btl, s, q, r);
    BitLenBound(i, btl);
    if i < Pow2(btl) {
      DivModUnique(i, Pow2(btl), 0, i);
    }
    Pow2Add(h - c, btl);
    QuotientBounds(i, Pow2(btl), Pow2(h - c), q);
    OrZero(r * Pow2(s));
    OrAligned(left, q, h - c);
    MulDistr(left, q, Pow2(h));
  }

  /** ... then one that ends in the right half. */
  lemma HalvesRight(base: nat, c: nat, n: nat, i: nat, h: nat)
    requires h <= c <= n <= h + h && h < n
    requires base % Pow2(h + h - c) == 0 && i < Pow2(n - c)
    ensures BlockBaseHalves(h, base, c, n, i) == base + i * Pow2(h + h - n)
  {
    hide Pow2, Or, Shl, BitLen;
    var s := h + h - n;
    LowHalf(base, h, h + h - c);
    Pow2Add(n - c, s);
    OffsetBound(i, Pow2(n - c), Pow2(s));
    ShlFits(h, i, s, h + h - c);
    OrAligned(Lo(h, base), i * Pow2(s), h + h - c);
  }

  /** The word-level block construction is multiplication by the block size, in both families. */
  lemma IndexToCIDRBlockCorrect(g: Geometry, i: nat)
    requires g.Valid() && i < g.Max()
    ensures IndexToCIDRBlock(g, i) == g.Block(i)
  {
    hide Pow2, Or, Shl, BitLen;
    var c := g.cluster;
    if c.family == V4 {
      BlockBaseV4Correct(c.base, c.len, g.nodeMask, i, 32);
    } else if g.nodeMask <= 64 {
      HalvesLeft(c.base, c.len, g.nodeMask, i, 64);
    } else if c.len < 64 {
      HalvesStraddle(c.base, c.len, g.nodeMask, i, 64);
    } else {
      HalvesRight(c.base, c.len, g.nodeMask, i, 64);
    }
  }

  // ----- the blocks partition the cluster

  lemma MultipleStep(x: nat, i: nat, s: nat)
    requires s > 0 && x % s == 0
    ensures x + i * s >= 0 && (x + i * s) % s == 0
  {
    var q := x / s;
    MulMono(0, i, s);
    MulDistr(q, i, s);
    DivModUnique(x + i * s, s, q + i, 0);
  }

  lemma BlockInside(g: Geometry, i: nat)
    requires g.Valid() && i < g.Max()
    ensures g.Block(i).Valid() && g.Block(i).Inside(g.cluster)
  {
    hide Pow2;
    SizeSplit(g);
    OffsetBound(i, g.Max(), g.BlockSize());
    EndBound(g.cluster);
    AlignedEnd(g.cluster, Width(g.cluster.family) - g.nodeMask);
    MultipleStep(g.cluster.base, i, g.BlockSize());
  }

  /** Subtract-and-divide: the number of the block an address falls in. */
  function IndexOf(g: Geometry, a: Addr): nat
    requires g.Valid() && g.cluster.Covers(a)
  {
    DivNonNegative(a.value - g.cluster.base, g.BlockSize());
    (a.value - g.cluster.base) / g.BlockSize()
  }

  /** Every cluster address lies in exactly one block, the one subtract-and-divide names, and
      no block reaches outside the cluster. */
  lemma BlocksPartitionCluster(g: Geometry, a: Addr)
    requires g.Valid()
    ensures g.cluster.Covers(a) <==> exists i: nat :: i < g.Max() && g.Block(i).Covers(a)
    ensures g.cluster.Covers(a) ==>
              IndexOf(g, a) < g.Max() &&
              forall i: nat | i < g.Max() :: g.Block(i).Covers(a) <==> i == IndexOf(g, a)
  {
    hide Pow2;
    SizeSplit(g);
    if g.cluster.Covers(a) {
      var x := a.value - g.cluster.base;
      QuotientBounds(x, g.BlockSize(), g.Max(), IndexOf(g, a));
      forall i: nat | i < g.Max()
        ensures g.Block(i).Covers(a) <==> i == IndexOf(g, a)
      {
        QuotientBounds(x, g.BlockSize(), g.Max(), i);
      }
      assert g.Block(IndexOf(g, a)).Covers(a);
    }
    forall i: nat | i < g.Max() && g.Block(i).Covers(a)
      ensures g.cluster.Covers(a)
    {
      BlockInside(g, i);
    }
  }

  // ----- address to index

  /** XOR-and-shift agrees with subtract-and-divide on every cluster address, unless the set
      is `Wide`, in which case every address is refused. */
  lemma IndexForIPCorrect(g: Geometry, a: Addr)
    requires g.Valid() && g.cluster.Covers(a)
    ensures IndexForIP(g, a) == if g.Wide() then Err(OutOfRange) else Ok(IndexOf(g, a))
  {
    hide Xor;
    var w := Width(a.family);
    XorAligned(g.cluster.base, a.value, w - g.cluster.len);
    BlocksPartitionCluster(g, a);
    var word := if a.family == V4 then 32 else 64;
    if g.Wide() {
      DivModUnique(g.Max(), Pow2(word), 1, 0);
    } else {
      Pow2Mono(g.nodeMask - g.cluster.len, word);
      DivModUnique(g.Max(), Pow2(word), 0, g.Max());
      DivModUnique(IndexOf(g, a), Pow2(word), 0, IndexOf(g, a));
    }
  }

  /** Going from an index to its block's address and back returns the index. */
  lemma IndexRoundTrip(g: Geometry, i: nat)
    requires g.Valid() && !g.Wide() && i < g.Max()
    ensures IndexForIP(g, IndexToCIDRBlock(g, i).First()) == Ok(i)
  {
    IndexToCIDRBlockCorrect(g, i);
    BlockInside(g, i);
    var a := g.Block(i).First();
    IndexForIPCorrect(g, a);
    BlocksPartitionCluster(g, a);
    assert g.Block(i).Covers(a);
  }

  /** Going from a cluster address to its index and back gives a block around the address. */
  lemma AddressRoundTrip(g: Geometry, a: Addr)
    requires g.Valid() && !g.Wide() && g.cluster.Covers(a)
    ensures IndexForIP(g, MaskTo(a, g.nodeMask)).Ok?
    ensures IndexToCIDRBlock(g, IndexForIP(g, MaskTo(a, g.nodeMask)).value).Covers(a)
  {
    MaskKeepsIndex(g, a);
    IndexForIPCorrect(g, MaskTo(a, g.nodeMask));
    BlocksPartitionCluster(g, a);
    IndexToCIDRBlockCorrect(g, IndexOf(g, a));
  }

  // ----- the index range of an arbitrary CIDR

  lemma LastAddrCorrect(p: Prefix)
    requires p.Valid()
    ensures LastAddr(p) == Addr(p.family, p.End() - 1)
  {
    LastAddrWords(p, 64);
  }

  lemma LastAddrWords(p: Prefix, h: nat)
    requires p.Valid() && h == 64
    ensures LastAddr(p) == Addr(p.family, p.End() - 1)
  {
    hide Pow2, Or;
    var host := p.Size() - 1;
    OrAligned(p.base, host, Width(p.family) - p.len);
    if p.family == V6 {
      DivModEquation(p.base, Pow2(h));
      DivModEquation(host, Pow2(h));
      OrSplit(Hi(h, p.base), Lo(h, p.base), Hi(h, host), Lo(h, host), p.base, host, h);
    }
  }

  /** Clearing host bits below the node mask does not change the block an address is in. */
  lemma MaskKeepsIndex(g: Geometry, a: Addr)
    requires g.Valid() && g.cluster.Covers(a)
    ensures g.cluster.Covers(MaskTo(a, g.nodeMask))
    ensures IndexOf(g, MaskTo(a, g.nodeMask)) == IndexOf(g, a)
  {
    BlocksPartitionCluster(g, a);
    var i := IndexOf(g, a);
    BlockInside(g, i);
    assert g.Block(i).Covers(a);
    ContainsIsCovers(g.Block(i), a);
    assert MaskTo(a, g.nodeMask) == g.Block(i).First();
    BlocksPartitionCluster(g, MaskTo(a, g.nodeMask));
    assert g.Block(i).Covers(MaskTo(a, g.nodeMask));
  }

  /** The containment test at the head of the index computation is address disjointness. */
  lemma OutOfClusterIsDisjoint(c: Prefix, p: Prefix)
    requires c.Valid() && p.Valid()
    ensures OutOfCluster(c, p) <==> !c.Overlaps(p)
  {
    if c.family == p.family {
      MaskedStart(c, p);
      MaskedStart(p, c);
    }
  }

  /** `q` masked to the length of `p` lands in `p` exactly when the two meet and `p` is the
      larger, or `q` starts at the base of `p`'s masked image. */
  lemma MaskedStart(p: Prefix, q: Prefix)
    requires p.Valid() && q.Valid() && p.family == q.family
    ensures p.Contains(MaskTo(q.First(), p.len)) <==> p.Covers(q.First())
    ensures p.len <= q.len && p.Overlaps(q) ==> p.Covers(q.First())
  {
    var m := MaskTo(q.First(), p.len);
    MaskAligned(q.base, p.Size());
    assert m.value % p.Size() == 0;
    ContainsIsCovers(p, q.First());
    if p.len <= q.len && p.Overlaps(q) {
      Nested(p, q);
    }
  }

  /** The returned range is exactly the set of blocks that meet the CIDR; an error is returned
      exactly for a missing CIDR, for one disjoint from the cluster, and, on a `Wide` set, for
      every CIDR longer than the cluster prefix. */
  lemma IndicesExact(g: Geometry, cidr: Option<Prefix>)
    requires g.Valid() && (cidr.Some? ==> cidr.value.Valid())
    ensures Indices(g, cidr).Ok? <==>
              cidr.Some? && g.cluster.Overlaps(cidr.value) &&
              !(g.Wide() && g.cluster.len < cidr.value.len)
    ensures Indices(g, cidr).Ok? ==>
              var (begin, end) := Indices(g, cidr).value;
              && 0 <= begin <= end < g.Max()
              && (forall i: nat :: begin <= i <= end <==> i in Cover(g, cidr.value))
  {
    hide Pow2, Xor, Or, IndexForIP, LastAddr, OutOfCluster, MaskTo;
    if cidr.Some? {
      var p := cidr.value;
      OutOfClusterIsDisjoint(g.cluster, p);
      if g.cluster.Overlaps(p) {
        if g.cluster.len < p.len {
          IndicesInside(g, p);
        } else {
          Nested(p, g.cluster);
          forall i: nat | i < g.Max()
            ensures g.Block(i).Overlaps(p)
          {
            BlockInside(g, i);
          }
        }
      }
    }
  }

  lemma IndicesInside(g: Geometry, p: Prefix)
    requires g.Valid() && p.Valid() && g.cluster.Overlaps(p) && g.cluster.len < p.len
    ensures Indices(g, Some(p)).Ok? <==> !g.Wide()
    ensures !g.Wide() ==>
              var (begin, end) := Indices(g, Some(p)).value;
              && 0 <= begin <= end < g.Max()
              && (forall i: nat :: begin <= i <= end <==> i in Cover(g, p))
  {
    hide Pow2, Xor, Or, IndexForIP, LastAddr, OutOfCluster, MaskTo;
    OutOfClusterIsDisjoint(g.cluster, p);
    Nested(g.cluster, p);
    LastAddrCorrect(p);
    var first, last := p.First(), LastAddr(p);
    MaskKeepsIndex(g, first);
    MaskKeepsIndex(g, last);
    IndexForIPCorrect(g, MaskTo(first, g.nodeMask));
    IndexForIPCorrect(g, MaskTo(last, g.nodeMask));
    BlocksPartitionCluster(g, first);
    BlocksPartitionCluster(g, last);
    var b, e := IndexOf(g, first), IndexOf(g, last);
    var x, y, s := first.value - g.cluster.base, last.value - g.cluster.base, g.BlockSize();
    forall i: nat
      ensures b <= i <= e <==> i in Cover(g, p)
    {
      QuotientBounds(x, s, g.Max(), i);
      QuotientBounds(y, s, g.Max(), i);
    }
    QuotientBounds(x, s, g.Max(), b);
    QuotientBounds(y, s, g.Max(), b);
  }

  // ----- covers

  /** A block covers exactly its own index. */
  lemma CoverOfBlock(g: Geometry, i: nat)
    requires g.Valid() && i < g.Max()
    ensures g.Block(i).Valid() && Cover(g, g.Block(i)) == {i}
  {
    BlockInside(g, i);
    var a := g.Block(i).First();
    forall j: nat | j < g.Max()
      ensures g.Block(j).Overlaps(g.Block(i)) <==> j == i
    {
      BlockInside(g, j);
      if g.Block(j).Overlaps(g.Block(i)) {
        OverlapsMeaning(g.Block(j), g.Block(i));
        var x :| g.Block(j).Covers(x) && g.Block(i).Covers(x);
        BlocksPartitionCluster(g, x);
      }
    }
  }

  /** Prefixes that touch the cluster and touch disjoint sets of blocks share no address. */
  lemma DisjointCovers(g: Geometry, p: Prefix, q: Prefix)
    requires g.Valid() && p.Valid() && q.Valid()
    requires g.cluster.Overlaps(p) && g.cluster.Overlaps(q)
    requires Cover(g, p) !! Cover(g, q)
    ensures !p.Overlaps(q)
  {
    if p.Overlaps(q) {
      if p.len <= q.len {
        SharedBlock(g, q, p);
      } else {
        SharedBlock(g, p, q);
      }
      assert false;
    }
  }

  lemma SharedBlock(g: Geometry, inner: Prefix, outer: Prefix)
    requires g.Valid() && inner.Valid() && outer.Valid() && outer.len <= inner.len
    requires g.cluster.Overlaps(inner) && outer.Overlaps(inner)
    ensures exists i :: i in Cover(g, inner) && i in Cover(g, outer)
  {
    Nested(outer, inner);
    OverlapsMeaning(g.cluster, inner);
    var x :| g.cluster.Covers(x) && inner.Covers(x);
    BlocksPartitionCluster(g, x);
    var i := IndexOf(g, x);
    assert g.Block(i).Covers(x);
    assert i in Cover(g, inner) && i in Cover(g, outer);
  }
}
