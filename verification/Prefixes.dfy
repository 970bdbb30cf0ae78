/** Addresses and prefixes. An address is a number below 2^32 or 2^128; a masked prefix is
    an aligned base and a length (section 3.1 of RFC 4632, section 2.3 of RFC 4291). */
module Prefixes {
  import opened Bits

  datatype Family = V4 | V6

  function Width(f: Family): nat {
    if f == V4 then 32 else 128
  }

  datatype Addr = Addr(family: Family, value: nat) {
    predicate Valid() {
      value < Pow2(Width(family))
    }
  }

  datatype Prefix = Prefix(family: Family, base: nat, len: nat) {
    predicate Valid() {
      len <= Width(family) && base < Pow2(Width(family)) && base % Size() == 0
    }

    /** Number of addresses. */
    function Size(): (n: nat)
      requires len <= Width(family)
      ensures n >= 1
    {
      Pow2(Width(family) - len)
    }

    function End(): nat
      requires len <= Width(family)
    {
      base + Size()
    }

    function First(): Addr {
      Addr(family, base)
    }

    /** Address membership, as the meaning of a prefix. */
    predicate Covers(a: Addr)
      requires len <= Width(family)
    {
      family == a.family && base <= a.value < End()
    }

    /** Membership as the library decides it: mask the address and compare. */
    predicate Contains(a: Addr)
      requires len <= Width(family)
    {
      family == a.family && MaskTo(a, len).value == base
    }

    /** The two address intervals meet. */
    predicate Overlaps(q: Prefix)
      requires len <= Width(family) && q.len <= Width(q.family)
    {
      family == q.family && base < q.End() && q.base < End()
    }

    predicate Inside(q: Prefix)
      requires len <= Width(family) && q.len <= Width(q.family)
    {
      family == q.family && q.base <= base && End() <= q.End()
    }
  }

  /** Clears the host bits of an address. */
  function MaskTo(a: Addr, len: nat): (r: Addr)
    requires len <= Width(a.family)
    ensures r.value <= a.value
  {
    var m := Pow2(Width(a.family) - len);
    ModBound(a.value, m);
    Addr(a.family, a.value - a.value % m)
  }

  /** A prefix with host bits, as an interface reports it. */
  datatype HostPrefix = HostPrefix(family: Family, addr: nat, bits: nat) {
    predicate Valid() {
      bits <= Width(family) && addr < Pow2(Width(family))
    }

    function Masked(): Prefix
      requires bits <= Width(family)
    {
      Prefix(family, MaskTo(Addr(family, addr), bits).value, bits)
    }

    function Host(): Addr {
      Addr(family, addr)
    }
  }

  // ----- classes of addresses

  /** Not unspecified, loopback, multicast, link-local or the IPv4 broadcast address. */
  predicate IsGlobalUnicast(a: Addr) {
    if a.family == V4 then
      && a.value != 0xffff_ffff && a.value != 0
      && Shr(a.value, 24) != 127 && Shr(a.value, 28) != 0xe && Shr(a.value, 16) != 0xa9fe
    else
      a.value != 0 && a.value != 1 && Shr(a.value, 120) != 0xff && Shr(a.value, 118) != 0x3fa
  }

  /** 10/8, 172.16/12, 192.168/16 and fc00::/7. */
  predicate IsPrivate(a: Addr) {
    if a.family == V4 then Shr(a.value, 24) == 10 || Shr(a.value, 20) == 0xac1 || Shr(a.value, 16) == 0xc0a8
    else Shr(a.value, 121) == 0x7e
  }

  /** An IPv6 interface address of the kind discovery accepts. */
  predicate PublicHost(h: HostPrefix) {
    h.Valid() && h.family == V6 && IsGlobalUnicast(h.Host()) && !IsPrivate(h.Host())
  }

  // ----- theory of prefixes

  lemma MaskAligned(x: nat, m: nat)
    requires m > 0
    ensures (x - x % m) % m == 0
  {
    DivModUnique(x - x % m, m, x / m, 0);
  }

  lemma NextMultiple(x: nat, m: nat)
    requires m > 0 && x % m == 0
    ensures (x + m) % m == 0
  {
    var q := x / m;
    MulDistr(q, 1, m);
    DivModUnique(x + m, m, q + 1, 0);
  }

  lemma Pow2Aligned(j: nat, k: nat)
    requires j <= k
    ensures Pow2(k) % Pow2(j) == 0
  {
    Pow2Add(k - j, j);
    DivModUnique(Pow2(k), Pow2(j), Pow2(k - j), 0);
  }

  lemma MultipleGap(x: nat, y: nat, m: nat)
    requires m > 0 && x % m == 0 && y % m == 0 && x < y
    ensures x + m <= y
  {
    var j, k := x / m, y / m;
    assert x == j * m && y == k * m;
    if k <= j {
      MulMono(k, j, m);
    } else {
      MulMono(j + 1, k, m);
      MulDistr(j, 1, m);
    }
  }

  /** Rounding down to a multiple of m gives x exactly on the m numbers from x on. */
  lemma RoundDown(y: nat, x: nat, m: nat)
    requires m > 0 && x % m == 0
    ensures y - y % m == x <==> x <= y < x + m
  {
    ModBound(y, m);
    MaskAligned(y, m);
    var z := y - y % m;
    if z < x {
      MultipleGap(z, x, m);
    } else if x < z {
      MultipleGap(x, z, m);
    }
  }

  /** The masked comparison decides address membership. */
  lemma ContainsIsCovers(p: Prefix, a: Addr)
    requires p.Valid()
    ensures p.Contains(a) <==> p.Covers(a)
  {
    if p.family == a.family {
      RoundDown(a.value, p.base, p.Size());
    }
  }

  /** Overlap means sharing an address. */
  lemma OverlapsMeaning(p: Prefix, q: Prefix)
    requires p.Valid() && q.Valid()
    ensures p.Overlaps(q) <==> exists a :: p.Covers(a) && q.Covers(a)
  {
    if p.Overlaps(q) {
      var a := Addr(p.family, if p.base < q.base then q.base else p.base);
      assert p.Covers(a) && q.Covers(a);
    }
  }

  lemma AlignedEnd(p: Prefix, k: nat)
    requires p.Valid() && k <= Width(p.family) - p.len
    ensures p.base % Pow2(k) == 0 && p.End() % Pow2(k) == 0
  {
    var w := Width(p.family) - p.len;
    AlignedFiner(p.base, k, w);
    NextMultiple(p.base, p.Size());
    AlignedFiner(p.End(), k, w);
  }

  /** A prefix stays inside its address space. */
  lemma EndBound(p: Prefix)
    requires p.Valid()
    ensures p.End() <= Pow2(Width(p.family))
  {
    var w := Width(p.family);
    Pow2Aligned(w - p.len, w);
    MultipleGap(p.base, Pow2(w), p.Size());
  }

  /** Two prefixes are nested or disjoint. */
  lemma Nested(p: Prefix, q: Prefix)
    requires p.Valid() && q.Valid() && p.Overlaps(q) && p.len <= q.len
    ensures q.Inside(p)
  {
    var k := Width(q.family) - q.len;
    AlignedEnd(p, k);
    AlignedEnd(q, k);
    if q.base < p.base {
      MultipleGap(q.base, p.base, q.Size());
    }
    if p.End() < q.End() {
      MultipleGap(p.End(), q.End(), q.Size());
    }
  }

  lemma MaskedValid(h: HostPrefix)
    requires h.Valid()
    ensures h.Masked().Valid() && h.Masked().Covers(h.Host())
  {
    MaskAligned(h.addr, h.Masked().Size());
  }

  lemma ShrOf(a: nat, k: nat, q: nat, r: nat)
    requires a == q * Pow2(k) + r && r < Pow2(k)
    ensures Shr(a, k) == q
  {
    DivModUnique(a, Pow2(k), q, r);
  }

  /** Addresses just above 2000:: are public. */
  lemma PublicAbove(x: nat, bits: nat, e: nat)
    requires e == 118 && x < Pow2(e) && bits <= 128
    ensures PublicHost(HostPrefix(V6, Pow2(e + 7) + x, bits))
  {
    hide Pow2, Shr;
    var a := Pow2(e + 7) + x;
    SmallPowers();
    Pow2Add(7, e);
    Pow2Add(5, e + 2);
    Pow2Add(4, e + 3);
    Pow2Mono(e, e + 2);
    Pow2Mono(e, e + 3);
    Pow2Mono(e, e + 7);
    Pow2Mono(e + 7, e + 9);
    Pow2Mono(e + 9, e + 10);
    ShrOf(a, e, 128, x);
    ShrOf(a, e + 2, 32, x);
    ShrOf(a, e + 3, 16, x);
    assert a < 2 * Pow2(e + 7) <= Pow2(e + 9);
  }

  lemma SmallPowers()
    ensures Pow2(4) == 16 && Pow2(5) == 32 && Pow2(7) == 128
  {
    assert Pow2(2) == 4;
    assert Pow2(4) == 16;
  }

  /** The network of a host just above 2000:: starts at 2000::. */
  lemma MaskedBase(h: HostPrefix, x: nat, b: nat, e: nat)
    requires e == 118 && b <= e && x < Pow2(b) && h == HostPrefix(V6, Pow2(e + 7) + x, 128 - b)
    ensures h.Valid() ==> h.Masked() == Prefix(V6, Pow2(e + 7), 128 - b)
  {
    hide Pow2;
    Pow2Add(e + 7 - b, b);
    DivModUnique(h.addr, Pow2(b), Pow2(e + 7 - b), x);
  }

  lemma FourBelow(b: nat)
    requires 2 <= b
    ensures 4 <= Pow2(b)
  {
    assert Pow2(2) == 4;
    Pow2Mono(2, b);
  }
}
