/** The address classes that discovery tests by shifting and comparing, as the prefixes they are
    (section 2.4 of RFC 4291, RFC 4193, RFC 3927, RFC 1918). */
module AddressClasses {
  import opened Bits
  import opened Prefixes

  /** Unspecified, loopback, multicast, link-local, and for IPv4 the broadcast address. */
  function NotGlobal(f: Family): set<Prefix> {
    if f == V6 then
      {Prefix(V6, 0, 128), Prefix(V6, 1, 128),
       Prefix(V6, 0xff00_0000_0000_0000_0000_0000_0000_0000, 8),
       Prefix(V6, 0xfe80_0000_0000_0000_0000_0000_0000_0000, 10)}
    else
      {Prefix(V4, 0, 32), Prefix(V4, 0xffff_ffff, 32), Prefix(V4, 0x7f00_0000, 8), Prefix(V4, 0xe000_0000, 4),
       Prefix(V4, 0xa9fe_0000, 16)}
  }

  /** Addresses for private use. */
  function PrivateUse(f: Family): set<Prefix> {
    if f == V6 then {Prefix(V6, 0xfc00_0000_0000_0000_0000_0000_0000_0000, 7)}
    else {Prefix(V4, 0x0a00_0000, 8), Prefix(V4, 0xac10_0000, 12), Prefix(V4, 0xc0a8_0000, 16)}
  }

  /** One of the prefixes contains the address. */
  predicate Within(a: Addr, ps: set<Prefix>) {
    exists p :: p in ps && p.Valid() && p.Covers(a)
  }

  /** The powers behind the bases above. */
  lemma Powers()
    ensures Pow2(4) == 0x10 && Pow2(7) == 0x80 && Pow2(8) == 0x100 && Pow2(10) == 0x400 && Pow2(12) == 0x1000
    ensures Pow2(16) == 0x1_0000 && Pow2(20) == 0x10_0000 && Pow2(24) == 0x100_0000 && Pow2(28) == 0x1000_0000
    ensures Pow2(32) == 0x1_0000_0000
    ensures Pow2(118) == 0x40_0000_0000_0000_0000_0000_0000_0000
    ensures Pow2(120) == 0x100_0000_0000_0000_0000_0000_0000_0000
    ensures Pow2(121) == 0x200_0000_0000_0000_0000_0000_0000_0000
    ensures Pow2(128) == 0x1_0000_0000_0000_0000_0000_0000_0000_0000
  {
    hide Pow2;
    SmallOnes();
    Doubled(8, 8, 0x100, 0x100);
    Doubled(4, 16, 0x10, 0x1_0000);
    Doubled(8, 16, 0x100, 0x1_0000);
    Doubled(12, 16, 0x1000, 0x1_0000);
    Doubled(16, 16, 0x1_0000, 0x1_0000);
    Doubled(32, 32, 0x1_0000_0000, 0x1_0000_0000);
    Doubled(64, 64, 0x1_0000_0000_0000_0000, 0x1_0000_0000_0000_0000);
    Pow2Add(10, 118);
    Pow2Add(8, 120);
    Pow2Add(7, 121);
  }

  lemma Doubled(a: nat, b: nat, x: nat, y: nat)
    requires Pow2(a) == x && Pow2(b) == y
    ensures Pow2(a + b) == x * y
  {
    Pow2Add(a, b);
  }

  lemma SmallOnes()
    ensures Pow2(4) == 0x10 && Pow2(7) == 0x80 && Pow2(8) == 0x100 && Pow2(10) == 0x400 && Pow2(12) == 0x1000
  {
    assert Pow2(2) == 4;
    assert Pow2(4) == 16;
    assert Pow2(6) == 64;
    assert Pow2(8) == 256;
    assert Pow2(10) == 1024;
  }

  /** Comparing the bits above the e lowest ones decides membership of the prefix they begin. */
  lemma ShiftIsPrefix(p: Prefix, a: Addr, e: nat, v: nat)
    requires a.family == p.family && p.len <= Width(p.family) && e == Width(p.family) - p.len
    requires p.base == v * Pow2(e) && p.base < Pow2(Width(p.family))
    ensures p.Valid() && (Shr(a.value, e) == v <==> p.Covers(a))
  {
    hide Pow2;
    DivModUnique(p.base, Pow2(e), v, 0);
    if p.Covers(a) {
      DivModUnique(a.value, Pow2(e), v, a.value - p.base);
    } else if Shr(a.value, e) == v {
      DivModEquation(a.value, Pow2(e));
    }
  }

  lemma SingleAddress(p: Prefix, a: Addr)
    requires p.len == Width(p.family) && p.base < Pow2(Width(p.family)) && a.family == p.family
    ensures p.Valid() && (p.Covers(a) <==> a.value == p.base)
  {
    assert p.Size() == 1;
  }

  /** An address is global unicast if and only if no prefix of the table contains it. */
  lemma GlobalUnicastExactly(a: Addr)
    ensures forall p | p in NotGlobal(a.family) :: p.Valid()
    ensures IsGlobalUnicast(a) <==> !Within(a, NotGlobal(a.family))
  {
    hide Pow2, Shr, Prefix.Covers, Prefix.Valid;
    Powers();
    if a.family == V6 {
      var p0, p1, p2, p3 := Prefix(V6, 0, 128), Prefix(V6, 1, 128),
                            Prefix(V6, 0xff00_0000_0000_0000_0000_0000_0000_0000, 8),
                            Prefix(V6, 0xfe80_0000_0000_0000_0000_0000_0000_0000, 10);
      SingleAddress(p0, a);
      SingleAddress(p1, a);
      ShiftIsPrefix(p2, a, 120, 0xff);
      ShiftIsPrefix(p3, a, 118, 0x3fa);
      assert NotGlobal(a.family) == {p0, p1, p2, p3};
      assert p0 in NotGlobal(V6) && p1 in NotGlobal(V6) && p2 in NotGlobal(V6) && p3 in NotGlobal(V6);
    } else {
      var p0, p1, p2 := Prefix(V4, 0, 32), Prefix(V4, 0xffff_ffff, 32), Prefix(V4, 0x7f00_0000, 8);
      var p3, p4 := Prefix(V4, 0xe000_0000, 4), Prefix(V4, 0xa9fe_0000, 16);
      SingleAddress(p0, a);
      SingleAddress(p1, a);
      ShiftIsPrefix(p2, a, 24, 127);
      ShiftIsPrefix(p3, a, 28, 0xe);
      ShiftIsPrefix(p4, a, 16, 0xa9fe);
      assert NotGlobal(a.family) == {p0, p1, p2, p3, p4};
      assert p0 in NotGlobal(V4) && p1 in NotGlobal(V4) && p2 in NotGlobal(V4) && p3 in NotGlobal(V4) && p4 in NotGlobal(V4);
    }
  }

  /** An address is private if and only if a prefix for private use contains it. */
  lemma PrivateExactly(a: Addr)
    ensures forall p | p in PrivateUse(a.family) :: p.Valid()
    ensures IsPrivate(a) <==> Within(a, PrivateUse(a.family))
  {
    hide Pow2, Shr, Prefix.Covers, Prefix.Valid;
    Powers();
    if a.family == V6 {
      var p0 := Prefix(V6, 0xfc00_0000_0000_0000_0000_0000_0000_0000, 7);
      ShiftIsPrefix(p0, a, 121, 0x7e);
      assert PrivateUse(a.family) == {p0} && p0 in PrivateUse(V6);
    } else {
      var p0, p1, p2 := Prefix(V4, 0x0a00_0000, 8), Prefix(V4, 0xac10_0000, 12), Prefix(V4, 0xc0a8_0000, 16);
      ShiftIsPrefix(p0, a, 24, 10);
      ShiftIsPrefix(p1, a, 20, 0xac1);
      ShiftIsPrefix(p2, a, 16, 0xc0a8);
      assert PrivateUse(a.family) == {p0, p1, p2};
      assert p0 in PrivateUse(V4) && p1 in PrivateUse(V4) && p2 in PrivateUse(V4);
    }
  }
}
