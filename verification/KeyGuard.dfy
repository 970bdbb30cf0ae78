/** When the cloud allocator's keys stay disjoint. Before it adds sets for a node's prefixes it
    checks that no tracked public IPv6 prefix contains the network address of one of them; the
    keys it then adds are those prefixes, or the /64 around the host address of a shorter one. */
module KeyGuard {
  import opened Common
  import opened Bits
  import opened Prefixes
  import opened Geometry
  import opened SetState
  import opened CloudSpec
  import opened MaskLadder
  import opened Discovery

  /** The key contains the network address of one of the prefixes. */
  ghost predicate Meets(k: Prefix, cidrs: seq<HostPrefix>) {
    k.Valid() && exists i :: 0 <= i < |cidrs| && cidrs[i].Valid() && k.Contains(cidrs[i].Masked().First())
  }

  /** The guard: ... and is a public IPv6 prefix. */
  ghost predicate Serves(k: Prefix, cidrs: seq<HostPrefix>) {
    k.family == V6 && !IsPrivate(k.First()) && Meets(k, cidrs)
  }

  /** A list as discovery returns it: public addresses, none inside a strictly shorter one. */
  ghost predicate Discovered(cidrs: seq<HostPrefix>) {
    && (forall h | h in cidrs :: PublicHost(h))
    && (forall p, q | p in cidrs && q in cidrs :: !Swallows(p, q))
  }

  lemma DiscoveryIsDiscovered(filterIPs: seq<Addr>, ifaces: seq<Iface>, v6s: seq<HostPrefix>)
    requires ValidIfaces(ifaces) && ValidV6(Accepted(filterIPs, ifaces))
    requires Elements(v6s) == Kept(Accepted(filterIPs, ifaces))
    ensures Discovered(v6s)
  {
    hide Pow2, IsGlobalUnicast, IsPrivate, Swallows;
    assert forall h | h in v6s :: h in Elements(v6s);
  }

  // ----- the keys that are added

  ghost predicate ValidCidrs(cidrs: seq<HostPrefix>) {
    forall h | h in cidrs :: h.Valid() && h.family == V6
  }

  /** A set for every prefix but single addresses, up to the first that is refused: the sets, and
      whether none was refused. */
  ghost function AddAll(m: Sets, cidrs: seq<HostPrefix>, maxPods: nat): (r: (Sets, bool))
    requires ValidSets(m) && ValidCidrs(cidrs)
    ensures ValidSets(r.0)
  {
    if cidrs == [] then (m, true)
    else
      var last := |cidrs| - 1;
      var (m1, ok) := AddAll(m, cidrs[..last], maxPods);
      assert cidrs[last] in cidrs;
      if !ok || cidrs[last].bits == 128 then (m1, ok)
      else
        match Ladder(cidrs[last], maxPods)
        case Err(_) => (m1, false)
        case Ok(g) =>
          LadderSizes(cidrs[last], maxPods);
          WithSetExtends(m1, g, g.cluster.First());
          (WithSet(m1, g), true)
  }

  /** The keys of the sets that the prefixes ask for. */
  ghost function NewKeys(cidrs: seq<HostPrefix>): set<Prefix>
    requires ValidCidrs(cidrs)
  {
    set h | h in cidrs && h.bits != 128 :: NewKey(h)
  }

  lemma LadderKey(h: HostPrefix, maxPods: nat)
    requires h.Valid() && h.family == V6 && Ladder(h, maxPods).Ok?
    ensures Ladder(h, maxPods).value.cluster == NewKey(h)
  {
    hide Pow2, MaskTo;
  }

  /** If none is refused, exactly the new keys are added, and the tracked sets stay as they are. */
  lemma {:induction false} AddAllKeys(m: Sets, cidrs: seq<HostPrefix>, maxPods: nat)
    requires ValidSets(m) && ValidCidrs(cidrs)
    ensures var (m', ok) := AddAll(m, cidrs, maxPods);
            && m.Keys <= m'.Keys && (forall k | k in m :: m'[k] == m[k])
            && (ok ==> m'.Keys == m.Keys + NewKeys(cidrs))
  {
    hide WellFormed, Ladder, NewKey, NewKeys;
    if cidrs == [] {
      NoNewKeys();
    } else {
      var last := |cidrs| - 1;
      var h := cidrs[last];
      assert h in cidrs;
      AddAllKeys(m, cidrs[..last], maxPods);
      NewKeysOneMore(cidrs);
      if Ladder(h, maxPods).Ok? {
        LadderKey(h, maxPods);
      }
    }
  }

  lemma NoNewKeys()
    ensures NewKeys([]) == {}
  {
  }

  lemma NewKeysOneMore(cidrs: seq<HostPrefix>)
    requires ValidCidrs(cidrs) && cidrs != []
    ensures var last := |cidrs| - 1;
            && ValidCidrs(cidrs[..last]) && cidrs[last].Valid() && cidrs[last].family == V6
            && NewKeys(cidrs) ==
               NewKeys(cidrs[..last]) + (if cidrs[last].bits != 128 then {NewKey(cidrs[last])} else {})
  {
    hide NewKey;
    var last := |cidrs| - 1;
    assert cidrs[last] in cidrs;
    assert cidrs == cidrs[..last] + [cidrs[last]];
  }

  /** The keys of a discovered list are equal or disjoint. */
  lemma NewKeysApart(cidrs: seq<HostPrefix>, p: HostPrefix, q: HostPrefix)
    requires Discovered(cidrs) && p in cidrs && q in cidrs
    ensures NewKey(p) == NewKey(q) || !NewKey(p).Overlaps(NewKey(q))
  {
    hide Pow2, MaskTo, IsGlobalUnicast, IsPrivate;
    NewKeyInside(p);
    NewKeyInside(q);
    MaskedValid(p);
    MaskedValid(q);
    if NewKey(p).Overlaps(NewKey(q)) {
      assert p.Masked().Overlaps(q.Masked());
      SwallowsInside(p, q);
      SwallowsInside(q, p);
      if p.bits <= q.bits {
        Nested(p.Masked(), q.Masked());
      }
      if q.bits <= p.bits {
        Nested(q.Masked(), p.Masked());
      }
      SameLengthEqual(NewKey(p), NewKey(q));
    }
  }

  lemma SameLengthEqual(p: Prefix, q: Prefix)
    requires p.Valid() && q.Valid() && p.Overlaps(q) && p.len == q.len
    ensures p == q
  {
    Nested(p, q);
    Nested(q, p);
  }

  /** The new key is another one and overlaps. */
  predicate Clashes(k: Prefix, h: HostPrefix)
    requires k.Valid() && h.Valid() && h.family == V6
  {
    k != NewKey(h) && k.Overlaps(NewKey(h))
  }

  ghost predicate SomeClash(m: Sets, cidrs: seq<HostPrefix>)
    requires ValidSets(m) && ValidCidrs(cidrs)
  {
    exists h, k :: h in cidrs && h.bits != 128 && k in m && Clashes(k, h)
  }

  /** Adding the sets for a discovered list keeps the keys disjoint if and only if no tracked key
      clashes with the new one of a prefix before the first refused one. */
  lemma AddedKeysDisjoint(m: Sets, cidrs: seq<HostPrefix>, maxPods: nat)
    requires ValidSets(m) && DisjointKeys(m) && Discovered(cidrs)
    ensures DisjointKeys(AddAll(m, cidrs, maxPods).0) <==> !SomeClash(m, Taken(cidrs, maxPods))
  {
    hide WellFormed, Ladder, NewKey, AddAll, IsGlobalUnicast, IsPrivate, Swallows, Clashes, Taken;
    var taken := Taken(cidrs, maxPods);
    AddAllTaken(m, cidrs, maxPods);
    AddAllKeys(m, taken, maxPods);
    if h, k :| h in taken && h.bits != 128 && k in m && Clashes(k, h) {
      ClashBreaks(m, AddAll(m, taken, maxPods).0, taken, k, h);
    } else {
      NoClashKeeps(m, AddAll(m, taken, maxPods).0, taken);
    }
  }

  lemma ClashBreaks(m: Sets, m': Sets, cidrs: seq<HostPrefix>, k: Prefix, h: HostPrefix)
    requires ValidSets(m) && ValidSets(m') && ValidCidrs(cidrs) && m'.Keys == m.Keys + NewKeys(cidrs)
    requires h in cidrs && h.bits != 128 && k in m && Clashes(k, h)
    ensures !DisjointKeys(m')
  {
    hide WellFormed, NewKey;
    assert NewKey(h) in NewKeys(cidrs);
    assert k in m'.Keys && NewKey(h) in m'.Keys;
  }

  lemma NoClashKeeps(m: Sets, m': Sets, cidrs: seq<HostPrefix>)
    requires ValidSets(m) && ValidSets(m') && DisjointKeys(m) && Discovered(cidrs)
    requires m'.Keys == m.Keys + NewKeys(cidrs) && !SomeClash(m, cidrs)
    ensures DisjointKeys(m')
  {
    hide WellFormed, NewKey, IsGlobalUnicast, IsPrivate, Swallows, DisjointKeys;
    forall k, k' | k in m' && k' in m' && k != k'
      ensures !k.Overlaps(k')
    {
      KeysApart(m, cidrs, k, k');
    }
    PairwiseDisjoint(m');
  }

  lemma PairwiseDisjoint(m: Sets)
    requires ValidSets(m) && forall k, k' | k in m && k' in m && k != k' :: !k.Overlaps(k')
    ensures DisjointKeys(m)
  {
  }

  lemma KeysApart(m: Sets, cidrs: seq<HostPrefix>, k: Prefix, k': Prefix)
    requires ValidSets(m) && DisjointKeys(m) && Discovered(cidrs) && !SomeClash(m, cidrs)
    requires k.Valid() && k'.Valid() && k != k'
    requires k in m || k in NewKeys(cidrs)
    requires k' in m || k' in NewKeys(cidrs)
    ensures !k.Overlaps(k')
  {
    hide WellFormed, NewKey, IsGlobalUnicast, IsPrivate, Swallows;
    if k in m && k' in m {
    } else if k in m {
      var q :| q in cidrs && q.bits != 128 && NewKey(q) == k';
      assert !Clashes(k, q);
    } else {
      var p :| p in cidrs && p.bits != 128 && NewKey(p) == k;
      if k' in m {
        assert !Clashes(k', p);
      } else {
        var q :| q in cidrs && q.bits != 128 && NewKey(q) == k';
        NewKeysApart(cidrs, p, q);
      }
    }
  }

  lemma AddAllNothing(m: Sets, cidrs: seq<HostPrefix>, maxPods: nat)
    requires ValidSets(m)
    ensures ValidCidrs(cidrs[..0]) && AddAll(m, cidrs[..0], maxPods) == (m, true)
  {
  }

  lemma AddAllOneMore(m: Sets, cidrs: seq<HostPrefix>, maxPods: nat, i: nat)
    requires ValidSets(m) && ValidCidrs(cidrs) && i < |cidrs|
    ensures ValidCidrs(cidrs[..i]) && ValidCidrs(cidrs[..i + 1]) && cidrs[i].Valid() && cidrs[i].family == V6
    ensures var (m1, ok) := AddAll(m, cidrs[..i], maxPods);
            ok ==> AddAll(m, cidrs[..i + 1], maxPods) ==
                   if cidrs[i].bits == 128 then (m1, true)
                   else match Ladder(cidrs[i], maxPods)
                        case Err(_) => (m1, false)
                        case Ok(g) => (WithSet(m1, g), true)
  {
    hide WellFormed, Ladder, WithSet;
    assert cidrs[i] in cidrs && cidrs[..i + 1][..i] == cidrs[..i];
  }

  /** Once a prefix is refused, the rest of the list changes nothing. */
  lemma {:induction false} AddAllStops(m: Sets, cidrs: seq<HostPrefix>, maxPods: nat, i: nat)
    requires ValidSets(m) && ValidCidrs(cidrs) && i < |cidrs| && ValidCidrs(cidrs[..i + 1])
    requires !AddAll(m, cidrs[..i + 1], maxPods).1
    ensures AddAll(m, cidrs, maxPods) == AddAll(m, cidrs[..i + 1], maxPods)
    decreases |cidrs|
  {
    hide WellFormed, Ladder, WithSet, ValidSets, MaskTo, Pow2;
    if i + 1 == |cidrs| {
      assert cidrs[..i + 1] == cidrs;
    } else {
      var last := |cidrs| - 1;
      assert cidrs[..last][..i + 1] == cidrs[..i + 1];
      AddAllStops(m, cidrs[..last], maxPods, i);
    }
  }

  predicate Refused(h: HostPrefix, maxPods: nat)
    requires h.Valid() && h.family == V6
  {
    h.bits != 128 && Ladder(h, maxPods).Err?
  }

  /** The number of prefixes before the first refused one. */
  function Unrefused(cidrs: seq<HostPrefix>, maxPods: nat): (n: nat)
    requires ValidCidrs(cidrs)
    ensures n <= |cidrs|
    ensures forall i | 0 <= i < n :: cidrs[i].Valid() && cidrs[i].family == V6 && !Refused(cidrs[i], maxPods)
    ensures n < |cidrs| ==> cidrs[n].Valid() && cidrs[n].family == V6 && Refused(cidrs[n], maxPods)
  {
    if cidrs == [] then 0
    else
      assert cidrs[0] in cidrs;
      if Refused(cidrs[0], maxPods) then 0
      else
        var n := Unrefused(cidrs[1..], maxPods);
        assert forall i | 0 < i <= |cidrs[1..]| :: cidrs[i] == cidrs[1..][i - 1];
        1 + n
  }

  /** The prefixes before the first refused one. */
  function Taken(cidrs: seq<HostPrefix>, maxPods: nat): (taken: seq<HostPrefix>)
    requires ValidCidrs(cidrs)
    ensures ValidCidrs(taken) && forall h | h in taken :: h in cidrs
  {
    cidrs[..Unrefused(cidrs, maxPods)]
  }

  lemma {:induction false} AddAllUnrefused(m: Sets, cidrs: seq<HostPrefix>, maxPods: nat, i: nat)
    requires ValidSets(m) && ValidCidrs(cidrs) && i <= Unrefused(cidrs, maxPods)
    ensures ValidCidrs(cidrs[..i]) && AddAll(m, cidrs[..i], maxPods).1
  {
    hide WellFormed, Ladder, WithSet, AddAll, ValidSets;
    if i == 0 {
      AddAllNothing(m, cidrs, maxPods);
    } else {
      AddAllUnrefused(m, cidrs, maxPods, i - 1);
      AddAllOneMore(m, cidrs, maxPods, i - 1);
      assert !Refused(cidrs[i - 1], maxPods);
    }
  }

  /** Only the prefixes before the first refused one matter; all are added if and only if none is
      refused. */
  lemma AddAllTaken(m: Sets, cidrs: seq<HostPrefix>, maxPods: nat)
    requires ValidSets(m) && ValidCidrs(cidrs)
    ensures var taken := Taken(cidrs, maxPods);
            && AddAll(m, cidrs, maxPods).0 == AddAll(m, taken, maxPods).0
            && AddAll(m, taken, maxPods).1
            && (AddAll(m, cidrs, maxPods).1 <==> taken == cidrs)
  {
    hide WellFormed, Ladder, WithSet, AddAll, ValidSets;
    var n := Unrefused(cidrs, maxPods);
    AddAllUnrefused(m, cidrs, maxPods, n);
    if n < |cidrs| {
      AddAllOneMore(m, cidrs, maxPods, n);
      AddAllStops(m, cidrs, maxPods, n);
    } else {
      assert cidrs[..n] == cidrs;
    }
  }

  /** A key that was not there belongs to a prefix of the list, and its set is unused. */
  lemma {:induction false} AddAllFresh(m: Sets, cidrs: seq<HostPrefix>, maxPods: nat, k: Prefix)
    requires ValidSets(m) && ValidCidrs(cidrs) && k in AddAll(m, cidrs, maxPods).0 && k !in m
    ensures exists h :: h in cidrs && AsksFor(h, maxPods, AddAll(m, cidrs, maxPods).0[k])
  {
    hide WellFormed, Ladder, ValidSets;
    var last := |cidrs| - 1;
    var m1 := AddAll(m, cidrs[..last], maxPods).0;
    assert cidrs[last] in cidrs;
    if k in m1 {
      AddAllFresh(m, cidrs[..last], maxPods, k);
      var h :| h in cidrs[..last] && AsksFor(h, maxPods, m1[k]);
      assert h in cidrs && AsksFor(h, maxPods, AddAll(m, cidrs, maxPods).0[k]);
    } else {
      assert AsksFor(cidrs[last], maxPods, AddAll(m, cidrs, maxPods).0[k]);
    }
  }

  /** The unused set that is built for a prefix. */
  ghost predicate AsksFor(h: HostPrefix, maxPods: nat, t: Tracked) {
    && h.Valid() && h.family == V6 && h.bits != 128 && Ladder(h, maxPods).Ok?
    && t == Tracked(Ladder(h, maxPods).value, State({}, 0))
  }

  // ----- what the guard leaves

  /** fc00::/7 as a prefix. */
  lemma PrivateIsPrefix(a: nat, e: nat)
    requires e == 121
    ensures Prefix(V6, 0x7e * Pow2(e), 7).Valid()
    ensures IsPrivate(Addr(V6, a)) <==> Prefix(V6, 0x7e * Pow2(e), 7).Covers(Addr(V6, a))
  {
    hide Pow2;
    SmallPowers();
    Pow2Add(7, e);
    assert Pow2(e + 7) == 128 * Pow2(e);
    DivModUnique(0x7e * Pow2(e), Pow2(e), 0x7e, 0);
    QuotientBounds(a, Pow2(e), 1, 0x7e);
  }

  /** A private key of length at least 7 holds private addresses only. */
  lemma PrivateKey(k: Prefix, a: Addr)
    requires k.Valid() && k.family == V6 && k.len >= 7 && IsPrivate(k.First()) && k.Covers(a)
    ensures IsPrivate(a)
  {
    hide Pow2, Shr;
    var p := Prefix(V6, 0x7e * Pow2(121), 7);
    PrivateIsPrefix(k.base, 121);
    PrivateIsPrefix(a.value, 121);
    OverlapsMeaning(p, k);
    Nested(p, k);
  }

  /** The ways past the guard: a tracked key inside the new one; a tracked key shorter than /64
      around the host address of a still shorter prefix; a key around fc00::/7, which the guard
      passes over as private. */
  predicate Escapes(k: Prefix, h: HostPrefix)
    requires k.Valid() && h.Valid() && h.family == V6
  {
    && k.family == V6 && k != NewKey(h)
    && (|| (NewKey(h).len < k.len && k.Inside(NewKey(h)))
        || (h.bits < k.len < 64 && k.Covers(h.Host()))
        || (k.len < 7 && IsPrivate(k.First()) && k.Covers(h.Host())))
  }

  /** Past the guard, a tracked key and a new one overlap if and only if the key escapes it in
      one of the three ways. */
  lemma GuardLeavesEscapes(k: Prefix, cidrs: seq<HostPrefix>, h: HostPrefix)
    requires k.Valid() && Discovered(cidrs) && h in cidrs && !Serves(k, cidrs)
    ensures Clashes(k, h) <==> Escapes(k, h)
  {
    hide Pow2, MaskTo, IsGlobalUnicast, IsPrivate, Swallows;
    var n := NewKey(h);
    NewKeyInside(h);
    MaskedValid(h);
    OverlapsMeaning(k, n);
    if k != n && k.Overlaps(n) {
      if n.len < k.len {
        Nested(n, k);
      } else {
        if k.len == n.len {
          SameLengthEqual(k, n);
        }
        Nested(k, n);
        NotServed(k, cidrs, h);
      }
    }
  }

  /** A key around the host address that the guard does not see is private and shorter than /7,
      or longer than the prefix, whose network address it misses. */
  lemma NotServed(k: Prefix, cidrs: seq<HostPrefix>, h: HostPrefix)
    requires k.Valid() && Discovered(cidrs) && h in cidrs && !Serves(k, cidrs) && k.Covers(h.Host())
    ensures h.bits < k.len || (k.len < 7 && IsPrivate(k.First()))
  {
    hide Pow2, MaskTo, IsGlobalUnicast, IsPrivate, Swallows;
    MaskedValid(h);
    if k.len <= h.bits {
      OverlapsMeaning(k, h.Masked());
      Nested(k, h.Masked());
      ContainsIsCovers(k, h.Masked().First());
      var i :| 0 <= i < |cidrs| && cidrs[i] == h;
      assert Meets(k, cidrs);
      if k.len >= 7 {
        PrivateKey(k, h.Host());
      }
    }
  }

  ghost predicate SomeEscape(m: Sets, cidrs: seq<HostPrefix>)
    requires ValidSets(m) && ValidCidrs(cidrs)
  {
    exists h, k :: h in cidrs && h.bits != 128 && k in m && Escapes(k, h)
  }

  /** When the guard lets a discovered list through, the keys stay disjoint if and only if no
      tracked key escapes it for a prefix before the first refused one. */
  lemma GuardedKeysDisjoint(m: Sets, cidrs: seq<HostPrefix>, maxPods: nat)
    requires ValidSets(m) && DisjointKeys(m) && Discovered(cidrs)
    requires forall k | k in m :: !Serves(k, cidrs)
    ensures DisjointKeys(AddAll(m, cidrs, maxPods).0) <==> !SomeEscape(m, Taken(cidrs, maxPods))
  {
    hide WellFormed, Ladder, NewKey, AddAll, IsGlobalUnicast, IsPrivate, Swallows, Serves, Escapes, Clashes, Taken;
    AddedKeysDisjoint(m, cidrs, maxPods);
    forall h, k | h in cidrs && k in m
      ensures Clashes(k, h) <==> Escapes(k, h)
    {
      GuardLeavesEscapes(k, cidrs, h);
    }
  }

  /** Alone in the map, the key does not serve the prefix, and adding the prefix leaves keys that
      are no longer disjoint. */
  ghost predicate BreaksKeys(k: Prefix, h: HostPrefix, maxPods: nat)
    requires k.Valid() && h.Valid() && h.family == V6
  {
    var m := OneSet(Geometry(k, k.len), 0);
    && ValidSets(m) && DisjointKeys(m) && !Serves(k, [h])
    && ValidCidrs([h]) && !DisjointKeys(AddAll(m, [h], maxPods).0)
  }

  lemma EscapeBreaks(k: Prefix, h: HostPrefix, maxPods: nat)
    requires k.Valid() && PublicHost(h) && h.bits <= 117 && !Serves(k, [h]) && Escapes(k, h)
    ensures BreaksKeys(k, h, maxPods)
  {
    hide Pow2, MaskTo, IsGlobalUnicast, IsPrivate, AddAll, Serves, Escapes;
    var m := OneSet(Geometry(k, k.len), 0);
    assert h in [h] && k in m;
    assert Unrefused([h], maxPods) == 1;
    assert Taken([h], maxPods) == [h];
    GuardedKeysDisjoint(m, [h], maxPods);
  }

  // ----- one public example of each way

  /** 2000::1/64 is discovered while 2000::1:0:0:0/80, which lies inside, is tracked. */
  lemma InnerKeyEscapes(k: Prefix, h: HostPrefix, maxPods: nat, e: nat, a: nat)
    requires e == 118 && a == 48
    requires k == Prefix(V6, Pow2(e + 7) + Pow2(a), 80) && h == HostPrefix(V6, Pow2(e + 7) + 1, 64)
    ensures k.Valid() && PublicHost(h) && Escapes(k, h) && BreaksKeys(k, h, maxPods)
  {
    hide Pow2, MaskTo, IsGlobalUnicast, IsPrivate, BreaksKeys;
    Pow2Mono(0, a);
    PowersApart(a, a + 16, e);
    PublicAbove(1, 64, e);
    PublicAbove(Pow2(a), 64, e);
    MaskedBase(h, 1, a + 16, e);
    AlignedAbove(k, Pow2(a), a, e);
    NewKeyInside(h);
    ContainsIsCovers(k, h.Masked().First());
    OverlapsMeaning(NewKey(h), k);
    Nested(NewKey(h), k);
    EscapeBreaks(k, h, maxPods);
  }

  lemma PowersApart(a: nat, b: nat, e: nat)
    requires a < b < e
    ensures 1 <= Pow2(a) && 2 * Pow2(a) <= Pow2(b) && 2 * Pow2(b) <= Pow2(e)
  {
    Pow2Mono(a, b);
    Pow2Mono(b, e);
  }

  lemma AlignedAbove(k: Prefix, x: nat, a: nat, e: nat)
    requires e == 118 && a <= e && x == Pow2(a) && x < Pow2(e) && k == Prefix(V6, Pow2(e + 7) + x, 128 - a)
    ensures k.Valid()
  {
    hide Pow2;
    Pow2Add(e + 7 - a, a);
    MulDistr(Pow2(e + 7 - a), 1, Pow2(a));
    DivModUnique(k.base, Pow2(a), Pow2(e + 7 - a) + 1, 0);
    Pow2Mono(e, e + 7);
    Pow2Mono(e + 7, e + 10);
  }

  /** 2000:0:0:100::/48 is discovered while 2000:0:0:100::/56 is tracked: the /64 that is added
      lies inside the tracked prefix. */
  lemma OuterKeyEscapes(k: Prefix, h: HostPrefix, maxPods: nat, e: nat, a: nat)
    requires e == 118 && a == 72
    requires k == Prefix(V6, Pow2(e + 7) + Pow2(a), 56) && h == HostPrefix(V6, Pow2(e + 7) + Pow2(a), 48)
    ensures k.Valid() && PublicHost(h) && Escapes(k, h) && NewKey(h).Inside(k) && BreaksKeys(k, h, maxPods)
  {
    hide Pow2, MaskTo, IsGlobalUnicast, IsPrivate, BreaksKeys;
    PowersApart(a, a + 8, e);
    PublicAbove(Pow2(a), 48, e);
    MaskedBase(h, Pow2(a), a + 8, e);
    AlignedAbove(k, Pow2(a), a, e);
    NewKeyInside(h);
    ContainsIsCovers(k, h.Masked().First());
    OverlapsMeaning(k, NewKey(h));
    Nested(k, NewKey(h));
    EscapeBreaks(k, h, maxPods);
  }

  /** fec0::/64 is discovered while fc00::/6 is tracked, which counts as private. */
  lemma PrivateKeyEscapes(k: Prefix, h: HostPrefix, maxPods: nat, e: nat)
    requires e == 118
    requires k == Prefix(V6, 0x3f0 * Pow2(e), 6) && h == HostPrefix(V6, 0x3fb * Pow2(e), 64)
    ensures k.Valid() && PublicHost(h) && Escapes(k, h) && BreaksKeys(k, h, maxPods)
  {
    hide Pow2, MaskTo, Shr, BreaksKeys;
    SmallPowers();
    Pow2Mono(0, e);
    FourBits(e);
    Pow2Add(7, e + 3);
    DivModUnique(k.base, Pow2(e + 4), 0x3f, 0);
    ShrOf(k.base, e + 3, 0x7e, 0);
    ShrOf(h.addr, e, 0x3fb, 0);
    ShrOf(h.addr, e + 2, 0xfe, 3 * Pow2(e));
    ShrOf(h.addr, e + 3, 0x7f, 3 * Pow2(e));
    EscapeBreaks(k, h, maxPods);
  }

  lemma FourBits(e: nat)
    ensures Pow2(e + 2) == 4 * Pow2(e) && Pow2(e + 3) == 8 * Pow2(e) && Pow2(e + 4) == 16 * Pow2(e)
  {
    assert Pow2(e + 1) == 2 * Pow2(e);
    assert Pow2(e + 3) == 2 * Pow2(e + 2);
  }
}
