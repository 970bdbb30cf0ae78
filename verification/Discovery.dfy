/** Which of a node's interface prefixes the allocator works with: the public ones, sorted by
    length and address, without those inside a shorter one. */
module Discovery {
  import opened Bits
  import opened Prefixes
  import opened AddressClasses

  /** An interface address as reported; `bits` is -1 or out of range for an invalid one. */
  datatype IfacePrefix = IfacePrefix(family: Family, addr: nat, bits: int) {
    predicate IsValid() {
      0 <= bits <= Width(family)
    }
  }

  datatype Iface = Iface(linkName: string, address: IfacePrefix)

  predicate SkippedLink(name: string) {
    || name == "kubespan"
    || name == "siderolink"
    || name == "lo"
    || "cilium" <= name
    || "dummy" <= name
  }

  predicate Eligible(filterIPs: seq<Addr>, iface: Iface) {
    var ip := Addr(iface.address.family, iface.address.addr);
    && !SkippedLink(iface.linkName)
    && IsGlobalUnicast(ip) && !IsPrivate(ip)
    && (|filterIPs| == 0 || ip in filterIPs)
  }

  predicate AcceptedV6(filterIPs: seq<Addr>, iface: Iface) {
    Eligible(filterIPs, iface) && iface.address.family == V6 && iface.address.IsValid()
  }

  function AsPrefix(p: IfacePrefix): HostPrefix
    requires p.IsValid()
  {
    HostPrefix(p.family, p.addr, p.bits)
  }

  predicate ValidIfaces(ifaces: seq<Iface>) {
    forall i | i in ifaces :: i.address.addr < Pow2(Width(i.address.family))
  }

  /** The accepted IPv6 prefixes: a set, so neither order nor repetition of interfaces matters. */
  function Accepted(filterIPs: seq<Addr>, ifaces: seq<Iface>): set<HostPrefix> {
    set i | i in ifaces && AcceptedV6(filterIPs, i) :: AsPrefix(i.address)
  }

  /** The IPv4 prefixes, in the order of the interfaces. */
  function V4Prefixes(filterIPs: seq<Addr>, ifaces: seq<Iface>): seq<IfacePrefix> {
    if ifaces == [] then []
    else
      var last := ifaces[|ifaces| - 1];
      V4Prefixes(filterIPs, ifaces[..|ifaces| - 1]) +
      (if Eligible(filterIPs, last) && last.address.family == V4 then [last.address] else [])
  }

  predicate ValidV6(s: set<HostPrefix>) {
    forall p | p in s :: p.Valid() && p.family == V6
  }

  /** q is strictly shorter than p and contains its host address. */
  predicate Swallows(q: HostPrefix, p: HostPrefix)
    requires q.Valid()
  {
    q.bits < p.bits && q.Masked().Contains(p.Host())
  }

  function Kept(s: set<HostPrefix>): set<HostPrefix>
    requires ValidV6(s)
  {
    set p | p in s && forall q | q in s :: !Swallows(q, p)
  }

  /** Shorter first, then by address. */
  predicate Before(p: HostPrefix, q: HostPrefix) {
    p.bits < q.bits || (p.bits == q.bits && p.addr < q.addr)
  }

  predicate Sorted(s: seq<HostPrefix>) {
    forall i, j | 0 <= i < j < |s| :: Before(s[i], s[j])
  }

  ghost function Elements(s: seq<HostPrefix>): set<HostPrefix> {
    set p | p in s
  }

  predicate Distinct(s: seq<HostPrefix>) {
    forall i, j | 0 <= i < j < |s| :: s[i] != s[j]
  }

  // ----- the operation

  /** Stands for the library sort with the comparison by length and address. */
  method SortPrefixes(s: seq<HostPrefix>) returns (r: seq<HostPrefix>)
    requires ValidV6(Elements(s)) && Distinct(s)
    ensures Sorted(r) && Elements(r) == Elements(s)
  {
    r := [];
    for n := 0 to |s|
      invariant Sorted(r) && Elements(r) == Elements(s[..n])
    {
      assert s[n] in Elements(s) && Elements(s[..n]) <= Elements(s);
      assert s[n] !in Elements(s[..n]);
      assert forall q | q in r :: q in Elements(r);
      assert Elements(s[..n + 1]) == Elements(s[..n]) + {s[n]};
      var k := 0;
      while k < |r| && Before(r[k], s[n])
        invariant 0 <= k <= |r|
        invariant forall i | 0 <= i < k :: Before(r[i], s[n])
      {
        k := k + 1;
      }
      InsertSorted(r, k, s[n]);
      r := r[..k] + [s[n]] + r[k..];
    }
    assert s[..|s|] == s;
  }

  lemma InsertSorted(r: seq<HostPrefix>, k: nat, p: HostPrefix)
    requires Sorted(r) && k <= |r| && p !in r && p.family == V6 && (forall q | q in r :: q.family == V6)
    requires forall i | 0 <= i < k :: Before(r[i], p)
    requires k < |r| ==> !Before(r[k], p)
    ensures Sorted(r[..k] + [p] + r[k..])
    ensures Elements(r[..k] + [p] + r[k..]) == Elements(r) + {p}
  {
    forall i | k <= i < |r|
      ensures Before(p, r[i])
    {
      assert r[k] in r && r[i] in r;
      assert Before(p, r[k]);
    }
    assert r == r[..k] + r[k..];
  }

  lemma AcceptedOneMore(filterIPs: seq<Addr>, ifaces: seq<Iface>, n: nat)
    requires n < |ifaces|
    ensures Accepted(filterIPs, ifaces[..n + 1]) ==
            Accepted(filterIPs, ifaces[..n]) +
            (if AcceptedV6(filterIPs, ifaces[n]) then {AsPrefix(ifaces[n].address)} else {})
    ensures V4Prefixes(filterIPs, ifaces[..n + 1]) ==
            V4Prefixes(filterIPs, ifaces[..n]) +
            (if Eligible(filterIPs, ifaces[n]) && ifaces[n].address.family == V4 then [ifaces[n].address] else [])
  {
    hide Eligible;
    assert ifaces[..n + 1] == ifaces[..n] + [ifaces[n]];
    assert ifaces[..n + 1][..n] == ifaces[..n];
  }

  lemma ElementsOneMore(s: seq<HostPrefix>, p: HostPrefix)
    ensures Elements(s + [p]) == Elements(s) + {p}
    ensures p in s <==> p in Elements(s)
    ensures Distinct(s) && p !in s ==> Distinct(s + [p])
  {
  }

  lemma AcceptedPublic(filterIPs: seq<Addr>, ifaces: seq<Iface>)
    requires ValidIfaces(ifaces)
    ensures ValidV6(Accepted(filterIPs, ifaces))
  {
    hide Eligible, Pow2;
  }

  /** The accepted prefixes that no strictly shorter one contains, sorted: the discovery result. */
  ghost function Listed(filterIPs: seq<Addr>, ifaces: seq<Iface>): (v: seq<HostPrefix>)
    requires ValidIfaces(ifaces)
    ensures ValidV6(Accepted(filterIPs, ifaces))
    ensures Sorted(v) && Elements(v) == Kept(Accepted(filterIPs, ifaces))
  {
    AcceptedPublic(filterIPs, ifaces);
    var s := Kept(Accepted(filterIPs, ifaces));
    SortedListExists(s);
    var v :| Sorted(v) && Elements(v) == s;
    v
  }

  lemma {:induction false} SortedListExists(s: set<HostPrefix>)
    requires ValidV6(s)
    ensures exists v :: Sorted(v) && Elements(v) == s
    decreases |s|
  {
    hide HostPrefix.Valid, Before, Elements;
    if s == {} {
      EmptyElements([]);
      assert Sorted([]) && Elements([]) == {};
    } else {
      var p :| p in s;
      SortedListExists(s - {p});
      var v :| Sorted(v) && Elements(v) == s - {p};
      var w := SortedInsert(v, p, s - {p});
      assert Elements(w) == s;
    }
  }

  lemma SortedInsert(v: seq<HostPrefix>, p: HostPrefix, s: set<HostPrefix>) returns (w: seq<HostPrefix>)
    requires Sorted(v) && Elements(v) == s && ValidV6(s) && p !in s && p.family == V6
    ensures Sorted(w) && Elements(w) == s + {p}
  {
    hide HostPrefix.Valid, Before, Sorted;
    var k := InsertionPoint(v, p);
    assert forall q | q in v :: q in Elements(v);
    InsertSorted(v, k, p);
    w := v[..k] + [p] + v[k..];
  }

  lemma {:induction false} InsertionPoint(v: seq<HostPrefix>, p: HostPrefix) returns (k: nat)
    ensures k <= |v| && (forall i | 0 <= i < k :: Before(v[i], p)) && (k < |v| ==> !Before(v[k], p))
  {
    k := 0;
    while k < |v| && Before(v[k], p)
      invariant k <= |v| && forall i | 0 <= i < k :: Before(v[i], p)
    {
      k := k + 1;
    }
  }

  /** The public prefixes of a node. The IPv6 list is sorted and holds exactly the accepted
      prefixes that no strictly shorter accepted one contains. */
  method NodeCIDRDiscovery(filterIPs: seq<Addr>, ifaces: seq<Iface>)
    returns (v4s: seq<IfacePrefix>, v6s: seq<HostPrefix>)
    requires ValidIfaces(ifaces)
    ensures v4s == V4Prefixes(filterIPs, ifaces)
    ensures ValidV6(Accepted(filterIPs, ifaces))
    ensures Sorted(v6s) && Elements(v6s) == Kept(Accepted(filterIPs, ifaces))
    ensures v6s == Listed(filterIPs, ifaces)
    ensures forall i, j | 0 <= i < j < |v6s| ::
              v6s[i].bits < v6s[j].bits || (v6s[i].bits == v6s[j].bits && v6s[i].addr < v6s[j].addr)
  {
    hide SkippedLink, IsGlobalUnicast, IsPrivate, Accepted, V4Prefixes, Elements, Distinct, ValidV6, Kept, Pow2;
    v4s := [];
    var found: seq<HostPrefix> := [];
    NothingAccepted(filterIPs, ifaces);
    for n := 0 to |ifaces|
      invariant v4s == V4Prefixes(filterIPs, ifaces[..n])
      invariant Distinct(found) && Elements(found) == Accepted(filterIPs, ifaces[..n])
    {
      var iface := ifaces[n];
      AcceptedOneMore(filterIPs, ifaces, n);
      if SkippedLink(iface.linkName) {
        continue;
      }
      var ip := Addr(iface.address.family, iface.address.addr);
      if IsGlobalUnicast(ip) && !IsPrivate(ip) {
        if |filterIPs| == 0 || ip in filterIPs {
          if ip.family == V6 {
            if !iface.address.IsValid() {
              continue;
            }
            var prefix := AsPrefix(iface.address);
            ElementsOneMore(found, prefix);
            if prefix !in found {
              found := found + [prefix];
            }
          } else {
            v4s := v4s + [iface.address];
          }
        }
      }
    }
    assert ifaces[..|ifaces|] == ifaces;
    AcceptedPublic(filterIPs, ifaces);
    var prefixes := SortPrefixes(found);
    v6s := DropContained(prefixes);
    SortedListsAgree(v6s, Listed(filterIPs, ifaces));
  }

  lemma NothingAccepted(filterIPs: seq<Addr>, ifaces: seq<Iface>)
    ensures Accepted(filterIPs, ifaces[..0]) == Elements([]) && V4Prefixes(filterIPs, ifaces[..0]) == []
    ensures Distinct([])
  {
  }

  /** Drops every prefix inside a strictly shorter one of the list. */
  method DropContained(prefixes: seq<HostPrefix>) returns (kept: seq<HostPrefix>)
    requires Sorted(prefixes) && ValidV6(Elements(prefixes))
    ensures Sorted(kept) && Elements(kept) == Kept(Elements(prefixes))
  {
    hide Swallows;
    kept := [];
    for i := 0 to |prefixes|
      invariant Sorted(kept) && (forall q | q in kept :: q in prefixes[..i])
      invariant forall p | p in prefixes[..i] :: p in kept <==> p in Kept(Elements(prefixes))
    {
      var p := prefixes[i];
      assert forall l | 0 <= l < |prefixes| :: prefixes[l] in Elements(prefixes);
      var contained := false;
      for j := 0 to |prefixes|
        invariant !contained && forall l | 0 <= l < j && l != i :: !Swallows(prefixes[l], p)
      {
        if i == j {
          continue;
        }
        if Swallows(prefixes[j], p) {
          contained := true;
          break;
        }
      }
      KeptTest(prefixes, i, contained);
      SortedPrefixFresh(prefixes, i);
      if !contained {
        kept := kept + [p];
      }
    }
    assert prefixes[..|prefixes|] == prefixes;
  }

  lemma KeptTest(prefixes: seq<HostPrefix>, i: nat, contained: bool)
    requires ValidV6(Elements(prefixes)) && i < |prefixes|
    requires forall l | 0 <= l < |prefixes| :: prefixes[l] in Elements(prefixes)
    requires !contained ==> forall l | 0 <= l < |prefixes| && l != i :: !Swallows(prefixes[l], prefixes[i])
    requires contained ==> exists q :: q in Elements(prefixes) && Swallows(q, prefixes[i])
    ensures contained <==> prefixes[i] !in Kept(Elements(prefixes))
  {
  }

  /** Everything before position i in a sorted list comes before it and differs from it. */
  lemma SortedPrefixFresh(prefixes: seq<HostPrefix>, i: nat)
    requires Sorted(prefixes) && i < |prefixes|
    ensures forall q | q in prefixes[..i] :: Before(q, prefixes[i]) && q != prefixes[i]
    ensures forall q | q in prefixes[..i + 1] :: q in prefixes[..i] || q == prefixes[i]
  {
  }

  // ----- what the result means

  /** The interface carries the prefix on a link that counts, with a public address that passes the
      filter. */
  ghost predicate Counts(filterIPs: seq<Addr>, i: Iface, h: HostPrefix) {
    && i.address == IfacePrefix(V6, h.addr, h.bits) && h.family == V6 && h.bits <= 128
    && i.linkName !in {"lo", "kubespan", "siderolink"} && !("cilium" <= i.linkName) && !("dummy" <= i.linkName)
    && !Within(h.Host(), NotGlobal(V6)) && !Within(h.Host(), PrivateUse(V6))
    && (filterIPs == [] || h.Host() in filterIPs)
  }

  /** A prefix is accepted if and only if some interface carries it on a link other than the loopback,
      the overlays and those named after cilium or dummy, and its address is in none of the special
      prefixes and passes the filter. */
  lemma AcceptedExactly(filterIPs: seq<Addr>, ifaces: seq<Iface>, h: HostPrefix)
    ensures h in Accepted(filterIPs, ifaces) <==> exists i :: i in ifaces && Counts(filterIPs, i, h)
  {
    hide IsGlobalUnicast, IsPrivate, Within, NotGlobal, PrivateUse;
    GlobalUnicastExactly(h.Host());
    PrivateExactly(h.Host());
    if h in Accepted(filterIPs, ifaces) {
      var i :| i in ifaces && AcceptedV6(filterIPs, i) && AsPrefix(i.address) == h;
      assert Counts(filterIPs, i, h);
    }
    if i :| i in ifaces && Counts(filterIPs, i, h) {
      assert AcceptedV6(filterIPs, i) && AsPrefix(i.address) == h;
    }
  }

  /** No address of the result is unspecified, loopback, multicast, link-local or private. */
  lemma ListedArePublic(filterIPs: seq<Addr>, ifaces: seq<Iface>, h: HostPrefix)
    requires ValidIfaces(ifaces) && h in Listed(filterIPs, ifaces)
    ensures h.family == V6 && !Within(h.Host(), NotGlobal(V6)) && !Within(h.Host(), PrivateUse(V6))
  {
    hide Accepted, Within, NotGlobal, PrivateUse;
    assert h in Elements(Listed(filterIPs, ifaces));
    AcceptedExactly(filterIPs, ifaces, h);
  }

  /** Interfaces on the links that are passed over change nothing. */
  lemma PassedOverLinks(filterIPs: seq<Addr>, ifaces: seq<Iface>, more: seq<Iface>)
    requires ValidIfaces(ifaces) && ValidIfaces(ifaces + more)
    requires forall i | i in more ::
               || i.linkName in {"lo", "kubespan", "siderolink"} || "cilium" <= i.linkName || "dummy" <= i.linkName
    ensures Listed(filterIPs, ifaces + more) == Listed(filterIPs, ifaces)
  {
    hide Accepted, Within, NotGlobal, PrivateUse, Kept;
    forall h
      ensures h in Accepted(filterIPs, ifaces + more) <==> h in Accepted(filterIPs, ifaces)
    {
      AcceptedExactly(filterIPs, ifaces + more, h);
      AcceptedExactly(filterIPs, ifaces, h);
    }
    assert Accepted(filterIPs, ifaces + more) == Accepted(filterIPs, ifaces);
    SortedListsAgree(Listed(filterIPs, ifaces + more), Listed(filterIPs, ifaces));
  }

  /** The result is determined by the set of accepted prefixes: two sorted lists of the same
      prefixes are the same list. */
  lemma {:induction false} SortedListsAgree(v: seq<HostPrefix>, w: seq<HostPrefix>)
    requires Sorted(v) && Sorted(w) && Elements(v) == Elements(w)
    ensures v == w
  {
    EmptyElements(v);
    EmptyElements(w);
    if v != [] {
      FirstIsLeast(v, w);
      FirstIsLeast(w, v);
      assert v[0] == w[0];
      TailElements(v);
      TailElements(w);
      SortedListsAgree(v[1..], w[1..]);
      assert v == [v[0]] + v[1..] && w == [w[0]] + w[1..];
    }
  }

  lemma EmptyElements(v: seq<HostPrefix>)
    ensures v == [] <==> Elements(v) == {}
  {
    if v != [] {
      assert v[0] in Elements(v);
    }
  }

  lemma FirstIsLeast(v: seq<HostPrefix>, w: seq<HostPrefix>)
    requires Sorted(v) && v != [] && w != [] && Elements(v) == Elements(w)
    ensures v[0] == w[0] || Before(v[0], w[0])
  {
    assert w[0] in Elements(w);
    var i :| 0 <= i < |v| && v[i] == w[0];
  }

  lemma TailElements(v: seq<HostPrefix>)
    requires Sorted(v) && v != []
    ensures Sorted(v[1..]) && Elements(v[1..]) == Elements(v) - {v[0]}
  {
    assert v == [v[0]] + v[1..];
    assert forall p | p in v[1..] :: Before(v[0], p);
  }

  /** Reordering or repeating interfaces changes nothing. */
  lemma OrderAndRepetitionIrrelevant(filterIPs: seq<Addr>, ifaces: seq<Iface>, ifaces': seq<Iface>,
                                     v: seq<HostPrefix>, w: seq<HostPrefix>)
    requires ValidIfaces(ifaces) && ValidIfaces(ifaces') && forall i :: i in ifaces <==> i in ifaces'
    requires ValidV6(Accepted(filterIPs, ifaces)) && ValidV6(Accepted(filterIPs, ifaces'))
    requires Sorted(v) && Elements(v) == Kept(Accepted(filterIPs, ifaces))
    requires Sorted(w) && Elements(w) == Kept(Accepted(filterIPs, ifaces'))
    ensures v == w
  {
    hide Eligible;
    assert Accepted(filterIPs, ifaces) == Accepted(filterIPs, ifaces');
    SortedListsAgree(v, w);
  }

  /** Swallowing is containment of the whole prefix. */
  lemma SwallowsInside(q: HostPrefix, p: HostPrefix)
    requires q.Valid() && p.Valid()
    ensures Swallows(q, p) <==> q.bits < p.bits && p.Masked().Inside(q.Masked())
  {
    hide Pow2, MaskTo;
    MaskedValid(p);
    MaskedValid(q);
    ContainsIsCovers(q.Masked(), p.Host());
    if Swallows(q, p) {
      OverlapsMeaning(q.Masked(), p.Masked());
      Nested(q.Masked(), p.Masked());
    }
  }

  /** Every accepted prefix lies inside a kept one: through a chain of ever shorter prefixes. */
  lemma {:induction false} InsideKept(s: set<HostPrefix>, p: HostPrefix) returns (q: HostPrefix)
    requires ValidV6(s) && p in s
    ensures q in Kept(s) && p.Masked().Inside(q.Masked())
    decreases p.bits
  {
    if p in Kept(s) {
      q := p;
    } else {
      var r :| r in s && Swallows(r, p);
      SwallowsInside(r, p);
      q := InsideKept(s, r);
    }
  }

  /** The kept prefixes cover exactly the addresses that the accepted ones cover. */
  lemma KeptCoversSame(s: set<HostPrefix>, a: Addr)
    requires ValidV6(s)
    ensures (exists p :: p in s && p.Masked().Covers(a)) <==> (exists p :: p in Kept(s) && p.Masked().Covers(a))
  {
    if p :| p in s && p.Masked().Covers(a) {
      var q := InsideKept(s, p);
      assert q in Kept(s) && q.Masked().Covers(a);
    }
  }

  /** No kept prefix lies inside a strictly shorter kept one. */
  lemma KeptNotNested(s: set<HostPrefix>, p: HostPrefix, q: HostPrefix)
    requires ValidV6(s) && p in Kept(s) && q in Kept(s) && q.bits < p.bits
    ensures !p.Masked().Inside(q.Masked())
  {
    SwallowsInside(q, p);
  }

  ghost predicate KeptDisjoint(s: set<HostPrefix>)
    requires ValidV6(s)
  {
    forall p, q | p in Kept(s) && q in Kept(s) && p != q :: !p.Masked().Overlaps(q.Masked())
  }

  /** Two interfaces on the same network, in no larger accepted one. */
  ghost predicate SharesNetwork(s: set<HostPrefix>, p: HostPrefix, q: HostPrefix)
    requires ValidV6(s)
  {
    && p in s && q in s && p != q && p.bits == q.bits && p.Masked() == q.Masked()
    && forall r | r in s :: !Swallows(r, p)
  }

  /** The kept prefixes are pairwise disjoint if and only if no two accepted addresses share a
      network that no larger accepted one contains. */
  lemma KeptDisjointExactly(s: set<HostPrefix>)
    requires ValidV6(s)
    ensures KeptDisjoint(s) <==> !exists p, q :: SharesNetwork(s, p, q)
  {
    hide Pow2, MaskTo;
    if p, q :| SharesNetwork(s, p, q) {
      SameNetworkKept(s, p, q);
    } else {
      forall p, q | p in Kept(s) && q in Kept(s) && p != q
        ensures !p.Masked().Overlaps(q.Masked())
      {
        KeptApart(s, p, q);
      }
    }
  }

  lemma SameNetworkKept(s: set<HostPrefix>, p: HostPrefix, q: HostPrefix)
    requires ValidV6(s) && SharesNetwork(s, p, q)
    ensures p in Kept(s) && q in Kept(s) && p.Masked().Overlaps(q.Masked())
  {
    forall r | r in s
      ensures !Swallows(r, q)
    {
      SwallowsInside(r, p);
      SwallowsInside(r, q);
    }
  }

  lemma KeptApart(s: set<HostPrefix>, p: HostPrefix, q: HostPrefix)
    requires ValidV6(s) && p in Kept(s) && q in Kept(s) && p != q
    requires !exists x, y :: SharesNetwork(s, x, y)
    ensures !p.Masked().Overlaps(q.Masked())
  {
    MaskedValid(p);
    MaskedValid(q);
    if p.Masked().Overlaps(q.Masked()) {
      if p.bits < q.bits {
        Nested(p.Masked(), q.Masked());
        KeptNotNested(s, q, p);
      } else if q.bits < p.bits {
        Nested(q.Masked(), p.Masked());
        KeptNotNested(s, p, q);
      } else {
        Nested(p.Masked(), q.Masked());
        assert SharesNetwork(s, p, q);
      }
    }
  }

  /** Two addresses of one /64, 2000::1 and 2000::2, are both kept, although the comment in the
      source promises that a prefix contained within another is dropped. */
  lemma SameNetworkExample(p: HostPrefix, q: HostPrefix)
    requires p == HostPrefix(V6, Pow2(125) + 1, 64) && q == HostPrefix(V6, Pow2(125) + 2, 64)
    ensures PublicHost(p) && PublicHost(q) && ValidV6({p, q}) && !KeptDisjoint({p, q})
  {
    hide Pow2, MaskTo, IsGlobalUnicast, IsPrivate;
    FourBelow(64);
    FourBelow(118);
    PublicAbove(1, 64, 118);
    PublicAbove(2, 64, 118);
    MaskedBase(p, 1, 64, 118);
    MaskedBase(q, 2, 64, 118);
    assert SharesNetwork({p, q}, p, q);
    KeptDisjointExactly({p, q});
  }
}
