/** How the cloud allocator keeps a service range out of its sets: the range is occupied in one
    set, the first one enumerated whose key contains the range's first address. */
module ServiceFilter {
  import opened Common
  import opened Bits
  import opened Prefixes
  import opened Geometry
  import opened SetState
  import opened CloudSpec

  /** Every block of every set that meets the range is in use. */
  ghost predicate AllMarked(m: Sets, range: Prefix)
    requires ValidSets(m) && range.Valid()
  {
    forall k | k in m :: Cover(m[k].g, range) <= m[k].s.used
  }

  /** The sets after the filter, for some enumeration order; an error is only logged. */
  ghost predicate FilterOutcome(m: Sets, m': Sets, range: Prefix)
    requires ValidSets(m) && range.Valid()
  {
    ValidSets(m') && exists r :: OccupyOutcome(m, m', range, r)
  }

  /** The set is the one that is filtered, whatever the order, and takes the range. */
  ghost predicate Filtered(m: Sets, k: Prefix, range: Prefix)
    requires ValidSets(m) && range.Valid()
  {
    && Hit(m, k, range.First()) && !(m[k].g.Wide() && k.len < range.len)
    && forall k' | Hit(m, k', range.First()) :: k' == k
  }

  /** Every set has its blocks of the range marked already or is the one that is filtered. */
  ghost predicate FilterEnough(m: Sets, range: Prefix)
    requires ValidSets(m) && range.Valid()
  {
    forall k | k in m :: Cover(m[k].g, range) <= m[k].s.used || Filtered(m, k, range)
  }

  /** Whatever is in use before, all blocks that meet the range are marked after the filter for
      every enumeration order if and only if each set has them marked already, or its key alone
      contains the first address and it does not refuse the range. */
  lemma ServiceFilterExact(m: Sets, range: Prefix)
    requires ValidSets(m) && range.Valid()
    ensures (forall m' | FilterOutcome(m, m', range) :: AllMarked(m', range)) <==> FilterEnough(m, range)
  {
    hide OccupyOutcome, AllMarked, Filtered, WellFormed, Cover;
    if FilterEnough(m, range) {
      forall m' | FilterOutcome(m, m', range)
        ensures AllMarked(m', range)
      {
        FilterMarks(m, m', range);
      }
    } else {
      var k :| k in m && !(Cover(m[k].g, range) <= m[k].s.used) && !Filtered(m, k, range);
      var m' := FilterMisses(m, k, range);
    }
  }

  lemma FilterMarks(m: Sets, m': Sets, range: Prefix)
    requires ValidSets(m) && range.Valid() && FilterEnough(m, range) && FilterOutcome(m, m', range)
    ensures AllMarked(m', range)
  {
    hide WellFormed, Cover, Indices, DisjointKeys, OccupyAt, Narrow;
    forall k | k in m && !(Cover(m[k].g, range) <= m[k].s.used)
      ensures Cover(m[k].g, range) <= m'[k].s.used
    {
      assert Filtered(m, k, range);
      var k' :| Hit(m, k', range.First()) &&
                m' == m[k' := m[k'].(s := SetState.Occupy(m[k'].g, m[k'].s, Some(range)))];
      FoundSetAccepts(m, k, range);
    }
  }

  /** Otherwise some order leaves a set as it is. */
  lemma FilterMisses(m: Sets, k: Prefix, range: Prefix) returns (m': Sets)
    requires ValidSets(m) && range.Valid()
    requires k in m && !(Cover(m[k].g, range) <= m[k].s.used) && !Filtered(m, k, range)
    ensures FilterOutcome(m, m', range) && !AllMarked(m', range)
  {
    hide WellFormed, Cover, Indices, OccupyOutcome;
    if k' :| Hit(m, k', range.First()) && (k' == k ==> m[k].g.Wide() && k.len < range.len) {
      FoundSetAccepts(m, k', range);
      m' := WithState(m, k', SetState.Occupy(m[k'].g, m[k'].s, Some(range)));
      FoundOutcome(m, k', range, if Indices(m[k'].g, Some(range)).Ok? then Ok(true) else Err(OutOfRange));
    } else {
      assert forall k' | k' in m :: !Hit(m, k', range.First());
      NothingFoundOutcome(m, range);
      m' := m;
    }
    assert Cover(m'[k].g, range) == Cover(m[k].g, range) && m'[k].s.used == m[k].s.used;
  }

  /** In terms of the keys alone, when no set refuses: it is enough that every key that meets the
      range contains its first address and no other key does. On unused sets that is necessary
      too. With disjoint keys no other key does anyway. */
  lemma ServiceFilterSuffices(m: Sets, range: Prefix)
    requires ValidSets(m) && Narrow(m) && range.Valid()
    ensures KeysSuit(m, range) ==> FilterEnough(m, range)
    ensures (forall k | k in m :: m[k].s.used == {}) ==> (FilterEnough(m, range) <==> KeysSuit(m, range))
    ensures DisjointKeys(m) ==>
              (KeysSuit(m, range) <==> forall k | k in m && k.Overlaps(range) :: k.Contains(range.First()))
  {
    hide WellFormed, DisjointKeys, Cover, KeysSuit, FilterEnough;
    if KeysSuit(m, range) {
      SuitIsEnough(m, range);
    }
    if (forall k | k in m :: m[k].s.used == {}) && FilterEnough(m, range) {
      EnoughIsSuit(m, range);
    }
    if DisjointKeys(m) {
      DisjointSuit(m, range);
    }
  }

  lemma SuitIsEnough(m: Sets, range: Prefix)
    requires ValidSets(m) && Narrow(m) && range.Valid() && KeysSuit(m, range)
    ensures FilterEnough(m, range)
  {
    hide WellFormed, Cover, Prefix.Contains;
    forall k | k in m && !(Cover(m[k].g, range) <= m[k].s.used)
      ensures Filtered(m, k, range)
    {
      KeyMeets(m, k, range);
    }
  }

  lemma EnoughIsSuit(m: Sets, range: Prefix)
    requires ValidSets(m) && range.Valid() && FilterEnough(m, range) && forall k | k in m :: m[k].s.used == {}
    ensures KeysSuit(m, range)
  {
    hide WellFormed, Cover, Prefix.Contains;
    forall k | k in m && k.Overlaps(range)
      ensures Filtered(m, k, range)
    {
      KeyMeets(m, k, range);
    }
  }

  lemma DisjointSuit(m: Sets, range: Prefix)
    requires ValidSets(m) && DisjointKeys(m) && range.Valid()
    ensures KeysSuit(m, range) <==> forall k | k in m && k.Overlaps(range) :: k.Contains(range.First())
  {
    hide WellFormed, DisjointKeys, Prefix.Contains;
    assert forall k | k in m && k.Contains(range.First()) :: Hit(m, k, range.First());
    forall k, k' | Hit(m, k, range.First()) && Hit(m, k', range.First())
      ensures k == k'
    {
      OneHit(m, k, k', range.First());
    }
  }

  lemma KeyMeets(m: Sets, k: Prefix, range: Prefix)
    requires ValidSets(m) && range.Valid() && k in m
    ensures Cover(m[k].g, range) == {} <==> !k.Overlaps(range)
  {
    CoverEmptyIffDisjoint(m[k].g, range);
  }

  ghost predicate KeysSuit(m: Sets, range: Prefix)
    requires ValidSets(m) && range.Valid()
  {
    forall k | k in m && k.Overlaps(range) ::
      k.Contains(range.First()) && forall k' | Hit(m, k', range.First()) :: k' == k
  }

  /** A service range that contains a tracked prefix, but starts outside it, is not filtered:
      0.0.0.0/0 leaves the blocks of 128.0.0.0/1 free, for every order. */
  lemma ServiceFilterExample(g: Geometry, m': Sets, k: nat)
    requires k == 31 && g == Geometry(Prefix(V4, Pow2(k), 1), 1)
    ensures g.Valid() && Prefix(V4, 0, 0).Valid() && ValidSets(OneSet(g, 0)) && DisjointKeys(OneSet(g, 0))
    ensures FilterOutcome(OneSet(g, 0), m', Prefix(V4, 0, 0)) ==> !AllMarked(m', Prefix(V4, 0, 0))
  {
    hide Pow2, OccupyAt, Cover, Indices, MaskTo;
    HalfSpace(g.cluster, k);
    var range := Prefix(V4, 0, 0);
    CoverEmptyIffDisjoint(g, range);
    ContainsIsCovers(g.cluster, range.First());
    assert forall k' | k' in OneSet(g, 0) :: !Hit(OneSet(g, 0), k', range.First());
    assert FilterOutcome(OneSet(g, 0), m', range) ==> m' == OneSet(g, 0);
    assert g.cluster in OneSet(g, 0);
  }

  lemma HalfSpace(p: Prefix, k: nat)
    requires k == 31 && p == Prefix(V4, Pow2(k), 1)
    ensures p.Valid() && Prefix(V4, 0, 0).Valid() && p.Overlaps(Prefix(V4, 0, 0)) && p.base > 0
  {
    Pow2Mono(k, k + 1);
    DivModUnique(Pow2(k), Pow2(k), 1, 0);
    DivModUnique(0, Pow2(k + 1), 0, 0);
  }

  /** Of two tracked prefixes around the start of the range only one is filtered: with 0.0.0.0/8
      and 0.0.0.0/16, the range 0.0.0.0/20 stays free in one of them, for every order. */
  lemma ServiceFilterOverlap(m: Sets, m': Sets, range: Prefix)
    requires range == Prefix(V4, 0, 20)
    requires m == map[Prefix(V4, 0, 8) := Tracked(Geometry(Prefix(V4, 0, 8), 24), State({}, 0)),
                      Prefix(V4, 0, 16) := Tracked(Geometry(Prefix(V4, 0, 16), 24), State({}, 0))]
    ensures range.Valid() && ValidSets(m)
    ensures FilterOutcome(m, m', range) ==> !AllMarked(m', range)
  {
    hide Pow2, OccupyAt, Cover, Indices, MaskTo, DisjointKeys;
    forall len: nat | len <= 32
      ensures Prefix(V4, 0, len).Valid() && Prefix(V4, 0, len).Covers(range.First())
    {
      ZeroPrefix(len);
    }
    forall k | k in m
      ensures m[k].g.Valid() && Cover(m[k].g, range) != {}
    {
      CoverEmptyIffDisjoint(m[k].g, range);
    }
    if FilterOutcome(m, m', range) {
      var k := OneChanges(m, m', range);
      var other := Prefix(V4, 0, if k.len == 8 then 16 else 8);
      assert m'[other] == m[other];
    }
  }

  /** The filter changes one set at most. */
  lemma OneChanges(m: Sets, m': Sets, range: Prefix) returns (k: Prefix)
    requires ValidSets(m) && range.Valid() && FilterOutcome(m, m', range)
    ensures SameShape(m, m') && forall k' | k' in m && k' != k :: m'[k'] == m[k']
  {
    hide WellFormed, Cover, Indices, DisjointKeys, OccupyAt, Narrow, Marked;
    k := range;
    if x :| Hit(m, x, range.First()) && m' == m[x := m[x].(s := SetState.Occupy(m[x].g, m[x].s, Some(range)))] {
      k := x;
    }
  }

  lemma ZeroPrefix(len: nat)
    requires len <= 32
    ensures Prefix(V4, 0, len).Valid() && Prefix(V4, 0, len).Covers(Addr(V4, 0))
  {
    DivModUnique(0, Pow2(32 - len), 0, 0);
  }
}
