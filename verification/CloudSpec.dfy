/** What the cloud allocator's operations do to its map of sets, as values. A set is found by
    enumerating the map and taking the first key that contains an address; the definitions here
    name no order: they act on every set whose key contains the address. */
module CloudSpec {
  import opened Common
  import opened Bits
  import opened Prefixes
  import opened Geometry
  import opened SetState

  datatype Tracked = Tracked(g: Geometry, s: State)

  type Sets = map<Prefix, Tracked>

  /** Every key is the cluster prefix of its set. */
  ghost predicate ValidSets(m: Sets) {
    forall k | k in m :: m[k].g.Valid() && m[k].g.cluster == k && WellFormed(m[k].g, m[k].s)
  }

  ghost predicate DisjointKeys(m: Sets)
    requires ValidSets(m)
  {
    forall k, k' | k in m && k' in m && k != k' :: !k.Overlaps(k')
  }

  ghost predicate Narrow(m: Sets) {
    forall k | k in m :: !m[k].g.Wide()
  }

  ghost predicate Hit(m: Sets, k: Prefix, ip: Addr)
    requires ValidSets(m)
  {
    k in m && k.Contains(ip)
  }

  ghost function OccupyAt(m: Sets, p: Prefix): Sets
    requires ValidSets(m) && p.Valid()
  {
    map k | k in m :: if Hit(m, k, p.First()) then m[k].(s := SetState.Occupy(m[k].g, m[k].s, Some(p))) else m[k]
  }

  ghost function ReleaseAt(m: Sets, p: Prefix): Sets
    requires ValidSets(m) && p.Valid()
  {
    map k | k in m :: if Hit(m, k, p.First()) then m[k].(s := SetState.Release(m[k].g, m[k].s, Some(p))) else m[k]
  }

  ghost function AllocateAt(m: Sets, ip: Addr): Sets
    requires ValidSets(m)
  {
    map k | k in m :: if Hit(m, k, ip) then m[k].(s := Allocate(m[k].g, m[k].s).0) else m[k]
  }

  /** A single unused set, with the next search starting at a given index. */
  function OneSet(g: Geometry, next: nat): Sets {
    map[g.cluster := Tracked(g, State({}, next))]
  }

  // ----- one set per address

  lemma OneHit(m: Sets, k: Prefix, k': Prefix, ip: Addr)
    requires ValidSets(m) && DisjointKeys(m) && Hit(m, k, ip) && Hit(m, k', ip)
    ensures k == k'
  {
    ContainsIsCovers(k, ip);
    ContainsIsCovers(k', ip);
    OverlapsMeaning(k, k');
  }

  /** With disjoint keys, changing the one set that was found is the order-free operation. */
  lemma FoundIsAt(m: Sets, k: Prefix, ip: Addr)
    requires ValidSets(m) && DisjointKeys(m) && Hit(m, k, ip)
    ensures forall p: Prefix | p.Valid() && p.First() == ip ::
              && OccupyAt(m, p) == m[k := m[k].(s := SetState.Occupy(m[k].g, m[k].s, Some(p)))]
              && ReleaseAt(m, p) == m[k := m[k].(s := SetState.Release(m[k].g, m[k].s, Some(p)))]
    ensures AllocateAt(m, ip) == m[k := m[k].(s := Allocate(m[k].g, m[k].s).0)]
  {
    hide WellFormed, SetState.Occupy, SetState.Release, Allocate, DisjointKeys;
    forall k' | k' in m && k' != k
      ensures !Hit(m, k', ip)
    {
      if Hit(m, k', ip) {
        OneHit(m, k, k', ip);
      }
    }
  }

  lemma NothingFoundIsAt(m: Sets, ip: Addr)
    requires ValidSets(m) && forall k | k in m :: !k.Contains(ip)
    ensures forall p: Prefix | p.Valid() && p.First() == ip :: OccupyAt(m, p) == m && ReleaseAt(m, p) == m
    ensures AllocateAt(m, ip) == m
  {
  }

  /** Once a key contains the base address, its set can refuse the CIDR only if it is `Wide`
      and the CIDR is longer than the key. */
  lemma FoundSetAccepts(m: Sets, k: Prefix, p: Prefix)
    requires ValidSets(m) && p.Valid() && Hit(m, k, p.First())
    ensures Indices(m[k].g, Some(p)).Ok? <==> !(m[k].g.Wide() && k.len < p.len)
  {
    ContainsIsCovers(k, p.First());
    IndicesExact(m[k].g, Some(p));
  }

  ghost predicate SameShape(m: Sets, m': Sets) {
    m'.Keys == m.Keys && forall k | k in m :: m'[k].g == m[k].g
  }

  lemma AtValid(m: Sets, p: Prefix)
    requires ValidSets(m) && p.Valid()
    ensures ValidSets(OccupyAt(m, p)) && SameShape(m, OccupyAt(m, p))
    ensures ValidSets(ReleaseAt(m, p)) && SameShape(m, ReleaseAt(m, p))
  {
    hide SetState.Occupy, SetState.Release, WellFormed;
    forall k | k in m
      ensures WellFormed(m[k].g, SetState.Occupy(m[k].g, m[k].s, Some(p)))
      ensures WellFormed(m[k].g, SetState.Release(m[k].g, m[k].s, Some(p)))
    {
      OccupyWellFormed(m[k].g, m[k].s, p);
    }
  }

  lemma AllocateAtValid(m: Sets, ip: Addr)
    requires ValidSets(m)
    ensures ValidSets(AllocateAt(m, ip)) && SameShape(m, AllocateAt(m, ip))
  {
    hide Allocate, WellFormed;
    forall k | k in m
      ensures WellFormed(m[k].g, Allocate(m[k].g, m[k].s).0)
    {
      AllocateDequeues(m[k].g, m[k].s);
    }
  }

  // ----- reserving and giving back

  /** The block handed out for an address: `None` when no set contains it, an error when that
      set is exhausted. */
  ghost function TakeAt(m: Sets, ip: Addr): Result<Option<Prefix>, Error>
    requires ValidSets(m)
  {
    if k :| Hit(m, k, ip) then TakeFrom(m[k]) else Ok(None)
  }

  lemma TookFrom(m: Sets, ip: Addr) returns (k: Prefix)
    requires ValidSets(m) && TakeAt(m, ip) != Ok(None)
    ensures Hit(m, k, ip)
  {
    k :| Hit(m, k, ip);
  }

  function TakeFrom(t: Tracked): Result<Option<Prefix>, Error>
    requires t.g.Valid()
  {
    match Allocate(t.g, t.s).1
    case None => Err(NoCIDRsRemaining)
    case Some(b) => Ok(Some(t.g.Block(b)))
  }

  lemma TakenIsBlock(t: Tracked)
    requires t.g.Valid() && WellFormed(t.g, t.s)
    ensures TakeFrom(t).Ok? ==> TakeFrom(t).value.Some? && TakeFrom(t).value.value.Valid()
  {
    AllocateDequeues(t.g, t.s);
    if TakeFrom(t).Ok? {
      BlockInside(t.g, Allocate(t.g, t.s).1.value);
    }
  }

  lemma FoundIsTaken(m: Sets, k: Prefix, ip: Addr)
    requires ValidSets(m) && DisjointKeys(m) && Hit(m, k, ip)
    ensures TakeAt(m, ip) == TakeFrom(m[k])
  {
    forall k' | Hit(m, k', ip)
      ensures k' == k
    {
      OneHit(m, k, k', ip);
    }
  }

  /** One block per address, up to the first exhausted set: the sets, the blocks, and whether
      every address was served. */
  ghost function ReserveAll(m: Sets, ips: seq<Addr>): (r: (Sets, seq<Option<Prefix>>, bool))
    requires ValidSets(m)
    ensures ValidSets(r.0) && SameShape(m, r.0)
  {
    if ips == [] then (m, [], true)
    else
      var last := |ips| - 1;
      var (m1, got, ok) := ReserveAll(m, ips[..last]);
      if !ok then (m1, got, false)
      else
        match TakeAt(m1, ips[last])
        case Err(_) => (m1, got, false)
        case Ok(o) =>
          AllocateAtValid(m1, ips[last]);
          (AllocateAt(m1, ips[last]), got + [o], true)
  }

  ghost predicate ValidBlocks(got: seq<Option<Prefix>>) {
    forall o | o in got :: o.Some? ==> o.value.Valid()
  }

  /** Every block goes back to the set that contains it. */
  ghost function ReturnAll(m: Sets, got: seq<Option<Prefix>>): (r: Sets)
    requires ValidSets(m) && ValidBlocks(got)
    ensures ValidSets(r) && SameShape(m, r)
  {
    if got == [] then m
    else
      var last := |got| - 1;
      var m1 := ReturnAll(m, got[..last]);
      assert got[last] in got;
      if got[last].None? then m1
      else
        AtValid(m1, got[last].value);
        ReleaseAt(m1, got[last].value)
  }

  /** The indices of a set's blocks in a list. */
  ghost function Given(g: Geometry, got: seq<Option<Prefix>>): set<nat>
    requires g.Valid()
  {
    set b: nat | b < g.Max() && Some(g.Block(b)) in got
  }

  /** The blocks of sets with disjoint keys are told apart by their address. */
  lemma BlockOfOneSet(m: Sets, k: Prefix, b: nat, k': Prefix, b': nat)
    requires ValidSets(m) && DisjointKeys(m) && k in m && k' in m
    requires b < m[k].g.Max() && b' < m[k'].g.Max()
    ensures m[k].g.Block(b).Valid() && Hit(m, k, m[k].g.Block(b).First())
    ensures m[k].g.Block(b) == m[k'].g.Block(b') ==> k == k' && b == b'
  {
    hide Cover;
    BlockInside(m[k].g, b);
    BlockInside(m[k'].g, b');
    ContainsIsCovers(k, m[k].g.Block(b).First());
    if m[k].g.Block(b) == m[k'].g.Block(b') {
      ContainsIsCovers(k', m[k].g.Block(b).First());
      OneHit(m, k, k', m[k].g.Block(b).First());
      CoverOfBlock(m[k].g, b);
      CoverOfBlock(m[k].g, b');
    }
  }

  ghost predicate AreBlocks(m: Sets, got: seq<Option<Prefix>>)
    requires ValidSets(m)
  {
    forall o | o in got && o.Some? :: exists k, b: nat :: IsBlock(m, k, b, o.value)
  }

  ghost predicate IsBlock(m: Sets, k: Prefix, b: nat, p: Prefix)
    requires ValidSets(m)
  {
    k in m && b < m[k].g.Max() && p == m[k].g.Block(b)
  }

  /** Adding a block of set k to a list adds its index for that set and for no other. */
  lemma GivenOneMore(m: Sets, got: seq<Option<Prefix>>, k: Prefix, b: nat, k': Prefix)
    requires ValidSets(m) && DisjointKeys(m) && k in m && b < m[k].g.Max() && k' in m
    ensures Given(m[k'].g, got + [Some(m[k].g.Block(b))]) == Given(m[k'].g, got) + (if k' == k then {b} else {})
  {
    forall b': nat | b' < m[k'].g.Max()
      ensures m[k'].g.Block(b') == m[k].g.Block(b) <==> k' == k && b' == b
    {
      BlockOfOneSet(m, k', b', k, b);
    }
  }

  /** Reserving marks exactly the blocks it hands out, and they were free. */
  lemma {:induction false} ReserveMarksGiven(m: Sets, ips: seq<Addr>)
    requires ValidSets(m) && DisjointKeys(m)
    ensures var (m', got, ok) := ReserveAll(m, ips);
            && AreBlocks(m, got)
            && forall k | k in m ::
                 m'[k].s.used == m[k].s.used + Given(m[k].g, got) && m[k].s.used !! Given(m[k].g, got)
  {
    hide Allocate, WellFormed;
    if ips != [] {
      var last := |ips| - 1;
      ReserveMarksGiven(m, ips[..last]);
      var (m1, got, ok) := ReserveAll(m, ips[..last]);
      if ok && TakeAt(m1, ips[last]).Ok? {
        ReserveOneMarks(m, m1, got, ips[last]);
      }
    }
  }

  lemma ReserveOneMarks(m: Sets, m1: Sets, got: seq<Option<Prefix>>, ip: Addr)
    requires ValidSets(m) && DisjointKeys(m) && ValidSets(m1) && SameShape(m, m1) && AreBlocks(m, got)
    requires forall k | k in m ::
               m1[k].s.used == m[k].s.used + Given(m[k].g, got) && m[k].s.used !! Given(m[k].g, got)
    requires TakeAt(m1, ip).Ok?
    ensures var got' := got + [TakeAt(m1, ip).value];
            && AreBlocks(m, got')
            && forall k | k in m ::
                 AllocateAt(m1, ip)[k].s.used == m[k].s.used + Given(m[k].g, got') &&
                 m[k].s.used !! Given(m[k].g, got')
  {
    hide WellFormed, Allocate, AllocateAt, Given, DisjointKeys, AreBlocks, TakeAt;
    if k :| Hit(m1, k, ip) {
      ShapeDisjoint(m, m1);
      TakenFrom(m1, k, ip);
      GivenGrows(m, m1, AllocateAt(m1, ip), got, k, Allocate(m1[k].g, m1[k].s).1.value);
    } else {
      NothingTaken(m1, ip);
      GivenStays(m, got);
    }
  }

  lemma ShapeDisjoint(m: Sets, m1: Sets)
    requires ValidSets(m) && DisjointKeys(m) && ValidSets(m1) && SameShape(m, m1)
    ensures DisjointKeys(m1)
  {
  }

  lemma NothingTaken(m: Sets, ip: Addr)
    requires ValidSets(m) && forall k | k in m :: !Hit(m, k, ip)
    ensures TakeAt(m, ip) == Ok(None) && AllocateAt(m, ip) == m
  {
  }

  lemma GivenStays(m: Sets, got: seq<Option<Prefix>>)
    requires ValidSets(m) && AreBlocks(m, got)
    ensures AreBlocks(m, got + [None]) && forall k | k in m :: Given(m[k].g, got + [None]) == Given(m[k].g, got)
  {
  }

  lemma GivenGrows(m: Sets, m1: Sets, m2: Sets, got: seq<Option<Prefix>>, k: Prefix, b: nat)
    requires ValidSets(m) && DisjointKeys(m) && SameShape(m, m1) && SameShape(m, m2) && AreBlocks(m, got)
    requires k in m && b < m[k].g.Max() && b !in m1[k].s.used
    requires forall k' | k' in m ::
               m1[k'].s.used == m[k'].s.used + Given(m[k'].g, got) && m[k'].s.used !! Given(m[k'].g, got)
    requires forall k' | k' in m :: m2[k'].s.used == m1[k'].s.used + (if k' == k then {b} else {})
    ensures var got' := got + [Some(m[k].g.Block(b))];
            && AreBlocks(m, got')
            && forall k' | k' in m ::
                 m2[k'].s.used == m[k'].s.used + Given(m[k'].g, got') && m[k'].s.used !! Given(m[k'].g, got')
  {
    hide WellFormed, Given;
    assert IsBlock(m, k, b, m[k].g.Block(b));
    forall k' | k' in m
      ensures Given(m[k'].g, got + [Some(m[k].g.Block(b))]) == Given(m[k'].g, got) + (if k' == k then {b} else {})
    {
      GivenOneMore(m, got, k, b, k');
    }
  }

  lemma TakenFrom(m: Sets, k: Prefix, ip: Addr)
    requires ValidSets(m) && DisjointKeys(m) && Hit(m, k, ip) && TakeAt(m, ip).Ok?
    ensures Allocate(m[k].g, m[k].s).1.Some?
    ensures var b := Allocate(m[k].g, m[k].s).1.value;
            && b < m[k].g.Max() && b !in m[k].s.used
            && TakeAt(m, ip) == Ok(Some(m[k].g.Block(b)))
            && SameShape(m, AllocateAt(m, ip))
            && forall k' | k' in m ::
                 AllocateAt(m, ip)[k'].s.used == m[k'].s.used + (if k' == k then {b} else {})
  {
    FoundIsTaken(m, k, ip);
    FoundIsAt(m, k, ip);
    AllocateDequeues(m[k].g, m[k].s);
  }

  lemma BlocksValid(m: Sets, got: seq<Option<Prefix>>)
    requires ValidSets(m) && AreBlocks(m, got)
    ensures ValidBlocks(got)
  {
    forall o | o in got && o.Some?
      ensures o.value.Valid()
    {
      var k, b: nat :| IsBlock(m, k, b, o.value);
      BlockInside(m[k].g, b);
    }
  }

  /** Giving blocks back frees exactly their indices. */
  lemma {:induction false} ReturnFreesGiven(m: Sets, got: seq<Option<Prefix>>)
    requires ValidSets(m) && DisjointKeys(m) && Narrow(m) && AreBlocks(m, got) && ValidBlocks(got)
    ensures forall k | k in m :: ReturnAll(m, got)[k].s.used == m[k].s.used - Given(m[k].g, got)
  {
    hide WellFormed, SetState.Release;
    if got != [] {
      var last := |got| - 1;
      var rest := got[..last];
      assert got == rest + [got[last]] && got[last] in got;
      ReturnFreesGiven(m, rest);
      ReturnOneFrees(m, ReturnAll(m, rest), rest, got[last]);
    }
  }

  lemma ReturnOneFrees(m: Sets, m1: Sets, got: seq<Option<Prefix>>, o: Option<Prefix>)
    requires ValidSets(m) && DisjointKeys(m) && Narrow(m) && ValidSets(m1) && SameShape(m, m1)
    requires AreBlocks(m, [o]) && (o.Some? ==> o.value.Valid())
    requires forall k | k in m :: m1[k].s.used == m[k].s.used - Given(m[k].g, got)
    ensures forall k | k in m ::
              (if o.None? then m1 else ReleaseAt(m1, o.value))[k].s.used == m[k].s.used - Given(m[k].g, got + [o])
  {
    hide WellFormed, SetState.Release, Given, DisjointKeys;
    if o.Some? {
      assert o in [o];
      var k, b: nat :| IsBlock(m, k, b, o.value);
      ReleasedAtBlock(m, m1, k, b);
      forall k' | k' in m
        ensures Given(m[k'].g, got + [o]) == Given(m[k'].g, got) + (if k' == k then {b} else {})
      {
        GivenOneMore(m, got, k, b, k');
      }
    } else {
      forall k' | k' in m
        ensures Given(m[k'].g, got + [o]) == Given(m[k'].g, got)
      {
        GivenSame(m[k'].g, got);
      }
    }
  }

  lemma GivenSame(g: Geometry, got: seq<Option<Prefix>>)
    requires g.Valid()
    ensures Given(g, got + [None]) == Given(g, got)
  {
  }

  /** Releasing a block frees its index in its own set and nothing elsewhere. */
  lemma ReleasedAtBlock(m: Sets, m1: Sets, k: Prefix, b: nat)
    requires ValidSets(m) && DisjointKeys(m) && Narrow(m) && ValidSets(m1) && SameShape(m, m1)
    requires k in m && b < m[k].g.Max()
    ensures m[k].g.Block(b).Valid()
    ensures forall k' | k' in m ::
              ReleaseAt(m1, m[k].g.Block(b))[k'].s.used == m1[k'].s.used - (if k' == k then {b} else {})
  {
    hide WellFormed, SetState.Release;
    BlockOfOneSet(m, k, b, k, b);
    FoundIsAt(m1, k, m[k].g.Block(b).First());
    ReleaseBlock(m1[k].g, m1[k].s, b);
  }

  /** Giving a reservation back restores the used blocks of every set. */
  lemma ReserveThenReturnIsNeutral(m: Sets, ips: seq<Addr>)
    requires ValidSets(m) && DisjointKeys(m) && Narrow(m)
    ensures var (m1, got, ok) := ReserveAll(m, ips);
            && ValidBlocks(got)
            && SameUsed(m, ReturnAll(m1, got))
  {
    hide WellFormed;
    var (m1, got, ok) := ReserveAll(m, ips);
    ReserveMarksGiven(m, ips);
    BlocksValid(m, got);
    forall o | o in got && o.Some?
      ensures exists k, b: nat :: IsBlock(m1, k, b, o.value)
    {
      var k, b: nat :| IsBlock(m, k, b, o.value);
      assert IsBlock(m1, k, b, o.value);
    }
    ReturnFreesGiven(m1, got);
  }

  ghost predicate SameUsed(m: Sets, m': Sets) {
    SameShape(m, m') && forall k | k in m :: m'[k].s.used == m[k].s.used
  }

  // ----- how the methods' loops follow these functions

  /** Some set whose key contains the CIDR's first address was the one occupied. */
  ghost predicate OccupiedSome(m: Sets, m': Sets, p: Prefix)
    requires ValidSets(m) && p.Valid()
  {
    exists k :: Hit(m, k, p.First()) && m' == m[k := m[k].(s := SetState.Occupy(m[k].g, m[k].s, Some(p)))]
  }

  /** No set changed shape or lost a used block. */
  ghost predicate Grows(m: Sets, m': Sets) {
    SameShape(m, m') && forall k | k in m :: m[k].s.used <= m'[k].s.used
  }

  lemma ShapeKeeps(m: Sets, m': Sets)
    requires ValidSets(m) && ValidSets(m') && SameShape(m, m')
    ensures DisjointKeys(m) <==> DisjointKeys(m')
    ensures Narrow(m) <==> Narrow(m')
  {
  }

  ghost function WithState(m: Sets, k: Prefix, s: State): Sets
    requires k in m
  {
    m[k := m[k].(s := s)]
  }

  /** Some set contains the CIDR's first address and has all blocks that meet the CIDR in use. */
  ghost predicate Marked(m: Sets, p: Prefix)
    requires ValidSets(m) && p.Valid()
  {
    exists k :: Hit(m, k, p.First()) && Cover(m[k].g, p) <= m[k].s.used
  }

  lemma ExtendsMarked(m: Sets, m': Sets, p: Prefix)
    requires ValidSets(m) && ValidSets(m') && p.Valid() && Extends(m, m') && Marked(m, p)
    ensures Marked(m', p)
  {
    hide Cover;
    var k :| Hit(m, k, p.First()) && Cover(m[k].g, p) <= m[k].s.used;
    assert Hit(m', k, p.First());
  }

  /** The first n CIDRs are marked, those left out of account that no set contained at first. */
  ghost predicate MarkedUpTo(start: Sets, m: Sets, pods: seq<Prefix>, n: nat)
    requires ValidSets(start) && ValidSets(m) && n <= |pods| && forall p | p in pods :: p.Valid()
  {
    forall i: nat | i < n :: Tracks(start, pods[i].First()) ==> pods[i].Valid() && Marked(m, pods[i])
  }

  lemma MarkedNone(start: Sets, m: Sets, pods: seq<Prefix>)
    requires ValidSets(start) && ValidSets(m) && forall p | p in pods :: p.Valid()
    ensures MarkedUpTo(start, m, pods, 0)
  {
  }

  lemma MarkedOneMore(start: Sets, m: Sets, m': Sets, pods: seq<Prefix>, n: nat)
    requires ValidSets(start) && ValidSets(m) && ValidSets(m') && n < |pods| && forall p | p in pods :: p.Valid()
    requires Extends(m, m') && MarkedUpTo(start, m, pods, n)
    requires pods[n].Valid() && (Tracks(start, pods[n].First()) ==> Marked(m', pods[n]))
    ensures MarkedUpTo(start, m', pods, n + 1)
  {
    hide Marked, Extends, Tracks;
    forall i: nat | i < n && Tracks(start, pods[i].First())
      ensures pods[i].Valid() && Marked(m', pods[i])
    {
      ExtendsMarked(m, m', pods[i]);
    }
  }

  lemma PodHandled(start: Sets, m: Sets, m': Sets, pods: seq<Prefix>, n: nat, ok: bool)
    requires ValidSets(start) && ValidSets(m) && ValidSets(m') && n < |pods| && forall p | p in pods :: p.Valid()
    requires Extends(start, m) && Extends(m, m') && MarkedUpTo(start, m, pods, n)
    requires pods[n].Valid() && (ok && Tracks(m, pods[n].First()) ==> Marked(m', pods[n]))
    ensures Extends(start, m') && (ok ==> MarkedUpTo(start, m', pods, n + 1))
  {
    hide Marked, MarkedUpTo, Extends, Tracks, WellFormed;
    ExtendsTrans(start, m, m');
    if ok {
      if Tracks(start, pods[n].First()) {
        ExtendsTracks(start, m, pods[n].First());
      }
      MarkedOneMore(start, m, m', pods, n);
    }
  }

  lemma OccupiedFoundMarks(m: Sets, k: Prefix, p: Prefix)
    requires ValidSets(m) && p.Valid() && Hit(m, k, p.First()) && Indices(m[k].g, Some(p)).Ok?
    ensures var m' := WithState(m, k, SetState.Occupy(m[k].g, m[k].s, Some(p))); ValidSets(m') && Marked(m', p)
  {
    hide Cover, Indices, WellFormed;
    OccupyWellFormed(m[k].g, m[k].s, p);
    assert Hit(WithState(m, k, SetState.Occupy(m[k].g, m[k].s, Some(p))), k, p.First());
  }

  lemma OccupiedFound(m: Sets, k: Prefix, p: Prefix)
    requires ValidSets(m) && p.Valid() && Hit(m, k, p.First())
    ensures var m' := WithState(m, k, SetState.Occupy(m[k].g, m[k].s, Some(p)));
            && Grows(m, m') && OccupiedSome(m, m', p)
            && (DisjointKeys(m) ==> m' == OccupyAt(m, p))
    ensures Narrow(m) || p.family == V6 ==> Indices(m[k].g, Some(p)).Ok?
  {
    hide WellFormed, Indices, DisjointKeys, Cover, OccupyAt;
    FoundSetAccepts(m, k, p);
    if DisjointKeys(m) {
      FoundIsAt(m, k, p.First());
    }
  }

  /** ... and it marked the blocks that meet the CIDR, or refused it as a `Wide` one does. */
  ghost predicate OccupiedAs(m: Sets, m': Sets, p: Prefix, r: Result<bool, Error>)
    requires ValidSets(m) && p.Valid()
  {
    exists k :: Hit(m, k, p.First()) && OccupiedIn(m, m', k, p, r)
  }

  ghost predicate OccupiedIn(m: Sets, m': Sets, k: Prefix, p: Prefix, r: Result<bool, Error>)
    requires ValidSets(m) && p.Valid() && k in m
  {
    if m[k].g.Wide() && k.len < p.len then r.Err? && m' == m
    else r == Ok(true) && m' == WithState(m, k, m[k].s.(used := m[k].s.used + Cover(m[k].g, p)))
  }

  lemma FoundOccupiedAs(m: Sets, k: Prefix, p: Prefix, r: Result<bool, Error>)
    requires ValidSets(m) && p.Valid() && Hit(m, k, p.First())
    requires if Indices(m[k].g, Some(p)).Ok? then r == Ok(true) else r.Err?
    ensures OccupiedAs(m, WithState(m, k, SetState.Occupy(m[k].g, m[k].s, Some(p))), p, r)
  {
    hide WellFormed, Indices, Cover, Prefix.Contains;
    FoundSetAccepts(m, k, p);
    assert WithState(m, k, m[k].s) == m;
    assert OccupiedIn(m, WithState(m, k, SetState.Occupy(m[k].g, m[k].s, Some(p))), k, p, r);
  }

  /** The result of occupying a CIDR: nothing when no set contains its first address; else one
      that does is occupied, without error unless it is `Wide`, and all blocks that meet the CIDR
      are marked there. With disjoint keys the outcome is the order-free one. */
  ghost predicate OccupyOutcome(m: Sets, m': Sets, p: Prefix, r: Result<bool, Error>)
    requires ValidSets(m) && ValidSets(m') && p.Valid()
  {
    && Grows(m, m')
    && (if forall k | k in m :: !Hit(m, k, p.First()) then r == Ok(false) && m' == m
        else OccupiedSome(m, m', p) && OccupiedAs(m, m', p, r) && r != Ok(false) &&
             (Narrow(m) || p.family == V6 ==> r == Ok(true)))
    && (r == Ok(true) ==> Marked(m', p))
    && (DisjointKeys(m) ==> m' == OccupyAt(m, p))
  }

  lemma NothingFoundOutcome(m: Sets, p: Prefix)
    requires ValidSets(m) && p.Valid() && forall k | k in m :: !k.Contains(p.First())
    ensures OccupyOutcome(m, m, p, Ok(false))
  {
    hide WellFormed;
    NothingFoundIsAt(m, p.First());
  }

  lemma FoundOutcome(m: Sets, k: Prefix, p: Prefix, r: Result<bool, Error>)
    requires ValidSets(m) && p.Valid() && Hit(m, k, p.First())
    requires if Indices(m[k].g, Some(p)).Ok? then r == Ok(true) else r.Err?
    ensures var m' := WithState(m, k, SetState.Occupy(m[k].g, m[k].s, Some(p)));
            ValidSets(m') && OccupyOutcome(m, m', p, r)
  {
    hide WellFormed, Indices, SetState.Occupy, Marked, OccupyAt, DisjointKeys, Narrow, Grows, OccupiedSome,
         OccupiedAs;
    OccupiedFound(m, k, p);
    FoundOccupiedAs(m, k, p, r);
    OccupyWellFormed(m[k].g, m[k].s, p);
    if r.Ok? {
      OccupiedFoundMarks(m, k, p);
    }
  }

  lemma ReleasedFound(m: Sets, k: Prefix, p: Prefix)
    requires ValidSets(m) && p.Valid() && Hit(m, k, p.First())
    ensures DisjointKeys(m) ==>
              WithState(m, k, SetState.Release(m[k].g, m[k].s, Some(p))) == ReleaseAt(m, p)
    ensures Narrow(m) ==> Indices(m[k].g, Some(p)).Ok?
  {
    FoundSetAccepts(m, k, p);
    if DisjointKeys(m) {
      FoundIsAt(m, k, p.First());
    }
  }

  lemma AllocatedFound(m: Sets, k: Prefix, ip: Addr)
    requires ValidSets(m) && Hit(m, k, ip) && DisjointKeys(m)
    ensures WithState(m, k, Allocate(m[k].g, m[k].s).0) == AllocateAt(m, ip)
    ensures TakeAt(m, ip) == TakeFrom(m[k])
  {
    FoundIsAt(m, k, ip);
    FoundIsTaken(m, k, ip);
  }

  /** The entries before the first missing one. */
  function LeadingBlocks(got: seq<Option<Prefix>>): (n: nat)
    ensures n <= |got| && (forall i | 0 <= i < n :: got[i].Some?) && (n < |got| ==> got[n].None?)
  {
    if got == [] || got[0].None? then 0 else 1 + LeadingBlocks(got[1..])
  }

  lemma ReturnOneMore(m: Sets, got: seq<Option<Prefix>>, i: nat)
    requires ValidSets(m) && ValidBlocks(got) && i < |got|
    ensures ValidBlocks(got[..i]) && ValidBlocks(got[..i + 1]) && (got[i].Some? ==> got[i].value.Valid())
    ensures var m1 := ReturnAll(m, got[..i]);
            ReturnAll(m, got[..i + 1]) == if got[i].None? then m1 else ReleaseAt(m1, got[i].value)
  {
    hide ReleaseAt, WellFormed;
    assert got[i] in got && got[..i + 1][..i] == got[..i];
  }

  /** What any enumeration order frees: blocks that meet one of the CIDRs. */
  ghost predicate OnlyFrees(m: Sets, m': Sets, cidrs: seq<Option<Prefix>>)
    requires ValidSets(m)
  {
    && SameShape(m, m')
    && (forall k | k in m :: m'[k].s.used <= m[k].s.used)
    && (forall k, b: nat | k in m && b in m[k].s.used && b !in m'[k].s.used :: MeetsOne(m[k].g, b, cidrs))
  }

  ghost predicate MeetsOne(g: Geometry, b: nat, cidrs: seq<Option<Prefix>>)
    requires g.Valid()
  {
    exists o :: o in cidrs && o.Some? && o.value.Valid() && b in Cover(g, o.value)
  }

  /** What any enumeration order hands out: blocks that were free, and marks no other. */
  ghost predicate OnlyTakes(m: Sets, m': Sets, got: seq<Option<Prefix>>)
    requires ValidSets(m)
  {
    && SameShape(m, m')
    && (forall k | k in m :: m[k].s.used <= m'[k].s.used)
    && (forall k, b: nat | k in m && b in m'[k].s.used && b !in m[k].s.used :: Some(m[k].g.Block(b)) in got)
    && (forall o | o in got && o.Some? :: exists k, b: nat :: TakenFree(m, m', k, b, o.value))
  }

  ghost predicate TakenFree(m: Sets, m': Sets, k: Prefix, b: nat, p: Prefix)
    requires ValidSets(m)
  {
    IsBlock(m, k, b, p) && k in m' && b !in m[k].s.used && b in m'[k].s.used
  }

  lemma OnlyNothing(m: Sets)
    requires ValidSets(m)
    ensures OnlyFrees(m, m, []) && OnlyTakes(m, m, []) && OnlyTakes(m, m, [None])
  {
  }

  lemma OnlyFreesMore(m: Sets, m': Sets, cidrs: seq<Option<Prefix>>, cidrs': seq<Option<Prefix>>)
    requires ValidSets(m) && OnlyFrees(m, m', cidrs) && forall o | o in cidrs :: o in cidrs'
    ensures OnlyFrees(m, m', cidrs')
  {
    hide Cover;
    forall k, b: nat | k in m && b in m[k].s.used && b !in m'[k].s.used
      ensures MeetsOne(m[k].g, b, cidrs')
    {
      var o :| o in cidrs && o.Some? && o.value.Valid() && b in Cover(m[k].g, o.value);
      assert o in cidrs';
    }
  }

  lemma OnlyFreesTrans(m: Sets, m1: Sets, m2: Sets, cidrs: seq<Option<Prefix>>)
    requires ValidSets(m) && ValidSets(m1) && OnlyFrees(m, m1, cidrs) && OnlyFrees(m1, m2, cidrs)
    ensures OnlyFrees(m, m2, cidrs)
  {
    hide MeetsOne;
  }

  lemma ReleasedOnly(m: Sets, k: Prefix, p: Prefix)
    requires ValidSets(m) && p.Valid() && k in m
    ensures OnlyFrees(m, WithState(m, k, SetState.Release(m[k].g, m[k].s, Some(p))), [Some(p)])
  {
    hide Cover, Indices, WellFormed;
    forall b: nat | b in Cover(m[k].g, p)
      ensures MeetsOne(m[k].g, b, [Some(p)])
    {
      assert Some(p) in [Some(p)];
    }
  }

  lemma TakenOnly(m: Sets, k: Prefix)
    requires ValidSets(m) && k in m && TakeFrom(m[k]).Ok?
    ensures OnlyTakes(m, WithState(m, k, Allocate(m[k].g, m[k].s).0), [TakeFrom(m[k]).value])
  {
    AllocateDequeues(m[k].g, m[k].s);
    var b := Allocate(m[k].g, m[k].s).1.value;
    assert TakenFree(m, WithState(m, k, Allocate(m[k].g, m[k].s).0), k, b, m[k].g.Block(b));
  }

  lemma OnlyTakesMore(m: Sets, m1: Sets, m2: Sets, got: seq<Option<Prefix>>, o: Option<Prefix>)
    requires ValidSets(m) && ValidSets(m1) && OnlyTakes(m, m1, got) && OnlyTakes(m1, m2, [o])
    ensures OnlyTakes(m, m2, got + [o])
  {
    hide WellFormed;
    forall x | x in got + [o] && x.Some?
      ensures exists k, b: nat :: TakenFree(m, m2, k, b, x.value)
    {
      if x in got {
        var k, b: nat :| TakenFree(m, m1, k, b, x.value);
        assert TakenFree(m, m2, k, b, x.value);
      } else {
        assert x in [o];
        var k, b: nat :| TakenFree(m1, m2, k, b, x.value);
        assert TakenFree(m, m2, k, b, x.value);
      }
    }
  }

  lemma ReturnNothing(m: Sets, got: seq<Option<Prefix>>)
    requires ValidSets(m)
    ensures ReturnAll(m, got[..0]) == m
  {
  }

  lemma ReserveNothing(m: Sets, ips: seq<Addr>)
    requires ValidSets(m)
    ensures ReserveAll(m, ips[..0]) == (m, [], true)
  {
  }

  lemma ExhaustedKeeps(m: Sets, k: Prefix)
    requires ValidSets(m) && k in m
    ensures TakeFrom(m[k]).Err? ==> WithState(m, k, Allocate(m[k].g, m[k].s).0) == m
  {
  }

  lemma ReserveOneMore(m: Sets, ips: seq<Addr>, i: nat)
    requires ValidSets(m) && i < |ips|
    ensures var (m1, got, ok) := ReserveAll(m, ips[..i]);
            ok ==> ReserveAll(m, ips[..i + 1]) ==
                   match TakeAt(m1, ips[i])
                   case Err(_) => (m1, got, false)
                   case Ok(o) => (AllocateAt(m1, ips[i]), got + [o], true)
  {
    hide AllocateAt, TakeAt, WellFormed;
    assert ips[..i + 1][..i] == ips[..i];
  }

  /** Once a set is exhausted, the rest of the addresses change nothing. */
  lemma {:induction false} ReserveStops(m: Sets, ips: seq<Addr>, i: nat)
    requires ValidSets(m) && i < |ips| && !ReserveAll(m, ips[..i + 1]).2
    ensures ReserveAll(m, ips) == ReserveAll(m, ips[..i + 1])
    decreases |ips|
  {
    hide AllocateAt, TakeAt, WellFormed, ValidSets, SameShape;
    if i + 1 == |ips| {
      assert ips[..i + 1] == ips;
    } else {
      var last := |ips| - 1;
      assert ips[..last][..i + 1] == ips[..i + 1];
      ReserveStops(m, ips[..last], i);
    }
  }

  /** The reservation after serving the first n addresses. */
  ghost predicate ReservedSoFar(m: Sets, cur: Sets, ips: seq<Addr>, n: nat, got: seq<Option<Prefix>>)
    requires ValidSets(m) && n <= |ips|
  {
    && ValidBlocks(got) && |got| == n && OnlyTakes(m, cur, got)
    && (DisjointKeys(m) ==> ReserveAll(m, ips[..n]) == (cur, got, true))
  }

  lemma ReservedNone(m: Sets, ips: seq<Addr>)
    requires ValidSets(m)
    ensures ReservedSoFar(m, m, ips, 0, [])
  {
    OnlyNothing(m);
    ReserveNothing(m, ips);
  }

  lemma ReservedStep(m: Sets, cur: Sets, cur': Sets, ips: seq<Addr>, n: nat, got: seq<Option<Prefix>>,
                     o: Result<Option<Prefix>, Error>)
    requires ValidSets(m) && ValidSets(cur) && n < |ips| && ReservedSoFar(m, cur, ips, n, got)
    requires if o.Ok? then OnlyTakes(cur, cur', [o.value]) else cur' == cur
    requires o.Ok? && o.value.Some? ==> o.value.value.Valid()
    requires DisjointKeys(cur) ==>
               (o.Ok? <==> TakeAt(cur, ips[n]).Ok?) &&
               (o.Ok? ==> o == TakeAt(cur, ips[n]) && cur' == AllocateAt(cur, ips[n]))
    ensures o.Ok? ==> ReservedSoFar(m, cur', ips, n + 1, got + [o.value])
    ensures o.Err? && DisjointKeys(m) ==> ReserveAll(m, ips) == (cur', got, false)
  {
    hide WellFormed, DisjointKeys, TakeAt, AllocateAt, ReserveAll;
    ReserveOneMore(m, ips, n);
    ShapeKeeps(m, cur);
    if o.Ok? {
      OnlyTakesMore(m, cur, cur', got, o.value);
    } else if DisjointKeys(m) {
      ReserveStops(m, ips, n);
    }
  }

  /** A node's address counts if it is a public IPv6 one. */
  predicate NodeAddress(a: Addr) {
    a.family == V6 && !IsPrivate(a)
  }

  /** A set contains the address, and the block around it is in use there. */
  ghost predicate Reserved(m: Sets, a: Addr)
    requires ValidSets(m)
  {
    exists k :: Protected(m, k, a)
  }

  /** Sets may be added, none is lost, none changes shape or loses a used block. */
  ghost predicate Extends(m: Sets, m': Sets) {
    m.Keys <= m'.Keys && forall k | k in m :: m'[k].g == m[k].g && m[k].s.used <= m'[k].s.used
  }

  /** Every public address of the node that some set contains is reserved. */
  ghost predicate NodeReserved(m: Sets, addrs: seq<Addr>)
    requires ValidSets(m)
  {
    forall a | a in addrs && NodeAddress(a) && (exists k :: Hit(m, k, a)) :: Reserved(m, a)
  }

  /** The block contains one of the node's public addresses. */
  ghost predicate HoldsAddress(g: Geometry, b: nat, addrs: seq<Addr>)
    requires g.Valid()
  {
    exists a :: a in addrs && NodeAddress(a) && g.Block(b).Covers(a)
  }

  /** The node's addresses were occupied: each one that a set contains is reserved, and no block
      without one of them was marked. */
  ghost predicate NodeOccupied(m: Sets, m': Sets, addrs: seq<Addr>)
    requires ValidSets(m) && ValidSets(m')
  {
    && Grows(m, m') && NodeReserved(m', addrs)
    && (forall k | k in m :: m'[k].s.next == m[k].s.next)
    && (forall k, b: nat | k in m && b in m'[k].s.used && b !in m[k].s.used :: HoldsAddress(m[k].g, b, addrs))
  }

  lemma NodeReservedOneMore(m: Sets, m': Sets, addrs: seq<Addr>, i: nat)
    requires ValidSets(m) && ValidSets(m') && Grows(m, m') && i < |addrs| && NodeReserved(m, addrs[..i])
    requires NodeAddress(addrs[i]) && (exists k :: Hit(m', k, addrs[i])) ==> Reserved(m', addrs[i])
    ensures NodeReserved(m', addrs[..i + 1])
  {
    hide WellFormed, NodeAddress, Reserved;
    forall a | a in addrs[..i + 1] && NodeAddress(a) && (exists k :: Hit(m', k, a))
      ensures Reserved(m', a)
    {
      if a != addrs[i] {
        assert a in addrs[..i];
        var k :| Hit(m', k, a);
        assert Hit(m, k, a);
        GrowsKeepsReserved(m, m', a);
      }
    }
  }

  lemma NodeOccupiedNone(m: Sets, addrs: seq<Addr>)
    requires ValidSets(m)
    ensures NodeOccupied(m, m, addrs[..0])
  {
  }

  /** One more address: passed over, or occupied as a single-address prefix. */
  lemma NodeOccupiedOneMore(m: Sets, m1: Sets, m2: Sets, addrs: seq<Addr>, i: nat)
    requires ValidSets(m) && ValidSets(m1) && ValidSets(m2) && i < |addrs| && addrs[i].Valid()
    requires HostRoute(addrs[i]).Valid() && NodeOccupied(m, m1, addrs[..i])
    requires if NodeAddress(addrs[i]) then OccupyOutcome(m1, m2, HostRoute(addrs[i]), Ok(true)) ||
                                           OccupyOutcome(m1, m2, HostRoute(addrs[i]), Ok(false))
             else m2 == m1
    ensures NodeOccupied(m, m2, addrs[..i + 1])
  {
    hide WellFormed, NodeAddress, Reserved, NodeReserved, Marked, Narrow, DisjointKeys, OccupyAt, HoldsAddress, Indices,
         Cover, Hit;
    NodeReservedStep(m1, m2, addrs, i);
    forall k, b: nat | k in m && b in m2[k].s.used && b !in m[k].s.used
      ensures HoldsAddress(m[k].g, b, addrs[..i + 1])
    {
      if b in m1[k].s.used {
        HoldsMore(m[k].g, b, addrs, i);
      } else {
        HostRouteCover(m1[k].g, b, addrs, i);
      }
    }
  }

  lemma NodeReservedStep(m: Sets, m': Sets, addrs: seq<Addr>, i: nat)
    requires ValidSets(m) && ValidSets(m') && i < |addrs| && addrs[i].Valid()
    requires HostRoute(addrs[i]).Valid() && NodeReserved(m, addrs[..i])
    requires if NodeAddress(addrs[i]) then OccupyOutcome(m, m', HostRoute(addrs[i]), Ok(true)) ||
                                           OccupyOutcome(m, m', HostRoute(addrs[i]), Ok(false))
             else m' == m
    ensures NodeReserved(m', addrs[..i + 1])
  {
    hide WellFormed, Reserved, NodeReserved, Marked, Narrow, DisjointKeys, OccupyAt, IsPrivate, OccupiedSome, OccupiedAs;
    var p := HostRoute(addrs[i]);
    if NodeAddress(addrs[i]) && OccupiedSome(m, m', p) {
      OccupiedSomeReserves(m, m', addrs[i]);
    }
    NodeReservedOneMore(m, m', addrs, i);
  }

  lemma HoldsMore(g: Geometry, b: nat, addrs: seq<Addr>, i: nat)
    requires g.Valid() && i < |addrs| && HoldsAddress(g, b, addrs[..i])
    ensures HoldsAddress(g, b, addrs[..i + 1])
  {
    var a :| a in addrs[..i] && NodeAddress(a) && g.Block(b).Covers(a);
    assert a in addrs[..i + 1];
  }

  lemma HostRouteCover(g: Geometry, b: nat, addrs: seq<Addr>, i: nat)
    requires g.Valid() && i < |addrs| && NodeAddress(addrs[i])
    requires HostRoute(addrs[i]).Valid() && b in Cover(g, HostRoute(addrs[i]))
    ensures HoldsAddress(g, b, addrs[..i + 1])
  {
    var a := addrs[i];
    assert HostRoute(a).Size() == 1;
    assert a in addrs[..i + 1] && g.Block(b).Covers(a);
  }

  lemma HostRouteValid(a: Addr)
    requires a.Valid()
    ensures HostRoute(a).Valid() && HostRoute(a).First() == a
  {
    assert HostRoute(a).Size() == 1;
  }

  /** A set for the geometry is tracked, a new one if its key was not there. */
  ghost function WithSet(m: Sets, g: Geometry): Sets {
    if g.cluster in m then m else m[g.cluster := Tracked(g, State({}, 0))]
  }

  /** Some set contains the address. */
  ghost predicate Tracks(m: Sets, a: Addr)
    requires ValidSets(m)
  {
    exists k :: Hit(m, k, a)
  }

  lemma ExtendsTracks(m: Sets, m': Sets, a: Addr)
    requires ValidSets(m) && ValidSets(m') && Extends(m, m') && Tracks(m, a)
    ensures Tracks(m', a)
  {
    var k :| Hit(m, k, a);
    assert Hit(m', k, a);
  }

  lemma ExtendsRefl(m: Sets)
    ensures Extends(m, m)
  {
  }

  lemma ExtendsTrans(m: Sets, m1: Sets, m2: Sets)
    requires Extends(m, m1) && Extends(m1, m2)
    ensures Extends(m, m2)
  {
  }

  lemma WithSetExtends(m: Sets, g: Geometry, a: Addr)
    requires ValidSets(m) && g.Valid() && g.cluster.Contains(a)
    ensures ValidSets(WithSet(m, g)) && Extends(m, WithSet(m, g)) && Tracks(WithSet(m, g), a)
  {
    assert Hit(WithSet(m, g), g.cluster, a);
  }

  lemma KeyTracks(m: Sets, k: Prefix)
    requires ValidSets(m) && k in m
    ensures Tracks(m, k.First())
  {
    ContainsIsCovers(k, k.First());
    assert Hit(m, k, k.First());
  }

  lemma GrowsKeepsReserved(m: Sets, m': Sets, a: Addr)
    requires ValidSets(m) && ValidSets(m') && Grows(m, m') && Reserved(m, a)
    ensures Reserved(m', a)
  {
    var k :| Protected(m, k, a);
    assert Protected(m', k, a);
  }

  lemma OccupiedSomeReserves(m: Sets, m': Sets, a: Addr)
    requires ValidSets(m) && ValidSets(m') && a.Valid() && HostRoute(a).Valid()
    requires OccupiedSome(m, m', HostRoute(a)) && a.family == V6
    ensures Reserved(m', a)
  {
    hide WellFormed;
    var k :| Hit(m, k, a) && m' == m[k := m[k].(s := SetState.Occupy(m[k].g, m[k].s, Some(HostRoute(a))))];
    OccupyProtects(m, k, a);
    assert m'[k] == OccupyAt(m, HostRoute(a))[k];
    assert Protected(m', k, a);
  }

  /** A single address as a prefix. */
  function HostRoute(a: Addr): Prefix {
    Prefix(a.family, a.value, Width(a.family))
  }

  // ----- runs

  datatype Op = Occ(p: Prefix) | Rel(p: Prefix) | Take(ip: Addr) | Add(g: Geometry) {
    predicate Valid() {
      match this
      case Occ(p) => p.Valid()
      case Rel(p) => p.Valid()
      case Take(_) => true
      case Add(g) => g.Valid()
    }
  }

  ghost function Apply(m: Sets, op: Op): (Sets, seq<Prefix>)
    requires ValidSets(m) && op.Valid()
  {
    match op
    case Occ(p) => (OccupyAt(m, p), [])
    case Rel(p) => (ReleaseAt(m, p), [])
    case Take(ip) =>
      (AllocateAt(m, ip), match TakeAt(m, ip) case Ok(Some(p)) => [p] case _ => [])
    case Add(g) => (WithSet(m, g), [])
  }

  lemma ApplyValid(m: Sets, op: Op)
    requires ValidSets(m) && op.Valid()
    ensures ValidSets(Apply(m, op).0)
  {
    hide SetState.Occupy, SetState.Release, Allocate;
    match op
    case Occ(p) => AtValid(m, p);
    case Rel(p) => AtValid(m, p);
    case Take(ip) => AllocateAtValid(m, ip);
    case Add(g) =>
  }

  /** A sequence of calls under which the keys stay disjoint. */
  ghost predicate IsRun(m: Sets, ops: seq<Op>)
    requires ValidSets(m)
    decreases |ops|
  {
    DisjointKeys(m) &&
    (ops == [] ||
     (ops[0].Valid() && (ApplyValid(m, ops[0]); IsRun(Apply(m, ops[0]).0, ops[1..]))))
  }

  /** All blocks handed out along the way. */
  ghost function HandedOut(m: Sets, ops: seq<Op>): seq<Prefix>
    requires ValidSets(m) && IsRun(m, ops)
    decreases |ops|
  {
    if ops == [] then []
    else
      ApplyValid(m, ops[0]);
      Apply(m, ops[0]).1 + HandedOut(Apply(m, ops[0]).0, ops[1..])
  }

  /** The block around an address is in use in the set that contains the address. */
  ghost predicate Protected(m: Sets, k: Prefix, a: Addr)
    requires ValidSets(m)
  {
    k in m && k.Covers(a) && IndexOf(m[k].g, a) in m[k].s.used
  }

  lemma OccupyProtects(m: Sets, k: Prefix, a: Addr)
    requires ValidSets(m) && Hit(m, k, a) && !m[k].g.Wide() && a.Valid()
    ensures HostRoute(a).Valid()
    ensures var m' := OccupyAt(m, HostRoute(a));
            ValidSets(m') && Protected(m', k, a)
  {
    hide WellFormed;
    var p := HostRoute(a);
    assert p.Size() == 1;
    AtValid(m, p);
    FoundSetAccepts(m, k, p);
    ContainsIsCovers(k, a);
    BlocksPartitionCluster(m[k].g, a);
    assert p.Covers(a) && m[k].g.Block(IndexOf(m[k].g, a)).Covers(a);
    assert IndexOf(m[k].g, a) in Cover(m[k].g, p);
  }

  /** One call: the address stays protected unless a release meets its block, and no block
      around it is handed out. */
  lemma ProtectedByOne(m: Sets, op: Op, k: Prefix, a: Addr)
    requires ValidSets(m) && DisjointKeys(m) && op.Valid() && Protected(m, k, a)
    requires op.Rel? ==> !op.p.Overlaps(m[k].g.Block(IndexOf(m[k].g, a)))
    ensures ValidSets(Apply(m, op).0) && Protected(Apply(m, op).0, k, a)
    ensures Apply(m, op).0[k].g == m[k].g
    ensures forall q | q in Apply(m, op).1 :: q.Valid() && !q.Covers(a)
  {
    hide WellFormed, Allocate, DisjointKeys;
    ApplyValid(m, op);
    match op
    case Occ(p) =>
    case Rel(p) =>
      BlockInside(m[k].g, IndexOf(m[k].g, a)) by {
        BlocksPartitionCluster(m[k].g, a);
      }
    case Take(ip) => TakeMisses(m, ip, k, a);
    case Add(g) =>
  }

  lemma TakeMisses(m: Sets, ip: Addr, k: Prefix, a: Addr)
    requires ValidSets(m) && DisjointKeys(m) && Protected(m, k, a)
    ensures m[k].s.used <= AllocateAt(m, ip)[k].s.used
    ensures TakeAt(m, ip).Ok? && TakeAt(m, ip).value.Some? ==>
              TakeAt(m, ip).value.value.Valid() && !TakeAt(m, ip).value.value.Covers(a)
  {
    hide WellFormed;
    AllocateDequeues(m[k].g, m[k].s);
    if TakeAt(m, ip).Ok? && TakeAt(m, ip).value.Some? {
      var k' :| Hit(m, k', ip);
      TakenFrom(m, k', ip);
      TakenMisses(m, k', Allocate(m[k'].g, m[k'].s).1.value, k, a);
    }
  }

  /** A free block of any set lies away from a protected address. */
  lemma TakenMisses(m: Sets, k': Prefix, b: nat, k: Prefix, a: Addr)
    requires ValidSets(m) && DisjointKeys(m) && Protected(m, k, a)
    requires k' in m && b < m[k'].g.Max() && b !in m[k'].s.used
    ensures m[k'].g.Block(b).Valid() && !m[k'].g.Block(b).Covers(a)
  {
    BlockInside(m[k'].g, b);
    if m[k'].g.Block(b).Covers(a) {
      ContainsIsCovers(k, a);
      ContainsIsCovers(k', a);
      OneHit(m, k, k', a);
      BlocksPartitionCluster(m[k].g, a);
    }
  }

  /** Once an address is protected, no later allocation from any set, also one added since,
      returns a block that contains it, as long as no release meets its block. */
  lemma {:induction false} ProtectedNeverAllocated(m: Sets, ops: seq<Op>, k: Prefix, a: Addr)
    requires ValidSets(m) && IsRun(m, ops) && Protected(m, k, a)
    requires forall op | op in ops && op.Rel? && op.p.Valid() :: !op.p.Overlaps(m[k].g.Block(IndexOf(m[k].g, a)))
    ensures forall q | q in HandedOut(m, ops) :: q.Valid() && !q.Covers(a)
    decreases |ops|
  {
    hide WellFormed, Apply, Protected;
    if ops != [] {
      assert ops[0] in ops;
      ProtectedByOne(m, ops[0], k, a);
      ProtectedNeverAllocated(Apply(m, ops[0]).0, ops[1..], k, a);
    }
  }

  // ----- no block is handed out twice

  /** The sets before the n-th call of a run. */
  ghost function StateAt(m: Sets, ops: seq<Op>, n: nat): (m': Sets)
    requires ValidSets(m) && IsRun(m, ops) && n <= |ops|
    ensures ValidSets(m') && IsRun(m', ops[n..])
    decreases n
  {
    if n == 0 then m
    else
      ApplyValid(m, ops[0]);
      assert ops[n..] == ops[1..][n - 1..];
      StateAt(Apply(m, ops[0]).0, ops[1..], n - 1)
  }

  /** What the n-th call of a run hands out. */
  ghost function HandedAt(m: Sets, ops: seq<Op>, n: nat): seq<Prefix>
    requires ValidSets(m) && IsRun(m, ops) && n < |ops|
  {
    assert ops[n..][0] == ops[n];
    Apply(StateAt(m, ops, n), ops[n]).1
  }

  /** A protected address is in nothing that a later call hands out. */
  lemma {:induction false} ProtectedAt(m: Sets, ops: seq<Op>, n: nat, k: Prefix, a: Addr)
    requires ValidSets(m) && IsRun(m, ops) && n < |ops| && Protected(m, k, a)
    requires forall i | 0 <= i < n && ops[i].Rel? && ops[i].p.Valid() ::
               !ops[i].p.Overlaps(m[k].g.Block(IndexOf(m[k].g, a)))
    ensures forall q | q in HandedAt(m, ops, n) :: q.Valid() && !q.Covers(a)
    decreases n
  {
    hide WellFormed, Apply, Protected, DisjointKeys;
    assert ops[0].Valid();
    if n == 0 {
      HandedFirst(m, ops, k, a);
    } else {
      ProtectedByOne(m, ops[0], k, a);
      HandedLater(m, ops, n);
      ProtectedAt(Apply(m, ops[0]).0, ops[1..], n - 1, k, a);
    }
  }

  lemma HandedFirst(m: Sets, ops: seq<Op>, k: Prefix, a: Addr)
    requires ValidSets(m) && IsRun(m, ops) && ops != [] && Protected(m, k, a)
    ensures forall q | q in HandedAt(m, ops, 0) :: q.Valid() && !q.Covers(a)
  {
    hide WellFormed, DisjointKeys, Allocate;
    if ops[0].Take? {
      TakeMisses(m, ops[0].ip, k, a);
    }
  }

  lemma HandedLater(m: Sets, ops: seq<Op>, n: nat)
    requires ValidSets(m) && IsRun(m, ops) && 0 < n < |ops|
    ensures ops[0].Valid() && ValidSets(Apply(m, ops[0]).0)
    ensures HandedAt(m, ops, n) == HandedAt(Apply(m, ops[0]).0, ops[1..], n - 1)
  {
    hide Apply, WellFormed, DisjointKeys;
    ApplyValid(m, ops[0]);
  }

  /** Over every run, a block handed out shares no address with a block handed out before it,
      unless a release that meets the earlier one came between. */
  lemma {:induction false} NeverHandedOutTwice(m: Sets, ops: seq<Op>, i: nat, j: nat, p: Prefix, q: Prefix)
    requires ValidSets(m) && IsRun(m, ops) && i < j < |ops|
    requires p in HandedAt(m, ops, i) && q in HandedAt(m, ops, j) && p.Valid()
    requires forall n | i < n < j && ops[n].Rel? && ops[n].p.Valid() :: !ops[n].p.Overlaps(p)
    ensures q.Valid() && !p.Overlaps(q)
    decreases i
  {
    hide WellFormed, Apply, DisjointKeys;
    HandedLater(m, ops, j);
    var m1 := Apply(m, ops[0]).0;
    if i > 0 {
      HandedLater(m, ops, i);
      NeverHandedOutTwice(m1, ops[1..], i - 1, j - 1, p, q);
    } else {
      var k, b := HandedProtects(m, ops[0], p);
      forall a: Addr | p.Covers(a)
        ensures q.Valid() && !q.Covers(a)
      {
        BlockProtects(m1, k, b, a);
        ProtectedAt(m1, ops[1..], j - 1, k, a);
      }
      assert p.Covers(p.First());
      OverlapsMeaning(p, q);
    }
  }

  /** A block just handed out is in use in its set. */
  lemma HandedProtects(m: Sets, op: Op, p: Prefix) returns (k: Prefix, b: nat)
    requires ValidSets(m) && DisjointKeys(m) && op.Valid() && p in Apply(m, op).1
    ensures ValidSets(Apply(m, op).0) && IsBlock(Apply(m, op).0, k, b, p) && b in Apply(m, op).0[k].s.used
  {
    hide WellFormed;
    ApplyValid(m, op);
    k :| Hit(m, k, op.ip);
    TakenFrom(m, k, op.ip);
    b := Allocate(m[k].g, m[k].s).1.value;
  }

  lemma BlockProtects(m: Sets, k: Prefix, b: nat, a: Addr)
    requires ValidSets(m) && k in m && b < m[k].g.Max() && b in m[k].s.used
    requires m[k].g.Block(b).len <= Width(m[k].g.Block(b).family) && m[k].g.Block(b).Covers(a)
    ensures Protected(m, k, a) && m[k].g.Block(IndexOf(m[k].g, a)) == m[k].g.Block(b)
  {
    BlockInside(m[k].g, b);
    BlocksPartitionCluster(m[k].g, a);
  }

  // ----- a node's own addresses

  /** After the node's addresses were reserved, no block of a reservation contains one. */
  lemma OwnAddressNeverGiven(m: Sets, addrs: seq<Addr>, ips: seq<Addr>)
    requires ValidSets(m) && DisjointKeys(m) && NodeReserved(m, addrs)
    ensures NoneCovers(ReserveAll(m, ips).1, addrs)
  {
    hide WellFormed, ReserveAll, NodeAddress;
    var got := ReserveAll(m, ips).1;
    ReserveMarksGiven(m, ips);
    BlocksValid(m, got);
    forall o, a | o in got && o.Some? && a in addrs && NodeAddress(a)
      ensures o.value.Valid() && !o.value.Covers(a)
    {
      var k, b: nat :| IsBlock(m, k, b, o.value);
      assert b in Given(m[k].g, got);
      if o.value.Covers(a) {
        BlockInside(m[k].g, b);
        ContainsIsCovers(k, a);
        assert Hit(m, k, a);
        var k' :| Protected(m, k', a);
        TakenMisses(m, k, b, k', a);
      }
    }
  }

  /** No block of the list contains a public IPv6 address of the node. */
  ghost predicate NoneCovers(got: seq<Option<Prefix>>, addrs: seq<Addr>) {
    forall o, a | o in got && o.Some? && a in addrs && NodeAddress(a) :: o.value.Valid() && !o.value.Covers(a)
  }
}
