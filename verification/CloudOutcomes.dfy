/** What the cloud allocator's operations may do for some enumeration order: each call acts on one
    set whose key contains the address, whichever comes first. */
module CloudOutcomes {
  import opened Common
  import opened Prefixes
  import opened Geometry
  import opened SetState
  import opened CloudSpec

  /** One block for an address: none if no key contains it; else some key that does hands out its next
      block, or is exhausted and nothing changes. */
  ghost predicate TakeOutcome(m: Sets, m': Sets, ip: Addr, r: Result<Option<Prefix>, Error>)
    requires ValidSets(m)
  {
    if forall k | k in m :: !Hit(m, k, ip) then r == Ok(None) && m' == m
    else exists k :: Hit(m, k, ip) && TakenAt(m, m', k, r)
  }

  ghost predicate TakenAt(m: Sets, m': Sets, k: Prefix, r: Result<Option<Prefix>, Error>)
    requires ValidSets(m) && k in m
  {
    if |m[k].s.used| == m[k].g.Max() then r.Err? && m' == m
    else
      exists b: nat ::
        && FirstFree(m[k].g, m[k].s, b) && r == Ok(Some(m[k].g.Block(b)))
        && m' == WithState(m, k, Advance(m[k].g, m[k].s, b))
  }

  /** One block for each of the first |got| addresses. */
  ghost predicate ReserveOutcome(m: Sets, m': Sets, ips: seq<Addr>, got: seq<Option<Prefix>>)
    requires ValidSets(m)
    decreases |got|
  {
    if got == [] then m' == m
    else
      var last := |got| - 1;
      && |got| <= |ips|
      && exists m1 :: ValidSets(m1) && ReserveOutcome(m, m1, ips, got[..last]) &&
                      TakeOutcome(m1, m', ips[last], Ok(got[last]))
  }

  /** Some key around the address has no free block. */
  ghost predicate Exhausted(m: Sets, ip: Addr)
    requires ValidSets(m)
  {
    exists k :: Hit(m, k, ip) && |m[k].s.used| == m[k].g.Max()
  }

  /** A release: nothing if no key contains the first address; else in some key that does, which may
      refuse it. */
  ghost predicate ReleaseOutcome(m: Sets, m': Sets, p: Prefix, ok: bool)
    requires ValidSets(m) && p.Valid()
  {
    if forall k | k in m :: !Hit(m, k, p.First()) then ok && m' == m
    else exists k :: Hit(m, k, p.First()) && ReleasedAt(m, m', k, p, ok)
  }

  ghost predicate ReleasedAt(m: Sets, m': Sets, k: Prefix, p: Prefix, ok: bool)
    requires ValidSets(m) && p.Valid() && k in m
  {
    && (ok <==> !(m[k].g.Wide() && k.len < p.len))
    && m' == if ok then WithState(m, k, m[k].s.(used := m[k].s.used - Cover(m[k].g, p))) else m
  }

  /** The CIDRs in order, up to the first missing or refused one. */
  ghost predicate ReleasesOutcome(m: Sets, m': Sets, cidrs: seq<Option<Prefix>>, ok: bool)
    requires ValidSets(m) && ValidBlocks(cidrs)
    decreases |cidrs|
  {
    if cidrs == [] then m' == m && ok
    else
      var last := |cidrs| - 1;
      assert cidrs[last] in cidrs;
      || (!ok && ReleasesOutcome(m, m', cidrs[..last], false))
      || exists m1 ::
           && ValidSets(m1) && ReleasesOutcome(m, m1, cidrs[..last], true)
           && if cidrs[last].None? then !ok && m' == m1 else ReleaseOutcome(m1, m', cidrs[last].value, ok)
  }

  /** All blocks in order, whatever is refused. */
  ghost predicate ReturnOutcome(m: Sets, m': Sets, got: seq<Option<Prefix>>)
    requires ValidSets(m) && ValidBlocks(got)
    decreases |got|
  {
    if got == [] then m' == m
    else
      var last := |got| - 1;
      assert got[last] in got;
      exists m1 ::
        && ValidSets(m1) && ReturnOutcome(m, m1, got[..last])
        && if got[last].None? then m' == m1 else exists ok :: ReleaseOutcome(m1, m', got[last].value, ok)
  }

  /** The assigned list is the proposed one, block by block. */
  predicate SameList(pods: seq<Prefix>, proposed: seq<Option<Prefix>>) {
    |pods| == |proposed| && forall i | 0 <= i < |pods| :: proposed[i] == Some(pods[i])
  }

  /** All blocks were given back, each in some set around it; with disjoint keys in the one there is. */
  ghost predicate Returned(m: Sets, m': Sets, got: seq<Option<Prefix>>)
    requires ValidSets(m) && ValidBlocks(got)
  {
    && ReturnOutcome(m, m', got) && OnlyFrees(m, m', got)
    && (DisjointKeys(m) ==> m' == ReturnAll(m, got))
  }

  /** What becomes of a proposal. The node is gone: an error, and the blocks stay. It has the same
      list: done. It has another: the blocks go back. It has none: done if a patch succeeds, else an
      error, and the blocks go back. */
  ghost predicate Assigned(m: Sets, m': Sets, got: seq<Option<Prefix>>, cached: Option<seq<Prefix>>, patched: bool,
                           ok: bool)
    requires ValidSets(m) && ValidBlocks(got)
  {
    && (cached.None? ==> !ok && m' == m)
    && (cached.Some? && SameList(cached.value, got) ==> ok && m' == m)
    && (cached.Some? && !SameList(cached.value, got) && cached.value != [] ==> ok && Returned(m, m', got))
    && (cached == Some([]) && got != [] ==> if patched then ok && m' == m else !ok && Returned(m, m', got))
  }

  // ----- how the methods meet them

  lemma NothingTakenOutcome(m: Sets, ip: Addr)
    requires ValidSets(m) && forall k | k in m :: !k.Contains(ip)
    ensures TakeOutcome(m, m, ip, Ok(None))
  {
  }

  lemma TakenOutcome(m: Sets, k: Prefix, ip: Addr, r: Result<Option<Prefix>, Error>)
    requires ValidSets(m) && Hit(m, k, ip) && (if TakeFrom(m[k]).Ok? then r == TakeFrom(m[k]) else r.Err?)
    ensures TakeOutcome(m, WithState(m, k, Allocate(m[k].g, m[k].s).0), ip, r)
  {
    hide WellFormed, Prefix.Contains;
    AllocateDequeues(m[k].g, m[k].s);
    var m' := WithState(m, k, Allocate(m[k].g, m[k].s).0);
    if TakeFrom(m[k]).Ok? {
      HeadIsFirstFree(m[k].g, m[k].s);
      var b := Queue(m[k].g, m[k].s)[0];
      FirstFreeLeaves(m[k].g, m[k].s, b);
      assert FirstFree(m[k].g, m[k].s, b) && r == Ok(Some(m[k].g.Block(b)));
    } else {
      assert m' == m;
    }
    assert TakenAt(m, m', k, r);
  }

  /** A free index means that not all are used. */
  lemma FirstFreeLeaves(g: Geometry, s: State, b: nat)
    requires g.Valid() && WellFormed(g, s) && FirstFree(g, s, b)
    ensures |s.used| != g.Max()
  {
    QueueListsFree(g, s);
    assert b in Queue(g, s);
  }

  lemma ReserveNone(m: Sets, ips: seq<Addr>)
    requires ValidSets(m)
    ensures ReserveOutcome(m, m, ips, [])
  {
  }

  lemma ReserveMore(m: Sets, m1: Sets, m2: Sets, ips: seq<Addr>, got: seq<Option<Prefix>>, o: Option<Prefix>)
    requires ValidSets(m) && ValidSets(m1) && ReserveOutcome(m, m1, ips, got) && |got| < |ips|
    requires TakeOutcome(m1, m2, ips[|got|], Ok(o))
    ensures ReserveOutcome(m, m2, ips, got + [o])
  {
    hide TakeOutcome, ValidSets;
    assert (got + [o])[..|got|] == got;
  }

  lemma TakeExhausted(m: Sets, m': Sets, ip: Addr, r: Result<Option<Prefix>, Error>)
    requires ValidSets(m) && TakeOutcome(m, m', ip, r) && r.Err?
    ensures Exhausted(m, ip) && m' == m
  {
    hide WellFormed, Prefix.Contains;
  }

  lemma NothingReleasedOutcome(m: Sets, p: Prefix)
    requires ValidSets(m) && p.Valid() && forall k | k in m :: !k.Contains(p.First())
    ensures ReleaseOutcome(m, m, p, true)
  {
  }

  lemma ReleasedOutcome(m: Sets, k: Prefix, p: Prefix, ok: bool)
    requires ValidSets(m) && p.Valid() && Hit(m, k, p.First()) && (ok <==> Indices(m[k].g, Some(p)).Ok?)
    ensures ReleaseOutcome(m, WithState(m, k, SetState.Release(m[k].g, m[k].s, Some(p))), p, ok)
  {
    hide WellFormed, Prefix.Contains, Indices, Cover;
    FoundSetAccepts(m, k, p);
    assert !ok ==> WithState(m, k, m[k].s) == m;
    assert ReleasedAt(m, WithState(m, k, SetState.Release(m[k].g, m[k].s, Some(p))), k, p, ok);
  }

  lemma ReleasesNone(m: Sets, cidrs: seq<Option<Prefix>>)
    requires ValidSets(m)
    ensures ReleasesOutcome(m, m, cidrs[..0], true) && ReturnOutcome(m, m, cidrs[..0])
  {
  }

  lemma ReleasesMore(m: Sets, m1: Sets, m2: Sets, cidrs: seq<Option<Prefix>>, i: nat, ok: bool)
    requires ValidSets(m) && ValidSets(m1) && ValidBlocks(cidrs) && i < |cidrs|
    requires ValidBlocks(cidrs[..i]) && ReleasesOutcome(m, m1, cidrs[..i], true)
    requires cidrs[i].Some? ==> cidrs[i].value.Valid()
    requires if cidrs[i].None? then !ok && m2 == m1 else ReleaseOutcome(m1, m2, cidrs[i].value, ok)
    ensures ValidBlocks(cidrs[..i + 1]) && ReleasesOutcome(m, m2, cidrs[..i + 1], ok)
  {
    hide ReleaseOutcome, ValidSets;
    assert cidrs[..i + 1][..i] == cidrs[..i];
  }

  /** A failure ends the list. */
  lemma {:induction false} ReleasesStop(m: Sets, m': Sets, cidrs: seq<Option<Prefix>>, i: nat)
    requires ValidSets(m) && ValidBlocks(cidrs) && i <= |cidrs|
    requires ValidBlocks(cidrs[..i]) && ReleasesOutcome(m, m', cidrs[..i], false)
    ensures ReleasesOutcome(m, m', cidrs, false)
    decreases |cidrs|
  {
    hide ReleaseOutcome, ValidSets;
    if i == |cidrs| {
      assert cidrs[..i] == cidrs;
    } else {
      var last := |cidrs| - 1;
      assert cidrs[..last][..i] == cidrs[..i];
      ReleasesStop(m, m', cidrs[..last], i);
    }
  }

  /** A list of one. */
  lemma ReleasesSingle(m: Sets, m': Sets, o: Option<Prefix>, ok: bool)
    requires ValidSets(m) && ValidBlocks([o]) && ReleasesOutcome(m, m', [o], ok)
    ensures if o.None? then m' == m else o.value.Valid() && ReleaseOutcome(m, m', o.value, ok)
  {
    hide ReleaseOutcome, ValidSets;
    assert [o][..0] == [] && o in [o];
    NoneReleased(m);
  }

  lemma NoneReleased(m: Sets)
    requires ValidSets(m)
    ensures forall m', ok :: ReleasesOutcome(m, m', [], ok) <==> m' == m && ok
  {
  }

  lemma ReturnMore(m: Sets, m1: Sets, m2: Sets, got: seq<Option<Prefix>>, i: nat, ok: bool)
    requires ValidSets(m) && ValidSets(m1) && ValidBlocks(got) && i < |got|
    requires ValidBlocks(got[..i]) && ReturnOutcome(m, m1, got[..i])
    requires if got[i].None? then m2 == m1 else got[i].value.Valid() && ReleaseOutcome(m1, m2, got[i].value, ok)
    ensures ValidBlocks(got[..i + 1]) && ReturnOutcome(m, m2, got[..i + 1])
  {
    hide ReleaseOutcome, ValidSets;
    assert got[..i + 1][..i] == got[..i];
  }

  /** With disjoint keys a release is the order-free one. */
  lemma ReleaseOrderFree(m: Sets, m': Sets, p: Prefix, ok: bool)
    requires ValidSets(m) && DisjointKeys(m) && p.Valid() && ReleaseOutcome(m, m', p, ok)
    ensures m' == ReleaseAt(m, p)
  {
    hide WellFormed, DisjointKeys, Indices, Cover, Prefix.Contains;
    if k :| Hit(m, k, p.First()) && ReleasedAt(m, m', k, p, ok) {
      FoundSetAccepts(m, k, p);
      FoundIsAt(m, k, p.First());
    } else {
      assert forall k | k in m :: !Hit(m, k, p.First());
      NothingFoundIsAt(m, p.First());
    }
  }
}
