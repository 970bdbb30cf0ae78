/** What the steps of the range allocator's workers and handlers lead to: a node's pod CIDRs get
    marked, a deletion frees its blocks, a reservation is completed, kept or given back. */
module RangeEffects {
  import opened Common
  import opened Prefixes
  import opened Geometry
  import opened SetState
  import opened RangeSpec
  import opened RangeProtocol

  lemma Extend(env: Env, gs: seq<Geometry>, s: Sys, run: seq<Event>, ev: Event)
    requires IsRun(env, gs, s, run) && Enabled(env, gs, After(env, gs, s, run), ev)
    ensures IsRun(env, gs, s, run + [ev]) && After(env, gs, s, run + [ev]) == Next(gs, After(env, gs, s, run), ev)
  {
    hide Next, Enabled;
    assert (run + [ev])[..|run|] == run;
  }

  // ----- releasing

  /** Where a release ends: a delete handler stops at the first bad pod CIDR, the return of a
      reservation goes through all that have a set. */
  function ReleaseEnd(gs: seq<Geometry>, pods: seq<Prefix>, idx: nat, stop: bool): (n: nat)
    requires Config(gs) && ValidPods(pods) && idx <= |pods|
    ensures n <= |pods|
  {
    if stop then GoodPrefix(gs, pods, idx) else if |pods| <= |gs| then |pods| else |gs|
  }

  /** The pod CIDRs from idx up to n were released, each in the set of its position. */
  ghost predicate ReleasedFrom(gs: seq<Geometry>, before: seq<State>, after: seq<State>, pods: seq<Prefix>, idx: nat,
                               n: nat)
    requires Config(gs) && ValidPods(pods) && n <= |pods|
  {
    && |before| == |after| == |gs|
    && forall i: nat | i < |gs| ::
         after[i] == if idx <= i < n then SetState.Release(gs[i], before[i], Some(pods[i])) else before[i]
  }

  /** A releasing process, run to its end. */
  lemma {:induction false} ReleaseRun(env: Env, gs: seq<Geometry>, s: Sys, run: seq<Event>, pid: nat)
    returns (run': seq<Event>)
    requires IsRun(env, gs, s, run)
    requires var t := After(env, gs, s, run);
             pid in t.procs && t.procs[pid].Releasing? && t.procs[pid].idx <= |t.procs[pid].pods|
    ensures IsRun(env, gs, s, run')
    ensures var t, t' := After(env, gs, s, run), After(env, gs, s, run');
            var Releasing(pods, idx, stop) := t.procs[pid];
            && t'.server == t.server && t'.procs == t.procs - {pid}
            && ReleasedFrom(gs, t.sets, t'.sets, pods, idx, ReleaseEnd(gs, pods, idx, stop))
    decreases var p := After(env, gs, s, run).procs[pid]; |p.pods| - p.idx
  {
    hide WellFormed, Indices, Cover, IsRun, After, SetState.Release;
    var t := After(env, gs, s, run);
    var Releasing(pods, idx, stop) := t.procs[pid];
    Extend(env, gs, s, run, ReleaseOne(pid));
    run' := run + [ReleaseOne(pid)];
    var t1 := After(env, gs, s, run');
    if idx < |pods| && idx < |gs| && !(Bad(gs, pods, idx) && stop) {
      run' := ReleaseRun(env, gs, s, run', pid);
      assert After(env, gs, s, run').procs == t.procs - {pid};
    } else if idx < |pods| && idx < |gs| {
      BadIsNothing(gs[idx], t.sets[idx], pods[idx]);
    }
  }

  /** A refused release changes nothing. */
  lemma BadIsNothing(g: Geometry, st: State, p: Prefix)
    requires g.Valid() && p.Valid() && Indices(g, Some(p)).Err?
    ensures SetState.Release(g, st, Some(p)) == st
  {
  }

  // ----- deleting a node

  /** A deletion hands exactly the node's blocks to the process that will release them. */
  lemma DeleteMovesOwnership(gs: seq<Geometry>, ranges: seq<Prefix>, s: Sys, name: Name, pid: nat, i: nat, b: nat)
    requires ValidSys(gs, s) && ValidPods(ranges) && name in s.server && pid !in s.procs
    ensures var s' := Next(gs, s, DeleteNode(name, pid));
            && ValidSys(gs, s') && s'.sets == s.sets && s'.server == s.server - {name}
            && (Owns(gs, ranges, s', Proc(pid), i, b) <==> Owns(gs, ranges, s, Node(name), i, b))
  {
    hide WellFormed, Cover, RangeMarks;
    NextValid(gs, s, DeleteNode(name, pid));
  }

  /** What a node's pod CIDRs leave in use once they are freed. */
  function FreedUsed(gs: seq<Geometry>, used: set<nat>, pods: seq<Prefix>, i: nat): set<nat>
    requires Config(gs) && ValidPods(pods) && i < |gs|
  {
    if i < |pods| then used - Cover(gs[i], pods[i]) else used
  }

  /** A deleted node, after its handler has run: exactly the blocks of its pod CIDRs are freed, up to
      the first one that its set refuses, which only a set of 2^32 blocks does; the handler is gone,
      and every other owner has what it had. */
  lemma DeleteFrees(env: Env, gs: seq<Geometry>, ranges: seq<Prefix>, s: Sys, run: seq<Event>, name: Name, pid: nat)
    returns (run': seq<Event>)
    requires IsRun(env, gs, s, run) && ValidPods(ranges)
    requires var t := After(env, gs, s, run); Inv(gs, ranges, t) && name in t.server && pid !in t.procs
    ensures IsRun(env, gs, s, run')
    ensures var t, t' := After(env, gs, s, run), After(env, gs, s, run');
            var pods := t.server[name];
            var n := GoodPrefix(gs, pods, 0);
            && t'.server == t.server - {name} && t'.procs == t.procs
            && (forall i: nat | i < |gs| ::
                  && t'.sets[i].next == t.sets[i].next
                  && t'.sets[i].used == if i < n then FreedUsed(gs, t.sets[i].used, pods, i) else t.sets[i].used)
            && ((forall i: nat | i < |gs| :: !gs[i].Wide()) ==> n == |pods|)
            && (forall o, i: nat, b: nat | o != Node(name) && Owns(gs, ranges, t, o, i, b) ::
                  Owns(gs, ranges, t', o, i, b) && b in t'.sets[i].used)
  {
    hide WellFormed, Indices, Cover, IsRun, After, RangeMarks, Inv;
    var t := After(env, gs, s, run);
    var pods := t.server[name];
    Extend(env, gs, s, run, DeleteNode(name, pid));
    run' := ReleaseRun(env, gs, s, run + [DeleteNode(name, pid)], pid);
    var t' := After(env, gs, s, run');
    assert t'.procs == t.procs;
    var n := GoodPrefix(gs, pods, 0);
    forall i: nat | i < |gs|
      ensures t'.sets[i].next == t.sets[i].next
      ensures t'.sets[i].used == if i < n then FreedUsed(gs, t.sets[i].used, pods, i) else t.sets[i].used
    {
      if i < n {
        assert !Bad(gs, pods, i);
      }
    }
    if forall i: nat | i < |gs| :: !gs[i].Wide() {
      NoneBad(gs, pods);
    }
    OthersKeep(gs, ranges, t, t', name);
  }

  /** A pod CIDR that meets its cluster CIDR is refused by a set of 2^32 blocks only. */
  lemma NoneBad(gs: seq<Geometry>, pods: seq<Prefix>)
    requires Config(gs) && Fits(gs, pods) && forall i: nat | i < |gs| :: !gs[i].Wide()
    ensures GoodPrefix(gs, pods, 0) == |pods|
  {
    hide Indices, Cover;
    forall i: nat | i < |pods|
      ensures !Bad(gs, pods, i)
    {
      IndicesExact(gs[i], Some(pods[i]));
    }
  }

  lemma OthersKeep(gs: seq<Geometry>, ranges: seq<Prefix>, t: Sys, t': Sys, name: Name)
    requires ValidSys(gs, t) && ValidSys(gs, t') && ValidPods(ranges) && Inv(gs, ranges, t) && name in t.server
    requires t'.server == t.server - {name} && t'.procs == t.procs
    requires forall i: nat | i < |gs| :: FreedUsed(gs, t.sets[i].used, t.server[name], i) <= t'.sets[i].used
    ensures forall o, i: nat, b: nat | o != Node(name) && Owns(gs, ranges, t, o, i, b) ::
              Owns(gs, ranges, t', o, i, b) && b in t'.sets[i].used
  {
    hide WellFormed, Cover, RangeMarks, Indices;
    forall o, i: nat, b: nat | o != Node(name) && Owns(gs, ranges, t, o, i, b)
      ensures Owns(gs, ranges, t', o, i, b) && b in t'.sets[i].used
    {
      OwnsFrame(gs, ranges, t', t, o, i, b);
      OwnedIsUsed(gs, ranges, t, o, i, b);
      if i < |t.server[name]| && b in Cover(gs[i], t.server[name][i]) {
        SoleOwner(gs, ranges, t, o, Node(name), i, b);
      }
    }
  }

  // ----- a node that has pod CIDRs

  /** The pod CIDRs from idx up to n were occupied, each in the set of its position. */
  ghost predicate OccupiedFrom(gs: seq<Geometry>, before: seq<State>, after: seq<State>, pods: seq<Prefix>, idx: nat,
                               n: nat)
    requires Config(gs) && ValidPods(pods) && n <= |pods|
  {
    && |before| == |after| == |gs|
    && forall i: nat | i < |gs| ::
         after[i] == if idx <= i < n then SetState.Occupy(gs[i], before[i], Some(pods[i])) else before[i]
  }

  lemma {:induction false} OccupyRun(env: Env, gs: seq<Geometry>, s: Sys, run: seq<Event>, pid: nat)
    returns (run': seq<Event>)
    requires IsRun(env, gs, s, run)
    requires var t := After(env, gs, s, run);
             pid in t.procs && t.procs[pid].Occupying? && t.procs[pid].idx <= |t.procs[pid].pods|
    ensures IsRun(env, gs, s, run')
    ensures var t, t' := After(env, gs, s, run), After(env, gs, s, run');
            var Occupying(pods, idx) := t.procs[pid];
            && t'.server == t.server && t'.procs == t.procs - {pid}
            && OccupiedFrom(gs, t.sets, t'.sets, pods, idx, GoodPrefix(gs, pods, idx))
    decreases var p := After(env, gs, s, run).procs[pid]; |p.pods| - p.idx
  {
    hide WellFormed, Indices, Cover, IsRun, After, SetState.Occupy;
    var t := After(env, gs, s, run);
    var Occupying(pods, idx) := t.procs[pid];
    Extend(env, gs, s, run, OccupyOne(pid));
    run' := run + [OccupyOne(pid)];
    if idx < |pods| && !Bad(gs, pods, idx) {
      run' := OccupyRun(env, gs, s, run', pid);
      assert After(env, gs, s, run').procs == t.procs - {pid};
    }
  }

  /** A worker that reads a node with pod CIDRs marks them, each in the set of its position, up to the
      first one that is refused; nothing else changes. */
  lemma SyncMarks(env: Env, gs: seq<Geometry>, s: Sys, run: seq<Event>, pid: nat, name: Name, seen: seq<Prefix>)
    returns (run': seq<Event>)
    requires IsRun(env, gs, s, run) && ValidPods(seen) && seen != []
    requires pid !in After(env, gs, s, run).procs
    ensures IsRun(env, gs, s, run')
    ensures var t, t' := After(env, gs, s, run), After(env, gs, s, run');
            var n := GoodPrefix(gs, seen, 0);
            && t'.server == t.server && t'.procs == t.procs
            && forall i: nat | i < |gs| ::
                 t'.sets[i].used == t.sets[i].used + (if i < n then Cover(gs[i], seen[i]) else {})
  {
    hide WellFormed, Indices, Cover, IsRun, After;
    var t := After(env, gs, s, run);
    Extend(env, gs, s, run, Sync(pid, name, seen));
    run' := OccupyRun(env, gs, s, run + [Sync(pid, name, seen)], pid);
    var t' := After(env, gs, s, run');
    assert t'.procs == t.procs;
    var n := GoodPrefix(gs, seen, 0);
    forall i: nat | i < |gs|
      ensures t'.sets[i].used == t.sets[i].used + (if i < n then Cover(gs[i], seen[i]) else {})
    {
      if i < n {
        assert !Bad(gs, seen, i);
      }
    }
  }

  // ----- a node without pod CIDRs

  /** A worker takes one block from each set. If all have one, it holds the complete list; else it
      ends at the first exhausted set, and what it took stays in use. */
  lemma {:induction false} ReserveRun(env: Env, gs: seq<Geometry>, s: Sys, run: seq<Event>, pid: nat, base: Sys)
    returns (run': seq<Event>)
    requires IsRun(env, gs, s, run) && ValidSys(gs, base)
    requires var t := After(env, gs, s, run);
             && pid in t.procs && t.procs[pid].Reserving? && t.server == base.server
             && ReservedUpTo(gs, base.sets, t.sets, t.procs[pid].got, |t.procs[pid].got|)
             && |t.procs[pid].got| <= Reservable(gs, base.sets, 0)
    ensures IsRun(env, gs, s, run')
    ensures var t, t' := After(env, gs, s, run), After(env, gs, s, run');
            var k := Reservable(gs, base.sets, 0);
            exists got ::
              && t'.server == t.server && ReservedUpTo(gs, base.sets, t'.sets, got, k)
              && t'.procs == if k == |gs| then t.procs[pid := Reserving(t.procs[pid].name, got)] else t.procs - {pid}
    decreases |gs| - |After(env, gs, s, run).procs[pid].got|
  {
    hide WellFormed, Indices, Cover, IsRun, After, Allocate;
    var t := After(env, gs, s, run);
    var Reserving(name, got) := t.procs[pid];
    var k := Reservable(gs, base.sets, 0);
    run' := run;
    if |got| == |gs| {
      assert t.procs == t.procs[pid := Reserving(name, got)];
    } else {
      Extend(env, gs, s, run, ReserveOne(pid));
      run' := run + [ReserveOne(pid)];
      var t1 := After(env, gs, s, run');
      assert t.sets[|got|] == base.sets[|got|];
      if |got| < k {
        run' := ReserveRun(env, gs, s, run', pid, base);
        var got' :| && After(env, gs, s, run').server == t1.server
                    && ReservedUpTo(gs, base.sets, After(env, gs, s, run').sets, got', k)
                    && After(env, gs, s, run').procs ==
                       if k == |gs| then t1.procs[pid := Reserving(name, got')] else t1.procs - {pid};
        assert t1.procs[pid := Reserving(name, got')] == t.procs[pid := Reserving(name, got')];
        assert t1.procs - {pid} == t.procs - {pid};
      }
    }
  }

  /** The decision on the node that is read again. Gone: the worker ends and keeps the blocks in use.
      The same list: it ends. Another list: the blocks are given back. None: the node is patched. */
  lemma DecisionMeans(gs: seq<Geometry>, s: Sys, pid: nat, cached: Option<seq<Prefix>>)
    requires ValidSys(gs, s) && pid in s.procs && s.procs[pid].Reserving? && |s.procs[pid].got| == |gs|
    ensures var s', p := Next(gs, s, Decide(pid, cached)), s.procs[pid];
            && s'.sets == s.sets && s'.server == s.server && s'.procs - {pid} == s.procs - {pid}
            && (cached.None? || cached == Some(p.got) ==> pid !in s'.procs)
            && (cached.Some? && cached.value != p.got ==>
                  pid in s'.procs &&
                  s'.procs[pid] == if cached.value != [] then Releasing(p.got, 0, false) else Patching(p.name, p.got, 0))
  {
    hide WellFormed;
  }
}
