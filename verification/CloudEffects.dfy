/** What the steps of the cloud allocator's workers and handlers lead to. */
module CloudEffects {
  import opened Common
  import opened Prefixes
  import opened Geometry
  import opened SetState
  import opened CloudSpec
  import opened NodeSelection
  import opened PodMarking
  import opened CloudProtocol
  import opened CloudSafety
  import opened CloudLimits
  import R = RangeSpec
  import RP = RangeProtocol

  /** The worker's control state and holdings are all that changes. */
  ghost predicate OnlyWorker(s: Sys, s': Sys, pid: nat) {
    && s'.clusters == s.clusters && s'.work - {pid} == s.work - {pid}
    && s'.hold - {Worker(pid)} == s.hold - {Worker(pid)}
  }

  ghost predicate Gone(s: Sys, pid: nat) {
    pid !in s.work && Worker(pid) !in s.hold
  }

  /** The decision on the node that is read again. Gone: the worker ends and its blocks stay in use.
      The same list: it ends. Another list: the blocks are given back. None: the node is patched. */
  lemma DecisionMeans(s: Sys, pid: nat, cached: Option<seq<Prefix>>)
    requires ValidSys(s) && pid in s.work && s.work[pid].Reserving? && s.work[pid].idx == |s.work[pid].ips|
    ensures var s', w, got := Next(s, Decide(pid, cached)), s.work[pid], s.hold[Worker(pid)];
            && OnlyWorker(s, s', pid) && s'.m == s.m
            && (cached.None? ==> Gone(s', pid))
            && (w.whole && cached == Some(got) ==> Gone(s', pid))
            && (cached.Some? && cached.value != [] && !(w.whole && cached.value == got) ==>
                  pid in s'.work && s'.work[pid] == Releasing(false) && s'.hold == s.hold)
            && (cached == Some([]) && !(w.whole && got == []) ==>
                  pid in s'.work && s'.work[pid] == Patching(w.name, w.ips, w.whole, 0) && s'.hold == s.hold)
  {
    hide WellFormed, DisjointKeys, Prefix.Valid;
  }

  /** One more cluster CIDR. No set around its address: the list is no longer whole. An exhausted one:
      the worker ends, and the blocks it took stay in use. Else it holds one more block. */
  lemma ReservationMeans(s: Sys, pid: nat, k: Prefix)
    requires ValidSys(s) && pid in s.work && s.work[pid].Reserving? && s.work[pid].idx < |s.work[pid].ips|
    ensures var s', w := Next(s, ReserveOne(pid)), s.work[pid];
            var ip := w.ips[w.idx];
            && OnlyWorker(s, s', pid)
            && ((forall k' | k' in s.m :: !Hit(s.m, k', ip)) ==>
                  s'.m == s.m && s'.hold == s.hold && pid in s'.work &&
                  s'.work[pid] == w.(idx := w.idx + 1, whole := false))
            && (Hit(s.m, k, ip) && |s.m[k].s.used| == s.m[k].g.Max() ==> s'.m == s.m && Gone(s', pid))
            && (Hit(s.m, k, ip) && |s.m[k].s.used| != s.m[k].g.Max() ==>
                  exists b: nat ::
                    && FirstFree(s.m[k].g, s.m[k].s, b)
                    && s'.m == WithState(s.m, k, Advance(s.m[k].g, s.m[k].s, b))
                    && Worker(pid) in s'.hold
                    && s'.hold[Worker(pid)] == s.hold[Worker(pid)] + [s.m[k].g.Block(b)]
                    && pid in s'.work && s'.work[pid] == w.(idx := w.idx + 1))
  {
    hide WellFormed, DisjointKeys, Prefix.Valid, Prefix.Contains, AllocateAt, TakeAt, Allocate;
    var w := s.work[pid];
    var ip := w.ips[w.idx];
    if Hit(s.m, k, ip) {
      AllocateDequeues(s.m[k].g, s.m[k].s);
      FoundIsTaken(s.m, k, ip);
      if |s.m[k].s.used| != s.m[k].g.Max() {
        var b := NextBlock(s.m[k].g, s.m[k].s);
        TakeHead(s.m, k, ip, b);
      }
    } else if forall k' | k' in s.m :: !Hit(s.m, k', ip) {
      NothingTaken(s.m, ip);
    }
  }

  lemma NextBlock(g: Geometry, s: State) returns (b: nat)
    requires g.Valid() && WellFormed(g, s) && |s.used| != g.Max()
    ensures FirstFree(g, s, b) && Allocate(g, s) == (Advance(g, s, b), Some(b))
  {
    QueueListsFree(g, s);
    HeadIsFirstFree(g, s);
    b := Queue(g, s)[0];
  }

  /** One more release. Nothing left: the worker ends. A set of 2^32 blocks refuses a longer CIDR: a
      delete handler ends, the return of a reservation goes on. Else the blocks that meet the CIDR
      are freed in the set around it. */
  lemma ReleaseMeans(s: Sys, pid: nat, k: Prefix)
    requires ValidSys(s) && pid in s.work && s.work[pid].Releasing?
    ensures var s', pods := Next(s, ReleaseOne(pid)), s.hold[Worker(pid)];
            && OnlyWorker(s, s', pid)
            && (pods == [] ==> s'.m == s.m && Gone(s', pid))
            && (pods != [] ==>
                  && pods[0].Valid()
                  && (Hit(s.m, k, pods[0].First()) && s.m[k].g.Wide() && k.len < pods[0].len ==>
                        && s'.m == s.m
                        && if s.work[pid].stop then Gone(s', pid) else GoesOn(s, s', pid))
                  && (Hit(s.m, k, pods[0].First()) && !(s.m[k].g.Wide() && k.len < pods[0].len) ==>
                        && GoesOn(s, s', pid)
                        && s'.m == WithState(s.m, k, s.m[k].s.(used := s.m[k].s.used - Cover(s.m[k].g, pods[0]))))
                  && ((forall k' | k' in s.m :: !Hit(s.m, k', pods[0].First())) ==> s'.m == s.m && GoesOn(s, s', pid)))
  {
    hide WellFormed, DisjointKeys, Prefix.Contains, Indices, Cover, ReleaseAt;
    var pods := s.hold[Worker(pid)];
    if pods != [] {
      PodValid(s, Slot(Worker(pid), 0));
      var p := pods[0];
      if Hit(s.m, k, p.First()) {
        FoundSetAccepts(s.m, k, p);
        FoundIsAt(s.m, k, p.First());
        OnlyOneRefuses(s.m, k, p);
      } else if forall k' | k' in s.m :: !Hit(s.m, k', p.First()) {
        NothingFoundIsAt(s.m, p.First());
      }
    }
  }

  ghost predicate GoesOn(s: Sys, s': Sys, pid: nat) {
    && Worker(pid) in s.hold && s.hold[Worker(pid)] != [] && Worker(pid) in s'.hold
    && s'.hold[Worker(pid)] == s.hold[Worker(pid)][1..] && s'.work == s.work
  }

  lemma OnlyOneRefuses(m: Sets, k: Prefix, p: Prefix)
    requires ValidSets(m) && DisjointKeys(m) && p.Valid() && Hit(m, k, p.First())
    ensures Refuses(m, p) <==> Indices(m[k].g, Some(p)).Err?
    ensures Indices(m[k].g, Some(p)).Err? ==> WithState(m, k, SetState.Release(m[k].g, m[k].s, Some(p))) == m
  {
    hide WellFormed, DisjointKeys, Prefix.Contains, Indices, Cover;
    forall k' | Hit(m, k', p.First())
      ensures k' == k
    {
      OneHit(m, k, k', p.First());
    }
  }

  /** A deleted node, after its handler has run: exactly the blocks that meet its pod CIDRs, each in
      the set around it, are freed; all other holders have what they had, and no block of a guarded
      set that one of them meets was freed. */
  lemma DeleteFrees(env: RP.Env, s: Sys, run: seq<Event>, name: nat, pid: nat, F: iset<Prefix>) returns (run': seq<Event>)
    requires ValidSys(s) && IsTrace(env, s, run)
    requires var t := After(env, s, run); Narrow(t.m) && Node(name) in t.hold && pid !in t.work && Guarded(t, F)
    ensures IsTrace(env, s, run')
    ensures var t, t' := After(env, s, run), After(env, s, run');
            && Freed(t.m, t'.m, t.hold[Node(name)]) && t'.clusters == t.clusters
            && t'.hold == t.hold - {Node(name)} && t'.work == t.work
            && forall x: Slot, k, b: nat | x.h != Node(name) && k in F && Needs(t, x, k, b) ::
                 k in t'.m && b in t'.m[k].s.used
  {
    hide WellFormed, DisjointKeys, IsTrace, After, FreedBy, Needs, Guarded;
    var t := After(env, s, run);
    Extend(env, s, run, DeleteNode(name, pid));
    run' := ReleaseRun(env, s, run + [DeleteNode(name, pid)], pid);
    var t' := After(env, s, run');
    assert t'.hold == t.hold - {Node(name)} && t'.work == t.work;
    forall x: Slot, k, b: nat | x.h != Node(name) && k in F && Needs(t, x, k, b)
      ensures k in t'.m && b in t'.m[k].s.used
    {
      NeedsUsed(t, F, x, k, b);
      NotFreedByNode(t, F, name, x, k, b);
    }
  }

  lemma NotFreedByNode(t: Sys, F: iset<Prefix>, name: nat, x: Slot, k: Prefix, b: nat)
    requires ValidSys(t) && Guarded(t, F) && Node(name) in t.hold && x.h != Node(name) && k in F && Needs(t, x, k, b)
    ensures !FreedBy(t.m, t.hold[Node(name)], k, b)
  {
    hide WellFormed, DisjointKeys, Cover, Prefix.Contains, Guarded;
    var pods := t.hold[Node(name)];
    forall p | p in pods && p.Valid() && Hit(t.m, k, p.First())
      ensures b !in Cover(t.m[k].g, p)
    {
      var i: nat :| i < |pods| && pods[i] == p;
      OnlyOwnRelease(t, F, x, Slot(Node(name), i), k, b);
    }
  }

  /** A worker that reads a node with a pod CIDR: on success, with disjoint keys, it is marked under the
      condition of `PodMarkedExactly`, and nobody's holdings change. */
  lemma SyncMarks(s: Sys, p: Prefix, v: NodeView, m': Sets)
    requires ValidSys(s) && p.Valid() && v.Valid() && Enabled(RP.Env(true, true), s, OccupyPod(p, v, true, m'))
    ensures var s' := Next(s, OccupyPod(p, v, true, m'));
            && ValidSets(s'.m) && s'.hold == s.hold && s'.work == s.work
            && (Marked(s'.m, p) <==> Tracks(s.m, p.First()) || NodeFills(s.m, v, p))
  {
    hide WellFormed, Marked, Tracks, NodeFills, PodOutcome;
    PodMarkedExactly(s.m, m', p, v);
  }
}
