/** Where the range allocator's safety ends. An applied patch reported as an error, and a node
    served with a deletion timestamp, each lead to two nodes with the same pod CIDR; without
    them no run does. */
module ProtocolLimits {
  import opened Common
  import opened Prefixes
  import opened Geometry
  import opened SetState
  import opened RangeSpec
  import opened RangeProtocol

  /** A set that holds a single block. */
  predicate OneBlock(g: Geometry) {
    g.Valid() && !g.Wide() && g.Max() == 1
  }

  const FREE := State({}, 0)
  const TAKEN := State({0}, 0)

  lemma SingleBlock(g: Geometry)
    requires OneBlock(g)
    ensures g.Block(0).Valid() && Cover(g, g.Block(0)) == {0} && g.cluster.Overlaps(g.Block(0))
    ensures Indices(g, Some(g.Block(0))).Ok?
    ensures WellFormed(g, FREE) && WellFormed(g, TAKEN)
    ensures Allocate(g, FREE) == (TAKEN, Some(0))
    ensures SetState.Release(g, TAKEN, Some(g.Block(0))) == FREE
  {
    hide Indices, Cover, Allocate, SetState.Release;
    CoverOfBlock(g, 0);
    BlockInside(g, 0);
    CursorStep(0, 1);
    AllocateFirstFree(g, FREE, 0);
    ReleaseBlock(g, TAKEN, 0);
    IndicesExact(g, Some(g.Block(0)));
  }

  function Start(): Sys {
    Sys([FREE], map["a" := [], "b" := []], map[])
  }

  lemma StartIsInit(g: Geometry)
    requires OneBlock(g)
    ensures Init([g], [], [], Start())
  {
    hide Indices, Cover, Allocate, SetState.Release, SetState.Occupy;
    SingleBlock(g);
  }

  /** One step from the end of a run. */
  ghost predicate StepsTo(env: Env, gs: seq<Geometry>, s: Sys, ev: Event, s': Sys) {
    ValidSys(gs, s) && Enabled(env, gs, s, ev) && Next(gs, s, ev) == s'
  }

  lemma Extend(env: Env, gs: seq<Geometry>, s: Sys, run: seq<Event>, ev: Event, s': Sys)
    requires IsRun(env, gs, s, run) && StepsTo(env, gs, After(env, gs, s, run), ev, s')
    ensures IsRun(env, gs, s, run + [ev]) && After(env, gs, s, run + [ev]) == s'
  {
    assert (run + [ev])[..|run|] == run;
  }

  lemma ReserveStep(g: Geometry, env: Env, s: Sys, pid: nat, name: Name)
    requires OneBlock(g) && ValidSys([g], s) && s.sets == [FREE]
    requires pid in s.procs && s.procs[pid] == Reserving(name, [])
    ensures StepsTo(env, [g], s, ReserveOne(pid), Sys([TAKEN], s.server, s.procs[pid := Reserving(name, [g.Block(0)])]))
  {
    hide Allocate, Indices, Cover, WellFormed;
    SingleBlock(g);
    assert [] + [g.Block(0)] == [g.Block(0)];
  }

  lemma DecideStep(g: Geometry, env: Env, s: Sys, pid: nat, name: Name)
    requires OneBlock(g) && ValidSys([g], s)
    requires pid in s.procs && s.procs[pid] == Reserving(name, [g.Block(0)])
    ensures StepsTo(env, [g], s, Decide(pid, Some([])), Put(s, pid, Patching(name, [g.Block(0)], 0)))
  {
  }

  lemma PatchErrStep(g: Geometry, env: Env, s: Sys, pid: nat, p: Process, e: PatchError)
    requires OneBlock(g) && ValidSys([g], s) && pid in s.procs && s.procs[pid] == p && p.Patching? && p.tries <= 2
    ensures StepsTo(env, [g], s, PatchErr(pid, e),
                    Put(s, pid, if p.tries < 2 then p.(tries := p.tries + 1) else Releasing(p.got, 0, false)))
  {
  }

  /** A worker that syncs a node without pod CIDRs while the block is free holds it soon after. */
  lemma ReserveFlow(g: Geometry, env: Env, s: Sys, run: seq<Event>, pid: nat, name: Name) returns (run': seq<Event>)
    requires OneBlock(g) && IsRun(env, [g], s, run)
    requires var m := After(env, [g], s, run); m.sets == [FREE] && pid !in m.procs
    ensures IsRun(env, [g], s, run')
    ensures var m := After(env, [g], s, run);
            After(env, [g], s, run') == Sys([TAKEN], m.server, m.procs[pid := Patching(name, [g.Block(0)], 0)])
  {
    hide Next, Enabled, WellFormed;
    var gs, m := [g], After(env, [g], s, run);
    var m1 := Put(m, pid, Reserving(name, []));
    SyncStep(g, env, m, pid, name);
    Extend(env, gs, s, run, Sync(pid, name, []), m1);
    var r1 := run + [Sync(pid, name, [])];
    ReserveStep(g, env, m1, pid, name);
    var m2 := Sys([TAKEN], m1.server, m1.procs[pid := Reserving(name, [g.Block(0)])]);
    Extend(env, gs, s, r1, ReserveOne(pid), m2);
    var r2 := r1 + [ReserveOne(pid)];
    DecideStep(g, env, m2, pid, name);
    run' := r2 + [Decide(pid, Some([]))];
    Extend(env, gs, s, r2, Decide(pid, Some([])), Put(m2, pid, Patching(name, [g.Block(0)], 0)));
  }

  lemma PatchLostStep(g: Geometry, env: Env, s: Sys, pid: nat, p: Process, e: PatchError)
    requires OneBlock(g) && ValidSys([g], s) && pid in s.procs && s.procs[pid] == p && p.Patching? && p.tries == 0
    requires env.lostAcks && ServerAccepts(s, p.name, p.got)
    ensures StepsTo(env, [g], s, PatchLost(pid, e),
                    Sys(s.sets, s.server[p.name := p.got], s.procs[pid := p.(tries := 1)]))
  {
  }

  lemma PatchOkStep(g: Geometry, env: Env, s: Sys, procs: map<nat, Process>, pid: nat, p: Process)
    requires OneBlock(g) && ValidSys([g], s) && pid !in procs && s.procs == procs[pid := p] && p.Patching?
    requires ServerAccepts(s, p.name, p.got)
    ensures StepsTo(env, [g], s, PatchOk(pid), Sys(s.sets, s.server[p.name := p.got], procs))
  {
    assert s.procs - {pid} == procs;
  }

  lemma SyncDeletingStep(g: Geometry, env: Env, s: Sys, pid: nat, name: Name)
    requires ValidSys([g], s) && env.finalizers && pid !in s.procs && name in s.server
    ensures StepsTo(env, [g], s, SyncDeleting(pid, name), Put(s, pid, Releasing(s.server[name], 0, true)))
  {
  }

  lemma SyncStep(g: Geometry, env: Env, s: Sys, pid: nat, name: Name)
    requires ValidSys([g], s) && pid !in s.procs
    ensures StepsTo(env, [g], s, Sync(pid, name, []), Put(s, pid, Reserving(name, [])))
  {
  }

  /** ... and a patch that is acknowledged makes the node its owner. */
  lemma AssignFlow(g: Geometry, env: Env, s: Sys, run: seq<Event>, pid: nat, name: Name) returns (run': seq<Event>)
    requires OneBlock(g) && IsRun(env, [g], s, run)
    requires var m := After(env, [g], s, run);
             m.sets == [FREE] && pid !in m.procs && name in m.server && m.server[name] == []
    ensures IsRun(env, [g], s, run')
    ensures var m := After(env, [g], s, run);
            After(env, [g], s, run') == Sys([TAKEN], m.server[name := [g.Block(0)]], m.procs)
  {
    hide Next, Enabled, WellFormed;
    var m := After(env, [g], s, run);
    var r := ReserveFlow(g, env, s, run, pid, name);
    run' := r + [PatchOk(pid)];
    PatchOkStep(g, env, After(env, [g], s, r), m.procs, pid, Patching(name, [g.Block(0)], 0));
    Extend(env, [g], s, r, PatchOk(pid), Sys([TAKEN], m.server[name := [g.Block(0)]], m.procs));
  }

  /** A release of the block by a process at its first position. */
  lemma ReleaseFlow(g: Geometry, env: Env, s: Sys, run: seq<Event>, pid: nat, stop: bool) returns (run': seq<Event>)
    requires OneBlock(g) && IsRun(env, [g], s, run)
    requires var m := After(env, [g], s, run);
             m.sets == [TAKEN] && pid in m.procs && m.procs[pid] == Releasing([g.Block(0)], 0, stop)
    ensures IsRun(env, [g], s, run')
    ensures var m := After(env, [g], s, run);
            After(env, [g], s, run') ==
            Sys([FREE], m.server, m.procs[pid := Releasing([g.Block(0)], 1, stop)])
  {
    hide Allocate, Cover, SetState.Release, Indices, WellFormed;
    SingleBlock(g);
    var m := After(env, [g], s, run);
    run' := run + [ReleaseOne(pid)];
    Extend(env, [g], s, run, ReleaseOne(pid), Put(SetAt(m, 0, FREE), pid, Releasing([g.Block(0)], 1, stop)));
  }

  lemma BothOwnIt(g: Geometry, s: Sys)
    requires OneBlock(g) && ValidSys([g], s) && "a" in s.server && "b" in s.server
    requires s.server["a"] == [g.Block(0)] && s.server["b"] == [g.Block(0)]
    ensures !Safe([g], [], s)
  {
    SingleBlock(g);
    var x := g.Block(0).First();
    assert s.server["a"][0].Covers(x) && s.server["b"][0].Covers(x);
  }

  /** The first of three patch attempts is applied but reported as a server timeout, and so are
      the two that follow: the worker goes on to release the block although node "a" has it. */
  lemma LostAckFlow(g: Geometry, env: Env) returns (run: seq<Event>)
    requires OneBlock(g) && env.lostAcks
    ensures IsRun(env, [g], Start(), run)
    ensures After(env, [g], Start(), run) ==
            Sys([TAKEN], Start().server["a" := [g.Block(0)]], map[1 := Releasing([g.Block(0)], 0, false)])
  {
    hide Next, Enabled, WellFormed;
    StartIsInit(g);
    var gs, s, p := [g], Start(), Patching("a", [g.Block(0)], 0);
    var r0 := ReserveFlow(g, env, s, [], 1, "a");
    var m0 := Sys([TAKEN], s.server, map[1 := p]);
    var m1 := Sys([TAKEN], s.server["a" := [g.Block(0)]], map[1 := p.(tries := 1)]);
    PatchLostStep(g, env, m0, 1, p, ServerTimeout);
    Extend(env, gs, s, r0, PatchLost(1, ServerTimeout), m1);
    var r1 := r0 + [PatchLost(1, ServerTimeout)];
    var r2 := FailedPatch(g, env, s, r1, 1, p.(tries := 1));
    run := FailedPatch(g, env, s, r2, 1, p.(tries := 2));
  }

  /** A patch attempt that fails without effect. */
  lemma FailedPatch(g: Geometry, env: Env, s: Sys, run: seq<Event>, pid: nat, p: Process) returns (run': seq<Event>)
    requires OneBlock(g) && IsRun(env, [g], s, run)
    requires var m := After(env, [g], s, run); pid in m.procs && m.procs[pid] == p && p.Patching? && p.tries <= 2
    ensures IsRun(env, [g], s, run')
    ensures After(env, [g], s, run') ==
            Put(After(env, [g], s, run), pid,
                if p.tries < 2 then p.(tries := p.tries + 1) else Releasing(p.got, 0, false))
  {
    hide Next, Enabled, WellFormed;
    var m := After(env, [g], s, run);
    PatchErrStep(g, env, m, pid, p, ServerTimeout);
    run' := run + [PatchErr(pid, ServerTimeout)];
    Extend(env, [g], s, run, PatchErr(pid, ServerTimeout),
           Put(m, pid, if p.tries < 2 then p.(tries := p.tries + 1) else Releasing(p.got, 0, false)));
  }

  /** ... and node "b" is given the same block. */
  lemma LostAckRun(g: Geometry, env: Env) returns (run: seq<Event>)
    requires OneBlock(g) && env.lostAcks
    ensures IsRun(env, [g], Start(), run)
    ensures !Safe([g], [], After(env, [g], Start(), run))
  {
    hide Next, Enabled, WellFormed, Safe;
    var r0 := LostAckFlow(g, env);
    var r1 := ReleaseFlow(g, env, Start(), r0, 1, false);
    run := AssignFlow(g, env, Start(), r1, 2, "b");
    BothOwnIt(g, After(env, [g], Start(), run));
  }

  /** A node under deletion is released while the server still has it. */
  lemma FinalizerRun(g: Geometry, env: Env) returns (run: seq<Event>)
    requires OneBlock(g) && env.finalizers
    ensures IsRun(env, [g], Start(), run)
    ensures !Safe([g], [], After(env, [g], Start(), run))
  {
    hide Next, Enabled, WellFormed, Safe;
    StartIsInit(g);
    var gs, s := [g], Start();
    var r0 := AssignFlow(g, env, s, [], 1, "a");
    var server := s.server["a" := [g.Block(0)]];
    SyncDeletingStep(g, env, After(env, gs, s, r0), 2, "a");
    Extend(env, gs, s, r0, SyncDeleting(2, "a"),
           Sys([TAKEN], server, map[2 := Releasing([g.Block(0)], 0, true)]));
    var r1 := ReleaseFlow(g, env, s, r0 + [SyncDeleting(2, "a")], 2, true);
    run := AssignFlow(g, env, s, r1, 3, "b");
    BothOwnIt(g, After(env, gs, s, run));
  }

  ghost predicate AllRunsSafe(env: Env) {
    forall gs, ranges, nodes, s, run |
      Init(gs, ranges, nodes, s) && IsRun(env, gs, s, run) :: Safe(gs, ranges, After(env, gs, s, run))
  }

  /** Every run from every start of every configuration is safe if and only if the environment
      neither loses acknowledgements nor serves nodes under deletion. */
  lemma SafeExactly(env: Env)
    ensures AllRunsSafe(env) <==> !env.lostAcks && !env.finalizers
  {
    if !env.lostAcks && !env.finalizers {
      forall gs, ranges, nodes, s, run | Init(gs, ranges, nodes, s) && IsRun(env, gs, s, run)
        ensures Safe(gs, ranges, After(env, gs, s, run))
      {
        RunsAreSafe(env, gs, ranges, nodes, s, run);
      }
    } else {
      var g := Geometry(Prefix(V4, 0, 32), 32);
      assert OneBlock(g);
      StartIsInit(g);
      if env.lostAcks {
        var run := LostAckRun(g, env);
      } else {
        var run := FinalizerRun(g, env);
      }
    }
  }
}
