/** The range allocator's workers, its delete handler and the API server as one step machine.
    A call on a CIDR set is one atomic step; everything between two such calls, and every read
    of the informer cache, may interleave with any other process. A cache read returns any
    value at all, so no assumption is made on how stale the cache is. */
module RangeProtocol {
  import opened Common
  import opened Prefixes
  import opened Geometry
  import opened SetState
  import opened RangeSpec

  type Name = string

  /** What the environment may do beyond the ordinary. */
  datatype Env = Env(
    lostAcks: bool,     // a patch may take effect although its caller sees an error
    finalizers: bool    // a node under deletion may still be served, with a deletion timestamp
  )

  /** Work in flight. A worker starts in `Occupying` or `Reserving`. */
  datatype Process =
    | Occupying(pods: seq<Prefix>, idx: nat)
    | Reserving(name: Name, got: seq<Prefix>)
    | Patching(name: Name, got: seq<Prefix>, tries: nat)
    | Releasing(pods: seq<Prefix>, idx: nat, stopOnError: bool)

  datatype Sys = Sys(sets: seq<State>, server: map<Name, seq<Prefix>>, procs: map<nat, Process>)

  datatype Event =
    | CreateNode(name: Name)
    | DeleteNode(name: Name, pid: nat)                     // pid will run the delete handler
    | Sync(pid: nat, name: Name, seen: seq<Prefix>)        // seen: the cached node's pod CIDRs
    | SyncDeleting(pid: nat, name: Name)
    | OccupyOne(pid: nat)
    | ReserveOne(pid: nat)
    | Decide(pid: nat, cached: Option<seq<Prefix>>)
    | PatchOk(pid: nat)
    | PatchErr(pid: nat, err: PatchError)
    | PatchLost(pid: nat, err: PatchError)
    | ReleaseOne(pid: nat)

  predicate ValidProcess(gs: seq<Geometry>, p: Process) {
    match p
    case Occupying(pods, _) => ValidPods(pods)
    case Reserving(_, got) => ValidPods(got) && |got| <= |gs|
    case Patching(_, got, _) => ValidPods(got) && |got| == |gs|
    case Releasing(pods, _, _) => ValidPods(pods)
  }

  /** A pod CIDR list that the allocator could have written or accepted at start-up. */
  predicate Fits(gs: seq<Geometry>, pods: seq<Prefix>)
    requires Config(gs)
  {
    ValidPods(pods) && |pods| <= |gs| && forall i | 0 <= i < |pods| :: gs[i].cluster.Overlaps(pods[i])
  }

  predicate ValidSys(gs: seq<Geometry>, s: Sys) {
    && Config(gs)
    && Sets(gs, s.sets)
    && (forall n | n in s.server :: Fits(gs, s.server[n]))
    && (forall pid | pid in s.procs :: ValidProcess(gs, s.procs[pid]))
    && (forall pid | pid in s.procs :: s.procs[pid].Patching? ==> Fits(gs, s.procs[pid].got))
    && (forall pid | pid in s.procs :: s.procs[pid].Reserving? ==> Fits(gs, s.procs[pid].got))
  }

  /** The server takes a pod CIDR list only for a node that has none, or the same one. */
  predicate ServerAccepts(s: Sys, name: Name, got: seq<Prefix>) {
    name in s.server && (s.server[name] == [] || s.server[name] == got)
  }

  predicate Enabled(env: Env, gs: seq<Geometry>, s: Sys, ev: Event)
    requires ValidSys(gs, s)
  {
    match ev
    case CreateNode(name) => name !in s.server
    case DeleteNode(name, pid) => name in s.server && pid !in s.procs
    case Sync(pid, name, seen) => pid !in s.procs && ValidPods(seen)
    case SyncDeleting(pid, name) => env.finalizers && name in s.server && pid !in s.procs
    case OccupyOne(pid) => pid in s.procs && s.procs[pid].Occupying?
    case ReserveOne(pid) => pid in s.procs && s.procs[pid].Reserving? && |s.procs[pid].got| < |gs|
    case Decide(pid, cached) => pid in s.procs && s.procs[pid].Reserving? && |s.procs[pid].got| == |gs|
    case PatchOk(pid) =>
      pid in s.procs && s.procs[pid].Patching? && ServerAccepts(s, s.procs[pid].name, s.procs[pid].got)
    case PatchErr(pid, _) => pid in s.procs && s.procs[pid].Patching?
    case PatchLost(pid, _) =>
      && env.lostAcks && pid in s.procs && s.procs[pid].Patching?
      && ServerAccepts(s, s.procs[pid].name, s.procs[pid].got)
    case ReleaseOne(pid) => pid in s.procs && s.procs[pid].Releasing?
  }

  function Put(s: Sys, pid: nat, p: Process): Sys {
    s.(procs := s.procs[pid := p])
  }

  function Drop(s: Sys, pid: nat): Sys {
    s.(procs := s.procs - {pid})
  }

  function Assign(s: Sys, name: Name, pods: seq<Prefix>): Sys {
    s.(server := s.server[name := pods])
  }

  function SetAt(s: Sys, i: nat, st: State): Sys
    requires i < |s.sets|
  {
    s.(sets := s.sets[i := st])
  }

  /** A patch attempt that reported an error: try again, and after the last attempt give the
      blocks back unless the error is recognised as a server timeout. */
  function AfterPatchError(s: Sys, pid: nat, p: Process, e: PatchError): Sys
    requires p.Patching?
  {
    if p.tries + 1 < CIDR_UPDATE_RETRIES then Put(s, pid, p.(tries := p.tries + 1))
    else if IsServerTimeout(Flatten(e)) then Drop(s, pid)
    else Put(s, pid, Releasing(p.got, 0, false))
  }

  function Next(gs: seq<Geometry>, s: Sys, ev: Event): Sys
    requires ValidSys(gs, s) && Enabled(Env(true, true), gs, s, ev)
  {
    match ev
    case CreateNode(name) => Assign(s, name, [])
    case DeleteNode(name, pid) =>
      Put(s.(server := s.server - {name}), pid, Releasing(s.server[name], 0, true))
    case Sync(pid, name, seen) =>
      Put(s, pid, if seen != [] then Occupying(seen, 0) else Reserving(name, []))
    case SyncDeleting(pid, name) => Put(s, pid, Releasing(s.server[name], 0, true))
    case OccupyOne(pid) =>
      var Occupying(pods, idx) := s.procs[pid];
      if idx >= |pods| || Bad(gs, pods, idx) then Drop(s, pid)
      else Put(SetAt(s, idx, SetState.Occupy(gs[idx], s.sets[idx], Some(pods[idx]))), pid, Occupying(pods, idx + 1))
    case ReserveOne(pid) =>
      var Reserving(name, got) := s.procs[pid];
      var (st, r) := Allocate(gs[|got|], s.sets[|got|]);
      if r.None? then Drop(s, pid)
      else Put(SetAt(s, |got|, st), pid, Reserving(name, got + [gs[|got|].Block(r.value)]))
    case Decide(pid, cached) =>
      var Reserving(name, got) := s.procs[pid];
      (match Reread(cached, got)
       case Lost => Drop(s, pid)
       case Matches => Drop(s, pid)
       case Reject => Put(s, pid, Releasing(got, 0, false))
       case Proceed => Put(s, pid, Patching(name, got, 0)))
    case PatchOk(pid) => Drop(Assign(s, s.procs[pid].name, s.procs[pid].got), pid)
    case PatchErr(pid, e) => AfterPatchError(s, pid, s.procs[pid], e)
    case PatchLost(pid, e) =>
      var p := s.procs[pid];
      AfterPatchError(Assign(s, p.name, p.got), pid, p, e)
    case ReleaseOne(pid) =>
      var Releasing(pods, idx, stop) := s.procs[pid];
      if idx >= |pods| || idx >= |gs| then Drop(s, pid)
      else
        var s' := SetAt(s, idx, SetState.Release(gs[idx], s.sets[idx], Some(pods[idx])));
        if Bad(gs, pods, idx) && stop then Drop(s', pid) else Put(s', pid, Releasing(pods, idx + 1, stop))
  }

  // ----- every step leads to a valid state

  lemma BlockFits(g: Geometry, b: nat)
    requires g.Valid() && b < g.Max()
    ensures g.Block(b).Valid() && g.cluster.Overlaps(g.Block(b))
  {
    BlockInside(g, b);
  }

  lemma SetAtValid(gs: seq<Geometry>, s: Sys, i: nat, st: State)
    requires ValidSys(gs, s) && i < |gs| && WellFormed(gs[i], st)
    ensures ValidSys(gs, SetAt(s, i, st))
  {
  }

  lemma PutValid(gs: seq<Geometry>, s: Sys, pid: nat, p: Process)
    requires ValidSys(gs, s) && ValidProcess(gs, p)
    requires p.Patching? ==> Fits(gs, p.got)
    requires p.Reserving? ==> Fits(gs, p.got)
    ensures ValidSys(gs, Put(s, pid, p))
  {
  }

  lemma NextValid(gs: seq<Geometry>, s: Sys, ev: Event)
    requires ValidSys(gs, s) && Enabled(Env(true, true), gs, s, ev)
    ensures ValidSys(gs, Next(gs, s, ev))
  {
    hide Indices, Cover, WellFormed, Allocate, SetState.Occupy, SetState.Release;
    if ev.OccupyOne? {
      OccupyOneValid(gs, s, ev.pid);
    } else if ev.ReserveOne? {
      ReserveOneValid(gs, s, ev.pid);
    } else if ev.ReleaseOne? {
      ReleaseOneValid(gs, s, ev.pid);
    }
  }

  lemma OccupyOneValid(gs: seq<Geometry>, s: Sys, pid: nat)
    requires ValidSys(gs, s) && pid in s.procs && s.procs[pid].Occupying?
    ensures ValidSys(gs, Next(gs, s, OccupyOne(pid)))
  {
    hide Indices, Cover, WellFormed;
    var Occupying(pods, idx) := s.procs[pid];
    if idx < |pods| && !Bad(gs, pods, idx) {
      OccupyWellFormed(gs[idx], s.sets[idx], pods[idx]);
      var st := SetState.Occupy(gs[idx], s.sets[idx], Some(pods[idx]));
      SetAtValid(gs, s, idx, st);
      PutValid(gs, SetAt(s, idx, st), pid, Occupying(pods, idx + 1));
    }
  }

  lemma ReserveOneValid(gs: seq<Geometry>, s: Sys, pid: nat)
    requires ValidSys(gs, s) && pid in s.procs && s.procs[pid].Reserving? && |s.procs[pid].got| < |gs|
    ensures ValidSys(gs, Next(gs, s, ReserveOne(pid)))
  {
    hide WellFormed, Allocate;
    var Reserving(name, got) := s.procs[pid];
    var k := |got|;
    AllocateDequeues(gs[k], s.sets[k]);
    var (st, r) := Allocate(gs[k], s.sets[k]);
    if r.Some? {
      BlockFits(gs[k], r.value);
      SetAtValid(gs, s, k, st);
      PutValid(gs, SetAt(s, k, st), pid, Reserving(name, got + [gs[k].Block(r.value)]));
    }
  }

  lemma ReleaseOneValid(gs: seq<Geometry>, s: Sys, pid: nat)
    requires ValidSys(gs, s) && pid in s.procs && s.procs[pid].Releasing?
    ensures ValidSys(gs, Next(gs, s, ReleaseOne(pid)))
  {
    hide Indices, Cover, WellFormed;
    var Releasing(pods, idx, stop) := s.procs[pid];
    if idx < |pods| && idx < |gs| {
      OccupyWellFormed(gs[idx], s.sets[idx], pods[idx]);
      var st := SetState.Release(gs[idx], s.sets[idx], Some(pods[idx]));
      SetAtValid(gs, s, idx, st);
      PutValid(gs, SetAt(s, idx, st), pid, Releasing(pods, idx + 1, stop));
    }
  }

  // ----- runs

  ghost predicate IsRun(env: Env, gs: seq<Geometry>, s: Sys, run: seq<Event>)
    decreases |run|, 0
  {
    if run == [] then ValidSys(gs, s)
    else
      var last := |run| - 1;
      IsRun(env, gs, s, run[..last]) && Enabled(env, gs, After(env, gs, s, run[..last]), run[last])
  }

  ghost function After(env: Env, gs: seq<Geometry>, s: Sys, run: seq<Event>): (s': Sys)
    requires IsRun(env, gs, s, run)
    ensures ValidSys(gs, s')
    decreases |run|, 1
  {
    if run == [] then s
    else
      var before := After(env, gs, s, run[..|run| - 1]);
      NextValid(gs, before, run[|run| - 1]);
      Next(gs, before, run[|run| - 1])
  }

  // ----- who owns a block

  datatype Owner = Node(name: Name) | Proc(pid: nat) | Services

  /** Block b of set i is touched by a pod CIDR from position `from` on. */
  predicate Holds(gs: seq<Geometry>, pods: seq<Prefix>, from: nat, i: nat, b: nat)
    requires Config(gs) && ValidPods(pods)
  {
    from <= i < |pods| && i < |gs| && b in Cover(gs[i], pods[i])
  }

  /** A live node owns the blocks of its pod CIDRs; a process owns what it has reserved or has
      still to release; the service ranges own what was filtered out for them. */
  predicate Owns(gs: seq<Geometry>, ranges: seq<Prefix>, s: Sys, o: Owner, i: nat, b: nat)
    requires ValidSys(gs, s) && ValidPods(ranges)
  {
    match o
    case Node(name) => name in s.server && Holds(gs, s.server[name], 0, i, b)
    case Services => i < |gs| && b in RangeMarks(gs, ranges, i)
    case Proc(pid) =>
      pid in s.procs &&
      match s.procs[pid]
      case Occupying(_, _) => false
      case Reserving(_, got) => Holds(gs, got, 0, i, b)
      case Patching(_, got, _) => Holds(gs, got, 0, i, b)
      case Releasing(pods, idx, _) => Holds(gs, pods, idx, i, b)
  }

  /** Every owned block is in use and has one owner. */
  ghost predicate Inv(gs: seq<Geometry>, ranges: seq<Prefix>, s: Sys)
    requires ValidSys(gs, s) && ValidPods(ranges)
  {
    && (forall o, i: nat, b: nat | Owns(gs, ranges, s, o, i, b) :: b in s.sets[i].used)
    && (forall o, o', i: nat, b: nat | Owns(gs, ranges, s, o, i, b) && Owns(gs, ranges, s, o', i, b) :: o == o')
  }

  /** If each block owned afterwards is in use and had the same owner before, except that `moved`
      took over from `origin`, the invariant carries over. */
  lemma Transfer(gs: seq<Geometry>, ranges: seq<Prefix>, s: Sys, s': Sys, moved: Owner, origin: Owner)
    requires ValidSys(gs, s) && ValidSys(gs, s') && ValidPods(ranges) && Inv(gs, ranges, s)
    requires forall o, i: nat, b: nat | Owns(gs, ranges, s', o, i, b) ::
               Owns(gs, ranges, s, if o == moved then origin else o, i, b) && b in s'.sets[i].used
    requires forall i: nat, b: nat :: !(Owns(gs, ranges, s', moved, i, b) && Owns(gs, ranges, s', origin, i, b))
                                      || moved == origin
    ensures Inv(gs, ranges, s')
  {
    forall o, o', i: nat, b: nat | Owns(gs, ranges, s', o, i, b) && Owns(gs, ranges, s', o', i, b)
      ensures o == o'
    {
      var p, p' := if o == moved then origin else o, if o' == moved then origin else o';
      assert Owns(gs, ranges, s, p, i, b) && Owns(gs, ranges, s, p', i, b);
      assert p == p';
    }
  }

  lemma SoleOwner(gs: seq<Geometry>, ranges: seq<Prefix>, s: Sys, o: Owner, o': Owner, i: nat, b: nat)
    requires ValidSys(gs, s) && ValidPods(ranges) && Inv(gs, ranges, s)
    requires Owns(gs, ranges, s, o, i, b) && Owns(gs, ranges, s, o', i, b)
    ensures o == o'
  {
  }

  lemma OwnedIsUsed(gs: seq<Geometry>, ranges: seq<Prefix>, s: Sys, o: Owner, i: nat, b: nat)
    requires ValidSys(gs, s) && ValidPods(ranges) && Inv(gs, ranges, s) && Owns(gs, ranges, s, o, i, b)
    ensures i < |gs| && b in s.sets[i].used
  {
  }

  /** Fewer owners, at least as many blocks in use. */
  lemma Shrink(gs: seq<Geometry>, ranges: seq<Prefix>, s: Sys, s': Sys)
    requires ValidSys(gs, s) && ValidSys(gs, s') && ValidPods(ranges) && Inv(gs, ranges, s)
    requires forall i: nat | i < |gs| :: s.sets[i].used <= s'.sets[i].used
    requires forall n | n in s'.server && s'.server[n] != [] :: n in s.server && s'.server[n] == s.server[n]
    requires forall pid | pid in s'.procs :: pid in s.procs && s'.procs[pid] == s.procs[pid]
    ensures Inv(gs, ranges, s')
  {
    hide Cover, WellFormed, RangeMarks;
    forall o, i: nat, b: nat | Owns(gs, ranges, s', o, i, b)
      ensures Owns(gs, ranges, s, o, i, b) && b in s'.sets[i].used
    {
      OwnsFrame(gs, ranges, s, s', o, i, b);
      OwnedIsUsed(gs, ranges, s, o, i, b);
    }
    Transfer(gs, ranges, s, s', Services, Services);
  }

  lemma CreateKeepsInv(gs: seq<Geometry>, ranges: seq<Prefix>, s: Sys, name: Name)
    requires ValidSys(gs, s) && ValidPods(ranges) && Inv(gs, ranges, s) && name !in s.server
    ensures ValidSys(gs, Assign(s, name, [])) && Inv(gs, ranges, Assign(s, name, []))
  {
    Shrink(gs, ranges, s, Assign(s, name, []));
  }

  /** A deletion hands the node's blocks to the process that will release them. */
  lemma DeleteKeepsInv(gs: seq<Geometry>, ranges: seq<Prefix>, s: Sys, name: Name, pid: nat)
    requires ValidSys(gs, s) && ValidPods(ranges) && Inv(gs, ranges, s) && name in s.server && pid !in s.procs
    ensures var s' := Next(gs, s, DeleteNode(name, pid)); ValidSys(gs, s') && Inv(gs, ranges, s')
  {
    hide Cover, WellFormed, RangeMarks;
    NextValid(gs, s, DeleteNode(name, pid));
    var s' := Next(gs, s, DeleteNode(name, pid));
    forall o, i: nat, b: nat | Owns(gs, ranges, s', o, i, b)
      ensures Owns(gs, ranges, s, if o == Proc(pid) then Node(name) else o, i, b) && b in s'.sets[i].used
    {
      if o != Proc(pid) {
        OwnsFrame(gs, ranges, s, s', o, i, b);
      }
      OwnedIsUsed(gs, ranges, s, if o == Proc(pid) then Node(name) else o, i, b);
    }
    Transfer(gs, ranges, s, s', Proc(pid), Node(name));
  }

  /** A process that goes on owning at most what it owned keeps the invariant. */
  lemma PutKeepsInv(gs: seq<Geometry>, ranges: seq<Prefix>, s: Sys, pid: nat, p: Process)
    requires ValidSys(gs, s) && ValidPods(ranges) && Inv(gs, ranges, s) && ValidSys(gs, Put(s, pid, p))
    requires forall i: nat, b: nat | Owns(gs, ranges, Put(s, pid, p), Proc(pid), i, b) ::
               Owns(gs, ranges, s, Proc(pid), i, b)
    ensures Inv(gs, ranges, Put(s, pid, p))
  {
    hide Cover, WellFormed, RangeMarks;
    var s' := Put(s, pid, p);
    forall o, i: nat, b: nat | Owns(gs, ranges, s', o, i, b)
      ensures Owns(gs, ranges, s, o, i, b)
    {
      if o != Proc(pid) {
        OwnsFrame(gs, ranges, s, s', o, i, b);
      }
    }
    Transfer(gs, ranges, s, s', Services, Services);
  }

  lemma OwnsFrame(gs: seq<Geometry>, ranges: seq<Prefix>, s: Sys, s': Sys, o: Owner, i: nat, b: nat)
    requires ValidSys(gs, s) && ValidSys(gs, s') && ValidPods(ranges) && Owns(gs, ranges, s', o, i, b)
    requires o.Node? && o.name in s'.server ==> o.name in s.server && s.server[o.name] == s'.server[o.name]
    requires o.Proc? && o.pid in s'.procs ==> o.pid in s.procs && s.procs[o.pid] == s'.procs[o.pid]
    ensures Owns(gs, ranges, s, o, i, b)
  {
  }

  lemma DropKeepsInv(gs: seq<Geometry>, ranges: seq<Prefix>, s: Sys, pid: nat)
    requires ValidSys(gs, s) && ValidPods(ranges) && Inv(gs, ranges, s)
    ensures ValidSys(gs, Drop(s, pid)) && Inv(gs, ranges, Drop(s, pid))
  {
    Shrink(gs, ranges, s, Drop(s, pid));
  }

  /** More blocks in use, same owners. */
  lemma GrowKeepsInv(gs: seq<Geometry>, ranges: seq<Prefix>, s: Sys, i: nat, st: State)
    requires ValidSys(gs, s) && ValidPods(ranges) && Inv(gs, ranges, s)
    requires i < |gs| && WellFormed(gs[i], st) && s.sets[i].used <= st.used
    ensures ValidSys(gs, SetAt(s, i, st)) && Inv(gs, ranges, SetAt(s, i, st))
  {
    SetAtValid(gs, s, i, st);
    Shrink(gs, ranges, s, SetAt(s, i, st));
  }

  /** A reservation takes a block that was not in use, hence one that nobody owned. */
  lemma ReserveKeepsInv(gs: seq<Geometry>, ranges: seq<Prefix>, s: Sys, pid: nat)
    requires ValidSys(gs, s) && ValidPods(ranges) && Inv(gs, ranges, s)
    requires pid in s.procs && s.procs[pid].Reserving? && |s.procs[pid].got| < |gs|
    ensures var s' := Next(gs, s, ReserveOne(pid)); ValidSys(gs, s') && Inv(gs, ranges, s')
  {
    hide Cover, WellFormed, RangeMarks, Allocate, Inv;
    var Reserving(name, got) := s.procs[pid];
    var k := |got|;
    var (st, r) := Allocate(gs[k], s.sets[k]);
    ReserveOneValid(gs, s, pid);
    AllocateUses(gs[k], s.sets[k]);
    if r.None? {
      DropKeepsInv(gs, ranges, s, pid);
    } else {
      CoverOfBlock(gs[k], r.value);
      GrowKeepsInv(gs, ranges, s, k, st);
      var s1, p := SetAt(s, k, st), Reserving(name, got + [gs[k].Block(r.value)]);
      forall o, i: nat, b: nat | Owns(gs, ranges, s1, o, i, b)
        ensures !(i == k && b == r.value)
      {
        OwnsFrame(gs, ranges, s, s1, o, i, b);
        OwnedIsUsed(gs, ranges, s, o, i, b);
      }
      TakeKeepsInv(gs, ranges, s1, pid, p, k, r.value);
    }
  }

  /** A process may take a block in use that nobody owns. */
  lemma TakeKeepsInv(gs: seq<Geometry>, ranges: seq<Prefix>, s: Sys, pid: nat, p: Process, k: nat, x: nat)
    requires ValidSys(gs, s) && ValidPods(ranges) && Inv(gs, ranges, s) && ValidSys(gs, Put(s, pid, p))
    requires k < |gs| && x in s.sets[k].used
    requires forall o, i: nat, b: nat | Owns(gs, ranges, s, o, i, b) :: !(i == k && b == x)
    requires forall i: nat, b: nat | Owns(gs, ranges, Put(s, pid, p), Proc(pid), i, b) ::
               Owns(gs, ranges, s, Proc(pid), i, b) || (i == k && b == x)
    ensures Inv(gs, ranges, Put(s, pid, p))
  {
    hide Cover, WellFormed, RangeMarks;
    var s' := Put(s, pid, p);
    forall o, i: nat, b: nat | Owns(gs, ranges, s', o, i, b)
      ensures Owns(gs, ranges, s, o, i, b) || (o == Proc(pid) && i == k && b == x)
      ensures b in s'.sets[i].used
    {
      if o != Proc(pid) {
        OwnsFrame(gs, ranges, s, s', o, i, b);
      }
    }
  }

  lemma AllocateUses(g: Geometry, s: State)
    requires g.Valid() && WellFormed(g, s)
    ensures var (s', r) := Allocate(g, s);
            && WellFormed(g, s')
            && (r.Some? ==> r.value < g.Max() && r.value !in s.used && s'.used == s.used + {r.value})
  {
    AllocateDequeues(g, s);
  }

  /** A patch hands the reservation to the node. */
  lemma PatchKeepsInv(gs: seq<Geometry>, ranges: seq<Prefix>, s: Sys, pid: nat)
    requires ValidSys(gs, s) && ValidPods(ranges) && Inv(gs, ranges, s)
    requires pid in s.procs && s.procs[pid].Patching? && ServerAccepts(s, s.procs[pid].name, s.procs[pid].got)
    ensures var s' := Next(gs, s, PatchOk(pid)); ValidSys(gs, s') && Inv(gs, ranges, s')
  {
    hide Cover, WellFormed, RangeMarks;
    NextValid(gs, s, PatchOk(pid));
    Transfer(gs, ranges, s, Next(gs, s, PatchOk(pid)), Node(s.procs[pid].name), Proc(pid));
  }

  /** A release frees blocks that only the releasing process owned, and it gives them up. */
  lemma ReleaseKeepsInv(gs: seq<Geometry>, ranges: seq<Prefix>, s: Sys, pid: nat)
    requires ValidSys(gs, s) && ValidPods(ranges) && Inv(gs, ranges, s)
    requires pid in s.procs && s.procs[pid].Releasing?
    ensures var s' := Next(gs, s, ReleaseOne(pid)); ValidSys(gs, s') && Inv(gs, ranges, s')
  {
    hide Cover, WellFormed, RangeMarks, Indices, Bad;
    var Releasing(pods, idx, stop) := s.procs[pid];
    var s' := Next(gs, s, ReleaseOne(pid));
    ReleaseOneValid(gs, s, pid);
    if idx >= |pods| || idx >= |gs| {
      DropKeepsInv(gs, ranges, s, pid);
    } else {
      forall o, i: nat, b: nat | Owns(gs, ranges, s', o, i, b)
        ensures Owns(gs, ranges, s, o, i, b) && b in s'.sets[i].used
      {
        if o != Proc(pid) {
          OwnsFrame(gs, ranges, s, s', o, i, b);
        }
        OwnedIsUsed(gs, ranges, s, o, i, b);
        if i == idx && b in Cover(gs[idx], pods[idx]) {
          SoleOwner(gs, ranges, s, o, Proc(pid), i, b);
        }
      }
      Transfer(gs, ranges, s, s', Services, Services);
    }
  }

  /** Every step of an environment without lost acknowledgements and finalizers keeps it. */
  lemma NextKeepsInv(env: Env, gs: seq<Geometry>, ranges: seq<Prefix>, s: Sys, ev: Event)
    requires ValidSys(gs, s) && ValidPods(ranges) && Inv(gs, ranges, s)
    requires Enabled(env, gs, s, ev) && !env.lostAcks && !env.finalizers
    ensures ValidSys(gs, Next(gs, s, ev)) && Inv(gs, ranges, Next(gs, s, ev))
  {
    hide Cover, WellFormed, RangeMarks, Indices, Inv, SetState.Release, Allocate;
    NextValid(gs, s, ev);
    match ev
    case CreateNode(name) => CreateKeepsInv(gs, ranges, s, name);
    case DeleteNode(name, pid) => DeleteKeepsInv(gs, ranges, s, name, pid);
    case Sync(pid, name, seen) =>
      PutKeepsInv(gs, ranges, s, pid, if seen != [] then Occupying(seen, 0) else Reserving(name, []));
    case OccupyOne(pid) =>
      OccupyKeepsInv(gs, ranges, s, pid);
    case ReserveOne(pid) => ReserveKeepsInv(gs, ranges, s, pid);
    case Decide(pid, cached) => DecideKeepsInv(gs, ranges, s, pid, cached);
    case PatchOk(pid) => PatchKeepsInv(gs, ranges, s, pid);
    case PatchErr(pid, e) => PatchErrKeepsInv(gs, ranges, s, pid, e);
    case ReleaseOne(pid) => ReleaseKeepsInv(gs, ranges, s, pid);
  }

  lemma OccupyKeepsInv(gs: seq<Geometry>, ranges: seq<Prefix>, s: Sys, pid: nat)
    requires ValidSys(gs, s) && ValidPods(ranges) && Inv(gs, ranges, s)
    requires pid in s.procs && s.procs[pid].Occupying?
    ensures var s' := Next(gs, s, OccupyOne(pid)); ValidSys(gs, s') && Inv(gs, ranges, s')
  {
    hide Cover, WellFormed, RangeMarks, Indices, Inv;
    var Occupying(pods, idx) := s.procs[pid];
    OccupyOneValid(gs, s, pid);
    if idx >= |pods| || Bad(gs, pods, idx) {
      DropKeepsInv(gs, ranges, s, pid);
    } else {
      var st := SetState.Occupy(gs[idx], s.sets[idx], Some(pods[idx]));
      OccupyWellFormed(gs[idx], s.sets[idx], pods[idx]);
      GrowKeepsInv(gs, ranges, s, idx, st);
      PutKeepsInv(gs, ranges, SetAt(s, idx, st), pid, Occupying(pods, idx + 1));
    }
  }

  lemma DecideKeepsInv(gs: seq<Geometry>, ranges: seq<Prefix>, s: Sys, pid: nat, cached: Option<seq<Prefix>>)
    requires ValidSys(gs, s) && ValidPods(ranges) && Inv(gs, ranges, s)
    requires pid in s.procs && s.procs[pid].Reserving? && |s.procs[pid].got| == |gs|
    ensures var s' := Next(gs, s, Decide(pid, cached)); ValidSys(gs, s') && Inv(gs, ranges, s')
  {
    hide Cover, WellFormed, RangeMarks, Inv;
    var Reserving(name, got) := s.procs[pid];
    NextValid(gs, s, Decide(pid, cached));
    match Reread(cached, got)
    case Reject => PutKeepsInv(gs, ranges, s, pid, Releasing(got, 0, false));
    case Proceed => PutKeepsInv(gs, ranges, s, pid, Patching(name, got, 0));
    case _ => DropKeepsInv(gs, ranges, s, pid);
  }

  lemma PatchErrKeepsInv(gs: seq<Geometry>, ranges: seq<Prefix>, s: Sys, pid: nat, e: PatchError)
    requires ValidSys(gs, s) && ValidPods(ranges) && Inv(gs, ranges, s)
    requires pid in s.procs && s.procs[pid].Patching?
    ensures var s' := Next(gs, s, PatchErr(pid, e)); ValidSys(gs, s') && Inv(gs, ranges, s')
  {
    hide Cover, WellFormed, RangeMarks, Inv;
    var p := s.procs[pid];
    NextValid(gs, s, PatchErr(pid, e));
    if p.tries + 1 < CIDR_UPDATE_RETRIES {
      PutKeepsInv(gs, ranges, s, pid, p.(tries := p.tries + 1));
    } else {
      PutKeepsInv(gs, ranges, s, pid, Releasing(p.got, 0, false));
    }
  }

  // ----- the initial state and the safety theorem

  /** The pod CIDRs of different nodes, and the service ranges, touch different blocks. */
  ghost predicate StartsApart(gs: seq<Geometry>, ranges: seq<Prefix>, server: map<Name, seq<Prefix>>)
    requires Config(gs) && ValidPods(ranges) && forall n | n in server :: ValidPods(server[n])
  {
    && (forall n, n', i: nat | n in server && n' in server && n != n' ::
          PodMarks(gs, server[n], i) !! PodMarks(gs, server[n'], i))
    && (forall n, i: nat | n in server && i < |gs| :: PodMarks(gs, server[n], i) !! RangeMarks(gs, ranges, i))
  }

  /** What the constructor leaves behind: nothing is in flight, every node with pod CIDRs was
      listed and accepted, and nodes and service ranges start apart. */
  ghost predicate Init(gs: seq<Geometry>, ranges: seq<Prefix>, nodes: seq<seq<Prefix>>, s: Sys) {
    && ValidSys(gs, s) && ValidPods(ranges)
    && (forall n | n in nodes :: ValidPods(n) && AllGood(gs, n))
    && Constructed(gs, s.sets, ranges, nodes)
    && s.procs == map[]
    && (forall n | n in s.server :: s.server[n] == [] || s.server[n] in nodes)
    && StartsApart(gs, ranges, s.server)
  }

  lemma {:induction false} ListedNodeMarked(gs: seq<Geometry>, nodes: seq<seq<Prefix>>, pods: seq<Prefix>, i: nat)
    requires Config(gs) && (forall n | n in nodes :: ValidPods(n)) && pods in nodes
    ensures PodMarks(gs, pods, i) <= NodeMarks(gs, nodes, i)
  {
    var last := |nodes| - 1;
    if pods != nodes[last] {
      assert pods in nodes[..last];
      ListedNodeMarked(gs, nodes[..last], pods, i);
    }
  }

  /** A node that was accepted at start-up holds exactly the blocks it is marked with. */
  lemma InitHolds(gs: seq<Geometry>, ranges: seq<Prefix>, nodes: seq<seq<Prefix>>, s: Sys, n: Name, i: nat, b: nat)
    requires Init(gs, ranges, nodes, s) && n in s.server && Holds(gs, s.server[n], 0, i, b)
    ensures i < |gs| && b in PodMarks(gs, s.server[n], i) && b in s.sets[i].used
  {
    hide Cover, Indices, WellFormed, RangeMarks, NodeMarks, StartsApart;
    var pods := s.server[n];
    ListedNodeMarked(gs, nodes, pods, i);
    assert !Bad(gs, pods, i);
  }

  lemma InitInv(gs: seq<Geometry>, ranges: seq<Prefix>, nodes: seq<seq<Prefix>>, s: Sys)
    requires Init(gs, ranges, nodes, s)
    ensures Inv(gs, ranges, s)
  {
    hide Cover, Indices, WellFormed, RangeMarks, NodeMarks, PodMarks;
    forall o, i: nat, b: nat | Owns(gs, ranges, s, o, i, b)
      ensures b in s.sets[i].used
    {
      if o.Node? {
        InitHolds(gs, ranges, nodes, s, o.name, i, b);
      }
    }
    forall o, o', i: nat, b: nat | Owns(gs, ranges, s, o, i, b) && Owns(gs, ranges, s, o', i, b)
      ensures o == o'
    {
      if o.Node? {
        InitHolds(gs, ranges, nodes, s, o.name, i, b);
      }
      if o'.Node? {
        InitHolds(gs, ranges, nodes, s, o'.name, i, b);
      }
    }
  }

  lemma {:induction false} InvOverRuns(env: Env, gs: seq<Geometry>, ranges: seq<Prefix>, s: Sys, run: seq<Event>)
    requires ValidSys(gs, s) && ValidPods(ranges) && Inv(gs, ranges, s)
    requires IsRun(env, gs, s, run) && !env.lostAcks && !env.finalizers
    ensures Inv(gs, ranges, After(env, gs, s, run))
    decreases |run|
  {
    hide Inv, Next, Enabled, ValidSys;
    if run != [] {
      var last := |run| - 1;
      InvOverRuns(env, gs, ranges, s, run[..last]);
      NextKeepsInv(env, gs, ranges, After(env, gs, s, run[..last]), run[last]);
    }
  }

  /** No address is in the pod CIDRs of two nodes or in a node's and a filtered service range,
      and every block of a node's pod CIDRs is marked in its set. */
  ghost predicate Safe(gs: seq<Geometry>, ranges: seq<Prefix>, s: Sys)
    requires ValidSys(gs, s) && ValidPods(ranges)
  {
    && (forall n, n', i: nat, a: Addr |
          n in s.server && n' in s.server && n != n' && i < |s.server[n]| && i < |s.server[n']| ::
          !(s.server[n][i].Covers(a) && s.server[n'][i].Covers(a)))
    && (forall n, i: nat, r, a: Addr |
          n in s.server && i < |s.server[n]| && r in ranges && Indices(gs[i], Some(r)).Ok? ::
          !(s.server[n][i].Covers(a) && r.Covers(a)))
    && (forall n, i: nat | n in s.server && i < |s.server[n]| :: Cover(gs[i], s.server[n][i]) <= s.sets[i].used)
  }

  lemma InvNodesDisjoint(gs: seq<Geometry>, ranges: seq<Prefix>, s: Sys, n: Name, n': Name, i: nat)
    requires ValidSys(gs, s) && ValidPods(ranges) && Inv(gs, ranges, s)
    requires n in s.server && n' in s.server && n != n' && i < |s.server[n]| && i < |s.server[n']|
    ensures !s.server[n][i].Overlaps(s.server[n'][i])
  {
    hide Cover, WellFormed, RangeMarks;
    var p, q := s.server[n][i], s.server[n'][i];
    forall b: nat | b in Cover(gs[i], p) && b in Cover(gs[i], q)
      ensures false
    {
      SoleOwner(gs, ranges, s, Node(n), Node(n'), i, b);
    }
    DisjointCovers(gs[i], p, q);
  }

  lemma {:induction false} RangeMarked(gs: seq<Geometry>, ranges: seq<Prefix>, r: Prefix, i: nat)
    requires Config(gs) && ValidPods(ranges) && r in ranges && i < |gs|
    ensures Marks(gs[i], r) <= RangeMarks(gs, ranges, i)
  {
    var last := |ranges| - 1;
    if r != ranges[last] {
      assert r in ranges[..last];
      RangeMarked(gs, ranges[..last], r, i);
    }
  }

  lemma InvServicesDisjoint(gs: seq<Geometry>, ranges: seq<Prefix>, s: Sys, n: Name, i: nat, r: Prefix)
    requires ValidSys(gs, s) && ValidPods(ranges) && Inv(gs, ranges, s)
    requires n in s.server && i < |s.server[n]| && r in ranges && Indices(gs[i], Some(r)).Ok?
    ensures !s.server[n][i].Overlaps(r)
  {
    hide Cover, WellFormed, RangeMarks, Indices;
    var p := s.server[n][i];
    RangeMarked(gs, ranges, r, i);
    IndicesExact(gs[i], Some(r));
    forall b: nat | b in Cover(gs[i], p) && b in Cover(gs[i], r)
      ensures false
    {
      SoleOwner(gs, ranges, s, Node(n), Services, i, b);
    }
    DisjointCovers(gs[i], p, r);
  }

  lemma InvIsSafe(gs: seq<Geometry>, ranges: seq<Prefix>, s: Sys)
    requires ValidSys(gs, s) && ValidPods(ranges) && Inv(gs, ranges, s)
    ensures Safe(gs, ranges, s)
  {
    hide Cover, WellFormed, RangeMarks, Indices;
    forall n, n', i: nat, a: Addr |
      n in s.server && n' in s.server && n != n' && i < |s.server[n]| && i < |s.server[n']|
      ensures !(s.server[n][i].Covers(a) && s.server[n'][i].Covers(a))
    {
      InvNodesDisjoint(gs, ranges, s, n, n', i);
      OverlapsMeaning(s.server[n][i], s.server[n'][i]);
    }
    forall n, i: nat, r, a: Addr |
      n in s.server && i < |s.server[n]| && r in ranges && Indices(gs[i], Some(r)).Ok?
      ensures !(s.server[n][i].Covers(a) && r.Covers(a))
    {
      InvServicesDisjoint(gs, ranges, s, n, i, r);
      OverlapsMeaning(s.server[n][i], r);
    }
    forall n, i: nat, b: nat | n in s.server && i < |s.server[n]| && b in Cover(gs[i], s.server[n][i])
      ensures b in s.sets[i].used
    {
      assert Owns(gs, ranges, s, Node(n), i, b);
    }
  }

  /** In every reachable state the pod CIDRs of distinct nodes are disjoint, disjoint from the
      filtered service ranges, and marked. */
  lemma RunsAreSafe(env: Env, gs: seq<Geometry>, ranges: seq<Prefix>, nodes: seq<seq<Prefix>>, s: Sys, run: seq<Event>)
    requires Init(gs, ranges, nodes, s) && IsRun(env, gs, s, run) && !env.lostAcks && !env.finalizers
    ensures Safe(gs, ranges, After(env, gs, s, run))
  {
    InitInv(gs, ranges, nodes, s);
    InvOverRuns(env, gs, ranges, s, run);
    InvIsSafe(gs, ranges, After(env, gs, s, run));
  }

  // ----- disjointness across positions

  predicate PodsInside(gs: seq<Geometry>, pods: seq<Prefix>)
    requires Config(gs) && ValidPods(pods)
  {
    forall i | 0 <= i < |pods| && i < |gs| :: pods[i].Inside(gs[i].cluster)
  }

  /** Assigned and reserved pod CIDRs lie inside the cluster CIDR of their position. */
  ghost predicate AllInside(gs: seq<Geometry>, s: Sys)
    requires ValidSys(gs, s)
  {
    && (forall n | n in s.server :: PodsInside(gs, s.server[n]))
    && (forall pid | pid in s.procs && (s.procs[pid].Reserving? || s.procs[pid].Patching?) ::
          PodsInside(gs, s.procs[pid].got))
  }

  lemma ReserveInside(gs: seq<Geometry>, s: Sys, pid: nat)
    requires ValidSys(gs, s) && AllInside(gs, s)
    requires pid in s.procs && s.procs[pid].Reserving? && |s.procs[pid].got| < |gs|
    ensures var s' := Next(gs, s, ReserveOne(pid)); ValidSys(gs, s') && AllInside(gs, s')
  {
    hide WellFormed, Allocate;
    var got := s.procs[pid].got;
    ReserveOneValid(gs, s, pid);
    AllocateDequeues(gs[|got|], s.sets[|got|]);
    var r := Allocate(gs[|got|], s.sets[|got|]).1;
    if r.Some? {
      BlockInside(gs[|got|], r.value);
      assert PodsInside(gs, got + [gs[|got|].Block(r.value)]);
    }
  }

  lemma NextInside(env: Env, gs: seq<Geometry>, s: Sys, ev: Event)
    requires ValidSys(gs, s) && Enabled(env, gs, s, ev) && AllInside(gs, s)
    ensures ValidSys(gs, Next(gs, s, ev)) && AllInside(gs, Next(gs, s, ev))
  {
    hide Bad, WellFormed, Allocate, SetState.Occupy, SetState.Release, PodsInside;
    NoPodsInside(gs);
    NextValid(gs, s, ev);
    if ev.ReserveOne? {
      ReserveInside(gs, s, ev.pid);
    }
  }

  lemma NoPodsInside(gs: seq<Geometry>)
    requires Config(gs)
    ensures PodsInside(gs, [])
  {
  }

  lemma {:induction false} InsideOverRuns(env: Env, gs: seq<Geometry>, s: Sys, run: seq<Event>)
    requires IsRun(env, gs, s, run) && ValidSys(gs, s) && AllInside(gs, s)
    ensures AllInside(gs, After(env, gs, s, run))
    decreases |run|
  {
    hide Next, Enabled, ValidSys, AllInside;
    if run != [] {
      var last := |run| - 1;
      InsideOverRuns(env, gs, s, run[..last]);
      NextInside(env, gs, After(env, gs, s, run[..last]), run[last]);
    }
  }

  /** With disjoint cluster CIDRs, and pod CIDRs inside them at the start, no address is ever in
      two pod CIDRs, whatever the nodes and the positions. */
  lemma RunsAreDisjoint(env: Env, gs: seq<Geometry>, ranges: seq<Prefix>, nodes: seq<seq<Prefix>>, s: Sys,
                        run: seq<Event>, n: Name, i: nat, n': Name, j: nat, a: Addr)
    requires Init(gs, ranges, nodes, s) && IsRun(env, gs, s, run) && !env.lostAcks && !env.finalizers
    requires AllInside(gs, s)
    requires forall k, l | 0 <= k < l < |gs| :: !gs[k].cluster.Overlaps(gs[l].cluster)
    requires var t := After(env, gs, s, run);
             && n in t.server && n' in t.server && i < |t.server[n]| && j < |t.server[n']|
             && (n != n' || i != j)
    ensures var t := After(env, gs, s, run);
            !(t.server[n][i].Covers(a) && t.server[n'][j].Covers(a))
  {
    hide IsRun, After, Cover, Indices, WellFormed, Owns;
    var t := After(env, gs, s, run);
    RunsAreSafe(env, gs, ranges, nodes, s, run);
    InsideOverRuns(env, gs, s, run);
    assert Fits(gs, t.server[n]) && Fits(gs, t.server[n']);
  }
}
