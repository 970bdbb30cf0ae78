/** The cloud allocator's workers, its delete handler and the API server as one step machine. A
    call on a set and the choice of a prefix for a node are single steps; all else may interleave,
    and a read of the informer cache returns any value at all. Whoever holds pod CIDRs, a live node
    or a worker that reserved them or is about to release them, is a holder. */
module CloudProtocol {
  import opened Common
  import opened Prefixes
  import opened Geometry
  import opened SetState
  import opened CloudSpec
  import opened NodeSelection
  import opened PodMarking
  import R = RangeSpec
  import RP = RangeProtocol

  datatype Holder = Node(name: nat) | Worker(pid: nat)

  /** What a worker is doing. `whole` says that so far every cluster CIDR had a set to serve it. */
  datatype Work =
    | Reserving(name: nat, ips: seq<Addr>, idx: nat, whole: bool)
    | Patching(name: nat, ips: seq<Addr>, whole: bool, tries: nat)
    | Releasing(stop: bool)

  datatype Sys = Sys(clusters: seq<Prefix>, m: Sets, hold: map<Holder, seq<Prefix>>, work: map<nat, Work>)

  datatype Event =
    | CreateNode(name: nat)
    | DeleteNode(name: nat, pid: nat)                      // pid will run the delete handler
    | Select(pid: nat, name: nat, v: NodeView, global: Option<HostPrefix>, m': Sets)
    | SelectFails(v: NodeView, m': Sets)
    | OccupyPod(p: Prefix, v: NodeView, ok: bool, m': Sets)
    | ReserveOne(pid: nat)
    | Decide(pid: nat, cached: Option<seq<Prefix>>)        // cached: the node's pod CIDRs, if it is there
    | PatchOk(pid: nat)
    | PatchErr(pid: nat, err: R.PatchError)
    | PatchLost(pid: nat, err: R.PatchError)               // applied, but reported as failed
    | SyncDeleting(name: nat, pid: nat)                    // release a node that is still served
    | ReleaseOne(pid: nat)

  ghost predicate ValidSys(s: Sys) {
    && ValidSets(s.m) && DisjointKeys(s.m)
    && (forall h, p | h in s.hold && p in s.hold[h] :: p.Valid())
    && (forall pid: nat :: Worker(pid) in s.hold <==> pid in s.work)
  }

  /** The server takes a complete list, for a node that has none or the same one. */
  predicate ServerAccepts(s: Sys, pid: nat) {
    && pid in s.work && s.work[pid].Patching? && s.work[pid].whole && Worker(pid) in s.hold
    && Node(s.work[pid].name) in s.hold
    && (s.hold[Node(s.work[pid].name)] == [] || s.hold[Node(s.work[pid].name)] == s.hold[Worker(pid)])
  }

  /** The sets after a step that may add some; runs are taken in which the keys stay disjoint. */
  ghost predicate ValidNext(m': Sets) {
    ValidSets(m') && DisjointKeys(m')
  }

  ghost predicate Enabled(env: RP.Env, s: Sys, ev: Event)
    requires ValidSys(s)
  {
    match ev
    case CreateNode(name) => Node(name) !in s.hold
    case DeleteNode(name, pid) => Node(name) in s.hold && pid !in s.work
    case Select(pid, name, v, global, m') =>
      pid !in s.work && v.Valid() && ValidNext(m') && DefineOutcome(s.m, m', v, Ok(global))
    case SelectFails(v, m') => v.Valid() && ValidNext(m') && exists e :: DefineOutcome(s.m, m', v, Err(e))
    case OccupyPod(p, v, ok, m') => p.Valid() && v.Valid() && ValidNext(m') && PodOutcome(s.m, m', p, v, ok)
    case ReserveOne(pid) => pid in s.work && s.work[pid].Reserving? && s.work[pid].idx < |s.work[pid].ips|
    case Decide(pid, _) => pid in s.work && s.work[pid].Reserving? && s.work[pid].idx == |s.work[pid].ips|
    case PatchOk(pid) => ServerAccepts(s, pid)
    case PatchErr(pid, _) => pid in s.work && s.work[pid].Patching?
    case PatchLost(pid, _) => env.lostAcks && ServerAccepts(s, pid)
    case SyncDeleting(name, pid) => env.finalizers && Node(name) in s.hold && pid !in s.work
    case ReleaseOne(pid) => pid in s.work && s.work[pid].Releasing?
  }

  /** The worker ends; what it still holds stays reserved. */
  function Drop(s: Sys, pid: nat): Sys {
    s.(hold := s.hold - {Worker(pid)}, work := s.work - {pid})
  }

  function Put(s: Sys, pid: nat, w: Work): Sys {
    s.(work := s.work[pid := w])
  }

  function Assign(s: Sys, h: Holder, pods: seq<Prefix>): Sys {
    s.(hold := s.hold[h := pods])
  }

  /** One block for the next cluster CIDR; an exhausted set ends the worker. */
  ghost function StepReserve(s: Sys, pid: nat): Sys
    requires ValidSys(s) && pid in s.work && s.work[pid].Reserving? && s.work[pid].idx < |s.work[pid].ips|
  {
    var w := s.work[pid];
    match TakeAt(s.m, w.ips[w.idx])
    case Err(_) => Drop(s, pid)
    case Ok(None) => Put(s, pid, w.(idx := w.idx + 1, whole := false))
    case Ok(Some(p)) =>
      Put(Assign(s.(m := AllocateAt(s.m, w.ips[w.idx])), Worker(pid), s.hold[Worker(pid)] + [p]), pid,
          w.(idx := w.idx + 1))
  }

  /** The set around the first address refuses the CIDR. */
  ghost predicate Refuses(m: Sets, p: Prefix)
    requires ValidSets(m) && p.Valid()
  {
    exists k :: Hit(m, k, p.First()) && Indices(m[k].g, Some(p)).Err?
  }

  ghost function StepRelease(s: Sys, pid: nat): Sys
    requires ValidSys(s) && pid in s.work && s.work[pid].Releasing?
  {
    var pods := s.hold[Worker(pid)];
    if pods == [] then Drop(s, pid)
    else if s.work[pid].stop && Refuses(s.m, pods[0]) then Drop(s, pid)
    else Assign(s.(m := ReleaseAt(s.m, pods[0])), Worker(pid), pods[1..])
  }

  /** A patch attempt that reported an error: try again, and after the last attempt give the
      blocks back unless the error is recognised as a server timeout. */
  function AfterPatchError(s: Sys, pid: nat, e: R.PatchError): Sys
    requires pid in s.work && s.work[pid].Patching?
  {
    var w := s.work[pid];
    if w.tries + 1 < R.CIDR_UPDATE_RETRIES then Put(s, pid, w.(tries := w.tries + 1))
    else if R.IsServerTimeout(R.Flatten(e)) then Drop(s, pid)
    else Put(s, pid, Releasing(false))
  }

  ghost function Next(s: Sys, ev: Event): Sys
    requires ValidSys(s) && Enabled(RP.Env(true, true), s, ev)
  {
    match ev
    case CreateNode(name) => Assign(s, Node(name), [])
    case DeleteNode(name, pid) =>
      Put(Assign(s.(hold := s.hold - {Node(name)}), Worker(pid), s.hold[Node(name)]), pid, Releasing(true))
    case Select(pid, name, v, global, m') =>
      Put(Assign(s.(m := m'), Worker(pid), []), pid, Reserving(name, Targets(s.clusters, global), 0, true))
    case SelectFails(v, m') => s.(m := m')
    case OccupyPod(p, v, ok, m') => s.(m := m')
    case ReserveOne(pid) => StepReserve(s, pid)
    case Decide(pid, cached) =>
      var w := s.work[pid];
      if cached.None? || (w.whole && cached.value == s.hold[Worker(pid)]) then Drop(s, pid)
      else if cached.value != [] then Put(s, pid, Releasing(false))
      else Put(s, pid, Patching(w.name, w.ips, w.whole, 0))
    case PatchOk(pid) => Drop(Assign(s, Node(s.work[pid].name), s.hold[Worker(pid)]), pid)
    case PatchErr(pid, e) => AfterPatchError(s, pid, e)
    case PatchLost(pid, e) => AfterPatchError(Assign(s, Node(s.work[pid].name), s.hold[Worker(pid)]), pid, e)
    case SyncDeleting(name, pid) => Put(Assign(s, Worker(pid), s.hold[Node(name)]), pid, Releasing(true))
    case ReleaseOne(pid) => StepRelease(s, pid)
  }

  // ----- every step leads to a valid state

  lemma ReserveValid(s: Sys, pid: nat)
    requires ValidSys(s) && pid in s.work && s.work[pid].Reserving? && s.work[pid].idx < |s.work[pid].ips|
    ensures ValidSys(StepReserve(s, pid))
  {
    hide WellFormed, Allocate, AllocateAt, DisjointKeys, Prefix.Valid;
    var ip := s.work[pid].ips[s.work[pid].idx];
    if TakeAt(s.m, ip).Ok? && TakeAt(s.m, ip).value.Some? {
      var k := TookFrom(s.m, ip);
      TakenIsBlock(s.m[k]);
      FoundIsTaken(s.m, k, ip);
      AllocateAtValid(s.m, ip);
      ShapeKeeps(s.m, AllocateAt(s.m, ip));
    }
  }

  lemma ReleaseValid(s: Sys, pid: nat)
    requires ValidSys(s) && pid in s.work && s.work[pid].Releasing?
    ensures ValidSys(StepRelease(s, pid))
  {
    hide WellFormed, ReleaseAt, DisjointKeys, Refuses, Prefix.Valid;
    var pods := s.hold[Worker(pid)];
    if pods != [] {
      assert pods[0] in pods;
      AtValid(s.m, pods[0]);
      ShapeKeeps(s.m, ReleaseAt(s.m, pods[0]));
    }
  }

  lemma NextValid(s: Sys, ev: Event)
    requires ValidSys(s) && Enabled(RP.Env(true, true), s, ev)
    ensures ValidSys(Next(s, ev))
  {
    hide WellFormed, StepReserve, StepRelease, DisjointKeys, Prefix.Valid, DefineOutcome, PodOutcome, ValidSets;
    match ev
    case ReserveOne(pid) => ReserveValid(s, pid);
    case ReleaseOne(pid) => ReleaseValid(s, pid);
    case _ =>
  }

  ghost predicate IsTrace(env: RP.Env, s: Sys, run: seq<Event>)
    requires ValidSys(s)
    decreases |run|, 0
  {
    run == [] ||
    (var last := |run| - 1;
     IsTrace(env, s, run[..last]) && Enabled(env, After(env, s, run[..last]), run[last]))
  }

  ghost function After(env: RP.Env, s: Sys, run: seq<Event>): (s': Sys)
    requires ValidSys(s) && IsTrace(env, s, run)
    ensures ValidSys(s')
    decreases |run|, 1
  {
    if run == [] then s
    else
      var last := |run| - 1;
      NextValid(After(env, s, run[..last]), run[last]);
      Next(After(env, s, run[..last]), run[last])
  }

  // ----- pod CIDRs and the blocks they meet

  /** One pod CIDR of one holder. */
  datatype Slot = Slot(h: Holder, i: nat)

  predicate IsSlot(s: Sys, x: Slot) {
    x.h in s.hold && x.i < |s.hold[x.h]|
  }

  function Pod(s: Sys, x: Slot): Prefix
    requires IsSlot(s, x)
  {
    s.hold[x.h][x.i]
  }

  lemma PodValid(s: Sys, x: Slot)
    requires ValidSys(s) && IsSlot(s, x)
    ensures Pod(s, x).Valid()
  {
    assert Pod(s, x) in s.hold[x.h];
  }

  /** The pod CIDR meets the block. */
  ghost predicate Needs(s: Sys, x: Slot, k: Prefix, b: nat)
    requires ValidSys(s)
  {
    IsSlot(s, x) && k in s.m && Pod(s, x).Valid() && b in Cover(s.m[k].g, Pod(s, x))
  }

  /** ... and its release frees it. */
  ghost predicate Frees(s: Sys, x: Slot, k: Prefix, b: nat)
    requires ValidSys(s)
  {
    Needs(s, x, k, b) && Hit(s.m, k, Pod(s, x).First())
  }

  /** No two pod CIDRs of live nodes share an address. */
  ghost predicate PodsDisjoint(s: Sys)
    requires ValidSys(s)
  {
    forall x: Slot, y: Slot, a: Addr |
      IsSlot(s, x) && IsSlot(s, y) && x.h.Node? && y.h.Node? && x != y && Pod(s, x).Valid() && Pod(s, y).Valid() ::
      !(Pod(s, x).Covers(a) && Pod(s, y).Covers(a))
  }

  /** A start after the node list was gone through: the cluster CIDRs have their sets, nothing is in
      flight, live pod CIDRs share no address, and those of one node share no block. */
  ghost predicate Start(s: Sys) {
    && ValidSys(s) && s.work == map[] && (forall h | h in s.hold :: h.Node?)
    && (forall c | c in s.clusters :: c in s.m)
    && PodsDisjoint(s)
    && forall x, y, k, b: nat | Needs(s, x, k, b) && Frees(s, y, k, b) && x.h == y.h :: x == y
  }
}
