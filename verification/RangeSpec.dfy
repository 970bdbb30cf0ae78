/** What the range allocator's operations do to its list of sets, as values. */
module RangeSpec {
  import opened Common
  import opened Prefixes
  import opened Geometry
  import opened SetState

  predicate Config(gs: seq<Geometry>) {
    forall i | 0 <= i < |gs| :: gs[i].Valid()
  }

  predicate ValidPods(pods: seq<Prefix>) {
    forall i | 0 <= i < |pods| :: pods[i].Valid()
  }

  predicate Sets(gs: seq<Geometry>, ss: seq<State>)
    requires Config(gs)
  {
    |ss| == |gs| && forall i | 0 <= i < |gs| :: WellFormed(gs[i], ss[i])
  }

  /** The blocks that occupying or releasing a prefix touches. */
  function Marks(g: Geometry, p: Prefix): set<nat>
    requires g.Valid() && p.Valid()
  {
    if Indices(g, Some(p)).Ok? then Cover(g, p) else {}
  }

  /** The blocks a node's pod CIDRs touch in set i: the i-th CIDR belongs to the i-th set. */
  function PodMarks(gs: seq<Geometry>, pods: seq<Prefix>, i: nat): set<nat>
    requires Config(gs) && ValidPods(pods)
  {
    if i < |pods| && i < |gs| then Marks(gs[i], pods[i]) else {}
  }

  function NodeMarks(gs: seq<Geometry>, nodes: seq<seq<Prefix>>, i: nat): set<nat>
    requires Config(gs) && forall n | n in nodes :: ValidPods(n)
  {
    if nodes == [] then {}
    else NodeMarks(gs, nodes[..|nodes| - 1], i) + PodMarks(gs, nodes[|nodes| - 1], i)
  }

  function RangeMarks(gs: seq<Geometry>, ranges: seq<Prefix>, i: nat): set<nat>
    requires Config(gs) && ValidPods(ranges) && i < |gs|
  {
    if ranges == [] then {}
    else RangeMarks(gs, ranges[..|ranges| - 1], i) + Marks(gs[i], ranges[|ranges| - 1])
  }

  /** The i-th pod CIDR has no set, or its set refuses it. */
  predicate Bad(gs: seq<Geometry>, pods: seq<Prefix>, i: nat)
    requires Config(gs) && ValidPods(pods) && i < |pods|
  {
    i >= |gs| || Indices(gs[i], Some(pods[i])).Err?
  }

  predicate AllGood(gs: seq<Geometry>, pods: seq<Prefix>)
    requires Config(gs) && ValidPods(pods)
  {
    forall i: nat | i < |pods| :: !Bad(gs, pods, i)
  }

  /** How many pod CIDRs are handled before the first bad one stops the loop. */
  function GoodPrefix(gs: seq<Geometry>, pods: seq<Prefix>, from: nat): (k: nat)
    requires Config(gs) && ValidPods(pods) && from <= |pods|
    ensures from <= k <= |pods| && (k < |pods| ==> Bad(gs, pods, k))
    ensures forall i: nat | from <= i < k :: !Bad(gs, pods, i)
    decreases |pods| - from
  {
    if from == |pods| || Bad(gs, pods, from) then from else GoodPrefix(gs, pods, from + 1)
  }

  /** The first k sets had their pod CIDR occupied, the others are untouched. */
  predicate OccupiedUpTo(gs: seq<Geometry>, before: seq<State>, after: seq<State>, pods: seq<Prefix>, k: nat)
    requires Config(gs) && ValidPods(pods) && k <= |pods| && k <= |gs|
  {
    && |before| == |after| == |gs|
    && forall i: nat | i < |gs| ::
         after[i] == if i < k then SetState.Occupy(gs[i], before[i], Some(pods[i])) else before[i]
  }

  /** The first k sets had their pod CIDR released, the others are untouched. */
  predicate ReleasedUpTo(gs: seq<Geometry>, before: seq<State>, after: seq<State>, pods: seq<Prefix>, k: nat)
    requires Config(gs) && ValidPods(pods) && k <= |pods| && k <= |gs|
  {
    && |before| == |after| == |gs|
    && forall i: nat | i < |gs| ::
         after[i] == if i < k then SetState.Release(gs[i], before[i], Some(pods[i])) else before[i]
  }

  /** How many sets hand out a block before the first exhausted one stops the loop. */
  function Reservable(gs: seq<Geometry>, ss: seq<State>, from: nat): (k: nat)
    requires Config(gs) && |ss| == |gs| && from <= |gs|
    ensures from <= k <= |gs| && (k < |gs| ==> Allocate(gs[k], ss[k]).1.None?)
    ensures forall i: nat | from <= i < k :: Allocate(gs[i], ss[i]).1.Some?
    decreases |gs| - from
  {
    if from == |gs| || Allocate(gs[from], ss[from]).1.None? then from else Reservable(gs, ss, from + 1)
  }

  /** One block was reserved from each of the first k sets, the others are untouched. */
  predicate ReservedUpTo(gs: seq<Geometry>, before: seq<State>, after: seq<State>, got: seq<Prefix>, k: nat)
    requires Config(gs) && k <= |gs|
  {
    && |before| == |after| == |gs| && |got| == k
    && forall i: nat | i < |gs| ::
         if i < k then
           && Allocate(gs[i], before[i]).1.Some?
           && after[i] == Allocate(gs[i], before[i]).0
           && got[i] == gs[i].Block(Allocate(gs[i], before[i]).1.value)
         else after[i] == before[i]
  }

  /** What the caller of the constructor guarantees about the cluster CIDRs and node masks. */
  predicate ValidParams(clusters: seq<Prefix>, masks: seq<nat>) {
    && |clusters| == |masks|
    && forall i | 0 <= i < |clusters| ::
         clusters[i].Valid() && clusters[i].len <= masks[i] <= Width(clusters[i].family)
  }

  predicate Buildable(clusters: seq<Prefix>, masks: seq<nat>)
    requires |clusters| == |masks|
  {
    forall i | 0 <= i < |clusters| :: NewGeometry(clusters[i], masks[i]).Ok?
  }

  function GeometriesOf(clusters: seq<Prefix>, masks: seq<nat>): (gs: seq<Geometry>)
    requires ValidParams(clusters, masks)
    ensures |gs| == |clusters| && forall i | 0 <= i < |gs| :: gs[i] == Geometry(clusters[i], masks[i])
    ensures Buildable(clusters, masks) ==> Config(gs)
  {
    seq(|clusters|, i requires 0 <= i < |clusters| => Geometry(clusters[i], masks[i]))
  }

  /** The sets a fresh allocator starts from: exactly the blocks of the service ranges and of the
      listed nodes are in use. */
  ghost predicate Constructed(gs: seq<Geometry>, ss: seq<State>, ranges: seq<Prefix>, nodes: seq<seq<Prefix>>)
    requires Config(gs) && ValidPods(ranges) && forall n | n in nodes :: ValidPods(n)
  {
    && |ss| == |gs|
    && forall i: nat | i < |gs| :: ss[i] == State(RangeMarks(gs, ranges, i) + NodeMarks(gs, nodes, i), 0)
  }

  lemma ConstructedEmpty(gs: seq<Geometry>, ss: seq<State>)
    requires Config(gs) && |ss| == |gs| && forall i: nat | i < |gs| :: ss[i] == State({}, 0)
    ensures Constructed(gs, ss, [], [])
  {
  }

  lemma ConstructedRange(gs: seq<Geometry>, before: seq<State>, after: seq<State>, ranges: seq<Prefix>, range: Prefix)
    requires Config(gs) && ValidPods(ranges) && range.Valid() && Constructed(gs, before, ranges, [])
    requires FilteredUpTo(gs, before, after, range, |gs|)
    ensures Constructed(gs, after, ranges + [range], [])
  {
    assert (ranges + [range])[..|ranges|] == ranges;
  }

  lemma ConstructedNode(gs: seq<Geometry>, before: seq<State>, after: seq<State>, ranges: seq<Prefix>,
                        nodes: seq<seq<Prefix>>, pods: seq<Prefix>)
    requires Config(gs) && ValidPods(ranges) && ValidPods(pods) && forall n | n in nodes :: ValidPods(n)
    requires Constructed(gs, before, ranges, nodes)
    requires |pods| <= |gs| && OccupiedUpTo(gs, before, after, pods, |pods|)
    ensures Constructed(gs, after, ranges, nodes + [pods])
  {
    assert (nodes + [pods])[..|nodes|] == nodes;
  }

  // ----- the decision on the re-read node, and patch errors

  datatype Verdict =
    | Lost        // the node is not in the cache any more: an error, the blocks stay reserved
    | Matches     // the cached node has exactly the proposed list
    | Reject      // the cached node has another list: the blocks go back
    | Proceed     // the cached node has none: patch it

  function Reread(cached: Option<seq<Prefix>>, proposed: seq<Prefix>): Verdict {
    if cached.None? then Lost
    else if cached.value == proposed then Matches
    else if cached.value != [] then Reject
    else Proceed
  }

  datatype PatchError = ServerTimeout | OtherFailure | Untyped

  /** PatchNodeCIDRs formats the API error into a new one, which drops its kind. */
  function Flatten(e: PatchError): PatchError {
    Untyped
  }

  predicate IsServerTimeout(e: PatchError) {
    e == ServerTimeout
  }

  const CIDR_UPDATE_RETRIES := 3

  // ----- reserving and giving back

  /** The same blocks are in use as before, in every set but exactly those of 2^32 blocks. */
  predicate GivenBack(gs: seq<Geometry>, before: seq<State>, after: seq<State>) {
    && |before| == |after| == |gs|
    && forall i: nat | i < |gs| :: after[i].used == before[i].used <==> !gs[i].Wide()
  }

  /** The range was occupied in the first k sets, the others are untouched. */
  predicate FilteredUpTo(gs: seq<Geometry>, before: seq<State>, after: seq<State>, range: Prefix, k: nat)
    requires Config(gs) && range.Valid() && k <= |gs|
  {
    && |before| == |after| == |gs|
    && forall i: nat | i < |gs| ::
         after[i] == if i < k then SetState.Occupy(gs[i], before[i], Some(range)) else before[i]
  }

  lemma FilteredOneMore(gs: seq<Geometry>, start: seq<State>, before: seq<State>, after: seq<State>,
                        range: Prefix, k: nat)
    requires Config(gs) && range.Valid() && k < |gs| && FilteredUpTo(gs, start, before, range, k)
    requires ChangedAt(before, after, k)
    requires after[k] == if OutOfCluster(gs[k].cluster, range) then before[k]
                         else SetState.Occupy(gs[k], before[k], Some(range))
    ensures FilteredUpTo(gs, start, after, range, k + 1)
  {
  }

  /** Only the k-th set may differ. */
  predicate ChangedAt(before: seq<State>, after: seq<State>, k: nat) {
    && |after| == |before|
    && k < |before|
    && forall i: nat | i < |before| && i != k :: after[i] == before[i]
  }

  lemma OccupiedOneMore(gs: seq<Geometry>, start: seq<State>, before: seq<State>, after: seq<State>,
                        pods: seq<Prefix>, k: nat)
    requires Config(gs) && ValidPods(pods) && k < |pods| && k < |gs|
    requires OccupiedUpTo(gs, start, before, pods, k)
    requires ChangedAt(before, after, k) && after[k] == SetState.Occupy(gs[k], before[k], Some(pods[k]))
    ensures OccupiedUpTo(gs, start, after, pods, k + 1)
  {
  }

  lemma ReleasedOneMore(gs: seq<Geometry>, start: seq<State>, before: seq<State>, after: seq<State>,
                        pods: seq<Prefix>, k: nat)
    requires Config(gs) && ValidPods(pods) && k < |pods| && k < |gs|
    requires ReleasedUpTo(gs, start, before, pods, k)
    requires ChangedAt(before, after, k) && after[k] == SetState.Release(gs[k], before[k], Some(pods[k]))
    ensures ReleasedUpTo(gs, start, after, pods, k + 1)
  {
  }

  lemma ReservedOneMore(gs: seq<Geometry>, start: seq<State>, before: seq<State>, after: seq<State>,
                        got: seq<Prefix>, k: nat)
    requires Config(gs) && k < |gs| && ReservedUpTo(gs, start, before, got, k)
    requires ChangedAt(before, after, k) && after[k] == Allocate(gs[k], before[k]).0
    ensures match Allocate(gs[k], start[k]).1
            case None => ReservedUpTo(gs, start, after, got, k)
            case Some(b) => ReservedUpTo(gs, start, after, got + [gs[k].Block(b)], k + 1)
  {
    assert before[k] == start[k];
  }

  lemma ReservedValid(gs: seq<Geometry>, before: seq<State>, after: seq<State>, got: seq<Prefix>, k: nat)
    requires Config(gs) && Sets(gs, before) && k <= |gs|
    requires ReservedUpTo(gs, before, after, got, k)
    ensures ValidPods(got) && Sets(gs, after)
  {
    forall i: nat | i < |gs|
      ensures WellFormed(gs[i], after[i]) && (i < k ==> got[i].Valid())
    {
      AllocateDequeues(gs[i], before[i]);
      if i < k {
        BlockInside(gs[i], Allocate(gs[i], before[i]).1.value);
      }
    }
  }

  /** A set of 2^32 blocks refuses the return of a block, which stays marked. */
  lemma WideKeepsBlock(g: Geometry, s: State, b: nat)
    requires g.Valid() && g.Wide() && b < g.Max()
    ensures g.Block(b).Valid() && SetState.Release(g, s, Some(g.Block(b))) == s
  {
    hide Indices;
    BlockInside(g, b);
    IndicesExact(g, Some(g.Block(b)));
  }

  /** Giving back a complete reservation restores which blocks are in use, in every set but
      exactly those of 2^32 blocks. */
  lemma ReserveThenReturnIsNeutral(gs: seq<Geometry>, before: seq<State>, mid: seq<State>, after: seq<State>,
                                   got: seq<Prefix>)
    requires Config(gs) && Sets(gs, before)
    requires ReservedUpTo(gs, before, mid, got, |gs|) && ValidPods(got)
    requires ReleasedUpTo(gs, mid, after, got, |gs|)
    ensures forall i: nat | i < |gs| :: after[i].used == before[i].used <==> !gs[i].Wide()
  {
    hide SetState.Release;
    forall i: nat | i < |gs|
      ensures after[i].used == before[i].used <==> !gs[i].Wide()
    {
      AllocateDequeues(gs[i], before[i]);
      var b := Allocate(gs[i], before[i]).1.value;
      if gs[i].Wide() {
        WideKeepsBlock(gs[i], mid[i], b);
        assert b in after[i].used && b !in before[i].used;
      } else {
        ReleaseBlock(gs[i], mid[i], b);
      }
    }
  }
}
