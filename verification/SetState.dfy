/** The state of one CIDR set as a value: which block indices are in use and where the next
    search starts. The free blocks, read cyclically from the cursor, form a queue. */
module SetState {
  import opened Common
  import opened Prefixes
  import opened Geometry

  datatype State = State(used: set<nat>, next: nat)

  predicate WellFormed(g: Geometry, s: State)
    requires g.Valid()
  {
    s.next < g.Max() && forall i | i in s.used :: i < g.Max()
  }

  /** The free indices of [lo, hi), ascending. */
  function FreeIn(used: set<nat>, lo: nat, hi: nat): seq<nat>
    decreases hi - lo
  {
    if lo >= hi then []
    else (if lo in used then [] else [lo]) + FreeIn(used, lo + 1, hi)
  }

  /** The free indices in cyclic order from the cursor. */
  function Queue(g: Geometry, s: State): seq<nat>
    requires g.Valid()
  {
    FreeIn(s.used, s.next, g.Max()) + FreeIn(s.used, 0, s.next)
  }

  /** Hands out the head of the queue and moves the cursor just behind it. */
  function Allocate(g: Geometry, s: State): (State, Option<nat>)
    requires g.Valid()
  {
    var q := Queue(g, s);
    if q == [] then (s, None)
    else (Advance(g, s, q[0]), Some(q[0]))
  }

  /** Marks every block that meets the CIDR; an error changes nothing. */
  function Occupy(g: Geometry, s: State, cidr: Option<Prefix>): State
    requires g.Valid() && (cidr.Some? ==> cidr.value.Valid())
  {
    if Indices(g, cidr).Err? then s else s.(used := s.used + Cover(g, cidr.value))
  }

  /** Frees every block that meets the CIDR; an error changes nothing. */
  function Release(g: Geometry, s: State, cidr: Option<Prefix>): State
    requires g.Valid() && (cidr.Some? ==> cidr.value.Valid())
  {
    if Indices(g, cidr).Err? then s else s.(used := s.used - Cover(g, cidr.value))
  }

  lemma OccupyWellFormed(g: Geometry, s: State, p: Prefix)
    requires g.Valid() && p.Valid() && WellFormed(g, s)
    ensures WellFormed(g, Occupy(g, s, Some(p))) && WellFormed(g, Release(g, s, Some(p)))
  {
  }

  // ----- lists of free indices

  lemma {:induction false} FreeInMembers(used: set<nat>, lo: nat, hi: nat)
    ensures forall i: nat :: i in FreeIn(used, lo, hi) <==> lo <= i < hi && i !in used
    decreases hi - lo
  {
    if lo < hi {
      FreeInMembers(used, lo + 1, hi);
    }
  }

  lemma {:induction false} FreeInAscending(used: set<nat>, lo: nat, hi: nat, j: nat, k: nat)
    requires j < k < |FreeIn(used, lo, hi)|
    ensures FreeIn(used, lo, hi)[j] < FreeIn(used, lo, hi)[k]
    decreases hi - lo
  {
    var rest := FreeIn(used, lo + 1, hi);
    FreeInMembers(used, lo + 1, hi);
    if lo in used {
      FreeInAscending(used, lo + 1, hi, j, k);
    } else if j == 0 {
      assert rest[k - 1] in rest;
    } else {
      FreeInAscending(used, lo + 1, hi, j - 1, k - 1);
    }
  }

  lemma {:induction false} FreeInSplit(used: set<nat>, lo: nat, mid: nat, hi: nat)
    requires lo <= mid <= hi
    ensures FreeIn(used, lo, hi) == FreeIn(used, lo, mid) + FreeIn(used, mid, hi)
    decreases mid - lo
  {
    if lo < mid {
      FreeInSplit(used, lo + 1, mid, hi);
    }
  }

  lemma {:induction false} FreeInFrame(used: set<nat>, used': set<nat>, lo: nat, hi: nat)
    requires forall i: nat | lo <= i < hi :: i in used <==> i in used'
    ensures FreeIn(used, lo, hi) == FreeIn(used', lo, hi)
    decreases hi - lo
  {
    if lo < hi {
      FreeInFrame(used, used', lo + 1, hi);
    }
  }

  lemma {:induction false} FreeInCount(used: set<nat>, hi: nat)
    requires forall i | i in used :: i < hi
    ensures |FreeIn(used, 0, hi)| == hi - |used|
  {
    if hi == 0 {
      assert used == {};
    } else {
      FreeInSplit(used, 0, hi - 1, hi);
      var rest := used - {hi - 1};
      FreeInCount(rest, hi - 1);
      FreeInFrame(used, rest, 0, hi - 1);
      if hi - 1 !in used {
        assert rest == used;
      }
      assert FreeIn(used, hi - 1, hi) == if hi - 1 in used then [] else [hi - 1];
    }
  }

  /** Scanning over used indices loses nothing of the list. */
  lemma {:induction false} SkipUsed(used: set<nat>, lo: nat, mid: nat, hi: nat)
    requires lo <= mid <= hi
    requires forall i: nat | lo <= i < mid :: i in used
    ensures FreeIn(used, lo, hi) == FreeIn(used, mid, hi)
    decreases mid - lo
  {
    if lo < mid {
      SkipUsed(used, lo + 1, mid, hi);
    }
  }

  /** The head of the list is the first free index of the interval. */
  lemma {:induction false} HeadIsFirst(used: set<nat>, lo: nat, hi: nat)
    requires FreeIn(used, lo, hi) != []
    ensures var b := FreeIn(used, lo, hi)[0];
            lo <= b < hi && b !in used && forall i: nat | lo <= i < b :: i in used
    decreases hi - lo
  {
    if lo in used {
      HeadIsFirst(used, lo + 1, hi);
    }
  }

  lemma {:induction false} AllUsed(used: set<nat>, lo: nat, hi: nat)
    requires FreeIn(used, lo, hi) == []
    ensures forall i: nat | lo <= i < hi :: i in used
    decreases hi - lo
  {
    if lo < hi {
      AllUsed(used, lo + 1, hi);
    }
  }

  lemma QueueDistinct(g: Geometry, s: State, j: nat, k: nat)
    requires g.Valid() && j < k < |Queue(g, s)|
    ensures Queue(g, s)[j] != Queue(g, s)[k]
  {
    var n := g.Max();
    var hi, lo := FreeIn(s.used, s.next, n), FreeIn(s.used, 0, s.next);
    if k < |hi| {
      FreeInAscending(s.used, s.next, n, j, k);
    } else if |hi| <= j {
      FreeInAscending(s.used, 0, s.next, j - |hi|, k - |hi|);
    } else {
      FreeInMembers(s.used, 0, s.next);
      FreeInMembers(s.used, s.next, n);
      assert hi[j] in hi && lo[k - |hi|] in lo;
    }
  }

  /** The queue holds every free index exactly once, so its length is what the counter leaves. */
  lemma QueueListsFree(g: Geometry, s: State)
    requires g.Valid() && WellFormed(g, s)
    ensures |Queue(g, s)| == g.Max() - |s.used|
    ensures forall i: nat :: i in Queue(g, s) <==> i < g.Max() && i !in s.used
    ensures var q := Queue(g, s); forall j, k :: 0 <= j < k < |q| ==> q[j] != q[k]
  {
    var n, q := g.Max(), Queue(g, s);
    FreeInSplit(s.used, 0, s.next, n);
    FreeInCount(s.used, n);
    FreeInMembers(s.used, 0, s.next);
    FreeInMembers(s.used, s.next, n);
    forall j, k | 0 <= j < k < |q|
      ensures q[j] != q[k]
    {
      QueueDistinct(g, s, j, k);
    }
  }

  /** i comes before b when walking cyclically from `from`. */
  predicate Between(from: nat, i: nat, b: nat) {
    if from <= b then from <= i < b else from <= i || i < b
  }

  /** b is free and nothing free lies between it and the cursor. */
  predicate FirstFree(g: Geometry, s: State, b: nat)
    requires g.Valid()
  {
    b < g.Max() && b !in s.used && forall i: nat | i < g.Max() && Between(s.next, i, b) :: i in s.used
  }

  function Advance(g: Geometry, s: State, b: nat): State
    requires g.Valid()
  {
    State(s.used + {b}, (b + 1) % g.Max())
  }

  /** The first free index is the head of the queue, and taking it leaves the tail. */
  lemma FirstFreeIsHead(g: Geometry, s: State, b: nat)
    requires g.Valid() && WellFormed(g, s) && FirstFree(g, s, b)
    ensures Queue(g, s) == [b] + Queue(g, Advance(g, s, b))
    ensures WellFormed(g, Advance(g, s, b))
  {
    if s.next <= b {
      HeadAhead(s.used, s.next, b, g.Max());
    } else {
      HeadWrapped(s.used, s.next, b, g.Max());
    }
    CursorStep(b, g.Max());
    QueueBehind(g, Advance(g, s, b), b);
  }

  /** With the cursor just behind b, the queue starts after b and ends with it. */
  lemma QueueBehind(g: Geometry, s: State, b: nat)
    requires g.Valid() && b < g.Max() && s.next == (b + 1) % g.Max()
    ensures Queue(g, s) == FreeIn(s.used, b + 1, g.Max()) + FreeIn(s.used, 0, b + 1)
  {
    CursorStep(b, g.Max());
    if b + 1 == g.Max() {
      assert FreeIn(s.used, 0, 0) == [] && FreeIn(s.used, b + 1, b + 1) == [];
    }
  }

  /** Allocation hands out the first free index. */
  lemma AllocateFirstFree(g: Geometry, s: State, b: nat)
    requires g.Valid() && WellFormed(g, s) && FirstFree(g, s, b)
    ensures Allocate(g, s) == (Advance(g, s, b), Some(b))
    ensures WellFormed(g, Advance(g, s, b)) && |Advance(g, s, b).used| == |s.used| + 1
    ensures IndexToCIDRBlock(g, b) == g.Block(b)
  {
    FirstFreeIsHead(g, s, b);
    IndexToCIDRBlockCorrect(g, b);
  }

  lemma AllocateFull(g: Geometry, s: State)
    requires g.Valid() && WellFormed(g, s) && |s.used| == g.Max()
    ensures Allocate(g, s) == (s, None)
  {
    QueueListsFree(g, s);
  }

  lemma CursorStep(b: nat, n: nat)
    requires b < n
    ensures (b + 1) % n == if b + 1 == n then 0 else b + 1
  {
    if b + 1 == n {
      Bits.DivModUnique(n, n, 1, 0);
    } else {
      Bits.DivModUnique(b + 1, n, 0, b + 1);
    }
  }

  lemma HeadAhead(used: set<nat>, from: nat, b: nat, n: nat)
    requires from <= b < n && b !in used
    requires forall i: nat | from <= i < b :: i in used
    ensures FreeIn(used, from, n) + FreeIn(used, 0, from) ==
            [b] + (FreeIn(used + {b}, b + 1, n) + FreeIn(used + {b}, 0, b + 1))
  {
    var used' := used + {b};
    SkipUsed(used, from, b, n);
    FreeInFrame(used, used', b + 1, n);
    FreeInFrame(used, used', 0, from);
    FreeInSplit(used', 0, from, b + 1);
    SkipUsed(used', from, b + 1, b + 1);
    var ahead, behind := FreeIn(used, b + 1, n), FreeIn(used, 0, from);
    assert FreeIn(used, from, n) == [b] + ahead;
    assert FreeIn(used', 0, b + 1) == behind;
    assert ([b] + ahead) + behind == [b] + (ahead + behind);
  }

  lemma HeadWrapped(used: set<nat>, from: nat, b: nat, n: nat)
    requires b < from <= n && b !in used
    requires forall i: nat | from <= i < n || i < b :: i in used
    ensures FreeIn(used, from, n) + FreeIn(used, 0, from) ==
            [b] + (FreeIn(used + {b}, b + 1, n) + FreeIn(used + {b}, 0, b + 1))
  {
    var used' := used + {b};
    SkipUsed(used, from, n, n);
    SkipUsed(used, 0, b, from);
    FreeInFrame(used, used', b + 1, from);
    FreeInSplit(used', b + 1, from, n);
    SkipUsed(used', from, n, n);
    SkipUsed(used', 0, b + 1, b + 1);
  }

  /** The head of the queue is the first free index. */
  lemma HeadIsFirstFree(g: Geometry, s: State)
    requires g.Valid() && WellFormed(g, s) && Queue(g, s) != []
    ensures FirstFree(g, s, Queue(g, s)[0])
  {
    if FreeIn(s.used, s.next, g.Max()) != [] {
      HeadIsFirst(s.used, s.next, g.Max());
    } else {
      AllUsed(s.used, s.next, g.Max());
      HeadIsFirst(s.used, 0, s.next);
    }
  }

  // ----- the circular scan and the index loops

  /** Where a circular scan from `from` stands after `steps` steps. */
  function ScanPosition(from: nat, steps: nat, max: nat): int {
    if from + steps < max then from + steps else from + steps - max
  }

  /** The first `steps` indices of the scan are all in use. */
  predicate ScannedUsed(used: set<nat>, from: nat, steps: nat, max: nat) {
    forall j: nat | j < max && (if from <= j then j - from else j + max - from) < steps :: j in used
  }

  lemma ScanStep(used: set<nat>, from: nat, steps: nat, max: nat)
    requires from < max && steps < max && ScannedUsed(used, from, steps, max)
    ensures 0 <= ScanPosition(from, steps, max) < max
    ensures (ScanPosition(from, steps, max) + 1) % max == ScanPosition(from, steps + 1, max)
    ensures ScanPosition(from, steps, max) in used ==> ScannedUsed(used, from, steps + 1, max)
  {
    CursorStep(ScanPosition(from, steps, max), max);
  }

  /** If the counter leaves room, the bounded scan ends on a free index, the first from the
      cursor: a scan that met only used indices would have met them all. */
  lemma ScanFindsFirstFree(g: Geometry, s: State, steps: nat)
    requires g.Valid() && WellFormed(g, s) && |s.used| != g.Max() && steps <= g.Max()
    requires ScannedUsed(s.used, s.next, steps, g.Max())
    requires steps == g.Max() || ScanPosition(s.next, steps, g.Max()) !in s.used
    ensures steps < g.Max() && FirstFree(g, s, ScanPosition(s.next, steps, g.Max()))
  {
    SomeFree(g, s);
  }

  /** Pigeonhole: a count other than the number of blocks leaves a block free. */
  lemma SomeFree(g: Geometry, s: State)
    requires g.Valid() && WellFormed(g, s) && |s.used| != g.Max()
    ensures exists b: nat :: b < g.Max() && b !in s.used
  {
    QueueListsFree(g, s);
    var b := Queue(g, s)[0];
    assert b in Queue(g, s);
  }

  /** The indices the Release and Occupy loops have visited. */
  lemma VisitedIsCover(g: Geometry, cidr: Option<Prefix>, before: set<nat>, after: set<nat>)
    requires g.Valid() && (cidr.Some? ==> cidr.value.Valid()) && Indices(g, cidr).Ok?
    ensures var (begin, end) := Indices(g, cidr).value;
            && 0 <= begin <= end < g.Max()
            && ((forall j: nat :: j in after <==> j in before || begin <= j <= end) ==>
                  after == before + Cover(g, cidr.value))
            && ((forall j: nat :: j in after <==> j in before && !(begin <= j <= end)) ==>
                  after == before - Cover(g, cidr.value))
  {
    IndicesExact(g, cidr);
  }

  // ----- allocation as a queue

  /** One allocation takes the head of the queue: it fails exactly when nothing is free, hands
      out a free index otherwise, and leaves the rest of the queue in its order. */
  lemma AllocateDequeues(g: Geometry, s: State)
    requires g.Valid() && WellFormed(g, s)
    ensures var (s', r) := Allocate(g, s);
            && WellFormed(g, s')
            && (r.None? <==> |s.used| == g.Max())
            && (r.None? ==> s' == s)
            && (r.Some? ==> r.value < g.Max() && r.value !in s.used &&
                            Queue(g, s) == [r.value] + Queue(g, s'))
  {
    QueueListsFree(g, s);
    if Queue(g, s) != [] {
      HeadIsFirstFree(g, s);
      FirstFreeIsHead(g, s, Queue(g, s)[0]);
    }
  }

  /** k allocations in a row: the final state and the indices handed out. */
  function AllocateMany(g: Geometry, s: State, k: nat): (State, seq<nat>)
    requires g.Valid()
    decreases k
  {
    if k == 0 then (s, [])
    else
      var (s1, r) := Allocate(g, s);
      var (s2, rest) := AllocateMany(g, s1, k - 1);
      (s2, if r.Some? then [r.value] + rest else rest)
  }

  /** k consecutive allocations hand out the first k entries of the queue in order; once the
      queue is used up, every further one fails. */
  lemma {:induction false} Drain(g: Geometry, s: State, k: nat)
    requires g.Valid() && WellFormed(g, s)
    ensures var (s', got) := AllocateMany(g, s, k);
            var q := Queue(g, s);
            && WellFormed(g, s')
            && got == (if k <= |q| then q[..k] else q)
            && Queue(g, s') == (if k <= |q| then q[k..] else [])
    decreases k
  {
    var q := Queue(g, s);
    if k == 0 {
      assert q[..0] == [] && q[0..] == q;
    } else {
      AllocateDequeues(g, s);
      var s1 := Allocate(g, s).0;
      Drain(g, s1, k - 1);
      if q != [] {
        DrainStep(q, Queue(g, s1), k);
      }
    }
  }

  lemma DrainStep(q: seq<nat>, q1: seq<nat>, k: nat)
    requires k > 0 && q != [] && q == [q[0]] + q1
    ensures k <= |q| ==> q[..k] == [q[0]] + q1[..k - 1] && q[k..] == q1[k - 1..]
  {
  }

  /** With f blocks free, exactly f allocations succeed, they return every free block once, and
      the next one fails. */
  lemma DrainExactly(g: Geometry, s: State)
    requires g.Valid() && WellFormed(g, s)
    ensures |s.used| <= g.Max()
    ensures var f := g.Max() - |s.used|;
            var (s', got) := AllocateMany(g, s, f);
            && |got| == f
            && (forall i: nat :: i in got <==> i < g.Max() && i !in s.used)
            && Allocate(g, s').1.None?
  {
    QueueListsFree(g, s);
    var f := |Queue(g, s)|;
    Drain(g, s, f);
    assert Queue(g, s)[..f] == Queue(g, s);
  }

  /** Releasing a single block gives back exactly its index. */
  lemma ReleaseBlock(g: Geometry, s: State, b: nat)
    requires g.Valid() && !g.Wide() && b < g.Max()
    ensures g.Block(b).Valid() && Release(g, s, Some(g.Block(b))) == State(s.used - {b}, s.next)
  {
    CoverOfBlock(g, b);
    BlockInside(g, b);
    IndicesExact(g, Some(g.Block(b)));
  }

  /** A block handed out and released at once is the last to come back. */
  lemma ReleasedComesBackLast(g: Geometry, s: State, b: nat)
    requires g.Valid() && WellFormed(g, s) && !g.Wide() && Allocate(g, s).1 == Some(b)
    ensures g.Block(b).Valid()
    ensures Queue(g, Release(g, Allocate(g, s).0, Some(g.Block(b)))) == Queue(g, s)[1..] + [b]
  {
    AllocateDequeues(g, s);
    var s1 := Allocate(g, s).0;
    ReleaseBlock(g, s1, b);
    QueueBehind(g, s1, b);
    QueueBehind(g, State(s1.used - {b}, s1.next), b);
    FreedBehindCursor(s1.used, b, g.Max());
  }

  lemma FreedBehindCursor(used: set<nat>, b: nat, n: nat)
    requires b < n && b in used
    ensures FreeIn(used - {b}, b + 1, n) + FreeIn(used - {b}, 0, b + 1) ==
            FreeIn(used, b + 1, n) + FreeIn(used, 0, b + 1) + [b]
  {
    var used' := used - {b};
    FreeInFrame(used, used', b + 1, n);
    FreeInFrame(used, used', 0, b);
    FreeInSplit(used, 0, b, b + 1);
    FreeInSplit(used', 0, b, b + 1);
    assert FreeIn(used, b, b + 1) == [] && FreeIn(used', b, b + 1) == [b];
  }

  // ----- marking and freeing, seen from the queue

  /** The entries outside a set, in their order. */
  function Without(q: seq<nat>, out: set<nat>): seq<nat> {
    if q == [] then [] else (if q[0] in out then [] else [q[0]]) + Without(q[1..], out)
  }

  lemma {:induction false} WithoutAppend(q: seq<nat>, q': seq<nat>, out: set<nat>)
    ensures Without(q + q', out) == Without(q, out) + Without(q', out)
  {
    if q == [] {
      assert q + q' == q';
    } else {
      assert (q + q')[1..] == q[1..] + q';
      WithoutAppend(q[1..], q', out);
    }
  }

  lemma {:induction false} FreeInWithout(used: set<nat>, out: set<nat>, lo: nat, hi: nat)
    ensures FreeIn(used + out, lo, hi) == Without(FreeIn(used, lo, hi), out)
    decreases hi - lo
  {
    if lo < hi {
      FreeInWithout(used, out, lo + 1, hi);
      WithoutAppend(if lo in used then [] else [lo], FreeIn(used, lo + 1, hi), out);
      assert Without([lo], out) == if lo in out then [] else [lo];
    }
  }

  /** Marking a CIDR takes its blocks out of the queue and keeps the order of the others; freeing it
      puts them back into their places. The cursor stays. */
  lemma MarkingThinsQueue(g: Geometry, s: State, p: Prefix)
    requires g.Valid() && p.Valid() && Indices(g, Some(p)).Ok?
    ensures Queue(g, Occupy(g, s, Some(p))) == Without(Queue(g, s), Cover(g, p))
    ensures Queue(g, s) == Without(Queue(g, Release(g, s, Some(p))), s.used * Cover(g, p))
  {
    hide Indices, Cover;
    ThinnedQueue(g, s, Occupy(g, s, Some(p)), Cover(g, p));
    var back := Release(g, s, Some(p));
    assert s.used == back.used + s.used * Cover(g, p);
    ThinnedQueue(g, back, s, s.used * Cover(g, p));
  }

  lemma ThinnedQueue(g: Geometry, s: State, s': State, out: set<nat>)
    requires g.Valid() && s'.used == s.used + out && s'.next == s.next
    ensures Queue(g, s') == Without(Queue(g, s), out)
  {
    FreeInWithout(s.used, out, s.next, g.Max());
    FreeInWithout(s.used, out, 0, s.next);
    WithoutAppend(FreeIn(s.used, s.next, g.Max()), FreeIn(s.used, 0, s.next), out);
  }

  // ----- runs of calls

  datatype Op = Alloc | Occ(cidr: Option<Prefix>) | Rel(cidr: Option<Prefix>) {
    predicate Valid() {
      match this
      case Alloc => true
      case Occ(cidr) => cidr.Some? ==> cidr.value.Valid()
      case Rel(cidr) => cidr.Some? ==> cidr.value.Valid()
    }
  }

  function Apply(g: Geometry, s: State, op: Op): (State, seq<nat>)
    requires g.Valid() && op.Valid()
  {
    match op
    case Alloc => var (s', r) := Allocate(g, s); (s', if r.Some? then [r.value] else [])
    case Occ(cidr) => (Occupy(g, s, cidr), [])
    case Rel(cidr) => (Release(g, s, cidr), [])
  }

  /** Final state and the indices handed out, in order, over a sequence of calls. */
  function Run(g: Geometry, s: State, ops: seq<Op>): (State, seq<nat>)
    requires g.Valid() && forall op | op in ops :: op.Valid()
    decreases |ops|
  {
    if ops == [] then (s, [])
    else
      var (s1, got) := Apply(g, s, ops[0]);
      var (s2, rest) := Run(g, s1, ops[1..]);
      (s2, got + rest)
  }

  ghost predicate NeverReleases(g: Geometry, ops: seq<Op>, kept: set<nat>)
    requires g.Valid() && forall op | op in ops :: op.Valid()
  {
    forall op | op in ops :: op.Rel? && op.cidr.Some? ==> op.Valid() && Cover(g, op.cidr.value) !! kept
  }

  /** Indices in use stay in use, and are never handed out, over every sequence of calls in
      which no release covers them; the state stays well formed whatever the calls. */
  lemma {:induction false} KeptOverRuns(g: Geometry, s: State, ops: seq<Op>, kept: set<nat>)
    requires g.Valid() && WellFormed(g, s) && forall op | op in ops :: op.Valid()
    requires kept <= s.used && NeverReleases(g, ops, kept)
    ensures var (s', got) := Run(g, s, ops);
            && WellFormed(g, s')
            && kept <= s'.used
            && forall i | i in got :: i < g.Max() && i !in kept
    decreases |ops|
  {
    if ops != [] {
      assert ops[0] in ops;
      KeptByOne(g, s, ops[0], kept);
      KeptOverRuns(g, Apply(g, s, ops[0]).0, ops[1..], kept);
    }
  }

  lemma KeptByOne(g: Geometry, s: State, op: Op, kept: set<nat>)
    requires g.Valid() && WellFormed(g, s) && op.Valid() && kept <= s.used
    requires op.Rel? && op.cidr.Some? ==> Cover(g, op.cidr.value) !! kept
    ensures var (s', got) := Apply(g, s, op);
            && WellFormed(g, s')
            && kept <= s'.used
            && forall i | i in got :: i < g.Max() && i !in kept
  {
    AllocateDequeues(g, s);
  }

  /** The filter that keeps service addresses out of the pool leaves every block that meets the
      range marked if and only if they were marked already, or the set is not `Wide`, or the range
      is not longer than the cluster prefix. */
  lemma FilterMarksRange(g: Geometry, s: State, range: Prefix)
    requires g.Valid() && range.Valid()
    ensures Cover(g, range) <= Occupy(g, s, Some(range)).used <==>
              Cover(g, range) <= s.used || !(g.Wide() && g.cluster.len < range.len)
  {
    hide Indices;
    IndicesExact(g, Some(range));
    CoverEmptyIffDisjoint(g, range);
  }

  lemma CoverEmptyIffDisjoint(g: Geometry, p: Prefix)
    requires g.Valid() && p.Valid()
    ensures Cover(g, p) == {} <==> !g.cluster.Overlaps(p)
  {
    if g.cluster.Overlaps(p) {
      OverlapsMeaning(g.cluster, p);
      var x :| g.cluster.Covers(x) && p.Covers(x);
      BlocksPartitionCluster(g, x);
      assert g.Block(IndexOf(g, x)).Covers(x);
      assert IndexOf(g, x) in Cover(g, p);
    } else if Cover(g, p) != {} {
      var i :| i in Cover(g, p);
      BlockInside(g, i);
    }
  }

  /** After the filter, no block handed out by any later sequence of calls shares an address
      with the filtered range, as long as no release covers it. */
  lemma FilteredNeverAllocated(g: Geometry, s: State, range: Prefix, ops: seq<Op>, a: Addr)
    requires g.Valid() && WellFormed(g, s) && range.Valid() && forall op | op in ops :: op.Valid()
    requires !(g.Wide() && g.cluster.len < range.len)
    requires NeverReleases(g, ops, Cover(g, range))
    ensures forall i | i in Run(g, Occupy(g, s, Some(range)), ops).1 ::
              i < g.Max() && !(IndexToCIDRBlock(g, i).Covers(a) && range.Covers(a))
  {
    IndicesExact(g, Some(range));
    CoverEmptyIffDisjoint(g, range);
    KeptOverRuns(g, Occupy(g, s, Some(range)), ops, Cover(g, range));
    forall i | i in Run(g, Occupy(g, s, Some(range)), ops).1
      ensures i < g.Max() && !(IndexToCIDRBlock(g, i).Covers(a) && range.Covers(a))
    {
      BlockInside(g, i);
      IndexToCIDRBlockCorrect(g, i);
      OverlapsMeaning(g.Block(i), range);
    }
  }
}
