/** The OpenMP parallel merge as concurrent tasks: a loop that spawns left pieces
    while it goes on with the right ones, and a taskwait at the end of each task.
    Tasks interleave at single comparisons, moves and destructions. */
module MergeTasks {
  import opened Sums
  import opened StableOrder
  import opened Keys
  import opened MergeStep
  import opened Pieces
  import opened PieceWeights

  /** A call of parallel_move_merge: in its loop or serial part, at its taskwait, or
      returned. Task 0 is the original call; every other task knows its spawner. */
  datatype Call =
    | Running(spawner: nat, piece: Piece)
    | AtTaskwait(spawner: nat)
    | Returned(spawner: nat)

  datatype State<T> = State(src: seq<Slot<T>>, dst: seq<Slot<T>>, calls: seq<Call>)

  function Initial<T>(src: seq<Slot<T>>, dst: seq<Slot<T>>, p: Piece): State<T> {
    State(src, dst, [Running(0, p)])
  }

  /** All tasks that call i has spawned have returned. */
  predicate ChildrenReturned(calls: seq<Call>, i: nat) {
    forall j :: i < j < |calls| && calls[j].spawner == i ==> calls[j].Returned?
  }

  predicate CanStep<T>(s: State<T>, i: nat) {
    && i < |s.calls|
    && match s.calls[i]
       case Running(_, p) => Safe(p, s.src, s.dst) && (p.Splits() ==> p.xs <= p.XM() && p.ys <= p.YM())
       case AtTaskwait(_) => ChildrenReturned(s.calls, i)
       case Returned(_) => false
  }

  /** The loop spawns the left piece and itself goes on with the right one. */
  function Step<T>(lt: (T, T) -> bool, s: State<T>, i: nat): State<T>
    requires CanStep(s, i)
  {
    match s.calls[i]
    case Running(spawner, p) =>
      if p.Done() then s.(calls := s.calls[i := AtTaskwait(spawner)])
      else if p.Splits() then s.(calls := s.calls[i := Running(spawner, Right(p))] + [Running(i, Left(p))])
      else
        var (p', src', dst') := Advance(lt, p, s.src, s.dst);
        State(src', dst', s.calls[i := Running(spawner, p')])
    case AtTaskwait(spawner) => s.(calls := s.calls[i := Returned(spawner)])
  }

  /** The memory that serial_move_merge, and serial_destroy if asked for, leave. */
  function SerialSrc<T>(src: seq<Slot<T>>, p: Piece): seq<Slot<T>> {
    seq(|src|, k requires 0 <= k < |src| => if p.Reads(k) then p.Gone() else src[k])
  }

  function SerialDst<T>(lt: (T, T) -> bool, x: seq<T>, y: seq<T>, dst: seq<Slot<T>>, p: Piece): seq<Slot<T>>
    requires p.Range().Valid() && |x| == p.xe - p.xs && |y| == p.ye - p.ys
  {
    seq(|dst|, k requires 0 <= k < |dst| => if p.Writes(k) then Live(Merge(lt, x, y)[k - p.zs]) else dst[k])
  }

  /** That is indeed what a merge meeting the contract of parallel_move_merge leaves. */
  lemma SerialMemory<T>(lt: (T, T) -> bool, p: Piece, src: seq<Slot<T>>, src': seq<Slot<T>>, dst: seq<Slot<T>>,
                        dst': seq<Slot<T>>, x: seq<T>, y: seq<T>)
    requires p.Range().Valid() && |x| == p.xe - p.xs && |y| == p.ye - p.ys
    requires Merged(lt, src', dst', p.Range(), x, y, p.Gone()) && OnlyMerged(p.Range(), src, src', dst, dst')
    ensures src' == SerialSrc(src, p) && dst' == SerialDst(lt, x, y, dst, p)
  {
    hide Merge;
  }

  // ---------- Invariant ----------

  ghost predicate Apart(c: Call, d: Call) {
    c.Running? && d.Running? ==>
      && (forall k :: !(c.piece.Reads(k) && d.piece.Reads(k)))
      && (forall k :: !(c.piece.Writes(k) && d.piece.Writes(k)))
  }

  ghost predicate ClaimedSrc(calls: seq<Call>, k: int) {
    exists j :: 0 <= j < |calls| && calls[j].Running? && calls[j].piece.Reads(k)
  }

  ghost predicate ClaimedDst(calls: seq<Call>, k: int) {
    exists j :: 0 <= j < |calls| && calls[j].Running? && calls[j].piece.Writes(k)
  }

  /** The original call's job: where it started, and the keys to come out. */
  datatype Job<T> = Job(p: Piece, src: seq<Slot<T>>, dst: seq<Slot<T>>, base: seq<T>, out: seq<T>)

  ghost predicate RunningOK<T>(lt: (T, T) -> bool, job: Job<T>, s: State<T>, c: Call) {
    c.Running? ==>
      && OnTrack(lt, c.piece, s.src, s.dst, job.base, job.out) && c.piece.destroy == job.p.destroy
      && (forall k :: c.piece.Reads(k) ==> job.p.Reads(k)) && (forall k :: c.piece.Writes(k) ==> job.p.Writes(k))
  }

  /** Every slot of the job is some running call's business or final; all others are
      as they were. */
  ghost predicate SlotsOK<T>(job: Job<T>, s: State<T>) {
    && |s.src| == |job.src| && |s.dst| == |job.dst| && |job.out| >= |s.dst|
    && (forall k :: 0 <= k < |s.src| ==>
          if job.p.Reads(k) then ClaimedSrc(s.calls, k) || s.src[k] == job.p.Gone() else s.src[k] == job.src[k])
    && (forall k :: 0 <= k < |s.dst| ==>
          if job.p.Writes(k) then ClaimedDst(s.calls, k) || s.dst[k] == Live(job.out[k]) else s.dst[k] == job.dst[k])
  }

  ghost predicate CallsOK(calls: seq<Call>) {
    && |calls| > 0
    && (forall i :: 0 < i < |calls| ==> calls[i].spawner < i)
    && (forall i :: 0 <= i < |calls| && calls[i].Returned? ==> ChildrenReturned(calls, i))
    && (forall i, j :: 0 <= i < |calls| && 0 <= j < |calls| && i != j ==> Apart(calls[i], calls[j]))
  }

  ghost predicate Invariant<T>(lt: (T, T) -> bool, job: Job<T>, s: State<T>) {
    && CallsOK(s.calls) && SlotsOK(job, s)
    && forall i :: 0 <= i < |s.calls| ==> RunningOK(lt, job, s, s.calls[i])
  }

  /** A job that may be handed to parallel_move_merge. */
  ghost predicate IsJob<T>(lt: (T, T) -> bool, job: Job<T>) {
    && job.p.phase.Fresh? && OnTrack(lt, job.p, job.src, job.dst, job.base, job.out)
    && |job.out| >= |job.dst|
  }

  function AllKeys<T>(m: seq<Slot<T>>, any: T): seq<T> {
    seq(|m|, k requires 0 <= k < |m| => if m[k].Live? then m[k].key else any)
  }

  lemma KeysOfSlice<T>(m: seq<Slot<T>>, lo: nat, hi: nat, any: T)
    requires AllLive(m, lo, hi)
    ensures |AllKeys(m, any)| == |m| && AllKeys(m, any)[lo..hi] == KeysIn(m, lo, hi)
  {
  }

  function OutOf<T>(p: Piece, m: seq<T>, dst: seq<Slot<T>>, any: T): seq<T>
    requires p.Range().Valid() && |m| == p.Size()
  {
    seq(|dst|, k requires 0 <= k < |dst| => if p.Writes(k) then m[k - p.zs] else any)
  }

  lemma OutSlice<T>(p: Piece, m: seq<T>, dst: seq<Slot<T>>, any: T)
    requires p.Range().Valid() && |m| == p.Size() && p.Range().End() <= |dst|
    ensures |OutOf(p, m, dst, any)| == |dst| && OutOf(p, m, dst, any)[p.zs..p.Range().End()] == m
  {
  }

  /** Whatever may be handed to parallel_move_merge is such a job, for the keys it holds. */
  lemma EveryMergeIsJob<T(!new)>(lt: (T, T) -> bool, p: Piece, src: seq<Slot<T>>, dst: seq<Slot<T>>, any: T)
    returns (job: Job<T>)
    requires p.Range().Valid() && p.phase.Fresh? && AllLive(src, p.xs, p.xe) && AllLive(src, p.ys, p.ye)
    requires Sorted(lt, KeysIn(src, p.xs, p.xe)) && Sorted(lt, KeysIn(src, p.ys, p.ye))
    requires AllConstructed(dst, p.zs, p.Range().End())
    ensures IsJob(lt, job) && job.p == p && job.src == src && job.dst == dst && p.xe <= |job.base| && p.ye <= |job.base|
    ensures job.base[p.xs..p.xe] == KeysIn(src, p.xs, p.xe) && job.base[p.ys..p.ye] == KeysIn(src, p.ys, p.ye)
  {
    hide Merge, Sorted, Merging;
    var x, y := KeysIn(src, p.xs, p.xe), KeysIn(src, p.ys, p.ye);
    var m := Merge(lt, x, y);
    var base := AllKeys(src, any);
    KeysOfSlice(src, p.xs, p.xe, any);
    KeysOfSlice(src, p.ys, p.ye, any);
    hide KeysIn, AllKeys;
    var out := OutOf(p, m, dst, any);
    job := Job(p, src, dst, base, out);
    OutSlice(p, m, dst, any);
    hide OutOf;
    FreshMerging(lt, p, src, dst, x, y);
  }

  lemma InitialInvariant<T>(lt: (T, T) -> bool, job: Job<T>)
    requires IsJob(lt, job)
    ensures Invariant(lt, job, Initial(job.src, job.dst, job.p))
  {
    hide OnTrack;
    var s := Initial(job.src, job.dst, job.p);
    assert s.calls[0].Running?;
  }

  lemma AdvanceKeepsInvariant<T(!new)>(lt: (T, T) -> bool, job: Job<T>, s: State<T>, i: nat)
    requires StrictWeak(lt) && Invariant(lt, job, s) && CanStep(s, i) && s.calls[i].Running?
    requires !s.calls[i].piece.Done() && !s.calls[i].piece.Splits()
    ensures Invariant(lt, job, Step(lt, s, i))
  {
    hide Advance, Safe, OnTrack;
    var p, s' := s.calls[i].piece, Step(lt, s, i);
    assert RunningOK(lt, job, s, s.calls[i]);
    AdvanceKeeps(lt, p, s.src, s.dst, job.base, job.out);
    AdvanceOnlyOwn(lt, p, s.src, s.dst);
    var p' := s'.calls[i].piece;
    SameSlots(p, p');
    forall j | 0 <= j < |s'.calls| ensures RunningOK(lt, job, s', s'.calls[j]) {
      assert RunningOK(lt, job, s, s.calls[j]);
      if j != i && s.calls[j].Running? {
        assert Apart(s.calls[i], s.calls[j]);
        OthersMayMove(lt, s.calls[j].piece, s.src, s'.src, s.dst, s'.dst, job.base, job.out);
      }
    }
    AdvanceCalls(s.calls, i, p');
    ProgressSlots(job, s, s', i, p');
  }

  lemma SameSlots(p: Piece, p': Piece)
    requires p' == p.(phase := p'.phase)
    ensures forall k :: p'.Reads(k) <==> p.Reads(k)
    ensures forall k :: p'.Writes(k) <==> p.Writes(k)
  {
  }

  lemma AdvanceCalls(calls: seq<Call>, i: nat, p': Piece)
    requires CallsOK(calls) && i < |calls| && calls[i].Running?
    requires forall k :: p'.Reads(k) <==> calls[i].piece.Reads(k)
    requires forall k :: p'.Writes(k) <==> calls[i].piece.Writes(k)
    ensures CallsOK(calls[i := calls[i].(piece := p')])
  {
    var calls' := calls[i := calls[i].(piece := p')];
    forall j, k | 0 <= j < |calls'| && 0 <= k < |calls'| && j != k ensures Apart(calls'[j], calls'[k]) {
      assert Apart(calls[j], calls[k]);
    }
    forall j | 0 <= j < |calls'| && calls'[j].Returned? ensures ChildrenReturned(calls', j) {
      assert ChildrenReturned(calls, j);
    }
  }

  lemma ProgressSlots<T>(job: Job<T>, s: State<T>, s': State<T>, i: nat, p': Piece)
    requires SlotsOK(job, s) && i < |s.calls| && s.calls[i].Running?
    requires s'.calls == s.calls[i := s.calls[i].(piece := p')]
    requires OnlyOwn(s.calls[i].piece, s.src, s'.src, s.dst, s'.dst)
    requires forall k :: p'.Reads(k) <==> s.calls[i].piece.Reads(k)
    requires forall k :: p'.Writes(k) <==> s.calls[i].piece.Writes(k)
    requires forall k :: p'.Reads(k) ==> job.p.Reads(k)
    requires forall k :: p'.Writes(k) ==> job.p.Writes(k)
    ensures SlotsOK(job, s')
  {
    forall k | ClaimedSrc(s.calls, k) ensures ClaimedSrc(s'.calls, k) {
      var j :| 0 <= j < |s.calls| && s.calls[j].Running? && s.calls[j].piece.Reads(k);
      assert s'.calls[j].Running? && s'.calls[j].piece.Reads(k);
    }
    forall k | ClaimedDst(s.calls, k) ensures ClaimedDst(s'.calls, k) {
      var j :| 0 <= j < |s.calls| && s.calls[j].Running? && s.calls[j].piece.Writes(k);
      assert s'.calls[j].Running? && s'.calls[j].piece.Writes(k);
    }
    assert s'.calls[i].Running?;
    forall k | 0 <= k < |s.src| && s.calls[i].piece.Reads(k) ensures ClaimedSrc(s'.calls, k) {
      assert s'.calls[i].piece.Reads(k);
    }
    forall k | 0 <= k < |s.dst| && s.calls[i].piece.Writes(k) ensures ClaimedDst(s'.calls, k) {
      assert s'.calls[i].piece.Writes(k);
    }
  }

  lemma SplitKeepsInvariant<T(!new)>(lt: (T, T) -> bool, job: Job<T>, s: State<T>, i: nat)
    requires StrictWeak(lt) && Invariant(lt, job, s) && CanStep(s, i) && s.calls[i].Running?
    requires !s.calls[i].piece.Done() && s.calls[i].piece.Splits()
    ensures Invariant(lt, job, Step(lt, s, i))
  {
    hide Safe, OnTrack, Left, Right;
    var p, s' := s.calls[i].piece, Step(lt, s, i);
    assert RunningOK(lt, job, s, s.calls[i]);
    SplitIsSafe(p, s.src, s.dst);
    SplitKeeps(lt, p, s.src, s.dst, job.base, job.out);
    SplitShares(p);
    assert Left(p).destroy == p.destroy && Right(p).destroy == p.destroy by { PartsDestroy(p); }
    forall j | 0 <= j < |s'.calls| ensures RunningOK(lt, job, s', s'.calls[j]) {
      if j < |s.calls| { assert RunningOK(lt, job, s, s.calls[j]); }
    }
    SplitCalls(s.calls, i, Left(p), Right(p));
    SplitSlots(job, s, s', i, Left(p), Right(p));
  }

  lemma PartsDestroy(p: Piece)
    requires p.Range().Valid() && p.phase.Searching? && p.xs <= p.XM() && p.ys <= p.YM()
    ensures Left(p).destroy == p.destroy && Right(p).destroy == p.destroy
  {
  }

  lemma SplitCalls(calls: seq<Call>, i: nat, l: Piece, r: Piece)
    requires CallsOK(calls) && i < |calls| && calls[i].Running?
    requires forall k :: calls[i].piece.Reads(k) <==> l.Reads(k) || r.Reads(k)
    requires forall k :: calls[i].piece.Writes(k) <==> l.Writes(k) || r.Writes(k)
    requires forall k :: !(l.Reads(k) && r.Reads(k)) && !(l.Writes(k) && r.Writes(k))
    ensures CallsOK(calls[i := calls[i].(piece := r)] + [Running(i, l)])
  {
    var calls' := calls[i := calls[i].(piece := r)] + [Running(i, l)];
    forall j, k | 0 <= j < |calls'| && 0 <= k < |calls'| && j != k ensures Apart(calls'[j], calls'[k]) {
      var j0, k0 := if j < |calls| then j else i, if k < |calls| then k else i;
      assert j0 != k0 ==> Apart(calls[j0], calls[k0]);
    }
    forall j | 0 <= j < |calls'| && calls'[j].Returned? ensures ChildrenReturned(calls', j) {
      assert ChildrenReturned(calls, j);
    }
  }

  lemma SplitSlots<T>(job: Job<T>, s: State<T>, s': State<T>, i: nat, l: Piece, r: Piece)
    requires SlotsOK(job, s) && i < |s.calls| && s.calls[i].Running?
    requires s' == s.(calls := s.calls[i := s.calls[i].(piece := r)] + [Running(i, l)])
    requires forall k :: s.calls[i].piece.Reads(k) <==> l.Reads(k) || r.Reads(k)
    requires forall k :: s.calls[i].piece.Writes(k) <==> l.Writes(k) || r.Writes(k)
    ensures SlotsOK(job, s')
  {
    var m := |s.calls|;
    forall k | ClaimedSrc(s.calls, k) ensures ClaimedSrc(s'.calls, k) {
      var j :| 0 <= j < m && s.calls[j].Running? && s.calls[j].piece.Reads(k);
      var j' := if j == i && !r.Reads(k) then m else j;
      assert s'.calls[j'].Running? && s'.calls[j'].piece.Reads(k);
    }
    forall k | ClaimedDst(s.calls, k) ensures ClaimedDst(s'.calls, k) {
      var j :| 0 <= j < m && s.calls[j].Running? && s.calls[j].piece.Writes(k);
      var j' := if j == i && !r.Writes(k) then m else j;
      assert s'.calls[j'].Running? && s'.calls[j'].piece.Writes(k);
    }
  }

  lemma EndKeepsInvariant<T>(lt: (T, T) -> bool, job: Job<T>, s: State<T>, i: nat)
    requires Invariant(lt, job, s) && CanStep(s, i)
    requires s.calls[i].Running? ==> s.calls[i].piece.Done()
    ensures Invariant(lt, job, Step(lt, s, i))
  {
    hide Safe, OnTrack;
    var c, s' := s.calls[i], Step(lt, s, i);
    assert RunningOK(lt, job, s, c);
    if c.Running? {
      DoneIsMerged(lt, c.piece, s.src, s.dst, job.base, job.out);
    }
    forall k | ClaimedSrc(s.calls, k) ensures ClaimedSrc(s'.calls, k) || (c.Running? && c.piece.Reads(k)) {
      var j :| 0 <= j < |s.calls| && s.calls[j].Running? && s.calls[j].piece.Reads(k);
      assert j != i ==> s'.calls[j].Running?;
    }
    forall k | ClaimedDst(s.calls, k) ensures ClaimedDst(s'.calls, k) || (c.Running? && c.piece.Writes(k)) {
      var j :| 0 <= j < |s.calls| && s.calls[j].Running? && s.calls[j].piece.Writes(k);
      assert j != i ==> s'.calls[j].Running?;
    }
    forall j | 0 <= j < |s'.calls| ensures RunningOK(lt, job, s', s'.calls[j]) {
      assert RunningOK(lt, job, s, s.calls[j]);
    }
    EndCalls(s.calls, i, s'.calls[i]);
  }

  lemma EndCalls(calls: seq<Call>, i: nat, c: Call)
    requires CallsOK(calls) && i < |calls| && !calls[i].Returned? && !c.Running? && c.spawner == calls[i].spawner
    requires c.Returned? ==> ChildrenReturned(calls, i)
    ensures CallsOK(calls[i := c])
  {
    var calls' := calls[i := c];
    forall j, k | 0 <= j < |calls'| && 0 <= k < |calls'| && j != k ensures Apart(calls'[j], calls'[k]) {
      assert Apart(calls[j], calls[k]);
    }
    forall j | 0 <= j < |calls'| && calls'[j].Returned? ensures ChildrenReturned(calls', j) {
      assert ChildrenReturned(calls, j);
    }
  }

  lemma StepKeepsInvariant<T(!new)>(lt: (T, T) -> bool, job: Job<T>, s: State<T>, i: nat)
    requires StrictWeak(lt) && Invariant(lt, job, s) && CanStep(s, i)
    ensures Invariant(lt, job, Step(lt, s, i))
  {
    hide Invariant, Step, Safe;
    match s.calls[i]
    case Running(_, p) =>
      if p.Done() {
        EndKeepsInvariant(lt, job, s, i);
      } else if p.Splits() {
        SplitKeepsInvariant(lt, job, s, i);
      } else {
        AdvanceKeepsInvariant(lt, job, s, i);
      }
    case AtTaskwait(_) => EndKeepsInvariant(lt, job, s, i);
  }

  // ---------- The end ----------

  lemma {:induction false} RootReturnsLast(calls: seq<Call>, j: nat)
    requires CallsOK(calls) && calls[0].Returned? && j < |calls|
    ensures calls[j].Returned?
    decreases j
  {
    if j > 0 {
      RootReturnsLast(calls, calls[j].spawner);
      assert ChildrenReturned(calls, calls[j].spawner);
    }
  }

  /** Once the original call returns, no piece is left and the memory is what one
      serial merge of the whole would have left. */
  lemma ReturnedIsSerial<T>(lt: (T, T) -> bool, job: Job<T>, s: State<T>)
    requires IsJob(lt, job) && Invariant(lt, job, s) && s.calls[0].Returned?
    ensures s.src == SerialSrc(job.src, job.p)
    ensures s.dst == SerialDst(lt, job.base[job.p.xs..job.p.xe], job.base[job.p.ys..job.p.ye], job.dst, job.p)
  {
    hide Merge, InPhase, CallsOK;
    forall j | 0 <= j < |s.calls| ensures s.calls[j].Returned? {
      RootReturnsLast(s.calls, j);
    }
    assert forall k :: !ClaimedSrc(s.calls, k) && !ClaimedDst(s.calls, k);
  }

  /** Some call can always step, if only the youngest that has not returned. */
  lemma {:induction false} SomebodySteps<T>(lt: (T, T) -> bool, job: Job<T>, s: State<T>, from: nat) returns (i: nat)
    requires Invariant(lt, job, s) && from <= |s.calls| && from > 0
    requires !s.calls[0].Returned? && forall j :: from <= j < |s.calls| ==> s.calls[j].Returned?
    ensures CanStep(s, i)
    decreases from
  {
    hide Safe, OnTrack, SlotsOK;
    i := from - 1;
    if s.calls[i].Returned? {
      i := SomebodySteps(lt, job, s, i);
    } else if s.calls[i].Running? {
      assert RunningOK(lt, job, s, s.calls[i]);
      OnTrackIsSafe(lt, s.calls[i].piece, s.src, s.dst, job.base, job.out);
      SplitIsSafe(s.calls[i].piece, s.src, s.dst);
    }
  }

  lemma SplitIsSafe<T>(p: Piece, src: seq<Slot<T>>, dst: seq<Slot<T>>)
    requires Safe(p, src, dst)
    ensures p.Range().Valid() && (p.Splits() ==> p.xs <= p.XM() && p.ys <= p.YM())
  {
  }

  function CallWeight(c: Call): nat {
    match c
    case Running(_, p) => PieceWeight(p) + 1
    case AtTaskwait(_) => 1
    case Returned(_) => 0
  }

  function Weight<T>(s: State<T>): nat {
    Sum((c: Call) => CallWeight(c), s.calls)
  }

  lemma StepLowersWeight<T(!new)>(lt: (T, T) -> bool, job: Job<T>, s: State<T>, i: nat)
    requires StrictWeak(lt) && Invariant(lt, job, s) && CanStep(s, i)
    ensures Weight(Step(lt, s, i)) < Weight(s)
  {
    hide SlotsOK, CallsOK, Safe, OnTrack, Advance, PieceWeight, Sum, Left, Right;
    var f, s' := (c: Call) => CallWeight(c), Step(lt, s, i);
    SumUpdate(f, s.calls, i, s'.calls[i]);
    if s.calls[i].Running? {
      var p := s.calls[i].piece;
      assert RunningOK(lt, job, s, s.calls[i]);
      SplitIsSafe(p, s.src, s.dst);
      if p.Done() {
        PieceWeightPositive(p);
      } else if p.Splits() {
        SplitKeeps(lt, p, s.src, s.dst, job.base, job.out);
        SplitLowers(p);
        SumAppend(f, s.calls[i := s'.calls[i]], s'.calls[|s.calls|]);
      } else {
        AdvanceLowers(lt, p, s.src, s.dst);
      }
    }
  }

  lemma PieceWeightPositive(p: Piece)
    requires p.Done()
    ensures PieceWeight(p) > 0
  {
  }

  /** The states of a run that lets the calls chosen by schedule take one step each. */
  ghost predicate IsRun<T>(lt: (T, T) -> bool, job: Job<T>, schedule: seq<nat>, states: seq<State<T>>) {
    && |states| == |schedule| + 1 && states[0] == Initial(job.src, job.dst, job.p)
    && forall k :: 0 <= k < |schedule| ==>
        CanStep(states[k], schedule[k]) && states[k + 1] == Step(lt, states[k], schedule[k])
  }

  lemma {:induction false} RunKeepsInvariant<T(!new)>(lt: (T, T) -> bool, job: Job<T>, schedule: seq<nat>,
                                                      states: seq<State<T>>, k: nat)
    requires StrictWeak(lt) && IsJob(lt, job) && IsRun(lt, job, schedule, states) && k < |states|
    ensures Invariant(lt, job, states[k]) && k + Weight(states[k]) <= Weight(states[0])
  {
    hide Invariant, IsJob, Step, CanStep, Weight;
    if k == 0 {
      InitialInvariant(lt, job);
    } else {
      RunKeepsInvariant(lt, job, schedule, states, k - 1);
      StepKeepsInvariant(lt, job, states[k - 1], schedule[k - 1]);
      StepLowersWeight(lt, job, states[k - 1], schedule[k - 1]);
    }
  }

  /** No two running calls share a slot, and the next step of each compares only live
      keys and moves, assigns and destroys only constructed slots; pieces are cut where
      they should be. */
  ghost predicate Sound<T>(lt: (T, T) -> bool, s: State<T>) {
    && (forall i, j :: 0 <= i < |s.calls| && 0 <= j < |s.calls| && i != j ==> Apart(s.calls[i], s.calls[j]))
    && (forall i :: 0 <= i < |s.calls| && s.calls[i].Running? ==> CanStep(s, i) && CutWell(lt, s.calls[i].piece, s.src))
  }

  lemma InvariantSound<T(!new)>(lt: (T, T) -> bool, job: Job<T>, s: State<T>)
    requires StrictWeak(lt) && Invariant(lt, job, s)
    ensures Sound(lt, s)
  {
    hide SlotsOK, Safe, OnTrack, Apart, CutWell, StrictWeak;
    forall i | 0 <= i < |s.calls| && s.calls[i].Running?
      ensures CanStep(s, i) && CutWell(lt, s.calls[i].piece, s.src)
    {
      OnTrackIsCutWell(lt, s.calls[i].piece, s.src, s.dst, job.base, job.out);
      assert RunningOK(lt, job, s, s.calls[i]);
      OnTrackIsSafe(lt, s.calls[i].piece, s.src, s.dst, job.base, job.out);
      SplitIsSafe(s.calls[i].piece, s.src, s.dst);
    }
  }

  /** Call j was spawned by call i, or by one that was, and so on. */
  predicate Below(calls: seq<Call>, i: nat, j: nat)
    requires CallsOK(calls) && j < |calls|
    decreases j
  {
    j > i && (calls[j].spawner == i || Below(calls, i, calls[j].spawner))
  }

  lemma {:induction false} BelowReturned(calls: seq<Call>, i: nat, j: nat)
    requires CallsOK(calls) && j < |calls| && ChildrenReturned(calls, i) && Below(calls, i, j)
    ensures calls[j].Returned?
    decreases j
  {
    if calls[j].spawner != i {
      BelowReturned(calls, i, calls[j].spawner);
    }
  }

  /** A call waits at its taskwait exactly until all that works on parts of its piece has
      returned, whatever goes on elsewhere. */
  lemma WaitsForParts<T>(lt: (T, T) -> bool, job: Job<T>, s: State<T>, i: nat)
    requires Invariant(lt, job, s) && i < |s.calls| && s.calls[i].AtTaskwait?
    ensures CanStep(s, i) <==> forall j :: i < j < |s.calls| && Below(s.calls, i, j) ==> s.calls[j].Returned?
  {
    if CanStep(s, i) {
      forall j | i < j < |s.calls| && Below(s.calls, i, j) ensures s.calls[j].Returned? {
        BelowReturned(s.calls, i, j);
      }
    } else {
      var j :| i < j < |s.calls| && s.calls[j].spawner == i && !s.calls[j].Returned?;
      assert Below(s.calls, i, j);
    }
  }

  /** The memory is that of one serial merge of the whole. */
  ghost predicate IsSerial<T>(lt: (T, T) -> bool, job: Job<T>, s: State<T>)
    requires IsJob(lt, job)
  {
    && s.src == SerialSrc(job.src, job.p)
    && s.dst == SerialDst(lt, job.base[job.p.xs..job.p.xe], job.base[job.p.ys..job.p.ye], job.dst, job.p)
  }

  ghost predicate HasReturned<T>(s: State<T>) {
    s.calls != [] && s.calls[0].Returned?
  }

  lemma EndOfRun<T(!new)>(lt: (T, T) -> bool, job: Job<T>, s: State<T>)
    requires StrictWeak(lt) && IsJob(lt, job) && Invariant(lt, job, s)
    ensures if HasReturned(s) then IsSerial(lt, job, s) else exists i :: CanStep(s, i)
  {
    hide RunningOK, SlotsOK, CanStep, Apart, IsJob;
    if s.calls[0].Returned? {
      ReturnedIsSerial(lt, job, s);
    } else {
      var i := SomebodySteps(lt, job, s, |s.calls|);
    }
  }

  lemma FirstWeight<T>(job: Job<T>)
    requires job.p.phase.Fresh? && job.p.Range().Valid()
    ensures Weight(Initial(job.src, job.dst, job.p)) == MergeWeight(job.p.Size()) + 1
  {
    var calls := Initial(job.src, job.dst, job.p).calls;
    assert calls == [] + [Running(0, job.p)];
    SumAppend((c: Call) => CallWeight(c), [], Running(0, job.p));
  }

  /** Schedule independence: whatever the interleaving, every state is sound, the run
      stops within a bound, it cannot get stuck, and the memory it leaves is that of one
      serial merge. */
  lemma EveryScheduleIsSerial<T(!new)>(lt: (T, T) -> bool, job: Job<T>, schedule: seq<nat>, states: seq<State<T>>)
    requires StrictWeak(lt) && IsJob(lt, job) && IsRun(lt, job, schedule, states)
    ensures job.p.Range().Valid() && |schedule| <= MergeWeight(job.p.Size()) + 1
    ensures forall k :: 0 <= k < |states| ==> Sound(lt, states[k])
    ensures var end := states[|schedule|];
            if HasReturned(end) then IsSerial(lt, job, end) else exists i :: CanStep(end, i)
  {
    hide StrictWeak, Invariant, Sound, Step, CanStep, IsJob, IsSerial, MergeWeight, Weight;
    JobIsValid(lt, job);
    forall k | 0 <= k < |states| ensures Sound(lt, states[k]) {
      RunKeepsInvariant(lt, job, schedule, states, k);
      InvariantSound(lt, job, states[k]);
    }
    RunKeepsInvariant(lt, job, schedule, states, |schedule|);
    FirstWeight(job);
    EndOfRun(lt, job, states[|schedule|]);
  }

  /** Any call that can step may be the next one of a run. */
  lemma RunGoesOn<T>(lt: (T, T) -> bool, job: Job<T>, schedule: seq<nat>, states: seq<State<T>>, i: nat)
    requires IsRun(lt, job, schedule, states) && CanStep(states[|schedule|], i)
    ensures IsRun(lt, job, schedule + [i], states + [Step(lt, states[|schedule|], i)])
  {
    hide Step, CanStep;
  }

  /** Every run can go on until the merge has returned. */
  lemma {:induction false} EveryRunCanReturn<T(!new)>(lt: (T, T) -> bool, job: Job<T>, schedule: seq<nat>,
                                                      states: seq<State<T>>)
    returns (schedule': seq<nat>, states': seq<State<T>>)
    requires StrictWeak(lt) && IsJob(lt, job) && IsRun(lt, job, schedule, states)
    ensures schedule <= schedule' && states <= states' && IsRun(lt, job, schedule', states')
    ensures HasReturned(states'[|schedule'|]) && IsSerial(lt, job, states'[|schedule'|])
    decreases MergeWeight(job.p.Size()) + 1 - |schedule|
  {
    hide StrictWeak, Sound, Step, CanStep, IsJob, IsSerial, MergeWeight, HasReturned;
    EveryScheduleIsSerial(lt, job, schedule, states);
    if HasReturned(states[|schedule|]) {
      return schedule, states;
    }
    var i :| CanStep(states[|schedule|], i);
    RunGoesOn(lt, job, schedule, states, i);
    schedule', states' := EveryRunCanReturn(lt, job, schedule + [i], states + [Step(lt, states[|schedule|], i)]);
  }

  lemma JobIsValid<T>(lt: (T, T) -> bool, job: Job<T>)
    requires IsJob(lt, job)
    ensures job.p.phase.Fresh? && job.p.Range().Valid()
  {
  }
}
