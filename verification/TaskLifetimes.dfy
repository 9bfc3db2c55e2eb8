/** Object lifetimes over whole runs of the task graph: how often each slot of the buffer
    is constructed and destroyed, and that the slots of the input are never destroyed. */
module TaskLifetimes {
  import opened StableOrder
  import opened Keys
  import opened MergeStep
  import opened OpenMPSort
  import opened Pieces
  import opened TaskGraph
  import opened TaskShape
  import opened TaskMemory
  import opened TaskRun
  import opened TaskTermination

  predicate Constructs<T>(s: State<T>, s': State<T>, k: nat) {
    k < |s.z| && k < |s'.z| && s.z[k].Raw? && !s'.z[k].Raw?
  }

  predicate Destroys<T>(s: State<T>, s': State<T>, k: nat) {
    k < |s.z| && k < |s'.z| && !s.z[k].Raw? && s'.z[k].Raw?
  }

  /** How often slot k of the buffer is constructed, resp. destroyed, in the first m steps. */
  function Constructed<T>(states: seq<State<T>>, k: nat, m: nat): nat
    requires m < |states|
  {
    if m == 0 then 0
    else Constructed(states, k, m - 1) + if Constructs(states[m - 1], states[m], k) then 1 else 0
  }

  function Destroyed<T>(states: seq<State<T>>, k: nat, m: nat): nat
    requires m < |states|
  {
    if m == 0 then 0
    else Destroyed(states, k, m - 1) + if Destroys(states[m - 1], states[m], k) then 1 else 0
  }

  /** A task that has yet to construct slot k, if its mode asks for that. */
  predicate ToBuild(t: Task, k: nat) {
    t.Task? && match t.work
               case SortRange(lo, hi, _) => lo <= k < hi
               case Build(_, hi, _, done) => done <= k < hi
               case MergeRange(_, _, _, _) => false
  }

  ghost predicate Unbuilt(tasks: seq<Task>, k: nat) {
    exists j :: 0 <= j < |tasks| && ToBuild(tasks[j], k)
  }

  // ---------- Steps ----------

  /** Which steps construct a slot of the buffer: those of the base case. */
  lemma ConstructsInBuild<T>(lt: (T, T) -> bool, orig: seq<T>, s: State<T>, i: nat, k: nat)
    requires Invariant(lt, orig, s) && CanStep(s, i) && Constructs(s, Step(lt, s, i), k)
    ensures s.tasks[i].work.Build? && s.tasks[i].work.done == k < s.tasks[i].work.hi
  {
    hide Invariant, DivideSort, DivideMerge, Complete, SortedRange, Advance, Safe;
    var w := s.tasks[i].work;
    if w.MergeRange? && !w.piece.Done() && !w.piece.Splits() {
      if w.inplace != 0 {
        AdvanceConstructsNothing(lt, w.piece, s.z, s.x);
      } else {
        AdvanceConstructsNothing(lt, w.piece, s.x, s.z);
      }
    }
  }

  /** Merging assigns and destroys; a raw slot stays raw. */
  lemma AdvanceConstructsNothing<T>(lt: (T, T) -> bool, p: Piece, src: seq<Slot<T>>, dst: seq<Slot<T>>)
    requires Safe(p, src, dst) && !p.Done() && !p.Splits()
    ensures var (_, src', dst') := Advance(lt, p, src, dst);
            && |src'| == |src| && |dst'| == |dst|
            && (forall k :: 0 <= k < |src| && src[k].Raw? ==> src'[k].Raw?)
            && (forall k :: 0 <= k < |dst| && dst[k].Raw? ==> dst'[k].Raw?)
  {
  }

  /** Nobody else is going to construct it. */
  lemma BuilderIsAlone<T>(lt: (T, T) -> bool, orig: seq<T>, s: State<T>, i: nat, j: nat, k: nat)
    requires Invariant(lt, orig, s) && i < |s.tasks| && j < |s.tasks|
    requires ToBuild(s.tasks[i], k) && ToBuild(s.tasks[j], k)
    ensures i == j
  {
    hide Counted, MemoryOK, Compatible, Sort;
    assert Fits(s.tasks, i, |orig|) && Fits(s.tasks, j, |orig|);
    if i != j {
      MemoryLocal(lt, orig, s, i);
      MemoryLocal(lt, orig, s, j);
      ClaimsApart(s.tasks, |orig|, i, j, k);
    }
  }

  /** The steps' effect on what is left to be constructed. */
  lemma BuildStep<T>(lt: (T, T) -> bool, orig: seq<T>, s: State<T>, i: nat, j: nat, k: nat)
    requires Invariant(lt, orig, s) && CanStep(s, i) && j < |Step(lt, s, i).tasks|
    ensures ToBuild(Step(lt, s, i).tasks[j], k) ==>
              Unbuilt(s.tasks, k) && !(s.tasks[i].work.Build? && s.tasks[i].work.done == k < s.tasks[i].work.hi)
  {
    hide Invariant, Advance, SortedRange, Left, Right, WholeMerge;
    var s' := Step(lt, s, i);
    if ToBuild(s'.tasks[j], k) {
      var j0 := if j < |s.tasks| then j else i;
      assert ToBuild(s.tasks[j0], k);
      if s.tasks[i].work.Build? && s.tasks[i].work.done == k < s.tasks[i].work.hi {
        BuilderIsAlone(lt, orig, s, i, j0, k);
      }
    }
  }

  /** A task of mode 2 is the whole sort; below the cut-off there is no other. */
  lemma ModeTwoIsWhole(tasks: seq<Task>, n: nat, i: nat)
    requires Shape(tasks, n) && i < |tasks| && tasks[i].Task?
    ensures tasks[i].work.lo <= tasks[i].work.hi <= n
    ensures tasks[i].work.inplace == 2 ==> tasks[i].work.lo == 0 && tasks[i].work.hi == n
    ensures n <= SORT_CUT_OFF ==> tasks[i].work.inplace == 2
  {
    hide Compatible;
    assert Fits(tasks, i, n);
    if tasks[i].parent != 0 {
      assert Fits(tasks, tasks[i].parent, n);
    }
  }

  /** Above the cut-off, a slot stops being due to be constructed by being constructed. */
  lemma BuiltByConstruction<T>(lt: (T, T) -> bool, orig: seq<T>, s: State<T>, i: nat, j: nat, k: nat)
    requires Invariant(lt, orig, s) && CanStep(s, i) && j < |s.tasks| && ToBuild(s.tasks[j], k) && |orig| > SORT_CUT_OFF
    ensures Unbuilt(Step(lt, s, i).tasks, k) || Constructs(s, Step(lt, s, i), k)
  {
    hide MemoryOK, Counted, Shape, Advance, SortedRange, Left, Right, WholeMerge;
    var s' := Step(lt, s, i);
    ModeTwoIsWhole(s.tasks, |orig|, i);
    ActiveFits(s.tasks, |orig|, i);
    if j != i {
      if s'.tasks[j] == s.tasks[j] {
        assert ToBuild(s'.tasks[j], k);
      } else {
        assert ToBuild(s.tasks[j], k) && j == s.tasks[i].parent;
        ParentIsMerge(s.tasks, |orig|, i);
      }
    } else if s.tasks[i].work.SortRange? && s.tasks[i].work.hi - s.tasks[i].work.lo > SORT_CUT_OFF {
      var m := |s.tasks|;
      var j' := if k < Mid(s.tasks[i].work.lo, s.tasks[i].work.hi) then i else m + 1;
      assert ToBuild(s'.tasks[j'], k);
    } else {
      assert ToBuild(s'.tasks[i], k) || Constructs(s, s', k);
    }
  }

  lemma ParentIsMerge(tasks: seq<Task>, n: nat, i: nat)
    requires Shape(tasks, n) && i < |tasks| && tasks[i].Task?
    ensures forall k :: tasks[i].parent < |tasks| ==> !ToBuild(tasks[tasks[i].parent], k)
  {
    hide Compatible;
    assert Fits(tasks, i, n);
    assert Fits(tasks, tasks[i].parent, n);
  }

  /** Below the cut-off nothing is constructed at all. */
  lemma NothingConstructed<T>(lt: (T, T) -> bool, orig: seq<T>, s: State<T>, i: nat, k: nat)
    requires Invariant(lt, orig, s) && CanStep(s, i) && |orig| <= SORT_CUT_OFF
    ensures !Constructs(s, Step(lt, s, i), k)
  {
    hide Shape, Counted, Covered, Step;
    ModeTwoIsWhole(s.tasks, |orig|, i);
    if Constructs(s, Step(lt, s, i), k) {
      ConstructsInBuild(lt, orig, s, i, k);
      MemoryLocal(lt, orig, s, i);
    }
  }

  // ---------- Runs ----------

  /** Constructions and destructions take turns. */
  lemma {:induction false} Alternate<T(!new)>(lt: (T, T) -> bool, orig: seq<T>, schedule: seq<nat>,
                                       states: seq<State<T>>, k: nat, m: nat)
    requires StrictWeak(lt) && IsRun(lt, orig, schedule, states) && m < |states| && k < |orig|
    requires forall j :: 0 <= j <= m ==> |states[j].z| == |orig|
    ensures Constructed(states, k, m) == Destroyed(states, k, m) + if states[m].z[k].Raw? then 0 else 1
  {
    if m > 0 {
      Alternate(lt, orig, schedule, states, k, m - 1);
    }
  }

  /** What has been constructed so far is what is no longer due. */
  lemma {:induction false} ConstructedOnce<T(!new)>(lt: (T, T) -> bool, orig: seq<T>, schedule: seq<nat>,
                                             states: seq<State<T>>, k: nat, m: nat)
    requires StrictWeak(lt) && IsRun(lt, orig, schedule, states) && m < |states| && k < |orig|
    ensures Constructed(states, k, m) == if |orig| > SORT_CUT_OFF && !Unbuilt(states[m].tasks, k) then 1 else 0
  {
    hide Step, CanStep, Invariant, Constructs, Unbuilt;
    if m == 0 {
      StartsUnbuilt(orig, k);
    } else {
      ConstructedOnce(lt, orig, schedule, states, k, m - 1);
      RunKeepsInvariant(lt, orig, schedule, states, m - 1);
      OneStep(lt, orig, states[m - 1], schedule[m - 1], k);
    }
  }

  lemma StartsUnbuilt<T>(orig: seq<T>, k: nat)
    requires k < |orig|
    ensures Unbuilt(Initial(orig).tasks, k)
  {
    assert ToBuild(Initial(orig).tasks[1], k);
  }

  lemma OneStep<T>(lt: (T, T) -> bool, orig: seq<T>, s: State<T>, i: nat, k: nat)
    requires Invariant(lt, orig, s) && CanStep(s, i) && k < |orig|
    ensures var s' := Step(lt, s, i);
            && (|orig| <= SORT_CUT_OFF ==> !Constructs(s, s', k))
            && (Unbuilt(s'.tasks, k) ==> Unbuilt(s.tasks, k) && !Constructs(s, s', k))
            && (Constructs(s, s', k) ==> Unbuilt(s.tasks, k))
            && (|orig| > SORT_CUT_OFF && Unbuilt(s.tasks, k) && !Unbuilt(s'.tasks, k) ==> Constructs(s, s', k))
  {
    hide Step, CanStep, Invariant, Constructs;
    var s' := Step(lt, s, i);
    if |orig| <= SORT_CUT_OFF {
      NothingConstructed(lt, orig, s, i, k);
    }
    if Constructs(s, s', k) {
      ConstructsInBuild(lt, orig, s, i, k);
      assert ToBuild(s.tasks[i], k) by { StepperIsTask(s, i); }
    }
    if Unbuilt(s'.tasks, k) {
      var j :| 0 <= j < |s'.tasks| && ToBuild(s'.tasks[j], k);
      BuildStep(lt, orig, s, i, j, k);
    }
    if |orig| > SORT_CUT_OFF && Unbuilt(s.tasks, k) {
      var j :| 0 <= j < |s.tasks| && ToBuild(s.tasks[j], k);
      BuiltByConstruction(lt, orig, s, i, j, k);
    }
  }

  lemma StepperIsTask<T>(s: State<T>, i: nat)
    requires CanStep(s, i)
    ensures i < |s.tasks| && s.tasks[i].Task?
  {
  }

  /** No key of the input is destroyed: its slots stay constructed throughout. */
  ghost predicate InputKept<T>(s: State<T>) {
    forall k :: 0 <= k < |s.x| ==> s.x[k].Constructed()
  }

  lemma {:induction false} InputStaysConstructed<T(!new)>(lt: (T, T) -> bool, orig: seq<T>, schedule: seq<nat>,
                                                   states: seq<State<T>>, m: nat)
    requires StrictWeak(lt) && IsRun(lt, orig, schedule, states) && m < |states|
    ensures InputKept(states[m])
  {
    hide Step, CanStep, Invariant;
    if m > 0 {
      InputStaysConstructed(lt, orig, schedule, states, m - 1);
      RunKeepsInvariant(lt, orig, schedule, states, m - 1);
      StepKeepsInput(lt, orig, states[m - 1], schedule[m - 1]);
    }
  }

  lemma StepKeepsInput<T>(lt: (T, T) -> bool, orig: seq<T>, s: State<T>, i: nat)
    requires Invariant(lt, orig, s) && CanStep(s, i) && InputKept(s)
    ensures InputKept(Step(lt, s, i))
  {
    hide Shape, Counted, MemoryOK, DivideSort, DivideMerge, Complete, Advance, Safe, OnTrack, Sort, Base, Out;
    var w := s.tasks[i].work;
    if w.MergeRange? && !w.piece.Done() && !w.piece.Splits() {
      MemoryLocal(lt, orig, s, i);
      ShapeFits(s.tasks, |orig|, i);
      if w.inplace != 0 {
        AdvanceKeepsTarget(lt, w.piece, s.z, s.x);
      } else {
        AdvanceKeepsSource(lt, w.piece, s.x, s.z, Base(lt, orig, w.lo, w.hi), Out(lt, orig, w.lo, w.hi));
      }
    }
  }

  lemma AdvanceKeepsTarget<T>(lt: (T, T) -> bool, p: Piece, src: seq<Slot<T>>, dst: seq<Slot<T>>)
    requires Safe(p, src, dst) && !p.Done() && !p.Splits() && forall k :: 0 <= k < |dst| ==> dst[k].Constructed()
    ensures forall k :: 0 <= k < |Advance(lt, p, src, dst).2| ==> Advance(lt, p, src, dst).2[k].Constructed()
  {
  }

  lemma AdvanceKeepsSource<T>(lt: (T, T) -> bool, p: Piece, src: seq<Slot<T>>, dst: seq<Slot<T>>, base: seq<T>,
                              out: seq<T>)
    requires Safe(p, src, dst) && !p.Done() && !p.Splits() && forall k :: 0 <= k < |src| ==> src[k].Constructed()
    requires OnTrack(lt, p, src, dst, base, out) && !p.destroy
    ensures forall k :: 0 <= k < |Advance(lt, p, src, dst).1| ==> Advance(lt, p, src, dst).1[k].Constructed()
  {
    hide Assigned, Merge, Merging, Searched;
  }

  lemma NothingLeftToBuild<T>(lt: (T, T) -> bool, orig: seq<T>, s: State<T>, k: nat)
    requires Invariant(lt, orig, s) && Terminated(s)
    ensures !Unbuilt(s.tasks, k)
  {
    hide Shape, Counted, MemoryOK;
    TerminatedIsSorted(lt, orig, s);
  }

  /** In every complete run, above the cut-off each slot of the buffer is constructed
      exactly once and destroyed exactly once; below it the buffer is not used at all. The
      slots of the input are never destroyed. */
  lemma EverySlotOnce<T(!new)>(lt: (T, T) -> bool, orig: seq<T>, schedule: seq<nat>, states: seq<State<T>>, k: nat)
    requires StrictWeak(lt) && IsRun(lt, orig, schedule, states) && Terminated(states[|schedule|]) && k < |orig|
    ensures Constructed(states, k, |schedule|) == Destroyed(states, k, |schedule|)
            == if |orig| > 500 then 1 else 0
    ensures forall m :: 0 <= m < |states| ==> InputKept(states[m])
  {
    hide Step, CanStep, InputKept, Constructs, Destroys;
    var n := |schedule|;
    forall m | 0 <= m < |states| ensures |states[m].z| == |orig| {
      RunKeepsInvariant(lt, orig, schedule, states, m);
      BufferSize(lt, orig, states[m]);
    }
    RunKeepsInvariant(lt, orig, schedule, states, n);
    hide Invariant;
    NothingLeftToBuild(lt, orig, states[n], k);
    ConstructedOnce(lt, orig, schedule, states, k, n);
    Alternate(lt, orig, schedule, states, k, n);
    TerminatedIsSorted(lt, orig, states[n]);
    forall m | 0 <= m < |states| ensures InputKept(states[m]) {
      InputStaysConstructed(lt, orig, schedule, states, m);
    }
  }

  lemma BufferSize<T>(lt: (T, T) -> bool, orig: seq<T>, s: State<T>)
    requires Invariant(lt, orig, s)
    ensures |s.z| == |orig|
  {
  }
}
