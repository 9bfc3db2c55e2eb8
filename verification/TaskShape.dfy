/** The structural invariant of the task graph: who is whose child, which ranges
    the tasks cover, and that every reference count is the number of children. */
module TaskShape {
  import opened Sums
  import opened MergePlan
  import opened OpenMPSort
  import opened Pieces
  import opened TaskGraph

  /** [lo, hi) is one of the two halves that continuation p waits for, in the mode
      that p's merge expects. */
  predicate IsHalf(w: Work, p: Work) {
    && p.lo <= p.hi && w.inplace == Not(p.inplace)
    && ((w.lo == p.lo && w.hi == Mid(p.lo, p.hi)) || (w.lo == Mid(p.lo, p.hi) && w.hi == p.hi))
  }

  /** A task and its parent agree on what the task is for. */
  predicate Fits(tasks: seq<Task>, i: nat, n: nat)
    requires i < |tasks|
  {
    var t := tasks[i];
    t.Task? ==>
      && t.work.lo <= t.work.hi <= n && (n > 0 ==> t.work.lo < t.work.hi) && 0 <= t.work.inplace <= 2
      && t.parent < |tasks| && t.parent != i
      && (if t.parent == 0 then t.work.lo == 0 && t.work.hi == n && t.work.inplace == 2
          else tasks[t.parent].Task? && tasks[t.parent].waiting && IsHalf(t.work, tasks[t.parent].work))
      && (t.waiting ==> t.work.MergeRange? && t.work.piece == WholeMerge(t.work.lo, t.work.hi, t.work.inplace))
      && (!t.waiting ==> t.refs == 0)
      && (t.work.MergeRange? ==> InRange(t.work))
  }

  /** A merge piece stays within the range its merge was created for. */
  predicate InRange(w: Work)
    requires w.MergeRange? && w.lo <= w.hi
  {
    && w.hi - w.lo > SORT_CUT_OFF && w.piece.destroy == (w.inplace == 2)
    && w.piece.Range().Valid()
    && w.lo <= w.piece.xs && w.piece.xe <= w.hi && w.lo <= w.piece.ys && w.piece.ye <= w.hi
    && w.lo <= w.piece.zs && w.piece.Range().End() <= w.hi
  }

  predicate Disjoint(t: Work, u: Work) {
    t.hi <= u.lo || u.hi <= t.lo
  }

  /** t works inside one of the halves that continuation w waits for. */
  predicate InHalf(t: Work, w: Task)
    requires w.Task?
  {
    && w.waiting && w.work.lo <= w.work.hi
    && ((w.work.lo <= t.lo && t.hi <= Mid(w.work.lo, w.work.hi)) ||
        (Mid(w.work.lo, w.work.hi) <= t.lo && t.hi <= w.work.hi))
  }

  /** Two parts of the same merge: they share neither input nor output slots. */
  ghost predicate Siblings(t: Work, u: Work) {
    && t.MergeRange? && u.MergeRange?
    && t.lo == u.lo && t.hi == u.hi && t.inplace == u.inplace
    && (forall k :: !(t.piece.Reads(k) && u.piece.Reads(k)))
    && (forall k :: !(t.piece.Writes(k) && u.piece.Writes(k)))
  }

  /** Tasks never get in each other's way: their ranges are apart or nested below a
      waiting continuation, or they are disjoint parts of one merge. */
  ghost predicate Compatible(t: Task, u: Task) {
    t.Task? && u.Task? ==>
      || Disjoint(t.work, u.work) || InHalf(t.work, u) || InHalf(u.work, t)
      || (!t.waiting && !u.waiting && Siblings(t.work, u.work))
  }

  ghost predicate Shape(tasks: seq<Task>, n: nat) {
    && |tasks| > 0 && tasks[0].Root?
    && (forall i :: 0 < i < |tasks| ==> !tasks[i].Root?)
    && (forall i :: 0 <= i < |tasks| ==> Fits(tasks, i, n))
    && (forall i, j :: 0 <= i < |tasks| && 0 <= j < |tasks| && i != j ==> Compatible(tasks[i], tasks[j]))
  }

  /** 1 for a child of p. */
  function ChildOf(p: nat): Task -> nat {
    (t: Task) => if t.Task? && t.parent == p then 1 else 0
  }

  /** A count is what is outstanding: the root's children plus the wait, or a
      continuation's children, of which there is at least one. */
  predicate CountIs(t: Task, children: nat) {
    match t
    case Root(refs) => refs == 1 + children
    case Task(_, refs, waiting, _) => if waiting then refs == children > 0 else children == 0
    case Finished => children == 0
  }

  ghost predicate Counted(tasks: seq<Task>) {
    forall p :: 0 <= p < |tasks| ==> CountIs(tasks[p], Sum(ChildOf(p), tasks))
  }

  // ---------- Consequences ----------

  /** If the parent of t is not w, then it sits below w too. */
  lemma ParentBelow(tasks: seq<Task>, n: nat, w: nat, t: nat)
    requires Shape(tasks, n) && w < |tasks| && t < |tasks| && w != t
    requires tasks[w].Task? && tasks[t].Task? && InHalf(tasks[t].work, tasks[w]) && tasks[w].waiting
    requires tasks[t].parent != w
    ensures var q := tasks[t].parent; 0 < q < |tasks| && tasks[q].Task? && InHalf(tasks[q].work, tasks[w])
    ensures tasks[tasks[t].parent].work.hi - tasks[tasks[t].parent].work.lo > tasks[t].work.hi - tasks[t].work.lo
  {
    var q := tasks[t].parent;
    assert Fits(tasks, t, n) && Fits(tasks, w, n);
    if q != 0 {
      assert Fits(tasks, q, n) && Compatible(tasks[q], tasks[w]);
    }
  }

  /** A continuation without children has no task anywhere below it. */
  lemma {:induction false} NobodyBelow(tasks: seq<Task>, n: nat, w: nat, t: nat)
    requires Shape(tasks, n) && w < |tasks| && t < |tasks| && w != t
    requires tasks[w].Task? && tasks[w].waiting && tasks[t].Task?
    requires Sum(ChildOf(w), tasks) == 0
    ensures !InHalf(tasks[t].work, tasks[w])
    decreases n - (if tasks[t].work.hi >= tasks[t].work.lo then tasks[t].work.hi - tasks[t].work.lo else 0)
  {
    SumAtLeast(ChildOf(w), tasks, t);
    if InHalf(tasks[t].work, tasks[w]) {
      ParentBelow(tasks, n, w, t);
      var q := tasks[t].parent;
      assert Fits(tasks, q, n) && Fits(tasks, t, n);
      if q != w {
        NobodyBelow(tasks, n, w, q);
      }
    }
  }

  /** While any task is left, the root has a child. */
  lemma {:induction false} RootHasChild(tasks: seq<Task>, n: nat, t: nat)
    requires Shape(tasks, n) && t < |tasks| && tasks[t].Task?
    ensures Sum(ChildOf(0), tasks) > 0
    decreases n - (if tasks[t].work.hi >= tasks[t].work.lo then tasks[t].work.hi - tasks[t].work.lo else 0)
  {
    var q := tasks[t].parent;
    assert Fits(tasks, t, n);
    if q == 0 {
      SumAtLeast(ChildOf(0), tasks, t);
    } else {
      assert Fits(tasks, q, n);
      RootHasChild(tasks, n, q);
    }
  }

  /** Below every task there is one that is ready to execute. */
  lemma {:induction false} SomeActive(tasks: seq<Task>, n: nat, t: nat) returns (i: nat)
    requires Shape(tasks, n) && Counted(tasks) && t < |tasks| && tasks[t].Task?
    ensures i < |tasks| && tasks[i].Active()
    decreases if tasks[t].work.hi >= tasks[t].work.lo then tasks[t].work.hi - tasks[t].work.lo else 0
  {
    i := t;
    if tasks[t].waiting {
      var c := SumPositive(ChildOf(t), tasks);
      assert Fits(tasks, c, n) && Fits(tasks, t, n);
      i := SomeActive(tasks, n, c);
    }
  }

  // ---------- Preservation ----------

  /** w' is w further on: the same range, mode and slots. */
  ghost predicate SameExtent(w: Work, w': Work) {
    && w'.lo == w.lo && w'.hi == w.hi && w'.inplace == w.inplace
    && (w.MergeRange? <==> w'.MergeRange?)
    && (w.MergeRange? ==> w'.piece == w.piece.(phase := w'.piece.phase))
  }

  lemma ProgressKeepsShape(tasks: seq<Task>, n: nat, i: nat, w: Work)
    requires Shape(tasks, n) && Counted(tasks) && i < |tasks| && tasks[i].Active() && SameExtent(tasks[i].work, w)
    ensures Shape(tasks[i := tasks[i].(work := w)], n) && Counted(tasks[i := tasks[i].(work := w)])
  {
    var tasks' := tasks[i := tasks[i].(work := w)];
    ProgressKeepsPairs(tasks, n, i, w);
    forall j | 0 <= j < |tasks'| ensures Fits(tasks', j, n) {
      assert Fits(tasks, j, n);
    }
    hide Fits;
    forall p: nat ensures Sum(ChildOf(p), tasks') == Sum(ChildOf(p), tasks) {
      SumUpdate(ChildOf(p), tasks, i, tasks'[i]);
    }
  }

  lemma ProgressKeepsPairs(tasks: seq<Task>, n: nat, i: nat, w: Work)
    requires Shape(tasks, n) && i < |tasks| && tasks[i].Active() && SameExtent(tasks[i].work, w)
    ensures var tasks' := tasks[i := tasks[i].(work := w)];
            forall j, k :: 0 <= j < |tasks'| && 0 <= k < |tasks'| && j != k ==> Compatible(tasks'[j], tasks'[k])
  {
    hide Fits;
    var tasks' := tasks[i := tasks[i].(work := w)];
    forall j, k | 0 <= j < |tasks'| && 0 <= k < |tasks'| && j != k ensures Compatible(tasks'[j], tasks'[k]) {
      assert Compatible(tasks[j], tasks[k]);
    }
  }

  lemma NoChildrenYet(tasks: seq<Task>, n: nat, p: nat)
    requires Shape(tasks, n) && p >= |tasks|
    ensures Sum(ChildOf(p), tasks) == 0
  {
    forall j | 0 <= j < |tasks| ensures ChildOf(p)(tasks[j]) == 0 {
      assert Fits(tasks, j, n);
    }
    SumZero(ChildOf(p), tasks);
  }

  lemma CountsOf(tasks: seq<Task>, p: nat)
    requires Counted(tasks) && p < |tasks|
    ensures CountIs(tasks[p], Sum(ChildOf(p), tasks))
  {
  }

  lemma DivideSortKeepsCounts(tasks: seq<Task>, n: nat, i: nat)
    requires Shape(tasks, n) && Counted(tasks) && i < |tasks| && tasks[i].Active() && tasks[i].work.SortRange?
    requires tasks[i].work.lo <= tasks[i].work.hi && tasks[i].parent < |tasks|
    ensures Counted(DivideSort(tasks, i))
  {
    hide Shape, Counted, Mid, WholeMerge, ChildOf, CountIs;
    var tasks' := DivideSort(tasks, i);
    var m, q := |tasks|, tasks[i].parent;
    var one, two := tasks[i := tasks'[i]], tasks[i := tasks'[i]] + [tasks'[m]];
    assert tasks' == two + [tasks'[m + 1]];
    forall p | 0 <= p < |tasks'| ensures CountIs(tasks'[p], Sum(ChildOf(p), tasks')) {
      SumUpdate(ChildOf(p), tasks, i, tasks'[i]);
      SumAppend(ChildOf(p), one, tasks'[m]);
      SumAppend(ChildOf(p), two, tasks'[m + 1]);
      DivideSortCount(tasks, n, i, p);
    }
    CountedIf(tasks');
  }

  lemma CountedIf(tasks: seq<Task>)
    requires forall p :: 0 <= p < |tasks| ==> CountIs(tasks[p], Sum(ChildOf(p), tasks))
    ensures Counted(tasks)
  {
  }

  lemma DivideSortCount(tasks: seq<Task>, n: nat, i: nat, p: nat)
    requires Shape(tasks, n) && Counted(tasks) && i < |tasks| && tasks[i].Active() && tasks[i].work.SortRange?
    requires tasks[i].work.lo <= tasks[i].work.hi && tasks[i].parent < |tasks| && p < |tasks| + 2
    ensures var tasks', f, m := DivideSort(tasks, i), ChildOf(p), |tasks|;
            Sum(f, tasks) + f(tasks'[i]) + f(tasks'[m]) + f(tasks'[m + 1]) >= f(tasks[i])
    ensures var tasks', f, m := DivideSort(tasks, i), ChildOf(p), |tasks|;
            CountIs(tasks'[p], Sum(f, tasks) + f(tasks'[i]) + f(tasks'[m]) + f(tasks'[m + 1]) - f(tasks[i]))
  {
    hide Shape, Counted, Mid, WholeMerge;
    SumAtLeast(ChildOf(p), tasks, i);
    if p < |tasks| {
      CountsOf(tasks, p);
    } else {
      NoChildrenYet(tasks, n, p);
    }
  }

  lemma DivideMergeKeepsCounts(tasks: seq<Task>, n: nat, i: nat)
    requires Shape(tasks, n) && Counted(tasks) && i < |tasks| && tasks[i].Active() && tasks[i].work.MergeRange?
    requires var p := tasks[i].work.piece; p.Range().Valid() && p.Splits() && p.xs <= p.XM() && p.ys <= p.YM()
    requires tasks[i].parent < |tasks| && tasks[i].parent != i && !tasks[tasks[i].parent].Finished?
    requires tasks[tasks[i].parent].Root? || tasks[tasks[i].parent].waiting
    ensures Counted(DivideMerge(tasks, i))
  {
    hide Shape, Counted, Left, Right, Sum;
    var tasks' := DivideMerge(tasks, i);
    var r, q := |tasks|, tasks[i].parent;
    var one := tasks[i := tasks'[i]];
    var two := one[q := tasks'[q]];
    assert one[q] == tasks[q] && tasks' == two + [tasks'[r]];
    forall p | 0 <= p < |tasks'| ensures CountIs(tasks'[p], Sum(ChildOf(p), tasks')) {
      SumUpdate(ChildOf(p), tasks, i, tasks'[i]);
      SumUpdate(ChildOf(p), one, q, tasks'[q]);
      SumAppend(ChildOf(p), two, tasks'[r]);
      if p < r {
        CountsOf(tasks, p);
      } else {
        NoChildrenYet(tasks, n, p);
      }
    }
    CountedIf(tasks');
  }

  lemma CompleteCount(tasks: seq<Task>, i: nat, p: nat)
    requires i < |tasks| && tasks[i].Task? && tasks[i].parent < |tasks| && tasks[i].parent != i
    requires !tasks[tasks[i].parent].Finished?
    ensures Sum(ChildOf(p), Complete(tasks, i)) + (if p == tasks[i].parent then 1 else 0) == Sum(ChildOf(p), tasks)
  {
    hide Sum;
    var tasks' := Complete(tasks, i);
    var q := tasks[i].parent;
    var one := tasks[i := Finished];
    assert tasks' == one[q := tasks'[q]] && one[q] == tasks[q];
    SumUpdate(ChildOf(p), tasks, i, Finished);
    SumUpdate(ChildOf(p), one, q, tasks'[q]);
  }

  lemma CompleteKeepsCounts(tasks: seq<Task>, i: nat)
    requires Counted(tasks) && i < |tasks| && tasks[i].Active()
    requires tasks[i].parent < |tasks| && tasks[i].parent != i && !tasks[tasks[i].parent].Finished?
    requires tasks[tasks[i].parent].Root? || tasks[tasks[i].parent].waiting
    ensures Counted(Complete(tasks, i))
  {
    hide Counted, Sum, ChildOf;
    var tasks' := Complete(tasks, i);
    forall p | 0 <= p < |tasks'| ensures CountIs(tasks'[p], Sum(ChildOf(p), tasks')) {
      CompleteCount(tasks, i, p);
      CountsOf(tasks, p);
    }
    CountedIf(tasks');
  }

  // Shape is kept

  /** Every range inside a task's own range is compatible with what the task was. */
  lemma CompatibleWithin(t: Task, t': Task, u: Task)
    requires t.Active() && t.work.SortRange? && t'.Task? && u.Task? && Compatible(u, t)
    requires t.work.lo <= t'.work.lo <= t'.work.hi <= t.work.hi
    requires u.work.lo < u.work.hi && (u.work.MergeRange? ==> u.work.lo < Mid(u.work.lo, u.work.hi) < u.work.hi)
    ensures Compatible(u, t') && Compatible(t', u)
  {
  }

  lemma DivideSortKeepsShape(tasks: seq<Task>, n: nat, i: nat)
    requires Shape(tasks, n) && i < |tasks| && tasks[i].Active() && tasks[i].work.SortRange?
    requires tasks[i].work.hi - tasks[i].work.lo > SORT_CUT_OFF && tasks[i].work.lo <= tasks[i].work.hi
    ensures Shape(DivideSort(tasks, i), n)
  {
    hide Compatible, Fits;
    var tasks' := DivideSort(tasks, i);
    var m, r := |tasks|, |tasks| + 1;
    assert Fits(tasks, i, n);
    forall j | 0 <= j < |tasks'| ensures Fits(tasks', j, n) {
      if j < |tasks| { assert Fits(tasks, j, n); }
      DivideSortFits(tasks, n, i, j);
    }
    forall j | 0 <= j < |tasks| && j != i && tasks[j].Task?
      ensures Compatible(tasks'[j], tasks'[i]) && Compatible(tasks'[i], tasks'[j])
      ensures Compatible(tasks'[j], tasks'[m]) && Compatible(tasks'[m], tasks'[j])
      ensures Compatible(tasks'[j], tasks'[r]) && Compatible(tasks'[r], tasks'[j])
    {
      assert Compatible(tasks[j], tasks[i]) && Fits(tasks, j, n);
      FitsNonEmpty(tasks, n, i);
      FitsNonEmpty(tasks, n, j);
      CompatibleWithin(tasks[i], tasks'[i], tasks[j]);
      CompatibleWithin(tasks[i], tasks'[m], tasks[j]);
      CompatibleWithin(tasks[i], tasks'[r], tasks[j]);
    }
    NewSortCompatible(tasks, i);
    forall j, k | 0 <= j < |tasks'| && 0 <= k < |tasks'| && j != k ensures Compatible(tasks'[j], tasks'[k]) {
      if j < |tasks| && j != i && k < |tasks| && k != i {
        assert Compatible(tasks[j], tasks[k]);
      }
      NoTaskCompatible(tasks'[j], tasks'[k]);
    }
  }

  lemma NoTaskCompatible(t: Task, u: Task)
    ensures !t.Task? || !u.Task? ==> Compatible(t, u)
  {
  }

  lemma FitsNonEmpty(tasks: seq<Task>, n: nat, j: nat)
    requires j < |tasks| && Fits(tasks, j, n) && tasks[j].Task?
    ensures n > 0 ==> tasks[j].work.lo < tasks[j].work.hi
    ensures tasks[j].work.lo <= tasks[j].work.hi <= n
    ensures tasks[j].work.MergeRange? ==> tasks[j].work.lo < Mid(tasks[j].work.lo, tasks[j].work.hi) < tasks[j].work.hi
  {
  }

  lemma NewSortCompatible(tasks: seq<Task>, i: nat)
    requires i < |tasks| && tasks[i].Active() && tasks[i].work.SortRange? && tasks[i].work.lo <= tasks[i].work.hi
    ensures var tasks', m, r := DivideSort(tasks, i), |tasks|, |tasks| + 1;
            forall j, k :: j in {i, m, r} && k in {i, m, r} && j != k ==> Compatible(tasks'[j], tasks'[k])
  {
  }

  lemma DivideSortFits(tasks: seq<Task>, n: nat, i: nat, j: nat)
    requires i < |tasks| && Fits(tasks, i, n) && tasks[i].Active() && tasks[i].work.SortRange?
    requires tasks[i].work.hi - tasks[i].work.lo > SORT_CUT_OFF && j < |tasks| + 2
    requires j < |tasks| ==> Fits(tasks, j, n)
    requires i != 0
    ensures Fits(DivideSort(tasks, i), j, n)
  {
  }

  lemma CompatiblePart(t: Task, t': Task, u: Task)
    requires t.Active() && t.work.MergeRange? && t'.Active()
    requires t'.work.MergeRange? && t'.work == t.work.(piece := t'.work.piece)
    requires forall k :: t'.work.piece.Reads(k) ==> t.work.piece.Reads(k)
    requires forall k :: t'.work.piece.Writes(k) ==> t.work.piece.Writes(k)
    requires Compatible(u, t)
    ensures Compatible(u, t') && Compatible(t', u)
  {
  }

  lemma CompatibleIgnoresRefs(t: Task, u: Task, refs: int)
    requires u.Task? && Compatible(t, u)
    ensures Compatible(t, u.(refs := refs)) && Compatible(u.(refs := refs), t)
  {
  }

  lemma CompatibleSymmetric(t: Task, u: Task)
    requires Compatible(t, u)
    ensures Compatible(u, t)
  {
  }

  lemma DivideMergeKeepsShape(tasks: seq<Task>, n: nat, i: nat)
    requires Shape(tasks, n) && i < |tasks| && tasks[i].Active() && tasks[i].work.MergeRange?
    requires var p := tasks[i].work.piece;
             && p.Range().Valid() && p.Splits() && p.Size() > MERGE_CUT_OFF
             && p.xs <= p.XM() <= p.xe && p.ys <= p.YM() <= p.ye
    requires tasks[i].parent < |tasks| && tasks[i].parent != i && !tasks[tasks[i].parent].Finished?
    ensures Shape(DivideMerge(tasks, i), n)
  {
    hide Compatible, Fits, Left, Right;
    var tasks' := DivideMerge(tasks, i);
    var r, q := |tasks|, tasks[i].parent;
    SplitShares(tasks[i].work.piece);
    forall j | 0 <= j < |tasks'| ensures Fits(tasks', j, n) {
      assert Fits(tasks, i, n) && (j < |tasks| ==> Fits(tasks, j, n));
      DivideMergeFits(tasks, n, i, j);
    }
    assert Compatible(tasks'[i], tasks'[r]) by { PartsCompatible(tasks'[i], tasks'[r]); }
    forall j | 0 <= j < |tasks| && j != i ensures Compatible(tasks'[j], tasks'[i]) && Compatible(tasks'[j], tasks'[r]) {
      assert Compatible(tasks[j], tasks[i]);
      NoTaskCompatible(tasks'[j], tasks'[i]);
      NoTaskCompatible(tasks'[j], tasks'[r]);
      if tasks[j].Task? {
        CompatiblePart(tasks[i], tasks'[i], tasks[j]);
        CompatiblePart(tasks[i], tasks'[r], tasks[j]);
        CompatibleIgnoresRefs(tasks'[i], tasks[j], tasks'[j].refs);
        CompatibleIgnoresRefs(tasks'[r], tasks[j], tasks'[j].refs);
      }
    }
    forall j, k | 0 <= j < |tasks'| && 0 <= k < |tasks'| && j != k ensures Compatible(tasks'[j], tasks'[k]) {
      if j < |tasks| && j != i && k < |tasks| && k != i {
        assert Compatible(tasks[j], tasks[k]) && Compatible(tasks[k], tasks[j]);
        NoTaskCompatible(tasks'[j], tasks'[k]);
        if tasks[j].Task? && tasks[k].Task? {
          CompatibleIgnoresRefs(tasks[k], tasks[j], tasks'[j].refs);
          CompatibleIgnoresRefs(tasks[j], tasks[k], tasks'[k].refs);
        }
      } else if j < |tasks| && j != i {
      } else if k < |tasks| && k != i {
        CompatibleSymmetric(tasks'[k], tasks'[j]);
      } else {
        CompatibleSymmetric(tasks'[i], tasks'[r]);
      }
    }
  }

  lemma PartsCompatible(t: Task, u: Task)
    requires t.Active() && u.Active() && Siblings(t.work, u.work)
    ensures Compatible(t, u)
  {
  }

  lemma DivideMergeFits(tasks: seq<Task>, n: nat, i: nat, j: nat)
    requires 0 < i < |tasks| && tasks[i].Active() && tasks[i].work.MergeRange? && tasks[0].Root?
    requires var p := tasks[i].work.piece;
             && p.Range().Valid() && p.Splits() && p.Size() > MERGE_CUT_OFF
             && p.xs <= p.XM() <= p.xe && p.ys <= p.YM() <= p.ye
    requires tasks[i].parent < |tasks| && tasks[i].parent != i && !tasks[tasks[i].parent].Finished?
    requires j < |tasks| + 1 && Fits(tasks, i, n) && (j < |tasks| ==> Fits(tasks, j, n))
    ensures Fits(DivideMerge(tasks, i), j, n)
  {
    hide WholeMerge, Mid, IsHalf, InRange, Left, Right;
    var tasks' := DivideMerge(tasks, i);
    var w := tasks[i].work;
    if j == i || j == |tasks| {
      PartInRange(w);
      SameHalf(w, tasks'[j].work, tasks[tasks[i].parent]);
    }
  }

  lemma PartInRange(w: Work)
    requires w.MergeRange? && w.lo <= w.hi && InRange(w)
    requires var p := w.piece; p.Splits() && p.xs <= p.XM() <= p.xe && p.ys <= p.YM() <= p.ye
    ensures InRange(w.(piece := Left(w.piece))) && InRange(w.(piece := Right(w.piece)))
  {
  }

  lemma SameHalf(w: Work, w': Work, p: Task)
    requires w.lo == w'.lo && w.hi == w'.hi && w.inplace == w'.inplace
    ensures p.Task? ==> (IsHalf(w, p.work) <==> IsHalf(w', p.work))
  {
  }

  /** A task without children may go. */
  lemma FinishKeepsShape(tasks: seq<Task>, n: nat, i: nat)
    requires Shape(tasks, n) && i < |tasks| && tasks[i].Active()
    ensures Shape(tasks[i := Finished], n)
  {
    hide Compatible;
    var tasks' := tasks[i := Finished];
    forall j | 0 <= j < |tasks'| ensures Fits(tasks', j, n) {
      assert Fits(tasks, j, n);
    }
    forall j, k | 0 <= j < |tasks'| && 0 <= k < |tasks'| && j != k ensures Compatible(tasks'[j], tasks'[k]) {
      assert Compatible(tasks[j], tasks[k]);
      NoTaskCompatible(tasks'[j], tasks'[k]);
    }
  }

  /** A continuation whose children are all gone may start. */
  lemma ReleaseKeepsShape(tasks: seq<Task>, n: nat, q: nat)
    requires Shape(tasks, n) && q < |tasks| && tasks[q].Task? && tasks[q].waiting && Sum(ChildOf(q), tasks) == 0
    ensures Shape(tasks[q := tasks[q].(refs := 0, waiting := false)], n)
  {
    hide Compatible, Sum;
    var tasks' := tasks[q := tasks[q].(refs := 0, waiting := false)];
    forall j | 0 <= j < |tasks'| ensures Fits(tasks', j, n) {
      assert Fits(tasks, j, n);
      if tasks[j].Task? {
        SumAtLeast(ChildOf(q), tasks, j);
      }
    }
    forall j | 0 <= j < |tasks| && j != q ensures Compatible(tasks'[j], tasks'[q]) && Compatible(tasks'[q], tasks'[j]) {
      NoTaskCompatible(tasks'[j], tasks'[q]);
      NoTaskCompatible(tasks'[q], tasks'[j]);
      if tasks[j].Task? {
        NobodyBelow(tasks, n, q, j);
        assert Compatible(tasks[j], tasks[q]);
        ReleasedCompatible(tasks[j], tasks[q]);
      }
    }
    forall j, k | 0 <= j < |tasks'| && 0 <= k < |tasks'| && j != k ensures Compatible(tasks'[j], tasks'[k]) {
      assert Compatible(tasks[j], tasks[k]);
    }
  }

  lemma ReleasedCompatible(t: Task, w: Task)
    requires t.Task? && w.Task? && w.waiting && Compatible(t, w) && !InHalf(t.work, w)
    ensures var w' := w.(refs := 0, waiting := false); Compatible(t, w') && Compatible(w', t)
  {
  }

  lemma FewerRefsKeepsShape(tasks: seq<Task>, n: nat, q: nat, refs: int)
    requires Shape(tasks, n) && q < |tasks| && !tasks[q].Finished? && !tasks[q].Active()
    ensures Shape(tasks[q := tasks[q].(refs := refs)], n)
  {
    hide Compatible;
    var tasks' := tasks[q := tasks[q].(refs := refs)];
    forall j | 0 <= j < |tasks'| ensures Fits(tasks', j, n) {
      assert Fits(tasks, j, n);
    }
    forall j, k | 0 <= j < |tasks'| && 0 <= k < |tasks'| && j != k ensures Compatible(tasks'[j], tasks'[k]) {
      assert Compatible(tasks[j], tasks[k]) && Compatible(tasks[k], tasks[j]);
      NoTaskCompatible(tasks'[j], tasks'[k]);
      if j == q && tasks[q].Task? {
        CompatibleIgnoresRefs(tasks[k], tasks[q], refs);
      } else if k == q && tasks[q].Task? {
        CompatibleIgnoresRefs(tasks[j], tasks[q], refs);
      }
    }
  }

  lemma CompleteKeepsShape(tasks: seq<Task>, n: nat, i: nat)
    requires Shape(tasks, n) && Counted(tasks) && i < |tasks| && tasks[i].Active()
    requires tasks[i].parent < |tasks| && tasks[i].parent != i
    requires var q := tasks[tasks[i].parent]; q.Root? || (q.Task? && q.waiting)
    ensures Shape(Complete(tasks, i), n)
  {
    hide Shape, Counted, Sum, ChildOf;
    var q, one := tasks[i].parent, tasks[i := Finished];
    FinishKeepsShape(tasks, n, i);
    FewerRefsKeepsShape(one, n, q, one[q].refs - 1);
    var two := one[q := one[q].(refs := one[q].refs - 1)];
    CountsOf(tasks, q);
    CompleteCount(tasks, i, q);
    if one[q].Task? && one[q].refs == 1 {
      var tasks' := Complete(tasks, i);
      assert tasks' == two[q := two[q].(refs := 0, waiting := false)];
      assert two == tasks'[q := two[q]];
      SumUpdate(ChildOf(q), tasks', q, two[q]);
      SameParent(q, tasks'[q], two[q]);
      ReleaseKeepsShape(two, n, q);
    } else {
      assert Complete(tasks, i) == two;
    }
  }

  lemma SameParent(p: nat, t: Task, u: Task)
    requires t.Task? && u.Task? && t.parent == u.parent
    ensures ChildOf(p)(t) == ChildOf(p)(u)
  {
  }
}
