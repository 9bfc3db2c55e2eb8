/** Which tasks of the task graph the calls of the spawned tasks are, and that each step
    keeps this correspondence, by itself or along with a step of the task graph. */
module SortTasksView {
  import opened Sums
  import opened OpenMPSort
  import opened Pieces
  import Graph = TaskGraph
  import opened TaskShape
  import opened SortTasks

  // ---------- Calls and nodes of the task graph ----------

  /** A state of the task graph that does the same: which node each call is, and which
      node waits for each task. */
  datatype View<T> = View(g: Graph.State<T>, node: map<(nat, nat), nat>, base: seq<nat>)

  predicate IsCall(tasks: seq<Task>, t: int, d: int) {
    0 <= t < |tasks| && 0 <= d < |tasks[t].stack|
  }

  /** Calls at the taskwait of a merge have no node any more. */
  predicate HasNode(tasks: seq<Task>, t: int, d: int) {
    IsCall(tasks, t, d) && !tasks[t].stack[d].AtTaskwait?
  }

  /** The stacks: only a sort waits below another call, and spawners wait for what they
      have spawned. */
  predicate SpawnerWaits(tasks: seq<Task>, t: nat)
    requires t < |tasks|
  {
    var Task(u, e, stack) := tasks[t];
    stack != [] && t > 0 ==>
      && u < t && IsCall(tasks, u, e)
      && match tasks[u].stack[e]
         case Halving(_, _, _) => true
         case AtTaskwait => e == tasks[u].Top()
         case Running(w) => e == tasks[u].Top() && w.MergeRange?
  }

  ghost predicate StacksOK(tasks: seq<Task>) {
    && |tasks| > 0
    && (forall t, d :: IsCall(tasks, t, d) && d < |tasks[t].stack| - 1 ==> tasks[t].stack[d].Halving?)
    && (forall t :: 0 <= t < |tasks| ==> SpawnerWaits(tasks, t))
  }

  predicate Matches(f: Frame, n: Graph.Task) {
    && n.Task?
    && match f
       case Running(w) => !n.waiting && n.work == w
       case Halving(lo, hi, inplace) =>
         lo <= hi && n.work == Graph.MergeRange(lo, hi, inplace, Graph.WholeMerge(lo, hi, inplace))
       case AtTaskwait => false
  }

  /** The parent of a call's node is that of the call below. */
  predicate Below<T>(v: View<T>, t: nat, d: nat, parent: nat) {
    && t < |v.base|
    && if d > 0 then (t, d - 1) in v.node && v.node[(t, d - 1)] == parent else v.base[t] == parent
  }

  predicate NodeOK<T>(tasks: seq<Task>, v: View<T>, t: nat, d: nat)
    requires HasNode(tasks, t, d)
  {
    && (t, d) in v.node && 0 < v.node[(t, d)] < |v.g.tasks|
    && Matches(tasks[t].stack[d], v.g.tasks[v.node[(t, d)]])
    && Below(v, t, d, v.g.tasks[v.node[(t, d)]].parent)
  }

  /** The node that waits for a task is that of the sort that spawned it, or the one that
      the merge that spawned it is a child of. */
  predicate BaseOK<T>(tasks: seq<Task>, v: View<T>, t: nat)
    requires t < |tasks| == |v.base|
  {
    var Task(u, e, stack) := tasks[t];
    stack != [] ==>
      if t == 0 then v.base[t] == 0
      else
        && IsCall(tasks, u, e)
        && if tasks[u].stack[e].Halving? then (u, e) in v.node && v.node[(u, e)] == v.base[t]
           else Below(v, u, e, v.base[t])
  }

  ghost predicate NodesOK<T>(tasks: seq<Task>, v: View<T>) {
    && (forall t: nat, d: nat :: (t, d) in v.node ==> HasNode(tasks, t, d))
    && (forall t: nat, d: nat :: HasNode(tasks, t, d) ==> NodeOK(tasks, v, t, d))
  }

  ghost predicate BasesOK<T>(tasks: seq<Task>, v: View<T>) {
    |v.base| == |tasks| && forall t :: 0 <= t < |tasks| ==> BaseOK(tasks, v, t)
  }

  /** Each task of the graph is the node of exactly one call. */
  ghost predicate OneToOne<T>(v: View<T>) {
    && (forall k, k' :: k in v.node && k' in v.node && v.node[k] == v.node[k'] ==> k == k')
    && (forall i :: 0 <= i < |v.g.tasks| && v.g.tasks[i].Task? ==> exists k :: k in v.node && v.node[k] == i)
  }

  ghost predicate Linked<T>(s: State<T>, v: View<T>) {
    && s.x == v.g.x && s.z == v.g.z
    && StacksOK(s.tasks) && NodesOK(s.tasks, v) && BasesOK(s.tasks, v) && OneToOne(v)
  }

  lemma InitialLinked<T>(orig: seq<T>)
    ensures Linked(Initial(orig), View(Graph.Initial(orig), map[(0, 0) := 1], [0]))
  {
  }

  /** The node of the call that task t is in, when that is running. */
  lemma TopNode<T>(s: State<T>, v: View<T>, t: nat) returns (i: nat)
    requires Linked(s, v) && t < |s.tasks| && s.tasks[t].stack != []
    requires s.tasks[t].stack[s.tasks[t].Top()].Running?
    ensures (t, s.tasks[t].Top()) in v.node && i == v.node[(t, s.tasks[t].Top())]
    ensures 0 < i < |v.g.tasks| && v.g.tasks[i].Active()
    ensures v.g.tasks[i].work == s.tasks[t].stack[s.tasks[t].Top()].work
    ensures Below(v, t, s.tasks[t].Top(), v.g.tasks[i].parent)
  {
    var d := s.tasks[t].Top();
    assert HasNode(s.tasks, t, d);
    assert NodeOK(s.tasks, v, t, d);
    i := v.node[(t, d)];
  }

  /** Steps on own slots are those of the task graph. */
  lemma AloneStep<T>(lt: (T, T) -> bool, g: Graph.State<T>, i: nat)
    requires Graph.CanStep(g, i)
    ensures Graph.CanStep(Alone(g.tasks[i].work, g.x, g.z), 1)
    ensures var w := g.tasks[i].work;
            WorksOn(w) ==>
              var alone := Graph.Step(lt, Alone(w, g.x, g.z), 1);
              && |alone.tasks| == 2 && alone.tasks[1].Task?
              && (alone.tasks[1].work.MergeRange? <==> w.MergeRange?)
              && Graph.Step(lt, g, i) ==
                   Graph.State(alone.x, alone.z, g.tasks[i := g.tasks[i].(work := alone.tasks[1].work)])
  {
    hide Safe, Advance, Graph.SortedRange;
  }

  // ---------- Steps keep the view ----------

  /** Only the frame of the topmost call changes. */
  lemma SetTopFrames(tasks: seq<Task>, t: nat, f: Frame)
    requires t < |tasks| && tasks[t].stack != []
    ensures var tasks', d := SetTop(tasks, t, f), tasks[t].Top();
            && |tasks'| == |tasks|
            && (forall u, e :: IsCall(tasks', u, e) <==> IsCall(tasks, u, e))
            && (forall u, e :: IsCall(tasks, u, e) && !(u == t && e == d) ==> tasks'[u].stack[e] == tasks[u].stack[e])
            && tasks'[t].stack[d] == f
            && (forall u :: 0 <= u < |tasks| ==>
                  && tasks'[u].spawner == tasks[u].spawner && tasks'[u].at == tasks[u].at
                  && |tasks'[u].stack| == |tasks[u].stack|)
  {
  }

  /** Stacks stay in order if those that wait for the topmost call's spawned tasks still do. */
  lemma SetTopStacks(tasks: seq<Task>, t: nat, f: Frame)
    requires StacksOK(tasks) && t < |tasks| && tasks[t].stack != []
    requires match tasks[t].stack[tasks[t].Top()]
             case Running(w) => w.MergeRange? ==> f.AtTaskwait? || (f.Running? && f.work.MergeRange?)
             case Halving(_, _, _) => f.Running? && f.work.MergeRange?
             case AtTaskwait => false
    ensures StacksOK(SetTop(tasks, t, f))
  {
    SetTopFrames(tasks, t, f);
    hide SetTop;
    var tasks' := SetTop(tasks, t, f);
    forall u, e | IsCall(tasks', u, e) && e < |tasks'[u].stack| - 1 ensures tasks'[u].stack[e].Halving? {
      assert IsCall(tasks, u, e) && e < |tasks[u].stack| - 1;
    }
    forall u | 0 <= u < |tasks'| ensures SpawnerWaits(tasks', u) {
      assert SpawnerWaits(tasks, u);
    }
  }

  /** What a call's node must keep while others step. */
  predicate Kept(n: Graph.Task, n': Graph.Task) {
    n.Task? ==> n'.Task? && n'.parent == n.parent && n'.work == n.work && (!n.waiting ==> !n'.waiting)
  }

  predicate SameNode<T>(v: View<T>, v': View<T>, t: nat, d: nat) {
    (t, d) in v.node ==> (t, d) in v'.node && v'.node[(t, d)] == v.node[(t, d)]
  }

  predicate SameBase<T>(v: View<T>, v': View<T>, t: nat) {
    t < |v.base| ==> t < |v'.base| && v'.base[t] == v.base[t]
  }

  /** A call that does not step keeps its node. */
  lemma NodeStays<T>(tasks: seq<Task>, tasks': seq<Task>, v: View<T>, v': View<T>, t: nat, d: nat)
    requires HasNode(tasks, t, d) && NodeOK(tasks, v, t, d)
    requires IsCall(tasks', t, d) && tasks'[t].stack[d] == tasks[t].stack[d]
    requires SameNode(v, v', t, d) && SameBase(v, v', t) && (d > 0 ==> SameNode(v, v', t, d - 1))
    requires |v'.g.tasks| >= |v.g.tasks| && Kept(v.g.tasks[v.node[(t, d)]], v'.g.tasks[v.node[(t, d)]])
    ensures NodeOK(tasks', v', t, d)
  {
  }

  /** A task keeps the node that waits for it. */
  lemma BaseStays<T>(tasks: seq<Task>, tasks': seq<Task>, v: View<T>, v': View<T>, t: nat)
    requires t < |tasks| == |v.base| && t < |tasks'| == |v'.base| && BaseOK(tasks, v, t) && SameBase(v, v', t)
    requires tasks'[t].spawner == tasks[t].spawner && tasks'[t].at == tasks[t].at
    requires tasks'[t].stack != [] ==> tasks[t].stack != []
    requires var Task(u, e, stack) := tasks[t];
             tasks'[t].stack != [] && t > 0 && IsCall(tasks, u, e) ==>
               && IsCall(tasks', u, e) && (tasks'[u].stack[e].Halving? <==> tasks[u].stack[e].Halving?)
               && SameNode(v, v', u, e) && SameBase(v, v', u) && (e > 0 ==> SameNode(v, v', u, e - 1))
    ensures BaseOK(tasks', v', t)
  {
  }

  lemma HasOld<T>(tasks: seq<Task>, v: View<T>, t: nat, d: nat)
    requires NodesOK(tasks, v)
    ensures (t, d) in v.node <==> HasNode(tasks, t, d)
    ensures (t, d) in v.node ==> NodeOK(tasks, v, t, d)
  {
    if HasNode(tasks, t, d) {
      assert NodeOK(tasks, v, t, d);
    }
  }

  lemma NodeInRange<T>(tasks: seq<Task>, v: View<T>, t: nat, d: nat)
    requires HasNode(tasks, t, d) && NodeOK(tasks, v, t, d)
    ensures (t, d) in v.node && v.node[(t, d)] < |v.g.tasks| && t < |v.base|
  {
  }

  lemma Differ<T>(v: View<T>, k: (nat, nat), k': (nat, nat))
    requires OneToOne(v) && k in v.node && k' in v.node && k != k'
    ensures v.node[k] != v.node[k']
  {
  }

  lemma NodesIf<T>(tasks: seq<Task>, v: View<T>)
    requires forall t: nat, d: nat :: (t, d) in v.node ==> HasNode(tasks, t, d)
    requires forall t: nat, d: nat :: HasNode(tasks, t, d) ==> NodeOK(tasks, v, t, d)
    ensures NodesOK(tasks, v)
  {
  }

  lemma WorkNodes<T>(tasks: seq<Task>, v: View<T>, t: nat, w: Graph.Work, g': Graph.State<T>, i: nat)
    requires NodesOK(tasks, v) && OneToOne(v) && t < |tasks| && tasks[t].stack != []
    requires (t, tasks[t].Top()) in v.node && i == v.node[(t, tasks[t].Top())] < |v.g.tasks| && v.g.tasks[i].Active()
    requires g'.tasks == v.g.tasks[i := v.g.tasks[i].(work := w)]
    ensures NodesOK(SetTop(tasks, t, Running(w)), v.(g := g'))
  {
    SetTopFrames(tasks, t, Running(w));
    var tasks', v', d := SetTop(tasks, t, Running(w)), v.(g := g'), tasks[t].Top();
    HasOld(tasks, v, t, d);
    hide SetTop, NodesOK, OneToOne;
    assert NodeOK(tasks', v', t, d);
    hide NodeOK;
    forall u: nat, e: nat | (u, e) in v'.node ensures HasNode(tasks', u, e) {
      HasOld(tasks, v, u, e);
    }
    forall u: nat, e: nat | HasNode(tasks', u, e) ensures NodeOK(tasks', v', u, e) {
      HasOld(tasks, v, u, e);
      if u != t || e != d {
        NodeInRange(tasks, v, u, e);
        Differ(v, (u, e), (t, d));
        NodeStays(tasks, tasks', v, v', u, e);
      }
    }
    NodesIf(tasks', v');
  }

  /** A merge or a sort that is about to be a merge changes nothing for those it spawned. */
  lemma SetTopBases<T>(tasks: seq<Task>, v: View<T>, t: nat, f: Frame, v': View<T>)
    requires BasesOK(tasks, v) && t < |tasks| && tasks[t].stack != [] && v'.base == v.base
    requires f.Halving? <==> tasks[t].stack[tasks[t].Top()].Halving?
    requires forall k :: k in v.node && k != (t, tasks[t].Top()) ==> k in v'.node && v'.node[k] == v.node[k]
    requires f.Halving? ==> v'.node == v.node
    ensures BasesOK(SetTop(tasks, t, f), v')
  {
    SetTopFrames(tasks, t, f);
    var tasks', d := SetTop(tasks, t, f), tasks[t].Top();
    hide SetTop;
    forall u | 0 <= u < |tasks'| ensures BaseOK(tasks', v', u) {
      assert BaseOK(tasks, v, u);
    }
  }

  lemma WorkLinked<T>(s: State<T>, v: View<T>, t: nat, s': State<T>, g': Graph.State<T>, i: nat, w: Graph.Work)
    requires Linked(s, v) && t < |s.tasks| && s.tasks[t].stack != []
    requires var d := s.tasks[t].Top();
             && s.tasks[t].stack[d].Running? && (s.tasks[t].stack[d].work.MergeRange? ==> w.MergeRange?)
             && (t, d) in v.node && i == v.node[(t, d)] < |v.g.tasks| && v.g.tasks[i].Active()
    requires s'.tasks == SetTop(s.tasks, t, Running(w)) && s'.x == g'.x && s'.z == g'.z
    requires g'.tasks == v.g.tasks[i := v.g.tasks[i].(work := w)]
    ensures Linked(s', v.(g := g'))
  {
    hide SetTop, StacksOK, NodesOK, BasesOK;
    SetTopStacks(s.tasks, t, Running(w));
    WorkNodes(s.tasks, v, t, w, g', i);
    SetTopBases(s.tasks, v, t, Running(w), v.(g := g'));
  }

  // The wait for the halves is over

  /** No task is waiting for, so no task that call d of task t spawned is left. */
  ghost predicate NobodyAt(tasks: seq<Task>, t: nat, d: nat) {
    forall u :: 0 < u < |tasks| && tasks[u].spawner == t && tasks[u].at == d ==> tasks[u].stack == []
  }

  lemma WaitedForAll(tasks: seq<Task>, own: bool, t: nat, d: nat)
    requires StacksOK(tasks) && Waited(tasks, own, t, d)
    ensures NobodyAt(tasks, t, d)
  {
    forall u | 0 < u < |tasks| && tasks[u].spawner == t && tasks[u].at == d ensures tasks[u].stack == [] {
      assert SpawnerWaits(tasks, u);
    }
  }

  lemma RunningHasNobody(tasks: seq<Task>, t: nat)
    requires StacksOK(tasks) && t < |tasks| && tasks[t].stack != []
    requires var f := tasks[t].stack[tasks[t].Top()]; f.Running? && !f.work.MergeRange?
    ensures NobodyAt(tasks, t, tasks[t].Top())
  {
    forall u | 0 < u < |tasks| && tasks[u].spawner == t && tasks[u].at == tasks[t].Top() ensures tasks[u].stack == [] {
      assert SpawnerWaits(tasks, u);
    }
  }

  /** If a sort is on top and has waited, its node is nobody's base. */
  lemma {:induction false} NoBase<T>(s: State<T>, v: View<T>, t: nat, u: nat)
    requires Linked(s, v) && t < |s.tasks| && s.tasks[t].stack != []
    requires var d := s.tasks[t].Top();
             s.tasks[t].stack[d].Halving? && (t, d) in v.node && v.node[(t, d)] > 0 && NobodyAt(s.tasks, t, d)
    requires u < |s.tasks| && s.tasks[u].stack != []
    ensures v.base[u] != v.node[(t, s.tasks[t].Top())]
  {
    hide NodesOK, Matches;
    var d := s.tasks[t].Top();
    assert BaseOK(s.tasks, v, u);
    if u > 0 {
      var p, e := s.tasks[u].spawner, s.tasks[u].at;
      assert SpawnerWaits(s.tasks, u);
      if !s.tasks[p].stack[e].Halving? && e == 0 {
        NoBase(s, v, t, p);
      }
    }
  }

  /** Then its continuation has no children left in the task graph, and is ready. */
  lemma HalvesAreDone<T>(s: State<T>, v: View<T>, n: nat, t: nat, i: nat)
    requires Linked(s, v) && Shape(v.g.tasks, n) && Counted(v.g.tasks) && t < |s.tasks| && s.tasks[t].stack != []
    requires var d := s.tasks[t].Top();
             s.tasks[t].stack[d].Halving? && (t, d) in v.node && v.node[(t, d)] == i && NobodyAt(s.tasks, t, d)
    ensures 0 < i < |v.g.tasks| && v.g.tasks[i].Active()
  {
    hide Shape;
    var d := s.tasks[t].Top();
    assert HasNode(s.tasks, t, d);
    assert NodeOK(s.tasks, v, t, d);
    forall j | 0 <= j < |v.g.tasks| ensures ChildOf(i)(v.g.tasks[j]) == 0 {
      if v.g.tasks[j].Task? && v.g.tasks[j].parent == i {
        NotChild(s, v, t, j);
      }
    }
    SumZero(ChildOf(i), v.g.tasks);
    CountsOf(v.g.tasks, i);
  }

  lemma NotChild<T>(s: State<T>, v: View<T>, t: nat, j: nat)
    requires Linked(s, v) && t < |s.tasks| && s.tasks[t].stack != [] && j < |v.g.tasks| && v.g.tasks[j].Task?
    requires var d := s.tasks[t].Top();
             s.tasks[t].stack[d].Halving? && (t, d) in v.node && v.node[(t, d)] > 0 && NobodyAt(s.tasks, t, d)
    ensures v.g.tasks[j].parent != v.node[(t, s.tasks[t].Top())]
  {
    hide StacksOK, BasesOK, Matches;
    var k :| k in v.node && v.node[k] == j;
    var (u, e) := k;
    assert HasNode(s.tasks, u, e);
    assert NodeOK(s.tasks, v, u, e);
    if e == 0 {
      NoBase(s, v, t, u);
    }
  }

  lemma StartLinked<T>(s: State<T>, v: View<T>, t: nat, w: Graph.Work)
    requires Linked(s, v) && t < |s.tasks| && s.tasks[t].stack != []
    requires var d := s.tasks[t].Top();
             && s.tasks[t].stack[d].Halving? && NobodyAt(s.tasks, t, d) && w.MergeRange?
             && (t, d) in v.node && v.node[(t, d)] < |v.g.tasks|
             && v.g.tasks[v.node[(t, d)]].Active() && v.g.tasks[v.node[(t, d)]].work == w
    ensures Linked(s.(tasks := SetTop(s.tasks, t, Running(w))), v)
  {
    hide StacksOK, NodesOK, BasesOK;
    SetTopStacks(s.tasks, t, Running(w));
    WorkNodes(s.tasks, v, t, w, v.g, v.node[(t, s.tasks[t].Top())]);
    assert v.(g := v.g) == v;
    StartBases(s, v, t, Running(w));
  }

  lemma StartBases<T>(s: State<T>, v: View<T>, t: nat, f: Frame)
    requires BasesOK(s.tasks, v) && t < |s.tasks| && s.tasks[t].stack != []
    requires NobodyAt(s.tasks, t, s.tasks[t].Top())
    ensures BasesOK(SetTop(s.tasks, t, f), v)
  {
    SetTopFrames(s.tasks, t, f);
    var tasks' := SetTop(s.tasks, t, f);
    hide SetTop;
    forall u | 0 <= u < |tasks'| ensures BaseOK(tasks', v, u) {
      assert BaseOK(s.tasks, v, u);
    }
  }

  // A call returns

  lemma PopFrames(tasks: seq<Task>, t: nat)
    requires t < |tasks| && tasks[t].stack != []
    ensures var tasks', d := Pop(tasks, t), tasks[t].Top();
            && |tasks'| == |tasks|
            && (forall u, e :: IsCall(tasks', u, e) <==> IsCall(tasks, u, e) && !(u == t && e == d))
            && (forall u, e :: IsCall(tasks', u, e) ==> tasks'[u].stack[e] == tasks[u].stack[e])
            && (forall u :: 0 <= u < |tasks| ==>
                  && tasks'[u].spawner == tasks[u].spawner && tasks'[u].at == tasks[u].at
                  && |tasks'[u].stack| == if u == t then |tasks[u].stack| - 1 else |tasks[u].stack|)
  {
  }

  lemma PopStacks(tasks: seq<Task>, t: nat)
    requires StacksOK(tasks) && t < |tasks| && tasks[t].stack != [] && NobodyAt(tasks, t, tasks[t].Top())
    ensures StacksOK(Pop(tasks, t))
  {
    PopFrames(tasks, t);
    var tasks' := Pop(tasks, t);
    hide Pop;
    forall u, e | IsCall(tasks', u, e) && e < |tasks'[u].stack| - 1 ensures tasks'[u].stack[e].Halving? {
      assert IsCall(tasks, u, e) && e < |tasks[u].stack| - 1;
    }
    forall u | 0 <= u < |tasks'| ensures SpawnerWaits(tasks', u) {
      assert SpawnerWaits(tasks, u);
      var p, e := tasks[u].spawner, tasks[u].at;
      if tasks'[u].stack != [] && u > 0 && p == t {
        assert e < tasks[t].Top();
        assert tasks[p].stack[e].Halving?;
      }
    }
  }

  lemma PopBases<T>(tasks: seq<Task>, v: View<T>, t: nat, v': View<T>)
    requires BasesOK(tasks, v) && t < |tasks| && tasks[t].stack != [] && v'.base == v.base
    requires NobodyAt(tasks, t, tasks[t].Top())
    requires forall k :: k in v.node && k != (t, tasks[t].Top()) ==> k in v'.node && v'.node[k] == v.node[k]
    ensures BasesOK(Pop(tasks, t), v')
  {
    PopFrames(tasks, t);
    var tasks' := Pop(tasks, t);
    hide Pop;
    forall u | 0 <= u < |tasks'| ensures BaseOK(tasks', v', u) {
      assert BaseOK(tasks, v, u);
      BaseStays(tasks, tasks', v, v', u);
    }
  }

  /** A merge that has passed its taskwait returns. */
  lemma ReturnLinked<T>(s: State<T>, v: View<T>, t: nat)
    requires Linked(s, v) && t < |s.tasks| && s.tasks[t].stack != []
    requires s.tasks[t].stack[s.tasks[t].Top()].AtTaskwait? && NobodyAt(s.tasks, t, s.tasks[t].Top())
    ensures Linked(s.(tasks := Pop(s.tasks, t)), v)
  {
    PopStacks(s.tasks, t);
    PopFrames(s.tasks, t);
    hide StacksOK, BasesOK, Pop;
    var tasks' := Pop(s.tasks, t);
    forall u: nat, e: nat | (u, e) in v.node ensures HasNode(tasks', u, e) {
      assert HasNode(s.tasks, u, e);
    }
    forall u: nat, e: nat | HasNode(tasks', u, e) ensures NodeOK(tasks', v, u, e) {
      assert HasNode(s.tasks, u, e);
      assert NodeOK(s.tasks, v, u, e);
      NodeStays(s.tasks, tasks', v, v, u, e);
    }
    PopBases(s.tasks, v, t, v);
  }

  // A task of the graph completes

  /** Every node but i is kept, and i is finished. */
  ghost predicate Completes(tasks: seq<Graph.Task>, tasks': seq<Graph.Task>, i: nat) {
    && |tasks'| == |tasks| && i < |tasks| && !tasks'[i].Task?
    && (forall j :: 0 <= j < |tasks| && j != i ==> Kept(tasks[j], tasks'[j]))
    && (forall j :: 0 <= j < |tasks| && tasks'[j].Task? ==> tasks[j].Task?)
  }

  lemma CompleteCompletes(tasks: seq<Graph.Task>, i: nat)
    requires i < |tasks| && tasks[i].Task? && tasks[i].parent < |tasks| && tasks[i].parent != i
    requires var q := tasks[tasks[i].parent]; q.Root? || (q.Task? && q.waiting)
    ensures Completes(tasks, Graph.Complete(tasks, i), i)
  {
  }

  /** What becomes of the view. */
  function Without<T>(v: View<T>, t: nat, d: nat, g': Graph.State<T>): View<T> {
    v.(g := g', node := v.node - {(t, d)})
  }

  lemma WithoutOneToOne<T>(v: View<T>, t: nat, d: nat, g': Graph.State<T>)
    requires OneToOne(v) && (t, d) in v.node && Completes(v.g.tasks, g'.tasks, v.node[(t, d)])
    ensures OneToOne(Without(v, t, d, g'))
  {
    var v' := Without(v, t, d, g');
    forall i | 0 <= i < |g'.tasks| && g'.tasks[i].Task? ensures exists k :: k in v'.node && v'.node[k] == i {
      var k :| k in v.node && v.node[k] == i;
      assert k in v'.node && v'.node[k] == i;
    }
  }

  lemma WithoutNodes<T>(tasks: seq<Task>, tasks': seq<Task>, v: View<T>, t: nat, d: nat, g': Graph.State<T>)
    requires NodesOK(tasks, v) && OneToOne(v) && (t, d) in v.node
    requires v.node[(t, d)] < |v.g.tasks| && Completes(v.g.tasks, g'.tasks, v.node[(t, d)])
    requires t < |tasks| && d == |tasks[t].stack| - 1
    requires forall u, e :: HasNode(tasks', u, e) <==> HasNode(tasks, u, e) && !(u == t && e == d)
    requires forall u, e :: HasNode(tasks', u, e) ==> tasks'[u].stack[e] == tasks[u].stack[e]
    ensures NodesOK(tasks', Without(v, t, d, g'))
  {
    hide NodesOK, OneToOne, NodeOK, Kept;
    var v' := Without(v, t, d, g');
    forall u: nat, e: nat | (u, e) in v'.node ensures HasNode(tasks', u, e) {
      HasOld(tasks, v, u, e);
    }
    forall u: nat, e: nat | HasNode(tasks', u, e) ensures NodeOK(tasks', v', u, e) {
      HasOld(tasks, v, u, e);
      NodeInRange(tasks, v, u, e);
      Differ(v, (u, e), (t, d));
      NodeStays(tasks, tasks', v, v', u, e);
    }
    NodesIf(tasks', v');
  }

  /** The base case is done, and the sort returns. */
  lemma BuiltLinked<T>(s: State<T>, v: View<T>, t: nat, g': Graph.State<T>)
    requires Linked(s, v) && t < |s.tasks| && s.tasks[t].stack != [] && NobodyAt(s.tasks, t, s.tasks[t].Top())
    requires var d := s.tasks[t].Top();
             s.tasks[t].stack[d].Running? && (t, d) in v.node && Completes(v.g.tasks, g'.tasks, v.node[(t, d)])
    requires g'.x == v.g.x && g'.z == v.g.z
    ensures Linked(s.(tasks := Pop(s.tasks, t)), Without(v, t, s.tasks[t].Top(), g'))
  {
    var d, tasks' := s.tasks[t].Top(), Pop(s.tasks, t);
    PopStacks(s.tasks, t);
    PopFrames(s.tasks, t);
    WithoutOneToOne(v, t, d, g');
    PopBases(s.tasks, v, t, Without(v, t, d, g'));
    hide StacksOK, BasesOK, NodesOK, OneToOne, Pop;
    WithoutNodes(s.tasks, tasks', v, t, d, g');
  }

  /** A merge has done its own part. */
  lemma DoneLinked<T>(s: State<T>, v: View<T>, t: nat, g': Graph.State<T>)
    requires Linked(s, v) && t < |s.tasks| && s.tasks[t].stack != []
    requires var d := s.tasks[t].Top();
             && s.tasks[t].stack[d].Running? && s.tasks[t].stack[d].work.MergeRange?
             && (t, d) in v.node && Completes(v.g.tasks, g'.tasks, v.node[(t, d)])
    requires g'.x == v.g.x && g'.z == v.g.z
    ensures Linked(s.(tasks := SetTop(s.tasks, t, AtTaskwait)), Without(v, t, s.tasks[t].Top(), g'))
  {
    var d, tasks' := s.tasks[t].Top(), SetTop(s.tasks, t, AtTaskwait);
    SetTopStacks(s.tasks, t, AtTaskwait);
    SetTopFrames(s.tasks, t, AtTaskwait);
    WithoutOneToOne(v, t, d, g');
    SetTopBases(s.tasks, v, t, AtTaskwait, Without(v, t, d, g'));
    hide StacksOK, BasesOK, NodesOK, OneToOne, SetTop;
    WithoutNodes(s.tasks, tasks', v, t, d, g');
  }

  // A task is spawned

  lemma SpawnFrames(tasks: seq<Task>, t: nat, d: nat, w: Graph.Work)
    ensures var tasks', m := Spawn(tasks, t, d, w), |tasks|;
            && |tasks'| == m + 1 && tasks'[m] == Task(t, d, [Running(w)])
            && (forall u :: 0 <= u < m ==> tasks'[u] == tasks[u])
            && (forall u, e :: IsCall(tasks', u, e) <==> IsCall(tasks, u, e) || (u == m && e == 0))
  {
  }

  /** A merge divides: the loop goes on with a new node m, the spawned task is node i. */
  function SplitView<T>(v: View<T>, t: nat, d: nat, n: nat, g': Graph.State<T>): View<T>
    requires (t, d) in v.node && v.node[(t, d)] < |v.g.tasks| && v.g.tasks[v.node[(t, d)]].Task?
  {
    var i := v.node[(t, d)];
    View(g', v.node[(t, d) := |v.g.tasks|][(n, 0) := i], v.base + [v.g.tasks[i].parent])
  }

  /** Node i goes on as l, a new node as r, under the same parent. */
  ghost predicate Splits(tasks: seq<Graph.Task>, tasks': seq<Graph.Task>, i: nat, l: Graph.Work, r: Graph.Work) {
    && i < |tasks| && tasks[i].Active() && |tasks'| == |tasks| + 1
    && (forall j :: 0 <= j < |tasks| && j != i ==> Kept(tasks[j], tasks'[j]) && (tasks'[j].Task? ==> tasks[j].Task?))
    && tasks'[i].Active() && tasks'[i].parent == tasks[i].parent && tasks'[i].work == l
    && tasks'[|tasks|].Active() && tasks'[|tasks|].parent == tasks[i].parent && tasks'[|tasks|].work == r
  }

  lemma DivideMergeSplits(tasks: seq<Graph.Task>, i: nat)
    requires i < |tasks| && tasks[i].Active() && tasks[i].work.MergeRange? && tasks[i].work.piece.Splits()
    requires var p := tasks[i].work.piece; p.Range().Valid() && p.xs <= p.XM() && p.ys <= p.YM()
    requires tasks[i].parent < |tasks| && tasks[i].parent != i && !tasks[tasks[i].parent].Finished?
    ensures var w := tasks[i].work;
            Splits(tasks, Graph.DivideMerge(tasks, i), i, w.(piece := Left(w.piece)), w.(piece := Right(w.piece)))
  {
    hide Left, Right;
  }

  lemma SplitOneToOne<T>(v: View<T>, t: nat, d: nat, n: nat, g': Graph.State<T>, l: Graph.Work, r: Graph.Work)
    requires OneToOne(v) && (t, d) in v.node && (n, 0) !in v.node
    requires forall k :: k in v.node ==> v.node[k] < |v.g.tasks|
    requires Splits(v.g.tasks, g'.tasks, v.node[(t, d)], l, r)
    ensures OneToOne(SplitView(v, t, d, n, g'))
  {
    var v', i := SplitView(v, t, d, n, g'), v.node[(t, d)];
    assert v'.node[(n, 0)] == i && v'.node[(t, d)] == |v.g.tasks|;
    forall j | 0 <= j < |g'.tasks| && g'.tasks[j].Task? ensures exists k :: k in v'.node && v'.node[k] == j {
      if j != i && j < |v.g.tasks| {
        var k :| k in v.node && v.node[k] == j;
        assert k in v'.node && v'.node[k] == j;
      }
    }
  }

  lemma SplitFrames(tasks: seq<Task>, t: nat, l: Graph.Work, r: Graph.Work)
    requires t < |tasks| && HasNode(tasks, t, |tasks[t].stack| - 1)
    ensures var n, d := |tasks|, tasks[t].Top();
            var tasks' := Spawn(SetTop(tasks, t, Running(r)), t, d, l);
            && (forall u, e :: HasNode(tasks', u, e) <==> HasNode(tasks, u, e) || (u == n && e == 0))
            && (forall u, e :: HasNode(tasks, u, e) && !(u == t && e == d) ==> tasks'[u].stack[e] == tasks[u].stack[e])
            && tasks'[t].stack[d] == Running(r) && tasks'[n].stack[0] == Running(l)
  {
    SetTopFrames(tasks, t, Running(r));
    SpawnFrames(SetTop(tasks, t, Running(r)), t, tasks[t].Top(), l);
    hide SetTop, Spawn;
  }

  lemma SplitNode<T>(tasks: seq<Task>, tasks': seq<Task>, v: View<T>, t: nat, g': Graph.State<T>,
                     l: Graph.Work, r: Graph.Work)
    requires |v.base| == |tasks| && t < |tasks| && tasks[t].stack != []
    requires HasNode(tasks, t, tasks[t].Top()) && NodeOK(tasks, v, t, tasks[t].Top())
    requires Splits(v.g.tasks, g'.tasks, v.node[(t, tasks[t].Top())], l, r)
    requires HasNode(tasks', t, tasks[t].Top()) && tasks'[t].stack[tasks[t].Top()] == Running(r)
    requires HasNode(tasks', |tasks|, 0) && tasks'[|tasks|].stack[0] == Running(l)
    ensures NodeOK(tasks', SplitView(v, t, tasks[t].Top(), |tasks|, g'), t, tasks[t].Top())
    ensures NodeOK(tasks', SplitView(v, t, tasks[t].Top(), |tasks|, g'), |tasks|, 0)
  {
    hide Kept;
  }

  lemma SplitViewSame<T>(v: View<T>, t: nat, d: nat, n: nat, g': Graph.State<T>, u: nat, e: nat)
    requires (t, d) in v.node && v.node[(t, d)] < |v.g.tasks| && v.g.tasks[v.node[(t, d)]].Task?
    ensures var v' := SplitView(v, t, d, n, g');
            && v'.g == g' && ((u, e) in v'.node <==> (u, e) in v.node || (u == n && e == 0))
            && ((u != t || e != d) && u != n ==> SameNode(v, v', u, e)) && SameBase(v, v', u)
  {
  }

  lemma SplitOther<T>(tasks: seq<Task>, tasks': seq<Task>, v: View<T>, t: nat, g': Graph.State<T>,
                      l: Graph.Work, r: Graph.Work, u: nat, e: nat)
    requires OneToOne(v) && t < |tasks| && tasks[t].stack != []
    requires (t, tasks[t].Top()) in v.node && Splits(v.g.tasks, g'.tasks, v.node[(t, tasks[t].Top())], l, r)
    requires HasNode(tasks, u, e) && NodeOK(tasks, v, u, e) && (u != t || e != tasks[t].Top())
    requires IsCall(tasks', u, e) && tasks'[u].stack[e] == tasks[u].stack[e]
    ensures NodeOK(tasks', SplitView(v, t, tasks[t].Top(), |tasks|, g'), u, e)
  {
    hide NodeOK, OneToOne, SplitView, Kept;
    var d, n := tasks[t].Top(), |tasks|;
    NodeInRange(tasks, v, u, e);
    Differ(v, (u, e), (t, d));
    SplitViewSame(v, t, d, n, g', u, e);
    if e > 0 {
      SplitViewSame(v, t, d, n, g', u, e - 1);
    }
    NodeStays(tasks, tasks', v, SplitView(v, t, d, n, g'), u, e);
  }

  lemma SplitNodes<T>(tasks: seq<Task>, tasks': seq<Task>, v: View<T>, t: nat, g': Graph.State<T>,
                      l: Graph.Work, r: Graph.Work)
    requires NodesOK(tasks, v) && OneToOne(v) && |v.base| == |tasks| && t < |tasks| && tasks[t].stack != []
    requires (t, tasks[t].Top()) in v.node && Splits(v.g.tasks, g'.tasks, v.node[(t, tasks[t].Top())], l, r)
    requires tasks' == Spawn(SetTop(tasks, t, Running(r)), t, tasks[t].Top(), l)
    ensures NodesOK(tasks', SplitView(v, t, tasks[t].Top(), |tasks|, g'))
  {
    var d, n := tasks[t].Top(), |tasks|;
    var v' := SplitView(v, t, d, n, g');
    HasOld(tasks, v, t, d);
    SplitFrames(tasks, t, l, r);
    hide SetTop, Spawn, NodesOK, OneToOne, Kept;
    SplitNode(tasks, tasks', v, t, g', l, r);
    hide NodeOK, SplitView, Splits, HasNode;
    forall u: nat, e: nat ensures (u, e) in v'.node <==> (u, e) in v.node || (u == n && e == 0) {
      SplitViewSame(v, t, d, n, g', u, e);
    }
    forall u: nat, e: nat | (u, e) in v'.node ensures HasNode(tasks', u, e) {
      HasOld(tasks, v, u, e);
    }
    forall u: nat, e: nat | HasNode(tasks', u, e) ensures NodeOK(tasks', v', u, e) {
      HasOld(tasks, v, u, e);
      if u < n && (u != t || e != d) {
        SplitOther(tasks, tasks', v, t, g', l, r, u, e);
      }
    }
    NodesIf(tasks', v');
  }

  lemma SpawnStacks(tasks: seq<Task>, t: nat, w: Graph.Work)
    requires StacksOK(tasks) && t < |tasks| && tasks[t].stack != []
    requires var f := tasks[t].stack[tasks[t].Top()]; f.Halving? || (f.Running? && f.work.MergeRange?)
    ensures StacksOK(Spawn(tasks, t, tasks[t].Top(), w))
  {
    var d := tasks[t].Top();
    var tasks' := Spawn(tasks, t, d, w);
    SpawnFrames(tasks, t, d, w);
    hide Spawn;
    forall u, e | IsCall(tasks', u, e) && e < |tasks'[u].stack| - 1 ensures tasks'[u].stack[e].Halving? {
      assert u < |tasks| ==> IsCall(tasks, u, e) && e < |tasks[u].stack| - 1;
    }
    forall u | 0 <= u < |tasks'| ensures SpawnerWaits(tasks', u) {
      if u < |tasks| {
        assert SpawnerWaits(tasks, u);
      }
    }
  }

  /** Whoever waits for the tasks there were goes on doing so, if the node of a call
      that waits for its halves stays. */
  lemma SplitBases<T>(tasks: seq<Task>, v: View<T>, t: nat, g': Graph.State<T>, l: Graph.Work, r: Graph.Work)
    requires BasesOK(tasks, v) && t < |tasks| && HasNode(tasks, t, |tasks[t].stack| - 1)
    requires tasks[t].stack[tasks[t].Top()].Running? && NodeOK(tasks, v, t, tasks[t].Top())
    requires v.g.tasks[v.node[(t, tasks[t].Top())]].Task?
    ensures var d := tasks[t].Top();
            BasesOK(Spawn(SetTop(tasks, t, Running(r)), t, d, l), SplitView(v, t, d, |tasks|, g'))
  {
    var d, n := tasks[t].Top(), |tasks|;
    var one := SetTop(tasks, t, Running(r));
    var tasks', v' := Spawn(one, t, d, l), SplitView(v, t, d, n, g');
    SetTopFrames(tasks, t, Running(r));
    SpawnFrames(one, t, d, l);
    hide SetTop, Spawn;
    forall u | 0 <= u < |tasks'| ensures BaseOK(tasks', v', u) {
      if u < n {
        assert BaseOK(tasks, v, u);
        SplitBase(tasks, tasks', v, t, g', u);
      }
    }
  }

  lemma SplitBase<T>(tasks: seq<Task>, tasks': seq<Task>, v: View<T>, t: nat, g': Graph.State<T>, u: nat)
    requires t < |tasks| && tasks[t].stack != [] && (t, tasks[t].Top()) in v.node
    requires v.node[(t, tasks[t].Top())] < |v.g.tasks| && v.g.tasks[v.node[(t, tasks[t].Top())]].Task?
    requires u < |tasks| == |v.base| && |tasks'| == |tasks| + 1 && BaseOK(tasks, v, u)
    requires tasks'[u].spawner == tasks[u].spawner && tasks'[u].at == tasks[u].at
    requires tasks'[u].stack != [] ==> tasks[u].stack != []
    requires tasks[t].stack[tasks[t].Top()].Running?
    requires forall p, e :: IsCall(tasks, p, e) ==>
               IsCall(tasks', p, e) && (tasks'[p].stack[e].Halving? <==> tasks[p].stack[e].Halving?)
    ensures BaseOK(tasks', SplitView(v, t, tasks[t].Top(), |tasks|, g'), u)
  {
  }

  lemma SplitLinked<T>(s: State<T>, v: View<T>, t: nat, g': Graph.State<T>, l: Graph.Work, r: Graph.Work)
    requires Linked(s, v) && t < |s.tasks| && s.tasks[t].stack != [] && r.MergeRange?
    requires var d := s.tasks[t].Top();
             && s.tasks[t].stack[d].Running? && s.tasks[t].stack[d].work.MergeRange?
             && (t, d) in v.node && Splits(v.g.tasks, g'.tasks, v.node[(t, d)], l, r)
    requires g'.x == v.g.x && g'.z == v.g.z
    ensures var d := s.tasks[t].Top();
            Linked(s.(tasks := Spawn(SetTop(s.tasks, t, Running(r)), t, d, l)), SplitView(v, t, d, |s.tasks|, g'))
  {
    var d, one := s.tasks[t].Top(), SetTop(s.tasks, t, Running(r));
    SetTopStacks(s.tasks, t, Running(r));
    SetTopFrames(s.tasks, t, Running(r));
    SpawnStacks(one, t, l);
    HasOld(s.tasks, v, t, d);
    SplitNodes(s.tasks, Spawn(one, t, d, l), v, t, g', l, r);
    SplitBases(s.tasks, v, t, g', l, r);
    forall k | k in v.node ensures v.node[k] < |v.g.tasks| {
      HasOld(s.tasks, v, k.0, k.1);
    }
    HasOld(s.tasks, v, |s.tasks|, 0);
    SplitOneToOne(v, t, d, |s.tasks|, g', l, r);
  }

  // A sort divides

  /** The sort's call gets the continuation's node m, the call of the right half a new
      one, and the spawned task is node i. */
  function DivideView<T>(v: View<T>, t: nat, d: nat, n: nat, g': Graph.State<T>): View<T>
    requires (t, d) in v.node
  {
    var i, m := v.node[(t, d)], |v.g.tasks|;
    View(g', v.node[(t, d) := m][(t, d + 1) := m + 1][(n, 0) := i], v.base + [m])
  }

  ghost predicate Divides(tasks: seq<Graph.Task>, tasks': seq<Graph.Task>, i: nat, lo: nat, hi: nat, inplace: int) {
    var m := |tasks|;
    && lo <= hi && i < m && tasks[i].Active() && |tasks'| == m + 2
    && (forall j :: 0 <= j < m && j != i ==> tasks'[j] == tasks[j])
    && tasks'[i].Active() && tasks'[i].parent == m
    && tasks'[i].work == Graph.SortRange(lo, Graph.Mid(lo, hi), Not(inplace))
    && Matches(Halving(lo, hi, inplace), tasks'[m]) && tasks'[m].parent == tasks[i].parent
    && tasks'[m + 1].Active() && tasks'[m + 1].parent == m
    && tasks'[m + 1].work == Graph.SortRange(Graph.Mid(lo, hi), hi, Not(inplace))
  }

  lemma DivideSortDivides(tasks: seq<Graph.Task>, i: nat)
    requires i < |tasks| && tasks[i].Active() && tasks[i].work.SortRange? && tasks[i].work.lo <= tasks[i].work.hi
    ensures var SortRange(lo, hi, inplace) := tasks[i].work;
            Divides(tasks, Graph.DivideSort(tasks, i), i, lo, hi, inplace)
  {
  }

  lemma DivideOneToOne<T>(v: View<T>, t: nat, d: nat, n: nat, g': Graph.State<T>, lo: nat, hi: nat, inplace: int)
    requires OneToOne(v) && (t, d) in v.node && (n, 0) !in v.node && (t, d + 1) !in v.node && n != t
    requires forall k :: k in v.node ==> v.node[k] < |v.g.tasks|
    requires Divides(v.g.tasks, g'.tasks, v.node[(t, d)], lo, hi, inplace)
    ensures OneToOne(DivideView(v, t, d, n, g'))
  {
    var v', i, m := DivideView(v, t, d, n, g'), v.node[(t, d)], |v.g.tasks|;
    assert v'.node[(n, 0)] == i && v'.node[(t, d)] == m && v'.node[(t, d + 1)] == m + 1;
    forall j | 0 <= j < |g'.tasks| && g'.tasks[j].Task? ensures exists k :: k in v'.node && v'.node[k] == j {
      if j != i && j < m {
        var k :| k in v.node && v.node[k] == j;
        assert k in v'.node && v'.node[k] == j;
      }
    }
  }

  lemma PushFrames(tasks: seq<Task>, t: nat, f: Frame)
    requires t < |tasks|
    ensures var tasks', d := Push(tasks, t, f), |tasks[t].stack|;
            && |tasks'| == |tasks|
            && (forall u, e :: IsCall(tasks', u, e) <==> IsCall(tasks, u, e) || (u == t && e == d))
            && (forall u, e :: IsCall(tasks, u, e) ==> tasks'[u].stack[e] == tasks[u].stack[e])
            && tasks'[t].stack[d] == f
            && (forall u :: 0 <= u < |tasks| ==>
                  && tasks'[u].spawner == tasks[u].spawner && tasks'[u].at == tasks[u].at
                  && |tasks'[u].stack| == if u == t then d + 1 else |tasks[u].stack|)
  {
  }

  lemma DivideFrames(tasks: seq<Task>, t: nat, lo: nat, hi: nat, inplace: int)
    requires t < |tasks| && tasks[t].stack != [] && lo <= hi
    ensures var tasks', n, d := Divide(tasks, t, lo, hi, inplace), |tasks|, tasks[t].Top();
            && |tasks'| == n + 1
            && (forall u, e :: IsCall(tasks', u, e) <==>
                  IsCall(tasks, u, e) || (u == t && e == d + 1) || (u == n && e == 0))
            && (forall u, e :: IsCall(tasks, u, e) && !(u == t && e == d) ==> tasks'[u].stack[e] == tasks[u].stack[e])
            && tasks'[t].stack[d] == Halving(lo, hi, inplace)
            && tasks'[t].stack[d + 1] == Running(Graph.SortRange(Graph.Mid(lo, hi), hi, Not(inplace)))
            && tasks'[n] == Task(t, d, [Running(Graph.SortRange(lo, Graph.Mid(lo, hi), Not(inplace)))])
            && (forall u :: 0 <= u < n ==>
                  && tasks'[u].spawner == tasks[u].spawner && tasks'[u].at == tasks[u].at
                  && |tasks'[u].stack| == if u == t then d + 2 else |tasks[u].stack|)
  {
    var d, mid := tasks[t].Top(), Graph.Mid(lo, hi);
    var one := SetTop(tasks, t, Halving(lo, hi, inplace));
    SetTopFrames(tasks, t, Halving(lo, hi, inplace));
    SpawnFrames(one, t, d, Graph.SortRange(lo, mid, Not(inplace)));
    var two := Spawn(one, t, d, Graph.SortRange(lo, mid, Not(inplace)));
    PushFrames(two, t, Running(Graph.SortRange(mid, hi, Not(inplace))));
    hide SetTop, Spawn, Push;
  }

  lemma DivideCalls(tasks: seq<Task>, t: nat, lo: nat, hi: nat, inplace: int)
    requires t < |tasks| && tasks[t].stack != [] && lo <= hi && HasNode(tasks, t, tasks[t].Top())
    ensures var tasks', n, d := Divide(tasks, t, lo, hi, inplace), |tasks|, tasks[t].Top();
            && (forall u, e :: HasNode(tasks', u, e) <==>
                  HasNode(tasks, u, e) || (u == t && e == d + 1) || (u == n && e == 0))
            && (forall u, e :: HasNode(tasks, u, e) && !(u == t && e == d) ==>
                  IsCall(tasks', u, e) && tasks'[u].stack[e] == tasks[u].stack[e])
  {
    DivideFrames(tasks, t, lo, hi, inplace);
    hide Divide;
  }

  lemma DivideViewSame<T>(v: View<T>, t: nat, d: nat, n: nat, g': Graph.State<T>, u: nat, e: nat)
    requires (t, d) in v.node
    ensures var v' := DivideView(v, t, d, n, g');
            && v'.g == g'
            && ((u, e) in v'.node <==> (u, e) in v.node || (u == t && e == d + 1) || (u == n && e == 0))
            && (!(u == t && e == d) && !(u == t && e == d + 1) && u != n ==> SameNode(v, v', u, e))
            && SameBase(v, v', u)
  {
  }

  /** The nodes of the three calls concerned. */
  lemma DivideNode<T>(tasks: seq<Task>, v: View<T>, t: nat, g': Graph.State<T>, lo: nat, hi: nat, inplace: int)
    requires |v.base| == |tasks| && t < |tasks| && tasks[t].stack != [] && lo <= hi
    requires HasNode(tasks, t, tasks[t].Top()) && NodeOK(tasks, v, t, tasks[t].Top())
    requires Divides(v.g.tasks, g'.tasks, v.node[(t, tasks[t].Top())], lo, hi, inplace)
    ensures var tasks', d, n := Divide(tasks, t, lo, hi, inplace), tasks[t].Top(), |tasks|;
            var v' := DivideView(v, t, d, n, g');
            && HasNode(tasks', t, d) && HasNode(tasks', t, d + 1) && HasNode(tasks', n, 0)
            && NodeOK(tasks', v', t, d) && NodeOK(tasks', v', t, d + 1) && NodeOK(tasks', v', n, 0)
  {
    DivideFrames(tasks, t, lo, hi, inplace);
    hide Divide;
  }

  lemma DivideOther<T>(tasks: seq<Task>, tasks': seq<Task>, v: View<T>, t: nat, g': Graph.State<T>,
                       lo: nat, hi: nat, inplace: int, u: nat, e: nat)
    requires OneToOne(v) && t < |tasks| && tasks[t].stack != [] && (t, tasks[t].Top()) in v.node
    requires Divides(v.g.tasks, g'.tasks, v.node[(t, tasks[t].Top())], lo, hi, inplace)
    requires HasNode(tasks, u, e) && NodeOK(tasks, v, u, e) && (u != t || e != tasks[t].Top())
    requires IsCall(tasks', u, e) && tasks'[u].stack[e] == tasks[u].stack[e]
    ensures NodeOK(tasks', DivideView(v, t, tasks[t].Top(), |tasks|, g'), u, e)
  {
    hide NodeOK, OneToOne, DivideView;
    var d, n := tasks[t].Top(), |tasks|;
    NodeInRange(tasks, v, u, e);
    Differ(v, (u, e), (t, d));
    DivideViewSame(v, t, d, n, g', u, e);
    if e > 0 {
      DivideViewSame(v, t, d, n, g', u, e - 1);
    }
    NodeStays(tasks, tasks', v, DivideView(v, t, d, n, g'), u, e);
  }

  lemma DivideKeys<T>(tasks: seq<Task>, v: View<T>, t: nat, g': Graph.State<T>, lo: nat, hi: nat, inplace: int)
    requires NodesOK(tasks, v) && t < |tasks| && tasks[t].stack != [] && lo <= hi && (t, tasks[t].Top()) in v.node
    ensures var tasks', v' := Divide(tasks, t, lo, hi, inplace), DivideView(v, t, tasks[t].Top(), |tasks|, g');
            forall u: nat, e: nat :: (u, e) in v'.node ==> HasNode(tasks', u, e)
  {
    var tasks', d, n := Divide(tasks, t, lo, hi, inplace), tasks[t].Top(), |tasks|;
    var v' := DivideView(v, t, d, n, g');
    HasOld(tasks, v, t, d);
    hide NodesOK, NodeOK;
    DivideCalls(tasks, t, lo, hi, inplace);
    hide DivideView, Divide, HasNode;
    forall u: nat, e: nat | (u, e) in v'.node ensures HasNode(tasks', u, e) {
      DivideViewSame(v, t, d, n, g', u, e);
      HasOld(tasks, v, u, e);
    }
  }

  lemma DivideAny<T>(tasks: seq<Task>, v: View<T>, t: nat, g': Graph.State<T>, lo: nat, hi: nat, inplace: int,
                     u: nat, e: nat)
    requires NodesOK(tasks, v) && OneToOne(v) && |v.base| == |tasks| && t < |tasks| && tasks[t].stack != [] && lo <= hi
    requires (t, tasks[t].Top()) in v.node && HasNode(Divide(tasks, t, lo, hi, inplace), u, e)
    requires Divides(v.g.tasks, g'.tasks, v.node[(t, tasks[t].Top())], lo, hi, inplace)
    ensures NodeOK(Divide(tasks, t, lo, hi, inplace), DivideView(v, t, tasks[t].Top(), |tasks|, g'), u, e)
  {
    hide NodesOK, OneToOne, DivideView, Divides, NodeOK, Divide;
    var tasks', d, n := Divide(tasks, t, lo, hi, inplace), tasks[t].Top(), |tasks|;
    HasOld(tasks, v, t, d);
    if (u == t && (e == d || e == d + 1)) || (u == n && e == 0) {
      DivideNode(tasks, v, t, g', lo, hi, inplace);
    } else {
      DivideCalls(tasks, t, lo, hi, inplace);
      HasOld(tasks, v, u, e);
      DivideOther(tasks, tasks', v, t, g', lo, hi, inplace, u, e);
    }
  }

  lemma DivideNodes<T>(tasks: seq<Task>, v: View<T>, t: nat, g': Graph.State<T>, lo: nat, hi: nat, inplace: int)
    requires NodesOK(tasks, v) && OneToOne(v) && |v.base| == |tasks| && t < |tasks| && tasks[t].stack != [] && lo <= hi
    requires (t, tasks[t].Top()) in v.node
    requires Divides(v.g.tasks, g'.tasks, v.node[(t, tasks[t].Top())], lo, hi, inplace)
    ensures NodesOK(Divide(tasks, t, lo, hi, inplace), DivideView(v, t, tasks[t].Top(), |tasks|, g'))
  {
    DivideKeys(tasks, v, t, g', lo, hi, inplace);
    hide NodesOK, OneToOne, DivideView, Divides, NodeOK, Divide, HasNode;
    var tasks', v' := Divide(tasks, t, lo, hi, inplace), DivideView(v, t, tasks[t].Top(), |tasks|, g');
    forall u: nat, e: nat | HasNode(tasks', u, e) ensures NodeOK(tasks', v', u, e) {
      DivideAny(tasks, v, t, g', lo, hi, inplace, u, e);
    }
    NodesIf(tasks', v');
  }

  lemma DivideStacks(tasks: seq<Task>, t: nat, lo: nat, hi: nat, inplace: int)
    requires StacksOK(tasks) && t < |tasks| && tasks[t].stack != [] && lo <= hi
    requires NobodyAt(tasks, t, tasks[t].Top())
    ensures StacksOK(Divide(tasks, t, lo, hi, inplace))
  {
    var tasks', d, n := Divide(tasks, t, lo, hi, inplace), tasks[t].Top(), |tasks|;
    DivideFrames(tasks, t, lo, hi, inplace);
    hide Divide;
    forall u, e | IsCall(tasks', u, e) && e < |tasks'[u].stack| - 1 ensures tasks'[u].stack[e].Halving? {
      if !(u == t && e == d) {
        assert IsCall(tasks, u, e) && e < |tasks[u].stack| - 1;
      }
    }
    forall u | 0 <= u < |tasks'| ensures SpawnerWaits(tasks', u) {
      if u < n {
        assert SpawnerWaits(tasks, u);
        var p, e := tasks[u].spawner, tasks[u].at;
        if tasks'[u].stack != [] && u > 0 && p == t {
          assert e < d;
          assert IsCall(tasks, p, e) && tasks[p].stack[e].Halving?;
        }
      }
    }
  }

  lemma DivideBases<T>(tasks: seq<Task>, v: View<T>, t: nat, g': Graph.State<T>, lo: nat, hi: nat, inplace: int)
    requires BasesOK(tasks, v) && t < |tasks| && tasks[t].stack != [] && lo <= hi
    requires NobodyAt(tasks, t, tasks[t].Top()) && (t, tasks[t].Top()) in v.node
    ensures BasesOK(Divide(tasks, t, lo, hi, inplace), DivideView(v, t, tasks[t].Top(), |tasks|, g'))
  {
    var tasks', d, n := Divide(tasks, t, lo, hi, inplace), tasks[t].Top(), |tasks|;
    var v' := DivideView(v, t, d, n, g');
    DivideFrames(tasks, t, lo, hi, inplace);
    hide Divide;
    forall u | 0 <= u < |tasks'| ensures BaseOK(tasks', v', u) {
      if u < n {
        assert BaseOK(tasks, v, u);
        var p, e := tasks[u].spawner, tasks[u].at;
        if tasks[u].stack != [] && u > 0 {
          DivideViewSame(v, t, d, n, g', p, e);
          if e > 0 {
            DivideViewSame(v, t, d, n, g', p, e - 1);
          }
        }
        DivideViewSame(v, t, d, n, g', u, 0);
        hide DivideView;
        BaseStays(tasks, tasks', v, v', u);
      }
    }
  }

  lemma DivideLinked<T>(s: State<T>, v: View<T>, t: nat, g': Graph.State<T>, lo: nat, hi: nat, inplace: int)
    requires Linked(s, v) && t < |s.tasks| && s.tasks[t].stack != [] && lo <= hi
    requires NobodyAt(s.tasks, t, s.tasks[t].Top()) && (t, s.tasks[t].Top()) in v.node
    requires Divides(v.g.tasks, g'.tasks, v.node[(t, s.tasks[t].Top())], lo, hi, inplace)
    requires g'.x == v.g.x && g'.z == v.g.z
    ensures Linked(s.(tasks := Divide(s.tasks, t, lo, hi, inplace)), DivideView(v, t, s.tasks[t].Top(), |s.tasks|, g'))
  {
    var d := s.tasks[t].Top();
    DivideStacks(s.tasks, t, lo, hi, inplace);
    DivideNodes(s.tasks, v, t, g', lo, hi, inplace);
    DivideBases(s.tasks, v, t, g', lo, hi, inplace);
    forall k | k in v.node ensures v.node[k] < |v.g.tasks| {
      HasOld(s.tasks, v, k.0, k.1);
    }
    HasOld(s.tasks, v, |s.tasks|, 0);
    HasOld(s.tasks, v, t, d + 1);
    DivideOneToOne(v, t, d, |s.tasks|, g', lo, hi, inplace);
  }
}
