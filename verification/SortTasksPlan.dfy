/** The base cases and serial merges of the whole sort by spawned tasks are those of the
    sequential recursion, whatever the interleaving. */
module SortTasksPlan {
  import opened StableOrder
  import opened SortPlan
  import opened Pieces
  import Graph = TaskGraph
  import opened TaskMemory
  import opened TaskRun
  import Term = TaskTermination
  import opened TaskPlan
  import opened SortTasks
  import opened SortTasksView
  import opened SortTasksRun

  /** The job that the call that task t is in starts in the step from s to s'. */
  function StartedBy<T>(s: State<T>, s': State<T>, t: nat): seq<Job> {
    if t < |s.tasks| && t < |s'.tasks| && IsRunning(s.tasks, t) && s.tasks[t].Top() < |s'.tasks[t].stack|
       && s'.tasks[t].stack[s.tasks[t].Top()].Running?
    then Starts(Work(s.tasks, t), s'.tasks[t].stack[s.tasks[t].Top()].work) else []
  }

  /** All that are started in the first k steps. */
  function Started<T>(schedule: seq<nat>, states: seq<State<T>>, k: nat): seq<Job>
    requires k <= |schedule| < |states|
  {
    if k == 0 then [] else Started(schedule, states, k - 1) + StartedBy(states[k - 1], states[k], schedule[k - 1])
  }

  /** A step of a running call starts what the corresponding step of the graph starts. */
  lemma SameStart<T>(lt: (T, T) -> bool, own: bool, s: State<T>, t: nat, g: Graph.State<T>, i: nat)
    requires CanStep(own, s, t) && IsRunning(s.tasks, t) && Graph.CanStep(g, i)
    requires g.x == s.x && g.z == s.z && g.tasks[i].work == Work(s.tasks, t)
    requires g.tasks[i].parent < |g.tasks| && g.tasks[i].parent != i
    ensures StartedBy(s, Step(lt, own, s, t), t) == TaskPlan.StartedBy(g, Graph.Step(lt, g, i), i)
  {
    var w := Work(s.tasks, t);
    if WorksOn(w) {
      WorkStartsSame(lt, own, s, t, g, i);
    } else if w.SortRange? {
      DivideFrames(s.tasks, t, w.lo, w.hi, w.inplace);
      hide Divide;
    } else if w.Build? {
      CompleteEnds(g.tasks, i);
      hide Graph.Complete;
    } else if w.piece.Done() {
      CompleteEnds(g.tasks, i);
      hide Graph.Complete;
    } else {
      SplitStartsSame(lt, own, s, t, g, i);
    }
  }

  lemma WorkStartsSame<T>(lt: (T, T) -> bool, own: bool, s: State<T>, t: nat, g: Graph.State<T>, i: nat)
    requires CanStep(own, s, t) && IsRunning(s.tasks, t) && Graph.CanStep(g, i) && WorksOn(Work(s.tasks, t))
    requires g.x == s.x && g.z == s.z && g.tasks[i].work == Work(s.tasks, t)
    ensures StartedBy(s, Step(lt, own, s, t), t) == TaskPlan.StartedBy(g, Graph.Step(lt, g, i), i)
  {
    AloneStep(lt, g, i);
    hide Graph.Step, Graph.CanStep, WorksOn, Starts;
  }

  lemma SplitStartsSame<T>(lt: (T, T) -> bool, own: bool, s: State<T>, t: nat, g: Graph.State<T>, i: nat)
    requires CanStep(own, s, t) && IsRunning(s.tasks, t) && Graph.CanStep(g, i)
    requires g.x == s.x && g.z == s.z && g.tasks[i].work == Work(s.tasks, t)
    requires Work(s.tasks, t).MergeRange? && !Work(s.tasks, t).piece.Done() && Work(s.tasks, t).piece.Splits()
    requires g.tasks[i].parent < |g.tasks| && g.tasks[i].parent != i
    ensures StartedBy(s, Step(lt, own, s, t), t) == TaskPlan.StartedBy(g, Graph.Step(lt, g, i), i)
  {
    hide Safe;
    var w := Work(s.tasks, t);
    if w.inplace != 0 {
      SafeSplit(w.piece, g.z, g.x);
    } else {
      SafeSplit(w.piece, g.x, g.z);
    }
    SplitStartsNone(g.tasks, i);
    hide Graph.DivideMerge, Left;
  }

  /** What a run of the graph has started, a run of the tasks has started, too. */
  ghost predicate Follows<T(!new)>(lt: (T, T) -> bool, orig: seq<T>, g: Graph.State<T>, jobs: seq<Job>) {
    exists schedule, states ::
      Reached(lt, orig, schedule, states, g) && TaskPlan.Started(schedule, states, |schedule|) == jobs
  }

  lemma FollowsFirst<T(!new)>(lt: (T, T) -> bool, orig: seq<T>)
    ensures Follows(lt, orig, Graph.Initial(orig), [])
  {
    assert Reached(lt, orig, [], [Graph.Initial(orig)], Graph.Initial(orig));
    assert TaskPlan.Started([], [Graph.Initial(orig)], 0) == [];
  }

  lemma FollowsNext<T(!new)>(lt: (T, T) -> bool, orig: seq<T>, g: Graph.State<T>, jobs: seq<Job>, i: nat)
    requires Follows(lt, orig, g, jobs) && Graph.CanStep(g, i)
    ensures var g' := Graph.Step(lt, g, i); Follows(lt, orig, g', jobs + TaskPlan.StartedBy(g, g', i))
  {
    hide Graph.CanStep, Graph.Step, TaskPlan.StartedBy;
    var g' := Graph.Step(lt, g, i);
    var schedule, states :|
      Reached(lt, orig, schedule, states, g) && TaskPlan.Started(schedule, states, |schedule|) == jobs;
    StartedPrefix(schedule, states, i, g', |schedule|);
    assert Reached(lt, orig, schedule + [i], states + [g'], g');
    assert TaskPlan.Started(schedule + [i], states + [g'], |schedule + [i]|) == jobs + TaskPlan.StartedBy(g, g', i);
  }

  lemma {:induction false} StartedPrefix<T>(schedule: seq<nat>, states: seq<Graph.State<T>>, i: nat,
                                            g: Graph.State<T>, k: nat)
    requires k <= |schedule| < |states|
    ensures TaskPlan.Started(schedule + [i], states + [g], k) == TaskPlan.Started(schedule, states, k)
  {
    hide TaskPlan.StartedBy;
    if k > 0 {
      StartedPrefix(schedule, states, i, g, k - 1);
    }
  }

  lemma {:induction false} RunFollows<T(!new)>(lt: (T, T) -> bool, own: bool, orig: seq<T>, schedule: seq<nat>,
                                        states: seq<State<T>>, k: nat) returns (v: View<T>)
    requires StrictWeak(lt) && IsRun(lt, own, orig, schedule, states) && k < |states|
    ensures Linked(states[k], v) && Invariant(lt, orig, v.g)
    ensures Follows(lt, orig, v.g, Started(schedule, states, k))
  {
    hide Invariant, Linked, Step, CanStep, Graph.Step, Graph.CanStep, Initial, Follows, StartedBy;
    if k == 0 {
      v := View(Graph.Initial(orig), map[(0, 0) := 1], [0]);
      InitialLinked(orig);
      InitialInvariant(lt, orig);
      FollowsFirst(lt, orig);
    } else {
      v := RunFollows(lt, own, orig, schedule, states, k - 1);
      v := FollowStep(lt, own, orig, states[k - 1], schedule[k - 1], v, Started(schedule, states, k - 1));
    }
  }

  lemma FollowStep<T(!new)>(lt: (T, T) -> bool, own: bool, orig: seq<T>, s: State<T>, t: nat, v: View<T>,
                            jobs: seq<Job>)
    returns (v': View<T>)
    requires StrictWeak(lt) && CanStep(own, s, t)
    requires Linked(s, v) && Invariant(lt, orig, v.g) && Follows(lt, orig, v.g, jobs)
    ensures var s' := Step(lt, own, s, t);
            && Linked(s', v') && Invariant(lt, orig, v'.g) && Follows(lt, orig, v'.g, jobs + StartedBy(s, s', t))
  {
    var running := IsRunning(s.tasks, t);
    hide Invariant, Linked, Step, Graph.Step, Graph.CanStep, Follows, StrictWeak;
    if running {
      var i;
      v', i := SimulateRunning(lt, own, orig, s, v, t);
      StepKeepsInvariant(lt, orig, v.g, i);
      FollowsNext(lt, orig, v.g, jobs, i);
      LinkedMemory(s, v);
      ParentOf(v.g, i);
      SameStart(lt, own, s, t, v.g, i);
    } else {
      SimulateWait(lt, own, orig, s, v, t);
      v' := v;
      assert jobs + [] == jobs;
    }
  }

  lemma ParentOf<T>(g: Graph.State<T>, i: nat)
    requires Graph.CanStep(g, i)
    ensures i < |g.tasks| && g.tasks[i].Task? && g.tasks[i].parent < |g.tasks| && g.tasks[i].parent != i
  {
  }

  /** Whatever the interleaving, in OpenMP and in Cilk Plus, a complete run sorts exactly the
      base cases and does exactly the serial merges of the sequential recursion. */
  lemma EveryScheduleFollowsPlan<T(!new)>(lt: (T, T) -> bool, own: bool, orig: seq<T>, schedule: seq<nat>,
                                          states: seq<State<T>>)
    requires StrictWeak(lt) && IsRun(lt, own, orig, schedule, states)
    requires states[|schedule|].tasks != [] && states[|schedule|].tasks[0].stack == []
    ensures multiset(Started(schedule, states, |schedule|)) == multiset(Plan(lt, orig, 0, 0, 2))
  {
    hide Invariant, Step, CanStep, Linked, Initial, Plan, Started;
    var end := states[|schedule|];
    var v := RunFollows(lt, own, orig, schedule, states, |schedule|);
    ReturnedIsTerminated(lt, orig, end, v);
    var gschedule, gstates :| Reached(lt, orig, gschedule, gstates, v.g)
        && TaskPlan.Started(gschedule, gstates, |gschedule|) == Started(schedule, states, |schedule|);
    EveryRunFollowsPlan(lt, orig, gschedule, gstates);
  }
}
