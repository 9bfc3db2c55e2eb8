/** The serial merges of a merge by concurrent tasks are those of the two-way recursion. */
module MergeTasksPlan {
  import opened Sums
  import opened StableOrder
  import opened MergePlan
  import opened Pieces
  import opened PiecePlan
  import opened MergeTasks

  /** The serial merge, if any, that call i begins in the step from s to s'. */
  function BegunBy<T>(s: State<T>, s': State<T>, i: nat): seq<Leaf> {
    if i < |s.calls| && i < |s'.calls| && s.calls[i].Running? && s'.calls[i].Running?
    then Begins(s.calls[i].piece, s'.calls[i].piece) else []
  }

  /** All that are begun in the first k steps. */
  function Begun<T>(schedule: seq<nat>, states: seq<State<T>>, k: nat): seq<Leaf>
    requires k <= |schedule| < |states|
  {
    if k == 0 then [] else Begun(schedule, states, k - 1) + BegunBy(states[k - 1], states[k], schedule[k - 1])
  }

  /** How many of the leaves that a call is due for are f. */
  ghost function Due<T(!new)>(lt: (T, T) -> bool, base: seq<T>, f: Leaf): Call -> nat {
    (c: Call) => if c.Running? then multiset(PieceLeaves(lt, c.piece, base))[f] else 0
  }

  lemma StepBegins<T(!new)>(lt: (T, T) -> bool, job: Job<T>, s: State<T>, i: nat, f: Leaf)
    requires StrictWeak(lt) && Invariant(lt, job, s) && CanStep(s, i)
    ensures var s' := Step(lt, s, i);
            Sum(Due(lt, job.base, f), s'.calls) + multiset(BegunBy(s, s', i))[f] == Sum(Due(lt, job.base, f), s.calls)
  {
    hide SlotsOK, CallsOK, Safe, OnTrack, Advance, PieceLeaves, Sum, Left, Right, StrictWeak;
    var g, s' := Due(lt, job.base, f), Step(lt, s, i);
    SumUpdate(g, s.calls, i, s'.calls[i]);
    if s.calls[i].Running? {
      var p := s.calls[i].piece;
      assert RunningOK(lt, job, s, s.calls[i]);
      if p.Done() {
        DecidedNone(lt, p, job.base);
      } else if p.Splits() {
        SplitDeals(lt, p, s.src, s.dst, job.base, job.out);
        SumAppend(g, s.calls[i := s'.calls[i]], s'.calls[|s.calls|]);
        NeitherBegins(p);
      } else {
        AdvanceStarts(lt, p, s.src, s.dst, job.base, job.out);
      }
    }
  }

  lemma NeitherBegins(p: Piece)
    requires p.Range().Valid() && p.phase.Searching? && p.xs <= p.XM() && p.ys <= p.YM()
    ensures Begins(p, Right(p)) == []
  {
  }

  lemma {:induction false} RunBegins<T(!new)>(lt: (T, T) -> bool, job: Job<T>, schedule: seq<nat>,
                                       states: seq<State<T>>, k: nat, f: Leaf)
    requires StrictWeak(lt) && IsJob(lt, job) && IsRun(lt, job, schedule, states) && k < |states|
    ensures Sum(Due(lt, job.base, f), states[k].calls) + multiset(Begun(schedule, states, k))[f]
            == Sum(Due(lt, job.base, f), states[0].calls)
  {
    hide Invariant, IsJob, Step, CanStep, Due;
    if k > 0 {
      RunBegins(lt, job, schedule, states, k - 1, f);
      RunKeepsInvariant(lt, job, schedule, states, k - 1);
      StepBegins(lt, job, states[k - 1], schedule[k - 1], f);
    }
  }

  lemma NobodyDue<T(!new)>(lt: (T, T) -> bool, job: Job<T>, s: State<T>, f: Leaf)
    requires Invariant(lt, job, s) && HasReturned(s)
    ensures Sum(Due(lt, job.base, f), s.calls) == 0
  {
    hide SlotsOK, OnTrack;
    forall j | 0 <= j < |s.calls| ensures Due(lt, job.base, f)(s.calls[j]) == 0 {
      RootReturnsLast(s.calls, j);
    }
    SumZero(Due(lt, job.base, f), s.calls);
  }

  lemma FirstDue<T(!new)>(lt: (T, T) -> bool, job: Job<T>, f: Leaf)
    requires StrictWeak(lt) && IsJob(lt, job)
    ensures Undecided(lt, job.p, job.base)
    ensures Sum(Due(lt, job.base, f), Initial(job.src, job.dst, job.p).calls)
            == multiset(PieceLeaves(lt, job.p, job.base))[f]
  {
    hide OnTrack, PieceLeaves, StrictWeak;
    TrackUndecided(lt, job.p, job.src, job.dst, job.base, job.out);
    var calls := Initial(job.src, job.dst, job.p).calls;
    assert calls == [] + [Running(0, job.p)];
    SumAppend(Due(lt, job.base, f), [], Running(0, job.p));
  }

  /** Whatever the interleaving, a complete run merges serially exactly the pieces that the
      two-way recursion ends in, each of them once. */
  lemma EveryScheduleMergesLeaves<T(!new)>(lt: (T, T) -> bool, job: Job<T>, schedule: seq<nat>, states: seq<State<T>>)
    requires StrictWeak(lt) && IsJob(lt, job) && IsRun(lt, job, schedule, states) && HasReturned(states[|schedule|])
    ensures Undecided(lt, job.p, job.base)
    ensures var p := job.p;
            multiset(Begun(schedule, states, |schedule|))
            == multiset(Leaves(lt, job.base[p.xs..p.xe], job.base[p.ys..p.ye], p.xs, p.ys, p.zs))
  {
    hide Invariant, IsJob, Step, CanStep, Due, Begun, Initial;
    RunKeepsInvariant(lt, job, schedule, states, |schedule|);
    FirstDue(lt, job, Leaf(0, 0, 0, 0, 0));
    forall f ensures multiset(Begun(schedule, states, |schedule|))[f] == multiset(PieceLeaves(lt, job.p, job.base))[f] {
      RunBegins(lt, job, schedule, states, |schedule|, f);
      NobodyDue(lt, job, states[|schedule|], f);
      FirstDue(lt, job, f);
    }
  }
}
