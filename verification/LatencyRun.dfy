/** Whole runs of the latency test: barrier safety, no deadlock, termination. */
module LatencyRun {
  import opened Sums
  import opened LatencyMT
  import opened LatencyInvariant

  // ---------- Somebody can always step ----------

  /** No receiver can go on, even though sends return once their message is received. */
  ghost predicate ReceiversStuck(s: State) {
    forall t :: 0 <= t < |s.receivers| ==> !ReceiverCanStep(s, t, false)
  }

  lemma HolderIsLeader(c: Config, s: State)
    requires Invariant(c, s) && ReceiversStuck(s) && s.holder != NOBODY
    ensures 0 <= s.holder < |s.receivers| && s.receivers[s.holder].at.InBarrier? && SenderBarriers(s) < s.barriers
    ensures AllLeft(c, s) == 0 && Repliers(s) == 0
  {
    hide Sum, MessagesOK, OptionsOK, SenderOK, Iterations;
    var t := s.holder;
    assert ThreadOK(c, s, t, s.receivers[t]) && !ReceiverCanStep(s, t, false) && OneLeads(s, t);
    LeftBefore(c, s.receivers);
    SumZero((p: Thread) => IsReplying(p), s.receivers);
  }

  /** With the barrier entered and everybody else waiting at it, the sender can step. */
  lemma SenderFreesBarrier(c: Config, s: State)
    requires Invariant(c, s) && ReceiversStuck(s) && s.holder != NOBODY
    ensures SenderCanStep(s, false)
  {
    hide Sum, ThreadsOK, BarrierOK, OptionsOK, SizeOf, Iterations;
    HolderIsLeader(c, s);
    assert Iterations(c, s.sender.round) > 0 by { SomeIterations(c, s.sender.round); }
    assert s.barriers == s.broadcasts + 1 && s.broadcasts < SIZES by { LeaderInBarrier(c, s, s.holder); }
  }

  lemma LeaderInBarrier(c: Config, s: State, t: nat)
    requires Invariant(c, s) && t < |s.receivers| && s.receivers[t].at.InBarrier?
    ensures s.barriers == s.broadcasts + 1 && s.broadcasts < SIZES
  {
    assert ThreadOK(c, s, t, s.receivers[t]);
  }

  lemma SomeIterations(c: Config, r: nat)
    requires c.Valid()
    ensures Iterations(c, r) > 0
  {
  }

  /** With the mutex free, stuck receivers wait for a wakeup, a request, or the reply
      they have sent to be received, or are done. */
  lemma StuckReceivers(c: Config, s: State, t: nat)
    requires Invariant(c, s) && ReceiversStuck(s) && s.holder == NOBODY && t < |s.receivers|
    ensures !Leading(s.receivers[t])
    ensures var p := s.receivers[t];
            p.at.Waiting? || p.at.Done? || (p.at.Receiving? && s.requests == []) || (p.at.Replied? && s.replies != [])
  {
    hide Sum, BarrierOK, MessagesOK, OptionsOK, SenderOK, Iterations;
    assert ThreadOK(c, s, t, s.receivers[t]) && !ReceiverCanStep(s, t, false);
  }

  /** Nobody being past the barrier, not all threads can be waiting at it. */
  lemma NotAllWait(c: Config, s: State)
    requires Invariant(c, s) && s.holder == NOBODY && NoLeader(s)
    ensures exists t :: 0 <= t < |s.receivers| && !s.receivers[t].at.Waiting?
  {
    hide ThreadOK, MessagesOK, OptionsOK, SenderOK, Sum;
    if forall t :: 0 <= t < |s.receivers| ==> s.receivers[t].at.Waiting? {
      AllCount((p: Thread) => IsWaiting(p), s.receivers);
    }
  }

  lemma {:induction false} AllCount(f: Thread -> nat, ps: seq<Thread>)
    requires forall t :: 0 <= t < |ps| ==> f(ps[t]) == 1
    ensures Sum(f, ps) == |ps|
  {
    if ps != [] { AllCount(f, ps[..|ps| - 1]); }
  }

  /** The sender waits for the receivers to enter the barrier: they will. */
  lemma SenderEnteredAlone(c: Config, s: State)
    requires Invariant(c, s) && s.holder == NOBODY && s.sender.at.Entered? && s.barriers <= s.sender.round
    ensures !ReceiversStuck(s)
  {
    hide Sum, OptionsOK, Iterations, BarrierOK, ThreadsOK;
    if ReceiversStuck(s) {
      forall t | 0 <= t < |s.receivers| ensures !Leading(s.receivers[t]) && s.receivers[t].at.Waiting? {
        StuckReceivers(c, s, t);
        assert ThreadOK(c, s, t, s.receivers[t]) by { ThreadAt(c, s, t); }
        OneOfSums(c, s, t);
      }
      NotAllWait(c, s);
    }
  }

  /** A request that was posted, or is still to be, finds a receiver. */
  lemma RequestIsTaken(c: Config, s: State)
    requires Invariant(c, s) && s.holder == NOBODY && s.requests != []
    ensures !ReceiversStuck(s)
  {
    hide Sum, OptionsOK, Iterations, BarrierOK, ThreadsOK;
    if ReceiversStuck(s) {
      if s.broadcasts == s.sender.round {
        NobodyLeads(c, s);
      } else {
        var t := SumPositive((p: Thread) => Left(c, p), s.receivers);
        StuckReceivers(c, s, t);
      }
    }
  }

  lemma NobodyLeads(c: Config, s: State)
    requires Invariant(c, s) && ReceiversStuck(s) && s.holder == NOBODY
    ensures NoLeader(s) && s.barriers == s.broadcasts
  {
    hide Invariant;
    forall t | 0 <= t < |s.receivers| ensures !Leading(s.receivers[t]) {
      StuckReceivers(c, s, t);
    }
    assert s.barriers == s.broadcasts by { NoLeaderBarriers(c, s); }
  }

  lemma NoLeaderBarriers(c: Config, s: State)
    requires Invariant(c, s) && NoLeader(s)
    ensures s.barriers == s.broadcasts
  {
  }

  /** The sender waits for a reply: it is there, or being made. */
  lemma ReplyIsMade(c: Config, s: State)
    requires Invariant(c, s) && s.holder == NOBODY && s.sender.at.Awaiting? && s.replies == [] && s.requests == []
    ensures !ReceiversStuck(s)
  {
    hide Sum, OptionsOK, Iterations, BarrierOK, ThreadsOK;
    if ReceiversStuck(s) {
      var t := SumPositive((p: Thread) => IsReplying(p), s.receivers);
      StuckReceivers(c, s, t);
    }
  }

  ghost predicate AllDone(s: State) {
    s.sender.at.Done? && forall t :: 0 <= t < |s.receivers| ==> s.receivers[t].at.Done?
  }

  lemma DoneTogether(c: Config, s: State)
    requires Invariant(c, s) && s.holder == NOBODY && s.sender.at.Done? && ReceiversStuck(s)
    ensures AllDone(s)
  {
    hide Sum, OptionsOK, Iterations, BarrierOK, ThreadsOK;
    forall t | 0 <= t < |s.receivers| ensures s.receivers[t].at.Done? {
      StuckReceivers(c, s, t);
      assert ThreadOK(c, s, t, s.receivers[t]) by { ThreadAt(c, s, t); }
      OneOfSums(c, s, t);
    }
  }

  /** Deadlock freedom, without relying on any send to return early. */
  lemma SomebodyCanStep(c: Config, s: State)
    requires Invariant(c, s) && !AllDone(s)
    ensures exists actor :: CanStep(c, s, actor, false)
  {
    if ReceiversStuck(s) {
      SenderMoves(c, s);
      assert CanStep(c, s, |s.receivers|, false);
    } else {
      var t :| 0 <= t < |s.receivers| && ReceiverCanStep(s, t, false);
      assert CanStep(c, s, t, false);
    }
  }

  lemma SenderMoves(c: Config, s: State)
    requires Invariant(c, s) && !AllDone(s) && ReceiversStuck(s)
    ensures SenderCanStep(s, false)
  {
    hide MessagesOK, ThreadsOK, BarrierOK, OptionsOK, AllDone, Iterations;
    if s.holder != NOBODY {
      SenderFreesBarrier(c, s);
    } else if s.requests != [] {
      RequestIsTaken(c, s);
    } else if s.sender.at.Entered? && s.barriers <= s.sender.round {
      SenderEnteredAlone(c, s);
    } else if s.sender.at.Awaiting? && s.replies == [] {
      ReplyIsMade(c, s);
    } else if s.sender.at.Done? {
      DoneTogether(c, s);
    }
  }

  // ---------- Termination ----------

  /** Steps that a thread may take for the sizes from r on. */
  function WeightFrom(c: Config, r: nat): nat
    decreases SIZES - r
  {
    if r < SIZES then 12 + 4 * Iterations(c, r) + WeightFrom(c, r + 1) else 0
  }

  /** Steps left in the message loop from index i on. */
  function LoopWeight(c: Config, r: nat, i: nat): nat {
    if i < Iterations(c, r) then 4 * (Iterations(c, r) - i) else 0
  }

  function PlaceWeight(c: Config, p: Thread): nat {
    var all := 4 * Iterations(c, p.round);
    match p.at
    case Lock | Enter => all + 11
    case Locked | Entered => all + 10
    case InBarrier | Waiting => all + 9
    case PastBarrier => all + 8
    case Broadcasting | Woken => all + 7
    case SetLoop => all + 6
    case SetSkip => all + 5
    case Test(i) => LoopWeight(c, p.round, i) + 1
    case Receiving(i) => LoopWeight(c, p.round, i)
    case Posting(i) => LoopWeight(c, p.round, i)
    case Replying(i) => LoopWeight(c, p.round, i + 1) + 3
    case Posted(i) => LoopWeight(c, p.round, i + 1) + 3
    case Replied(i) => LoopWeight(c, p.round, i + 1) + 2
    case Awaiting(i) => LoopWeight(c, p.round, i + 1) + 2
    case Done => 0
  }

  function ThreadWeight(c: Config, p: Thread): nat {
    if p.at.Done? then 0 else PlaceWeight(c, p) + WeightFrom(c, p.round + 1)
  }

  function Weight(c: Config, s: State): nat {
    Sum((p: Thread) => ThreadWeight(c, p), s.receivers) + ThreadWeight(c, s.sender)
  }

  lemma NextRoundLowers(c: Config, p: Thread, first: Place)
    requires (first.Lock? || first.Enter?) && p.at.Test? && p.round < SIZES
    ensures ThreadWeight(c, NextRound(p, first)) < ThreadWeight(c, p)
  {
    hide Iterations, SizeOf;
    SizesEnd(p.round + 1);
  }

  lemma SameReceivers(c: Config, s: State, t: nat)
    requires t < |s.receivers| && ReceiverCanStep(s, t, true)
    ensures |StepReceiver(c, s, t).receivers| == |s.receivers|
  {
    hide Wake, NextRound, WithLoop, WithSkip;
  }

  lemma ReceiverLowers(c: Config, s: State, t: nat)
    requires Invariant(c, s) && t < |s.receivers| && ReceiverCanStep(s, t, true)
    ensures |StepReceiver(c, s, t).receivers| == |s.receivers|
    ensures ThreadWeight(c, StepReceiver(c, s, t).receivers[t]) < ThreadWeight(c, s.receivers[t])
  {
    hide Invariant, StepReceiver, ThreadWeight;
    SameReceivers(c, s, t);
    if s.receivers[t].at.Test? || Serving(s.receivers[t]) {
      ServingLowers(c, s, t);
    } else {
      SynchronisingLowers(c, s, t);
    }
  }

  lemma SynchronisingLowers(c: Config, s: State, t: nat)
    requires t < |s.receivers| && ReceiverCanStep(s, t, true) && !s.receivers[t].at.Test? && !Serving(s.receivers[t])
    requires |StepReceiver(c, s, t).receivers| == |s.receivers|
    ensures ThreadWeight(c, StepReceiver(c, s, t).receivers[t]) < ThreadWeight(c, s.receivers[t])
  {
    hide WeightFrom, Iterations, WithLoop, WithSkip, Wake;
    LoopIsBounded(c, s.receivers[t].round, s.receivers[t].val);
  }

  lemma LoopIsBounded(c: Config, r: nat, i: nat)
    ensures LoopWeight(c, r, i) <= 4 * Iterations(c, r)
  {
    hide Iterations;
  }

  lemma ServingLowers(c: Config, s: State, t: nat)
    requires Invariant(c, s) && t < |s.receivers| && ReceiverCanStep(s, t, true)
    requires s.receivers[t].at.Test? || Serving(s.receivers[t])
    requires |StepReceiver(c, s, t).receivers| == |s.receivers|
    ensures ThreadWeight(c, StepReceiver(c, s, t).receivers[t]) < ThreadWeight(c, s.receivers[t])
  {
    hide Sum, BarrierOK, SenderOK, MessagesOK, OptionsOK, WeightFrom, OptionsOf;
    var p := s.receivers[t];
    assert ThreadOK(c, s, t, p);
    if p.at.Test? && p.at.i >= s.theirs.loop + s.theirs.skip {
      NextRoundLowers(c, p, Lock);
    }
  }

  lemma SenderLowers(c: Config, s: State)
    requires Invariant(c, s) && SenderCanStep(s, true)
    ensures ThreadWeight(c, StepSender(c, s).sender) < ThreadWeight(c, s.sender)
  {
    hide Sum, BarrierOK, ThreadsOK, MessagesOK, OptionsOK, WeightFrom, OptionsOf;
    var p := s.sender;
    if p.at.Test? && p.at.i >= s.ours.loop + s.ours.skip {
      NextRoundLowers(c, p, Enter);
    }
  }

  lemma {:induction false} WakingLowers(c: Config, ps: seq<Thread>, ps': seq<Thread>)
    requires |ps'| == |ps| && forall t :: 0 <= t < |ps| ==> ps'[t] == Wake(ps[t])
    ensures Sum((p: Thread) => ThreadWeight(c, p), ps') <= Sum((p: Thread) => ThreadWeight(c, p), ps)
  {
    hide WeightFrom, Iterations;
    if ps != [] {
      WakingLowers(c, ps[..|ps| - 1], ps'[..|ps| - 1]);
    }
  }

  lemma StepLowersWeight(c: Config, s: State, actor: nat)
    requires Invariant(c, s) && CanStep(c, s, actor, true)
    ensures Weight(c, Step(c, s, actor)) < Weight(c, s)
  {
    hide Invariant, Sum, ThreadWeight;
    var s', f := Step(c, s, actor), (p: Thread) => ThreadWeight(c, p);
    if actor < |s.receivers| {
      ReceiverLowers(c, s, actor);
      SumUpdate(f, s.receivers, actor, s'.receivers[actor]);
      if s.receivers[actor].at.Broadcasting? {
        var woken := seq(|s.receivers|, u requires 0 <= u < |s.receivers| => Wake(s.receivers[u]));
        WakingLowers(c, s.receivers, woken);
        SumUpdate(f, woken, actor, s'.receivers[actor]);
      }
    } else {
      SenderLowers(c, s);
    }
  }

  /** What a step without eager sends demands: a send returns when its message has been
      received, a receive when there is one. */
  lemma RendezvousWaits(c: Config, s: State, actor: nat)
    requires Invariant(c, s) && CanStep(c, s, actor, false)
    ensures actor == c.threads && s.sender.at.Posted? ==> s.requests == []
    ensures actor == c.threads && s.sender.at.Awaiting? ==> |s.replies| == 1
    ensures actor < c.threads && s.receivers[actor].at.Replied? ==> s.replies == []
    ensures actor < c.threads && s.receivers[actor].at.Receiving? ==> |s.requests| == 1
  {
    hide OptionsOK, SenderOK, BarrierOK, Sum;
  }

  /** Who waits, and for what: a receiver for the lock while another one has it, for the
      sender to enter the barrier of this size, for the broadcast, or for a request; the
      sender for the receivers' barrier, or for a reply. */
  lemma WhoWaits(c: Config, s: State, t: nat)
    requires Invariant(c, s) && t < c.threads
    ensures var p := s.receivers[t];
            ReceiverCanStep(s, t, true) <==>
              match p.at
              case Lock => !exists u :: 0 <= u < c.threads && Holding(s.receivers[u])
              case Woken => !exists u :: 0 <= u < c.threads && Holding(s.receivers[u])
              case InBarrier => s.sender.round > p.round || (s.sender.round == p.round && !s.sender.at.Enter?)
              case Waiting => false
              case Done => false
              case Receiving(_) => |s.requests| == 1
              case _ => true
    ensures SenderCanStep(s, true) <==>
              match s.sender.at
              case Entered => s.broadcasts > s.sender.round || exists u :: 0 <= u < c.threads && Leading(s.receivers[u])
              case Awaiting(_) => |s.replies| == 1
              case Done => false
              case _ => true
  {
    hide OptionsOK, Sum;
    assert ThreadOK(c, s, t, s.receivers[t]) && OneLeads(s, t);
    if s.holder != NOBODY {
      assert ThreadOK(c, s, s.holder, s.receivers[s.holder]);
    }
    LeaderOpens(c, s);
  }

  /** The sender is let into a size by the receivers' barrier for it. */
  lemma LeaderOpens(c: Config, s: State)
    requires Invariant(c, s)
    ensures s.barriers > s.broadcasts <==> exists u :: 0 <= u < c.threads && Leading(s.receivers[u])
    ensures s.broadcasts <= s.barriers <= s.broadcasts + 1
  {
    hide OptionsOK, MessagesOK, Sum;
    if u :| 0 <= u < c.threads && Leading(s.receivers[u]) {
      assert ThreadOK(c, s, u, s.receivers[u]);
    }
  }

  // ---------- Whole runs ----------

  lemma {:induction false} RunKeepsInvariant(c: Config, schedule: seq<nat>, states: seq<State>, k: nat)
    requires c.Valid() && IsRun(c, schedule, states) && k < |states|
    ensures Invariant(c, states[k]) && k + Weight(c, states[k]) <= Weight(c, Initial(c))
  {
    hide Invariant, Step, CanStep, Weight;
    if k == 0 {
      InitialInvariant(c);
    } else {
      RunKeepsInvariant(c, schedule, states, k - 1);
      StepKeepsInvariant(c, states[k - 1], schedule[k - 1]);
      StepLowersWeight(c, states[k - 1], schedule[k - 1]);
    }
  }

  /** No receiver is in the message loop of a size before all have finished the one
      before it: none is at an earlier size, and none at the one before it is left. */
  ghost predicate InStep(s: State) {
    forall t, u :: 0 <= t < |s.receivers| && 0 <= u < |s.receivers| && Released(s.receivers[t])
      ==> s.receivers[u].round >= s.receivers[t].round
  }

  /** Each exchange is in one place; what the sender has posted for a size is in flight
      or received, the rest still due to the threads; nothing is left in flight after a
      size or at the end; and what is sent for a size is received for it. */
  ghost predicate Balanced(c: Config, s: State)
    requires c.Valid()
  {
    && |s.requests| + Repliers(s) + |s.replies| <= 1
    && (if s.broadcasts == s.sender.round then AllLeft(c, s) == 0 && |s.requests| == Sent(s.sender)
        else AllLeft(c, s) + Sent(s.sender) == Iterations(c, s.sender.round) + |s.requests|)
    && (s.sender.at.Done? || s.sender.at == Test(Iterations(c, s.sender.round)) ==>
          AllLeft(c, s) == 0 && |s.requests| + Repliers(s) + |s.replies| == 0)
    && forall t :: 0 <= t < |s.receivers| && s.receivers[t].at.Receiving? && s.requests != [] ==>
         s.requests[0] == SizeOf(s.receivers[t].round)
  }

  /** Whoever is in the message loop goes on under the bounds meant for its size. */
  ghost predicate BoundsKept(c: Config, s: State, s': State) {
    forall u :: 0 <= u < |s.receivers| && Iterating(s.receivers[u]) ==>
      s'.theirs == s.theirs == OptionsOf(c, s.receivers[u].round)
  }

  lemma InvariantIsOrder(c: Config, s: State)
    requires Invariant(c, s)
    ensures InStep(s) && Balanced(c, s)
  {
    hide Sum, BarrierOK, OptionsOK, Iterations, SizeOf;
    forall t, u | 0 <= t < |s.receivers| && 0 <= u < |s.receivers| && Released(s.receivers[t])
      ensures s.receivers[u].round >= s.receivers[t].round
    {
      assert ThreadOK(c, s, t, s.receivers[t]) && ThreadOK(c, s, u, s.receivers[u]);
    }
    if s.sender.at == Test(Iterations(c, s.sender.round)) {
      SomeIterations(c, s.sender.round);
      SizeIsFinished(c, s);
    }
    forall t | 0 <= t < |s.receivers| && s.receivers[t].at.Receiving? && s.requests != []
      ensures s.requests[0] == SizeOf(s.receivers[t].round)
    {
      RequestMeetsItsSize(c, s, t);
    }
  }

  lemma StepKeepsBounds(c: Config, s: State, actor: nat)
    requires Invariant(c, s) && CanStep(c, s, actor, true)
    ensures BoundsKept(c, s, Step(c, s, actor))
  {
    hide Invariant, CanStep, Step;
    forall u | 0 <= u < |s.receivers| && Iterating(s.receivers[u])
      ensures Step(c, s, actor).theirs == s.theirs == OptionsOf(c, s.receivers[u].round)
    {
      BoundsAreStable(c, s, actor, u);
    }
  }

  /** Every run, for every number of threads and however they interleave, keeps the
      sizes in step, its messages balanced and the loop bounds in force, stops within a
      bound, and can only stop with every thread through with all sizes. */
  lemma EveryRunCompletes(c: Config, schedule: seq<nat>, states: seq<State>)
    requires c.Valid() && IsRun(c, schedule, states)
    ensures |schedule| <= Weight(c, Initial(c))
    ensures forall k :: 0 <= k < |states| ==> InStep(states[k]) && Balanced(c, states[k])
    ensures forall k :: 0 <= k < |schedule| ==> BoundsKept(c, states[k], states[k + 1])
    ensures AllDone(states[|schedule|]) || exists actor :: CanStep(c, states[|schedule|], actor, false)
  {
    hide Invariant, InStep, Balanced, BoundsKept, CanStep, Step, Weight, AllDone;
    forall k | 0 <= k < |states| ensures InStep(states[k]) && Balanced(c, states[k]) {
      RunKeepsInvariant(c, schedule, states, k);
      InvariantIsOrder(c, states[k]);
    }
    forall k | 0 <= k < |schedule| ensures BoundsKept(c, states[k], states[k + 1]) {
      RunKeepsInvariant(c, schedule, states, k);
      StepKeepsBounds(c, states[k], schedule[k]);
    }
    RunKeepsInvariant(c, schedule, states, |schedule|);
    if !AllDone(states[|schedule|]) {
      SomebodyCanStep(c, states[|schedule|]);
    }
  }

  /** Any thread that can step may be the next one of a run. */
  lemma RunGoesOn(c: Config, schedule: seq<nat>, states: seq<State>, actor: nat)
    requires IsRun(c, schedule, states) && CanStep(c, states[|schedule|], actor, true)
    ensures IsRun(c, schedule + [actor], states + [Step(c, states[|schedule|], actor)])
  {
    hide Step, CanStep, Initial;
  }

  /** Every run can go on until all threads are through with all sizes. */
  lemma {:induction false} EveryRunCanComplete(c: Config, schedule: seq<nat>, states: seq<State>)
    returns (schedule': seq<nat>, states': seq<State>)
    requires c.Valid() && IsRun(c, schedule, states)
    ensures schedule <= schedule' && states <= states' && IsRun(c, schedule', states')
    ensures AllDone(states'[|schedule'|])
    decreases Weight(c, Initial(c)) - |schedule|
  {
    hide Step, Weight, AllDone, InStep, Balanced, BoundsKept, ReceiverCanStep, SenderCanStep;
    EveryRunCompletes(c, schedule, states);
    if AllDone(states[|schedule|]) {
      return schedule, states;
    }
    var actor :| CanStep(c, states[|schedule|], actor, false);
    EagerCan(c, states[|schedule|], actor);
    RunGoesOn(c, schedule, states, actor);
    schedule', states' := EveryRunCanComplete(c, schedule + [actor], states + [Step(c, states[|schedule|], actor)]);
  }

  lemma EagerCan(c: Config, s: State, actor: nat)
    requires CanStep(c, s, actor, false)
    ensures CanStep(c, s, actor, true)
  {
  }
}
