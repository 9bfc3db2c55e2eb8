/** What every step of the latency test keeps: the barrier's generations, the options in
    force, and the books on messages. */
module LatencyInvariant {
  import opened Sums
  import opened LatencyMT

  predicate Leading(p: Thread) {
    p.at.InBarrier? || p.at.PastBarrier? || p.at.Broadcasting?
  }

  predicate Holding(p: Thread) {
    p.at.Locked? || p.at.InBarrier? || p.at.PastBarrier?
  }

  /** Not yet through the barrier of its size. */
  predicate Gathering(p: Thread) {
    p.at.Lock? || p.at.Locked? || p.at.Waiting? || Leading(p)
  }

  /** In the message loop of its size. */
  predicate Iterating(p: Thread) {
    p.at.Test? || Serving(p) || p.at.Posting? || p.at.Posted? || p.at.Awaiting?
  }

  predicate Serving(p: Thread) {
    p.at.Receiving? || p.at.Replying? || p.at.Replied?
  }

  /** Through the barrier of its size, and not yet finished with it. */
  predicate Released(p: Thread) {
    p.at.Woken? || p.at.SetLoop? || p.at.SetSkip? || p.at.Test? || Serving(p)
  }

  // ---------- Three sums over the receivers ----------

  function IsWaiting(p: Thread): nat { if p.at.Waiting? then 1 else 0 }

  function IsReplying(p: Thread): nat { if p.at.Replying? then 1 else 0 }

  /** Requests that the thread has yet to receive for the size it is at. */
  function Left(c: Config, p: Thread): nat
    requires c.Valid()
  {
    match p.at
    case Woken | SetLoop | SetSkip => Visits(c.threads, Iterations(c, p.round), p.val)
    case Test(i) => Visits(c.threads, Iterations(c, p.round), i)
    case Receiving(i) => Visits(c.threads, Iterations(c, p.round), i)
    case Replying(i) => Visits(c.threads, Iterations(c, p.round), i + c.threads)
    case Replied(i) => Visits(c.threads, Iterations(c, p.round), i + c.threads)
    case _ => 0
  }

  function Waiters(s: State): nat { Sum((p: Thread) => IsWaiting(p), s.receivers) }

  function Repliers(s: State): nat { Sum((p: Thread) => IsReplying(p), s.receivers) }

  function AllLeft(c: Config, s: State): nat
    requires c.Valid()
  {
    Sum((p: Thread) => Left(c, p), s.receivers)
  }

  lemma SumsUpdate(c: Config, s: State, s': State, t: nat)
    requires c.Valid() && t < |s.receivers| && |s'.receivers| == |s.receivers|
    requires s'.receivers == s.receivers[t := s'.receivers[t]]
    ensures Waiters(s') == Waiters(s) - IsWaiting(s.receivers[t]) + IsWaiting(s'.receivers[t])
    ensures Repliers(s') == Repliers(s) - IsReplying(s.receivers[t]) + IsReplying(s'.receivers[t])
    ensures AllLeft(c, s') == AllLeft(c, s) - Left(c, s.receivers[t]) + Left(c, s'.receivers[t])
  {
    SumUpdate((p: Thread) => IsWaiting(p), s.receivers, t, s'.receivers[t]);
    SumUpdate((p: Thread) => IsReplying(p), s.receivers, t, s'.receivers[t]);
    SumUpdate((p: Thread) => Left(c, p), s.receivers, t, s'.receivers[t]);
  }

  /** Where the sums bound the parts. */
  lemma OneOfSums(c: Config, s: State, t: nat)
    requires c.Valid() && t < |s.receivers|
    ensures Repliers(s) >= IsReplying(s.receivers[t]) && AllLeft(c, s) >= Left(c, s.receivers[t])
  {
    SumAtLeast((p: Thread) => IsReplying(p), s.receivers, t);
    SumAtLeast((p: Thread) => Left(c, p), s.receivers, t);
  }

  // ---------- The invariant ----------

  /** A thread's round, by the number of broadcasts so far: a thread before the barrier
      waits for the next one, a thread behind it was released by the last one. */
  ghost predicate ThreadOK(c: Config, s: State, t: nat, p: Thread)
    requires c.Valid()
  {
    var l := Iterations(c, p.round);
    && p.val == t
    && (p.at.Done? || Gathering(p) || Released(p))
    && (Gathering(p) ==> p.round == s.broadcasts < SIZES)
    && (Released(p) ==> p.round + 1 == s.broadcasts <= SIZES)
    && (p.at.Done? ==> p.round == s.broadcasts == SIZES)
    && (Holding(p) <==> s.holder == t)
    && ((p.at.Receiving? || p.at.Replying? || p.at.Replied?) ==> p.at.i < l)
    && (p.at.SetSkip? ==> s.theirs.loop == OptionsOf(c, p.round).loop)
    && (p.at.Test? || Serving(p) ==> s.theirs == OptionsOf(c, p.round))
    && (p.at.InBarrier? || p.at.PastBarrier? ==> s.finished == c.threads)
    && (p.at.Broadcasting? ==> s.finished == 1)
    && (Leading(p) ==> s.barriers == s.broadcasts + 1)
    && (p.at.PastBarrier? || p.at.Broadcasting? ==> SenderBarriers(s) >= s.barriers)
  }

  ghost predicate ThreadsOK(c: Config, s: State)
    requires c.Valid()
  {
    && |s.receivers| == c.threads && NOBODY <= s.holder < c.threads
    && forall t :: 0 <= t < |s.receivers| ==> ThreadOK(c, s, t, s.receivers[t])
  }

  /** All others wait while one leads the barrier; else finished counts the waiting. */
  ghost predicate OneLeads(s: State, t: nat)
    requires t < |s.receivers|
  {
    Leading(s.receivers[t]) ==> forall u :: 0 <= u < |s.receivers| && u != t ==> s.receivers[u].at.Waiting?
  }

  ghost predicate BarrierOK(c: Config, s: State) {
    && (forall t :: 0 <= t < |s.receivers| ==> OneLeads(s, t))
    && (NoLeader(s) ==> s.barriers == s.broadcasts && s.finished == 1 + Waiters(s) && s.finished <= c.threads)
  }

  ghost predicate NoLeader(s: State) {
    forall t :: 0 <= t < |s.receivers| ==> !Leading(s.receivers[t])
  }

  /** Options never change before the first large size. */
  ghost predicate OptionsOK(c: Config, s: State) {
    && (s.broadcasts == 0 || !Large(s.broadcasts - 1) ==> s.theirs == c.small)
    && (!Large(s.sender.round) ==> s.ours == c.small)
  }

  /** Requests that the sender has posted for the size it is at. */
  function Sent(p: Thread): nat {
    match p.at
    case Test(i) => i
    case Posting(i) => i
    case Posted(i) => i + 1
    case Awaiting(i) => i + 1
    case _ => 0
  }

  ghost predicate SenderOK(c: Config, s: State)
    requires c.Valid()
  {
    var p := s.sender;
    && (p.at.Enter? || p.at.Entered? || p.at.SetLoop? || p.at.SetSkip? || p.at.Test? || p.at.Posting? || p.at.Posted?
        || p.at.Awaiting? || p.at.Done?)
    && (if p.at.Done? then p.round == SIZES else p.round < SIZES)
    && p.round <= s.broadcasts <= p.round + 1 && s.broadcasts <= SenderBarriers(s)
    && (!p.at.Enter? && !p.at.Entered? && !p.at.Done? ==> s.barriers > p.round)
    && s.broadcasts <= s.barriers
    && Sent(p) <= Iterations(c, p.round) && (p.at.Posting? ==> p.at.i < Iterations(c, p.round))
    && (p.at.SetSkip? ==> s.ours.loop == OptionsOf(c, p.round).loop)
    && (p.at.Test? || p.at.Posting? || p.at.Posted? || p.at.Awaiting? ==> s.ours == OptionsOf(c, p.round))
  }

  /** The books: an exchange is at one place at a time, and what the sender has posted is
      in flight or received, each by the thread it was due to. */
  ghost predicate MessagesOK(c: Config, s: State)
    requires c.Valid()
  {
    && |s.requests| + Repliers(s) + |s.replies| == (if s.sender.at.Posted? || s.sender.at.Awaiting? then 1 else 0)
    && (forall k :: 0 <= k < |s.requests| ==> s.requests[k] == SizeOf(s.sender.round))
    && (forall k :: 0 <= k < |s.replies| ==> s.replies[k] == SizeOf(s.sender.round))
    && (if s.broadcasts == s.sender.round then AllLeft(c, s) == 0 && |s.requests| == Sent(s.sender)
        else AllLeft(c, s) + Sent(s.sender) == Iterations(c, s.sender.round) + |s.requests|)
  }

  ghost predicate Invariant(c: Config, s: State) {
    && c.Valid() && ThreadsOK(c, s) && BarrierOK(c, s) && OptionsOK(c, s) && SenderOK(c, s) && MessagesOK(c, s)
  }

  lemma InitialInvariant(c: Config)
    requires c.Valid()
    ensures Invariant(c, Initial(c))
  {
    var s := Initial(c);
    SumZero((p: Thread) => IsWaiting(p), s.receivers);
    SumZero((p: Thread) => IsReplying(p), s.receivers);
    SumZero((p: Thread) => Left(c, p), s.receivers);
  }

  // ---------- Receivers at the barrier ----------

  /** Lock, test, enter and leave the barrier, and wake up. */
  predicate AtBarrier(p: Thread) {
    p.at.Lock? || p.at.Locked? || p.at.InBarrier? || p.at.PastBarrier? || p.at.Woken?
  }

  lemma BarrierStepThreads(c: Config, s: State, t: nat)
    requires Invariant(c, s) && t < |s.receivers| && AtBarrier(s.receivers[t]) && ReceiverCanStep(s, t, true)
    ensures ThreadsOK(c, StepReceiver(c, s, t))
  {
    hide Waiters, Repliers, AllLeft, MessagesOK, OptionsOK, Iterations, OptionsOf;
    var s', p := StepReceiver(c, s, t), s.receivers[t];
    assert ThreadOK(c, s, t, p) && OneLeads(s, t);
    if p.at.Locked? && s.finished == c.threads {
      EverybodyWaits(c, s, t);
    }
    forall u | 0 <= u < |s'.receivers| ensures ThreadOK(c, s', u, s'.receivers[u]) {
      assert ThreadOK(c, s, u, s.receivers[u]) && OneLeads(s, u);
    }
  }

  /** Who finds the count complete is the last: everybody else waits. */
  lemma EverybodyWaits(c: Config, s: State, t: nat)
    requires Invariant(c, s) && t < |s.receivers| && s.receivers[t].at.Locked? && s.finished == c.threads
    ensures NoLeader(s)
    ensures forall u :: 0 <= u < |s.receivers| && u != t ==> s.receivers[u].at.Waiting?
  {
    hide Repliers, AllLeft, MessagesOK, OptionsOK, SenderOK, Sum;
    forall u | 0 <= u < |s.receivers| ensures !Leading(s.receivers[u]) {
      assert OneLeads(s, u);
    }
    var f := (p: Thread) => IsWaiting(p);
    forall u | 0 <= u < |s.receivers| && u != t ensures s.receivers[u].at.Waiting? {
      if !s.receivers[u].at.Waiting? {
        TwoMissing(f, s.receivers, t, u);
      }
    }
  }

  lemma TwoMissing(f: Thread -> nat, ps: seq<Thread>, t: nat, u: nat)
    requires t < |ps| && u < |ps| && t != u && f(ps[t]) == 0 && f(ps[u]) == 0 && forall p :: f(p) <= 1
    ensures Sum(f, ps) + 2 <= |ps|
  {
    if t < u {
      TwoMissingInOrder(f, ps, t, u);
    } else {
      TwoMissingInOrder(f, ps, u, t);
    }
  }

  lemma {:induction false} TwoMissingInOrder(f: Thread -> nat, ps: seq<Thread>, t: nat, u: nat)
    requires t < u < |ps| && f(ps[t]) == 0 && f(ps[u]) == 0 && forall p :: f(p) <= 1
    ensures Sum(f, ps) + 2 <= |ps|
  {
    if u < |ps| - 1 {
      TwoMissingInOrder(f, ps[..|ps| - 1], t, u);
    } else {
      OneMissing(f, ps[..|ps| - 1], t);
    }
  }

  lemma {:induction false} OneMissing(f: Thread -> nat, ps: seq<Thread>, t: nat)
    requires t < |ps| && f(ps[t]) == 0 && forall p :: f(p) <= 1
    ensures Sum(f, ps) + 1 <= |ps|
  {
    if t < |ps| - 1 {
      OneMissing(f, ps[..|ps| - 1], t);
    } else {
      NoneMissing(f, ps[..|ps| - 1]);
    }
  }

  lemma {:induction false} NoneMissing(f: Thread -> nat, ps: seq<Thread>)
    requires forall p :: f(p) <= 1
    ensures Sum(f, ps) <= |ps|
  {
    if ps != [] { NoneMissing(f, ps[..|ps| - 1]); }
  }

  lemma BarrierStepKeeps(c: Config, s: State, t: nat)
    requires Invariant(c, s) && t < |s.receivers| && AtBarrier(s.receivers[t]) && ReceiverCanStep(s, t, true)
    ensures Invariant(c, StepReceiver(c, s, t))
  {
    hide Waiters, Repliers, AllLeft, Iterations, OptionsOf, Large, ThreadsOK;
    var s', p := StepReceiver(c, s, t), s.receivers[t];
    BarrierStepThreads(c, s, t);
    assert ThreadOK(c, s, t, p) && OneLeads(s, t) by { ThreadAt(c, s, t); }
    SumsUpdate(c, s, s', t);
    if p.at.Locked? && s.finished == c.threads {
      EverybodyWaits(c, s, t);
    }
    forall u | 0 <= u < |s'.receivers| ensures OneLeads(s', u) {
      assert OneLeads(s, u);
    }
    LeadersAfter(s, s', t);
  }

  lemma ThreadAt(c: Config, s: State, t: nat)
    requires c.Valid() && ThreadsOK(c, s) && t < |s.receivers|
    ensures ThreadOK(c, s, t, s.receivers[t])
  {
  }

  /** A step of one thread leaves the others leading or not leading. */
  lemma LeadersAfter(s: State, s': State, t: nat)
    requires t < |s.receivers| && |s'.receivers| == |s.receivers| && s'.receivers == s.receivers[t := s'.receivers[t]]
    ensures NoLeader(s') && !Leading(s.receivers[t]) ==> NoLeader(s)
    ensures NoLeader(s) && !Leading(s'.receivers[t]) ==> NoLeader(s')
    ensures NoLeader(s') ==> !Leading(s'.receivers[t])
  {
    assert s'.receivers[t] == s'.receivers[t];
    if NoLeader(s') && !Leading(s.receivers[t]) {
      forall u | 0 <= u < |s.receivers| ensures !Leading(s.receivers[u]) {
        assert !Leading(s'.receivers[u]);
      }
    }
  }

  // ---------- The broadcast ----------

  /** The wakeup reaches all the others, and nobody else: they all wait, in the
      leader's generation. */
  lemma BroadcastReachesGeneration(c: Config, s: State, t: nat)
    requires Invariant(c, s) && t < |s.receivers| && s.receivers[t].at.Broadcasting?
    ensures forall u :: 0 <= u < |s.receivers| && u != t ==>
              s.receivers[u].at.Waiting? && s.receivers[u].round == s.receivers[t].round
    ensures var s' := StepReceiver(c, s, t);
            && Waiters(s') == 0
            && forall u :: 0 <= u < |s.receivers| ==>
                Released(s'.receivers[u]) && s'.receivers[u].round == s.receivers[u].round
  {
    hide Sum, MessagesOK, SenderOK, OptionsOK;
    assert OneLeads(s, t);
    forall u | 0 <= u < |s.receivers| ensures s.receivers[u].round == s.receivers[t].round {
      assert ThreadOK(c, s, u, s.receivers[u]) && ThreadOK(c, s, t, s.receivers[t]);
    }
    SumZero((p: Thread) => IsWaiting(p), StepReceiver(c, s, t).receivers);
  }

  lemma {:induction false} LeftAtStart(c: Config, r: nat, ps: seq<Thread>)
    requires c.Valid() && |ps| <= c.threads
    requires forall u :: 0 <= u < |ps| ==> ps[u].val == u && ps[u].round == r && (ps[u].at.Woken? || ps[u].at.SetLoop?)
    ensures Sum((p: Thread) => Left(c, p), ps) == VisitsOfFirst(c.threads, Iterations(c, r), |ps|)
  {
    if ps != [] { LeftAtStart(c, r, ps[..|ps| - 1]); }
  }

  lemma {:induction false} LeftBefore(c: Config, ps: seq<Thread>)
    requires c.Valid() && forall u :: 0 <= u < |ps| ==> Gathering(ps[u])
    ensures Sum((p: Thread) => Left(c, p), ps) == 0
  {
    SumZero((p: Thread) => Left(c, p), ps);
  }

  lemma BroadcastSums(c: Config, s: State, t: nat)
    requires Invariant(c, s) && t < |s.receivers| && s.receivers[t].at.Broadcasting?
    ensures var s' := StepReceiver(c, s, t);
            && AllLeft(c, s) == 0 && AllLeft(c, s') == Iterations(c, s.broadcasts)
            && Repliers(s) == 0 && Repliers(s') == 0
  {
    hide Sum, MessagesOK, SenderOK, OptionsOK, Iterations;
    var s' := StepReceiver(c, s, t);
    BroadcastReachesGeneration(c, s, t);
    forall u | 0 <= u < |s.receivers| ensures s'.receivers[u].val == u && s'.receivers[u].round == s.broadcasts {
      assert ThreadOK(c, s, u, s.receivers[u]);
    }
    LeftBefore(c, s.receivers);
    LeftAtStart(c, s.broadcasts, s'.receivers);
    ClassesPartition(c.threads, Iterations(c, s.broadcasts));
    SumZero((p: Thread) => IsReplying(p), s.receivers);
    SumZero((p: Thread) => IsReplying(p), s'.receivers);
  }

  lemma BroadcastKeeps(c: Config, s: State, t: nat)
    requires Invariant(c, s) && t < |s.receivers| && s.receivers[t].at.Broadcasting?
    ensures Invariant(c, StepReceiver(c, s, t))
  {
    hide Waiters, Repliers, AllLeft, Iterations, Large;
    var s' := StepReceiver(c, s, t);
    BroadcastReachesGeneration(c, s, t);
    BroadcastSums(c, s, t);
    assert ThreadOK(c, s, t, s.receivers[t]);
    forall u | 0 <= u < |s'.receivers| ensures ThreadOK(c, s', u, s'.receivers[u]) {
      assert ThreadOK(c, s, u, s.receivers[u]);
    }
    SmallBefore(s.broadcasts);
  }

  lemma SmallBefore(r: nat)
    ensures r > 0 && !Large(r) ==> !Large(r - 1)
  {
    if r > 0 { SizesEnd(r - 1); }
  }

  // ---------- The options ----------

  lemma OptionStepThreads(c: Config, s: State, t: nat)
    requires Invariant(c, s) && t < |s.receivers| && (s.receivers[t].at.SetLoop? || s.receivers[t].at.SetSkip?)
    ensures ThreadsOK(c, StepReceiver(c, s, t)) && OptionsOK(c, StepReceiver(c, s, t))
  {
    hide SizeOf, BarrierOK, SenderOK, MessagesOK, Iterations;
    var s' := StepReceiver(c, s, t);
    assert ThreadOK(c, s, t, s.receivers[t]);
    forall u | 0 <= u < |s'.receivers| ensures ThreadOK(c, s', u, s'.receivers[u]) {
      assert ThreadOK(c, s, u, s.receivers[u]);
    }
  }

  lemma OptionStepKeeps(c: Config, s: State, t: nat)
    requires Invariant(c, s) && t < |s.receivers| && (s.receivers[t].at.SetLoop? || s.receivers[t].at.SetSkip?)
    ensures Invariant(c, StepReceiver(c, s, t))
  {
    hide Waiters, Repliers, AllLeft, Large, ThreadsOK, ThreadOK, OptionsOK, Iterations, OptionsOf, WithLoop, WithSkip;
    var s', p := StepReceiver(c, s, t), s.receivers[t];
    OptionStepThreads(c, s, t);
    SumsUpdate(c, s, s', t);
    forall u | 0 <= u < |s'.receivers| ensures OneLeads(s', u) {
      assert OneLeads(s, u);
    }
    LeadersAfter(s, s', t);
  }

  /** Nobody changes the options while anybody is in the message loop. */
  lemma BoundsAreStable(c: Config, s: State, actor: nat, u: nat)
    requires Invariant(c, s) && CanStep(c, s, actor, true) && u < |s.receivers| && Iterating(s.receivers[u])
    ensures Step(c, s, actor).theirs == s.theirs == OptionsOf(c, s.receivers[u].round)
  {
    hide Waiters, Repliers, AllLeft, MessagesOK, Large, BarrierOK, SenderOK;
    assert ThreadOK(c, s, u, s.receivers[u]);
    if actor < |s.receivers| {
      assert ThreadOK(c, s, actor, s.receivers[actor]);
    }
  }

  // ---------- The message loop ----------

  /** A thread is fine as long as what it depends on stays. */
  lemma SameSurroundings(c: Config, s: State, s': State, u: nat, p: Thread)
    requires c.Valid() && ThreadOK(c, s, u, p)
    requires s'.broadcasts == s.broadcasts && s'.holder == s.holder && s'.finished == s.finished
    requires s'.barriers == s.barriers
    requires s'.sender == s.sender && s'.theirs == s.theirs
    ensures ThreadOK(c, s', u, p)
  {
    hide Iterations, OptionsOf;
  }

  lemma MovedThread(c: Config, s: State, t: nat)
    requires Invariant(c, s) && t < |s.receivers| && ReceiverCanStep(s, t, true)
    requires s.receivers[t].at.Test? || Serving(s.receivers[t])
    ensures ThreadOK(c, StepReceiver(c, s, t), t, StepReceiver(c, s, t).receivers[t])
  {
    hide BarrierOK, SizeOf, MessagesOK, OptionsOK, OptionsOf;
    var p := s.receivers[t];
    ThreadAt(c, s, t);
    SizesEnd(p.round + 1);
  }

  lemma MessageStepThreads(c: Config, s: State, t: nat)
    requires Invariant(c, s) && t < |s.receivers| && ReceiverCanStep(s, t, true)
    requires s.receivers[t].at.Test? || Serving(s.receivers[t])
    ensures ThreadsOK(c, StepReceiver(c, s, t)) && BarrierOK(c, StepReceiver(c, s, t))
  {
    hide Waiters, Repliers, AllLeft, MessagesOK, SenderOK, OptionsOK, ThreadOK, SizeOf;
    var s', p := StepReceiver(c, s, t), s.receivers[t];
    MovedThread(c, s, t);
    SumsUpdate(c, s, s', t);
    forall u | 0 <= u < |s'.receivers| ensures ThreadOK(c, s', u, s'.receivers[u]) {
      if u != t {
        SameSurroundings(c, s, s', u, s.receivers[u]);
      }
    }
    forall u | 0 <= u < |s'.receivers| ensures OneLeads(s', u) {
      assert OneLeads(s, u);
    }
    LeadersAfter(s, s', t);
  }

  /** A request is received in its own size, which is the sender's. */
  lemma RequestMeetsItsSize(c: Config, s: State, t: nat)
    requires Invariant(c, s) && t < |s.receivers| && s.receivers[t].at.Receiving? && s.requests != []
    ensures s.receivers[t].round == s.sender.round && s.requests == [SizeOf(s.receivers[t].round)]
    ensures s.broadcasts == s.sender.round + 1
  {
    hide Waiters, Repliers, AllLeft, Large, BarrierOK, OptionsOK;
    assert ThreadOK(c, s, t, s.receivers[t]);
    OneOfSums(c, s, t);
  }

  lemma ReplyMeetsItsSize(c: Config, s: State, t: nat)
    requires Invariant(c, s) && t < |s.receivers| && s.receivers[t].at.Replying?
    ensures s.receivers[t].round == s.sender.round && s.requests == [] && s.replies == []
  {
    hide Waiters, Repliers, AllLeft, Large, BarrierOK, OptionsOK;
    assert ThreadOK(c, s, t, s.receivers[t]);
    OneOfSums(c, s, t);
  }

  lemma MessageStepBooks(c: Config, s: State, t: nat)
    requires Invariant(c, s) && t < |s.receivers| && ReceiverCanStep(s, t, true)
    requires s.receivers[t].at.Test? || Serving(s.receivers[t])
    ensures MessagesOK(c, StepReceiver(c, s, t))
  {
    hide Waiters, Repliers, AllLeft, ThreadsOK, BarrierOK, SizeOf, OptionsOK, SenderOK, OptionsOf;
    var s', p := StepReceiver(c, s, t), s.receivers[t];
    assert ThreadOK(c, s, t, p) by { ThreadAt(c, s, t); }
    SumsUpdate(c, s, s', t);
    if p.at.Receiving? {
      RequestMeetsItsSize(c, s, t);
    } else if p.at.Replying? {
      ReplyMeetsItsSize(c, s, t);
    } else {
      assert Left(c, p) == Left(c, s'.receivers[t]);
    }
  }

  lemma MessageStepKeeps(c: Config, s: State, t: nat)
    requires Invariant(c, s) && t < |s.receivers| && ReceiverCanStep(s, t, true)
    requires s.receivers[t].at.Test? || Serving(s.receivers[t])
    ensures Invariant(c, StepReceiver(c, s, t))
  {
    hide MessagesOK, ThreadsOK, BarrierOK, Iterations, Large, OptionsOf;
    MessageStepThreads(c, s, t);
    MessageStepBooks(c, s, t);
  }

  // ---------- The sender ----------

  lemma SenderKeepsThreads(c: Config, s: State)
    requires Invariant(c, s) && SenderCanStep(s, true)
    ensures ThreadsOK(c, StepSender(c, s)) && BarrierOK(c, StepSender(c, s))
  {
    hide Sum, MessagesOK, Large, Iterations, OptionsOf;
    var s' := StepSender(c, s);
    forall u | 0 <= u < |s.receivers| ensures ThreadOK(c, s', u, s'.receivers[u]) && OneLeads(s', u) {
      assert ThreadOK(c, s, u, s.receivers[u]) && OneLeads(s, u);
    }
    assert NoLeader(s') ==> NoLeader(s);
  }

  /** When the sender leaves a size, all its requests have been received and answered. */
  lemma SizeIsFinished(c: Config, s: State)
    requires Invariant(c, s) && s.sender.at == Test(Iterations(c, s.sender.round))
    ensures s.broadcasts == s.sender.round + 1 && s.requests == [] && s.replies == [] && AllLeft(c, s) == 0
    ensures Repliers(s) == 0
  {
    hide Sum, ThreadsOK, BarrierOK, Large;
  }

  lemma SenderKeepsBooks(c: Config, s: State)
    requires Invariant(c, s) && SenderCanStep(s, true)
    ensures MessagesOK(c, StepSender(c, s))
  {
    hide Sum, ThreadsOK, BarrierOK, OptionsOK, OptionsOf, SizeOf;
    var s' := StepSender(c, s);
    assert Repliers(s') == Repliers(s) && AllLeft(c, s') == AllLeft(c, s);
    if s.sender.at == Test(Iterations(c, s.sender.round)) {
      SizeIsFinished(c, s);
    }
  }

  lemma SenderKeeps(c: Config, s: State)
    requires Invariant(c, s) && SenderCanStep(s, true)
    ensures Invariant(c, StepSender(c, s))
  {
    hide MessagesOK, ThreadsOK, BarrierOK, SizeOf;
    SenderKeepsThreads(c, s);
    SenderKeepsBooks(c, s);
    SmallBefore(s.sender.round + 1);
    SizesEnd(s.sender.round + 1);
    if s.sender.at == Test(Iterations(c, s.sender.round)) {
      SizeIsFinished(c, s);
    }
  }

  lemma StepKeepsInvariant(c: Config, s: State, actor: nat)
    requires Invariant(c, s) && CanStep(c, s, actor, true)
    ensures Invariant(c, Step(c, s, actor))
  {
    if actor < |s.receivers| {
      var p := s.receivers[actor];
      hide Invariant, StepReceiver;
      if AtBarrier(p) {
        BarrierStepKeeps(c, s, actor);
      } else if p.at.Broadcasting? {
        BroadcastKeeps(c, s, actor);
      } else if p.at.SetLoop? || p.at.SetSkip? {
        OptionStepKeeps(c, s, actor);
      } else {
        MessageStepKeeps(c, s, actor);
      }
    } else {
      SenderKeeps(c, s);
    }
  }
}
