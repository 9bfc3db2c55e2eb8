/** The multi-threaded latency test: one sender, n receiver threads that share one set
    of options and meet, size after size, at a barrier built from a mutex, a condition
    variable and MPI_Barrier. Every thread's accesses to shared state are steps of
    their own, so threads interleave freely. */
module LatencyMT {
  import opened Arithmetic

  const MAX_MSG_SIZE: nat := 0x40_0000
  const LARGE_MESSAGE_SIZE: nat := 8192
  /** How many sizes the loop over sizes goes through; see SizesEnd. */
  const SIZES: nat := 24

  datatype Options = Options(loop: nat, skip: nat)

  /** The command line: receiver threads, and iterations for small and for large messages. */
  datatype Config = Config(threads: nat, small: Options, large: Options) {
    predicate Valid() {
      threads >= 1 && small.loop >= 1 && large.loop >= 1
    }
  }

  /** Where a thread is. Each place is named after what the thread does next. */
  datatype Place =
    // receivers: the barrier
    | Lock | Locked | InBarrier | PastBarrier | Broadcasting | Waiting | Woken
    // both: the options, then the message loop at index i
    | SetLoop | SetSkip | Test(i: nat)
    // receivers
    | Receiving(i: nat) | Replying(i: nat) | Replied(i: nat)
    // the sender
    | Enter | Entered | Posting(i: nat) | Posted(i: nat) | Awaiting(i: nat)
    // both: past the last size
    | Done

  /** A thread: its id, the number of the size it is at, and its place. */
  datatype Thread = Thread(val: nat, round: nat, at: Place)

  /** The receiver process has entered MPI_Barrier `barriers` times and its condition
      variable has been broadcast `broadcasts` times; the latter is read by nobody.
      Messages in flight are represented by their sizes. */
  datatype State = State(receivers: seq<Thread>, sender: Thread, finished: nat, holder: int, theirs: Options,
                         ours: Options, barriers: nat, broadcasts: nat, requests: seq<nat>, replies: seq<nat>)

  const NOBODY: int := -1

  /** The size the loop has reached after r steps of size = size ? size * 2 : 1. */
  function SizeOf(r: nat): nat {
    if r == 0 then 0 else NextSize(SizeOf(r - 1))
  }

  function NextSize(size: nat): nat {
    if size != 0 then size * 2 else 1
  }

  /** Sizes grow, and exactly SIZES of them pass the test of the loop. */
  lemma {:induction false} SizesEnd(r: nat)
    ensures SizeOf(r) <= SizeOf(r + 1)
    ensures SizeOf(r) <= MAX_MSG_SIZE <==> r < SIZES
  {
    if r <= 12 {
      assert SizeOf(1) == 1 && SizeOf(4) == 8 && SizeOf(7) == 64 && SizeOf(10) == 512 && SizeOf(13) == 4096;
      assert SizeOf(2) == 2 && SizeOf(5) == 16 && SizeOf(8) == 128 && SizeOf(11) == 1024;
      assert SizeOf(3) == 4 && SizeOf(6) == 32 && SizeOf(9) == 256 && SizeOf(12) == 2048;
    } else if r <= 24 {
      SizesEnd(12);
      assert SizeOf(13) == 4096 && SizeOf(16) == 32768 && SizeOf(19) == 0x4_0000 && SizeOf(22) == 0x20_0000;
      assert SizeOf(14) == 8192 && SizeOf(17) == 65536 && SizeOf(20) == 0x8_0000 && SizeOf(23) == 0x40_0000;
      assert SizeOf(15) == 16384 && SizeOf(18) == 0x2_0000 && SizeOf(21) == 0x10_0000 && SizeOf(24) == 0x80_0000;
    } else {
      SizesEnd(r - 1);
    }
  }

  predicate Large(r: nat) {
    SizeOf(r) > LARGE_MESSAGE_SIZE
  }

  /** The options that are meant to be in force for the r-th size, and the iterations
      they ask for. */
  function OptionsOf(c: Config, r: nat): Options {
    if Large(r) then c.large else c.small
  }

  /** The sizes are 0 and the powers of two, in order. */
  lemma {:induction false} SizesArePowers(r: nat)
    ensures SizeOf(r) == if r == 0 then 0 else Power(2, r - 1)
  {
    if r > 1 {
      SizesArePowers(r - 1);
      PowerPositive(r - 2);
    }
  }

  /** The first 15 sizes, up to 8192, have the options for small messages, the other nine
      those for large ones. */
  lemma OptionsBySize(c: Config, r: nat)
    requires r < 24
    ensures OptionsOf(c, r) == if r <= 14 then c.small else c.large
    ensures r == 14 ==> SizeOf(r) == 8192
  {
    SizesEnd(14);
    assert SizeOf(13) == 4096 by {
      assert SizeOf(3) == 4 && SizeOf(6) == 32 && SizeOf(9) == 256 && SizeOf(12) == 2048;
    }
    assert SizeOf(14) == 8192 && SizeOf(15) == 16384;
    if r <= 14 {
      SizesGrow(r, 14);
    } else {
      SizesGrow(15, r);
    }
  }

  lemma {:induction false} SizesGrow(r: nat, t: nat)
    requires r <= t
    ensures SizeOf(r) <= SizeOf(t)
  {
    if r < t {
      SizesGrow(r, t - 1);
      SizesEnd(t - 1);
    }
  }

  function Iterations(c: Config, r: nat): nat {
    OptionsOf(c, r).loop + OptionsOf(c, r).skip
  }

  /** What the two assignments in the size loop make of the shared options. */
  function WithLoop(c: Config, r: nat, o: Options): Options {
    if Large(r) then o.(loop := c.large.loop) else o
  }

  function WithSkip(c: Config, r: nat, o: Options): Options {
    if Large(r) then o.(skip := c.large.skip) else o
  }

  function Initial(c: Config): State {
    State(seq(c.threads, t requires 0 <= t => Thread(t, 0, Lock)), Thread(0, 0, Enter), 1, NOBODY, c.small, c.small,
        0, 0, [], [])
  }

  /** How often the sender has entered MPI_Barrier. */
  function SenderBarriers(s: State): nat {
    s.sender.round + if s.sender.at.Enter? || s.sender.at.Done? then 0 else 1
  }

  /** The next size, or the end of the thread. */
  function NextRound(p: Thread, first: Place): Thread {
    p.(round := p.round + 1, at := if SizeOf(p.round + 1) <= MAX_MSG_SIZE then first else Done)
  }

  function Wake(p: Thread): Thread {
    if p.at.Waiting? then p.(at := Woken) else p
  }

  /** Whether a receiver can go on. A blocking send may return as soon as the library
      has buffered the message (eager); it surely does once the message is received. */
  predicate ReceiverCanStep(s: State, t: nat, eager: bool)
    requires t < |s.receivers|
  {
    match s.receivers[t].at
    case Lock | Woken => s.holder == NOBODY
    case InBarrier => SenderBarriers(s) >= s.barriers
    case Waiting => false
    case Receiving(_) => s.requests != []
    case Replied(_) => eager || s.replies == []
    case Locked | PastBarrier | Broadcasting | SetLoop | SetSkip | Test(_) | Replying(_) => true
    case _ => false
  }

  function StepReceiver(c: Config, s: State, t: nat): State
    requires t < |s.receivers| && (s.receivers[t].at.Receiving? ==> s.requests != [])
  {
    var p := s.receivers[t];
    match p.at
    case Lock => To(s, t, Locked).(holder := t)
    case Locked =>
      if s.finished == c.threads then To(s, t, InBarrier).(barriers := s.barriers + 1)
      else To(s, t, Waiting).(finished := s.finished + 1, holder := NOBODY)
    case InBarrier => To(s, t, PastBarrier)
    case PastBarrier => To(s, t, Broadcasting).(finished := 1, holder := NOBODY)
    case Broadcasting =>
      var woken := seq(|s.receivers|, u requires 0 <= u < |s.receivers| => Wake(s.receivers[u]));
      s.(receivers := woken[t := p.(at := SetLoop)], broadcasts := s.broadcasts + 1)
    case Woken => To(s, t, SetLoop)
    case SetLoop => To(s, t, SetSkip).(theirs := WithLoop(c, p.round, s.theirs))
    case SetSkip => To(s, t, Test(p.val)).(theirs := WithSkip(c, p.round, s.theirs))
    case Test(i) =>
      if i < s.theirs.loop + s.theirs.skip then To(s, t, Receiving(i))
      else s.(receivers := s.receivers[t := NextRound(p, Lock)])
    case Receiving(i) => To(s, t, Replying(i)).(requests := s.requests[1..])
    case Replying(i) => To(s, t, Replied(i)).(replies := s.replies + [SizeOf(p.round)])
    case Replied(i) => To(s, t, Test(i + c.threads))
    case _ => s
  }

  function To(s: State, t: nat, at: Place): State
    requires t < |s.receivers|
  {
    s.(receivers := s.receivers[t := s.receivers[t].(at := at)])
  }

  predicate SenderCanStep(s: State, eager: bool) {
    match s.sender.at
    case Entered => s.barriers > s.sender.round
    case Posted(_) => eager || s.requests == []
    case Awaiting(_) => s.replies != []
    case Enter | SetLoop | SetSkip | Test(_) | Posting(_) => true
    case _ => false
  }

  function StepSender(c: Config, s: State): State
    requires s.sender.at.Awaiting? ==> s.replies != []
  {
    var p := s.sender;
    match p.at
    case Enter => s.(sender := p.(at := Entered))
    case Entered => s.(sender := p.(at := SetLoop))
    case SetLoop => s.(sender := p.(at := SetSkip), ours := WithLoop(c, p.round, s.ours))
    case SetSkip => s.(sender := p.(at := Test(0)), ours := WithSkip(c, p.round, s.ours))
    case Test(i) =>
      s.(sender := if i < s.ours.loop + s.ours.skip then p.(at := Posting(i)) else NextRound(p, Enter))
    case Posting(i) => s.(sender := p.(at := Posted(i)), requests := s.requests + [SizeOf(p.round)])
    case Posted(i) => s.(sender := p.(at := Awaiting(i)))
    case Awaiting(i) => s.(sender := p.(at := Test(i + 1)), replies := s.replies[1..])
    case _ => s
  }

  /** Actor t < n is receiver thread t, actor n the sender. */
  predicate CanStep(c: Config, s: State, actor: nat, eager: bool) {
    if actor < |s.receivers| then ReceiverCanStep(s, actor, eager)
    else actor == |s.receivers| && SenderCanStep(s, eager)
  }

  function Step(c: Config, s: State, actor: nat): State
    requires CanStep(c, s, actor, true)
  {
    if actor < |s.receivers| then StepReceiver(c, s, actor) else StepSender(c, s)
  }

  /** The states of a run that lets the actors of a schedule take one step each. */
  ghost predicate IsRun(c: Config, schedule: seq<nat>, states: seq<State>) {
    && |states| == |schedule| + 1 && states[0] == Initial(c)
    && forall k :: 0 <= k < |schedule| ==>
         CanStep(c, states[k], schedule[k], true) && states[k + 1] == Step(c, states[k], schedule[k])
  }

  // ---------- The residue classes ----------

  /** How many of i, i + n, i + 2n, ... are below limit. */
  function Visits(n: nat, limit: nat, i: nat): nat
    requires n > 0
    decreases limit - i
  {
    if i < limit then 1 + Visits(n, limit, i + n) else 0
  }

  /** Exactly the class of i gains a member when the limit passes it. */
  lemma {:induction false} VisitsGrow(n: nat, limit: nat, i: nat)
    requires n > 0
    ensures Visits(n, limit + 1, i) == Visits(n, limit, i) + if i <= limit && (limit - i) % n == 0 then 1 else 0
    decreases limit - i
  {
    if i + n <= limit {
      VisitsGrow(n, limit, i + n);
      SubtractModulus(limit - i, n);
    } else if i <= limit {
      SmallModulus(limit - i, n);
    }
  }

  lemma SubtractModulus(a: nat, n: nat)
    requires 0 < n <= a
    ensures (a - n) % n == a % n
  {
    var q := a / n;
    assert a == q * n + a % n;
    assert (q - 1) * n == q * n - n;
    Remainder(a % n, n, q - 1, a - n);
  }

  lemma SmallModulus(a: nat, n: nat)
    requires a < n
    ensures a % n == 0 <==> a == 0
  {
    Remainder(a, n, 0, a);
  }

  function VisitsOfFirst(n: nat, limit: nat, m: nat): nat
    requires n > 0
  {
    if m == 0 then 0 else VisitsOfFirst(n, limit, m - 1) + Visits(n, limit, m - 1)
  }

  /** Does the loop i = start, start + n, start + 2n, ... below limit come to i? */
  predicate Visited(n: nat, limit: nat, start: nat, i: nat)
    requires n > 0
    decreases limit - start
  {
    start < limit && (i == start || Visited(n, limit, start + n, i))
  }

  lemma {:induction false} VisitedIff(n: nat, limit: nat, start: nat, i: nat)
    requires n > 0
    ensures Visited(n, limit, start, i) <==> start <= i < limit && (i - start) % n == 0
    decreases limit - start
  {
    if start < limit {
      VisitedIff(n, limit, start + n, i);
      if start + n <= i {
        SubtractModulus(i - start, n);
      } else if start <= i {
        SmallModulus(i - start, n);
      }
    }
  }

  /** The loops of n threads partition [0, limit): each index is visited by exactly one
      thread, and nothing else is visited. */
  lemma OneVisitor(n: nat, limit: nat, t: nat, i: nat)
    requires t < n
    ensures Visited(n, limit, t, i) <==> i < limit && i % n == t
  {
    VisitedIff(n, limit, t, i);
    ClassOf(n, i, t);
  }

  /** All threads together make limit visits. */
  lemma {:induction false} ClassesPartition(n: nat, limit: nat)
    requires n > 0
    ensures VisitsOfFirst(n, limit, n) == limit
  {
    if limit == 0 {
      NoVisits(n, n);
    } else {
      ClassesPartition(n, limit - 1);
      FirstGrow(n, limit - 1, n);
    }
  }

  lemma {:induction false} NoVisits(n: nat, m: nat)
    requires n > 0
    ensures VisitsOfFirst(n, 0, m) == 0
  {
    if m > 0 { NoVisits(n, m - 1); }
  }

  lemma {:induction false} FirstGrow(n: nat, limit: nat, m: nat)
    requires n > 0 && m <= n
    ensures VisitsOfFirst(n, limit + 1, m) == VisitsOfFirst(n, limit, m) + if limit % n < m then 1 else 0
  {
    if m > 0 {
      FirstGrow(n, limit, m - 1);
      VisitsGrow(n, limit, m - 1);
      ClassOf(n, limit, m - 1);
    }
  }

  lemma ClassOf(n: nat, limit: nat, t: nat)
    requires t < n
    ensures (t <= limit && (limit - t) % n == 0) <==> limit % n == t
  {
    var q, r := limit / n, limit % n;
    assert limit == q * n + r;
    if t <= limit {
      if r >= t {
        Remainder(r - t, n, q, limit - t);
      } else {
        assert (q - 1) * n == q * n - n;
        Remainder(r - t + n, n, q - 1, limit - t);
      }
    } else {
      Remainder(limit, n, 0, limit);
    }
  }
}
