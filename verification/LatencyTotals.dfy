/** How many messages a whole run of the latency test exchanges. */
module LatencyTotals {
  import opened Sums
  import opened LatencyMT
  import opened LatencyInvariant
  import opened LatencyRun

  /** What becomes of the messages in flight in a step. */
  datatype Event = RequestSent | RequestReceived | ReplySent | ReplyReceived

  predicate Happens(e: Event, s: State, s': State) {
    match e
    case RequestSent => |s'.requests| > |s.requests|
    case RequestReceived => |s'.requests| < |s.requests|
    case ReplySent => |s'.replies| > |s.replies|
    case ReplyReceived => |s'.replies| < |s.replies|
  }

  /** How often it happens in the first k steps. */
  function Count(e: Event, states: seq<State>, k: nat): nat
    requires k < |states|
  {
    if k == 0 then 0 else Count(e, states, k - 1) + if Happens(e, states[k - 1], states[k]) then 1 else 0
  }

  /** The iterations of the first r sizes. */
  function Before(c: Config, r: nat): nat {
    if r == 0 then 0 else Before(c, r - 1) + Iterations(c, r - 1)
  }

  /** Replies that the sender has received for the size it is at. */
  function Answered(p: Thread): nat {
    match p.at
    case Test(i) => i
    case Posting(i) => i
    case Posted(i) => i
    case Awaiting(i) => i
    case _ => 0
  }

  function One(b: bool): nat { if b then 1 else 0 }

  /** A step moves at most one message each way. */
  lemma StepMovesOne(c: Config, s: State, actor: nat)
    requires CanStep(c, s, actor, true)
    ensures var s' := Step(c, s, actor);
            && |s'.requests| == |s.requests| + One(Happens(RequestSent, s, s')) - One(Happens(RequestReceived, s, s'))
            && |s'.replies| == |s.replies| + One(Happens(ReplySent, s, s')) - One(Happens(ReplyReceived, s, s'))
  {
    hide SizeOf, WithLoop, WithSkip, NextRound, Wake;
  }

  /** The sender's progress counts what it has sent and received. */
  lemma StepMoves(c: Config, s: State, actor: nat)
    requires Invariant(c, s) && CanStep(c, s, actor, true)
    ensures var s' := Step(c, s, actor);
            && Before(c, s'.sender.round) + Sent(s'.sender)
               == Before(c, s.sender.round) + Sent(s.sender) + One(Happens(RequestSent, s, s'))
            && Before(c, s'.sender.round) + Answered(s'.sender)
               == Before(c, s.sender.round) + Answered(s.sender) + One(Happens(ReplyReceived, s, s'))
  {
    if actor < |s.receivers| {
      ReceiverMoves(c, s, actor);
    } else {
      SenderMoves(c, s);
    }
  }

  lemma ReceiverMoves(c: Config, s: State, t: nat)
    requires t < |s.receivers| && ReceiverCanStep(s, t, true)
    ensures var s' := StepReceiver(c, s, t);
            s'.sender == s.sender && |s'.requests| <= |s.requests| && |s'.replies| >= |s.replies|
  {
    hide SizeOf, WithLoop, WithSkip, NextRound, Wake;
  }

  lemma SenderMoves(c: Config, s: State)
    requires Invariant(c, s) && SenderCanStep(s, true)
    ensures var s' := StepSender(c, s);
            && Before(c, s'.sender.round) + Sent(s'.sender)
               == Before(c, s.sender.round) + Sent(s.sender) + One(Happens(RequestSent, s, s'))
            && Before(c, s'.sender.round) + Answered(s'.sender)
               == Before(c, s.sender.round) + Answered(s.sender) + One(Happens(ReplyReceived, s, s'))
  {
    hide ThreadsOK, BarrierOK, OptionsOK, MessagesOK, OptionsOf, SizeOf, WithLoop, WithSkip;
  }

  lemma {:induction false} CountsAre(c: Config, schedule: seq<nat>, states: seq<State>, k: nat)
    requires c.Valid() && IsRun(c, schedule, states) && k < |states|
    ensures var s := states[k];
            && Count(RequestSent, states, k) == Before(c, s.sender.round) + Sent(s.sender)
            && Count(ReplyReceived, states, k) == Before(c, s.sender.round) + Answered(s.sender)
            && Count(RequestReceived, states, k) + |s.requests| == Count(RequestSent, states, k)
            && Count(ReplySent, states, k) == Count(ReplyReceived, states, k) + |s.replies|
  {
    hide Invariant, Step, CanStep, Happens, Sent, Answered, Iterations;
    if k == 0 {
      NothingYet(c);
    } else {
      CountsAre(c, schedule, states, k - 1);
      RunKeepsInvariant(c, schedule, states, k - 1);
      StepMoves(c, states[k - 1], schedule[k - 1]);
      StepMovesOne(c, states[k - 1], schedule[k - 1]);
      hide Before;
    }
  }

  lemma NothingYet(c: Config)
    ensures var s := Initial(c);
            s.sender.round == 0 && Sent(s.sender) == 0 && Answered(s.sender) == 0 && s.requests == [] && s.replies == []
  {
  }

  lemma {:induction false} BeforeIs(c: Config, r: nat)
    requires r <= 24
    ensures Before(c, r) == if r <= 15 then r * (c.small.loop + c.small.skip)
                            else 15 * (c.small.loop + c.small.skip) + (r - 15) * (c.large.loop + c.large.skip)
  {
    if r > 0 {
      BeforeIs(c, r - 1);
      OptionsBySize(c, r - 1);
      hide OptionsOf;
      OneMore(r - 1, c.small.loop + c.small.skip);
      if r > 15 {
        OneMore(r - 16, c.large.loop + c.large.skip);
      }
    }
  }

  lemma OneMore(n: nat, m: nat)
    ensures (n + 1) * m == n * m + m
  {
  }

  /** Every complete run exchanges the same number of messages: for each of the 15 sizes
      up to 8192 the iterations for small messages, for each of the nine sizes above those
      for large ones, and each request and reply that is sent is received. */
  lemma MessagesExchanged(c: Config, schedule: seq<nat>, states: seq<State>, e: Event)
    requires c.Valid() && IsRun(c, schedule, states) && AllDone(states[|schedule|])
    ensures Count(e, states, |schedule|) == 15 * (c.small.loop + c.small.skip) + 9 * (c.large.loop + c.large.skip)
  {
    hide Step, CanStep, Initial;
    RunKeepsInvariant(c, schedule, states, |schedule|);
    CountsAre(c, schedule, states, |schedule|);
    BeforeIs(c, 24);
    DoneIsQuiet(c, states[|schedule|]);
    match e
    case RequestSent =>
    case RequestReceived =>
    case ReplySent =>
    case ReplyReceived =>
  }

  lemma DoneIsQuiet(c: Config, s: State)
    requires Invariant(c, s) && AllDone(s)
    ensures s.sender.round == 24 && Sent(s.sender) == 0 && Answered(s.sender) == 0
    ensures s.requests == [] && s.replies == []
  {
    hide ThreadsOK, BarrierOK, OptionsOK, Sum;
  }
}
