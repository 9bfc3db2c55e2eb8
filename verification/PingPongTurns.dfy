/** The ping-pong as two images that interleave: single elements of a copy land in any
    order, and only pairwise synchronisation keeps the images from disturbing each other.
    Every interleaving takes turns and validates like the sequential run of PingPong. */
module PingPongTurns {
  import opened PingPong

  /** One trial of a pattern. */
  datatype Config = Config(mode: Mode, shape: Shape, size: nat, nrep: nat) {
    /** The copies of the pattern reach every element that is checked. */
    ghost predicate Valid() {
      !mode.Idle() && !mode.MpiSend? && Covered(mode, shape, size)
    }

    /** The image that works first in every repetition: image1 puts, image2 gets. */
    predicate Leads(first: bool) { first != mode.Gets() }
  }

  datatype Action = Set | Copy | Check | Sync

  /** What an image does in a repetition, with a flush at the end of every Copy. */
  function Program(gets: bool, first: bool): (p: seq<Action>)
    ensures |p| == 5
  {
    if gets then (if first then [Sync, Copy, Check, Set, Sync] else [Copy, Check, Set, Sync, Sync])
    else if first then [Set, Copy, Sync, Sync, Check]
    else [Sync, Check, Set, Copy, Sync]
  }

  /** The value that an image sets, resp. checks for, in repetition r. */
  function SetValue(gets: bool, first: bool, r: nat): int {
    if !first then -(r as int) else if gets then r + 1 else r
  }

  function CheckValue(first: bool, r: nat): int {
    if first then -(r as int) else r
  }

  /** An image in repetition rep, about to do action pc of its program; pending are the
      elements of a Copy that have not landed, begun counts synchronisations, waiting:
      the last one begun is not completed; ok: no check has failed. */
  datatype Image = Image(rep: nat, pc: nat, pending: set<int>, begun: nat, waiting: bool, ok: bool) {
    function Passed(): int { begun - if waiting then 1 else 0 }
  }

  datatype State = State(image1: Image, image2: Image, x1: seq<int>, x2: seq<int>) {
    function At(first: bool): Image { if first then image1 else image2 }

    function X(first: bool): seq<int> { if first then x1 else x2 }

    function With(first: bool, im: Image): State {
      if first then this.(image1 := im) else this.(image2 := im)
    }

    function WithX(first: bool, x: seq<int>): State {
      if first then this.(x1 := x) else this.(x2 := x)
    }
  }

  /** What cafset makes of an array. */
  ghost function Pattern(c: Config, v: int): (x: seq<int>)
    ensures |x| == c.size && IsSet(x, c.shape, v)
  {
    seq(c.size, i requires 0 <= i < c.size => if c.shape.InBlock(i) then v else 0)
  }

  ghost function CopySet(c: Config): set<int> {
    set i | 0 <= i < c.size && Copied(c.mode, c.shape, c.size, i)
  }

  /** An image that comes to a Copy issues all its copies. */
  ghost function Enter(c: Config, first: bool, im: Image): Image {
    im.(pending := if im.pc < 5 && Program(c.mode.Gets(), first)[im.pc].Copy? then CopySet(c) else {})
  }

  ghost function Next(c: Config, first: bool, im: Image): Image {
    Enter(c, first, if im.pc < 4 then im.(pc := im.pc + 1) else im.(rep := im.rep + 1, pc := 0))
  }

  ghost function Initial(c: Config): State {
    var im := Image(1, 0, {}, 0, false, true);
    State(Enter(c, true, im), Enter(c, false, im), Pattern(c, 1), Pattern(c, 0))
  }

  predicate CanStep(c: Config, s: State, first: bool, i: int) {
    var im := s.At(first);
    && im.ok && im.rep <= c.nrep && im.pc < 5
    && match Program(c.mode.Gets(), first)[im.pc]
       case Copy => im.pending == {} || (i in im.pending && 0 <= i < |s.x1| && |s.x2| == |s.x1|)
       case Sync => im.waiting ==> s.At(!first).begun >= im.begun
       case _ => true
  }

  /** A step of an image; i is the element that lands next, if any. */
  ghost function Step(c: Config, s: State, first: bool, i: int): State
    requires CanStep(c, s, first, i)
  {
    var im, gets := s.At(first), c.mode.Gets();
    match Program(gets, first)[im.pc]
    case Set => s.WithX(first, Pattern(c, SetValue(gets, first, im.rep))).With(first, Next(c, first, im))
    case Copy =>
      if im.pending == {} then s.With(first, Next(c, first, im))
      else
        var from := first != gets;
        s.WithX(!from, s.X(!from)[i := s.X(from)[i]]).With(first, im.(pending := im.pending - {i}))
    case Check =>
      var ok := BlocksHold(s.X(first), c.shape, CheckValue(first, im.rep));
      s.With(first, Next(c, first, im.(ok := im.ok && ok)))
    case Sync =>
      if im.waiting then s.With(first, Next(c, first, im.(waiting := false)))
      else s.With(first, im.(begun := im.begun + 1, waiting := true))
  }

  /** The states of a run; the schedule says each time who steps, and what lands. */
  ghost predicate IsRun(c: Config, schedule: seq<(bool, int)>, states: seq<State>) {
    && |states| == |schedule| + 1 && states[0] == Initial(c)
    && forall k :: 0 <= k < |schedule| ==>
         && CanStep(c, states[k], schedule[k].0, schedule[k].1)
         && states[k + 1] == Step(c, states[k], schedule[k].0, schedule[k].1)
  }

  // ---------- Invariant ----------

  /** Synchronisations of a repetition that lie behind an image at pc. */
  function SyncsBefore(leads: bool, gets: bool, pc: nat): nat {
    if !leads then (if pc == 0 then 0 else 1)
    else if pc < 3 then 0
    else if gets then pc - 3
    else pc - 2
  }

  ghost predicate ImageOK(c: Config, first: bool, im: Image) {
    && 1 <= im.rep <= c.nrep + 1 && im.pc < 5 && im.ok
    && (im.rep == c.nrep + 1 ==> im.pc == 0 && !im.waiting && im == Enter(c, first, im))
    && (im.waiting ==> Program(c.mode.Gets(), first)[im.pc].Sync?)
    && im.Passed() == 2 * (im.rep - 1) + SyncsBefore(c.Leads(first), c.mode.Gets(), im.pc)
    && im.pending <= (if Program(c.mode.Gets(), first)[im.pc].Copy? then CopySet(c) else {})
  }

  /** x is on its way from one pattern to another. */
  ghost predicate Between(c: Config, x: seq<int>, v: int, w: int, pending: set<int>) {
    && |x| == c.size
    && forall i :: 0 <= i < c.size ==>
        x[i] == if i in pending || i !in CopySet(c) then Pattern(c, v)[i] else Pattern(c, w)[i]
  }

  /** What the arrays hold after n turns, between turns. */
  ghost predicate Fact(c: Config, s: State, n: nat) {
    var m := n / 2;
    if c.mode.Gets() then s.x1 == Pattern(c, m + 1) && s.x2 == Pattern(c, -((n + 1) / 2))
    else if n % 2 == 0 then s.x2 == Pattern(c, -m) && (m > 0 ==> s.x1 == Pattern(c, -m))
    else s.x1 == Pattern(c, m + 1) && s.x2 == Pattern(c, m + 1)
  }

  /** What they hold while an image is at its turn. */
  ghost predicate Turn(c: Config, s: State, first: bool) {
    var im := s.At(first);
    var r: int := im.rep;
    if c.mode.Gets() then
      if first then
        match im.pc
        case 1 => s.x2 == Pattern(c, -r) && Between(c, s.x1, r, -r, im.pending)
        case 4 => s.x1 == Pattern(c, r + 1) && s.x2 == Pattern(c, -r)
        case _ => s.x1 == Pattern(c, -r) && s.x2 == Pattern(c, -r)
      else
        match im.pc
        case 0 => s.x1 == Pattern(c, r) && Between(c, s.x2, 1 - r, r, im.pending)
        case 3 => s.x1 == Pattern(c, r) && s.x2 == Pattern(c, -r)
        case _ => s.x1 == Pattern(c, r) && s.x2 == Pattern(c, r)
    else
      if first then
        match im.pc
        case 0 => s.x2 == Pattern(c, 1 - r) && (r > 1 ==> s.x1 == Pattern(c, 1 - r))
        case 1 => s.x1 == Pattern(c, r) && Between(c, s.x2, 1 - r, r, im.pending)
        case 2 => s.x1 == Pattern(c, r) && s.x2 == Pattern(c, r)
        case _ => s.x1 == Pattern(c, -r) && s.x2 == Pattern(c, -r)
      else
        match im.pc
        case 3 => s.x2 == Pattern(c, -r) && Between(c, s.x1, r, -r, im.pending)
        case 4 => s.x1 == Pattern(c, -r) && s.x2 == Pattern(c, -r)
        case _ => s.x1 == Pattern(c, r) && s.x2 == Pattern(c, r)
  }

  /** Is it an image's turn? The leader has the even turns, the other the odd ones; a turn
      ends when the image begins to synchronise. */
  predicate OnTurn(c: Config, first: bool, im: Image) {
    !im.waiting && (im.Passed() % 2 == 0 <==> c.Leads(first))
  }

  /** How many turns are over. */
  function Turns(c: Config, s: State): nat {
    (s.At(!c.mode.Gets()).begun + 1) / 2 + s.At(c.mode.Gets()).begun / 2
  }

  ghost predicate DataOK(c: Config, s: State) {
    && |s.x1| == |s.x2| == c.size
    && (OnTurn(c, true, s.image1) ==> Turn(c, s, true)) && (OnTurn(c, false, s.image2) ==> Turn(c, s, false))
    && (!OnTurn(c, true, s.image1) && !OnTurn(c, false, s.image2) ==> Fact(c, s, Turns(c, s)))
  }

  ghost predicate Invariant(c: Config, s: State) {
    && c.Valid() && ImageOK(c, true, s.image1) && ImageOK(c, false, s.image2) && DataOK(c, s)
    && s.image1.begun >= s.image2.Passed() && s.image2.begun >= s.image1.Passed()
  }

  /** It is never both images' turn. */
  lemma OneTurn(c: Config, s: State)
    requires Invariant(c, s)
    ensures !(OnTurn(c, true, s.image1) && OnTurn(c, false, s.image2))
  {
  }

  lemma InitialInvariant(c: Config)
    requires c.Valid() && c.nrep >= 1
    ensures Invariant(c, Initial(c))
  {
    hide Covered, Pattern;
  }

  // ---------- Steps ----------

  ghost predicate About(c: Config, s: State, first: bool, a: Action) {
    s.At(first).pc < 5 && s.At(first).rep <= c.nrep && Program(c.mode.Gets(), first)[s.At(first).pc] == a
  }

  /** Setting, copying and checking happen on one's turn only. */
  lemma WorkIsOnTurn(c: Config, s: State, first: bool)
    requires Invariant(c, s) && s.At(first).rep <= c.nrep && !About(c, s, first, Sync)
    ensures OnTurn(c, first, s.At(first)) && !OnTurn(c, !first, s.At(!first))
  {
    hide DataOK;
    OneTurn(c, s);
  }

  lemma NextKeepsImage(c: Config, first: bool, im: Image)
    requires ImageOK(c, first, im) && im.rep <= c.nrep && !im.waiting && !Program(c.mode.Gets(), first)[im.pc].Sync?
    ensures ImageOK(c, first, Next(c, first, im)) && Next(c, first, im).begun == im.begun && !Next(c, first, im).waiting
    ensures Next(c, first, im).Passed() == im.Passed()
  {
    hide CopySet;
  }

  lemma WorksAlone(c: Config, s: State, first: bool)
    requires Invariant(c, s) && OnTurn(c, first, s.At(first))
    ensures !OnTurn(c, !first, s.At(!first))
  {
    hide DataOK;
    OneTurn(c, s);
  }

  /** Steps of a turn leave the partner and the turn's owner alone. */
  lemma TurnGoesOn(c: Config, s: State, s': State, first: bool)
    requires Invariant(c, s) && OnTurn(c, first, s.At(first)) && |s'.x1| == |s'.x2| == c.size
    requires s'.At(!first) == s.At(!first) && ImageOK(c, first, s'.At(first)) && Turn(c, s', first)
    requires !s'.At(first).waiting && s'.At(first).begun == s.At(first).begun
    ensures Invariant(c, s')
  {
    hide Turn, Fact, Pattern, ImageOK, Covered;
    assert !OnTurn(c, !first, s.At(!first)) by { WorksAlone(c, s, first); }
  }

  lemma SetKeeps(c: Config, s: State, first: bool, i: int)
    requires Invariant(c, s) && CanStep(c, s, first, i) && About(c, s, first, Set)
    ensures Invariant(c, Step(c, s, first, i))
  {
    hide Pattern, Covered, CopySet;
    WorkIsOnTurn(c, s, first);
    NextKeepsImage(c, first, s.At(first));
    TurnGoesOn(c, s, Step(c, s, first, i), first);
  }

  lemma CheckPasses(c: Config, s: State, first: bool)
    requires Invariant(c, s) && About(c, s, first, Check)
    ensures BlocksHold(s.X(first), c.shape, CheckValue(first, s.At(first).rep))
  {
    hide Covered;
    WorkIsOnTurn(c, s, first);
  }

  lemma CheckKeeps(c: Config, s: State, first: bool, i: int)
    requires Invariant(c, s) && CanStep(c, s, first, i) && About(c, s, first, Check)
    ensures Invariant(c, Step(c, s, first, i))
  {
    hide Pattern, Covered, CopySet, BlocksHold;
    WorkIsOnTurn(c, s, first);
    CheckPasses(c, s, first);
    NextKeepsImage(c, first, s.At(first));
    TurnGoesOn(c, s, Step(c, s, first, i), first);
  }

  lemma OneLands(c: Config, x: seq<int>, v: int, w: int, pending: set<int>, i: int)
    requires Between(c, x, v, w, pending) && pending <= CopySet(c) && i in pending
    ensures 0 <= i < c.size && Between(c, x[i := Pattern(c, w)[i]], v, w, pending - {i})
  {
  }

  lemma LandKeeps(c: Config, s: State, first: bool, i: int)
    requires Invariant(c, s) && CanStep(c, s, first, i) && About(c, s, first, Copy) && s.At(first).pending != {}
    ensures Invariant(c, Step(c, s, first, i))
  {
    hide Pattern, Covered, CopySet, Between;
    WorkIsOnTurn(c, s, first);
    var r: int := s.At(first).rep;
    if c.Leads(first) {
      OneLands(c, s.x2, 1 - r, r, s.At(first).pending, i);
    } else {
      OneLands(c, s.x1, r, -r, s.At(first).pending, i);
    }
    TurnGoesOn(c, s, Step(c, s, first, i), first);
  }

  /** When all copies have landed, the target is the pattern that was copied. */
  lemma Arrived(c: Config, x: seq<int>, v: int, w: int)
    requires c.Valid() && Between(c, x, v, w, {})
    ensures x == Pattern(c, w)
  {
    forall i | 0 <= i < c.size ensures x[i] == Pattern(c, w)[i] {
      if c.shape.InBlock(i) {
        assert i in CopySet(c);
      }
    }
  }

  lemma FlushKeeps(c: Config, s: State, first: bool, i: int)
    requires Invariant(c, s) && CanStep(c, s, first, i) && About(c, s, first, Copy) && s.At(first).pending == {}
    ensures Invariant(c, Step(c, s, first, i))
  {
    hide Pattern, Covered, CopySet, Between;
    WorkIsOnTurn(c, s, first);
    var r: int := s.At(first).rep;
    var v, w := if c.Leads(first) then 1 - r else r, if c.Leads(first) then r else -r;
    var target := if c.Leads(first) then s.x2 else s.x1;
    Arrived(c, target, v, w);
    NextKeepsImage(c, first, s.At(first));
    TurnGoesOn(c, s, Step(c, s, first, i), first);
  }

  // ---------- Synchronising ----------

  /** The number of turns over is the number of synchronisations passed by its owner. */
  lemma TurnNumber(c: Config, s: State, first: bool)
    requires Invariant(c, s) && OnTurn(c, first, s.At(first))
    ensures s.At(first).Passed() == Turns(c, s) >= 0
    ensures Turns(c, s.With(first, s.At(first).(begun := s.At(first).begun + 1, waiting := true))) == Turns(c, s) + 1
  {
    hide DataOK, ImageOK, Covered;
  }

  /** What a turn leaves behind is what holds between turns. */
  lemma TurnEnds(c: Config, s: State, first: bool)
    requires Invariant(c, s) && OnTurn(c, first, s.At(first)) && About(c, s, first, Sync)
    ensures Fact(c, s, s.At(first).begun + 1)
  {
    hide Pattern, Covered, CopySet, Between, Fact, Turn;
    if c.Leads(first) {
      LeaderEnds(c, s, first);
    } else {
      FollowerEnds(c, s, first);
    }
  }

  lemma LeaderEnds(c: Config, s: State, first: bool)
    requires ImageOK(c, first, s.At(first)) && Turn(c, s, first) && c.Leads(first) && About(c, s, first, Sync)
    requires OnTurn(c, first, s.At(first))
    ensures Fact(c, s, s.At(first).begun + 1)
  {
    hide Pattern, CopySet, Between;
    var im, m := s.At(first), s.At(first).rep - 1;
    assert im.begun == 2 * m;
  }

  lemma FollowerEnds(c: Config, s: State, first: bool)
    requires ImageOK(c, first, s.At(first)) && Turn(c, s, first) && !c.Leads(first) && About(c, s, first, Sync)
    requires OnTurn(c, first, s.At(first))
    ensures Fact(c, s, s.At(first).begun + 1)
  {
    hide Pattern, CopySet, Between;
    var im, r := s.At(first), s.At(first).rep;
    assert im.begun == 2 * r - 1;
  }

  lemma BeginImage(c: Config, first: bool, im: Image)
    requires ImageOK(c, first, im) && im.rep <= c.nrep && !im.waiting && Program(c.mode.Gets(), first)[im.pc].Sync?
    ensures ImageOK(c, first, im.(begun := im.begun + 1, waiting := true))
  {
    hide CopySet;
  }

  lemma RoundsUp(n: nat)
    ensures n % 2 == 0 ==> (n + 1) / 2 == n / 2
    ensures n % 2 == 1 ==> (n + 2) / 2 == (n + 1) / 2
  {
  }

  lemma SameTurns(c: Config, s: State, first: bool)
    requires !OnTurn(c, first, s.At(first)) && !s.At(first).waiting
    ensures Turns(c, s.With(first, s.At(first).(begun := s.At(first).begun + 1, waiting := true))) == Turns(c, s)
  {
    RoundsUp(s.At(first).begun);
  }

  /** Synchronising touches neither the arrays nor the partner. */
  lemma SyncKeeps(c: Config, s: State, first: bool, im: Image)
    requires Invariant(c, s) && ImageOK(c, first, im)
    requires s.At(!first).begun >= im.Passed() && im.begun >= s.At(!first).Passed()
    requires OnTurn(c, first, im) ==> Turn(c, s.With(first, im), first)
    requires !OnTurn(c, first, im) && !OnTurn(c, !first, s.At(!first)) ==> Fact(c, s, Turns(c, s.With(first, im)))
    ensures Invariant(c, s.With(first, im))
  {
    hide Pattern, Covered, ImageOK, Turns, Between;
    var s' := s.With(first, im);
    assert Fact(c, s, Turns(c, s')) ==> Fact(c, s', Turns(c, s'));
    PartnersTurn(c, s, s', first);
    hide Fact, Turn;
  }

  lemma PartnersTurn(c: Config, s: State, s': State, first: bool)
    requires s'.At(!first) == s.At(!first) && s'.x1 == s.x1 && s'.x2 == s.x2
    ensures Turn(c, s, !first) ==> Turn(c, s', !first)
  {
    hide Pattern, Between;
  }

  lemma BeginKeeps(c: Config, s: State, first: bool, i: int)
    requires Invariant(c, s) && CanStep(c, s, first, i) && About(c, s, first, Sync) && !s.At(first).waiting
    ensures Invariant(c, Step(c, s, first, i))
  {
    hide DataOK, Covered, Fact, Turn, Turns, Pattern, IsSet;
    var im := s.At(first);
    BeginImage(c, first, im);
    if !OnTurn(c, !first, s.At(!first)) {
      BeginData(c, s, first);
    }
    SyncKeeps(c, s, first, im.(begun := im.begun + 1, waiting := true));
    hide ImageOK;
  }

  lemma BeginData(c: Config, s: State, first: bool)
    requires Invariant(c, s) && About(c, s, first, Sync) && !s.At(first).waiting && !OnTurn(c, !first, s.At(!first))
    ensures Fact(c, s, Turns(c, s.With(first, s.At(first).(begun := s.At(first).begun + 1, waiting := true))))
  {
    hide DataOK, Covered, Fact, Turn;
    if OnTurn(c, first, s.At(first)) {
      TurnEnds(c, s, first);
      TurnNumber(c, s, first);
    } else {
      SameTurns(c, s, first);
      BetweenTurns(c, s, first);
    }
  }

  lemma BetweenTurns(c: Config, s: State, first: bool)
    requires Invariant(c, s) && !OnTurn(c, first, s.At(first)) && !OnTurn(c, !first, s.At(!first))
    ensures Fact(c, s, Turns(c, s))
  {
    hide Fact, Turns, Turn;
  }

  /** Whoever passes a synchronisation into its turn does so between turns. */
  lemma TurnBegins(c: Config, s: State, first: bool)
    requires Invariant(c, s) && s.At(first).waiting && s.At(!first).begun >= s.At(first).begun
    requires OnTurn(c, first, s.At(first).(waiting := false))
    ensures !OnTurn(c, !first, s.At(!first)) && Turns(c, s) == s.At(first).begun && Fact(c, s, s.At(first).begun)
  {
    hide Fact, Turn, ImageOK, Covered;
  }

  lemma Departs(c: Config, v: int, w: int)
    ensures Between(c, Pattern(c, v), v, w, CopySet(c))
  {
  }

  /** What holds between turns is what the next turn starts from. */
  lemma FactStartsTurn(c: Config, s: State, first: bool)
    requires ImageOK(c, first, s.At(first)) && s.At(first).waiting && OnTurn(c, first, s.At(first).(waiting := false))
    requires Fact(c, s, s.At(first).begun) && s.At(first).rep <= c.nrep
    ensures Turn(c, s.With(first, Next(c, first, s.At(first).(waiting := false))), first)
  {
    hide Pattern, CopySet, Between;
    var r: int := s.At(first).rep;
    Departs(c, -r, r + 1);
    Departs(c, r, -r);
  }

  lemma PassImage(c: Config, first: bool, im: Image)
    requires ImageOK(c, first, im) && im.rep <= c.nrep && im.waiting
    ensures var im' := Next(c, first, im.(waiting := false));
            ImageOK(c, first, im') && im'.begun == im.begun && !im'.waiting
  {
    hide CopySet;
  }

  lemma PassKeeps(c: Config, s: State, first: bool, i: int)
    requires Invariant(c, s) && CanStep(c, s, first, i) && About(c, s, first, Sync) && s.At(first).waiting
    ensures Invariant(c, Step(c, s, first, i))
  {
    hide DataOK, Covered;
    var im := s.At(first);
    PassImage(c, first, im);
    PassData(c, s, first);
    SyncKeeps(c, s, first, Next(c, first, im.(waiting := false)));
    hide Next, ImageOK;
  }

  lemma PassData(c: Config, s: State, first: bool)
    requires Invariant(c, s) && s.At(first).waiting && s.At(first).rep <= c.nrep
    requires s.At(!first).begun >= s.At(first).begun
    ensures var im' := Next(c, first, s.At(first).(waiting := false));
            && (OnTurn(c, first, im') ==> Turn(c, s.With(first, im'), first))
            && (!OnTurn(c, first, im') && !OnTurn(c, !first, s.At(!first)) ==> Fact(c, s, Turns(c, s.With(first, im'))))
  {
    hide DataOK, Covered, Fact, Turn, ImageOK;
    if OnTurn(c, first, s.At(first).(waiting := false)) {
      TurnBegins(c, s, first);
      FactStartsTurn(c, s, first);
    } else if !OnTurn(c, !first, s.At(!first)) {
      BetweenTurns(c, s, first);
    }
  }

  lemma StepKeepsInvariant(c: Config, s: State, first: bool, i: int)
    requires Invariant(c, s) && CanStep(c, s, first, i)
    ensures Invariant(c, Step(c, s, first, i))
  {
    hide Invariant, Step;
    match Program(c.mode.Gets(), first)[s.At(first).pc]
    case Set => SetKeeps(c, s, first, i);
    case Copy =>
      if s.At(first).pending == {} {
        FlushKeeps(c, s, first, i);
      } else {
        LandKeeps(c, s, first, i);
      }
    case Check => CheckKeeps(c, s, first, i);
    case Sync =>
      if s.At(first).waiting {
        PassKeeps(c, s, first, i);
      } else {
        BeginKeeps(c, s, first, i);
      }
  }

  // ---------- Whole runs ----------

  /** Copies that an image still has to issue in its repetition, or that have to land. */
  ghost function CopiesLeft(c: Config, first: bool, im: Image): nat {
    if im.pc < 5 && Program(c.mode.Gets(), first)[im.pc].Copy? then |im.pending|
    else if im.pc < (if c.mode.Gets() then (if first then 1 else 0) else if first then 1 else 3) then |CopySet(c)|
    else 0
  }

  ghost function Repetitions(n: nat, m: nat): nat {
    if n == 0 then 0 else m + 12 + Repetitions(n - 1, m)
  }

  ghost function ImageWeight(c: Config, first: bool, im: Image): nat {
    if im.rep > c.nrep || im.pc >= 5 then 0
    else
      Repetitions(c.nrep - im.rep, |CopySet(c)|) + 2 * (5 - im.pc)
      + (if im.waiting then 0 else 1) + CopiesLeft(c, first, im)
  }

  ghost function Weight(c: Config, s: State): nat {
    ImageWeight(c, true, s.image1) + ImageWeight(c, false, s.image2)
  }

  lemma NextLowers(c: Config, first: bool, im: Image, im': Image)
    requires im.pc < 5 && im.rep <= c.nrep && im' == Next(c, first, im)
    requires Program(c.mode.Gets(), first)[im.pc].Copy? ==> im.pending == {}
    ensures ImageWeight(c, first, im') + (if im.waiting then 0 else 1)
            < ImageWeight(c, first, im) + (if im'.waiting then 0 else 1)
  {
    hide CopySet;
  }

  lemma StepLowersWeight(c: Config, s: State, first: bool, i: int)
    requires CanStep(c, s, first, i)
    ensures Weight(c, Step(c, s, first, i)) < Weight(c, s)
  {
    hide CopySet, Next, ImageWeight;
    var im := s.At(first);
    match Program(c.mode.Gets(), first)[im.pc]
    case Set =>
      NextLowers(c, first, im, Next(c, first, im));
      NextWaiting(c, first, im);
    case Copy =>
      if im.pending == {} {
        NextLowers(c, first, im, Next(c, first, im));
        NextWaiting(c, first, im);
      } else {
        LandLowers(c, first, im, i);
      }
    case Check => CheckLowers(c, s, first);
    case Sync => SyncLowers(c, first, im);
  }

  lemma LandLowers(c: Config, first: bool, im: Image, i: int)
    requires im.pc < 5 && im.rep <= c.nrep && Program(c.mode.Gets(), first)[im.pc].Copy? && i in im.pending
    ensures ImageWeight(c, first, im.(pending := im.pending - {i})) < ImageWeight(c, first, im)
  {
    hide CopySet;
  }

  lemma NextWaiting(c: Config, first: bool, im: Image)
    ensures Next(c, first, im).waiting == im.waiting
  {
    hide CopySet;
  }

  lemma CheckLowers(c: Config, s: State, first: bool)
    requires s.At(first).pc < 5 && s.At(first).rep <= c.nrep && Program(c.mode.Gets(), first)[s.At(first).pc].Check?
    ensures var im := s.At(first);
            forall ok :: ImageWeight(c, first, Next(c, first, im.(ok := ok))) < ImageWeight(c, first, im)
  {
    hide CopySet, Next;
    var im := s.At(first);
    forall ok ensures ImageWeight(c, first, Next(c, first, im.(ok := ok))) < ImageWeight(c, first, im) {
      NextLowers(c, first, im.(ok := ok), Next(c, first, im.(ok := ok)));
      NextWaiting(c, first, im.(ok := ok));
    }
  }

  lemma SyncLowers(c: Config, first: bool, im: Image)
    requires im.pc < 5 && im.rep <= c.nrep && Program(c.mode.Gets(), first)[im.pc].Sync?
    ensures im.waiting ==> ImageWeight(c, first, Next(c, first, im.(waiting := false))) < ImageWeight(c, first, im)
    ensures !im.waiting ==>
            ImageWeight(c, first, im.(begun := im.begun + 1, waiting := true)) < ImageWeight(c, first, im)
  {
    hide CopySet;
  }

  predicate Done(c: Config, s: State) {
    s.image1.rep > c.nrep && s.image2.rep > c.nrep
  }

  /** One of the images can go on: the one that has begun fewer synchronisations. */
  lemma SomebodyCanStep(c: Config, s: State) returns (first: bool, i: int)
    requires Invariant(c, s) && !Done(c, s)
    ensures CanStep(c, s, first, i)
  {
    hide Turn, Fact, Covered, Pattern;
    first := if s.image2.rep > c.nrep then true else if s.image1.rep > c.nrep then false
             else s.image1.begun <= s.image2.begun;
    i := 0;
    if s.At(first).pending != {} {
      i :| i in s.At(first).pending;
      assert i in CopySet(c);
    }
  }

  /** An image is setting, copying or checking. */
  predicate Works(c: Config, first: bool, im: Image) {
    im.rep <= c.nrep && im.pc < 5 && !Program(c.mode.Gets(), first)[im.pc].Sync?
  }

  /** An image at work sees all that its partner did before the synchronisations that it
      has passed, and its partner cannot have passed any more of them. */
  predicate SeesPartner(worker: Image, partner: Image) {
    partner.begun >= worker.Passed() >= partner.Passed()
  }

  /** No check has failed; the images are never at work at the same time, and each sees
      what the other has done. */
  ghost predicate InTurn(c: Config, s: State) {
    && s.image1.ok && s.image2.ok
    && !(Works(c, true, s.image1) && Works(c, false, s.image2))
    && (Works(c, true, s.image1) ==> SeesPartner(s.image1, s.image2))
    && (Works(c, false, s.image2) ==> SeesPartner(s.image2, s.image1))
  }

  lemma InvariantInTurn(c: Config, s: State)
    requires Invariant(c, s)
    ensures InTurn(c, s)
  {
    hide DataOK, Covered;
    if Works(c, true, s.image1) { WorkIsOnTurn(c, s, true); }
    if Works(c, false, s.image2) { WorkIsOnTurn(c, s, false); }
  }

  /** The arrays that the sequential trial ends with. */
  lemma DoneIsSet(c: Config, s: State)
    requires Invariant(c, s) && Done(c, s) && c.nrep >= 1
    ensures IsSet(s.x1, c.shape, if c.mode.Gets() then c.nrep + 1 else -(c.nrep as int))
    ensures IsSet(s.x2, c.shape, -(c.nrep as int))
  {
    hide Covered, CopySet;
    var n: int := c.nrep;
    if c.mode.Gets() {
      assert s.x2 == Pattern(c, -n) by { NotDeparted(c, s.x2, -n, n + 1); }
    }
  }

  lemma NotDeparted(c: Config, x: seq<int>, v: int, w: int)
    ensures Between(c, x, v, w, CopySet(c)) ==> x == Pattern(c, v)
  {
  }

  lemma {:induction false} RunKeepsInvariant(c: Config, schedule: seq<(bool, int)>, states: seq<State>, k: nat)
    requires c.Valid() && c.nrep >= 1 && IsRun(c, schedule, states) && k < |states|
    ensures Invariant(c, states[k]) && k + Weight(c, states[k]) <= Weight(c, Initial(c))
  {
    hide Invariant, Step, CanStep, Weight, Initial;
    if k == 0 {
      InitialInvariant(c);
    } else {
      RunKeepsInvariant(c, schedule, states, k - 1);
      StepKeepsInvariant(c, states[k - 1], schedule[k - 1].0, schedule[k - 1].1);
      StepLowersWeight(c, states[k - 1], schedule[k - 1].0, schedule[k - 1].1);
    }
  }

  /** In every run, whatever the interleaving and however copies land: the images take
      turns and no check fails; the run is bounded and can only stop with both images
      through with all repetitions, the arrays then being those of the sequential trial. */
  lemma EveryRunTakesTurns(c: Config, schedule: seq<(bool, int)>, states: seq<State>)
    requires c.Valid() && c.nrep >= 1 && IsRun(c, schedule, states)
    ensures |schedule| <= Weight(c, Initial(c))
    ensures forall k :: 0 <= k < |states| ==> InTurn(c, states[k])
    ensures var end := states[|schedule|];
            if Done(c, end) then
              && IsSet(end.x1, c.shape, if c.mode.Gets() then c.nrep + 1 else -(c.nrep as int))
              && IsSet(end.x2, c.shape, -(c.nrep as int))
            else exists first, i :: CanStep(c, end, first, i)
  {
    hide Invariant, Step, CanStep, Weight, Initial, InTurn, IsSet;
    forall k | 0 <= k < |states| ensures InTurn(c, states[k]) {
      RunKeepsInvariant(c, schedule, states, k);
      InvariantInTurn(c, states[k]);
    }
    var end := states[|schedule|];
    RunKeepsInvariant(c, schedule, states, |schedule|);
    if Done(c, end) {
      DoneIsSet(c, end);
    } else {
      var first, i := SomebodyCanStep(c, end);
    }
  }

  /** An image that can step, and any element that can land, may be next in a run. */
  lemma RunGoesOn(c: Config, schedule: seq<(bool, int)>, states: seq<State>, first: bool, i: int)
    requires IsRun(c, schedule, states) && CanStep(c, states[|schedule|], first, i)
    ensures IsRun(c, schedule + [(first, i)], states + [Step(c, states[|schedule|], first, i)])
  {
    hide Step, CanStep, Initial;
  }

  /** Every run can go on until both images are through with all repetitions. */
  lemma {:induction false} EveryRunCanEnd(c: Config, schedule: seq<(bool, int)>, states: seq<State>)
    returns (schedule': seq<(bool, int)>, states': seq<State>)
    requires c.Valid() && c.nrep >= 1 && IsRun(c, schedule, states)
    ensures schedule <= schedule' && states <= states' && IsRun(c, schedule', states') && Done(c, states'[|schedule'|])
    decreases Weight(c, Initial(c)) - |schedule|
  {
    hide Step, CanStep, Weight, Done, InTurn, IsSet, Covered;
    EveryRunTakesTurns(c, schedule, states);
    if Done(c, states[|schedule|]) {
      return schedule, states;
    }
    var first, i :| CanStep(c, states[|schedule|], first, i);
    RunGoesOn(c, schedule, states, first, i);
    schedule', states' := EveryRunCanEnd(c, schedule + [(first, i)], states + [Step(c, states[|schedule|], first, i)]);
  }

  /** The synchronisation of the partner that belongs to the one at pc, in the program. */
  function Matching(gets: bool, first: bool, pc: nat): nat {
    if gets then (if pc == 4 then 4 else if first then 3 else 0)
    else if first then (if pc == 2 then 0 else 4)
    else if pc == 0 then 2 else 3
  }

  /** A synchronisation is passed exactly when the partner has come to the one that
      belongs to it; of a copy's elements any may land next; nothing else is waited for. */
  lemma WaitsForPartner(c: Config, s: State, first: bool, i: int)
    requires Invariant(c, s) && s.At(first).rep <= c.nrep
    ensures var im, other := s.At(first), s.At(!first);
            var pc := Matching(c.mode.Gets(), first, im.pc);
            if im.waiting then
              CanStep(c, s, first, i) <==>
                other.rep > im.rep || (other.rep == im.rep && (other.pc > pc || (other.pc == pc && other.waiting)))
            else CanStep(c, s, first, i) <==> im.pending == {} || i in im.pending
  {
    hide Turn, Fact, Covered, Turns, OnTurn;
  }

  // ---------- The checks that are made ----------

  predicate AtCheck(c: Config, s: State, first: bool) {
    var im := s.At(first);
    im.pc < 5 && Program(c.mode.Gets(), first)[im.pc].Check?
  }

  /** A check counts: it is passed only if every element of every block has the value that
      is due, the repetition's number for image2 and its negative for image1. */
  lemma CheckDecides(c: Config, s: State, first: bool, i: int)
    requires CanStep(c, s, first, i) && AtCheck(c, s, first)
    ensures var x, rep: int := s.X(first), s.At(first).rep;
            var due := if first then -rep else rep;
            Step(c, s, first, i).At(first).ok <==>
              && s.At(first).ok
              && forall j, k :: 0 <= j < |x| && 0 <= k < c.shape.count && c.shape.InBlockNo(k, j) ==> x[j] == due
  {
    var rep, x := s.At(first).rep, s.X(first);
    if forall j, k :: 0 <= j < |x| && 0 <= k < c.shape.count && c.shape.InBlockNo(k, j) ==>
         x[j] == CheckValue(first, rep) {
      forall j | 0 <= j < |x| && c.shape.InBlock(j) ensures x[j] == CheckValue(first, rep) {
        var k :| c.shape.InBlockNo(k, j);
      }
    }
    hide CopySet;
  }

  /** How many checks an image has made in the first k steps. */
  function Checks(c: Config, schedule: seq<(bool, int)>, states: seq<State>, first: bool, k: nat): nat
    requires k <= |schedule| < |states|
  {
    if k == 0 then 0
    else Checks(c, schedule, states, first, k - 1)
         + if schedule[k - 1].0 == first && AtCheck(c, states[k - 1], first) then 1 else 0
  }

  /** Checks of a repetition that lie behind an image at pc. */
  function ChecksBefore(gets: bool, first: bool, pc: nat): nat {
    if (if gets then pc > (if first then 2 else 1) else pc > (if first then 4 else 1)) then 1 else 0
  }

  lemma StepChecks(c: Config, s: State, first: bool, i: int)
    requires Invariant(c, s) && CanStep(c, s, first, i)
    ensures var im, im', gets := s.At(first), Step(c, s, first, i).At(first), c.mode.Gets();
            im'.rep - 1 + ChecksBefore(gets, first, im'.pc) ==
              im.rep - 1 + ChecksBefore(gets, first, im.pc) + (if AtCheck(c, s, first) then 1 else 0)
  {
    hide DataOK, Covered, CopySet, Pattern, BlocksHold, CheckValue, SetValue;
  }

  lemma StepLeavesPartner(c: Config, s: State, first: bool, i: int)
    requires CanStep(c, s, first, i)
    ensures Step(c, s, first, i).At(!first) == s.At(!first)
  {
    hide CopySet, Pattern, BlocksHold, Program, Next;
  }

  lemma {:induction false} ChecksAre(c: Config, schedule: seq<(bool, int)>, states: seq<State>, first: bool, k: nat)
    requires c.Valid() && c.nrep >= 1 && IsRun(c, schedule, states) && k < |states|
    ensures var im := states[k].At(first);
            Checks(c, schedule, states, first, k) == im.rep - 1 + ChecksBefore(c.mode.Gets(), first, im.pc)
  {
    hide Invariant, Step, CanStep, AtCheck, ChecksBefore;
    if k == 0 {
      NoChecksYet(c, first);
    } else {
      ChecksAre(c, schedule, states, first, k - 1);
      RunKeepsInvariant(c, schedule, states, k - 1);
      StepChecks(c, states[k - 1], schedule[k - 1].0, schedule[k - 1].1);
      StepLeavesPartner(c, states[k - 1], schedule[k - 1].0, schedule[k - 1].1);
    }
  }

  lemma NoChecksYet(c: Config, first: bool)
    ensures var im := Initial(c).At(first); im.rep == 1 && ChecksBefore(c.mode.Gets(), first, im.pc) == 0
  {
    hide Pattern, CopySet;
  }

  /** In a complete run each image checks once in every repetition, and synchronises twice. */
  lemma EveryRepetitionChecks(c: Config, schedule: seq<(bool, int)>, states: seq<State>, first: bool)
    requires c.Valid() && c.nrep >= 1 && IsRun(c, schedule, states) && Done(c, states[|schedule|])
    ensures Checks(c, schedule, states, first, |schedule|) == c.nrep
    ensures states[|schedule|].At(first).begun == 2 * c.nrep
  {
    hide Step, CanStep, Initial;
    RunKeepsInvariant(c, schedule, states, |schedule|);
    ChecksAre(c, schedule, states, first, |schedule|);
    hide DataOK, Covered;
  }

  /** All patterns that the sequential run validates can be run here. */
  lemma PatternsAreValid(mode: Mode, max: nat, s: Shape, nrep: nat)
    requires ShapeOK(mode, max, s) && Aligned(mode, s) && !mode.Idle() && !mode.MpiSend?
    ensures Config(mode, s, LocalSize(mode, max, s), nrep).Valid()
  {
    AlignedIsCovered(mode, max, s);
  }
}
