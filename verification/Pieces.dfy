/** A merge task element by element: each comparison, each move and each
    destruction is a step of its own, so that tasks may interleave anywhere. */
module Pieces {
  import opened StableOrder
  import opened Keys
  import opened MergeStep
  import opened MergePlan

  /** Fresh: not started. Searching: binary search for the split, bound in
      [first, first + len]. Moving: serial_move_merge has moved [xs, i) and [ys, j).
      Destroying: serial_destroy still has [xs, xd) and [ys, yd) to do. */
  datatype Phase = Fresh | Searching(first: nat, len: nat) | Moving(i: nat, j: nat) | Destroying(xd: nat, yd: nat)

  /** A merge of src[xs..xe) and src[ys..ye) into dst[zs..). */
  datatype Piece = Piece(xs: nat, xe: nat, ys: nat, ye: nat, zs: nat, destroy: bool, phase: Phase) {
    function Size(): nat
      requires Range().Valid()
    {
      (xe - xs) + (ye - ys)
    }
    function Range(): Cursor {
      Start(xs, xe, ys, ye, zs)
    }
    /** Split y in the middle and search in x (with upper_bound), or the reverse? */
    predicate Upper() {
      xe - xs < ye - ys
    }
    function Pivot(): nat
      requires Range().Valid()
    {
      if Upper() then ys + (ye - ys) / 2 else xs + (xe - xs) / 2
    }
    predicate Reads(k: int) {
      xs <= k < xe || ys <= k < ye
    }
    predicate Writes(k: int) {
      zs <= k < zs + (xe - xs) + (ye - ys)
    }
    function XM(): nat
      requires Range().Valid() && phase.Searching?
    {
      if Upper() then phase.first else Pivot()
    }
    function YM(): nat
      requires Range().Valid() && phase.Searching?
    {
      if Upper() then Pivot() else phase.first
    }
    function Gone<T>(): Slot<T> {
      if destroy then Raw else Empty
    }
    /** The task has nothing left to do. */
    predicate Done() {
      || (phase.Moving? && phase.i == xe && phase.j == ye && !destroy)
      || (phase.Destroying? && phase.xd == xs && phase.yd == ys)
    }
    /** The search is over: the task divides itself. */
    predicate Splits() {
      phase.Searching? && phase.len == 0
    }
  }

  function Left(p: Piece): Piece
    requires p.Range().Valid() && p.phase.Searching?
  {
    p.(xe := p.XM(), ye := p.YM(), phase := Fresh)
  }

  function Right(p: Piece): Piece
    requires p.Range().Valid() && p.phase.Searching?
    requires p.xs <= p.XM() && p.ys <= p.YM()
  {
    p.(xs := p.XM(), ys := p.YM(), zs := p.zs + (p.XM() - p.xs) + (p.YM() - p.ys), phase := Fresh)
  }

  /** What the next step of a piece demands of the slots it touches: only live keys
      are compared, only constructed slots are moved, assigned or destroyed. */
  predicate Safe<T>(p: Piece, src: seq<Slot<T>>, dst: seq<Slot<T>>) {
    && p.Range().Valid() && p.xe <= |src| && p.ye <= |src| && p.Range().End() <= |dst|
    && match p.phase
       case Fresh => true
       case Searching(first, len) =>
         && (if p.Upper() then p.xs <= first && first + len <= p.xe else p.ys <= first && first + len <= p.ye)
         && (len > 0 ==> p.Pivot() < |src| && src[p.Pivot()].Live? && src[first + len / 2].Live?)
       case Moving(i, j) =>
         && p.xs <= i <= p.xe && p.ys <= j <= p.ye
         && (i < p.xe && j < p.ye ==> src[i].Live? && src[j].Live?)
         && (i < p.xe ==> src[i].Constructed()) && (j < p.ye ==> src[j].Constructed())
         && (i < p.xe || j < p.ye ==> dst[p.zs + (i - p.xs) + (j - p.ys)].Constructed())
       case Destroying(xd, yd) =>
         && p.xs <= xd <= p.xe && p.ys <= yd <= p.ye
         && (xd > p.xs ==> src[xd - 1].Constructed()) && (yd > p.ys ==> src[yd - 1].Constructed())
  }

  /** The first step: a small merge is done serially, a large one looks for its split. */
  function Begin(p: Piece): Piece
    requires p.Range().Valid()
  {
    if p.Size() <= MERGE_CUT_OFF then p.(phase := Moving(p.xs, p.ys))
    else if p.Upper() then p.(phase := Searching(p.xs, p.xe - p.xs))
    else p.(phase := Searching(p.ys, p.ye - p.ys))
  }

  /** One step of a piece that is neither done nor about to split. */
  function Advance<T>(lt: (T, T) -> bool, p: Piece, src: seq<Slot<T>>, dst: seq<Slot<T>>)
    : (Piece, seq<Slot<T>>, seq<Slot<T>>)
    requires Safe(p, src, dst) && !p.Done() && !p.Splits()
  {
    match p.phase
    case Fresh => (Begin(p), src, dst)
    case Searching(first, len) =>
      var half := len / 2;
      if Before(lt, p.Upper(), src[first + half].key, src[p.Pivot()].key)
      then (p.(phase := Searching(first + half + 1, len - half - 1)), src, dst)
      else (p.(phase := Searching(first, half)), src, dst)
    case Moving(i, j) =>
      var o := p.zs + (i - p.xs) + (j - p.ys);
      if i == p.xe && j == p.ye then (p.(phase := Destroying(p.xe, p.ye)), src, dst)
      else if j < p.ye && (i == p.xe || lt(src[j].key, src[i].key))
      then (p.(phase := Moving(i, j + 1)), src[j := Empty], dst[o := src[j]])
      else (p.(phase := Moving(i + 1, j)), src[i := Empty], dst[o := src[i]])
    case Destroying(xd, yd) =>
      if xd > p.xs then (p.(phase := Destroying(xd - 1, yd)), src[xd - 1 := Raw], dst)
      else (p.(phase := Destroying(xd, yd - 1)), src[yd - 1 := Raw], dst)
  }

  /** What a step does to lifetimes: it leaves all slots alone, or moves one constructed slot
      of its inputs over another one of its output, or destroys a constructed slot. */
  lemma AdvanceLifetimes<T>(lt: (T, T) -> bool, p: Piece, src: seq<Slot<T>>, dst: seq<Slot<T>>)
    requires Safe(p, src, dst) && !p.Done() && !p.Splits()
    ensures var (p', src', dst') := Advance(lt, p, src, dst);
            match p.phase
            case Fresh => src' == src && dst' == dst
            case Searching(_, _) => src' == src && dst' == dst
            case Moving(_, _) =>
              || (p'.phase.Destroying? && src' == src && dst' == dst)
              || exists k: nat, o: nat ::
                   MovesSlot(p, src, dst, k, o) && src' == src[k := Empty] && dst' == dst[o := src[k]]
            case Destroying(_, _) => dst' == dst && exists k: nat :: DestroysSlot(p, src, k) && src' == src[k := Raw]
  {
    match p.phase
    case Fresh =>
    case Searching(_, _) =>
    case Moving(i, j) =>
      var o := p.zs + (i - p.xs) + (j - p.ys);
      if i < p.xe || j < p.ye {
        var k := if j < p.ye && (i == p.xe || lt(src[j].key, src[i].key)) then j else i;
        assert MovesSlot(p, src, dst, k, o);
      }
    case Destroying(xd, yd) =>
      var k := if xd > p.xs then xd - 1 else yd - 1;
      assert DestroysSlot(p, src, k);
  }

  predicate MovesSlot<T>(p: Piece, src: seq<Slot<T>>, dst: seq<Slot<T>>, k: nat, o: nat) {
    k < |src| && o < |dst| && p.Reads(k) && p.Writes(o) && !src[k].Raw? && !dst[o].Raw?
  }

  predicate DestroysSlot<T>(p: Piece, src: seq<Slot<T>>, k: nat) {
    k < |src| && p.Reads(k) && !src[k].Raw?
  }

  // ---------- What a piece is for ----------

  /** base: the keys the inputs held when the merge began, by position; out: the
      keys the output is to hold, by position. */
  ghost predicate Assigned<T>(lt: (T, T) -> bool, p: Piece, base: seq<T>, out: seq<T>) {
    && p.Range().Valid() && p.xe <= |base| && p.ye <= |base| && p.Range().End() <= |out|
    && Sorted(lt, base[p.xs..p.xe]) && Sorted(lt, base[p.ys..p.ye])
    && Merge(lt, base[p.xs..p.xe], base[p.ys..p.ye]) == out[p.zs..p.Range().End()]
  }

  /** The binary search for the split has come to [first, first + len]. */
  ghost predicate Searched<T>(lt: (T, T) -> bool, p: Piece, first: nat, len: nat, base: seq<T>)
    requires p.Range().Valid() && p.xe <= |base| && p.ye <= |base|
  {
    && p.Size() > MERGE_CUT_OFF
    && if p.Upper() then p.xs <= first && Narrowed(lt, true, base[p.xs..p.xe], base[p.Pivot()], first - p.xs, len)
       else p.ys <= first && Narrowed(lt, false, base[p.ys..p.ye], base[p.Pivot()], first - p.ys, len)
  }

  /** The slots of a piece are as its phase says. */
  ghost predicate InPhase<T>(lt: (T, T) -> bool, p: Piece, src: seq<Slot<T>>, dst: seq<Slot<T>>, base: seq<T>)
    requires p.Range().Valid() && p.xe <= |base| && p.ye <= |base|
  {
    var x, y := base[p.xs..p.xe], base[p.ys..p.ye];
    match p.phase
    case Fresh => Merging(lt, src, dst, p.Range(), x, y, Empty)
    case Searching(first, len) =>
      Merging(lt, src, dst, p.Range(), x, y, Empty) && Searched(lt, p, first, len, base)
    case Moving(i, j) =>
      && p.Size() <= MERGE_CUT_OFF
      && Merging(lt, src, dst, Cursor(p.xs, i, p.xe, p.ys, j, p.ye, p.zs), x, y, Empty)
    case Destroying(xd, yd) =>
      && p.Size() <= MERGE_CUT_OFF
      && p.destroy && p.xs <= xd <= p.xe && p.ys <= yd <= p.ye && (yd < p.ye ==> xd == p.xs)
      && AllAre(src, p.xs, xd, Empty) && AllAre(src, xd, p.xe, Raw)
      && AllAre(src, p.ys, yd, Empty) && AllAre(src, yd, p.ye, Raw)
      && Holds(dst, p.zs, Merge(lt, x, y))
  }

  ghost predicate OnTrack<T>(lt: (T, T) -> bool, p: Piece, src: seq<Slot<T>>, dst: seq<Slot<T>>, base: seq<T>,
                             out: seq<T>)
  {
    Assigned(lt, p, base, out) && InPhase(lt, p, src, dst, base)
  }

  /** Only the slots of a piece matter to it. */
  lemma OthersMayMove<T>(lt: (T, T) -> bool, p: Piece, src: seq<Slot<T>>, src': seq<Slot<T>>,
                         dst: seq<Slot<T>>, dst': seq<Slot<T>>, base: seq<T>, out: seq<T>)
    requires OnTrack(lt, p, src, dst, base, out) && |src'| == |src| && |dst'| == |dst|
    requires forall k :: 0 <= k < |src| && p.Reads(k) ==> src'[k] == src[k]
    requires forall k :: 0 <= k < |dst| && p.Writes(k) ==> dst'[k] == dst[k]
    ensures OnTrack(lt, p, src', dst', base, out)
  {
    hide Merge, Sorted, Rest, Narrowed;
  }

  lemma OnTrackIsSafe<T>(lt: (T, T) -> bool, p: Piece, src: seq<Slot<T>>, dst: seq<Slot<T>>, base: seq<T>, out: seq<T>)
    requires OnTrack(lt, p, src, dst, base, out)
    ensures Safe(p, src, dst)
  {
    hide Merge, Sorted, Rest;
    match p.phase
    case Fresh =>
    case Searching(_, _) => SearchIsSafe(lt, p, src, dst, base, out);
    case Moving(_, _) => MoveIsSafe(lt, p, src, dst, base, out);
    case Destroying(_, _) =>
  }

  lemma SearchIsSafe<T>(lt: (T, T) -> bool, p: Piece, src: seq<Slot<T>>, dst: seq<Slot<T>>, base: seq<T>, out: seq<T>)
    requires OnTrack(lt, p, src, dst, base, out) && p.phase.Searching?
    ensures Safe(p, src, dst)
  {
    hide Merge, Sorted, Rest, Output;
    MergingShape(lt, src, dst, p.Range(), base[p.xs..p.xe], base[p.ys..p.ye], Empty);
  }

  lemma MoveIsSafe<T>(lt: (T, T) -> bool, p: Piece, src: seq<Slot<T>>, dst: seq<Slot<T>>, base: seq<T>, out: seq<T>)
    requires OnTrack(lt, p, src, dst, base, out) && p.phase.Moving?
    ensures Safe(p, src, dst)
  {
    hide Merge, Sorted, Rest;
  }

  /** A finished piece leaves its share of the output and its inputs used up. */
  lemma DoneIsMerged<T>(lt: (T, T) -> bool, p: Piece, src: seq<Slot<T>>, dst: seq<Slot<T>>, base: seq<T>, out: seq<T>)
    requires OnTrack(lt, p, src, dst, base, out) && p.Done()
    ensures forall k :: p.Reads(k) ==> 0 <= k < |src| && src[k] == p.Gone()
    ensures forall k :: p.Writes(k) ==> 0 <= k < |dst| && dst[k] == Live(out[k])
  {
    hide Merge, Sorted, Rest;
  }

  /** Only the slots of the piece that steps may change. */
  ghost predicate OnlyOwn<T>(p: Piece, src: seq<Slot<T>>, src': seq<Slot<T>>, dst: seq<Slot<T>>, dst': seq<Slot<T>>) {
    && |src'| == |src| && |dst'| == |dst|
    && (forall k :: 0 <= k < |src| && !p.Reads(k) ==> src'[k] == src[k])
    && (forall k :: 0 <= k < |dst| && !p.Writes(k) ==> dst'[k] == dst[k])
  }

  lemma AdvanceOnlyOwn<T>(lt: (T, T) -> bool, p: Piece, src: seq<Slot<T>>, dst: seq<Slot<T>>)
    requires Safe(p, src, dst) && !p.Done() && !p.Splits()
    ensures var (p', src', dst') := Advance(lt, p, src, dst);
            p' == p.(phase := p'.phase) && OnlyOwn(p, src, src', dst, dst')
  {
  }

  lemma BeginKeeps<T>(lt: (T, T) -> bool, p: Piece, src: seq<Slot<T>>, dst: seq<Slot<T>>, base: seq<T>, out: seq<T>)
    requires p.Range().Valid() && p.phase.Fresh? && OnTrack(lt, p, src, dst, base, out)
    ensures OnTrack(lt, Begin(p), src, dst, base, out)
  {
    hide Merge, Sorted, Rest;
  }

  lemma Untouched<T>(lt: (T, T) -> bool, p: Piece, src: seq<Slot<T>>, dst: seq<Slot<T>>, base: seq<T>, out: seq<T>,
                     k: nat)
    requires (p.phase.Fresh? || p.phase.Searching?) && OnTrack(lt, p, src, dst, base, out) && p.Reads(k)
    ensures k < |src| && src[k] == Live(base[k])
  {
    hide Merge, Sorted, Rest, Narrowed, Output;
  }

  lemma SearchOn<T>(lt: (T, T) -> bool, p: Piece, first: nat, len: nat,
                    src: seq<Slot<T>>, dst: seq<Slot<T>>, base: seq<T>, out: seq<T>)
    requires p.Range().Valid() && p.xe <= |base| && p.ye <= |base| && Searched(lt, p, first, len, base)
    requires p.phase.Searching? && OnTrack(lt, p, src, dst, base, out)
    ensures OnTrack(lt, p.(phase := Searching(first, len)), src, dst, base, out)
  {
    hide Merge, Merging, Sorted, Narrowed;
  }

  /** A comparison narrows the search, whichever way it goes. */
  lemma SearchNarrows<T(!new)>(lt: (T, T) -> bool, p: Piece, first: nat, len: nat,
                               src: seq<Slot<T>>, dst: seq<Slot<T>>, base: seq<T>, out: seq<T>)
    requires StrictWeak(lt) && OnTrack(lt, p, src, dst, base, out) && Safe(p, src, dst)
    requires p.phase == Searching(first, len) && len > 0
    ensures p.Range().Valid() && p.xe <= |base| && p.ye <= |base| && p.Pivot() < |base| && first + len / 2 < |base|
    ensures src[first + len / 2] == Live(base[first + len / 2]) && src[p.Pivot()] == Live(base[p.Pivot()])
    ensures if Before(lt, p.Upper(), base[first + len / 2], base[p.Pivot()])
            then Searched(lt, p, first + len / 2 + 1, len - len / 2 - 1, base)
            else Searched(lt, p, first, len / 2, base)
  {
    hide OnTrack, Sorted, Narrowed;
    var lo, hi := if p.Upper() then p.xs else p.ys, if p.Upper() then p.xe else p.ye;
    SearchBounds(lt, p, src, dst, base, out);
    Untouched(lt, p, src, dst, base, out, first + len / 2);
    Untouched(lt, p, src, dst, base, out, p.Pivot());
    Narrow(lt, p.Upper(), base[lo..hi], base[p.Pivot()], first - lo, len, first + len / 2 - lo);
  }

  lemma SearchKeeps<T(!new)>(lt: (T, T) -> bool, p: Piece, src: seq<Slot<T>>, dst: seq<Slot<T>>, base: seq<T>,
                      out: seq<T>)
    requires StrictWeak(lt) && p.phase.Searching? && !p.Splits() && OnTrack(lt, p, src, dst, base, out)
    requires Safe(p, src, dst)
    ensures OnTrack(lt, Advance(lt, p, src, dst).0, src, dst, base, out)
  {
    hide OnTrack, Searched, StrictWeak;
    var Searching(first, len) := p.phase;
    SearchNarrows(lt, p, first, len, src, dst, base, out);
    if Before(lt, p.Upper(), base[first + len / 2], base[p.Pivot()]) {
      SearchOn(lt, p, first + len / 2 + 1, len - len / 2 - 1, src, dst, base, out);
    } else {
      SearchOn(lt, p, first, len / 2, src, dst, base, out);
    }
  }

  lemma SearchBounds<T>(lt: (T, T) -> bool, p: Piece, src: seq<Slot<T>>, dst: seq<Slot<T>>, base: seq<T>, out: seq<T>)
    requires p.phase.Searching? && OnTrack(lt, p, src, dst, base, out)
    ensures p.Range().Valid() && p.xe <= |base| && p.ye <= |base| && p.Pivot() < |base| && p.Size() > MERGE_CUT_OFF
    ensures var lo, hi := if p.Upper() then p.xs else p.ys, if p.Upper() then p.xe else p.ye;
            && lo <= p.phase.first && Sorted(lt, base[lo..hi])
            && Narrowed(lt, p.Upper(), base[lo..hi], base[p.Pivot()], p.phase.first - lo, p.phase.len)
  {
    hide Merge, Merging, Sorted, Narrowed;
  }

  lemma MovingOnTrack<T>(lt: (T, T) -> bool, p: Piece, i: nat, j: nat, src: seq<Slot<T>>, dst: seq<Slot<T>>,
                         base: seq<T>, out: seq<T>)
    requires Assigned(lt, p, base, out) && p.Size() <= MERGE_CUT_OFF
    requires Merging(lt, src, dst, Cursor(p.xs, i, p.xe, p.ys, j, p.ye, p.zs),
                     base[p.xs..p.xe], base[p.ys..p.ye], Empty)
    ensures OnTrack(lt, p.(phase := Moving(i, j)), src, dst, base, out)
  {
    hide Merge, Sorted, Merging;
  }

  lemma MovingIs<T>(lt: (T, T) -> bool, p: Piece, src: seq<Slot<T>>, dst: seq<Slot<T>>, base: seq<T>, out: seq<T>)
    requires p.phase.Moving? && OnTrack(lt, p, src, dst, base, out)
    ensures Assigned(lt, p, base, out) && p.Size() <= MERGE_CUT_OFF
    ensures Merging(lt, src, dst, Cursor(p.xs, p.phase.i, p.xe, p.ys, p.phase.j, p.ye, p.zs),
                    base[p.xs..p.xe], base[p.ys..p.ye], Empty)
  {
    hide Merge, Sorted, Merging;
  }

  lemma MoveKeeps<T>(lt: (T, T) -> bool, p: Piece, src: seq<Slot<T>>, dst: seq<Slot<T>>, base: seq<T>, out: seq<T>)
    requires p.phase.Moving? && !p.Done() && OnTrack(lt, p, src, dst, base, out) && Safe(p, src, dst)
    ensures var (p', src', dst') := Advance(lt, p, src, dst); OnTrack(lt, p', src', dst', base, out)
  {
    hide OnTrack, Assigned, Merging;
    MovingIs(lt, p, src, dst, base, out);
    PieceInBase(lt, p, base, out);
    var Moving(i, j) := p.phase;
    var c, x, y := Cursor(p.xs, i, p.xe, p.ys, j, p.ye, p.zs), base[p.xs..p.xe], base[p.ys..p.ye];
    if i == p.xe && j == p.ye {
      DestroyingStarts(lt, p, src, dst, base, out);
    } else if j < p.ye && (i == p.xe || lt(src[j].key, src[i].key)) {
      TakeY(lt, src, dst, c, x, y);
      MovingOnTrack(lt, p, i, j + 1, src[j := Empty], dst[c.Out() := src[j]], base, out);
    } else {
      TakeX(lt, src, dst, c, x, y);
      MovingOnTrack(lt, p, i + 1, j, src[i := Empty], dst[c.Out() := src[i]], base, out);
    }
  }

  lemma PieceInBase<T>(lt: (T, T) -> bool, p: Piece, base: seq<T>, out: seq<T>)
    requires Assigned(lt, p, base, out)
    ensures p.Range().Valid() && p.xe <= |base| && p.ye <= |base|
  {
  }

  lemma DestroyingStarts<T>(lt: (T, T) -> bool, p: Piece, src: seq<Slot<T>>, dst: seq<Slot<T>>, base: seq<T>,
                            out: seq<T>)
    requires Assigned(lt, p, base, out) && p.Size() <= MERGE_CUT_OFF && p.destroy
    requires Merging(lt, src, dst, Cursor(p.xs, p.xe, p.xe, p.ys, p.ye, p.ye, p.zs), base[p.xs..p.xe],
                     base[p.ys..p.ye], Empty)
    ensures OnTrack(lt, p.(phase := Destroying(p.xe, p.ye)), src, dst, base, out)
  {
    hide Merge, Sorted, Rest;
    MergingEnds(lt, src, dst, Cursor(p.xs, p.xe, p.xe, p.ys, p.ye, p.ye, p.zs), base[p.xs..p.xe],
                base[p.ys..p.ye], Empty);
  }

  lemma DestroyKeeps<T>(lt: (T, T) -> bool, p: Piece, src: seq<Slot<T>>, dst: seq<Slot<T>>, base: seq<T>, out: seq<T>)
    requires p.phase.Destroying? && !p.Done() && OnTrack(lt, p, src, dst, base, out) && Safe(p, src, dst)
    ensures var (p', src', dst') := Advance(lt, p, src, dst); OnTrack(lt, p', src', dst', base, out)
  {
    hide Merge, Sorted;
  }

  /** Every step of a piece keeps it on track. */
  lemma AdvanceKeeps<T(!new)>(lt: (T, T) -> bool, p: Piece, src: seq<Slot<T>>, dst: seq<Slot<T>>, base: seq<T>,
                       out: seq<T>)
    requires StrictWeak(lt) && OnTrack(lt, p, src, dst, base, out) && Safe(p, src, dst) && !p.Done() && !p.Splits()
    ensures var (p', src', dst') := Advance(lt, p, src, dst); OnTrack(lt, p', src', dst', base, out)
  {
    hide OnTrack;
    match p.phase
    case Fresh => BeginKeeps(lt, p, src, dst, base, out);
    case Searching(_, _) => SearchKeeps(lt, p, src, dst, base, out);
    case Moving(_, _) => MoveKeeps(lt, p, src, dst, base, out);
    case Destroying(_, _) => DestroyKeeps(lt, p, src, dst, base, out);
  }

  /** A split deals the slots of a piece out to its two parts, and both are proper. */
  lemma SplitShares(p: Piece)
    requires p.Range().Valid() && p.phase.Searching? && p.Size() > MERGE_CUT_OFF
    requires p.xs <= p.XM() <= p.xe && p.ys <= p.YM() <= p.ye
    ensures Left(p).Range().Valid() && Right(p).Range().Valid()
    ensures Left(p).Size() > 0 && Right(p).Size() > 0 && Left(p).Size() + Right(p).Size() == p.Size()
    ensures forall k :: p.Reads(k) <==> Left(p).Reads(k) || Right(p).Reads(k)
    ensures forall k :: p.Writes(k) <==> Left(p).Writes(k) || Right(p).Writes(k)
    ensures forall k :: !(Left(p).Reads(k) && Right(p).Reads(k)) && !(Left(p).Writes(k) && Right(p).Writes(k))
  {
  }

  lemma SplitAssigned<T>(lt: (T, T) -> bool, p: Piece, base: seq<T>, out: seq<T>)
    requires p.Range().Valid() && Assigned(lt, p, base, out) && p.Splits()
    requires p.xs <= p.XM() <= p.xe && p.ys <= p.YM() <= p.ye
    requires IsCut(lt, base[p.xs..p.xe], base[p.ys..p.ye], p.XM() - p.xs, p.YM() - p.ys)
    ensures Assigned(lt, Left(p), base, out) && Assigned(lt, Right(p), base, out)
  {
    hide Assigned, IsCut, Sorted, Merge;
    LeftAssigned(lt, p, p.XM(), p.YM(), base, out);
    RightAssigned(lt, p, p.XM(), p.YM(), base, out);
  }

  lemma LeftAssigned<T>(lt: (T, T) -> bool, p: Piece, xm: nat, ym: nat, base: seq<T>, out: seq<T>)
    requires Assigned(lt, p, base, out) && p.xs <= xm <= p.xe && p.ys <= ym <= p.ye
    requires IsCut(lt, base[p.xs..p.xe], base[p.ys..p.ye], xm - p.xs, ym - p.ys)
    ensures Assigned(lt, p.(xe := xm, ye := ym, phase := Fresh), base, out)
  {
    hide Merge, Sorted, IsCut;
    SplitSlices(lt, base, p.xs, xm, p.xe, p.ys, ym, p.ye, out, p.zs, p.Range().End());
  }

  lemma RightAssigned<T>(lt: (T, T) -> bool, p: Piece, xm: nat, ym: nat, base: seq<T>, out: seq<T>)
    requires Assigned(lt, p, base, out) && p.xs <= xm <= p.xe && p.ys <= ym <= p.ye
    requires IsCut(lt, base[p.xs..p.xe], base[p.ys..p.ye], xm - p.xs, ym - p.ys)
    ensures Assigned(lt, p.(xs := xm, ys := ym, zs := p.zs + (xm - p.xs) + (ym - p.ys), phase := Fresh), base, out)
  {
    hide Merge, Sorted, IsCut;
    SplitSlices(lt, base, p.xs, xm, p.xe, p.ys, ym, p.ye, out, p.zs, p.Range().End());
  }

  /** The two sides of a cut, as stretches of the keys and of the result. */
  lemma SplitSlices<T>(lt: (T, T) -> bool, base: seq<T>, xs: nat, xm: nat, xe: nat, ys: nat, ym: nat, ye: nat,
                       out: seq<T>, zs: nat, ze: nat)
    requires xs <= xm <= xe <= |base| && ys <= ym <= ye <= |base| && zs <= ze <= |out|
    requires Sorted(lt, base[xs..xe]) && Sorted(lt, base[ys..ye])
    requires Merge(lt, base[xs..xe], base[ys..ye]) == out[zs..ze]
    requires IsCut(lt, base[xs..xe], base[ys..ye], xm - xs, ym - ys)
    ensures var zm := zs + (xm - xs) + (ym - ys);
            && zm <= ze
            && Merge(lt, base[xs..xm], base[ys..ym]) == out[zs..zm]
            && Merge(lt, base[xm..xe], base[ym..ye]) == out[zm..ze]
    ensures Sorted(lt, base[xs..xm]) && Sorted(lt, base[xm..xe]) && Sorted(lt, base[ys..ym]) && Sorted(lt, base[ym..ye])
  {
    hide Merge, Sorted, IsCut;
    SplitOut(lt, base[xs..xe], base[ys..ye], xm - xs, ym - ys, out, zs, ze);
    SortedParts(lt, base, xs, xe, xm - xs);
    SortedParts(lt, base, ys, ye, ym - ys);
    SliceParts(base, xs, xe, xm - xs);
    SliceParts(base, ys, ye, ym - ys);
  }

  lemma SplitOut<T>(lt: (T, T) -> bool, x: seq<T>, y: seq<T>, i: nat, j: nat, out: seq<T>, zs: nat, ze: nat)
    requires IsCut(lt, x, y, i, j) && zs <= ze <= |out| && Merge(lt, x, y) == out[zs..ze]
    ensures zs + i + j <= ze && Merge(lt, x[..i], y[..j]) == out[zs..zs + i + j]
    ensures Merge(lt, x[i..], y[j..]) == out[zs + i + j..ze]
  {
    hide Merge;
    MergeSplits(lt, x, y, i, j);
    var l, r := Merge(lt, x[..i], y[..j]), Merge(lt, x[i..], y[j..]);
    assert |out[zs..ze]| == |l| + |r|;
    SliceParts(out, zs, ze, i + j);
    assert (l + r)[..i + j] == l && (l + r)[i + j..] == r;
  }

  lemma SliceParts<T>(s: seq<T>, a: nat, b: nat, i: nat)
    requires a <= b <= |s| && i <= b - a
    ensures s[a..b][..i] == s[a..a + i] && s[a..b][i..] == s[a + i..b]
  {
  }

  lemma SortedParts<T>(lt: (T, T) -> bool, s: seq<T>, a: nat, b: nat, i: nat)
    requires a <= b <= |s| && i <= b - a && Sorted(lt, s[a..b])
    ensures Sorted(lt, s[a..a + i]) && Sorted(lt, s[a + i..b])
  {
    SortedSlice(lt, s[a..b], 0, i);
    SortedSlice(lt, s[a..b], i, b - a);
    assert s[a..b][0..i] == s[a..a + i] && s[a..b][i..b - a] == s[a + i..b];
  }

  lemma PivotInside(p: Piece)
    requires p.Range().Valid() && p.Size() > 0
    ensures if p.Upper() then p.ys <= p.Pivot() < p.ye else p.xs <= p.Pivot() < p.xe
  {
  }

  lemma SearchIsOver<T>(lt: (T, T) -> bool, p: Piece, src: seq<Slot<T>>, dst: seq<Slot<T>>, base: seq<T>, out: seq<T>)
    requires OnTrack(lt, p, src, dst, base, out) && p.Splits()
    ensures p.Range().Valid() && p.xe <= |base| && p.ye <= |base| && p.Size() > MERGE_CUT_OFF
    ensures Sorted(lt, base[p.xs..p.xe]) && Sorted(lt, base[p.ys..p.ye])
    ensures var first := p.phase.first;
            if p.Upper() then p.xs <= first && Narrowed(lt, true, base[p.xs..p.xe], base[p.Pivot()], first - p.xs, 0)
            else p.ys <= first && Narrowed(lt, false, base[p.ys..p.ye], base[p.Pivot()], first - p.ys, 0)
  {
    hide Merge, Merging, Sorted, Narrowed;
  }

  /** The search has found the bound of the pivot, which is a cut. */
  lemma BoundIsCut<T(!new)>(lt: (T, T) -> bool, p: Piece, base: seq<T>)
    requires StrictWeak(lt) && p.Splits() && p.Range().Valid() && p.xe <= |base| && p.ye <= |base| && p.Size() > 0
    requires Sorted(lt, base[p.xs..p.xe]) && Sorted(lt, base[p.ys..p.ye])
    requires var first := p.phase.first;
             if p.Upper() then p.xs <= first && Narrowed(lt, true, base[p.xs..p.xe], base[p.Pivot()], first - p.xs, 0)
             else p.ys <= first && Narrowed(lt, false, base[p.ys..p.ye], base[p.Pivot()], first - p.ys, 0)
    ensures p.xs <= p.XM() <= p.xe && p.ys <= p.YM() <= p.ye
    ensures IsCut(lt, base[p.xs..p.xe], base[p.ys..p.ye], p.XM() - p.xs, p.YM() - p.ys)
  {
    PivotInside(p);
    hide Sorted, IsCut, Narrowed, Piece.Pivot, StrictWeak;
    var x, y, i, j := base[p.xs..p.xe], base[p.ys..p.ye], p.XM() - p.xs, p.YM() - p.ys;
    BoundCuts(lt, x, y, i, j, p.Upper());
    CutInside(lt, x, y, i, j);
  }

  lemma SearchFindsCut<T(!new)>(lt: (T, T) -> bool, p: Piece, src: seq<Slot<T>>, dst: seq<Slot<T>>, base: seq<T>,
                         out: seq<T>)
    requires StrictWeak(lt) && OnTrack(lt, p, src, dst, base, out) && p.Splits()
    ensures p.Size() > MERGE_CUT_OFF && p.xs <= p.XM() <= p.xe && p.ys <= p.YM() <= p.ye
    ensures IsCut(lt, base[p.xs..p.xe], base[p.ys..p.ye], p.XM() - p.xs, p.YM() - p.ys)
  {
    hide OnTrack, Sorted, IsCut, Narrowed, Piece.Pivot, StrictWeak;
    SearchIsOver(lt, p, src, dst, base, out);
    BoundIsCut(lt, p, base);
  }

  /** Where a piece divides, and where it does not: up to 2000 elements it is merged
      serially; above, the longer input is split in the middle (x on a tie), the other
      where the middle element belongs, and neither part has more than three quarters. The
      first input is destroyed before the second. */
  ghost predicate CutWell<T>(lt: (T, T) -> bool, p: Piece, src: seq<Slot<T>>) {
    && p.Range().Valid() && p.xe <= |src| && p.ye <= |src|
    && (p.phase.Moving? || p.phase.Destroying? ==> p.Size() <= 2000)
    && (p.phase.Searching? ==> p.Size() > 2000)
    && (p.phase.Destroying? && p.phase.yd < p.ye ==> p.phase.xd == p.xs)
    && (p.Splits() ==>
          && p.xs <= p.XM() <= p.xe && p.ys <= p.YM() <= p.ye && AllLive(src, p.xs, p.xe) && AllLive(src, p.ys, p.ye)
          && SplitAt(lt, KeysIn(src, p.xs, p.xe), KeysIn(src, p.ys, p.ye), Left(p).xe - p.xs, Left(p).ye - p.ys)
          && Right(p).xs == Left(p).xe && Right(p).ys == Left(p).ye
          && 4 * Left(p).Size() <= 3 * p.Size() + 3 && 4 * Right(p).Size() <= 3 * p.Size() + 3)
  }

  lemma SplitIsChosen<T(!new)>(lt: (T, T) -> bool, p: Piece, src: seq<Slot<T>>, dst: seq<Slot<T>>, base: seq<T>,
                               out: seq<T>)
    requires StrictWeak(lt) && OnTrack(lt, p, src, dst, base, out) && p.Splits()
    ensures p.Size() > MERGE_CUT_OFF && p.xs <= p.XM() <= p.xe && p.ys <= p.YM() <= p.ye
    ensures SplitAt(lt, base[p.xs..p.xe], base[p.ys..p.ye], p.XM() - p.xs, p.YM() - p.ys)
  {
    hide OnTrack, Sorted, Narrowed, SplitAt, Piece.Pivot, StrictWeak;
    SearchIsOver(lt, p, src, dst, base, out);
    BoundIsCut(lt, p, base);
    BoundIsSplit(lt, p, base);
  }

  lemma BoundIsSplit<T>(lt: (T, T) -> bool, p: Piece, base: seq<T>)
    requires p.Splits() && p.Range().Valid() && p.xe <= |base| && p.ye <= |base| && p.Size() > 0
    requires var first := p.phase.first;
             if p.Upper() then p.xs <= first && Narrowed(lt, true, base[p.xs..p.xe], base[p.Pivot()], first - p.xs, 0)
             else p.ys <= first && Narrowed(lt, false, base[p.ys..p.ye], base[p.Pivot()], first - p.ys, 0)
    requires p.xs <= p.XM() <= p.xe && p.ys <= p.YM() <= p.ye
    ensures SplitAt(lt, base[p.xs..p.xe], base[p.ys..p.ye], p.XM() - p.xs, p.YM() - p.ys)
  {
    hide Narrowed;
    PivotInside(p);
    var x, y := base[p.xs..p.xe], base[p.ys..p.ye];
    if p.Upper() {
      assert y[|y| / 2] == base[p.Pivot()];
    } else {
      assert x[|x| / 2] == base[p.Pivot()];
    }
  }

  lemma OnTrackIsCutWell<T(!new)>(lt: (T, T) -> bool, p: Piece, src: seq<Slot<T>>, dst: seq<Slot<T>>, base: seq<T>,
                                  out: seq<T>)
    requires StrictWeak(lt) && OnTrack(lt, p, src, dst, base, out)
    ensures CutWell(lt, p, src)
  {
    hide OnTrack, SplitAt, AllLive, KeysIn, StrictWeak, Piece.Pivot;
    PieceShape(lt, p, src, dst, base, out);
    if p.Splits() {
      SplitIsChosen(lt, p, src, dst, base, out);
      StillThere(lt, p, src, dst, base, out);
      PartsBalance(lt, p, base);
    }
  }

  lemma PartsBalance<T>(lt: (T, T) -> bool, p: Piece, base: seq<T>)
    requires p.Splits() && p.Range().Valid() && p.xe <= |base| && p.ye <= |base| && p.Size() > MERGE_CUT_OFF
    requires p.xs <= p.XM() <= p.xe && p.ys <= p.YM() <= p.ye
    requires SplitAt(lt, base[p.xs..p.xe], base[p.ys..p.ye], p.XM() - p.xs, p.YM() - p.ys)
    ensures Left(p).Range().Valid() && Right(p).Range().Valid()
    ensures Left(p).xe == p.XM() && Left(p).ye == p.YM() && Right(p).xs == p.XM() && Right(p).ys == p.YM()
    ensures 4 * Left(p).Size() <= 3 * p.Size() + 3 && 4 * Right(p).Size() <= 3 * p.Size() + 3
  {
    hide SplitAt, Piece.Pivot;
    SplitBalance(lt, base[p.xs..p.xe], base[p.ys..p.ye], p.XM() - p.xs, p.YM() - p.ys);
  }

  lemma PieceShape<T>(lt: (T, T) -> bool, p: Piece, src: seq<Slot<T>>, dst: seq<Slot<T>>, base: seq<T>, out: seq<T>)
    requires OnTrack(lt, p, src, dst, base, out)
    ensures p.Range().Valid() && p.xe <= |src| && p.ye <= |src| && p.xe <= |base| && p.ye <= |base|
    ensures p.phase.Moving? || p.phase.Destroying? ==> p.Size() <= MERGE_CUT_OFF
    ensures p.phase.Searching? ==> p.Size() > MERGE_CUT_OFF
    ensures p.phase.Destroying? && p.phase.yd < p.ye ==> p.phase.xd == p.xs
  {
    hide Merge, Sorted, Rest, Narrowed;
  }

  /** Until a piece splits, its input keys are where they were. */
  lemma StillThere<T>(lt: (T, T) -> bool, p: Piece, src: seq<Slot<T>>, dst: seq<Slot<T>>, base: seq<T>, out: seq<T>)
    requires OnTrack(lt, p, src, dst, base, out) && p.Splits()
    ensures p.Range().Valid() && p.xe <= |base| && p.ye <= |base|
    ensures AllLive(src, p.xs, p.xe) && KeysIn(src, p.xs, p.xe) == base[p.xs..p.xe]
    ensures AllLive(src, p.ys, p.ye) && KeysIn(src, p.ys, p.ye) == base[p.ys..p.ye]
  {
    hide OnTrack, AllLive, KeysIn, Piece.Pivot;
    PieceShape(lt, p, src, dst, base, out);
    forall k: nat | p.Reads(k) ensures k < |src| && src[k] == Live(base[k]) {
      Untouched(lt, p, src, dst, base, out, k);
    }
    LiveSlice(src, base, p.xs, p.xe);
    LiveSlice(src, base, p.ys, p.ye);
  }

  lemma LiveSlice<T>(src: seq<Slot<T>>, base: seq<T>, a: nat, b: nat)
    requires a <= b <= |src| && b <= |base| && forall k :: a <= k < b ==> src[k] == Live(base[k])
    ensures AllLive(src, a, b) && KeysIn(src, a, b) == base[a..b]
  {
  }

  lemma FreshMerging<T>(lt: (T, T) -> bool, p: Piece, src: seq<Slot<T>>, dst: seq<Slot<T>>, x: seq<T>, y: seq<T>)
    requires p.Range().Valid() && |x| == p.xe - p.xs && |y| == p.ye - p.ys
    requires p.xe <= |src| && p.ye <= |src| && p.Range().End() <= |dst|
    requires forall k :: p.xs <= k < p.xe ==> src[k] == Live(x[k - p.xs])
    requires forall k :: p.ys <= k < p.ye ==> src[k] == Live(y[k - p.ys])
    requires forall k :: p.Writes(k) ==> dst[k].Constructed()
    ensures Merging(lt, src, dst, p.Range(), x, y, Empty)
  {
    hide Merge, Rest;
    RestStarts(lt, p.Range(), x, y);
  }

  lemma RestStarts<T>(lt: (T, T) -> bool, c: Cursor, x: seq<T>, y: seq<T>)
    requires c.Valid() && |x| == c.xe - c.xs && |y| == c.ye - c.ys && c.i == c.xs && c.j == c.ys
    ensures Rest(lt, c, x, y)
  {
    hide Merge;
    assert x[0..] == x && y[0..] == y && Merge(lt, x, y)[0..] == Merge(lt, x, y);
  }

  /** Before it splits, the output slots of a piece are all constructed. */
  lemma OutputWaits<T>(lt: (T, T) -> bool, p: Piece, src: seq<Slot<T>>, dst: seq<Slot<T>>, base: seq<T>, out: seq<T>)
    requires OnTrack(lt, p, src, dst, base, out) && p.Splits()
    ensures p.Range().Valid() && p.xe <= |src| && p.ye <= |src| && p.Range().End() <= |dst|
    ensures forall k :: p.Writes(k) ==> dst[k].Constructed()
  {
    hide Merge, Sorted, Narrowed, Rest;
  }

  lemma SplitMerging<T>(lt: (T, T) -> bool, p: Piece, q: Piece, src: seq<Slot<T>>, dst: seq<Slot<T>>, base: seq<T>,
                        out: seq<T>)
    requires OnTrack(lt, p, src, dst, base, out) && p.Splits() && Assigned(lt, q, base, out) && q.phase.Fresh?
    requires p.xs <= q.xs && q.xe <= p.xe && p.ys <= q.ys && q.ye <= p.ye
    requires p.zs <= q.zs && q.Range().End() <= p.Range().End()
    ensures OnTrack(lt, q, src, dst, base, out)
  {
    hide OnTrack, Merge, Sorted, Merging;
    OutputWaits(lt, p, src, dst, base, out);
    forall k: nat | q.xs <= k < q.xe || q.ys <= k < q.ye ensures src[k] == Live(base[k]) {
      Untouched(lt, p, src, dst, base, out, k);
    }
    FreshMerging(lt, q, src, dst, base[q.xs..q.xe], base[q.ys..q.ye]);
    FreshOnTrack(lt, q, src, dst, base, out);
  }

  lemma FreshOnTrack<T>(lt: (T, T) -> bool, q: Piece, src: seq<Slot<T>>, dst: seq<Slot<T>>, base: seq<T>, out: seq<T>)
    requires Assigned(lt, q, base, out) && q.phase.Fresh?
    requires Merging(lt, src, dst, q.Range(), base[q.xs..q.xe], base[q.ys..q.ye], Empty)
    ensures OnTrack(lt, q, src, dst, base, out)
  {
    hide Merge, Sorted, Merging;
  }

  /** A split leaves both parts on track, each with its own share of the result. */
  lemma SplitKeeps<T(!new)>(lt: (T, T) -> bool, p: Piece, src: seq<Slot<T>>, dst: seq<Slot<T>>, base: seq<T>,
                     out: seq<T>)
    requires StrictWeak(lt) && OnTrack(lt, p, src, dst, base, out) && p.Splits()
    ensures p.Size() > MERGE_CUT_OFF && p.xs <= p.XM() <= p.xe && p.ys <= p.YM() <= p.ye
    ensures OnTrack(lt, Left(p), src, dst, base, out) && OnTrack(lt, Right(p), src, dst, base, out)
  {
    hide Merge, Merging, Sorted, InPhase;
    SearchFindsCut(lt, p, src, dst, base, out);
    SplitAssigned(lt, p, base, out);
    SplitShares(p);
    SplitMerging(lt, p, Left(p), src, dst, base, out);
    SplitMerging(lt, p, Right(p), src, dst, base, out);
  }
}
