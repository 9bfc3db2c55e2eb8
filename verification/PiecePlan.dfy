/** Which serial merges a merge task will come to, and that each of its steps either
    starts one of them or leaves them to do. */
module PiecePlan {
  import opened StableOrder
  import opened Keys
  import opened MergeStep
  import opened MergePlan
  import opened Pieces

  /** A piece that has not begun its serial merge is due for the leaves of its range. */
  ghost predicate Undecided<T(!new)>(lt: (T, T) -> bool, p: Piece, base: seq<T>) {
    && StrictWeak(lt) && (p.phase.Fresh? || p.phase.Searching?)
    && p.Range().Valid() && p.xe <= |base| && p.ye <= |base|
    && Sorted(lt, base[p.xs..p.xe]) && Sorted(lt, base[p.ys..p.ye])
  }

  ghost function PieceLeaves<T(!new)>(lt: (T, T) -> bool, p: Piece, base: seq<T>): seq<Leaf> {
    if Undecided(lt, p, base) then Leaves(lt, base[p.xs..p.xe], base[p.ys..p.ye], p.xs, p.ys, p.zs) else []
  }

  /** The serial merge that a piece begins by going over to p'. */
  function Begins(p: Piece, p': Piece): seq<Leaf> {
    if !p.phase.Moving? && p'.phase.Moving? then [Leaf(p'.xs, p'.xe, p'.ys, p'.ye, p'.zs)] else []
  }

  lemma TrackUndecided<T(!new)>(lt: (T, T) -> bool, p: Piece, src: seq<Slot<T>>, dst: seq<Slot<T>>, base: seq<T>,
                                out: seq<T>)
    requires StrictWeak(lt) && OnTrack(lt, p, src, dst, base, out)
    ensures p.phase.Fresh? || p.phase.Searching? ==> Undecided(lt, p, base)
    ensures p.Range().Valid()
  {
    hide Merge, Sorted, Merging, Searched;
  }

  /** How the phases follow each other. */
  lemma PhaseFollows<T>(lt: (T, T) -> bool, p: Piece, src: seq<Slot<T>>, dst: seq<Slot<T>>)
    requires Safe(p, src, dst) && !p.Done() && !p.Splits()
    ensures var p' := Advance(lt, p, src, dst).0;
            && p.Range().Valid() && p' == p.(phase := p'.phase)
            && match p.phase
               case Fresh => if p.Size() <= MERGE_CUT_OFF then p'.phase.Moving? else p'.phase.Searching?
               case Searching(_, _) => p'.phase.Searching?
               case Moving(_, _) => p'.phase.Moving? || p'.phase.Destroying?
               case Destroying(_, _) => p'.phase.Destroying?
  {
  }

  lemma SameLeaves<T(!new)>(lt: (T, T) -> bool, p: Piece, phase: Phase, base: seq<T>)
    requires (p.phase.Fresh? || p.phase.Searching?) && phase.Searching?
    ensures PieceLeaves(lt, p.(phase := phase), base) == PieceLeaves(lt, p, base)
  {
    hide Leaves, Sorted, StrictWeak;
  }

  lemma OneLeaf<T(!new)>(lt: (T, T) -> bool, p: Piece, base: seq<T>)
    requires Undecided(lt, p, base) && p.Size() <= MERGE_CUT_OFF
    ensures PieceLeaves(lt, p, base) == [Leaf(p.xs, p.xe, p.ys, p.ye, p.zs)]
  {
    hide Leaves, Sorted, StrictWeak;
    LeavesSmall(lt, base[p.xs..p.xe], base[p.ys..p.ye], p.xs, p.ys, p.zs);
  }

  lemma DecidedNone<T(!new)>(lt: (T, T) -> bool, p: Piece, base: seq<T>)
    requires p.phase.Moving? || p.phase.Destroying?
    ensures PieceLeaves(lt, p, base) == []
  {
  }

  /** A piece that begins, or searches on, keeps its leaves or starts its only one. */
  lemma AdvanceStarts<T(!new)>(lt: (T, T) -> bool, p: Piece, src: seq<Slot<T>>, dst: seq<Slot<T>>, base: seq<T>,
                               out: seq<T>)
    requires StrictWeak(lt) && OnTrack(lt, p, src, dst, base, out) && Safe(p, src, dst) && !p.Done() && !p.Splits()
    ensures var p' := Advance(lt, p, src, dst).0;
            PieceLeaves(lt, p, base) == Begins(p, p') + PieceLeaves(lt, p', base)
  {
    hide OnTrack, Undecided, StrictWeak, Safe, PieceLeaves, Advance;
    PhaseFollows(lt, p, src, dst);
    TrackUndecided(lt, p, src, dst, base, out);
    var p' := Advance(lt, p, src, dst).0;
    if p'.phase.Searching? {
      SameLeaves(lt, p, p'.phase, base);
    } else {
      DecidedNone(lt, p', base);
      if p.phase.Fresh? {
        OneLeaf(lt, p, base);
      } else {
        DecidedNone(lt, p, base);
      }
    }
  }

  /** A split deals the leaves out. */
  lemma SplitDeals<T(!new)>(lt: (T, T) -> bool, p: Piece, src: seq<Slot<T>>, dst: seq<Slot<T>>, base: seq<T>,
                            out: seq<T>)
    requires StrictWeak(lt) && OnTrack(lt, p, src, dst, base, out) && p.Splits()
    ensures p.Range().Valid() && p.xs <= p.XM() <= p.xe && p.ys <= p.YM() <= p.ye
    ensures PieceLeaves(lt, p, base) == PieceLeaves(lt, Left(p), base) + PieceLeaves(lt, Right(p), base)
  {
    hide OnTrack, StrictWeak, SplitAt, Undecided, Piece.Pivot, PieceLeaves;
    TrackUndecided(lt, p, src, dst, base, out);
    SplitIsChosen(lt, p, src, dst, base, out);
    PartsLeaves(lt, p, base);
  }

  lemma PartsLeaves<T(!new)>(lt: (T, T) -> bool, p: Piece, base: seq<T>)
    requires p.Splits() && Undecided(lt, p, base) && p.Size() > MERGE_CUT_OFF
    requires p.xs <= p.XM() <= p.xe && p.ys <= p.YM() <= p.ye
    requires SplitAt(lt, base[p.xs..p.xe], base[p.ys..p.ye], p.XM() - p.xs, p.YM() - p.ys)
    ensures PieceLeaves(lt, p, base) == PieceLeaves(lt, Left(p), base) + PieceLeaves(lt, Right(p), base)
  {
    hide Leaves, Sorted, StrictWeak, SplitAt, Piece.Pivot;
    LeavesDealt(lt, base, p.xs, p.XM(), p.xe, p.ys, p.YM(), p.ye, p.zs);
  }

  lemma LeavesDealt<T(!new)>(lt: (T, T) -> bool, base: seq<T>, xs: nat, xm: nat, xe: nat, ys: nat, ym: nat, ye: nat,
                             zs: nat)
    requires StrictWeak(lt) && xs <= xm <= xe <= |base| && ys <= ym <= ye <= |base|
    requires Sorted(lt, base[xs..xe]) && Sorted(lt, base[ys..ye]) && (xe - xs) + (ye - ys) > MERGE_CUT_OFF
    requires SplitAt(lt, base[xs..xe], base[ys..ye], xm - xs, ym - ys)
    ensures Sorted(lt, base[xs..xm]) && Sorted(lt, base[xm..xe]) && Sorted(lt, base[ys..ym]) && Sorted(lt, base[ym..ye])
    ensures Leaves(lt, base[xs..xe], base[ys..ye], xs, ys, zs)
         == Leaves(lt, base[xs..xm], base[ys..ym], xs, ys, zs)
            + Leaves(lt, base[xm..xe], base[ym..ye], xm, ym, zs + (xm - xs) + (ym - ys))
  {
    hide Leaves, Sorted, SplitAt, StrictWeak;
    LeavesSplit(lt, base[xs..xe], base[ys..ye], xs, ys, zs, xm - xs, ym - ys);
    SliceParts(base, xs, xe, xm - xs);
    SliceParts(base, ys, ye, ym - ys);
  }
}
