/** A bound on the steps a merge task and all it splits into can still take. */
module PieceWeights {
  import opened Keys
  import opened MergePlan
  import opened Pieces
  import opened StableOrder

  function Gap(a: nat, b: nat): nat {
    if a <= b then b - a else 0
  }

  function Square(n: nat): nat {
    n * n
  }

  /** A bound on the steps left of a merge of n keys that has not started. */
  function MergeWeight(n: nat): nat {
    4 * Square(n) + 4
  }

  function PieceWeight(p: Piece): nat {
    var n := Gap(p.xs, p.xe) + Gap(p.ys, p.ye);
    match p.phase
    case Fresh => MergeWeight(n)
    case Searching(_, len) => Gap(n + 1, MergeWeight(n)) + len
    case Moving(i, j) => Gap(i, p.xe) + Gap(j, p.ye) + n + 2
    case Destroying(xd, yd) => Gap(p.xs, xd) + Gap(p.ys, yd) + 1
  }

  lemma SquareOfSum(a: nat, b: nat)
    ensures Square(a + b) == Square(a) + Square(b) + 2 * (a * b)
  {
  }

  lemma {:induction false} ProductAtLeast(a: nat, b: nat)
    requires a > 0 && b > 0
    ensures a * b >= a + b - 1
  {
    if a > 1 {
      ProductAtLeast(a - 1, b);
      assert a * b == (a - 1) * b + b;
    }
  }

  lemma MergeWeightSplits(n: nat, a: nat, b: nat)
    requires a + b == n && a > 0 && b > 0 && n > MERGE_CUT_OFF
    ensures MergeWeight(a) + MergeWeight(b) + n + 2 < MergeWeight(n)
  {
    hide Square;
    SquareOfSum(a, b);
    ProductAtLeast(a, b);
  }

  lemma MergeWeightLarge(n: nat)
    ensures MergeWeight(n) > 2 * n + 2
  {
    assert n >= 1 ==> n * n >= n;
  }

  lemma AdvanceLowers<T>(lt: (T, T) -> bool, p: Piece, src: seq<Slot<T>>, dst: seq<Slot<T>>)
    requires Safe(p, src, dst) && !p.Done() && !p.Splits()
    ensures PieceWeight(Advance(lt, p, src, dst).0) < PieceWeight(p)
  {
    hide Square, MergeWeight;
    match p.phase
    case Fresh => BeginLowers(p);
    case Searching(_, _) => SearchLowers(lt, p, src, dst);
    case Moving(_, _) => MoveLowers(lt, p, src, dst);
    case Destroying(_, _) =>
  }

  lemma BeginLowers(p: Piece)
    requires p.Range().Valid() && p.phase.Fresh?
    ensures PieceWeight(Begin(p)) < PieceWeight(p)
  {
    hide Square;
    MergeWeightLarge(p.Size());
  }

  lemma SearchLowers<T>(lt: (T, T) -> bool, p: Piece, src: seq<Slot<T>>, dst: seq<Slot<T>>)
    requires p.phase.Searching? && Safe(p, src, dst) && !p.Splits()
    ensures PieceWeight(Advance(lt, p, src, dst).0) < PieceWeight(p)
  {
    hide Square, MergeWeight, Before;
  }

  lemma MoveLowers<T>(lt: (T, T) -> bool, p: Piece, src: seq<Slot<T>>, dst: seq<Slot<T>>)
    requires p.phase.Moving? && Safe(p, src, dst) && !p.Done()
    ensures PieceWeight(Advance(lt, p, src, dst).0) < PieceWeight(p)
  {
    hide Square, MergeWeight;
  }

  lemma SplitLowers(p: Piece)
    requires p.Range().Valid() && p.Splits() && p.Size() > MERGE_CUT_OFF && p.xs <= p.XM() <= p.xe
    requires p.ys <= p.YM() <= p.ye
    ensures PieceWeight(Left(p)) + PieceWeight(Right(p)) + 1 < PieceWeight(p)
  {
    hide Square;
    SplitShares(p);
    MergeWeightSplits(p.Size(), Left(p).Size(), Right(p).Size());
  }
}
