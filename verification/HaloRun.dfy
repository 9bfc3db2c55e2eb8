/** Every run of the halo swap: the invariant, the checks, progress and termination. */
module HaloRun {
  import opened Sums
  import opened Torus
  import opened HaloSwap

  ghost predicate SameHalos(c: Config, im: Image, im': Image) {
    forall p: Point :: ValidPoint(c.dim, p) ==> im'.x(HaloCell(c.dim, p)) == im.x(HaloCell(c.dim, p))
  }

  ghost predicate SameLatest(c: Config, i: nat, im: Image, im': Image) {
    forall p: Point :: ValidPoint(c.dim, p) ==> Latest(i, im', p) == Latest(i, im, p)
  }

  ghost predicate NoNewTransfers(c: Config, im: Image, im': Image) {
    forall p: Point :: ValidPoint(c.dim, p) && Transferred(im', p) ==> Transferred(im, p) && im'.rep == im.rep
  }

  /** A step that transfers nothing concerns nobody else. */
  lemma QuietStep(c: Config, s: State, i: nat, im': Image)
    requires Invariant(c, s) && 1 <= i <= |s.images|
    requires CountsOK(c, im') && FacesOK(c, i, im') && im'.ok && im'.syncs >= s.At(i).syncs
    requires forall d :: 0 <= d < DIRECTIONS ==> s.At(Neighbour(c.codims, i, d)).syncs >= Passed(im')
    requires SameHalos(c, s.At(i), im') && SameLatest(c, i, s.At(i), im') && NoNewTransfers(c, s.At(i), im')
    ensures Invariant(c, s.With(i, im'))
  {
    hide Neighbour, CountsOK, FacesOK, Latest, Transferred, HaloCell, Mirror, Passed;
    var s' := s.With(i, im');
    forall j | 1 <= j <= |s'.images| ensures ImageOK(c, s', j) {
      assert ImageOK(c, s, j);
      forall d | 0 <= d < DIRECTIONS ensures Close(c, s', j, d) {
        assert Close(c, s, j, d);
      }
      forall p: Point | ValidPoint(c.dim, p) ensures HaloOK(c, s', j, p) {
        assert HaloOK(c, s, j, p);
        assert ValidPoint(c.dim, Mirror(p)) by { MirrorValid(c.dim, p); }
      }
    }
  }

  lemma MirrorValid(dim: Extents, p: Point)
    requires ValidPoint(dim, p)
    ensures ValidPoint(dim, Mirror(p)) && Mirror(Mirror(p)) == p
  {
  }

  lemma SettingKeeps(c: Config, s: State, i: nat, q: Point)
    requires Invariant(c, s) && CanStep(c, s, i, q) && s.At(i).at.Setting?
    ensures Invariant(c, Step(c, s, i, q))
  {
    hide Neighbour, FaceCell, HaloCell, OnFace;
    var im, im' := s.At(i), Step(c, s, i, q).At(i);
    assert ImageOK(c, s, i);
    forall d | 0 <= d < DIRECTIONS ensures s.At(Neighbour(c.codims, i, d)).syncs >= Passed(im') {
      assert Close(c, s, i, d);
    }
    if im.at.face < DIRECTIONS {
      SetFaceSets(c.dim, im.x, im.at.face, Value(i, im.rep));
    }
    QuietStep(c, s, i, im');
  }

  /** Setting a face sets all of it, leaves the halos alone, and can only set cells of
      other faces to the same value. */
  lemma SetFaceSets(dim: Extents, x: Grid, dir: nat, v: int)
    requires dir < DIRECTIONS && dim.NonEmpty()
    ensures forall p: Point :: ValidPoint(dim, p) ==> SetFace(dim, x, dir, v)(HaloCell(dim, p)) == x(HaloCell(dim, p))
    ensures forall p: Point :: ValidPoint(dim, p) && (p.dir == dir || x(FaceCell(dim, p)) == v)
              ==> SetFace(dim, x, dir, v)(FaceCell(dim, p)) == v
  {
    forall p: Point | ValidPoint(dim, p)
      ensures SetFace(dim, x, dir, v)(HaloCell(dim, p)) == x(HaloCell(dim, p))
    {
      HaloOnNoFace(dim, p);
    }
    forall p: Point | ValidPoint(dim, p) && (p.dir == dir || x(FaceCell(dim, p)) == v)
      ensures SetFace(dim, x, dir, v)(FaceCell(dim, p)) == v
    {
      FaceOnFace(dim, p);
    }
  }

  lemma WaitingKeeps(c: Config, s: State, i: nat, q: Point)
    requires Invariant(c, s) && CanStep(c, s, i, q) && (s.At(i).at.Waiting1? || s.At(i).at.Waiting2?)
    ensures Invariant(c, Step(c, s, i, q))
  {
    hide Neighbour, FaceCell, HaloCell;
    assert ImageOK(c, s, i);
    PointsOfSet(c.dim);
    QuietStep(c, s, i, Step(c, s, i, q).At(i));
  }

  lemma PointsOfSet(dim: Extents)
    ensures forall p :: p in AllPoints(dim) <==> ValidPoint(dim, p)
  {
    forall p | ValidPoint(dim, p) ensures p in AllPoints(dim) {
      assert p == Point(p.dir, p.a, p.b);
    }
  }

  /** At an image's check, each neighbour has made its transfers of the same iteration
      and none of the next. */
  lemma NeighbourIsPunctual(c: Config, s: State, i: nat, d: nat)
    requires Invariant(c, s) && 1 <= i <= |s.images| && s.At(i).at.Checking? && d < DIRECTIONS
    ensures var n := Neighbour(c.codims, i, d);
            forall p: Point :: Latest(n, s.At(n), p) == Value(n, s.At(i).rep)
  {
    hide Neighbour, FacesOK;
    var n := Neighbour(c.codims, i, d);
    NeighbourBack(c.codims, i, d);
    assert ImageOK(c, s, i) && ImageOK(c, s, n);
    assert Close(c, s, i, d) && Close(c, s, n, Opposite(d));
  }

  /** The check never fails. */
  lemma HalosAlwaysMatch(c: Config, s: State, i: nat)
    requires Invariant(c, s) && 1 <= i <= |s.images| && s.At(i).at.Checking?
    ensures HalosMatch(c, i, s.At(i))
  {
    hide Neighbour, FacesOK, CountsOK, HaloCell;
    assert ImageOK(c, s, i);
    PointsOfSet(c.dim);
    forall p | p in AllPoints(c.dim)
      ensures s.At(i).x(HaloCell(c.dim, p)) == Value(Neighbour(c.codims, i, p.dir), s.At(i).rep)
    {
      assert HaloOK(c, s, i, p);
      NeighbourIsPunctual(c, s, i, p.dir);
    }
  }

  lemma CheckingKeeps(c: Config, s: State, i: nat, q: Point)
    requires Invariant(c, s) && CanStep(c, s, i, q) && s.At(i).at.Checking?
    ensures Invariant(c, Step(c, s, i, q))
  {
    hide Neighbour, FaceCell, HaloCell, HalosMatch;
    assert ImageOK(c, s, i);
    HalosAlwaysMatch(c, s, i);
    var im' := Step(c, s, i, q).At(i);
    forall d | 0 <= d < DIRECTIONS ensures s.At(Neighbour(c.codims, i, d)).syncs >= Passed(im') {
      assert Close(c, s, i, d);
    }
    QuietStep(c, s, i, im');
  }

  lemma LastTransferKeeps(c: Config, s: State, i: nat, q: Point)
    requires Invariant(c, s) && CanStep(c, s, i, q) && s.At(i).at.Transferring? && s.At(i).at.pending == {}
    ensures Invariant(c, Step(c, s, i, q))
  {
    hide Neighbour, FaceCell, HaloCell;
    assert ImageOK(c, s, i);
    var im' := Step(c, s, i, q).At(i);
    forall d | 0 <= d < DIRECTIONS ensures s.At(Neighbour(c.codims, i, d)).syncs >= Passed(im') {
      assert Close(c, s, i, d);
    }
    QuietStep(c, s, i, im');
  }

  // ---------- Transfers ----------

  /** Writing a halo cell changes that cell only. */
  lemma WriteHalo(dim: Extents, x: Grid, q: Point, v: int)
    requires dim.NonEmpty() && ValidPoint(dim, q)
    ensures forall p: Point :: ValidPoint(dim, p) ==>
            Write(x, HaloCell(dim, q), v)(FaceCell(dim, p)) == x(FaceCell(dim, p))
    ensures forall p: Point :: ValidPoint(dim, p) ==>
              Write(x, HaloCell(dim, q), v)(HaloCell(dim, p)) == if p == q then v else x(HaloCell(dim, p))
  {
    forall p: Point | ValidPoint(dim, p)
      ensures FaceCell(dim, p) != HaloCell(dim, q) && (HaloCell(dim, p) == HaloCell(dim, q) ==> p == q)
    {
      CellsApart(dim, p, q);
    }
  }

  /** What is got is the neighbour's value of the same iteration: it has set its faces
      and cannot set them again before we have synchronised. */
  lemma FaceIsReady(c: Config, s: State, i: nat, p: Point)
    requires Invariant(c, s) && 1 <= i <= |s.images| && s.At(i).at.Transferring? && ValidPoint(c.dim, p)
    ensures var n := Neighbour(c.codims, i, p.dir);
            ValidPoint(c.dim, Mirror(p)) && s.At(n).x(FaceCell(c.dim, Mirror(p))) == Value(n, s.At(i).rep)
  {
    hide Neighbour, FaceCell, HaloOK;
    var n := Neighbour(c.codims, i, p.dir);
    NeighbourBack(c.codims, i, p.dir);
    assert ImageOK(c, s, i) && ImageOK(c, s, n);
    assert Close(c, s, i, p.dir) && Close(c, s, n, Opposite(p.dir));
  }

  lemma GetKeeps(c: Config, s: State, i: nat, q: Point)
    requires Invariant(c, s) && CanStep(c, s, i, q) && s.At(i).at.Transferring? && s.At(i).at.pending != {} && c.get
    ensures Invariant(c, Step(c, s, i, q))
  {
    hide Neighbour, FaceCell, HaloCell, Mirror;
    var s', im := Step(c, s, i, q), s.At(i);
    FaceIsReady(c, s, i, q);
    WriteHalo(c.dim, im.x, q, Value(Neighbour(c.codims, i, q.dir), im.rep));
    forall j | 1 <= j <= |s'.images| ensures ImageOK(c, s', j) {
      assert ImageOK(c, s, j);
      forall d | 0 <= d < DIRECTIONS ensures Close(c, s', j, d) {
        assert Close(c, s, j, d);
      }
      forall p: Point | ValidPoint(c.dim, p) ensures HaloOK(c, s', j, p) {
        assert HaloOK(c, s, j, p);
      }
    }
  }

  /** The state after image i has put its face cell at q. */
  lemma PutStep(c: Config, s: State, i: nat, q: Point)
    requires Invariant(c, s) && CanStep(c, s, i, q) && s.At(i).at.Transferring? && s.At(i).at.pending != {} && !c.get
    ensures ValidPoint(c.dim, Mirror(q))
    ensures var s', n, v := Step(c, s, i, q), Neighbour(c.codims, i, q.dir), Value(i, s.At(i).rep);
            && |s'.images| == |s.images|
            && forall j :: 1 <= j <= |s.images| ==>
                 && s'.At(j) == s.At(j).(at := s'.At(j).at, x := s'.At(j).x)
                 && s'.At(j).x == (if j == n then Write(s.At(j).x, HaloCell(c.dim, Mirror(q)), v) else s.At(j).x)
                 && s'.At(j).at == (if j == i then Transferring(s.At(i).at.pending - {q}) else s.At(j).at)
  {
    hide Neighbour, FaceCell, HaloCell, Invariant, FacesOK, Mirror;
    FaceIsSet(c, s, i, q);
    MirrorValid(c.dim, q);
  }

  lemma FaceIsSet(c: Config, s: State, i: nat, q: Point)
    requires Invariant(c, s) && 1 <= i <= |s.images| && s.At(i).at.Transferring? && ValidPoint(c.dim, q)
    ensures s.At(i).x(FaceCell(c.dim, q)) == Value(i, s.At(i).rep)
  {
    hide FaceCell;
    assert ImageOK(c, s, i);
  }

  lemma PutKeeps(c: Config, s: State, i: nat, q: Point)
    requires Invariant(c, s) && CanStep(c, s, i, q) && s.At(i).at.Transferring? && s.At(i).at.pending != {} && !c.get
    ensures Invariant(c, Step(c, s, i, q))
  {
    hide Neighbour, FaceCell, HaloCell, Step, Mirror;
    var s', n := Step(c, s, i, q), Neighbour(c.codims, i, q.dir);
    PutStep(c, s, i, q);
    WriteHalo(c.dim, s.At(n).x, Mirror(q), Value(i, s.At(i).rep));
    forall j | 1 <= j <= |s'.images| ensures ImageOK(c, s', j) {
      assert ImageOK(c, s, j) && ImageOK(c, s, i);
      forall d | 0 <= d < DIRECTIONS ensures Close(c, s', j, d) {
        assert Close(c, s, j, d);
      }
      forall p: Point | ValidPoint(c.dim, p) ensures HaloOK(c, s', j, p) {
        PutHalo(c, s, i, q, j, p);
      }
    }
  }

  /** Only the halo cell that the put is for is concerned by it. */
  lemma PutHalo(c: Config, s: State, i: nat, q: Point, j: nat, p: Point)
    requires Invariant(c, s) && CanStep(c, s, i, q) && s.At(i).at.Transferring? && s.At(i).at.pending != {} && !c.get
    requires 1 <= j <= |s.images| && ValidPoint(c.dim, p)
    ensures |Step(c, s, i, q).images| == |s.images| && HaloOK(c, Step(c, s, i, q), j, p)
  {
    hide Neighbour, FaceCell, HaloCell, Step, Close, FacesOK, CountsOK;
    PutStep(c, s, i, q);
    var n := Neighbour(c.codims, i, q.dir);
    WriteHalo(c.dim, s.At(n).x, Mirror(q), Value(i, s.At(i).rep));
    assert ImageOK(c, s, j) && HaloOK(c, s, j, p);
    NeighbourBack(c.codims, i, q.dir);
    NeighbourBack(c.codims, j, p.dir);
    MirrorValid(c.dim, p);
    MirrorValid(c.dim, q);
    assert Mirror(p) == q <==> p == Mirror(q);
  }

  lemma StepKeepsInvariant(c: Config, s: State, i: nat, q: Point)
    requires Invariant(c, s) && CanStep(c, s, i, q)
    ensures Invariant(c, Step(c, s, i, q))
  {
    hide Invariant, Step, Synchronised;
    match s.At(i).at
    case Setting(_) => SettingKeeps(c, s, i, q);
    case Waiting1 => WaitingKeeps(c, s, i, q);
    case Transferring(pending) =>
      if pending == {} {
        LastTransferKeeps(c, s, i, q);
      } else if c.get {
        GetKeeps(c, s, i, q);
      } else {
        PutKeeps(c, s, i, q);
      }
    case Waiting2 => WaitingKeeps(c, s, i, q);
    case Checking => CheckingKeeps(c, s, i, q);
  }

  // ---------- Whole runs ----------

  /** The steps of n iterations with m transfers each. */
  function Iterations(n: nat, m: nat): nat {
    if n == 0 then 0 else m + 11 + Iterations(n - 1, m)
  }

  function ImageWeight(c: Config, im: Image): nat {
    var all := |AllPoints(c.dim)|;
    (if im.rep < c.nrep then Iterations(c.nrep - im.rep, all) else 0) +
    match im.at
    case Setting(f) => all + 6 + if f < DIRECTIONS then DIRECTIONS - f else 0
    case Waiting1 => all + 5
    case Transferring(pending) => |pending| + 4
    case Waiting2 => 3
    case Checking => 2
    case Done => 0
  }

  function Weight(c: Config, s: State): nat {
    Sum((im: Image) => ImageWeight(c, im), s.images)
  }

  lemma StepLowersImage(c: Config, s: State, i: nat, q: Point)
    requires Invariant(c, s) && CanStep(c, s, i, q)
    ensures var s' := Step(c, s, i, q);
            && |s'.images| == |s.images| && ImageWeight(c, s'.At(i)) < ImageWeight(c, s.At(i))
            && forall j :: 1 <= j <= |s.images| && j != i ==> s'.At(j) == s.At(j).(x := s'.At(j).x)
  {
    hide Neighbour, AllPoints, HalosMatch, Synchronised, Transfer;
    assert CountsOK(c, s.At(i)) by { assert ImageOK(c, s, i); }
    if s.At(i).at.Transferring? && s.At(i).at.pending != {} {
      TransferKeepsImages(c, s.With(i, s.At(i).(at := Transferring(s.At(i).at.pending - {q}))), i, q);
    }
  }

  lemma TransferKeepsImages(c: Config, s: State, i: nat, q: Point)
    requires c.Valid() && |s.images| == c.codims.Images() && 1 <= i <= |s.images| && ValidPoint(c.dim, q)
    ensures var s' := Transfer(c, s, i, q);
            && |s'.images| == |s.images|
            && forall j :: 1 <= j <= |s.images| ==> s'.At(j) == s.At(j).(x := s'.At(j).x)
  {
    hide Neighbour, FaceCell, HaloCell, Mirror, Write;
  }

  lemma StepLowersWeight(c: Config, s: State, i: nat, q: Point)
    requires Invariant(c, s) && CanStep(c, s, i, q)
    ensures Weight(c, Step(c, s, i, q)) < Weight(c, s)
  {
    hide ImageOK, Step, AllPoints, ImageWeight, Synchronised;
    var s' := Step(c, s, i, q);
    StepLowersImage(c, s, i, q);
    forall j | 0 <= j < |s.images| && j != i - 1 ensures ImageWeight(c, s'.images[j]) == ImageWeight(c, s.images[j]) {
      assert s'.At(j + 1) == s.At(j + 1).(x := s'.At(j + 1).x);
      WeightIgnoresGrid(c, s.At(j + 1), s'.At(j + 1).x);
    }
    assert ImageWeight(c, s'.images[i - 1]) < ImageWeight(c, s.images[i - 1]);
    SumDrops((im: Image) => ImageWeight(c, im), s.images, s'.images, i - 1);
  }

  lemma WeightIgnoresGrid(c: Config, im: Image, x: Grid)
    ensures ImageWeight(c, im.(x := x)) == ImageWeight(c, im)
  {
  }

  ghost predicate AllDone(s: State) {
    forall i :: 1 <= i <= |s.images| ==> s.At(i).at.Done?
  }

  /** The unfinished image that has begun the fewest synchronisations can step. */
  lemma SomebodyCanStep(c: Config, s: State) returns (i: nat, p: Point)
    requires Invariant(c, s) && !AllDone(s)
    ensures CanStep(c, s, i, p)
  {
    hide Neighbour, FacesOK, HaloOK, Close;
    i := FurthestBehind(s, |s.images|);
    p := Point(0, 1, 1);
    assert ImageOK(c, s, i);
    forall d | 0 <= d < DIRECTIONS ensures s.At(Neighbour(c.codims, i, d)).syncs >= s.At(i).syncs {
      assert ImageOK(c, s, Neighbour(c.codims, i, d));
    }
    if s.At(i).at.Transferring? && s.At(i).at.pending != {} {
      p :| p in s.At(i).at.pending;
      PointsOfSet(c.dim);
    }
  }

  lemma {:induction false} FurthestBehind(s: State, m: nat) returns (i: nat)
    requires m <= |s.images| && exists j :: 1 <= j <= m && !s.At(j).at.Done?
    ensures 1 <= i <= m && !s.At(i).at.Done?
    ensures forall j :: 1 <= j <= m && !s.At(j).at.Done? ==> s.At(i).syncs <= s.At(j).syncs
  {
    if exists j :: 1 <= j <= m - 1 && !s.At(j).at.Done? {
      i := FurthestBehind(s, m - 1);
      if !s.At(m).at.Done? && s.At(m).syncs < s.At(i).syncs { i := m; }
    } else {
      i := m;
    }
  }

  lemma {:induction false} RunKeepsInvariant(c: Config, schedule: seq<(nat, Point)>, states: seq<State>, k: nat)
    requires c.Valid() && IsRun(c, schedule, states) && k < |states|
    ensures Invariant(c, states[k]) && k + Weight(c, states[k]) <= Weight(c, Initial(c))
  {
    hide Invariant, Step, CanStep, Weight;
    if k == 0 {
      InitialInvariant(c);
    } else {
      RunKeepsInvariant(c, schedule, states, k - 1);
      StepKeepsInvariant(c, states[k - 1], schedule[k - 1].0, schedule[k - 1].1);
      StepLowersWeight(c, states[k - 1], schedule[k - 1].0, schedule[k - 1].1);
    }
  }

  // ---------- The values, cell by cell ----------

  /** The cells just outside the array on one side, without edges and corners. */
  predicate InHalo(dim: Extents, dir: nat, q: Cell) {
    match dir
    case 0 => q.x == dim.x + 1 && 1 <= q.y <= dim.y && 1 <= q.z <= dim.z
    case 1 => q.y == dim.y + 1 && 1 <= q.x <= dim.x && 1 <= q.z <= dim.z
    case 2 => q.z == dim.z + 1 && 1 <= q.x <= dim.x && 1 <= q.y <= dim.y
    case 3 => q.x == 0 && 1 <= q.y <= dim.y && 1 <= q.z <= dim.z
    case 4 => q.y == 0 && 1 <= q.x <= dim.x && 1 <= q.z <= dim.z
    case _ => q.z == 0 && 1 <= q.x <= dim.x && 1 <= q.y <= dim.y
  }

  /** Where image j lies next to image i, i's halo holds 1000 times j plus the iteration. */
  ghost predicate HoldsFrom(c: Config, i: nat, j: nat, im: Image)
    requires c.Valid() && 1 <= i <= c.codims.Images() && 1 <= j <= c.codims.Images()
  {
    forall d :: 0 <= d < DIRECTIONS && NextTo(c.codims, ThisImage(c.codims, i), ThisImage(c.codims, j), d) ==>
      forall q :: InHalo(c.dim, d, q) ==> im.x(q) == 1000 * j + im.rep
  }

  ghost predicate HalosHold(c: Config, i: nat, im: Image)
    requires c.Valid() && 1 <= i <= c.codims.Images()
  {
    forall j :: 1 <= j <= c.codims.Images() ==> HoldsFrom(c, i, j, im)
  }

  /** The cells of one side are its halo points. */
  lemma SideCells(dim: Extents, d: nat, x: Grid, v: int)
    requires d < DIRECTIONS
    ensures (forall p :: ValidPoint(dim, p) && p.dir == d ==> x(HaloCell(dim, p)) == v) <==>
            (forall q :: InHalo(dim, d, q) ==> x(q) == v)
  {
    forall p | ValidPoint(dim, p) && p.dir == d ensures InHalo(dim, d, HaloCell(dim, p)) {
    }
    forall q | InHalo(dim, d, q) ensures exists p :: ValidPoint(dim, p) && p.dir == d && HaloCell(dim, p) == q {
      var p := match d % 3 case 0 => Point(d, q.y, q.z) case 1 => Point(d, q.x, q.z) case _ => Point(d, q.x, q.y);
      assert ValidPoint(dim, p) && HaloCell(dim, p) == q;
    }
  }

  /** An image at the neighbour's coordinates is the neighbour. */
  lemma OnlyNeighbour(n: Codims, i: nat, j: nat, d: nat)
    requires n.Valid() && 1 <= i <= n.Images() && 1 <= j <= n.Images() && d < DIRECTIONS
    ensures NextTo(n, ThisImage(n, i), ThisImage(n, j), d) <==> j == Neighbour(n, i, d)
  {
    NeighbourCoords(n, i, d);
    CoordsOfIndex(n, j);
    CoordsOfIndex(n, Neighbour(n, i, d));
    hide ThisImage, ImageIndex, Neighbour;
  }

  ghost predicate SideHeld(c: Config, i: nat, d: nat, im: Image)
    requires c.Valid() && 1 <= i <= c.codims.Images() && d < DIRECTIONS
  {
    forall q :: InHalo(c.dim, d, q) ==> im.x(q) == 1000 * Neighbour(c.codims, i, d) + im.rep
  }

  lemma HoldIffSides(c: Config, i: nat, im: Image)
    requires c.Valid() && 1 <= i <= c.codims.Images()
    ensures HalosHold(c, i, im) <==> forall d :: 0 <= d < DIRECTIONS ==> SideHeld(c, i, d, im)
  {
    hide Neighbour, NextTo, ThisImage, InHalo;
    forall j, d | 1 <= j <= c.codims.Images() && 0 <= d < DIRECTIONS
      ensures NextTo(c.codims, ThisImage(c.codims, i), ThisImage(c.codims, j), d) <==> j == Neighbour(c.codims, i, d)
    {
      OnlyNeighbour(c.codims, i, j, d);
    }
    if HalosHold(c, i, im) {
      forall d | 0 <= d < DIRECTIONS ensures SideHeld(c, i, d, im) {
        var j := Neighbour(c.codims, i, d);
        assert NextTo(c.codims, ThisImage(c.codims, i), ThisImage(c.codims, j), d);
        assert HoldsFrom(c, i, j, im);
      }
    }
    if forall d :: 0 <= d < DIRECTIONS ==> SideHeld(c, i, d, im) {
      forall j | 1 <= j <= c.codims.Images() ensures HoldsFrom(c, i, j, im) {
        forall d | 0 <= d < DIRECTIONS && NextTo(c.codims, ThisImage(c.codims, i), ThisImage(c.codims, j), d)
          ensures forall q :: InHalo(c.dim, d, q) ==> im.x(q) == 1000 * j + im.rep
        {
          assert SideHeld(c, i, d, im);
        }
      }
    }
  }

  lemma MatchIffSides(c: Config, i: nat, im: Image)
    requires c.Valid() && 1 <= i <= c.codims.Images()
    ensures HalosMatch(c, i, im) <==> forall d :: 0 <= d < DIRECTIONS ==> SideHeld(c, i, d, im)
  {
    hide Neighbour, HaloCell, InHalo;
    PointsOfSet(c.dim);
    hide AllPoints;
    forall d | 0 <= d < DIRECTIONS
      ensures SideHeld(c, i, d, im) <==> forall p :: ValidPoint(c.dim, p) && p.dir == d ==>
                im.x(HaloCell(c.dim, p)) == 1000 * Neighbour(c.codims, i, d) + im.rep
    {
      SideCells(c.dim, d, im.x, 1000 * Neighbour(c.codims, i, d) + im.rep);
    }
    if forall d :: 0 <= d < DIRECTIONS ==> SideHeld(c, i, d, im) {
      forall p | p in AllPoints(c.dim)
        ensures im.x(HaloCell(c.dim, p)) == Value(Neighbour(c.codims, i, p.dir), im.rep)
      {
        assert ValidPoint(c.dim, p);
        assert SideHeld(c, i, p.dir, im);
      }
    }
  }

  /** The six checks of an image succeed exactly if its halos hold these values. */
  lemma MatchIffHold(c: Config, i: nat, im: Image)
    requires c.Valid() && 1 <= i <= c.codims.Images()
    ensures HalosMatch(c, i, im) <==> HalosHold(c, i, im)
  {
    hide HalosMatch, HalosHold, SideHeld;
    HoldIffSides(c, i, im);
    MatchIffSides(c, i, im);
  }

  /** A check counts: it is passed only if the halos hold these values. */
  lemma CheckDecides(c: Config, s: State, i: nat, p: Point)
    requires c.Valid() && CanStep(c, s, i, p) && s.At(i).at.Checking?
    ensures Step(c, s, i, p).At(i).ok <==> s.At(i).ok && HalosHold(c, i, s.At(i))
  {
    MatchIffHold(c, i, s.At(i));
    hide HalosMatch, HalosHold;
  }

  /** An image has seen no failed check, sees the right halos when it checks, and is
      at most one synchronisation away from each of its neighbours. */
  ghost predicate Agrees(c: Config, s: State, i: nat)
    requires c.Valid() && |s.images| == c.codims.Images() && 1 <= i <= |s.images|
  {
    && s.At(i).ok && (s.At(i).at.Checking? ==> HalosHold(c, i, s.At(i)))
    && (s.At(i).at.Done? ==> s.At(i).rep == c.nrep && s.At(i).syncs == 2 * c.nrep)
    && forall d :: 0 <= d < DIRECTIONS ==> -1 <= s.At(Neighbour(c.codims, i, d)).syncs - s.At(i).syncs <= 1
  }

  ghost predicate AllAgree(c: Config, s: State)
    requires c.Valid()
  {
    |s.images| == c.codims.Images() && forall i :: 1 <= i <= |s.images| ==> Agrees(c, s, i)
  }

  lemma InvariantAgrees(c: Config, s: State, i: nat)
    requires Invariant(c, s) && 1 <= i <= |s.images|
    ensures Agrees(c, s, i)
  {
    hide Neighbour, FacesOK, HaloOK, HalosMatch, HalosHold;
    assert ImageOK(c, s, i);
    if s.At(i).at.Checking? {
      HalosAlwaysMatch(c, s, i);
      MatchIffHold(c, i, s.At(i));
    }
    forall d | 0 <= d < DIRECTIONS ensures -1 <= s.At(Neighbour(c.codims, i, d)).syncs - s.At(i).syncs <= 1 {
      NeighbourBack(c.codims, i, d);
      var n := Neighbour(c.codims, i, d);
      assert ImageOK(c, s, n);
      assert Close(c, s, i, d) && Close(c, s, n, Opposite(d));
    }
  }

  /** In every run, in put and in get mode, with pairwise synchronisation only: at every
      check all six halos hold the neighbours' values of the same iteration; the run
      stops within a bound, and only with all images done. */
  lemma EveryRunMatches(c: Config, schedule: seq<(nat, Point)>, states: seq<State>)
    requires c.Valid() && IsRun(c, schedule, states)
    ensures |schedule| <= Weight(c, Initial(c))
    ensures forall k :: 0 <= k < |states| ==> AllAgree(c, states[k])
    ensures AllDone(states[|schedule|]) || exists i, p :: CanStep(c, states[|schedule|], i, p)
  {
    hide ImageOK, Agrees, CanStep, Step, Weight, AllDone;
    forall k | 0 <= k < |states| ensures AllAgree(c, states[k]) {
      RunKeepsInvariant(c, schedule, states, k);
      forall i | 1 <= i <= |states[k].images| ensures Agrees(c, states[k], i) {
        InvariantAgrees(c, states[k], i);
      }
    }
    RunKeepsInvariant(c, schedule, states, |schedule|);
    if !AllDone(states[|schedule|]) {
      var i, p := SomebodyCanStep(c, states[|schedule|]);
    }
  }

  /** Any image that can step may be the next one of a run. */
  lemma RunGoesOn(c: Config, schedule: seq<(nat, Point)>, states: seq<State>, i: nat, p: Point)
    requires c.Valid() && IsRun(c, schedule, states) && CanStep(c, states[|schedule|], i, p)
    ensures IsRun(c, schedule + [(i, p)], states + [Step(c, states[|schedule|], i, p)])
  {
    hide Step, CanStep, Initial;
  }

  /** Every run can go on until all images are through with all iterations. */
  lemma {:induction false} EveryRunCanEnd(c: Config, schedule: seq<(nat, Point)>, states: seq<State>)
    returns (schedule': seq<(nat, Point)>, states': seq<State>)
    requires c.Valid() && IsRun(c, schedule, states)
    ensures schedule <= schedule' && states <= states' && IsRun(c, schedule', states')
    ensures AllDone(states'[|schedule'|])
    decreases Weight(c, Initial(c)) - |schedule|
  {
    hide Step, CanStep, Weight, AllDone, Agrees;
    EveryRunMatches(c, schedule, states);
    if AllDone(states[|schedule|]) {
      return schedule, states;
    }
    var i, p :| CanStep(c, states[|schedule|], i, p);
    RunGoesOn(c, schedule, states, i, p);
    schedule', states' := EveryRunCanEnd(c, schedule + [(i, p)], states + [Step(c, states[|schedule|], i, p)]);
  }

  /** The images one up or down in x, y or z have begun as many synchronisations. */
  ghost predicate NextToHaveBegun(c: Config, s: State, i: nat)
    requires c.Valid() && |s.images| == c.codims.Images() && 1 <= i <= |s.images|
  {
    forall j, d :: 1 <= j <= |s.images| && 0 <= d < 6 ==>
      NextTo(c.codims, ThisImage(c.codims, i), ThisImage(c.codims, j), d) ==> s.At(j).syncs >= s.At(i).syncs
  }

  lemma SynchronisedIff(c: Config, s: State, i: nat)
    requires c.Valid() && |s.images| == c.codims.Images() && 1 <= i <= |s.images|
    ensures Synchronised(c, s, i) <==> NextToHaveBegun(c, s, i)
  {
    hide Neighbour, NextTo, ThisImage, Codims.Images;
    if Synchronised(c, s, i) {
      forall j, d | 1 <= j <= |s.images| && 0 <= d < DIRECTIONS
                    && NextTo(c.codims, ThisImage(c.codims, i), ThisImage(c.codims, j), d)
        ensures s.At(j).syncs >= s.At(i).syncs
      {
        NextToIsNeighbour(c.codims, i, j, d);
      }
    }
    if NextToHaveBegun(c, s, i) {
      forall d | 0 <= d < DIRECTIONS ensures s.At(Neighbour(c.codims, i, d)).syncs >= s.At(i).syncs {
        NeighbourCoords(c.codims, i, d);
      }
    }
  }

  /** Nobody waits for anybody but the images next to it, and only in its two
      synchronisations; cells may be transferred in any order. */
  lemma WaitsForNextTo(c: Config, s: State, i: nat, p: Point)
    requires Invariant(c, s) && 1 <= i <= |s.images|
    ensures match s.At(i).at
            case Waiting1 => CanStep(c, s, i, p) <==> NextToHaveBegun(c, s, i)
            case Waiting2 => CanStep(c, s, i, p) <==> NextToHaveBegun(c, s, i)
            case Transferring(pending) => CanStep(c, s, i, p) <==> pending == {} || p in pending
            case Done => !CanStep(c, s, i, p)
            case _ => CanStep(c, s, i, p)
  {
    hide Neighbour, FacesOK, HaloOK, Close, NextTo, ThisImage;
    assert ImageOK(c, s, i);
    PointsOfSet(c.dim);
    SynchronisedIff(c, s, i);
    hide Synchronised, NextToHaveBegun, AllPoints, ValidPoint;
  }
}
