/** The halo swap: images on a torus set their boundaries, synchronise with their
    neighbours only, put or get boundary cells into halos, synchronise again and check.
    Images interleave freely; the cells of one iteration are transferred in any order. */
module HaloSwap {
  import opened Torus

  /** dimx, dimy and dimz. */
  datatype Extents = Extents(x: nat, y: nat, z: nat) {
    predicate NonEmpty() { x >= 1 && y >= 1 && z >= 1 }
  }

  /** Extents of the section of a face, and of the section on the other side of the
      assignment into the halo in direction dir; the bottom z halo has 1:dimz for 1:dimx. */
  function FaceSection(dim: Extents, dir: nat): (nat, nat)
    requires dir < DIRECTIONS
  {
    match dir % 3
    case 0 => (dim.y, dim.z)
    case 1 => (dim.x, dim.z)
    case _ => (dim.x, dim.y)
  }

  function HaloSection(dim: Extents, dir: nat): (nat, nat)
    requires dir < DIRECTIONS
  {
    if dir == 5 then (dim.z, dim.y) else FaceSection(dim, dir)
  }

  /** Both sides of every assignment have the same shape, as the language demands. */
  predicate Conforms(dim: Extents) {
    forall d :: 0 <= d < DIRECTIONS ==> HaloSection(dim, d) == FaceSection(dim, d)
  }

  /** The exact condition on the extents. */
  lemma ConformsIff(dim: Extents)
    ensures Conforms(dim) <==> dim.x == dim.z
  {
    assert HaloSection(dim, 5) == FaceSection(dim, 5) <==> dim.x == dim.z;
  }

  /** For instance, a 1 x 1 x 2 array is assigned with the wrong section. */
  lemma DoesNotConform()
    ensures !Conforms(Extents(1, 1, 2))
    ensures HaloSection(Extents(1, 1, 2), 5) == (2, 1) && FaceSection(Extents(1, 1, 2), 5) == (1, 1)
  {
    ConformsIff(Extents(1, 1, 2));
  }

  /** One trial: images, extents of the array, iterations, and whether halos are got
      from the neighbours or put to them. */
  datatype Config = Config(codims: Codims, dim: Extents, nrep: nat, get: bool) {
    predicate Valid() {
      codims.Valid() && dim.NonEmpty() && Conforms(dim) && nrep >= 1
    }
  }

  datatype Cell = Cell(x: nat, y: nat, z: nat)

  type Grid = Cell -> int

  /** A boundary cell: on the face in direction dir, at (a, b) of that face. */
  datatype Point = Point(dir: nat, a: nat, b: nat)

  predicate ValidPoint(dim: Extents, p: Point) {
    p.dir < DIRECTIONS && 1 <= p.a <= FaceSection(dim, p.dir).0 && 1 <= p.b <= FaceSection(dim, p.dir).1
  }

  /** How many cells the array has in direction dir. */
  function Depth(dim: Extents, dir: nat): nat
    requires dir < DIRECTIONS
  {
    match dir % 3
    case 0 => dim.x
    case 1 => dim.y
    case _ => dim.z
  }

  function OnSide(dir: nat, at: nat, a: nat, b: nat): Cell
    requires dir < DIRECTIONS
  {
    match dir % 3
    case 0 => Cell(at, a, b)
    case 1 => Cell(a, at, b)
    case _ => Cell(a, b, at)
  }

  /** The face cell at a point, and the halo cell just outside of it. */
  function FaceCell(dim: Extents, p: Point): Cell
    requires ValidPoint(dim, p)
  {
    OnSide(p.dir, if p.dir < 3 then Depth(dim, p.dir) else 1, p.a, p.b)
  }

  function HaloCell(dim: Extents, p: Point): Cell
    requires ValidPoint(dim, p)
  {
    OnSide(p.dir, if p.dir < 3 then Depth(dim, p.dir) + 1 else 0, p.a, p.b)
  }

  /** The point of the opposite face that a halo point mirrors. */
  function Mirror(p: Point): Point
    requires p.dir < DIRECTIONS
  {
    p.(dir := Opposite(p.dir))
  }

  predicate OnFace(dim: Extents, dir: nat, c: Cell) {
    && 1 <= c.x <= dim.x && 1 <= c.y <= dim.y && 1 <= c.z <= dim.z
    && match dir
       case 0 => c.x == dim.x
       case 1 => c.y == dim.y
       case 2 => c.z == dim.z
       case 3 => c.x == 1
       case 4 => c.y == 1
       case _ => c.z == 1
  }

  /** cafset2d of one face, and a transfer of one cell. */
  function SetFace(dim: Extents, x: Grid, dir: nat, v: int): Grid {
    (c: Cell) => if OnFace(dim, dir, c) then v else x(c)
  }

  function Write(x: Grid, at: Cell, v: int): Grid {
    (c: Cell) => if c == at then v else x(c)
  }

  /** What an image sets its boundaries to in its r-th iteration. */
  function Value(image: nat, r: nat): int {
    image * 1000 + r
  }

  datatype Place =
    | Setting(face: nat)
    | Waiting1
    | Transferring(pending: set<Point>)
    | Waiting2
    | Checking
    | Done

  /** rep is the iteration, syncs how many SYNC IMAGES were begun; ok is lcheck. */
  datatype Image = Image(rep: nat, at: Place, syncs: nat, x: Grid, ok: bool)

  /** Image i of the program is images[i - 1]. */
  datatype State = State(images: seq<Image>) {
    function At(i: nat): Image
      requires 1 <= i <= |images|
    {
      images[i - 1]
    }

    function With(i: nat, im: Image): State
      requires 1 <= i <= |images|
    {
      State(images[i - 1 := im])
    }
  }

  function AllPoints(dim: Extents): set<Point> {
    set d, a, b | 0 <= d < DIRECTIONS && 1 <= a <= FaceSection(dim, d).0 &&
        1 <= b <= FaceSection(dim, d).1 :: Point(d, a, b)
  }

  function FirstGrid(dim: Extents, i: nat): Grid {
    (c: Cell) => if exists d :: 0 <= d < DIRECTIONS && OnFace(dim, d, c) then Value(i, 0) else 0
  }

  function Initial(c: Config): State {
    State(seq(c.codims.Images(), i requires 0 <= i => Image(1, Setting(0), 0, FirstGrid(c.dim, i + 1), true)))
  }

  /** SYNC IMAGES completes once every neighbour has begun as many. */
  predicate Synchronised(c: Config, s: State, i: nat)
    requires c.Valid() && |s.images| == c.codims.Images() && 1 <= i <= |s.images|
  {
    forall d :: 0 <= d < DIRECTIONS ==> s.At(Neighbour(c.codims, i, d)).syncs >= s.At(i).syncs
  }

  /** All six halos hold what the neighbours set in this iteration. */
  predicate HalosMatch(c: Config, i: nat, im: Image)
    requires c.Valid() && 1 <= i <= c.codims.Images()
  {
    forall p :: p in AllPoints(c.dim) ==> im.x(HaloCell(c.dim, p)) == Value(Neighbour(c.codims, i, p.dir), im.rep)
  }

  predicate CanStep(c: Config, s: State, i: nat, p: Point)
    requires c.Valid()
  {
    && |s.images| == c.codims.Images() && 1 <= i <= |s.images|
    && match s.At(i).at
       case Setting(_) => true
       case Waiting1 => Synchronised(c, s, i)
       case Transferring(pending) => pending == {} || (p in pending && ValidPoint(c.dim, p))
       case Waiting2 => Synchronised(c, s, i)
       case Checking => true
       case Done => false
  }

  /** One cell is got from the neighbour's face into the halo, or put from the face into
      the neighbour's halo. */
  function Transfer(c: Config, s: State, i: nat, p: Point): State
    requires c.Valid() && |s.images| == c.codims.Images() && 1 <= i <= |s.images| && ValidPoint(c.dim, p)
  {
    var n := Neighbour(c.codims, i, p.dir);
    if c.get then
      var v := s.At(n).x(FaceCell(c.dim, Mirror(p)));
      s.With(i, s.At(i).(x := Write(s.At(i).x, HaloCell(c.dim, p), v)))
    else
      var v := s.At(i).x(FaceCell(c.dim, p));
      s.With(n, s.At(n).(x := Write(s.At(n).x, HaloCell(c.dim, Mirror(p)), v)))
  }

  /** One step of image i; p is the point transferred next, if any. */
  function Step(c: Config, s: State, i: nat, p: Point): State
    requires c.Valid() && CanStep(c, s, i, p)
  {
    var im := s.At(i);
    match im.at
    case Setting(f) =>
      if f < DIRECTIONS then s.With(i, im.(at := Setting(f + 1), x := SetFace(c.dim, im.x, f, Value(i, im.rep))))
      else s.With(i, im.(at := Waiting1, syncs := im.syncs + 1))
    case Waiting1 => s.With(i, im.(at := Transferring(AllPoints(c.dim))))
    case Transferring(pending) =>
      if pending == {} then s.With(i, im.(at := Waiting2, syncs := im.syncs + 1))
      else Transfer(c, s.With(i, im.(at := Transferring(pending - {p}))), i, p)
    case Waiting2 => s.With(i, im.(at := Checking))
    case Checking =>
      s.With(i, if im.rep < c.nrep then im.(rep := im.rep + 1, at := Setting(0), ok := im.ok && HalosMatch(c, i, im))
                else im.(at := Done, ok := im.ok && HalosMatch(c, i, im)))
  }

  ghost predicate IsRun(c: Config, schedule: seq<(nat, Point)>, states: seq<State>)
    requires c.Valid()
  {
    && |states| == |schedule| + 1 && states[0] == Initial(c)
    && forall k :: 0 <= k < |schedule| ==>
         && CanStep(c, states[k], schedule[k].0, schedule[k].1)
         && states[k + 1] == Step(c, states[k], schedule[k].0, schedule[k].1)
  }

  // ---------- Invariant ----------

  /** SYNC IMAGES completed. */
  function Passed(im: Image): int {
    im.syncs - if im.at.Waiting1? || im.at.Waiting2? then 1 else 0
  }

  ghost predicate CountsOK(c: Config, im: Image) {
    && 1 <= im.rep <= c.nrep
    && match im.at
       case Setting(f) => im.syncs == 2 * im.rep - 2 && f <= DIRECTIONS
       case Waiting1 => im.syncs == 2 * im.rep - 1
       case Transferring(pending) => im.syncs == 2 * im.rep - 1 && pending <= AllPoints(c.dim)
       case Waiting2 => im.syncs == 2 * im.rep
       case Checking => im.syncs == 2 * im.rep
       case Done => im.syncs == 2 * im.rep && im.rep == c.nrep
  }

  /** Neighbours are never more than one synchronisation apart. */
  ghost predicate Close(c: Config, s: State, i: nat, d: nat)
    requires c.Valid() && |s.images| == c.codims.Images() && 1 <= i <= |s.images| && d < DIRECTIONS
  {
    s.At(Neighbour(c.codims, i, d)).syncs >= Passed(s.At(i))
  }

  /** The faces that are set for the current iteration: all, but while setting. */
  ghost predicate FacesOK(c: Config, i: nat, im: Image) {
    forall p: Point :: ValidPoint(c.dim, p) && (im.at.Setting? ==> p.dir < im.at.face) ==>
      im.x(FaceCell(c.dim, p)) == Value(i, im.rep)
  }

  /** Has the image made its transfer at p for its current iteration? */
  predicate Transferred(im: Image, p: Point) {
    match im.at
    case Transferring(pending) => p !in pending
    case Waiting2 => true
    case Checking => true
    case Done => true
    case _ => false
  }

  /** The halo value that transfers so far have left at a point: zero before the first. */
  function Latest(i: nat, im: Image, p: Point): int {
    if Transferred(im, p) then Value(i, im.rep)
    else if im.rep > 1 then Value(i, im.rep - 1)
    else 0
  }

  /** The halo of image i at p, by the one who makes the transfers into it. */
  ghost predicate HaloOK(c: Config, s: State, i: nat, p: Point)
    requires c.Valid() && |s.images| == c.codims.Images() && 1 <= i <= |s.images| && ValidPoint(c.dim, p)
  {
    var n, im := Neighbour(c.codims, i, p.dir), s.At(i);
    if c.get then Transferred(im, p) ==> im.x(HaloCell(c.dim, p)) == Value(n, im.rep)
    else im.x(HaloCell(c.dim, p)) == Latest(n, s.At(n), Mirror(p))
  }

  ghost predicate ImageOK(c: Config, s: State, i: nat)
    requires c.Valid() && |s.images| == c.codims.Images() && 1 <= i <= |s.images|
  {
    && CountsOK(c, s.At(i)) && FacesOK(c, i, s.At(i)) && s.At(i).ok
    && (forall d :: 0 <= d < DIRECTIONS ==> Close(c, s, i, d))
    && (forall p: Point :: ValidPoint(c.dim, p) ==> HaloOK(c, s, i, p))
  }

  ghost predicate Invariant(c: Config, s: State) {
    && c.Valid() && |s.images| == c.codims.Images()
    && forall i :: 1 <= i <= |s.images| ==> ImageOK(c, s, i)
  }

  /** Cells of faces are never halo cells, and halos do not share cells. */
  lemma CellsApart(dim: Extents, p: Point, q: Point)
    requires dim.NonEmpty() && ValidPoint(dim, p) && ValidPoint(dim, q)
    ensures FaceCell(dim, p) != HaloCell(dim, q)
    ensures HaloCell(dim, p) == HaloCell(dim, q) ==> p == q
  {
  }

  /** Before the first iteration the boundary cells of the array hold 1000 times the image's
      number; its inner cells and the halo hold zero. */
  lemma FirstValues(dim: Extents, i: nat, q: Cell)
    requires dim.NonEmpty()
    ensures var inside := 1 <= q.x <= dim.x && 1 <= q.y <= dim.y && 1 <= q.z <= dim.z;
            var inner := 1 < q.x < dim.x && 1 < q.y < dim.y && 1 < q.z < dim.z;
            FirstGrid(dim, i)(q) == if inside && !inner then 1000 * i else 0
  {
    var high := OnFace(dim, 0, q) || OnFace(dim, 1, q) || OnFace(dim, 2, q);
    var low := OnFace(dim, 3, q) || OnFace(dim, 4, q) || OnFace(dim, 5, q);
    assert low || high <==> exists d :: 0 <= d < DIRECTIONS && OnFace(dim, d, q);
  }

  lemma FaceOnFace(dim: Extents, p: Point)
    requires dim.NonEmpty() && ValidPoint(dim, p)
    ensures OnFace(dim, p.dir, FaceCell(dim, p))
  {
  }

  lemma InitialInvariant(c: Config)
    requires c.Valid()
    ensures Invariant(c, Initial(c))
  {
    hide Neighbour;
    var s := Initial(c);
    forall i | 1 <= i <= |s.images| ensures ImageOK(c, s, i) {
      assert s.At(i) == Image(1, Setting(0), 0, FirstGrid(c.dim, i), true);
      forall p: Point | ValidPoint(c.dim, p) ensures HaloOK(c, s, i, p) {
        HaloOnNoFace(c.dim, p);
      }
    }
  }

  lemma HaloOnNoFace(dim: Extents, p: Point)
    requires ValidPoint(dim, p)
    ensures forall d :: 0 <= d < DIRECTIONS ==> !OnFace(dim, d, HaloCell(dim, p))
  {
  }
}
