/** The images of a coarray program on a three-dimensional torus. */
module Torus {
  import opened Arithmetic

  /** Codimensions of the coarray. Images are numbered from 1, as in the language. */
  datatype Codims = Codims(x: nat, y: nat, z: nat) {
    predicate Valid() { x > 0 && y > 0 && z > 0 }

    function Images(): nat { x * y * z }
  }

  datatype Coords = Coords(x: nat, y: nat, z: nat)

  /** Directions in the order of the list of neighbours: +x, +y, +z, -x, -y, -z. */
  const DIRECTIONS: nat := 6

  function Opposite(dir: nat): nat
    requires dir < DIRECTIONS
  {
    (dir + 3) % 6
  }

  predicate ValidCoords(n: Codims, c: Coords) {
    1 <= c.x <= n.x && 1 <= c.y <= n.y && 1 <= c.z <= n.z
  }

  /** image_index: the first codimension varies fastest. */
  function ImageIndex(n: Codims, c: Coords): nat
    requires n.Valid() && ValidCoords(n, c)
  {
    1 + (c.x - 1) + n.x * ((c.y - 1) + n.y * (c.z - 1))
  }

  /** this_image */
  function ThisImage(n: Codims, image: nat): Coords
    requires n.Valid() && image >= 1
  {
    Coords((image - 1) % n.x + 1, (image - 1) / n.x % n.y + 1, (image - 1) / n.x / n.y + 1)
  }

  function Up(c: nat, n: nat): nat
    requires n > 0
  {
    c % n + 1
  }

  function Down(c: nat, n: nat): nat
    requires n > 0 && c >= 1
  {
    (c + n - 2) % n + 1
  }

  lemma UpIs(c: nat, n: nat)
    requires 1 <= c <= n
    ensures Up(c, n) == if c == n then 1 else c + 1
  {
    Cycle(if c == n then 0 else c, n);
  }

  lemma DownIs(c: nat, n: nat)
    requires 1 <= c <= n
    ensures Down(c, n) == if c == 1 then n else c - 1
  {
    Cycle(if c == 1 then n - 1 else c - 2, n);
  }

  /** Going up undoes going down, and the other way round. */
  lemma UpDown(c: nat, n: nat)
    requires 1 <= c <= n
    ensures 1 <= Up(c, n) <= n && 1 <= Down(c, n) <= n
    ensures Down(Up(c, n), n) == c && Up(Down(c, n), n) == c
  {
    hide Up, Down;
    UpIs(c, n);
    DownIs(c, n);
    DownIs(Up(c, n), n);
    UpIs(Down(c, n), n);
  }

  lemma Cycle(a: nat, n: nat)
    requires a < n
    ensures (a + n) % n == a && a % n == a
  {
    Remainder(a, n, 1, a + n);
    Remainder(a, n, 0, a);
  }

  function Move(n: Codims, c: Coords, dir: nat): Coords
    requires n.Valid() && ValidCoords(n, c) && dir < DIRECTIONS
  {
    match dir
    case 0 => c.(x := Up(c.x, n.x))
    case 1 => c.(y := Up(c.y, n.y))
    case 2 => c.(z := Up(c.z, n.z))
    case 3 => c.(x := Down(c.x, n.x))
    case 4 => c.(y := Down(c.y, n.y))
    case _ => c.(z := Down(c.z, n.z))
  }

  lemma MoveBack(n: Codims, c: Coords, dir: nat)
    requires n.Valid() && ValidCoords(n, c) && dir < DIRECTIONS
    ensures ValidCoords(n, Move(n, c, dir)) && Move(n, Move(n, c, dir), Opposite(dir)) == c
  {
    UpDown(c.x, n.x);
    UpDown(c.y, n.y);
    UpDown(c.z, n.z);
  }

  /** Coordinates and image numbers correspond one to one. */
  lemma IndexOfCoords(n: Codims, c: Coords)
    requires n.Valid() && ValidCoords(n, c)
    ensures ThisImage(n, ImageIndex(n, c)) == c && 1 <= ImageIndex(n, c) <= n.Images()
  {
    IndexInRange(n, c);
    hide Codims.Images;
    var hi := (c.y - 1) + n.y * (c.z - 1);
    Remainder(c.x - 1, n.x, hi, ImageIndex(n, c) - 1);
    Remainder(c.y - 1, n.y, c.z - 1, hi);
  }

  lemma IndexInRange(n: Codims, c: Coords)
    requires n.Valid() && ValidCoords(n, c)
    ensures 1 <= ImageIndex(n, c) <= n.Images()
  {
    InBox(c.y - 1, n.y, c.z - 1, n.z);
    InBox(c.x - 1, n.x, (c.y - 1) + n.y * (c.z - 1), n.y * n.z);
    Associate(n.x, n.y, n.z);
  }

  lemma InBox(a: nat, m: nat, b: nat, k: nat)
    requires a < m && b < k
    ensures a + m * b < m * k
  {
    assert m * b + m == m * (b + 1);
    assert m * (b + 1) <= m * k;
  }

  lemma CoordsOfIndex(n: Codims, image: nat)
    requires n.Valid() && 1 <= image <= n.Images()
    ensures ValidCoords(n, ThisImage(n, image)) && ImageIndex(n, ThisImage(n, image)) == image
  {
    ThreeDigits(image - 1, n.x, n.y, n.z);
  }

  /** The mixed-radix digits of i. */
  lemma ThreeDigits(i: nat, x: nat, y: nat, z: nat)
    requires x > 0 && y > 0 && i < x * y * z
    ensures i % x < x && i / x % y < y && i / x / y < z
    ensures i == i % x + x * (i / x % y + y * (i / x / y))
  {
    var j := i / x;
    Associate(x, y, z);
    QuotientBelow(i, x, y * z);
    QuotientBelow(j, y, z);
  }

  lemma Associate(x: nat, y: nat, z: nat)
    ensures x * y * z == x * (y * z)
  {
  }

  lemma QuotientBelow(a: nat, m: nat, k: nat)
    requires m > 0 && a < m * k
    ensures a / m < k && a % m < m && a == m * (a / m) + a % m
  {
    var q := a / m;
    assert a == m * q + a % m;
    assert q >= k ==> m * q >= m * k;
  }

  function Neighbour(n: Codims, image: nat, dir: nat): (r: nat)
    requires n.Valid() && 1 <= image <= n.Images() && dir < DIRECTIONS
    ensures 1 <= r <= n.Images()
  {
    CoordsOfIndex(n, image);
    MoveBack(n, ThisImage(n, image), dir);
    IndexOfCoords(n, Move(n, ThisImage(n, image), dir));
    ImageIndex(n, Move(n, ThisImage(n, image), dir))
  }

  /** d is one up or down from c in one direction, around the end if need be, and at the
      same place in the others. */
  predicate NextTo(n: Codims, c: Coords, d: Coords, dir: nat) {
    match dir
    case 0 => d.x == (if c.x == n.x then 1 else c.x + 1) && d.y == c.y && d.z == c.z
    case 1 => d.y == (if c.y == n.y then 1 else c.y + 1) && d.x == c.x && d.z == c.z
    case 2 => d.z == (if c.z == n.z then 1 else c.z + 1) && d.x == c.x && d.y == c.y
    case 3 => d.x == (if c.x == 1 then n.x else c.x - 1) && d.y == c.y && d.z == c.z
    case 4 => d.y == (if c.y == 1 then n.y else c.y - 1) && d.x == c.x && d.z == c.z
    case _ => d.z == (if c.z == 1 then n.z else c.z - 1) && d.x == c.x && d.y == c.y
  }

  /** Who the neighbours are, by coordinates. */
  lemma NeighbourCoords(n: Codims, image: nat, dir: nat)
    requires n.Valid() && 1 <= image <= n.Images() && dir < DIRECTIONS
    ensures NextTo(n, ThisImage(n, image), ThisImage(n, Neighbour(n, image, dir)), dir)
  {
    CoordsOfIndex(n, image);
    MoveIs(n, ThisImage(n, image), dir);
    MoveBack(n, ThisImage(n, image), dir);
    IndexOfCoords(n, Move(n, ThisImage(n, image), dir));
    hide ThisImage, ImageIndex, Move, NextTo;
  }

  /** There is no other image at that place. */
  lemma NextToIsNeighbour(n: Codims, image: nat, other: nat, dir: nat)
    requires n.Valid() && 1 <= image <= n.Images() && 1 <= other <= n.Images() && dir < DIRECTIONS
    requires NextTo(n, ThisImage(n, image), ThisImage(n, other), dir)
    ensures other == Neighbour(n, image, dir)
  {
    NeighbourCoords(n, image, dir);
    CoordsOfIndex(n, other);
    CoordsOfIndex(n, Neighbour(n, image, dir));
    hide ThisImage, ImageIndex, Neighbour, Codims.Images;
  }

  lemma MoveIs(n: Codims, c: Coords, dir: nat)
    requires n.Valid() && ValidCoords(n, c) && dir < DIRECTIONS
    ensures NextTo(n, c, Move(n, c, dir), dir)
  {
    hide Up, Down;
    UpIs(c.x, n.x);
    UpIs(c.y, n.y);
    UpIs(c.z, n.z);
    DownIs(c.x, n.x);
    DownIs(c.y, n.y);
    DownIs(c.z, n.z);
  }

  /** The same by image numbers: neighbours along x are next to each other, those along y
      a row and those along z a layer apart, or the rest of the way round. */
  lemma NeighbourNumbers(n: Codims, image: nat, dir: nat)
    requires n.Valid() && 1 <= image <= n.Images() && dir < DIRECTIONS
    ensures Neighbour(n, image, dir) == image + Distance(n, ThisImage(n, image), dir)
  {
    NeighbourCoords(n, image, dir);
    ImagesDiffer(n, image, Neighbour(n, image, dir));
    DistanceIs(n, ThisImage(n, image), ThisImage(n, Neighbour(n, image, dir)), dir);
    hide ThisImage, Neighbour, NextTo, Distance, Codims.Images;
  }

  function Distance(n: Codims, c: Coords, dir: nat): int {
    match dir
    case 0 => if c.x == n.x then 1 - n.x else 1
    case 1 => n.x * (if c.y == n.y then 1 - n.y else 1)
    case 2 => n.x * n.y * (if c.z == n.z then 1 - n.z else 1)
    case 3 => if c.x == 1 then n.x - 1 else -1
    case 4 => n.x * (if c.y == 1 then n.y - 1 else -1)
    case _ => n.x * n.y * (if c.z == 1 then n.z - 1 else -1)
  }

  lemma DistanceIs(n: Codims, c: Coords, e: Coords, dir: nat)
    requires NextTo(n, c, e, dir)
    ensures (e.x - c.x) + n.x * (e.y - c.y) + n.x * n.y * (e.z - c.z) == Distance(n, c, dir)
  {
    assert e.y == c.y ==> n.x * (e.y - c.y) == 0;
    assert e.z == c.z ==> n.x * n.y * (e.z - c.z) == 0;
  }

  lemma ImagesDiffer(n: Codims, image: nat, other: nat)
    requires n.Valid() && 1 <= image <= n.Images() && 1 <= other <= n.Images()
    ensures var c, e := ThisImage(n, image), ThisImage(n, other);
            other - image == (e.x - c.x) + n.x * (e.y - c.y) + n.x * n.y * (e.z - c.z)
  {
    var c, e := ThisImage(n, image), ThisImage(n, other);
    CoordsOfIndex(n, image);
    CoordsOfIndex(n, other);
    FlatIs(n, c);
    FlatIs(n, e);
    hide ThisImage, ImageIndex, Codims.Images;
    Difference(n.x, e.y - 1, c.y - 1);
    Difference(n.x * n.y, e.z - 1, c.z - 1);
  }

  lemma Difference(m: int, a: int, b: int)
    ensures m * a - m * b == m * (a - b)
  {
  }

  /** image_index, multiplied out. */
  function Flat(n: Codims, c: Coords): int {
    c.x + n.x * (c.y - 1) + n.x * n.y * (c.z - 1)
  }

  lemma FlatIs(n: Codims, c: Coords)
    requires n.Valid() && ValidCoords(n, c)
    ensures ImageIndex(n, c) == Flat(n, c)
  {
    assert n.x * ((c.y - 1) + n.y * (c.z - 1)) == n.x * (c.y - 1) + n.x * n.y * (c.z - 1);
  }

  /** The neighbour relation is symmetric: whoever lies in one direction has us in the
      opposite one. */
  lemma NeighbourBack(n: Codims, image: nat, dir: nat)
    requires n.Valid() && 1 <= image <= n.Images() && dir < DIRECTIONS
    ensures Neighbour(n, Neighbour(n, image, dir), Opposite(dir)) == image
  {
    CoordsOfIndex(n, image);
    MoveBack(n, ThisImage(n, image), dir);
    IndexOfCoords(n, Move(n, ThisImage(n, image), dir));
  }

  /** The six neighbours are six different images exactly if the torus measures at least
      three in every direction. (The image set of SYNC IMAGES may not repeat an image.) */
  lemma SixNeighbours(n: Codims, image: nat)
    requires n.Valid() && 1 <= image <= n.Images()
    ensures (forall d, e :: 0 <= d < e < DIRECTIONS ==> Neighbour(n, image, d) != Neighbour(n, image, e))
       <==> n.x >= 3 && n.y >= 3 && n.z >= 3
  {
    CoordsOfIndex(n, image);
    var c := ThisImage(n, image);
    hide ThisImage, ImageIndex, Codims.Images;
    forall d, e | 0 <= d < e < DIRECTIONS
      ensures Neighbour(n, image, d) == Neighbour(n, image, e) <==> Move(n, c, d) == Move(n, c, e)
    {
      SameNeighbour(n, image, d, e);
    }
    SixMoves(n, c);
    if n.x < 3 {
      assert Neighbour(n, image, 0) == Neighbour(n, image, 3);
    } else if n.y < 3 {
      assert Neighbour(n, image, 1) == Neighbour(n, image, 4);
    } else if n.z < 3 {
      assert Neighbour(n, image, 2) == Neighbour(n, image, 5);
    }
  }

  lemma SameNeighbour(n: Codims, image: nat, d: nat, e: nat)
    requires n.Valid() && 1 <= image <= n.Images() && d < DIRECTIONS && e < DIRECTIONS
    ensures ValidCoords(n, ThisImage(n, image))
    ensures Neighbour(n, image, d) == Neighbour(n, image, e)
       <==> Move(n, ThisImage(n, image), d) == Move(n, ThisImage(n, image), e)
  {
    CoordsOfIndex(n, image);
    var c := ThisImage(n, image);
    MoveBack(n, c, d);
    MoveBack(n, c, e);
    IndexOfCoords(n, Move(n, c, d));
    IndexOfCoords(n, Move(n, c, e));
    hide ThisImage, ImageIndex, Move, Up, Down;
  }

  lemma SixMoves(n: Codims, c: Coords)
    requires n.Valid() && ValidCoords(n, c)
    ensures Move(n, c, 0) == Move(n, c, 3) <==> n.x < 3
    ensures Move(n, c, 1) == Move(n, c, 4) <==> n.y < 3
    ensures Move(n, c, 2) == Move(n, c, 5) <==> n.z < 3
    ensures n.x >= 3 && n.y >= 3 && n.z >= 3 ==>
              forall d, e :: 0 <= d < e < DIRECTIONS ==> Move(n, c, d) != Move(n, c, e)
  {
    hide Up, Down;
    UpIs(c.x, n.x);
    UpIs(c.y, n.y);
    UpIs(c.z, n.z);
    DownIs(c.x, n.x);
    DownIs(c.y, n.y);
    DownIs(c.z, n.z);
  }
}
