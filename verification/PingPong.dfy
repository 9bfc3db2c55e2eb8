/** The coarray ping-pong between two images: access patterns, put and get, with
    asynchronous copies that land in any order before the flush. */
module PingPong {
  import opened Arithmetic

  const P2P_MAX_STRIDE: nat := 128

  /** All modes that cafpingpong accepts. */
  datatype Mode =
    | Put | AllPut | MPut | SMPut | MpiSend | SPut
    | SubPut | SimpleSubPut | MSubPut | SubMPut | SSubPut
    | Get | AllGet | MGet | SMGet | SGet
    | SubGet | SimpleSubGet | MSubGet | SubMGet | SSubGet
  {
    predicate Gets() { Get? || AllGet? || MGet? || SMGet? }
    /** The repetitions do nothing. */
    predicate Idle() { SPut? || SGet? || SubPut? || SubGet? || SimpleSubPut? || SimpleSubGet? || Stuck() }
    /** The loop over patterns does not know the mode, and never goes on or ends. */
    predicate Stuck() { MSubPut? || SubMPut? || SSubPut? || MSubGet? || SubMGet? || SSubGet? }
    predicate Whole() { AllPut? || AllGet? }
    predicate Many() { MPut? || MSubPut? || SubMPut? || MGet? || MSubGet? || SubMGet? }
    predicate Strided() { SMPut? || SMGet? }
    predicate Scattered() { SPut? || SSubPut? || SGet? || SSubGet? }
  }

  /** An access pattern: count blocks of blksize elements, stride apart. */
  datatype Shape = Shape(count: nat, blksize: nat, stride: nat) {
    function Data(): nat { count * blksize }

    ghost predicate InBlock(i: int) {
      exists k :: InBlockNo(k, i)
    }

    predicate InBlockNo(k: int, i: int) {
      0 <= k < count && k * stride <= i < k * stride + blksize
    }

    predicate Fits(size: nat) {
      count == 0 || (count - 1) * stride + blksize <= size
    }
  }

  function FirstShape(mode: Mode, max: nat): Shape {
    if mode.Many() then Shape(1, max, max)
    else if mode.Strided() then Shape(1, max / 2, max)
    else if mode.Scattered() then Shape(max / P2P_MAX_STRIDE, 1, P2P_MAX_STRIDE)
    else Shape(1, 1, 1)
  }

  function NextShape(mode: Mode, s: Shape): Shape {
    if mode.Stuck() then s
    else if mode.Many() || mode.Strided() then Shape(s.count * 2, s.blksize / 2, s.stride / 2)
    else if mode.Scattered() then Shape(s.count, s.blksize, s.stride / 2)
    else Shape(s.count, s.blksize * 2, s.stride * 2)
  }

  predicate Finished(mode: Mode, max: nat, s: Shape) {
    if mode.Stuck() then false
    else if mode.Many() then s.count > max
    else if mode.Strided() then s.stride < 2
    else if mode.Scattered() then s.stride < 1
    else s.blksize > max
  }

  /** The shape invariant of the outer loop. */
  predicate ShapeOK(mode: Mode, max: nat, s: Shape) {
    if mode.Many() then s.blksize == s.stride && s.count * s.blksize <= max && 1 <= s.count <= max
    else if mode.Strided() then
      && s.blksize == s.stride / 2 && s.count >= 1 && s.count * s.stride <= max
      && s.stride >= 1 && (s.stride >= 2 || s.count == 1)
    else if mode.Scattered() then s.count == max / P2P_MAX_STRIDE && s.blksize == 1 && 1 <= s.stride <= P2P_MAX_STRIDE
    else s.count == 1 && 1 <= s.blksize == s.stride <= max
  }

  lemma ShapeStarts(mode: Mode, max: nat)
    requires max >= 1
    ensures ShapeOK(mode, max, FirstShape(mode, max))
  {
  }

  lemma ShapeStays(mode: Mode, max: nat, s: Shape)
    requires ShapeOK(mode, max, s) && !Finished(mode, max, NextShape(mode, s))
    ensures ShapeOK(mode, max, NextShape(mode, s))
  {
    Halving(s.count, s.blksize);
    Halving(s.count, s.stride);
  }

  lemma Halving(c: nat, b: nat)
    ensures (c * 2) * (b / 2) <= c * b
  {
    assert b == 2 * (b / 2) + b % 2;
    assert c * b == c * (2 * (b / 2)) + c * (b % 2);
  }

  /** How many elements each image allocates. */
  function LocalSize(mode: Mode, max: nat, s: Shape): nat {
    if mode.AllPut? || mode.AllGet? then s.Data() else max
  }

  lemma ShapeFits(mode: Mode, max: nat, s: Shape)
    requires ShapeOK(mode, max, s)
    ensures s.Fits(LocalSize(mode, max, s)) && s.Data() <= LocalSize(mode, max, s)
  {
    if mode.Scattered() {
      FitsScattered(s.count, s.stride, max);
      BlocksFit(s, max);
    } else if mode.Many() || mode.Strided() {
      BlocksFit(s, max);
    }
  }

  /** Blocks no longer than the stride fit, if as many strides do. */
  lemma BlocksFit(s: Shape, size: nat)
    requires s.blksize <= s.stride && s.count * s.stride <= size
    ensures s.Fits(size) && s.Data() <= size
  {
    if s.count > 0 { LastBlock(s.count, s.stride); }
    MoreOfEach(s.count, s.blksize, s.stride);
  }

  lemma FitsScattered(c: nat, d: nat, max: nat)
    requires c == max / P2P_MAX_STRIDE && 1 <= d <= P2P_MAX_STRIDE
    ensures c * d <= max && c <= c * d
  {
    assert c * P2P_MAX_STRIDE <= max;
    MoreOfEach(c, d, P2P_MAX_STRIDE);
    MoreOfEach(c, 1, d);
  }

  lemma LastBlock(c: nat, d: nat)
    requires c >= 1
    ensures (c - 1) * d + d == c * d
  {
  }

  lemma MoreOfEach(c: nat, b: nat, d: nat)
    ensures b <= d ==> c * b <= c * d
  {
  }

  lemma BlockFits(s: Shape, size: nat, k: nat)
    requires s.Fits(size) && k < s.count
    ensures k * s.stride + s.blksize <= size
  {
    assert k * s.stride <= (s.count - 1) * s.stride;
  }

  // ---------- Setting and checking ----------

  /** The value in all blocks, zero everywhere else. */
  ghost predicate IsSet(x: seq<int>, s: Shape, value: int) {
    && (forall i :: 0 <= i < |x| && s.InBlock(i) ==> x[i] == value)
    && (forall i :: 0 <= i < |x| && !s.InBlock(i) ==> x[i] == 0)
  }

  /** cafset */
  method CafSet(x: array<int>, s: Shape, value: int)
    requires s.Fits(x.Length)
    modifies x
    ensures IsSet(x[..], s, value)
  {
    Fill(x);
    for icount := 0 to s.count
      invariant forall i, k :: 0 <= i < x.Length && 0 <= k < icount && s.InBlockNo(k, i) ==> x[i] == value
      invariant forall i :: 0 <= i < x.Length && !s.InBlock(i) ==> x[i] == 0
    {
      BlockFits(s, x.Length, icount);
      ghost var first := icount * s.stride;
      for i := icount * s.stride to icount * s.stride + s.blksize
        invariant first == icount * s.stride
        invariant forall j, k :: 0 <= j < x.Length && 0 <= k < icount && s.InBlockNo(k, j) ==> x[j] == value
        invariant forall j :: first <= j < i ==> x[j] == value
        invariant forall j :: 0 <= j < x.Length && !s.InBlock(j) ==> x[j] == 0
      {
        assert s.InBlockNo(icount, i);
        x[i] := value;
      }
    }
  }

  method Fill(x: array<int>)
    modifies x
    ensures forall i :: 0 <= i < x.Length ==> x[i] == 0
  {
    for i := 0 to x.Length
      invariant forall j :: 0 <= j < i ==> x[j] == 0
    {
      x[i] := 0;
    }
  }

  ghost predicate BlocksHold(x: seq<int>, s: Shape, value: int) {
    forall i :: 0 <= i < |x| && s.InBlock(i) ==> x[i] == value
  }

  /** cafcheck: with docheck exactly whether every element of every block is right. */
  method CafCheck(x: array<int>, s: Shape, value: int, docheck: bool) returns (ok: bool)
    requires s.Fits(x.Length) && x.Length >= 1
    ensures docheck ==> (ok <==> BlocksHold(x[..], s, value))
    ensures !docheck ==> (ok <==> x[0] != 0)
  {
    if docheck {
      for icount := 0 to s.count
        invariant forall i, k :: 0 <= i < x.Length && 0 <= k < icount && s.InBlockNo(k, i) ==> x[i] == value
      {
        BlockFits(s, x.Length, icount);
        ghost var first := icount * s.stride;
        for i := icount * s.stride to icount * s.stride + s.blksize
          invariant forall j :: first <= j < i ==> x[j] == value
        {
          if x[i] != value {
            assert s.InBlockNo(icount, i);
            return false;
          }
        }
      }
    } else {
      if x[0] == 0 { return false; }
    }
    return true;
  }

  // ---------- Copies ----------

  /** The elements that the copies of a pattern move; offsets are the same on both sides. */
  ghost predicate Copied(mode: Mode, s: Shape, size: nat, i: int) {
    if mode.Whole() then 0 <= i < size
    else if mode.Many() then exists k :: 0 <= k < s.count && InRange(i, k * s.blksize, (k + 1) * s.blksize)
    else if mode.Strided() then exists k :: 0 <= k < s.count && InRange(i, 2 * k * s.blksize, (2 * k + 1) * s.blksize)
    else 0 <= i < s.Data()
  }

  predicate InRange(i: int, lo: int, hi: int) {
    lo <= i < hi
  }

  function Range(lo: nat, hi: nat): set<nat> {
    set i: nat | lo <= i < hi && InRange(i, lo, hi)
  }

  /** The copy_async calls of one ping or pong: what is pending afterwards. */
  method IssueCopies(mode: Mode, s: Shape, size: nat) returns (pending: set<nat>)
    requires s.Fits(size) && (mode.Strided() ==> 2 * s.blksize <= s.stride) && (mode.Many() ==> s.blksize == s.stride)
    requires !mode.Strided() && !mode.Many() ==> s.Data() <= size
    ensures forall i: nat :: i in pending <==> Copied(mode, s, size, i)
    ensures forall i :: i in pending ==> i < size
  {
    if mode.Whole() {
      pending := Range(0, size);
    } else if mode.Many() {
      pending := {};
      for i := 1 to s.count + 1
        invariant forall j: nat :: j in pending <==>
                  exists k :: 0 <= k < i - 1 && InRange(j, k * s.blksize, (k + 1) * s.blksize)
        invariant forall j :: j in pending ==> j < size
      {
        var offset_beg, offset_end := (i - 1) * s.blksize, i * s.blksize;
        BlockFits(s, size, i - 1);
        assert forall j: nat :: j in Range(offset_beg, offset_end) <==>
               InRange(j, (i - 1) * s.blksize, (i - 1 + 1) * s.blksize);
        pending := pending + Range(offset_beg, offset_end);
      }
    } else if mode.Strided() {
      pending := {};
      for i := 1 to s.count + 1
        invariant forall j: nat :: j in pending <==>
          exists k :: 0 <= k < i - 1 && InRange(j, 2 * k * s.blksize, (2 * k + 1) * s.blksize)
        invariant forall j :: j in pending ==> j < size
      {
        var sbeg, send := 2 * (i - 1) * s.blksize, (2 * i - 1) * s.blksize;
        StridedFits(s, size, i - 1);
        assert forall j: nat :: j in Range(sbeg, send) <==>
               InRange(j, 2 * (i - 1) * s.blksize, (2 * (i - 1) + 1) * s.blksize);
        pending := pending + Range(sbeg, send);
      }
    } else {
      pending := Range(0, s.Data());
    }
  }

  lemma StridedFits(s: Shape, size: nat, k: nat)
    requires s.Fits(size) && 2 * s.blksize <= s.stride && k < s.count
    ensures 0 <= 2 * k * s.blksize <= (2 * k + 1) * s.blksize <= size
  {
    BlockFits(s, size, k);
    assert k * (2 * s.blksize) <= k * s.stride;
  }

  /** x.flush(): by its end all pending copies have landed, in whatever order. */
  method Flush(src: array<int>, dst: array<int>, issued: set<nat>)
    requires src != dst && src.Length == dst.Length && forall i :: i in issued ==> i < src.Length
    modifies dst
    ensures forall i :: 0 <= i < dst.Length ==> dst[i] == if i in issued then src[i] else old(dst[i])
  {
    var pending := issued;
    while pending != {}
      invariant pending <= issued
      invariant forall i :: 0 <= i < dst.Length ==> dst[i] == if i in issued - pending then src[i] else old(dst[i])
      decreases pending
    {
      var i :| i in pending;
      dst[i] := src[i];
      pending := pending - {i};
    }
  }

  /** Every element that is checked is also copied. */
  ghost predicate Covered(mode: Mode, s: Shape, size: nat) {
    forall i: int :: 0 <= i < size && s.InBlock(i) ==> Copied(mode, s, size, i)
  }

  /** The guard: copies step by twice the block size, blocks by the stride. */
  predicate Aligned(mode: Mode, s: Shape) {
    mode.Strided() ==> s.count == 1 || s.stride == 2 * s.blksize
  }

  lemma AlignedIsCovered(mode: Mode, max: nat, s: Shape)
    requires ShapeOK(mode, max, s) && !mode.Idle()
    ensures Covered(mode, s, LocalSize(mode, max, s)) <==> Aligned(mode, s)
  {
    var size := LocalSize(mode, max, s);
    ShapeFits(mode, max, s);
    if Aligned(mode, s) {
      forall i | 0 <= i < size && s.InBlock(i) ensures Copied(mode, s, size, i) {
        var k :| s.InBlockNo(k, i);
        InBlockIsCopied(mode, max, s, k, i);
      }
    } else {
      MissedElement(s, size);
    }
  }

  lemma InBlockIsCopied(mode: Mode, max: nat, s: Shape, k: nat, i: nat)
    requires ShapeOK(mode, max, s) && !mode.Idle() && Aligned(mode, s) && s.InBlockNo(k, i)
    requires i < LocalSize(mode, max, s)
    ensures Copied(mode, s, LocalSize(mode, max, s), i)
  {
    if mode.Many() {
      NextMultiple(k, s.blksize);
      assert InRange(i, k * s.blksize, (k + 1) * s.blksize);
    } else if mode.Strided() {
      StridedBlock(s, k, i);
    } else {
      OnlyBlock(s, k, i);
    }
  }

  lemma NextMultiple(k: nat, b: nat)
    ensures (k + 1) * b == k * b + b
  {
  }

  /** The k-th block and the k-th copy of an aligned strided pattern. */
  lemma StridedBlock(s: Shape, k: nat, i: nat)
    requires s.InBlockNo(k, i) && (s.count == 1 || s.stride == 2 * s.blksize)
    ensures InRange(i, 2 * k * s.blksize, (2 * k + 1) * s.blksize)
  {
    var d := 2 * k;
    NextMultiple(d, s.blksize);
    if s.count > 1 {
      assert d * s.blksize == k * (2 * s.blksize);
    }
  }

  lemma OnlyBlock(s: Shape, k: nat, i: nat)
    requires s.count == 1 && s.InBlockNo(k, i)
    ensures 0 <= i < s.Data()
  {
    assert k == 0;
  }

  /** With an odd stride the last element of the second block is left behind. */
  lemma MissedElement(s: Shape, size: nat)
    requires s.count >= 2 && s.blksize == s.stride / 2 && s.stride % 2 == 1 && s.stride >= 2 && s.Fits(size)
    ensures 0 <= s.stride + s.blksize - 1 < size && s.InBlock(s.stride + s.blksize - 1)
    ensures !Copied(SMPut, s, size, s.stride + s.blksize - 1) && !Copied(SMGet, s, size, s.stride + s.blksize - 1)
  {
    var i := s.stride + s.blksize - 1;
    BlockFits(s, size, 1);
    assert s.InBlockNo(1, i);
    assert i == 3 * s.blksize;
    forall k | 0 <= k < s.count ensures !InRange(i, 2 * k * s.blksize, (2 * k + 1) * s.blksize) {
      BetweenCopies(k, s.blksize);
    }
  }

  lemma BetweenCopies(k: nat, b: nat)
    requires b >= 1
    ensures !InRange(3 * b, 2 * k * b, (2 * k + 1) * b)
  {
    var m := 2 * k;
    assert m <= 2 ==> (m + 1) * b <= 3 * b;
    assert m >= 4 ==> m * b >= 4 * b;
  }

  // ---------- The benchmark ----------

  /** image2 finds irep in all blocks, if the copies bring it where it was not before. */
  ghost predicate PingHolds(mode: Mode, s: Shape, b: seq<int>, irep: int) {
    forall i :: 0 <= i < |b| && s.InBlock(i) ==> Copied(mode, s, |b|, i) || b[i] == irep
  }

  /** image1's array when -irep has come back where the copies reach. */
  ghost predicate Returned(mode: Mode, s: Shape, a: seq<int>, irep: int) {
    forall i :: 0 <= i < |a| ==>
      a[i] == if !s.InBlock(i) then 0 else if Copied(mode, s, |a|, i) then -irep else irep
  }

  lemma StrideOfShape(mode: Mode, max: nat, s: Shape)
    requires ShapeOK(mode, max, s)
    ensures (mode.Strided() ==> 2 * s.blksize <= s.stride) && (mode.Many() ==> s.blksize == s.stride)
  {
  }

  /** The copies of one ping or pong, and the flush after them. */
  method CopyAll(src: array<int>, dst: array<int>, mode: Mode, max: nat, s: Shape)
    requires src != dst && ShapeOK(mode, max, s) && src.Length == dst.Length == LocalSize(mode, max, s)
    modifies dst
    ensures forall i :: 0 <= i < dst.Length ==> dst[i] == if Copied(mode, s, dst.Length, i) then src[i] else old(dst[i])
  {
    hide Copied, ShapeOK;
    ShapeFits(mode, max, s);
    StrideOfShape(mode, max, s);
    var pending := IssueCopies(mode, s, src.Length);
    Flush(src, dst, pending);
  }

  lemma OneElement(mode: Mode, s: Shape, size: nat)
    requires (mode.Put? || mode.Get?) && s.Data() == 1 && size >= 1
    ensures forall i :: Copied(mode, s, size, i) <==> i == 0
  {
  }

  /** The ping of a put, and either copy of a get: one element goes directly. */
  method Send(src: array<int>, dst: array<int>, mode: Mode, max: nat, s: Shape)
    requires src != dst && ShapeOK(mode, max, s) && src.Length == dst.Length == LocalSize(mode, max, s) >= 1
    modifies dst
    ensures forall i :: 0 <= i < dst.Length ==> dst[i] == if Copied(mode, s, dst.Length, i) then src[i] else old(dst[i])
  {
    hide Copied, ShapeOK;
    if (mode.Put? || mode.Get?) && s.Data() == 1 {
      OneElement(mode, s, dst.Length);
      dst[0] := src[0];
    } else {
      CopyAll(src, dst, mode, max, s);
    }
  }

  /** One repetition in put mode: image1 (a) puts irep to image2 (b), which checks it and
      puts -irep back. */
  method PutRepetition(a: array<int>, b: array<int>, mode: Mode, max: nat, s: Shape, irep: int, docheck: bool)
    returns (gcheck: bool)
    requires a != b && !mode.Gets() && !mode.Idle() && ShapeOK(mode, max, s) && irep >= 1
    requires a.Length == b.Length == LocalSize(mode, max, s) >= 1
    modifies a, b
    ensures gcheck <==> !docheck || Covered(mode, s, a.Length)
    ensures Covered(mode, s, a.Length) ==> IsSet(a[..], s, -irep)
    ensures IsSet(b[..], s, -irep)
    ensures if docheck && !PingHolds(mode, s, old(b[..]), irep) then IsSet(a[..], s, irep)
            else Returned(mode, s, a[..], irep)
  {
    hide Copied, ShapeOK;
    ShapeFits(mode, max, s);
    CafSet(a, s, irep);
    Send(a, b, mode, max, s);
    var lcheck := CafCheck(b, s, irep, docheck);
    CafSet(b, s, -irep);
    if docheck && !lcheck { return false; }
    CopyAll(b, a, mode, max, s);
    lcheck := CafCheck(a, s, -irep, docheck);
    return docheck ==> lcheck;
  }

  /** One repetition in get mode: image2 gets image1's data and sets its own to -irep;
      image1 gets that and sets its own to irep+1. */
  method GetRepetition(a: array<int>, b: array<int>, mode: Mode, max: nat, s: Shape, irep: int, docheck: bool)
    returns (gcheck: bool)
    requires a != b && mode.Gets() && ShapeOK(mode, max, s) && irep >= 1
    requires a.Length == b.Length == LocalSize(mode, max, s) >= 1 && BlocksHold(a[..], s, irep)
    modifies a, b
    ensures gcheck <==> !docheck || Covered(mode, s, a.Length)
    ensures gcheck ==> IsSet(a[..], s, irep + 1)
    ensures IsSet(b[..], s, -irep)
    ensures if docheck && !PingHolds(mode, s, old(b[..]), irep) then a[..] == old(a[..])
            else IsSet(a[..], s, irep + 1)
  {
    hide Copied, ShapeOK;
    ShapeFits(mode, max, s);
    Send(a, b, mode, max, s);
    var lcheck := CafCheck(b, s, irep, docheck);
    CafSet(b, s, -irep);
    if docheck && !lcheck { return false; }
    Send(b, a, mode, max, s);
    lcheck := CafCheck(a, s, -irep, docheck);
    CafSet(a, s, irep + 1);
    return docheck ==> lcheck;
  }

  /** A trial of nrep repetitions. */
  method Trial(a: array<int>, b: array<int>, mode: Mode, max: nat, s: Shape, nrep: int, docheck: bool)
    returns (gcheck: bool)
    requires a != b && ShapeOK(mode, max, s) && nrep >= 1 && a.Length == b.Length == LocalSize(mode, max, s) >= 1
    modifies a, b
    ensures gcheck <==> !docheck || mode.Idle() || Covered(mode, s, a.Length)
    ensures !mode.Idle() && Covered(mode, s, a.Length) ==>
            IsSet(a[..], s, if mode.Gets() then nrep + 1 else -nrep) && IsSet(b[..], s, -nrep)
  {
    hide Copied, ShapeOK, Covered;
    Fill(a);
    Fill(b);
    ShapeFits(mode, max, s);
    CafSet(a, s, 1);
    for irep := 1 to nrep + 1
      invariant irep == 1 ==> forall i :: 0 <= i < b.Length ==> b[i] == 0
      invariant irep > 1 ==> !docheck || mode.Idle() || Covered(mode, s, a.Length)
      invariant mode.Gets() ==> BlocksHold(a[..], s, irep)
      invariant irep > 1 && !mode.Idle() && Covered(mode, s, a.Length) ==>
        IsSet(a[..], s, if mode.Gets() then irep else 1 - irep) && IsSet(b[..], s, 1 - irep)
    {
      if mode.Idle() {
        gcheck := true;
      } else if mode.Gets() {
        gcheck := GetRepetition(a, b, mode, max, s, irep, docheck);
      } else {
        gcheck := PutRepetition(a, b, mode, max, s, irep, docheck);
      }
      if !gcheck { return; }
    }
    gcheck := true;
  }

  /** What the last trial leaves in the blocks of the two images: in the modes that put,
      the last value is on its way back; in those that get, image1 has set the next one. */
  ghost predicate LeftBehind(mode: Mode, s: Shape, nrep: int, a: seq<int>, b: seq<int>) {
    match mode
    case Put | AllPut | MPut | SMPut | MpiSend => IsSet(a, s, -nrep) && IsSet(b, s, -nrep)
    case Get | AllGet | MGet | SMGet => IsSet(a, s, nrep + 1) && IsSet(b, s, -nrep)
    case _ => true
  }

  /** Trials of one pattern until the clock is satisfied. */
  method RunShape(a: array<int>, b: array<int>, mode: Mode, max: nat, s: Shape, docheck: bool, trials: seq<nat>)
    returns (gcheck: bool)
    requires a != b && ShapeOK(mode, max, s) && a.Length == b.Length == LocalSize(mode, max, s) >= 1
    requires trials != [] && forall k :: 0 <= k < |trials| ==> trials[k] >= 1
    modifies a, b
    ensures gcheck <==> !docheck || Aligned(mode, s)
    ensures Aligned(mode, s) ==> LeftBehind(mode, s, trials[|trials| - 1], a[..], b[..])
  {
    hide Covered, IsSet;
    if !mode.Idle() {
      AlignedIsCovered(mode, max, s);
    }
    for k := 0 to |trials|
      invariant k > 0 ==> !docheck || mode.Idle() || Covered(mode, s, a.Length)
      invariant k > 0 && !mode.Idle() && Covered(mode, s, a.Length) ==>
        var nrep: int := trials[k - 1];
        IsSet(a[..], s, if mode.Gets() then nrep + 1 else -nrep) && IsSet(b[..], s, -nrep)
    {
      gcheck := Trial(a, b, mode, max, s, trials[k], docheck);
      if !gcheck { return; }
    }
    gcheck := true;
  }

  predicate PowerOfTwo(n: nat) {
    n == 1 || (n > 0 && n % 2 == 0 && PowerOfTwo(n / 2))
  }

  /** The sizes for which the strided patterns are aligned all the way down. */
  predicate Regular(mode: Mode, max: nat) {
    mode.Strided() ==> max <= 1 || PowerOfTwo(max / 2)
  }

  lemma RegularIs(mode: Mode, max: nat)
    ensures Regular(mode, max) <==> (mode.SMPut? || mode.SMGet? ==> max <= 1 || PowerOfTwo(max / 2))
  {
  }

  lemma {:induction false} PowersOfTwo(n: nat)
    ensures PowerOfTwo(n) <==> exists m: nat :: n == Power(2, m)
  {
    if n > 1 {
      PowersOfTwo(n / 2);
      if PowerOfTwo(n) {
        var m: nat :| n / 2 == Power(2, m);
        assert n == Power(2, m + 1);
      }
      if m: nat :| n == Power(2, m) {
        assert m > 0 && n / 2 == Power(2, m - 1);
      }
    } else if n == 1 {
      assert n == Power(2, 0);
    } else {
      forall m: nat ensures n != Power(2, m) {
        PowerPositive(m);
      }
    }
  }

  /** Every power of two is regular. */
  lemma PowersAreRegular(mode: Mode, max: nat)
    requires PowerOfTwo(max)
    ensures Regular(mode, max)
  {
  }

  /** What is left of the patterns is aligned. */
  predicate RestAligned(mode: Mode, s: Shape) {
    mode.Strided() ==> if s.count == 1 then s.stride <= 1 || PowerOfTwo(s.stride / 2) else PowerOfTwo(s.stride)
  }

  lemma RestAlignedSteps(mode: Mode, max: nat, s: Shape)
    requires ShapeOK(mode, max, s)
    ensures !Aligned(mode, s) ==> !RestAligned(mode, s)
    ensures Aligned(mode, s) && Finished(mode, max, NextShape(mode, s)) ==> RestAligned(mode, s)
    ensures Aligned(mode, s) && !Finished(mode, max, NextShape(mode, s)) ==>
              (RestAligned(mode, s) <==> RestAligned(mode, NextShape(mode, s)))
  {
  }

  /** Smaller from one pattern to the next. */
  function ShapesLeft(mode: Mode, max: nat, s: Shape): int {
    if mode.Many() then max - s.count
    else if mode.Strided() || mode.Scattered() then s.stride
    else max - s.blksize
  }

  function TwoTo(k: nat): (p: nat)
    ensures p >= 1
  {
    PowerPositive(k);
    Power(2, k)
  }

  lemma QuotientIsNat(m: nat, p: nat)
    requires p >= 1
    ensures m / p >= 0
  {
  }

  /** The k-th pattern of the loop. */
  function PatternAt(mode: Mode, max: nat, k: nat): Shape {
    var p := TwoTo(k);
    QuotientIsNat(max, p);
    QuotientIsNat(max / 2, p);
    QuotientIsNat(128, p);
    match mode
    case Put | AllPut | MpiSend | SubPut | SimpleSubPut | Get | AllGet | SubGet | SimpleSubGet => Shape(1, p, p)
    case MPut | MGet => Shape(p, max / p, max / p)
    case SMPut | SMGet => Shape(p, max / 2 / p, max / p)
    case SPut | SGet => Shape(max / 128, 1, 128 / p)
    case MSubPut | SubMPut | MSubGet | SubMGet => Shape(1, max, max)
    case SSubPut | SSubGet => Shape(max / 128, 1, 128)
  }

  /** How many patterns the loop goes through: one for each power of two up to the size,
      of strides from the size down to 2 (at least one), or of strides from 128 to 1. */
  predicate Lines(mode: Mode, max: nat, n: nat) {
    match mode
    case Put | AllPut | MPut | MpiSend | SubPut | SimpleSubPut | Get | AllGet | MGet | SubGet | SimpleSubGet =>
      n >= 1 && Power(2, n - 1) <= max < Power(2, n)
    case SMPut | SMGet => n >= 1 && (n == 1 || Power(2, n) <= max) && max < Power(2, n + 1)
    case SPut | SGet => n == 8
    case MSubPut | SubMPut | SSubPut | MSubGet | SubMGet | SSubGet => false
  }

  /** So many are there when the loop finds the n-th pattern to be the first past the end. */
  lemma LinesAre(mode: Mode, max: nat, n: nat)
    requires max >= 1 && n >= 1 && Finished(mode, max, PatternAt(mode, max, n))
    requires n == 1 || !Finished(mode, max, PatternAt(mode, max, n - 1))
    ensures Lines(mode, max, n)
  {
    PowerPositive(n);
    PowerPositive(n - 1);
    match mode
    case SMPut | SMGet =>
      QuotientBound(max, Power(2, n), 2);
      QuotientBound(max, Power(2, n - 1), 2);
    case SPut | SGet =>
      QuotientBound(128, Power(2, n), 1);
      QuotientBound(128, Power(2, n - 1), 1);
      assert Power(2, 3) == 8 && Power(2, 6) == 64;
      if n >= 9 {
        PowerGrows(8, n - 1);
      } else if n <= 7 {
        PowerGrows(n, 7);
      }
    case _ =>
  }

  lemma QuotientBound(m: nat, p: nat, q: nat)
    requires p > 0
    ensures m / p < q <==> m < q * p
  {
    assert m == (m / p) * p + m % p;
    if m / p < q {
      assert (m / p + 1) * p <= q * p;
    } else {
      assert q * p <= (m / p) * p;
    }
  }

  lemma {:induction false} PowerGrows(k: nat, m: nat)
    requires k <= m
    ensures Power(2, k) <= Power(2, m)
  {
    if k < m {
      PowerGrows(k, m - 1);
      PowerPositive(m - 1);
    }
  }

  /** For powers of two: m + 1 patterns, m strided ones but at least one, or eight. */
  lemma LinesOfPower(mode: Mode, m: nat, n: nat)
    requires Lines(mode, Power(2, m), n)
    ensures n == match mode
                 case SMPut | SMGet => if m == 0 then 1 else m
                 case SPut | SGet => 8
                 case _ => m + 1
  {
    if mode.SMPut? || mode.SMGet? {
      OnlyPower(n, m);
    } else {
      OnlyPower(n - 1, m);
    }
  }

  lemma OnlyPower(k: nat, m: nat)
    ensures Power(2, k) <= Power(2, m) < Power(2, k + 1) ==> k == m
    ensures Power(2, m) < Power(2, k + 1) ==> m <= k
  {
    PowerPositive(m);
    if k < m {
      PowerGrows(k + 1, m);
    } else if m < k {
      PowerGrows(m + 1, k);
    }
  }

  lemma PatternsFollow(mode: Mode, max: nat, k: nat)
    ensures PatternAt(mode, max, 0) == FirstShape(mode, max)
    ensures NextShape(mode, PatternAt(mode, max, k)) == PatternAt(mode, max, k + 1)
  {
    FirstPattern(mode, max);
    PowerPositive(k);
    PowerPositive(k + 1);
    NextPower(k);
    DivideTwice(max, Power(2, k));
    DivideTwice(max / 2, Power(2, k));
    DivideTwice(128, Power(2, k));
    hide Power, FirstShape;
  }

  lemma FirstPattern(mode: Mode, max: nat)
    ensures PatternAt(mode, max, 0) == FirstShape(mode, max)
  {
    assert Power(2, 0) == 1;
  }

  lemma NextPower(k: nat)
    ensures Power(2, k + 1) == 2 * Power(2, k)
  {
  }

  lemma DivideTwice(m: nat, p: nat)
    requires p >= 1
    ensures m / p / 2 == m / (2 * p)
  {
    var q, r := m / p, m % p;
    var h, e := q / 2, q % 2;
    Halves(m, p, q, r, h, e);
    Remainder(e * p + r, 2 * p, h, m);
  }

  lemma Halves(m: nat, p: nat, q: nat, r: nat, h: nat, e: nat)
    requires m == q * p + r && q == 2 * h + e && e <= 1 && r < p
    ensures m == h * (2 * p) + (e * p + r) && e * p + r < 2 * p
  {
    assert q * p == (2 * h) * p + e * p;
  }

  /** The loop over patterns ends in all modes that it knows, and in no other. */
  lemma LoopEndsIff(mode: Mode, max: nat)
    requires max >= 1
    ensures (exists k: nat :: k >= 1 && Finished(mode, max, PatternAt(mode, max, k))) <==>
            !(mode.MSubPut? || mode.SubMPut? || mode.SSubPut? || mode.MSubGet? || mode.SubMGet? || mode.SSubGet?)
  {
    hide PatternAt, Finished;
    if !mode.Stuck() {
      PatternEnds(mode, max, max + P2P_MAX_STRIDE);
    } else {
      NeverFinished(mode, max);
    }
  }

  lemma NeverFinished(mode: Mode, max: nat)
    requires mode.Stuck()
    ensures forall s :: !Finished(mode, max, s)
  {
  }

  lemma PatternEnds(mode: Mode, max: nat, k: nat)
    requires !mode.Stuck() && k >= max + P2P_MAX_STRIDE
    ensures Finished(mode, max, PatternAt(mode, max, k))
  {
    hide Power;
    PowerExceeds(k);
    SmallQuotient(max, Power(2, k));
    SmallQuotient(P2P_MAX_STRIDE, Power(2, k));
  }

  lemma SmallQuotient(m: nat, p: nat)
    requires m < p
    ensures m / p == 0
  {
  }

  lemma {:induction false} PowerExceeds(k: nat)
    ensures Power(2, k) > k
  {
    if k > 0 { PowerExceeds(k - 1); }
  }

  /** A line is printed for each pattern that has validated: the first ones, in order. */
  ghost predicate IsReport(mode: Mode, max: nat, report: seq<Shape>) {
    && (forall k :: 0 <= k < |report| ==> report[k] == PatternAt(mode, max, k))
    && (forall k :: 0 < k < |report| ==> !Finished(mode, max, PatternAt(mode, max, k)))
  }

  /** cafpingpong, with the repetitions that the clock asks for given by trials, for the
      modes in which its loop ends (LoopEndsIff): it validates, in each of them and however
      copies land, exactly when the size is regular, so for every power of two. Otherwise it
      ends at the first pattern that is not aligned. The arrays are those of the last trial. */
  method CafPingPong(mode: Mode, max: nat, docheck: bool, trials: Shape -> seq<nat>)
    returns (gcheck: bool, report: seq<Shape>, a: array<int>, b: array<int>)
    requires max >= 1
    requires !mode.MSubPut? && !mode.SubMPut? && !mode.SSubPut? && !mode.MSubGet? && !mode.SubMGet? && !mode.SSubGet?
    requires forall s :: trials(s) != [] && forall k :: 0 <= k < |trials(s)| ==> trials(s)[k] >= 1
    ensures fresh(a) && fresh(b) && a != b
    ensures gcheck <==> !docheck || (mode.SMPut? || mode.SMGet? ==> max <= 1 || PowerOfTwo(max / 2))
    ensures PowerOfTwo(max) ==> gcheck
    ensures forall k :: 0 <= k < |report| ==> report[k] == PatternAt(mode, max, k)
    ensures docheck ==> forall k :: 0 <= k < |report| ==> Aligned(mode, report[k])
    ensures if gcheck then Lines(mode, max, |report|) else !Aligned(mode, PatternAt(mode, max, |report|))
    ensures gcheck ==> report != []
    ensures gcheck ==> a.Length == b.Length == LocalSize(mode, max, report[|report| - 1])
    ensures gcheck && Aligned(mode, report[|report| - 1]) ==>
              var s := report[|report| - 1]; LeftBehind(mode, s, trials(s)[|trials(s)| - 1], a[..], b[..])
  {
    hide LoopOK, IsReport, Aligned, Regular, ShapesLeft, NextShape, FirstShape, Finished, PatternAt, IsSet;
    hide LeftBehind, Lines;
    RegularIs(mode, max);
    var s := FirstShape(mode, max);
    a, b := new int[max], new int[max];
    report := [];
    var finished := false;
    LoopStarts(mode, max, docheck);
    if PowerOfTwo(max) {
      PowersAreRegular(mode, max);
    }
    while !finished
      invariant fresh(a) && fresh(b) && a != b && (!mode.Whole() ==> a.Length == b.Length == max)
      invariant LoopOK(mode, max, docheck, s, report, finished)
      invariant report != [] ==> a.Length == b.Length == LocalSize(mode, max, report[|report| - 1])
      invariant report != [] && Aligned(mode, report[|report| - 1]) ==>
        var s := report[|report| - 1]; LeftBehind(mode, s, trials(s)[|trials(s)| - 1], a[..], b[..])
      decreases !finished, ShapesLeft(mode, max, s)
    {
      LoopShape(mode, max, docheck, s, report);
      if mode.Whole() {
        SomeData(mode, max, s);
        a, b := new int[s.Data()], new int[s.Data()];
      }
      gcheck := RunShape(a, b, mode, max, s, docheck, trials(s));
      LoopGoesOn(mode, max, docheck, s, report);
      if !gcheck { return; }
      report := report + [s];
      s := NextShape(mode, s);
      finished := Finished(mode, max, s);
    }
    LoopEnds(mode, max, docheck, s, report);
    gcheck := true;
  }

  /** The outer loop: the patterns so far have been run in order, and whether the size is
      regular depends on those to come. */
  ghost predicate LoopOK(mode: Mode, max: nat, docheck: bool, s: Shape, report: seq<Shape>, finished: bool) {
    && s == PatternAt(mode, max, |report|) && IsReport(mode, max, report)
    && (docheck ==> forall k :: 0 <= k < |report| ==> Aligned(mode, report[k]))
    && (|report| > 0 ==> (finished <==> Finished(mode, max, s)))
    && (if finished then |report| > 0 && (!docheck || Regular(mode, max))
        else ShapeOK(mode, max, s) && (docheck ==> (RestAligned(mode, s) <==> Regular(mode, max))))
  }

  lemma LoopStarts(mode: Mode, max: nat, docheck: bool)
    requires max >= 1
    ensures LoopOK(mode, max, docheck, FirstShape(mode, max), [], false)
  {
    hide PatternAt, ShapeOK, RestAligned, Regular, FirstShape;
    ShapeStarts(mode, max);
    FirstRest(mode, max);
    PatternsFollow(mode, max, 0);
  }

  lemma LoopShape(mode: Mode, max: nat, docheck: bool, s: Shape, report: seq<Shape>)
    requires LoopOK(mode, max, docheck, s, report, false)
    ensures ShapeOK(mode, max, s) && IsReport(mode, max, report) && s == PatternAt(mode, max, |report|)
    ensures forall k :: 0 <= k < |report| ==> report[k] == PatternAt(mode, max, k)
    ensures docheck ==> forall k :: 0 <= k < |report| ==> Aligned(mode, report[k])
  {
  }

  lemma LoopGoesOn(mode: Mode, max: nat, docheck: bool, s: Shape, report: seq<Shape>)
    requires LoopOK(mode, max, docheck, s, report, false) && max >= 1 && !mode.Stuck()
    ensures docheck && !Aligned(mode, s) ==> !Regular(mode, max)
    ensures var next := NextShape(mode, s);
            !docheck || Aligned(mode, s) ==>
              && LoopOK(mode, max, docheck, next, report + [s], Finished(mode, max, next))
              && (Finished(mode, max, next) || 0 <= ShapesLeft(mode, max, next) < ShapesLeft(mode, max, s))
  {
    hide PatternAt, ShapeOK, RestAligned, Aligned, Regular, Finished, NextShape, ShapesLeft;
    RestAlignedSteps(mode, max, s);
    ShapesGoDown(mode, max, s);
    PatternsFollow(mode, max, |report|);
    if !Finished(mode, max, NextShape(mode, s)) {
      ShapeStays(mode, max, s);
      ShapesGoDown(mode, max, NextShape(mode, s));
    }
  }

  lemma LoopEnds(mode: Mode, max: nat, docheck: bool, s: Shape, report: seq<Shape>)
    requires LoopOK(mode, max, docheck, s, report, true)
    requires max >= 1
    ensures !docheck || Regular(mode, max)
    ensures report != [] && Lines(mode, max, |report|)
    ensures forall k :: 0 <= k < |report| ==> report[k] == PatternAt(mode, max, k)
    ensures docheck ==> forall k :: 0 <= k < |report| ==> Aligned(mode, report[k])
  {
    LinesAre(mode, max, |report|);
  }

  lemma SomeData(mode: Mode, max: nat, s: Shape)
    requires mode.Whole() && ShapeOK(mode, max, s)
    ensures s.Data() >= 1
  {
  }

  /** For other sizes validation may fail: with 6 elements the second strided pattern has
      blocks 3 apart, copied 2 apart. */
  lemma SixIsIrregular()
    ensures !Regular(SMPut, 6) && !Regular(SMGet, 6)
    ensures PatternAt(SMPut, 6, 1) == Shape(2, 1, 3) && Shape(2, 1, 3).InBlock(3)
    ensures !Copied(SMPut, Shape(2, 1, 3), 6, 3)
  {
    assert Power(2, 1) == 2 * Power(2, 0);
    MissedElement(Shape(2, 1, 3), 6);
  }

  lemma FirstRest(mode: Mode, max: nat)
    ensures RestAligned(mode, FirstShape(mode, max)) <==> Regular(mode, max)
  {
  }

  lemma ShapesGoDown(mode: Mode, max: nat, s: Shape)
    requires ShapeOK(mode, max, s) && max >= 1 && !mode.Stuck()
    ensures 0 <= ShapesLeft(mode, max, s)
    ensures ShapesLeft(mode, max, NextShape(mode, s)) < ShapesLeft(mode, max, s) ||
            Finished(mode, max, NextShape(mode, s))
  {
  }
}
