/** The index arithmetic of the rotation kernels (update_screen_template.cpp
    and update_screen_downgrade_template.cpp). A kernel walks a `stride x height`
    source in column order (`x` outer, `y` inner) and, at each point, reads one
    source pixel and writes one destination pixel. Which pixels depends only on
    the branch taken for the `rotation` argument; the value written is the source
    pixel passed through a conversion (the identity for the plain kernels,
    `convertFormat42` for the downgrading one).

    `Rotated` is the destination contents the kernels are proved to produce. */
module RotationMaps {
  import opened IndexArith

  /** The branch a kernel takes: 90, 180 and 270 degrees, or any other value. */
  datatype Branch = Rot90 | Rot180 | Rot270 | Straight

  function BranchOf(rotation: int): Branch {
    if rotation == 90 then Rot90
    else if rotation == 180 then Rot180
    else if rotation == 270 then Rot270
    else Straight
  }

  /** The destination index written at loop point `(x, y)`. */
  function DestIndex(b: Branch, stride: nat, height: nat, x: nat, y: nat): (d: nat)
    requires x < stride && y < height
    ensures d < stride * height
  {
    match b
    case Rot90 =>
      CellBelow(stride - x - 1, y, stride, height);
      (stride - x - 1) * height + y
    case Rot270 =>
      CellBelow(x, height - y - 1, stride, height);
      x * height + (height - y - 1)
    case _ =>
      CellBelow(y, x, height, stride);
      y * stride + x
  }

  /** The source index read at loop point `(x, y)`. */
  function SrcIndex(b: Branch, stride: nat, height: nat, x: nat, y: nat): (i: nat)
    requires x < stride && y < height
    ensures i < stride * height
  {
    if b == Rot180 then
      CellBelow(height - 1 - y, stride - 1 - x, height, stride);
      (height - 1 - y) * stride + (stride - 1 - x)
    else
      CellBelow(y, x, height, stride);
      y * stride + x
  }

  /** The loop point that writes destination index `k` (the inverse of `DestIndex`). */
  function Coords(b: Branch, stride: nat, height: nat, k: nat): (p: (nat, nat))
    requires k < stride * height
    ensures p.0 < stride && p.1 < height
  {
    match b
    case Rot90 =>
      QuotientBelow(k, stride, height);
      (stride - 1 - k / height, k % height)
    case Rot270 =>
      QuotientBelow(k, stride, height);
      (k / height, height - 1 - k % height)
    case _ =>
      QuotientBelow(k, height, stride);
      (k % stride, k / stride)
  }

  /** The source index whose pixel ends up at destination index `k`. */
  function SourceOf(b: Branch, stride: nat, height: nat, k: nat): (i: nat)
    requires k < stride * height
    ensures i < stride * height
  {
    var (x, y) := Coords(b, stride, height, k);
    SrcIndex(b, stride, height, x, y)
  }

  /** The first `stride * height` destination pixels after a kernel has run
      branch `b` with conversion `conv` over `src`. */
  function Rotated<S, T>(b: Branch, src: seq<S>, stride: nat, height: nat, conv: S -> T): (r: seq<T>)
    requires stride * height <= |src|
    ensures |r| == stride * height
  {
    seq(stride * height, k requires 0 <= k < stride * height => conv(src[SourceOf(b, stride, height, k)]))
  }

  function Id<S>(p: S): S { p }

  /** `Coords` recovers the loop point from the index it writes. */
  lemma CoordsOfDest(b: Branch, stride: nat, height: nat, x: nat, y: nat)
    requires x < stride && y < height
    ensures Coords(b, stride, height, DestIndex(b, stride, height, x, y)) == (x, y)
  {
    match b
    case Rot90 => DivModOf(stride - x - 1, height, y);
    case Rot270 => DivModOf(x, height, height - y - 1);
    case _ => DivModOf(y, stride, x);
  }

  /** Every destination index inside the rectangle is written at the loop point `Coords` names. */
  lemma DestOfCoords(b: Branch, stride: nat, height: nat, k: nat)
    requires k < stride * height
    ensures var (x, y) := Coords(b, stride, height, k); DestIndex(b, stride, height, x, y) == k
  {
  }

  /** No two loop points write the same destination index: with `DestOfCoords`
      every index below `stride * height` is written exactly once. */
  lemma WrittenOnce(b: Branch, stride: nat, height: nat, x1: nat, y1: nat, x2: nat, y2: nat)
    requires x1 < stride && y1 < height && x2 < stride && y2 < height
    requires DestIndex(b, stride, height, x1, y1) == DestIndex(b, stride, height, x2, y2)
    ensures x1 == x2 && y1 == y2
  {
    CoordsOfDest(b, stride, height, x1, y1);
    CoordsOfDest(b, stride, height, x2, y2);
  }

  /** The pixel written at loop point `(x, y)` is the converted pixel read there. */
  lemma RotatedAt<S, T>(b: Branch, src: seq<S>, stride: nat, height: nat, conv: S -> T, x: nat, y: nat)
    requires stride * height <= |src| && x < stride && y < height
    ensures Rotated(b, src, stride, height, conv)[DestIndex(b, stride, height, x, y)]
         == conv(src[SrcIndex(b, stride, height, x, y)])
  {
    var d := DestIndex(b, stride, height, x, y);
    CoordsOfDest(b, stride, height, x, y);
    assert SourceOf(b, stride, height, d) == SrcIndex(b, stride, height, x, y);
  }

  /** 90 degrees: `dest[(stride - x - 1) * height + y] == src[y * stride + x]`. */
  lemma Rotated90Formula<S, T>(src: seq<S>, stride: nat, height: nat, conv: S -> T, x: nat, y: nat)
    requires stride * height <= |src| && x < stride && y < height
    ensures 0 <= (stride - x - 1) * height + y < stride * height
    ensures 0 <= y * stride + x < stride * height
    ensures Rotated(Rot90, src, stride, height, conv)[(stride - x - 1) * height + y]
         == conv(src[y * stride + x])
  {
    CellBelow(stride - x - 1, y, stride, height);
    CellBelow(y, x, height, stride);
    RotatedAt(Rot90, src, stride, height, conv, x, y);
  }

  /** 180 degrees: `dest[y * stride + x] == src[(height - 1 - y) * stride + (stride - 1 - x)]`. */
  lemma Rotated180Formula<S, T>(src: seq<S>, stride: nat, height: nat, conv: S -> T, x: nat, y: nat)
    requires stride * height <= |src| && x < stride && y < height
    ensures 0 <= y * stride + x < stride * height
    ensures 0 <= (height - 1 - y) * stride + (stride - 1 - x) < stride * height
    ensures Rotated(Rot180, src, stride, height, conv)[y * stride + x]
         == conv(src[(height - 1 - y) * stride + (stride - 1 - x)])
  {
    CellBelow(y, x, height, stride);
    CellBelow(height - 1 - y, stride - 1 - x, height, stride);
    RotatedAt(Rot180, src, stride, height, conv, x, y);
  }

  /** 270 degrees: `dest[x * height + (height - y - 1)] == src[y * stride + x]`. */
  lemma Rotated270Formula<S, T>(src: seq<S>, stride: nat, height: nat, conv: S -> T, x: nat, y: nat)
    requires stride * height <= |src| && x < stride && y < height
    ensures 0 <= x * height + (height - y - 1) < stride * height
    ensures 0 <= y * stride + x < stride * height
    ensures Rotated(Rot270, src, stride, height, conv)[x * height + (height - y - 1)]
         == conv(src[y * stride + x])
  {
    CellBelow(x, height - y - 1, stride, height);
    CellBelow(y, x, height, stride);
    RotatedAt(Rot270, src, stride, height, conv, x, y);
  }

  /** Any other rotation keeps every pixel in place: `dest[i] == src[i]`. */
  lemma StraightInPlace<S, T>(src: seq<S>, stride: nat, height: nat, conv: S -> T, i: nat)
    requires stride * height <= |src| && i < stride * height
    ensures Rotated(Straight, src, stride, height, conv)[i] == conv(src[i])
  {
    var (x, y) := Coords(Straight, stride, height, i);
    DestOfCoords(Straight, stride, height, i);
    assert SourceOf(Straight, stride, height, i) == y * stride + x == i;
  }

  /** 180 degrees reads the pixel mirrored through the centre of the buffer. */
  lemma Rotated180Mirror<S, T>(src: seq<S>, stride: nat, height: nat, conv: S -> T, k: nat)
    requires stride * height <= |src| && k < stride * height
    ensures Rotated(Rot180, src, stride, height, conv)[k] == conv(src[stride * height - 1 - k])
  {
    var (x, y) := Coords(Rot180, stride, height, k);
    DestOfCoords(Rot180, stride, height, k);
    assert k == y * stride + x;
    calc {
      SourceOf(Rot180, stride, height, k);
      (height - 1 - y) * stride + (stride - 1 - x);
      { MulComm(height, stride); }
      stride * height - 1 - k;
    }
  }

  /** Applying the 180-degree kernel twice restores the source. */
  lemma Rotate180Twice<S>(src: seq<S>, stride: nat, height: nat)
    requires stride * height <= |src|
    ensures Rotated(Rot180, Rotated(Rot180, src, stride, height, Id), stride, height, Id)
         == src[..stride * height]
  {
    var once := Rotated(Rot180, src, stride, height, Id);
    var twice := Rotated(Rot180, once, stride, height, Id);
    forall k | 0 <= k < stride * height
      ensures twice[k] == src[k]
    {
      Rotated180Mirror(once, stride, height, Id, k);
      Rotated180Mirror(src, stride, height, Id, stride * height - 1 - k);
    }
  }

  /** The 90-degree output, read back as a `height x stride` frame and fed to the
      270-degree kernel, gives back the source frame: the two maps are inverse
      permutations. */
  lemma Rotate90Then270<S>(src: seq<S>, stride: nat, height: nat)
    requires stride * height <= |src|
    ensures height * stride == stride * height
    ensures Rotated(Rot270, Rotated(Rot90, src, stride, height, Id), height, stride, Id)
         == src[..stride * height]
  {
    MulComm(stride, height);
    var turned := Rotated(Rot90, src, stride, height, Id);
    var back := Rotated(Rot270, turned, height, stride, Id);
    forall k | 0 <= k < stride * height
      ensures back[k] == src[k]
    {
      // the 270-degree kernel on the turned frame writes k at (x', y')
      var (x', y') := Coords(Rot270, height, stride, k);
      DestOfCoords(Rot270, height, stride, k);
      assert k == x' * stride + (stride - y' - 1);
      // it reads turned[j], which the 90-degree kernel wrote at (stride - 1 - y', x')
      var j := SrcIndex(Rot270, height, stride, x', y');
      assert SourceOf(Rot270, height, stride, k) == j;
      assert back[k] == Id(turned[j]) == turned[j];
      assert j == y' * height + x' == DestIndex(Rot90, stride, height, stride - 1 - y', x');
      RotatedAt(Rot90, src, stride, height, Id, stride - 1 - y', x');
      // from the source index k again
      assert SrcIndex(Rot90, stride, height, stride - 1 - y', x') == x' * stride + (stride - 1 - y');
    }
  }

  /** The other order: 270 degrees, then 90 degrees on the swapped frame, is the identity too. */
  lemma Rotate270Then90<S>(src: seq<S>, stride: nat, height: nat)
    requires stride * height <= |src|
    ensures height * stride == stride * height
    ensures Rotated(Rot90, Rotated(Rot270, src, stride, height, Id), height, stride, Id)
         == src[..stride * height]
  {
    MulComm(stride, height);
    var turned := Rotated(Rot270, src, stride, height, Id);
    var back := Rotated(Rot90, turned, height, stride, Id);
    forall k | 0 <= k < stride * height
      ensures back[k] == src[k]
    {
      var (x', y') := Coords(Rot90, height, stride, k);
      DestOfCoords(Rot90, height, stride, k);
      assert k == (height - x' - 1) * stride + y';
      var j := SrcIndex(Rot90, height, stride, x', y');
      assert SourceOf(Rot90, height, stride, k) == j;
      assert back[k] == Id(turned[j]) == turned[j];
      assert j == y' * height + x' == DestIndex(Rot270, stride, height, y', height - 1 - x');
      RotatedAt(Rot270, src, stride, height, Id, y', height - 1 - x');
      assert SrcIndex(Rot270, stride, height, y', height - 1 - x') == (height - 1 - x') * stride + y';
    }
  }

  /** The 90-degree branch on a 4 x 2 frame holding 1..8. */
  lemma Rotate90Example()
    ensures Rotated(Rot90, [1, 2, 3, 4, 5, 6, 7, 8], 4, 2, Id) == [4, 8, 3, 7, 2, 6, 1, 5]
  {
    var src := [1, 2, 3, 4, 5, 6, 7, 8];
    Rotated90Formula(src, 4, 2, Id, 3, 0);
    Rotated90Formula(src, 4, 2, Id, 3, 1);
    Rotated90Formula(src, 4, 2, Id, 2, 0);
    Rotated90Formula(src, 4, 2, Id, 2, 1);
    Rotated90Formula(src, 4, 2, Id, 1, 0);
    Rotated90Formula(src, 4, 2, Id, 1, 1);
    Rotated90Formula(src, 4, 2, Id, 0, 0);
    Rotated90Formula(src, 4, 2, Id, 0, 1);
  }

  /** The 270-degree branch on the same frame. */
  lemma Rotate270Example()
    ensures Rotated(Rot270, [1, 2, 3, 4, 5, 6, 7, 8], 4, 2, Id) == [5, 1, 6, 2, 7, 3, 8, 4]
  {
    var src := [1, 2, 3, 4, 5, 6, 7, 8];
    Rotated270Formula(src, 4, 2, Id, 0, 0);
    Rotated270Formula(src, 4, 2, Id, 0, 1);
    Rotated270Formula(src, 4, 2, Id, 1, 0);
    Rotated270Formula(src, 4, 2, Id, 1, 1);
    Rotated270Formula(src, 4, 2, Id, 2, 0);
    Rotated270Formula(src, 4, 2, Id, 2, 1);
    Rotated270Formula(src, 4, 2, Id, 3, 0);
    Rotated270Formula(src, 4, 2, Id, 3, 1);
  }
}
