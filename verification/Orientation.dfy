/** Turning an image upright by its orientation tag (TIFF 6.0, section 8, Orientation). */
module Orientation {
  const MAX_PIXELS: int := 20_000_000

  /** The dimension check divides instead of multiplying. */
  predicate ValidDimensions(width: int, height: int) {
    width > 0 && height > 0 && width <= MAX_PIXELS / height
  }

  /** It is exactly the bound of 20 million pixels. */
  lemma DimensionsExact(width: int, height: int)
    ensures ValidDimensions(width, height) <==> width > 0 && height > 0 && width * height <= 20_000_000
  {
    if height > 0 && width > 0 {
      var q := MAX_PIXELS / height;
      assert MAX_PIXELS == q * height + MAX_PIXELS % height;
      if width <= q {
        assert width * height <= q * height;
      } else {
        assert width * height >= (q + 1) * height == q * height + height;
      }
    }
  }

  // ------------------------------------------------------------------ pixels

  /** Width and height of the result. */
  function Turned(o: int, w: nat, h: nat): (nat, nat) {
    if o >= 5 then (h, w) else (w, h)
  }

  /** Where the pixel in column `x` and row `y` of a w by h image goes. */
  function Dest(o: int, w: nat, h: nat, x: int, y: int): (int, int) {
    match o
    case 2 => (w - 1 - x, y)
    case 3 => (w - 1 - x, h - 1 - y)
    case 4 => (x, h - 1 - y)
    case 5 => (y, x)
    case 6 => (h - 1 - y, x)
    case 7 => (h - 1 - y, w - 1 - x)
    case 8 => (y, w - 1 - x)
    case _ => (x, y)
  }

  /** The orientation that undoes `o`: every one is its own inverse but 6 and 8, which undo each other. */
  function Inverse(o: int): int {
    if o == 6 then 8 else if o == 8 then 6 else o
  }

  predicate Inside(p: (int, int), w: nat, h: nat) {
    0 <= p.0 < w && 0 <= p.1 < h
  }

  // What the tag says: on which side of the upright image the stored row 0 and column 0 lie.

  datatype Side = Top | Bottom | Left | Right

  function Row0(o: int): Side {
    match o
    case 1 => Top case 2 => Top case 3 => Bottom case 4 => Bottom
    case 5 => Left case 6 => Right case 7 => Right case _ => Left
  }

  function Column0(o: int): Side {
    match o
    case 1 => Left case 2 => Right case 3 => Right case 4 => Left
    case 5 => Top case 6 => Top case 7 => Bottom case _ => Bottom
  }

  /** How far a pixel of a w by h image is from a side. */
  function Distance(side: Side, p: (int, int), w: nat, h: nat): int {
    match side
    case Top => p.1
    case Bottom => h - 1 - p.1
    case Left => p.0
    case Right => w - 1 - p.0
  }

  /** Every stored pixel lands as far from the side of row 0 as its row number says, and as far from the
      side of column 0 as its column number says. */
  lemma PlacedByTheTag(o: int, w: nat, h: nat, x: int, y: int)
    requires 1 <= o <= 8 && Inside((x, y), w, h)
    ensures var (dw, dh) := Turned(o, w, h);
      && Inside(Dest(o, w, h, x, y), dw, dh)
      && Distance(Row0(o), Dest(o, w, h, x, y), dw, dh) == y
      && Distance(Column0(o), Dest(o, w, h, x, y), dw, dh) == x
  {
  }

  /** Orienting by the inverse brings every pixel back. */
  lemma DestBack(o: int, w: nat, h: nat, x: int, y: int)
    requires 1 <= o <= 8
    ensures var (dw, dh) := Turned(o, w, h);
      var (dx, dy) := Dest(o, w, h, x, y);
      Turned(Inverse(o), dw, dh) == (w, h) && Dest(Inverse(o), dw, dh, dx, dy) == (x, y)
  {
  }

  // ----------------------------------------------------------------- pictures

  datatype Picture<P> = Picture(w: nat, h: nat, pixels: map<(int, int), P>)

  function Grid(w: nat, h: nat): set<(int, int)> {
    set x: int, y: int | 0 <= x < w && 0 <= y < h :: (x, y)
  }

  ghost predicate Whole<P>(p: Picture<P>) {
    p.pixels.Keys == Grid(p.w, p.h)
  }

  function Source(o: int, w: nat, h: nat, d: (int, int)): (int, int) {
    var (dw, dh) := Turned(o, w, h);
    Dest(Inverse(o), dw, dh, d.0, d.1)
  }

  lemma SourceInside(o: int, w: nat, h: nat, d: (int, int))
    requires 1 <= o <= 8 && Inside(d, Turned(o, w, h).0, Turned(o, w, h).1)
    ensures Inside(Source(o, w, h, d), w, h)
    ensures Dest(o, w, h, Source(o, w, h, d).0, Source(o, w, h, d).1) == d
  {
    var (dw, dh) := Turned(o, w, h);
    PlacedByTheTag(Inverse(o), dw, dh, d.0, d.1);
    DestBack(Inverse(o), dw, dh, d.0, d.1);
  }

  /** The upright picture: every pixel of the result comes from exactly one of the source. */
  function Oriented<P>(p: Picture<P>, o: int): (r: Picture<P>)
    requires Whole(p) && 1 <= o <= 8
    ensures Whole(r) && (r.w, r.h) == Turned(o, p.w, p.h)
  {
    var (dw, dh) := Turned(o, p.w, p.h);
    assert forall d | d in Grid(dw, dh) :: Source(o, p.w, p.h, d) in p.pixels by {
      forall d | d in Grid(dw, dh) ensures Source(o, p.w, p.h, d) in p.pixels {
        SourceInside(o, p.w, p.h, d);
        assert Source(o, p.w, p.h, d) in Grid(p.w, p.h);
      }
    }
    Picture(dw, dh, map d | d in Grid(dw, dh) :: p.pixels[Source(o, p.w, p.h, d)])
  }

  lemma PixelMoves<P>(p: Picture<P>, o: int, x: int, y: int)
    requires Whole(p) && 1 <= o <= 8 && Inside((x, y), p.w, p.h)
    ensures (x, y) in p.pixels && Dest(o, p.w, p.h, x, y) in Oriented(p, o).pixels
    ensures Oriented(p, o).pixels[Dest(o, p.w, p.h, x, y)] == p.pixels[(x, y)]
  {
    assert (x, y) in Grid(p.w, p.h);
    PlacedByTheTag(o, p.w, p.h, x, y);
    DestBack(o, p.w, p.h, x, y);
    assert Dest(o, p.w, p.h, x, y) in Grid(Turned(o, p.w, p.h).0, Turned(o, p.w, p.h).1);
  }

  /** 2, 3, 4, 5 and 7 are involutions, and 6 and 8 undo each other, on every picture. */
  lemma OrientationUndone<P>(p: Picture<P>, o: int)
    requires Whole(p) && 1 <= o <= 8
    ensures Oriented(Oriented(p, o), Inverse(o)) == p
  {
    var q := Oriented(p, o);
    var r := Oriented(q, Inverse(o));
    forall d | d in p.pixels ensures d in r.pixels && r.pixels[d] == p.pixels[d] {
      var (x, y) := d;
      assert d in Grid(p.w, p.h);
      PixelMoves(p, o, x, y);
      PlacedByTheTag(o, p.w, p.h, x, y);
      DestBack(o, p.w, p.h, x, y);
      var (dx, dy) := Dest(o, p.w, p.h, x, y);
      PixelMoves(q, Inverse(o), dx, dy);
    }
    assert r.pixels == p.pixels;
  }

  // ------------------------------------------------------------ pixel by pixel

  /** The picture in an array of rows. */
  ghost function PictureOf<P>(a: array2<P>): (p: Picture<P>)
    reads a
    ensures Whole(p)
  {
    Picture(a.Length1, a.Length0, map d | d in Grid(a.Length1, a.Length0) :: a[d.1, d.0])
  }

  /** The pixels before (x, y) in reading order have been copied. */
  ghost predicate Written<P>(src: array2<P>, dst: array2<P>, o: int, w: nat, h: nat, y: int, x: int)
    requires 1 <= o <= 8
    reads src, dst
  {
    && src.Length1 == w && src.Length0 == h && (dst.Length1, dst.Length0) == Turned(o, w, h) && src != dst
    && forall i: int, j: int | Inside((i, j), w, h) && (j < y || (j == y && i < x)) ::
         var d := Dest(o, w, h, i, j);
         Inside(d, dst.Length1, dst.Length0) && dst[d.1, d.0] == src[j, i]
  }

  /** The switch on the orientation. */
  method Place(orientation: int, w: nat, h: nat, x: int, y: int) returns (dx: int, dy: int)
    requires 2 <= orientation <= 8
    ensures (dx, dy) == Dest(orientation, w, h, x, y)
  {
    dx, dy := x, y;
    match orientation {
      case 2 => dx := w - 1 - x;
      case 3 => dx, dy := w - 1 - x, h - 1 - y;
      case 4 => dy := h - 1 - y;
      case 5 => dx, dy := y, x;
      case 6 => dx, dy := h - 1 - y, x;
      case 7 => dx, dy := h - 1 - y, w - 1 - x;
      case 8 => dx, dy := y, w - 1 - x;
    }
  }

  /** One pixel is copied; no pixel copied before is overwritten. */
  method CopyPixel<P>(src: array2<P>, dst: array2<P>, orientation: int, w: nat, h: nat, x: nat, y: nat)
    requires 2 <= orientation <= 8 && x < w && y < h && Written(src, dst, orientation, w, h, y, x)
    modifies dst
    ensures Written(src, dst, orientation, w, h, y, x + 1)
  {
    PlacedByTheTag(orientation, w, h, x, y);
    var dx, dy := Place(orientation, w, h, x, y);
    forall i: int, j: int | Inside((i, j), w, h) && (i, j) != (x, y) ensures Dest(orientation, w, h, i, j) != (dx, dy) {
      DestBack(orientation, w, h, i, j);
      DestBack(orientation, w, h, x, y);
    }
    dst[dy, dx] := src[y, x];
  }

  /** orientImage: the loop writes every pixel of the result, each from its own source. */
  method OrientImage<P(0)>(src: array2<P>, orientation: int) returns (dst: array2<P>)
    requires 1 <= orientation <= 8
    ensures orientation == 1 ==> dst == src
    ensures orientation != 1 ==> fresh(dst)
    ensures PictureOf(dst) == Oriented(PictureOf(src), orientation)
  {
    var w, h := src.Length1, src.Length0;
    if orientation == 1 {
      OrientedOne(PictureOf(src));
      return src;
    }
    var dw, dh := w, h;
    if orientation >= 5 {
      dw, dh := h, w;
    }
    dst := new P[dh, dw];
    for y := 0 to h
      invariant Written(src, dst, orientation, w, h, y, 0)
    {
      for x := 0 to w
        invariant Written(src, dst, orientation, w, h, y, x)
      {
        CopyPixel(src, dst, orientation, w, h, x, y);
      }
    }
    AllWritten(src, dst, orientation, w, h);
  }

  lemma AllWritten<P>(src: array2<P>, dst: array2<P>, o: int, w: nat, h: nat)
    requires 1 <= o <= 8 && Written(src, dst, o, w, h, h, 0)
    ensures PictureOf(dst) == Oriented(PictureOf(src), o)
  {
    var p, q := PictureOf(src), PictureOf(dst);
    var r := Oriented(p, o);
    forall d | d in Grid(dst.Length1, dst.Length0) ensures q.pixels[d] == r.pixels[d] {
      SourceInside(o, w, h, d);
      var (x, y) := Source(o, w, h, d);
      assert Inside((x, y), w, h);
      assert (x, y) in Grid(w, h);
    }
    assert q.pixels == r.pixels;
  }

  lemma OrientedOne<P>(p: Picture<P>)
    requires Whole(p)
    ensures Oriented(p, 1) == p
  {
    forall d | d in p.pixels ensures Source(1, p.w, p.h, d) == d {
      assert d == (d.0, d.1);
    }
    assert Oriented(p, 1).pixels == p.pixels;
  }
}
