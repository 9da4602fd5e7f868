/** The RGBA pixel buffer of image.NewRGBA and the draw.Draw primitive that
    overmapper.go paints it with, over abstract colour tags. */
module Raster {
  import opened Geometry

  /** Colour tags. The five palette entries of overmapper.go are CBG (opaque
      black), CFG (opaque white), CNOTE (opaque blue), CGRID (red, alpha 180)
      and CORIGIN (green, alpha 180); Transparent is the zero pixel of a new
      image; Composite stands for the result of blending a translucent colour
      over another one. */
  datatype Colour =
    | Transparent
    | Bg
    | Fg
    | Note
    | Grid
    | Origin
    | Composite(top: Colour, under: Colour)

  /** Palette entries with alpha 255. */
  predicate Opaque(c: Colour)
  {
    c.Bg? || c.Fg? || c.Note?
  }

  /** draw.Src and draw.Over. */
  datatype Mode = Src | Over

  /** The colour a pixel of colour `under` takes when `c` is drawn on it. */
  function Apply(mode: Mode, c: Colour, under: Colour): (r: Colour)
    ensures mode == Src || Opaque(c) ==> r == c
    ensures mode == Over && c == Transparent ==> r == under
    ensures r == c || r == under || r == Composite(c, under)
  {
    match mode
    case Src => c
    case Over => if Opaque(c) then c else if c == Transparent then under else Composite(c, under)
  }

  /** One call of draw.Draw with a uniform source. */
  datatype DrawOp = DrawOp(r: PixelRect, c: Colour, mode: Mode)

  function ApplyAt(op: DrawOp, px: int, py: int, under: Colour): Colour
  {
    if Contains(op.r, px, py) then Apply(op.mode, op.c, under) else under
  }

  /** The colour of pixel (px, py) when the ops are drawn in order over a pixel of colour `base`. */
  function PaintOver(base: Colour, ops: seq<DrawOp>, px: int, py: int): (r: Colour)
    decreases |ops|
  {
    if ops == [] then base
    else ApplyAt(ops[|ops| - 1], px, py, PaintOver(base, ops[..|ops| - 1], px, py))
  }

  /** The colour of pixel (px, py) of a new image after the ops. */
  function Paint(ops: seq<DrawOp>, px: int, py: int): Colour
  {
    PaintOver(Transparent, ops, px, py)
  }

  predicate Touches(ops: seq<DrawOp>, px: int, py: int)
  {
    exists op :: op in ops && Contains(op.r, px, py)
  }

  /** An op that leaves colour k on every pixel it touches, whatever was there. */
  predicate Leaves(op: DrawOp, k: Colour)
  {
    op.c == k && (op.mode == Src || Opaque(k))
  }

  /** Painting a + b is painting b over the result of a. */
  lemma {:induction false} PaintConcat(base: Colour, a: seq<DrawOp>, b: seq<DrawOp>, px: int, py: int)
    ensures PaintOver(base, a + b, px, py) == PaintOver(PaintOver(base, a, px, py), b, px, py)
    decreases |b|
  {
    if b == [] {
      assert a + b == a;
    } else {
      var b' := b[..|b| - 1];
      assert (a + b)[..|a + b| - 1] == a + b';
      PaintConcat(base, a, b', px, py);
    }
  }

  /** Ops that do not touch a pixel leave it as it was. */
  lemma {:induction false} PaintUntouched(base: Colour, ops: seq<DrawOp>, px: int, py: int)
    requires !Touches(ops, px, py)
    ensures PaintOver(base, ops, px, py) == base
    decreases |ops|
  {
    if ops != [] {
      assert ops[|ops| - 1] in ops;
      var init := ops[..|ops| - 1];
      assert !Touches(init, px, py) by {
        forall op | op in init ensures !Contains(op.r, px, py) {
          assert op in ops;
        }
      }
      PaintUntouched(base, init, px, py);
    }
  }

  /** When every op leaves colour k, a pixel ends up k if any op touches it and keeps its colour otherwise. */
  lemma {:induction false} PaintUniform(base: Colour, ops: seq<DrawOp>, k: Colour, px: int, py: int)
    requires forall op :: op in ops ==> Leaves(op, k)
    ensures PaintOver(base, ops, px, py) == if Touches(ops, px, py) then k else base
    decreases |ops|
  {
    if ops != [] {
      var init := ops[..|ops| - 1];
      var last := ops[|ops| - 1];
      assert last in ops;
      forall op | op in init ensures Leaves(op, k) { assert op in ops; }
      PaintUniform(base, init, k, px, py);
      assert Touches(ops, px, py) <==> Touches(init, px, py) || Contains(last.r, px, py) by {
        assert ops == init + [last];
      }
    }
  }

  /** A pixel buffer of width x height colour tags, together with the ghost
      list of draw.Draw calls made on it so far; Valid ties every pixel to
      that history. */
  class Canvas {
    const width: nat
    const height: nat
    const pixels: array2<Colour>
    ghost var history: seq<DrawOp>

    ghost predicate Valid()
      reads this, pixels
    {
      && pixels.Length0 == width
      && pixels.Length1 == height
      && forall px, py :: 0 <= px < width && 0 <= py < height ==>
           pixels[px, py] == Paint(history, px, py)
    }

    /** image.NewRGBA(image.Rect(0, 0, w, h)): every pixel is transparent. */
    constructor (w: nat, h: nat)
      ensures Valid() && fresh(pixels)
      ensures width == w && height == h && history == []
    {
      width, height := w, h;
      pixels := new Colour[w, h]((_, _) => Transparent);
      history := [];
    }

    /** draw.Draw(img, r, uniform colour c, image.ZP, mode): every pixel of r
        that lies inside the image is combined with c, clipped to the image. */
    method Draw(r: PixelRect, c: Colour, mode: Mode)
      requires Valid()
      modifies this, pixels
      ensures Valid()
      ensures history == old(history) + [DrawOp(r, c, mode)]
      ensures forall px, py :: 0 <= px < width && 0 <= py < height ==>
                pixels[px, py] == ApplyAt(DrawOp(r, c, mode), px, py, old(pixels[px, py]))
    {
      var x0, x1 := Max(r.minX, 0), Min(r.maxX, width);
      var y0, y1 := Max(r.minY, 0), Min(r.maxY, height);
      var y := y0;
      while y < y1
        invariant y0 <= y
        invariant history == old(history)
        invariant forall px, py :: 0 <= px < width && 0 <= py < height ==>
                    pixels[px, py] == if Contains(r, px, py) && py < y
                                      then Apply(mode, c, old(pixels[px, py])) else old(pixels[px, py])
      {
        var x := x0;
        while x < x1
          invariant x0 <= x
          invariant history == old(history)
          invariant forall px, py :: 0 <= px < width && 0 <= py < height ==>
                      pixels[px, py] == if Contains(r, px, py) && (py < y || (py == y && px < x))
                                        then Apply(mode, c, old(pixels[px, py])) else old(pixels[px, py])
        {
          pixels[x, y] := Apply(mode, c, pixels[x, y]);
          x := x + 1;
        }
        y := y + 1;
      }
      ghost var before := history;
      history := history + [DrawOp(r, c, mode)];
      forall px, py | 0 <= px < width && 0 <= py < height
        ensures pixels[px, py] == Paint(history, px, py)
      {
        assert history[..|history| - 1] == before;
      }
    }
  }
}
