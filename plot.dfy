/**
  The line rasteriser of the plot view (src/ui/plot.c): `plot__putpx`,
  which writes one RGBA pixel into a row-major byte buffer, and
  `plot__line`, the integer Bresenham walk from (x0, y0) to (x1, y1) that
  writes every visited pixel lying inside a W x H image.

  The walk is described by the number of steps taken so far in x (i) and
  in y (j); `Trace` lists the points the loop visits, in order.
 */
module Plot {

  import Num

  newtype byte = x: int | 0 <= x < 256

  /** The four channel values written to a pixel. */
  datatype Color = Color(r: byte, g: byte, b: byte, a: byte)

  /** The byte offset of pixel (x, y) in a buffer of row width w. */
  function Offset(w: int, x: int, y: int): int {
    (y * w + x) * 4
  }

  /** The buffer after writing the four channels at byte offset o. */
  function SetPixel(buf: seq<byte>, o: nat, c: Color): (r: seq<byte>)
    requires o + 4 <= |buf|
    ensures |r| == |buf|
    ensures r[o] == c.r && r[o + 1] == c.g && r[o + 2] == c.b && r[o + 3] == c.a
    ensures forall k :: 0 <= k < |buf| && !(o <= k < o + 4) ==> r[k] == buf[k]
  {
    buf[o := c.r][o + 1 := c.g][o + 2 := c.b][o + 3 := c.a]
  }

  /**
    `plot__putpx`: write r, g, b, a at byte offsets (y*w+x)*4 .. +3. The
    source checks no bounds, so the caller keeps the pixel inside the buffer.
   */
  method PutPx(rgba: array<byte>, w: int, x: int, y: int, c: Color)
    requires 0 <= Offset(w, x, y) && Offset(w, x, y) + 4 <= rgba.Length
    modifies rgba
    ensures rgba[..] == SetPixel(old(rgba[..]), Offset(w, x, y), c)
  {
    var o := (y * w + x) * 4;
    rgba[o] := c.r;
    rgba[o + 1] := c.g;
    rgba[o + 2] := c.b;
    rgba[o + 3] := c.a;
  }

  /** A buffer of n bytes holds a W x H image of four-byte pixels. */
  predicate Fits(W: int, H: int, n: int) {
    0 <= W && 0 <= H && W * H * 4 <= n
  }

  /** A pixel inside a W x H image lies inside a buffer the image fits in. */
  lemma PixelInBuffer(W: int, H: int, n: int, x: int, y: int)
    requires Fits(W, H, n) && 0 <= x < W && 0 <= y < H
    ensures 0 <= Offset(W, x, y) && Offset(W, x, y) + 4 <= n
  {
    assert y * W <= (H - 1) * W by {
      assert (H - 1) * W - y * W == (H - 1 - y) * W;
    }
  }

  /** The (unsigned) bounds test of `plot__line`: for W, H >= 0 it rejects negative coordinates. */
  predicate Inside(W: int, H: int, p: (int, int)) {
    0 <= p.0 < W && 0 <= p.1 < H
  }

  /** What one visit does to the buffer: write the pixel when it is inside the image. */
  function Visit(buf: seq<byte>, W: int, H: int, p: (int, int), c: Color): (r: seq<byte>)
    requires Fits(W, H, |buf|)
    ensures |r| == |buf|
  {
    if Inside(W, H, p) then
      PixelInBuffer(W, H, |buf|, p.0, p.1);
      SetPixel(buf, Offset(W, p.0, p.1), c)
    else buf
  }

  /** The buffer after visiting the points in order. */
  function Draw(buf: seq<byte>, W: int, H: int, pts: seq<(int, int)>, c: Color): (r: seq<byte>)
    requires Fits(W, H, |buf|)
    ensures |r| == |buf|
    decreases |pts|
  {
    if pts == [] then buf else Draw(Visit(buf, W, H, pts[0], c), W, H, pts[1..], c)
  }

  // ---------------------------------------------------------------------------
  // The Bresenham walk
  // ---------------------------------------------------------------------------

  datatype Line = Line(x0: int, y0: int, x1: int, y1: int)

  /** `dx = abs(x1 - x0)`. */
  function Dx(l: Line): nat { Num.Abs(l.x1 - l.x0) }

  /** `-dy`: the source keeps `dy = -abs(y1 - y0)`, so this is the number of y steps. */
  function DyAbs(l: Line): nat { Num.Abs(l.y1 - l.y0) }

  /** `dy = -abs(y1 - y0)`. */
  function Dy(l: Line): int { -(DyAbs(l) as int) }

  /** `sx` and `sy`. */
  function Sx(l: Line): int { if l.x0 < l.x1 then 1 else -1 }
  function Sy(l: Line): int { if l.y0 < l.y1 then 1 else -1 }

  /** The point reached after i steps in x and j steps in y. */
  function PointAt(l: Line, i: int, j: int): (int, int) {
    (if l.x0 < l.x1 then l.x0 + i else l.x0 - i, if l.y0 < l.y1 then l.y0 + j else l.y0 - j)
  }

  /** `err` after i steps in x and j in y: it starts at dx + dy, each x step adds dy and each y step adds dx. */
  function Err(l: Line, i: nat, j: nat): int
    decreases i + j
  {
    if i > 0 then Err(l, i - 1, j) + Dy(l)
    else if j > 0 then Err(l, 0, j - 1) + Dx(l)
    else Dx(l) + Dy(l)
  }

  /** A y step adds dx whatever the number of x steps before it. */
  lemma {:induction false} ErrStepY(l: Line, i: nat, j: nat)
    ensures Err(l, i, j + 1) == Err(l, i, j) + Dx(l)
    decreases i
  {
    if i > 0 { ErrStepY(l, i - 1, j); }
  }

  /** The closed form of the error term: dx*(1 + j) - |dy|*(1 + i). */
  lemma {:induction false} ErrClosed(l: Line, i: nat, j: nat)
    ensures Err(l, i, j) == Dx(l) * (1 + j) - DyAbs(l) * (1 + i)
    decreases i + j
  {
    if i > 0 {
      ErrClosed(l, i - 1, j);
      assert DyAbs(l) * (1 + i) == DyAbs(l) * (1 + (i - 1)) + DyAbs(l);
    } else if j > 0 {
      ErrClosed(l, 0, j - 1);
      assert Dx(l) * (1 + j) == Dx(l) * (1 + (j - 1)) + Dx(l);
    }
  }

  lemma MulMono(a: nat, b: int, c: int)
    requires b <= c
    ensures a * b <= a * c
  {
    assert a * c - a * b == a * (c - b);
  }

  /**
    The two tests of one loop round never step past the end point: an x step
    happens only while x has not reached x1, a y step only while y has not
    reached y1, and since dy <= 0 <= dx at least one of them happens.
   */
  lemma StepInRange(l: Line, i: nat, j: nat)
    requires i <= Dx(l) && j <= DyAbs(l) && !(i == Dx(l) && j == DyAbs(l))
    ensures var e2 := 2 * Err(l, i, j);
      (e2 >= Dy(l) ==> i < Dx(l)) && (e2 <= Dx(l) ==> j < DyAbs(l)) && (e2 >= Dy(l) || e2 <= Dx(l))
  {
    ErrClosed(l, i, j);
    NoOvershoot(Dx(l), DyAbs(l), i, j, Err(l, i, j));
  }

  /** `StepInRange` on the closed form of the error term. */
  lemma NoOvershoot(dx: nat, d: int, i: nat, j: nat, e: int)
    requires 0 <= d && i <= dx && j <= d && !(i == dx && j == d)
    requires e == dx * (1 + j) - d * (1 + i)
    ensures (2 * e >= -d ==> i < dx) && (2 * e <= dx ==> j < d) && (2 * e >= -d || 2 * e <= dx)
  {
    if i == dx {
      MulMono(dx, 1 + j, d);
      assert 2 * e < -d;
    }
    if j == d {
      MulMono(d, 1 + i, dx);
      assert 2 * e > dx;
    }
  }

  /** One round of the loop from i x-steps and j y-steps: `e2 >= dy` steps x, `e2 <= dx` steps y. */
  function Advance(l: Line, i: nat, j: nat): (r: (nat, nat))
    requires i <= Dx(l) && j <= DyAbs(l) && !(i == Dx(l) && j == DyAbs(l))
    ensures r.0 <= Dx(l) && r.1 <= DyAbs(l) && r.0 + r.1 > i + j
    ensures (r.0 == i || r.0 == i + 1) && (r.1 == j || r.1 == j + 1)
  {
    var e2 := 2 * Err(l, i, j);
    StepInRange(l, i, j);
    (if e2 >= Dy(l) then i + 1 else i, if e2 <= Dx(l) then j + 1 else j)
  }

  /** The points the loop visits from the state after i x-steps and j y-steps, ending at (x1, y1). */
  function TraceFrom(l: Line, i: nat, j: nat): (pts: seq<(int, int)>)
    requires i <= Dx(l) && j <= DyAbs(l)
    ensures 1 <= |pts| <= Dx(l) - i + DyAbs(l) - j + 1
    ensures pts[0] == PointAt(l, i, j) && pts[|pts| - 1] == (l.x1, l.y1)
    decreases Dx(l) - i + DyAbs(l) - j
  {
    if i == Dx(l) && j == DyAbs(l) then [PointAt(l, i, j)]
    else
      var (i', j') := Advance(l, i, j);
      [PointAt(l, i, j)] + TraceFrom(l, i', j')
  }

  /** Every point `plot__line` visits, in order: from (x0, y0) to (x1, y1). */
  function Trace(l: Line): (pts: seq<(int, int)>)
    ensures |pts| >= 1 && pts[0] == (l.x0, l.y0) && pts[|pts| - 1] == (l.x1, l.y1)
    ensures |pts| <= Dx(l) + DyAbs(l) + 1
  {
    TraceFrom(l, 0, 0)
  }

  /** Each round moves by sx in x, by sy in y, or both: consecutive points are 8-neighbours in the line's direction. */
  predicate OneStep(l: Line, p: (int, int), q: (int, int)) {
    (q.0 == p.0 || q.0 == p.0 + Sx(l)) && (q.1 == p.1 || q.1 == p.1 + Sy(l)) && q != p
  }

  /** Consecutive points of the sequence are one step apart. */
  predicate Steps(l: Line, pts: seq<(int, int)>) {
    forall k :: 0 <= k < |pts| - 1 ==> OneStep(l, pts[k], pts[k + 1])
  }

  lemma StepsCons(l: Line, p: (int, int), rest: seq<(int, int)>)
    requires Steps(l, rest) && |rest| > 0 && OneStep(l, p, rest[0])
    ensures Steps(l, [p] + rest)
  {
    var pts := [p] + rest;
    forall k | 0 <= k < |pts| - 1 ensures OneStep(l, pts[k], pts[k + 1]) {
      if k > 0 {
        assert pts[k] == rest[k - 1] && pts[k + 1] == rest[k];
      }
    }
  }

  lemma {:induction false} TraceFromSteps(l: Line, i: nat, j: nat)
    requires i <= Dx(l) && j <= DyAbs(l)
    ensures Steps(l, TraceFrom(l, i, j))
    decreases Dx(l) - i + DyAbs(l) - j
  {
    if !(i == Dx(l) && j == DyAbs(l)) {
      var (i', j') := Advance(l, i, j);
      TraceFromSteps(l, i', j');
      StepsCons(l, PointAt(l, i, j), TraceFrom(l, i', j'));
    }
  }

  /** The whole walk moves one 8-neighbour step at a time. */
  lemma TraceSteps(l: Line)
    ensures Steps(l, Trace(l))
  {
    TraceFromSteps(l, 0, 0);
  }

  /** A byte that no visited, inside pixel covers keeps its value. */
  predicate Untouched(W: int, H: int, pts: seq<(int, int)>, k: int) {
    forall m :: 0 <= m < |pts| && Inside(W, H, pts[m]) ==>
      !(Offset(W, pts[m].0, pts[m].1) <= k < Offset(W, pts[m].0, pts[m].1) + 4)
  }

  lemma {:induction false} DrawFrame(buf: seq<byte>, W: int, H: int, pts: seq<(int, int)>, c: Color, k: int)
    requires Fits(W, H, |buf|)
    requires 0 <= k < |buf| && Untouched(W, H, pts, k)
    ensures Draw(buf, W, H, pts, c)[k] == buf[k]
    decreases |pts|
  {
    if pts != [] {
      var b1 := Visit(buf, W, H, pts[0], c);
      assert b1[k] == buf[k] by {
        if Inside(W, H, pts[0]) { PixelInBuffer(W, H, |buf|, pts[0].0, pts[0].1); }
      }
      assert Untouched(W, H, pts[1..], k) by {
        forall m | 0 <= m < |pts| - 1 && Inside(W, H, pts[1..][m])
          ensures !(Offset(W, pts[1..][m].0, pts[1..][m].1) <= k < Offset(W, pts[1..][m].0, pts[1..][m].1) + 4)
        {
          assert pts[1..][m] == pts[m + 1];
        }
      }
      DrawFrame(b1, W, H, pts[1..], c, k);
    }
  }

  /** Every visited pixel inside the image ends with the line's colour in all four channels. */
  lemma {:induction false} DrawPaints(buf: seq<byte>, W: int, H: int, pts: seq<(int, int)>, c: Color, m: int)
    requires Fits(W, H, |buf|)
    requires 0 <= m < |pts| && Inside(W, H, pts[m])
    ensures var r, o := Draw(buf, W, H, pts, c), Offset(W, pts[m].0, pts[m].1);
      0 <= o && o + 4 <= |r| && r[o] == c.r && r[o + 1] == c.g && r[o + 2] == c.b && r[o + 3] == c.a
    decreases |pts|
  {
    PixelInBuffer(W, H, |buf|, pts[m].0, pts[m].1);
    var b1 := Visit(buf, W, H, pts[0], c);
    assert Draw(buf, W, H, pts, c) == Draw(b1, W, H, pts[1..], c);
    if m > 0 {
      assert pts[1..][m - 1] == pts[m];
      DrawPaints(b1, W, H, pts[1..], c, m - 1);
    } else {
      PaintFirst(buf, W, H, pts[0], c);
      PaintKept(b1, W, H, pts[1..], c, Offset(W, pts[0].0, pts[0].1));
    }
  }

  /** Visiting an inside point writes its pixel. */
  lemma PaintFirst(buf: seq<byte>, W: int, H: int, p: (int, int), c: Color)
    requires Fits(W, H, |buf|) && Inside(W, H, p)
    ensures var r, o := Visit(buf, W, H, p, c), Offset(W, p.0, p.1);
      0 <= o && o + 4 <= |r| && o % 4 == 0 && r[o] == c.r && r[o + 1] == c.g && r[o + 2] == c.b && r[o + 3] == c.a
  {
    PixelInBuffer(W, H, |buf|, p.0, p.1);
  }

  /** Writing the same colour again keeps a pixel that already holds it. */
  lemma {:induction false} PaintKept(buf: seq<byte>, W: int, H: int, pts: seq<(int, int)>, c: Color, o: int)
    requires Fits(W, H, |buf|)
    requires 0 <= o && o + 4 <= |buf| && o % 4 == 0
    requires buf[o] == c.r && buf[o + 1] == c.g && buf[o + 2] == c.b && buf[o + 3] == c.a
    ensures var r := Draw(buf, W, H, pts, c);
      r[o] == c.r && r[o + 1] == c.g && r[o + 2] == c.b && r[o + 3] == c.a
    decreases |pts|
  {
    if pts != [] {
      var b1 := Visit(buf, W, H, pts[0], c);
      if Inside(W, H, pts[0]) {
        var o' := Offset(W, pts[0].0, pts[0].1);
        PixelInBuffer(W, H, |buf|, pts[0].0, pts[0].1);
        assert o' % 4 == 0;
        assert o' == o || o' + 4 <= o || o + 4 <= o';
      }
      PaintKept(b1, W, H, pts[1..], c, o);
    }
  }

  /**
    `plot__line`: walk from (x0, y0) to (x1, y1), writing each visited
    pixel that lies inside the W x H image; the buffer ends as `Draw` of the
    trace, so inside pixels on the walk carry the colour and every other
    byte is unchanged (`DrawPaints`, `DrawFrame`).
   */
  method DrawLine(rgba: array<byte>, W: int, H: int, l: Line, c: Color)
    requires Fits(W, H, rgba.Length)
    modifies rgba
    ensures rgba[..] == Draw(old(rgba[..]), W, H, Trace(l), c)
  {
    var x0, y0 := l.x0, l.y0;
    var dx, sx := Num.Abs(l.x1 - l.x0), if l.x0 < l.x1 then 1 else -1;
    var dy, sy := -(Num.Abs(l.y1 - l.y0) as int), if l.y0 < l.y1 then 1 else -1;
    var err := dx + dy;
    ghost var i: nat, j: nat := 0, 0;
    ghost var goal := Draw(rgba[..], W, H, Trace(l), c);
    while true
      invariant dx == Dx(l) && dy == Dy(l) && sx == Sx(l) && sy == Sy(l)
      invariant i <= Dx(l) && j <= DyAbs(l)
      invariant Pen(x0, y0, err) == PenAt(l, i, j)
      invariant goal == Draw(rgba[..], W, H, TraceFrom(l, i, j), c)
      decreases Dx(l) - i + DyAbs(l) - j
    {
      DrawStep(rgba[..], W, H, l, i, j, c);
      PutPxInside(rgba, W, H, x0, y0, c);
      AtEnd(l, i, j);
      if x0 == l.x1 && y0 == l.y1 {
        return;
      }
      ghost var next := Advance(l, i, j);
      AdvanceState(l, i, j);
      x0, y0, err := Round(l, x0, y0, err, dx, dy, sx, sy);
      i, j := next.0, next.1;
    }
  }

  /** The updates of one loop round, both tests reading `e2 = 2 * err` as it was before either update. */
  method Round(l: Line, x0: int, y0: int, err: int, dx: int, dy: int, sx: int, sy: int)
    returns (x: int, y: int, e: int)
    requires dx == Dx(l) && dy == Dy(l) && sx == Sx(l) && sy == Sy(l)
    ensures Pen(x, y, e) == StepPen(l, Pen(x0, y0, err))
  {
    x, y, e := x0, y0, err;
    var e2 := 2 * err;
    if e2 >= dy {
      e := e + dy;
      x := x + sx;
    }
    assert Pen(x, y, e) == StepX(l, e2, Pen(x0, y0, err));
    if e2 <= dx {
      e := e + dx;
      y := y + sy;
    }
  }

  /** The guarded write of one loop round: the pixel is written only when `(unsigned)x < W && (unsigned)y < H`. */
  method PutPxInside(rgba: array<byte>, W: int, H: int, x: int, y: int, c: Color)
    requires Fits(W, H, rgba.Length)
    modifies rgba
    ensures rgba[..] == Visit(old(rgba[..]), W, H, (x, y), c)
  {
    if 0 <= x < W && 0 <= y < H {
      PixelInBuffer(W, H, rgba.Length, x, y);
      PutPx(rgba, W, x, y, c);
    }
  }

  /** The loop's variables `x0`, `y0` and `err`. */
  datatype Pen = Pen(x: int, y: int, err: int)

  /** The variables after i x-steps and j y-steps. */
  function PenAt(l: Line, i: nat, j: nat): Pen {
    Pen(PointAt(l, i, j).0, PointAt(l, i, j).1, Err(l, i, j))
  }

  /** One round of the loop body on its variables, both tests using `e2 = 2 * err` taken before either update. */
  function StepPen(l: Line, p: Pen): Pen {
    var e2 := 2 * p.err;
    StepY(l, e2, StepX(l, e2, p))
  }

  /** `if (e2 >= dy) { err += dy; x0 += sx; }` */
  function StepX(l: Line, e2: int, p: Pen): Pen {
    if e2 >= Dy(l) then Pen(p.x + Sx(l), p.y, p.err + Dy(l)) else p
  }

  /** `if (e2 <= dx) { err += dx; y0 += sy; }` */
  function StepY(l: Line, e2: int, p: Pen): Pen {
    if e2 <= Dx(l) then Pen(p.x, p.y + Sy(l), p.err + Dx(l)) else p
  }

  /** The loop body moves the variables from the state (i, j) to the state `Advance(l, i, j)`. */
  lemma AdvanceState(l: Line, i: nat, j: nat)
    requires i <= Dx(l) && j <= DyAbs(l) && !(i == Dx(l) && j == DyAbs(l))
    ensures PenAt(l, Advance(l, i, j).0, Advance(l, i, j).1) == StepPen(l, PenAt(l, i, j))
  {
    var e2 := 2 * Err(l, i, j);
    var ni := if e2 >= Dy(l) then i + 1 else i;
    var nj := if e2 <= Dx(l) then j + 1 else j;
    assert Advance(l, i, j) == (ni, nj);
    assert Err(l, ni, j) == Err(l, i, j) + (if e2 >= Dy(l) then Dy(l) else 0);
    ErrStepY(l, ni, j);
  }

  /** One round of the walk on the buffer: visit the current point, then go on from the next state (or stop at the end). */
  lemma DrawStep(buf: seq<byte>, W: int, H: int, l: Line, i: nat, j: nat, c: Color)
    requires Fits(W, H, |buf|)
    requires i <= Dx(l) && j <= DyAbs(l)
    ensures var b1 := Visit(buf, W, H, PointAt(l, i, j), c);
      if i == Dx(l) && j == DyAbs(l) then Draw(buf, W, H, TraceFrom(l, i, j), c) == b1
      else Draw(buf, W, H, TraceFrom(l, i, j), c) == Draw(b1, W, H, TraceFrom(l, Advance(l, i, j).0, Advance(l, i, j).1), c)
  {
    var pts := TraceFrom(l, i, j);
    if !(i == Dx(l) && j == DyAbs(l)) {
      var (ni, nj) := Advance(l, i, j);
      assert pts[1..] == TraceFrom(l, ni, nj);
    }
  }

  /** The loop's stopping test `x0 == x1 && y0 == y1` holds exactly when all |dx| x-steps and |dy| y-steps are taken. */
  lemma AtEnd(l: Line, i: nat, j: nat)
    requires i <= Dx(l) && j <= DyAbs(l)
    ensures PointAt(l, i, j) == (l.x1, l.y1) <==> i == Dx(l) && j == DyAbs(l)
  {
  }
}
