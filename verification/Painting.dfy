/** What the painter's rectangles show, pixel by pixel, and when the painter finishes at all. */
module Painting {
  import opened Hex
  import opened Options
  import opened SvgBuilder

  /** The rectangle covers pixel (x, y), whose square is 10 units wide and high. */
  ghost predicate Covers(r: SvgRect, x: int, y: int) {
    r.x <= 10 * x < r.x + r.width && r.y == Val(10 * y)
  }

  /** The fills of all rectangles covering the pixel, bottom to top. */
  ghost function Hits(rects: seq<SvgRect>, x: int, y: int): seq<Option<string>> {
    if rects == [] then []
    else HitOf(rects[0], x, y) + Hits(rects[1..], x, y)
  }

  ghost function HitOf(r: SvgRect, x: int, y: int): seq<Option<string>> {
    if Covers(r, x, y) then [r.fill] else []
  }

  /** What one sees: the topmost rectangle, else what lies below. */
  ghost function Shown(rects: seq<SvgRect>, x: int, y: int, below: Option<string>): Option<string> {
    var hits := Hits(rects, x, y);
    if hits == [] then below else hits[|hits| - 1]
  }

  lemma {:induction false} HitsConcat(a: seq<SvgRect>, b: seq<SvgRect>, x: int, y: int)
    ensures Hits(a + b, x, y) == Hits(a, x, y) + Hits(b, x, y)
    decreases a
  {
    if a == [] {
      assert a + b == b;
    } else {
      assert (a + b)[1..] == a[1..] + b;
      HitsConcat(a[1..], b, x, y);
      Reassociate(HitOf(a[0], x, y), Hits(a[1..], x, y), Hits(b, x, y));
    }
  }

  lemma Reassociate(a: seq<Option<string>>, b: seq<Option<string>>, c: seq<Option<string>>)
    ensures a + (b + c) == (a + b) + c
  {
  }

  lemma {:induction false} TwoHits(rects: seq<SvgRect>, i: nat, j: nat, x: int, y: int)
    requires i < j < |rects| && Covers(rects[i], x, y) && Covers(rects[j], x, y)
    ensures |Hits(rects, x, y)| >= 2
    decreases j
  {
    if i > 0 {
      TwoHits(rects[1..], i - 1, j - 1, x, y);
    } else {
      OneHit(rects[1..], j - 1, x, y);
    }
  }

  lemma {:induction false} OneHit(rects: seq<SvgRect>, j: nat, x: int, y: int)
    requires j < |rects| && Covers(rects[j], x, y)
    ensures |Hits(rects, x, y)| >= 1
    decreases j
  {
    if j > 0 {
      OneHit(rects[1..], j - 1, x, y);
    }
  }

  // ----- the picture described by a list of runs -----

  function Repeat(n: int, c: Num): seq<Num> {
    seq(if n < 0 then 0 else n, _ => c)
  }

  /** The colour indexes of a part in row-major order. */
  function Pixels(draws: seq<Draw>): seq<Num>
    requires AllNumeric(draws)
  {
    if draws == [] then [] else Repeat(draws[0].length.n, draws[0].color) + Pixels(draws[1..])
  }

  /** Position of pixel (x, y) in row-major order, counted from the box's first pixel. */
  function Pos(b: Bounds, x: int, y: int): int
    requires Drawable(b) && b.top.Val?
  {
    (y - b.top.n) * (b.right.n - b.left.n) + (x - b.left.n)
  }

  predicate InColumns(b: Bounds, x: int)
    requires Drawable(b)
  {
    b.left.n <= x < b.right.n
  }

  lemma RowAtLeast(rows: int, width: int)
    requires width > 0
    ensures rows >= 1 ==> rows * width >= width
    ensures rows <= -1 ==> rows * width <= -width
  {
  }

  /** A stretch of n pixels within one row holds exactly n consecutive positions. */
  lemma RowStretch(b: Bounds, cx: int, cy: int, n: int, x: int, y: int)
    requires Drawable(b) && b.top.Val? && InColumns(b, cx) && InColumns(b, x)
    requires 0 < n <= b.right.n - cx
    ensures y == cy && cx <= x < cx + n <==> Pos(b, cx, cy) <= Pos(b, x, y) < Pos(b, cx, cy) + n
  {
    var w := b.right.n - b.left.n;
    RowAtLeast(y - cy, w);
    assert (y - b.top.n) * w == (y - cy) * w + (cy - b.top.n) * w;
  }

  lemma MovePos(b: Bounds, cur: Cursor, n: int)
    requires Drawable(b) && b.top.Val? && CursorOk(b, cur.x) && cur.y.Val?
    requires 0 < n <= b.right.n - cur.x.n
    ensures var next := Move(b, cur, n);
      && next.y.Val? && CursorOk(b, next.x)
      && Pos(b, next.x.n, next.y.n) == Pos(b, cur.x.n, cur.y.n) + n
  {
    var w := b.right.n - b.left.n;
    assert (cur.y.n + 1 - b.top.n) * w == (cur.y.n - b.top.n) * w + w;
  }

  lemma {:induction false} AfterRunPos(b: Bounds, cur: Cursor, length: int)
    requires Drawable(b) && b.top.Val? && CursorOk(b, cur.x) && cur.y.Val?
    ensures var next := AfterRun(b, cur, length);
      && next.y.Val?
      && Pos(b, next.x.n, next.y.n) == Pos(b, cur.x.n, cur.y.n) + if length < 0 then 0 else length
    decreases length
  {
    if length > 0 {
      var n := RowPart(b, cur, length);
      MovePos(b, cur, n);
      AfterRunPos(b, Move(b, cur, n), length - n);
    }
  }

  /** The rectangles of one run paint exactly its positions, each once. */
  lemma {:induction false} RunHits(b: Bounds, cur: Cursor, length: int, color: Num, palette: seq<string>, x: int, y: int)
    requires Drawable(b) && b.top.Val? && CursorOk(b, cur.x) && cur.y.Val?
    ensures Hits(RunRects(b, cur, length, color, palette), x, y)
         == if InColumns(b, x) && color != Val(0)
               && 0 <= Pos(b, x, y) - Pos(b, cur.x.n, cur.y.n) < length
            then [Fill(palette, color)] else []
    decreases length
  {
    if length > 0 {
      var n := RowPart(b, cur, length);
      var next := Move(b, cur, n);
      MovePos(b, cur, n);
      RunHits(b, next, length - n, color, palette, x, y);
      HitsConcat(RectAt(cur, n, color, palette), RunRects(b, next, length - n, color, palette), x, y);
      if InColumns(b, x) {
        RowStretch(b, cur.x.n, cur.y.n, n, x, y);
      }
      RectHits(b, cur, n, color, palette, x, y);
    }
  }

  lemma RectHits(b: Bounds, cur: Cursor, n: int, color: Num, palette: seq<string>, x: int, y: int)
    requires Drawable(b) && CursorOk(b, cur.x) && cur.y.Val?
    requires 0 < n <= b.right.n - cur.x.n
    ensures Hits(RectAt(cur, n, color, palette), x, y)
         == if color != Val(0) && y == cur.y.n && cur.x.n <= x < cur.x.n + n then [Fill(palette, color)] else []
  {
    var rects := RectAt(cur, n, color, palette);
    if rects != [] {
      assert rects[1..] == [];
    }
  }

  /** The k-th colour index, 0 ("transparent") outside. */
  function PixelAt(draws: seq<Draw>, k: int): Num
    requires AllNumeric(draws)
  {
    if 0 <= k < |Pixels(draws)| then Pixels(draws)[k] else Val(0)
  }

  function Paint(color: Num, palette: seq<string>): seq<Option<string>> {
    if color == Val(0) then [] else [Fill(palette, color)]
  }

  lemma PixelAtStep(draws: seq<Draw>, k: int)
    requires AllNumeric(draws) && draws != []
    ensures var n := if draws[0].length.n < 0 then 0 else draws[0].length.n;
      PixelAt(draws, k) == if 0 <= k < n then draws[0].color else PixelAt(draws[1..], k - n)
  {
    var first, rest := Repeat(draws[0].length.n, draws[0].color), Pixels(draws[1..]);
    assert Pixels(draws) == first + rest;
    hide Pixels;
    assert forall i :: 0 <= i < |first| ==> first[i] == draws[0].color;
  }

  /** What a run paints at place k, followed by what the other runs paint. */
  lemma PaintStep(draws: seq<Draw>, k: int, palette: seq<string>)
    requires AllNumeric(draws) && draws != []
    ensures var length, color := draws[0].length.n, draws[0].color;
      Paint(PixelAt(draws, k), palette)
      == (if color != Val(0) && 0 <= k < length then [Fill(palette, color)] else [])
         + Paint(PixelAt(draws[1..], k - if length < 0 then 0 else length), palette)
  {
    PixelAtStep(draws, k);
  }

  /** `n` is the place of the cursor, `m` the pixel's. */
  lemma JoinHits(draws: seq<Draw>, now: seq<SvgRect>, later: seq<SvgRect>, palette: seq<string>, x: int, y: int,
                 inside: bool, n: int, m: int)
    requires AllNumeric(draws) && draws != []
    requires var length, color := draws[0].length.n, draws[0].color;
      && Hits(now, x, y) == (if inside && color != Val(0) && 0 <= m - n < length then [Fill(palette, color)] else [])
      && Hits(later, x, y)
         == if inside then Paint(PixelAt(draws[1..], m - (n + if length < 0 then 0 else length)), palette) else []
    ensures Hits(now + later, x, y) == if inside then Paint(PixelAt(draws, m - n), palette) else []
  {
    hide PixelAt, Hits, Paint, Fill;
    HitsConcat(now, later, x, y);
    PaintStep(draws, m - n, palette);
  }

  lemma {:induction false} DrawHits(b: Bounds, cur: Cursor, draws: seq<Draw>, palette: seq<string>, x: int, y: int)
    requires Drawable(b) && b.top.Val? && CursorOk(b, cur.x) && cur.y.Val? && AllNumeric(draws)
    ensures Hits(DrawRects(b, cur, draws, palette), x, y)
         == if InColumns(b, x) then Paint(PixelAt(draws, Pos(b, x, y) - Pos(b, cur.x.n, cur.y.n)), palette) else []
    decreases draws
  {
    hide RunRects, AfterRun, PixelAt, Pos, Hits, Paint, Fill;
    if draws == [] {
      NothingPainted(x, y, palette);
      assert DrawRects(b, cur, draws, palette) == [];
      NoPixels(Pos(b, x, y) - Pos(b, cur.x.n, cur.y.n));
    } else {
      var length, color := draws[0].length.n, draws[0].color;
      var next := AfterRun(b, cur, length);
      var now, later := RunRects(b, cur, length, color, palette), DrawRects(b, next, draws[1..], palette);
      assert DrawRects(b, cur, draws, palette) == now + later;
      hide DrawRects;
      AfterRunPos(b, cur, length);
      RunHits(b, cur, length, color, palette, x, y);
      DrawHits(b, next, draws[1..], palette, x, y);
      JoinHits(draws, now, later, palette, x, y, InColumns(b, x), Pos(b, cur.x.n, cur.y.n), Pos(b, x, y));
    }
  }

  lemma NoPixels(k: int)
    ensures PixelAt([], k) == Val(0)
  {
  }

  lemma NothingPainted(x: int, y: int, palette: seq<string>)
    ensures Hits([], x, y) == [] && Paint(Val(0), palette) == []
  {
  }

  /** The colour index the part has at the pixel, 0 ("transparent") outside. */
  function IndexAt(d: DecodedImage, x: int, y: int): Num
    requires Halts(d)
  {
    if !Drawable(d.bounds) || !d.bounds.top.Val? || !InColumns(d.bounds, x) then Val(0)
    else PixelAt(d.rects, Pos(d.bounds, x, y))
  }

  /** One part, well formed or not, paints every pixel of non-zero index exactly once, and no other. */
  lemma PartHits(d: DecodedImage, palette: seq<string>, x: int, y: int)
    requires Halts(d)
    ensures Hits(PartRects(d, palette), x, y)
         == Paint(IndexAt(d, x, y), palette)
  {
    var b := d.bounds;
    if Drawable(b) {
      if b.top.Val? {
        assert Pos(b, b.left.n, b.top.n) == 0;
        DrawHits(b, Cursor(b.left, b.top), d.rects, palette, x, y);
      } else {
        NoRowNoHits(b, Cursor(b.left, b.top), d.rects, palette, x, y);
      }
    }
  }

  lemma {:induction false} NoRowNoHits(b: Bounds, cur: Cursor, draws: seq<Draw>, palette: seq<string>, x: int, y: int)
    requires Drawable(b) && CursorOk(b, cur.x) && cur.y == NaN && AllNumeric(draws)
    ensures Hits(DrawRects(b, cur, draws, palette), x, y) == []
    decreases draws
  {
    if draws != [] {
      NoRowNoRunHits(b, cur, draws[0].length.n, draws[0].color, palette, x, y);
      var next := AfterRun(b, cur, draws[0].length.n);
      NoRowNoHits(b, next, draws[1..], palette, x, y);
      HitsConcat(RunRects(b, cur, draws[0].length.n, draws[0].color, palette),
                 DrawRects(b, next, draws[1..], palette), x, y);
    }
  }

  lemma {:induction false} NoRowNoRunHits(b: Bounds, cur: Cursor, length: int, color: Num, palette: seq<string>,
                                          x: int, y: int)
    requires Drawable(b) && CursorOk(b, cur.x) && cur.y == NaN
    ensures Hits(RunRects(b, cur, length, color, palette), x, y) == []
    ensures AfterRun(b, cur, length).y == NaN
    decreases length
  {
    if length > 0 {
      var n := RowPart(b, cur, length);
      var rects, later := RectAt(cur, n, color, palette), RunRects(b, Move(b, cur, n), length - n, color, palette);
      assert RunRects(b, cur, length, color, palette) == rects + later;
      NoRowNoRunHits(b, Move(b, cur, n), length - n, color, palette, x, y);
      HitsConcat(rects, later, x, y);
      NoRowNoHit(cur, n, color, palette, x, y);
      hide RunRects, Hits, RectAt;
    }
  }

  lemma NoRowNoHit(cur: Cursor, n: int, color: Num, palette: seq<string>, x: int, y: int)
    requires cur.x.Val? && cur.y == NaN
    ensures Hits(RectAt(cur, n, color, palette), x, y) == []
  {
    var rects := RectAt(cur, n, color, palette);
    assert rects != [] ==> rects[1..] == [];
  }

  // ----- composition of parts -----

  /** The place of the last part with a non-zero colour at the pixel; -1 if there is none. */
  function TopPart(images: seq<DecodedImage>, x: int, y: int): (top: int)
    requires AllHalt(images)
    ensures -1 <= top < |images|
    ensures top >= 0 ==> IndexAt(images[top], x, y) != Val(0)
    ensures forall i :: top < i < |images| ==> IndexAt(images[i], x, y) == Val(0)
    decreases |images|
  {
    var last := |images| - 1;
    if last < 0 || IndexAt(images[last], x, y) != Val(0) then last
    else TopPart(images[..last], x, y)
  }

  lemma ShownConcat(a: seq<SvgRect>, b: seq<SvgRect>, x: int, y: int, below: Option<string>)
    ensures Shown(a + b, x, y, below) == Shown(b, x, y, Shown(a, x, y, below))
  {
    HitsConcat(a, b, x, y);
  }

  /** For any list of parts, a pixel shows the last part that is not transparent there, else the background. */
  lemma {:induction false} ShownIsTopPart(images: seq<DecodedImage>, palette: seq<string>, x: int, y: int,
                                          background: Option<string>)
    requires AllHalt(images)
    ensures Shown(AllRects(images, palette), x, y, background)
         == var top := TopPart(images, x, y);
            if top < 0 then background else Fill(palette, IndexAt(images[top], x, y))
    decreases |images|
  {
    if images != [] {
      var last := |images| - 1;
      PartHits(images[last], palette, x, y);
      ShownConcat(AllRects(images[..last], palette), PartRects(images[last], palette), x, y, background);
      ShownIsTopPart(images[..last], palette, x, y, background);
    }
  }

  // ----- drawing safety -----

  ghost predicate InOneRow(r: SvgRect, b: Bounds)
    requires Drawable(b)
  {
    && r.width > 0 && 10 * b.left.n <= r.x && r.x + r.width <= 10 * b.right.n
    && (b.top.Val? ==> exists row :: row >= b.top.n && r.y == Times10(Val(row)))
  }

  ghost function TotalWidth(rects: seq<SvgRect>): int {
    if rects == [] then 0 else rects[0].width + TotalWidth(rects[1..])
  }

  ghost function ColoredLength(draws: seq<Draw>): int
    requires AllNumeric(draws)
  {
    if draws == [] then 0 else
      (if draws[0].color != Val(0) && draws[0].length.n > 0 then draws[0].length.n else 0)
      + ColoredLength(draws[1..])
  }

  lemma {:induction false} TotalWidthConcat(a: seq<SvgRect>, b: seq<SvgRect>)
    ensures TotalWidth(a + b) == TotalWidth(a) + TotalWidth(b)
    decreases a
  {
    if a == [] {
      assert a + b == b;
    } else {
      assert (a + b)[1..] == a[1..] + b;
      TotalWidthConcat(a[1..], b);
    }
  }

  ghost predicate AtOrBelow(top: Num, y: Num) {
    top.Val? ==> y.Val? && y.n >= top.n
  }

  lemma {:induction false} RunIsSafe(b: Bounds, cur: Cursor, length: int, color: Num, palette: seq<string>)
    requires Drawable(b) && CursorOk(b, cur.x) && AtOrBelow(b.top, cur.y)
    ensures var rects := RunRects(b, cur, length, color, palette);
      && (forall r :: r in rects ==> InOneRow(r, b))
      && TotalWidth(rects) == if color != Val(0) && length > 0 then 10 * length else 0
    ensures AtOrBelow(b.top, AfterRun(b, cur, length).y)
    decreases length
  {
    if length > 0 {
      var n := RowPart(b, cur, length);
      var now, later := RectAt(cur, n, color, palette), RunRects(b, Move(b, cur, n), length - n, color, palette);
      assert RunRects(b, cur, length, color, palette) == now + later;
      assert AfterRun(b, cur, length) == AfterRun(b, Move(b, cur, n), length - n);
      RunIsSafe(b, Move(b, cur, n), length - n, color, palette);
      RectIsSafe(b, cur, n, color, palette);
      hide RunRects, AfterRun, RectAt, TotalWidth, InOneRow;
      TotalWidthConcat(now, later);
    }
  }

  lemma RectIsSafe(b: Bounds, cur: Cursor, n: int, color: Num, palette: seq<string>)
    requires Drawable(b) && CursorOk(b, cur.x) && AtOrBelow(b.top, cur.y) && 0 < n <= b.right.n - cur.x.n
    ensures forall r :: r in RectAt(cur, n, color, palette) ==> InOneRow(r, b)
    ensures TotalWidth(RectAt(cur, n, color, palette)) == if color != Val(0) then 10 * n else 0
  {
    var now := RectAt(cur, n, color, palette);
    if now != [] {
      assert now[1..] == [];
      assert b.top.Val? ==> now[0].y == Times10(Val(cur.y.n));
    }
  }

  lemma {:induction false} DrawsAreSafe(b: Bounds, cur: Cursor, draws: seq<Draw>, palette: seq<string>)
    requires Drawable(b) && CursorOk(b, cur.x) && AtOrBelow(b.top, cur.y) && AllNumeric(draws)
    ensures var rects := DrawRects(b, cur, draws, palette);
      && (forall r :: r in rects ==> InOneRow(r, b))
      && TotalWidth(rects) == 10 * ColoredLength(draws)
    decreases draws
  {
    if draws != [] {
      var length, color := draws[0].length.n, draws[0].color;
      RunIsSafe(b, cur, length, color, palette);
      DrawsAreSafe(b, AfterRun(b, cur, length), draws[1..], palette);
      TotalWidthConcat(RunRects(b, cur, length, color, palette),
                       DrawRects(b, AfterRun(b, cur, length), draws[1..], palette));
    }
  }

  /**
   * Whatever a part's text decodes to: its rectangles lie within one row and inside [left, right), no two of them share a
   * pixel, and together they are as long as the coloured runs. Without a column to draw in, there are none.
   */
  lemma DrawingIsSafe(d: DecodedImage, palette: seq<string>)
    requires Halts(d)
    ensures var rects := PartRects(d, palette);
      && (!Drawable(d.bounds) ==> rects == [])
      && (Drawable(d.bounds) ==>
            && (forall r :: r in rects ==> InOneRow(r, d.bounds))
            && TotalWidth(rects) == 10 * ColoredLength(d.rects))
      && (forall i, j, x, y :: 0 <= i < j < |rects| ==> !(Covers(rects[i], x, y) && Covers(rects[j], x, y)))
  {
    var rects := PartRects(d, palette);
    if Drawable(d.bounds) {
      DrawsAreSafe(d.bounds, Cursor(d.bounds.left, d.bounds.top), d.rects, palette);
    }
    forall i, j, x, y | 0 <= i < j < |rects| && Covers(rects[i], x, y)
      ensures !Covers(rects[j], x, y)
    {
      PartHits(d, palette, x, y);
      if Covers(rects[j], x, y) {
        TwoHits(rects, i, j, x, y);
      }
    }
  }

  // ----- termination of the inner loop -----

  /** `currentX` and `drawLength` after n more iterations of the inner loop. */
  function Iterate(b: Bounds, x: Num, length: Num, n: nat): (Num, Num)
    decreases n
  {
    if n == 0 then (x, length) else
      var l := GetRectLength(x, length, b.right);
      Iterate(b, if Plus(x, l) == b.right then b.left else Plus(x, l), Minus(length, l), n - 1)
  }

  predicate Guard(b: Bounds, state: (Num, Num)) {
    Positive(GetRectLength(state.0, state.1, b.right))
  }

  lemma {:induction false} NaNRunsOn(b: Bounds, x: Num, n: nat)
    requires Drawable(b) && CursorOk(b, x)
    ensures Guard(b, Iterate(b, x, NaN, n))
    decreases n
  {
    if n > 0 {
      NaNRunsOn(b, b.left, n - 1);
    }
  }

  lemma {:induction false} NumberStops(b: Bounds, x: Num, length: Num) returns (n: nat)
    requires CursorOk(b, x) && (Drawable(b) ==> length.Val?)
    ensures !Guard(b, Iterate(b, x, length, n))
    decreases if length.Val? then length.n else 0
  {
    n := 0;
    if Guard(b, (x, length)) {
      var l := GetRectLength(x, length, b.right);
      var m := NumberStops(b, if Plus(x, l) == b.right then b.left else Plus(x, l), Minus(length, l));
      n := m + 1;
    }
  }

  /** The inner loop ends if and only if the run length is a number, or there is no column to draw in. */
  lemma InnerLoopEnds(b: Bounds, x: Num, length: Num)
    requires CursorOk(b, x)
    ensures (exists n: nat :: !Guard(b, Iterate(b, x, length, n))) <==> length.Val? || !Drawable(b)
  {
    if length.Val? || !Drawable(b) {
      var n := NumberStops(b, x, length);
    } else {
      forall n: nat ensures Guard(b, Iterate(b, x, length, n)) {
        NaNRunsOn(b, x, n);
      }
    }
  }
}
