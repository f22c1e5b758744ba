/** Decoding of run-length coded parts, and the painter that turns them into rectangles. */
module SvgBuilder {
  import opened Hex
  import opened Options

  datatype Bounds = Bounds(top: Num, right: Num, bottom: Num, left: Num)
  datatype Draw = Draw(length: Num, color: Num)
  datatype DecodedImage = DecodedImage(paletteIndex: Num, bounds: Bounds, rects: seq<Draw>)

  /** One `<rect>` of height 10. `fill` is None where the palette has no such colour ("#undefined"). */
  datatype SvgRect = SvgRect(width: int, x: int, y: Num, fill: Option<string>)

  /** The document: the fill of the full-size background (None for "none"), then the rectangles in order. */
  datatype Svg = Svg(background: Option<string>, rects: seq<SvgRect>)

  // ----- decodeImage -----

  function Substring(s: string, from: nat, to: nat): string
    requires from <= to
  {
    s[if from < |s| then from else |s| .. if to < |s| then to else |s|]
  }

  function DropPrefix0x(s: string): string {
    if |s| >= 2 && s[0] == '0' && s[1] == 'x' then s[2..] else s
  }

  predicate IsLineTerminator(c: char) {
    c in "\n\r\U{2028}\U{2029}"
  }

  /** How many characters `.{1,4}` matches at the front of s. */
  function MatchLength(s: string, max: nat): nat
    ensures MatchLength(s, max) <= |s| && MatchLength(s, max) <= max
    decreases max
  {
    if max == 0 || s == [] || IsLineTerminator(s[0]) then 0 else 1 + MatchLength(s[1..], max - 1)
  }

  /** All matches of `.{1,4}`, left to right. */
  function Chunks(s: string): seq<string>
    decreases |s|
  {
    if s == [] then []
    else if IsLineTerminator(s[0]) then Chunks(s[1..])
    else
      var n := 1 + MatchLength(s[1..], 3);
      [s[..n]] + Chunks(s[n..])
  }

  /** All characters of the chunks, one after the other. */
  function Concat(chunks: seq<string>): string {
    if chunks == [] then "" else chunks[0] + Concat(chunks[1..])
  }

  function WithoutLineTerminators(s: string): string {
    if s == [] then ""
    else (if IsLineTerminator(s[0]) then "" else [s[0]]) + WithoutLineTerminators(s[1..])
  }

  lemma {:induction false} MatchedIsLine(s: string, max: nat)
    ensures var n := MatchLength(s, max);
      && WithoutLineTerminators(s) == s[..n] + WithoutLineTerminators(s[n..])
      && (forall i :: 0 <= i < n ==> !IsLineTerminator(s[i]))
      && (n < max ==> n == |s| || IsLineTerminator(s[n]))
    decreases max
  {
    if max > 0 && s != [] && !IsLineTerminator(s[0]) {
      MatchedIsLine(s[1..], max - 1);
      var n := MatchLength(s[1..], max - 1);
      assert s[1..][n..] == s[n + 1..] && [s[0]] + s[1..][..n] == s[..n + 1];
      assert forall i :: 1 <= i < n + 1 ==> s[i] == s[1..][i - 1];
    }
  }

  /** The chunks are all characters but line terminators, in order; none is empty or longer than four. */
  lemma {:induction false} ChunksAreText(s: string)
    ensures Concat(Chunks(s)) == WithoutLineTerminators(s)
    ensures forall i :: 0 <= i < |Chunks(s)| ==> 1 <= |Chunks(s)[i]| <= 4
    decreases |s|
  {
    if s != [] {
      if IsLineTerminator(s[0]) {
        ChunksAreText(s[1..]);
      } else {
        var n := 1 + MatchLength(s[1..], 3);
        MatchedIsLine(s, 4);
        ChunksAreText(s[n..]);
        assert ([s[..n]] + Chunks(s[n..]))[1..] == Chunks(s[n..]);
      }
    }
  }

  /** Four characters from place k on, or what is left. */
  function FourAt(s: string, k: nat): string
    requires k <= |s|
  {
    s[k..if k + 4 <= |s| then k + 4 else |s|]
  }

  lemma LineStartsWithFour(s: string)
    requires s != [] && forall k :: 0 <= k < |s| ==> !IsLineTerminator(s[k])
    ensures Chunks(s) == [FourAt(s, 0)] + Chunks(s[|FourAt(s, 0)|..])
  {
    MatchedIsLine(s, 4);
  }

  /** On a text without line terminators all chunks but the last have four characters. */
  lemma {:induction false} ChunksOfLine(s: string, i: nat)
    requires (forall k :: 0 <= k < |s| ==> !IsLineTerminator(s[k])) && 4 * i < |s|
    ensures i < |Chunks(s)| && Chunks(s)[i] == FourAt(s, 4 * i)
    decreases |s|
  {
    LineStartsWithFour(s);
    hide Chunks, IsLineTerminator, FourAt;
    if i > 0 {
      FourShift(s, i);
      ChunksOfLine(s[4..], i - 1);
    }
  }

  lemma FourShift(s: string, i: nat)
    requires i > 0 && 4 * i < |s|
    ensures |FourAt(s, 0)| == 4 && 4 * (i - 1) < |s[4..]| && FourAt(s[4..], 4 * (i - 1)) == FourAt(s, 4 * i)
  {
  }

  function ParseDraw(chunk: string): Draw {
    Draw(ParseInt16(Substring(chunk, 0, 2)), ParseInt16(Substring(chunk, 2, 4)))
  }

  function ParseDraws(chunks: seq<string>): seq<Draw> {
    if chunks == [] then [] else [ParseDraw(chunks[0])] + ParseDraws(chunks[1..])
  }

  function DecodeImage(image: string): DecodedImage {
    var data := DropPrefix0x(image);
    DecodedImage(
      ParseInt16(Substring(data, 0, 2)),
      Bounds(
        ParseInt16(Substring(data, 2, 4)),
        ParseInt16(Substring(data, 4, 6)),
        ParseInt16(Substring(data, 6, 8)),
        ParseInt16(Substring(data, 8, 10))),
      ParseDraws(Chunks(if |data| < 10 then "" else data[10..])))
  }

  // ----- JavaScript arithmetic on numbers that may be NaN -----

  function Plus(a: Num, b: Num): Num {
    if a.Val? && b.Val? then Val(a.n + b.n) else NaN
  }

  function Minus(a: Num, b: Num): Num {
    if a.Val? && b.Val? then Val(a.n - b.n) else NaN
  }

  predicate AtMost(a: Num, b: Num) {
    a.Val? && b.Val? && a.n <= b.n
  }

  predicate Positive(a: Num) {
    a.Val? && a.n > 0
  }

  function GetRectLength(currentX: Num, drawLength: Num, rightBound: Num): Num {
    var remainingPixelsInLine := Minus(rightBound, currentX);
    if AtMost(drawLength, remainingPixelsInLine) then drawLength else remainingPixelsInLine
  }

  // ----- specification of the painter -----

  datatype Cursor = Cursor(x: Num, y: Num)

  /** There is a column to draw in. */
  predicate Drawable(b: Bounds) {
    b.left.Val? && b.right.Val? && b.left.n < b.right.n
  }

  predicate CursorOk(b: Bounds, x: Num) {
    if Drawable(b) then x.Val? && b.left.n <= x.n < b.right.n else x == b.left
  }

  /** The painter finishes: no run length is NaN, unless there is no column to draw in. */
  predicate Halts(d: DecodedImage) {
    Drawable(d.bounds) ==> forall i :: 0 <= i < |d.rects| ==> d.rects[i].length.Val?
  }

  function Fill(palette: seq<string>, color: Num): Option<string> {
    if color.Val? && 0 <= color.n < |palette| then Some(palette[color.n]) else None
  }

  function Times10(a: Num): Num {
    if a.Val? then Val(10 * a.n) else NaN
  }

  function RectAt(cur: Cursor, length: int, color: Num, palette: seq<string>): seq<SvgRect>
    requires cur.x.Val?
  {
    if color == Val(0) then [] else [SvgRect(10 * length, 10 * cur.x.n, Times10(cur.y), Fill(palette, color))]
  }

  function Move(b: Bounds, cur: Cursor, length: int): Cursor
    requires cur.x.Val?
  {
    if Val(cur.x.n + length) == b.right then Cursor(b.left, Plus(cur.y, Val(1)))
    else Cursor(Val(cur.x.n + length), cur.y)
  }

  function RowPart(b: Bounds, cur: Cursor, length: int): int
    requires Drawable(b) && CursorOk(b, cur.x)
  {
    if length <= b.right.n - cur.x.n then length else b.right.n - cur.x.n
  }

  /** The rectangles of one run, cut at the right bound. */
  function RunRects(b: Bounds, cur: Cursor, length: int, color: Num, palette: seq<string>): seq<SvgRect>
    requires Drawable(b) && CursorOk(b, cur.x)
    decreases length
  {
    if length <= 0 then [] else
      var n := RowPart(b, cur, length);
      RectAt(cur, n, color, palette) + RunRects(b, Move(b, cur, n), length - n, color, palette)
  }

  /** Where the cursor is after the run. */
  function AfterRun(b: Bounds, cur: Cursor, length: int): Cursor
    requires Drawable(b) && CursorOk(b, cur.x)
    ensures CursorOk(b, AfterRun(b, cur, length).x)
    decreases length
  {
    if length <= 0 then cur else
      var n := RowPart(b, cur, length);
      AfterRun(b, Move(b, cur, n), length - n)
  }

  predicate AllNumeric(draws: seq<Draw>) {
    forall i :: 0 <= i < |draws| ==> draws[i].length.Val?
  }

  function DrawRects(b: Bounds, cur: Cursor, draws: seq<Draw>, palette: seq<string>): seq<SvgRect>
    requires Drawable(b) && CursorOk(b, cur.x) && AllNumeric(draws)
    decreases draws
  {
    if draws == [] then [] else
      RunRects(b, cur, draws[0].length.n, draws[0].color, palette)
      + DrawRects(b, AfterRun(b, cur, draws[0].length.n), draws[1..], palette)
  }

  function PartRects(d: DecodedImage, palette: seq<string>): seq<SvgRect>
    requires Halts(d)
  {
    if Drawable(d.bounds) then DrawRects(d.bounds, Cursor(d.bounds.left, d.bounds.top), d.rects, palette) else []
  }

  predicate AllHalt(images: seq<DecodedImage>) {
    forall i :: 0 <= i < |images| ==> Halts(images[i])
  }

  function AllRects(images: seq<DecodedImage>, palette: seq<string>): seq<SvgRect>
    requires AllHalt(images)
    decreases |images|
  {
    if images == [] then []
    else AllRects(images[..|images| - 1], palette) + PartRects(images[|images| - 1], palette)
  }

  lemma AllRectsStep(images: seq<DecodedImage>, p: nat, palette: seq<string>)
    requires AllHalt(images) && p < |images|
    ensures AllRects(images[..p + 1], palette) == AllRects(images[..p], palette) + PartRects(images[p], palette)
  {
    assert images[..p + 1][..p] == images[..p];
  }

  function DecodeAll(parts: seq<string>): seq<DecodedImage> {
    seq(|parts|, i requires 0 <= i < |parts| => DecodeImage(parts[i]))
  }

  // ----- buildSVG -----

  method BuildSVG(parts: seq<string>, paletteColors: seq<string>, bgColor: Option<string>) returns (svg: Svg)
    requires AllHalt(DecodeAll(parts))
    ensures svg.rects == AllRects(DecodeAll(parts), paletteColors)
    ensures svg.background == if bgColor == Some("") then None else bgColor
  {
    var result := [];
    ghost var images := DecodeAll(parts);
    for p := 0 to |parts|
      invariant result == AllRects(images[..p], paletteColors)
    {
      var image := DecodeImage(parts[p]);
      assert image == images[p];
      var svgRects := BuildPart(image, paletteColors);
      AllRectsStep(images, p, paletteColors);
      result := result + svgRects;
    }
    assert images[..|parts|] == images;
    svg := Svg(if bgColor == Some("") then None else bgColor, result);
  }

  method BuildPart(image: DecodedImage, paletteColors: seq<string>) returns (svgRects: seq<SvgRect>)
    requires Halts(image)
    ensures svgRects == PartRects(image, paletteColors)
  {
    var bounds, rects := image.bounds, image.rects;
    var currentX := bounds.left;
    var currentY := bounds.top;
    svgRects := [];

    for i := 0 to |rects|
      invariant Todo(image, paletteColors, svgRects, Cursor(currentX, currentY), rects[i..])
    {
      assert rects[i..][0] == rects[i] && rects[i..][1..] == rects[i + 1..];
      var runRects;
      currentX, currentY, runRects := BuildRun(bounds, rects[i], paletteColors, currentX, currentY);
      svgRects := svgRects + runRects;
    }
  }

  /** The body of the `forEach` over one part's runs, moving the cursor and returning the rectangles it pushes. */
  method BuildRun(bounds: Bounds, draw: Draw, paletteColors: seq<string>, startX: Num, startY: Num)
    returns (currentX: Num, currentY: Num, svgRects: seq<SvgRect>)
    requires CursorOk(bounds, startX)
    requires Drawable(bounds) ==> draw.length.Val?
    ensures CursorOk(bounds, currentX)
    ensures if Drawable(bounds) then
              && svgRects == RunRects(bounds, Cursor(startX, startY), draw.length.n, draw.color, paletteColors)
              && Cursor(currentX, currentY) == AfterRun(bounds, Cursor(startX, startY), draw.length.n)
            else svgRects == [] && currentX == startX && currentY == startY
  {
    hide InRun, GetRectLength, RunRects, AfterRun, Fill, Times10;
    currentX, currentY, svgRects := startX, startY, [];
    var drawLength := draw.length;
    var colorIndex := draw.color;
    ghost var start := Cursor(startX, startY);

    RunBegins(bounds, draw, paletteColors, start);
    var length := GetRectLength(currentX, drawLength, bounds.right);
    while Positive(length)
      invariant length == GetRectLength(currentX, drawLength, bounds.right)
      invariant InRun(bounds, draw, paletteColors, start, Cursor(currentX, currentY), drawLength, svgRects)
      decreases if drawLength.Val? then drawLength.n else 0
    {
      RunStep(bounds, draw, paletteColors, start, Cursor(currentX, currentY), drawLength, svgRects);
      assert svgRects + [] == svgRects;
      if colorIndex != Val(0) {
        var rect := SvgRect(10 * length.n, 10 * currentX.n, Times10(currentY), Fill(paletteColors, colorIndex));
        svgRects := svgRects + [rect];
      }
      currentX := Plus(currentX, length);
      if currentX == bounds.right {
        currentX := bounds.left;
        currentY := Plus(currentY, Val(1));
      }
      drawLength := Minus(drawLength, length);
      length := GetRectLength(currentX, drawLength, bounds.right);
    }
    RunEnds(bounds, draw, paletteColors, start, Cursor(currentX, currentY), drawLength, svgRects);
  }

  // ----- loop invariants of the painter -----

  /** `done`, and the runs `rest` painted from the cursor on, make up the part. */
  ghost predicate Todo(image: DecodedImage, palette: seq<string>, done: seq<SvgRect>, cur: Cursor, rest: seq<Draw>)
    requires Halts(image)
  {
    var b := image.bounds;
    && CursorOk(b, cur.x)
    && if Drawable(b) then
         AllNumeric(rest) && PartRects(image, palette) == done + DrawRects(b, cur, rest, palette)
       else done == []
  }

  /** `done`, and the `length` pixels left painted from the cursor on, make up the run that began at `start`. */
  ghost predicate InRun(b: Bounds, draw: Draw, palette: seq<string>, start: Cursor,
                        cur: Cursor, length: Num, done: seq<SvgRect>)
  {
    && CursorOk(b, start.x) && CursorOk(b, cur.x)
    && if Drawable(b) then
         && length.Val? && draw.length.Val?
         && RunRects(b, start, draw.length.n, draw.color, palette)
            == done + RunRects(b, cur, length.n, draw.color, palette)
         && AfterRun(b, start, draw.length.n) == AfterRun(b, cur, length.n)
       else done == [] && cur == start
  }

  lemma RunBegins(b: Bounds, draw: Draw, palette: seq<string>, start: Cursor)
    requires CursorOk(b, start.x) && (Drawable(b) ==> draw.length.Val?)
    ensures InRun(b, draw, palette, start, start, draw.length, [])
  {
    if Drawable(b) {
      assert [] + RunRects(b, start, draw.length.n, draw.color, palette) == RunRects(b, start, draw.length.n, draw.color, palette);
    }
  }

  /** When the rectangle's length is no longer positive, nothing is left of the run. */
  lemma RunEnds(b: Bounds, draw: Draw, palette: seq<string>, start: Cursor, cur: Cursor, length: Num, done: seq<SvgRect>)
    requires InRun(b, draw, palette, start, cur, length, done)
    requires !Positive(GetRectLength(cur.x, length, b.right))
    ensures CursorOk(b, start.x) && CursorOk(b, cur.x)
    ensures if Drawable(b) then
              && draw.length.Val?
              && done == RunRects(b, start, draw.length.n, draw.color, palette)
              && cur == AfterRun(b, start, draw.length.n)
            else done == [] && cur == start
  {
  }

  lemma RunStep(b: Bounds, draw: Draw, palette: seq<string>, start: Cursor,
                cur: Cursor, length: Num, done: seq<SvgRect>)
    requires InRun(b, draw, palette, start, cur, length, done)
    requires Positive(GetRectLength(cur.x, length, b.right))
    ensures var n := GetRectLength(cur.x, length, b.right).n;
      && cur.x.Val? && length.Val? && 0 < n <= length.n && GetRectLength(cur.x, length, b.right) == Val(n)
      && InRun(b, draw, palette, start, Move(b, cur, n), Val(length.n - n),
               done + RectAt(cur, n, draw.color, palette))
  {
    var n := RowPart(b, cur, length.n);
    var now := RectAt(cur, n, draw.color, palette);
    var later := RunRects(b, Move(b, cur, n), length.n - n, draw.color, palette);
    assert done + (now + later) == (done + now) + later;
  }
}
