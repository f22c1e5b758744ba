/** `Image`: cropping, palette mapping and multi-line run-length encoding of one picture. */
module Images {
  import opened Hex
  import opened JsMaps
  import opened Palettes
  import opened Rle

  type Byte = n: nat | n < 256

  datatype Rgba = Rgba(r: Byte, g: Byte, b: Byte, a: Byte) {
    function Hex(): string { RgbToHex(r, g, b) }

    /** The text has the pixel's red, green and blue in its three pairs of digits. */
    predicate NamedBy(text: string) { Names(text, r, g, b) }
  }

  datatype ImageBounds = ImageBounds(top: int, right: int, bottom: int, left: int)

  /** A decoded PNG: its size and its pixels. */
  datatype PngImage = PngImage(width: nat, height: nat, rgbaAt: (int, int) -> Rgba) {
    predicate Visible(x: int, y: int) {
      0 <= x < width && 0 <= y < height && rgbaAt(x, y).a != 0
    }

    ghost predicate RowVisible(y: int) {
      exists x :: Visible(x, y)
    }

    ghost predicate ColumnVisible(x: int) {
      exists y :: Visible(x, y)
    }

    predicate TransparentRow(y: int) {
      forall x :: 0 <= x < width ==> rgbaAt(x, y).a == 0
    }

    predicate TransparentColumn(x: int) {
      forall y :: 0 <= y < height ==> rgbaAt(x, y).a == 0
    }
  }

  // ----- the visible box -----

  function ScanUp(img: PngImage, y: int): int
    decreases y
  {
    if y > 0 && img.TransparentRow(y) then ScanUp(img, y - 1) else y
  }

  function ScanDown(img: PngImage, y: int, bottom: int): int
    decreases bottom - y
  {
    if y < bottom && img.TransparentRow(y) then ScanDown(img, y + 1, bottom) else y
  }

  function ScanLeft(img: PngImage, x: int): int
    decreases x
  {
    if x >= 0 && img.TransparentColumn(x) then ScanLeft(img, x - 1) else x
  }

  function ScanRight(img: PngImage, x: int, right: int): int
    decreases right - x
  {
    if x < right && img.TransparentColumn(x) then ScanRight(img, x + 1, right) else x
  }

  function BoundsOf(img: PngImage): ImageBounds {
    var bottom := ScanUp(img, img.height - 1);
    var right := ScanLeft(img, img.width - 1);
    ImageBounds(ScanDown(img, 0, bottom), right + 1, bottom, ScanRight(img, 0, right))
  }

  /** The box holds every visible pixel. */
  ghost predicate Encloses(b: ImageBounds, img: PngImage) {
    forall x, y :: img.Visible(x, y) ==> b.top <= y <= b.bottom && b.left <= x < b.right
  }

  ghost predicate Blank(img: PngImage) {
    forall x, y :: !img.Visible(x, y)
  }

  /** Every side of the box touches a visible pixel. */
  ghost predicate Tight(b: ImageBounds, img: PngImage) {
    && img.RowVisible(b.top) && img.RowVisible(b.bottom)
    && img.ColumnVisible(b.left) && img.ColumnVisible(b.right - 1)
  }

  ghost predicate IsVisibleBox(b: ImageBounds, img: PngImage) {
    && Encloses(b, img)
    && if Blank(img) then b == ImageBounds(0, 0, if img.height == 0 then -1 else 0, 0) else Tight(b, img)
  }

  lemma {:induction false} ScanUpStops(img: PngImage, y: int)
    requires y < img.height
    ensures ScanUp(img, y) <= y
    ensures forall x, r :: y >= r > ScanUp(img, y) ==> !img.Visible(x, r)
    ensures y >= 0 ==> ScanUp(img, y) >= 0
    ensures ScanUp(img, y) > 0 ==> img.RowVisible(ScanUp(img, y))
    decreases y
  {
    if y > 0 && img.TransparentRow(y) {
      ScanUpStops(img, y - 1);
    } else if y > 0 {
      var x :| 0 <= x < img.width && img.rgbaAt(x, y).a != 0;
      assert img.Visible(x, y);
    }
  }

  lemma {:induction false} ScanDownStops(img: PngImage, y: int, bottom: int)
    requires 0 <= y && bottom < img.height
    ensures ScanDown(img, y, bottom) >= y
    ensures y <= bottom ==> ScanDown(img, y, bottom) <= bottom
    ensures forall x, r :: y <= r < ScanDown(img, y, bottom) ==> !img.Visible(x, r)
    ensures ScanDown(img, y, bottom) < bottom ==> img.RowVisible(ScanDown(img, y, bottom))
    decreases bottom - y
  {
    if y < bottom && img.TransparentRow(y) {
      ScanDownStops(img, y + 1, bottom);
    } else if y < bottom {
      var x :| 0 <= x < img.width && img.rgbaAt(x, y).a != 0;
      assert img.Visible(x, y);
    }
  }

  lemma {:induction false} ScanLeftStops(img: PngImage, x: int)
    requires -1 <= x < img.width
    ensures -1 <= ScanLeft(img, x) <= x
    ensures forall c, y :: x >= c > ScanLeft(img, x) ==> !img.Visible(c, y)
    ensures ScanLeft(img, x) >= 0 ==> img.ColumnVisible(ScanLeft(img, x))
    decreases x
  {
    if x >= 0 && img.TransparentColumn(x) {
      ScanLeftStops(img, x - 1);
    } else if x >= 0 {
      var y :| 0 <= y < img.height && img.rgbaAt(x, y).a != 0;
      assert img.Visible(x, y);
    }
  }

  lemma {:induction false} ScanRightStops(img: PngImage, x: int, right: int)
    requires 0 <= x && right < img.width
    ensures ScanRight(img, x, right) >= x
    ensures x <= right ==> ScanRight(img, x, right) <= right
    ensures right < x ==> ScanRight(img, x, right) == x
    ensures forall c, y :: x <= c < ScanRight(img, x, right) ==> !img.Visible(c, y)
    ensures ScanRight(img, x, right) < right ==> img.ColumnVisible(ScanRight(img, x, right))
    decreases right - x
  {
    if x < right && img.TransparentColumn(x) {
      ScanRightStops(img, x + 1, right);
    } else if x < right {
      var y :| 0 <= y < img.height && img.rgbaAt(x, y).a != 0;
      assert img.Visible(x, y);
    }
  }

  /** The computed bounds are the visible box, the all-transparent and the empty image included. */
  lemma BoundsAreVisibleBox(img: PngImage)
    ensures IsVisibleBox(BoundsOf(img), img)
  {
    var b := BoundsOf(img);
    ScanUpStops(img, img.height - 1);
    ScanDownStops(img, 0, b.bottom);
    ScanLeftStops(img, img.width - 1);
    ScanRightStops(img, 0, b.right - 1);
    if !Blank(img) {
      var x, y :| img.Visible(x, y);
      assert img.RowVisible(y) && img.ColumnVisible(x);
      assert b.right >= 1;
    }
  }

  /** No other box satisfies that description. */
  lemma VisibleBoxIsUnique(b: ImageBounds, c: ImageBounds, img: PngImage)
    requires IsVisibleBox(b, img) && IsVisibleBox(c, img)
    ensures b == c
  {
  }

  /** Every box that holds all visible pixels of a non-blank image contains the computed one. */
  lemma BoundsAreLeast(img: PngImage, other: ImageBounds)
    requires !Blank(img) && Encloses(other, img)
    ensures other.top <= BoundsOf(img).top && BoundsOf(img).bottom <= other.bottom
    ensures other.left <= BoundsOf(img).left && BoundsOf(img).right <= other.right
  {
    BoundsAreVisibleBox(img);
  }

  /** The bounds depend on the visible pixels only, apart from telling a blank picture with no rows. */
  lemma BoundsDependOnVisible(img: PngImage, other: PngImage)
    requires forall x, y :: img.Visible(x, y) <==> other.Visible(x, y)
    requires Blank(img) ==> (img.height == 0 <==> other.height == 0)
    ensures BoundsOf(img) == BoundsOf(other)
  {
    BoundsAreVisibleBox(img);
    BoundsAreVisibleBox(other);
    var b := BoundsOf(other);
    assert forall y :: img.RowVisible(y) == other.RowVisible(y);
    assert forall x :: img.ColumnVisible(x) == other.ColumnVisible(x);
    VisibleBoxIsUnique(BoundsOf(img), b, img);
  }

  lemma BoundsAreOrdered(img: PngImage)
    ensures var b := BoundsOf(img);
      && 0 <= b.top <= b.bottom + 1 <= img.height && 0 <= b.left <= b.right <= img.width
      && (b.top == 0 || b.top <= b.bottom) && (b.left == 0 || b.left < b.right)
    ensures img.height == 0 <==> BoundsOf(img).bottom < 0
  {
    var b := BoundsOf(img);
    ScanUpStops(img, img.height - 1);
    ScanDownStops(img, 0, b.bottom);
    ScanLeftStops(img, img.width - 1);
    ScanRightStops(img, 0, b.right - 1);
  }

  // ----- palette indexes of the visible box -----

  function RowPixels(img: PngImage, y: int, left: int, right: int): seq<Rgba>
    requires left <= right
  {
    seq(right - left, i => img.rgbaAt(left + i, y))
  }

  /** The pixels of the box's rows above `y`, row after row. */
  function Crop(img: PngImage, b: ImageBounds, y: int): seq<Rgba>
    requires b.left <= b.right
    decreases y - b.top
  {
    if y <= b.top then [] else Crop(img, b, y - 1) + RowPixels(img, y - 1, b.left, b.right)
  }

  /** The pixels of the visible box in the order they are encoded. */
  function VisiblePixels(img: PngImage): seq<Rgba> {
    BoundsAreOrdered(img);
    Crop(img, BoundsOf(img), BoundsOf(img).bottom + 1)
  }

  function Colors(pixels: seq<Rgba>): seq<string> {
    seq(|pixels|, i requires 0 <= i < |pixels| => pixels[i].Hex())
  }

  /** Alpha 0 is index 0. The colours looked up are in the palette whenever this is used. */
  function IndexIn(c: Rgba, p: Palette): nat {
    if c.a == 0 || c.Hex() !in p.values then 0 else p.values[c.Hex()]
  }

  function IndexesIn(pixels: seq<Rgba>, p: Palette): seq<nat> {
    seq(|pixels|, i requires 0 <= i < |pixels| => IndexIn(pixels[i], p))
  }

  function PaletteAfter(img: PngImage, p: Palette): Palette {
    InsertAll(p, Colors(VisiblePixels(img)))
  }

  function Indexes(img: PngImage, p: Palette): seq<nat> {
    IndexesIn(VisiblePixels(img), PaletteAfter(img, p))
  }

  /** `[palette index, top, right, bottom, left]` */
  function Header(b: ImageBounds): string {
    ToPaddedHex(0) + ToPaddedHex(b.top) + ToPaddedHex(b.right) + ToPaddedHex(b.bottom) + ToPaddedHex(b.left)
  }

  function RleText(b: ImageBounds, runs: seq<Run>): string {
    "0x" + Header(b) + HexRuns(runs)
  }

  /** What `toRLE` returns when called with palette `p`. */
  function Encoded(img: PngImage, p: Palette): string {
    RleText(BoundsOf(img), Runs(Indexes(img, p)))
  }

  /** A pixel of the box, found at its row-major position. */
  lemma {:induction false} CropAt(img: PngImage, b: ImageBounds, bottom: int, x: int, y: int)
    requires b.left <= x < b.right && b.top <= y < bottom
    ensures var at := (y - b.top) * (b.right - b.left) + (x - b.left);
      0 <= at < |Crop(img, b, bottom)| && Crop(img, b, bottom)[at] == img.rgbaAt(x, y)
    decreases bottom - y
  {
    var row := RowPixels(img, bottom - 1, b.left, b.right);
    var at := (y - b.top) * (b.right - b.left) + (x - b.left);
    if y < bottom - 1 {
      CropAt(img, b, bottom - 1, x, y);
      assert Crop(img, b, bottom) == Crop(img, b, bottom - 1) + row;
    } else {
      CropLength(img, b, y);
      assert Crop(img, b, bottom) == Crop(img, b, y) + row;
      assert row[x - b.left] == img.rgbaAt(x, y);
      assert at - |Crop(img, b, y)| == x - b.left;
    }
  }

  lemma {:induction false} CropLength(img: PngImage, b: ImageBounds, bottom: int)
    requires b.left <= b.right && b.top <= bottom
    ensures |Crop(img, b, bottom)| == (bottom - b.top) * (b.right - b.left)
    decreases bottom - b.top
  {
    if b.top < bottom {
      CropLength(img, b, bottom - 1);
      var w := b.right - b.left;
      assert (bottom - b.top) * w == (bottom - 1 - b.top) * w + w;
    }
  }

  /** The encoder reads the visible box row by row, from left to right. */
  lemma BoxIsReadInRows(img: PngImage, x: int, y: int)
    ensures var b, pixels := BoundsOf(img), VisiblePixels(img);
      && |pixels| == (b.bottom + 1 - b.top) * (b.right - b.left)
      && (b.left <= x < b.right && b.top <= y <= b.bottom ==>
            var at := (y - b.top) * (b.right - b.left) + (x - b.left);
            0 <= at < |pixels| && pixels[at] == img.rgbaAt(x, y))
  {
    var b := BoundsOf(img);
    BoundsAreOrdered(img);
    hide BoundsOf, Crop;
    CropLength(img, b, b.bottom + 1);
    if b.left <= x < b.right && b.top <= y <= b.bottom {
      CropAt(img, b, b.bottom + 1, x, y);
    }
  }

  /**
   * The palette afterwards: the palette before, then the new colours of the box (of its transparent pixels too) in the
   * order read, each with its place as index.
   */
  lemma PaletteIsReadInOrder(img: PngImage, p: Palette)
    requires p.WellFormed()
    ensures p.ExtendedBy(PaletteAfter(img, p))
    ensures InsertedFrom(PaletteAfter(img, p), |p.keys|, p.keys + Colors(VisiblePixels(img)))
  {
    InsertAllGrows(p, Colors(VisiblePixels(img)));
    InsertedInOrder(p, Colors(VisiblePixels(img)));
  }

  /** Only a picture without visible pixels has nothing to encode. */
  lemma NothingToEncodeIff(img: PngImage, p: Palette)
    ensures Indexes(img, p) == [] <==> Blank(img)
  {
    var b := BoundsOf(img);
    BoundsAreOrdered(img);
    BoundsAreVisibleBox(img);
    hide BoundsOf, Crop, IndexIn, InsertAll;
    assert |Indexes(img, p)| == |Crop(img, b, b.bottom + 1)|;
    if Blank(img) {
      CropLength(img, b, b.bottom + 1);
      assert (b.bottom + 1 - b.top) * 0 == 0;
    } else {
      var x, y :| img.Visible(x, y);
      CropAt(img, b, b.bottom + 1, x, y);
    }
  }

  /** The runs that `toRLE` records are those it prints if and only if there are none: the last is never recorded. */
  lemma TuplesAreRunsIffBlank(img: PngImage, p: Palette)
    ensures AllButLast(Runs(Indexes(img, p))) == Runs(Indexes(img, p)) <==> Blank(img)
  {
    NothingToEncodeIff(img, p);
    LastRunIsMissing(Indexes(img, p));
  }

  /** `pixels` have been scanned: their colours are inserted and their indexes taken from the palette so far. */
  ghost predicate Scanned(pixels: seq<Rgba>, before: Palette, now: Palette, indexes: seq<nat>) {
    && now == InsertAll(before, Colors(pixels))
    && (forall i :: 0 <= i < |pixels| ==> pixels[i].Hex() in now.values)
    && indexes == IndexesIn(pixels, now)
  }

  /** Scanning one more pixel changes no index taken earlier. */
  lemma ScanStep(pixels: seq<Rgba>, c: Rgba, before: Palette, now: Palette, indexes: seq<nat>)
    requires Scanned(pixels, before, now, indexes)
    ensures var next := Insert(now, c.Hex());
      && c.Hex() in next.values
      && Scanned(pixels + [c], before, next, indexes + [if c.a == 0 then 0 else next.values[c.Hex()]])
  {
    hide InsertAll, RgbToHex;
    InsertAllAppend(before, Colors(pixels), c.Hex());
    assert Colors(pixels) + [c.Hex()] == Colors(pixels + [c]);
    IndexesStep(pixels, c, now);
  }

  lemma IndexesStep(pixels: seq<Rgba>, c: Rgba, now: Palette)
    requires forall i :: 0 <= i < |pixels| ==> pixels[i].Hex() in now.values
    ensures var next := Insert(now, c.Hex());
      && c.Hex() in next.values
      && (forall i :: 0 <= i < |pixels| ==> pixels[i].Hex() in next.values)
      && IndexesIn(pixels + [c], next) == IndexesIn(pixels, now) + [if c.a == 0 then 0 else next.values[c.Hex()]]
  {
    hide RgbToHex;
  }

  /** The rows above `y`, and row `y` up to column `x`. */
  ghost function CropUpTo(img: PngImage, b: ImageBounds, y: int, x: int): seq<Rgba>
    requires b.left <= x <= b.right
  {
    Crop(img, b, y) + RowPixels(img, y, b.left, x)
  }

  lemma ScanBegins(img: PngImage, b: ImageBounds, before: Palette)
    requires b.left <= b.right
    ensures Crop(img, b, b.top) == [] && Scanned([], before, before, [])
  {
  }

  lemma CropRowBegins(img: PngImage, b: ImageBounds, y: int)
    requires b.left <= b.right
    ensures CropUpTo(img, b, y, b.left) == Crop(img, b, y)
  {
  }

  lemma CropRowGrows(img: PngImage, b: ImageBounds, y: int, x: int)
    requires b.left <= x < b.right
    ensures CropUpTo(img, b, y, x + 1) == CropUpTo(img, b, y, x) + [img.rgbaAt(x, y)]
  {
    assert RowPixels(img, y, b.left, x + 1) == RowPixels(img, y, b.left, x) + [img.rgbaAt(x, y)];
  }

  lemma CropRowEnds(img: PngImage, b: ImageBounds, y: int)
    requires b.left <= b.right && b.top <= y
    ensures CropUpTo(img, b, y, b.right) == Crop(img, b, y + 1)
  {
  }

  // ----- the encoder -----

  class Image {
    const width: nat
    const height: nat
    const getRgbaAt: (int, int) -> Rgba
    var bounds: ImageBounds
    var tuples: seq<Run>

    constructor (width: nat, height: nat, getRgbaAt: (int, int) -> Rgba)
      ensures this.width == width && this.height == height && this.getRgbaAt == getRgbaAt
      ensures bounds == ImageBounds(0, 0, 0, 0) && tuples == []
    {
      this.width, this.height, this.getRgbaAt := width, height, getRgbaAt;
      bounds, tuples := ImageBounds(0, 0, 0, 0), [];
    }

    function Picture(): PngImage {
      PngImage(width, height, getRgbaAt)
    }

    method ToRLE(colors: ColorMap) returns (rle: string)
      modifies this, colors
      ensures rle == Encoded(Picture(), old(colors.View()))
      ensures colors.View() == PaletteAfter(Picture(), old(colors.View()))
      ensures bounds == BoundsOf(Picture())
      ensures tuples == old(tuples) + AllButLast(Runs(Indexes(Picture(), old(colors.View()))))
      ensures old(tuples) == [] ==> (tuples == Runs(Indexes(Picture(), old(colors.View()))) <==> Blank(Picture()))
    {
      TuplesAreRunsIffBlank(Picture(), colors.View());
      bounds := CalcBounds();
      BoundsAreOrdered(Picture());
      var indexes := ReadIndexes(colors);
      var metadata := ToPaddedHex(0) + ToPaddedHex(bounds.top) + ToPaddedHex(bounds.right)
        + ToPaddedHex(bounds.bottom) + ToPaddedHex(bounds.left);
      assert metadata == Header(bounds);
      var encoding := Encode(indexes);
      rle := "0x" + metadata + encoding;
    }

    /** The pixels of the box, row by row, as palette indexes. */
    method ReadIndexes(colors: ColorMap) returns (indexes: seq<nat>)
      requires bounds.left <= bounds.right && bounds.top <= bounds.bottom + 1
      modifies colors
      ensures Scanned(Crop(Picture(), bounds, bounds.bottom + 1), old(colors.View()), colors.View(), indexes)
    {
      ghost var img, before := Picture(), colors.View();
      ghost var pixels: seq<Rgba> := [];
      indexes := [];
      ScanBegins(img, bounds, before);
      hide Scanned, Crop, CropUpTo;
      for y := bounds.top to bounds.bottom + 1
        invariant pixels == Crop(img, bounds, y)
        invariant Scanned(pixels, before, colors.View(), indexes)
      {
        CropRowBegins(img, bounds, y);
        for x := bounds.left to bounds.right
          invariant pixels == CropUpTo(img, bounds, y, x)
          invariant Scanned(pixels, before, colors.View(), indexes)
        {
          var c := getRgbaAt(x, y);
          CropRowGrows(img, bounds, y, x);
          indexes := PushIndex(c, colors, indexes, pixels, before);
          pixels := pixels + [c];
        }
        CropRowEnds(img, bounds, y);
      }
    }

    /** The inner loop's body: record the colour, and append the pixel's index. */
    method PushIndex(c: Rgba, colors: ColorMap, indexes: seq<nat>, ghost pixels: seq<Rgba>, ghost before: Palette)
      returns (pushed: seq<nat>)
      requires Scanned(pixels, before, colors.View(), indexes)
      modifies colors
      ensures Scanned(pixels + [c], before, colors.View(), pushed)
    {
      ScanStep(pixels, c, before, colors.View(), indexes);
      var hexColor := c.Hex();
      if !colors.Has(hexColor) {
        colors.Set(hexColor, colors.Size());
      }
      pushed := indexes + [if c.a == 0 then 0 else colors.Get(hexColor)];
    }

    /** The last run is printed, but not recorded in `tuples`. */
    method Encode(data: seq<nat>) returns (encoding: string)
      modifies `tuples
      ensures encoding == HexRuns(Runs(data))
      ensures tuples == old(tuples) + AllButLast(Runs(data))
    {
      hide ToPaddedHex;
      encoding := "";
      if data == [] {
        return;
      }
      var previous := data[0];
      var count := 1;
      ghost var done: seq<Run> := [];
      for i := 1 to |data|
        invariant tuples == old(tuples) + done
        invariant Pending(data, i, done, encoding, count, previous)
      {
        if data[i] != previous || count == 255 {
          PendingBreak(data, i, done, encoding, count, previous);
          done := done + [Run(count, previous)];
          encoding := encoding + ToPaddedHex(count) + ToPaddedHex(previous);
          tuples := tuples + [Run(count, previous)];
          count := 1;
          previous := data[i];
        } else {
          count := count + 1;
        }
      }
      PendingEnd(data, done, encoding, count, previous);
      encoding := encoding + ToPaddedHex(count) + ToPaddedHex(previous);
    }

    method CalcBounds() returns (b: ImageBounds)
      ensures b == BoundsOf(Picture())
    {
      ghost var img := Picture();
      var bottom := height - 1;
      var hidden := bottom > 0;
      if hidden { hidden := IsTransparentRow(bottom); }
      while hidden
        invariant hidden <==> bottom > 0 && img.TransparentRow(bottom)
        invariant ScanUp(img, height - 1) == ScanUp(img, bottom)
        decreases bottom
      {
        bottom := bottom - 1;
        hidden := bottom > 0;
        if hidden { hidden := IsTransparentRow(bottom); }
      }

      var top := 0;
      hidden := top < bottom;
      if hidden { hidden := IsTransparentRow(top); }
      while hidden
        invariant hidden <==> top < bottom && img.TransparentRow(top)
        invariant ScanDown(img, 0, bottom) == ScanDown(img, top, bottom)
        decreases bottom - top
      {
        top := top + 1;
        hidden := top < bottom;
        if hidden { hidden := IsTransparentRow(top); }
      }

      var right := width - 1;
      hidden := right >= 0;
      if hidden { hidden := IsTransparentColumn(right); }
      while hidden
        invariant hidden <==> right >= 0 && img.TransparentColumn(right)
        invariant ScanLeft(img, width - 1) == ScanLeft(img, right)
        decreases right
      {
        right := right - 1;
        hidden := right >= 0;
        if hidden { hidden := IsTransparentColumn(right); }
      }

      var left := 0;
      hidden := left < right;
      if hidden { hidden := IsTransparentColumn(left); }
      while hidden
        invariant hidden <==> left < right && img.TransparentColumn(left)
        invariant ScanRight(img, 0, right) == ScanRight(img, left, right)
        decreases right - left
      {
        left := left + 1;
        hidden := left < right;
        if hidden { hidden := IsTransparentColumn(left); }
      }
      b := ImageBounds(top, right + 1, bottom, left);
    }

    method IsTransparentColumn(column: int) returns (transparent: bool)
      ensures transparent <==> Picture().TransparentColumn(column)
    {
      for row := 0 to height
        invariant forall y :: 0 <= y < row ==> getRgbaAt(column, y).a == 0
      {
        if getRgbaAt(column, row).a != 0 {
          return false;
        }
      }
      return true;
    }

    method IsTransparentRow(row: int) returns (transparent: bool)
      ensures transparent <==> Picture().TransparentRow(row)
    {
      for column := 0 to width
        invariant forall x :: 0 <= x < column ==> getRgbaAt(x, row).a == 0
      {
        if getRgbaAt(column, row).a != 0 {
          return false;
        }
      }
      return true;
    }
  }
}
