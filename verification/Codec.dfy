/** The codec is lossless: parsing what `toRLE` prints, and painting it, gives the picture back. */
module Codec {
  import opened Hex
  import opened Options
  import opened Palettes
  import R = Rle
  import I = Images
  import S = SvgBuilder
  import P = Painting

  // ----- reading back the printed runs -----

  function AsDraw(run: R.Run): S.Draw {
    S.Draw(Val(run.length), Val(run.color))
  }

  function AsDraws(runs: seq<R.Run>): seq<S.Draw> {
    if runs == [] then [] else [AsDraw(runs[0])] + AsDraws(runs[1..])
  }

  function AsDecoded(b: I.ImageBounds, runs: seq<R.Run>): S.DecodedImage {
    S.DecodedImage(Val(0), S.Bounds(Val(b.top), Val(b.right), Val(b.bottom), Val(b.left)), AsDraws(runs))
  }

  ghost predicate OneByteRuns(runs: seq<R.Run>) {
    forall i :: 0 <= i < |runs| ==> runs[i].length <= 255 && runs[i].color <= 255
  }

  lemma HexIsOneLine(s: string)
    requires AllDigits(s)
    ensures forall i :: 0 <= i < |s| ==> !S.IsLineTerminator(s[i])
  {
  }

  lemma FourCharacterChunk(c: string, rest: string)
    requires |c| == 4 && AllDigits(c)
    ensures S.Chunks(c + rest) == [c] + S.Chunks(rest)
  {
    HexIsOneLine(c);
    var s := c + rest;
    assert s[1..][0] == c[1] && s[1..][1..][0] == c[2] && s[1..][1..][1..][0] == c[3];
    assert S.MatchLength(s[1..][1..][1..], 1) == 1;
    assert S.MatchLength(s[1..][1..], 2) == 2;
    assert S.MatchLength(s[1..], 3) == 3;
    assert s[..4] == c && s[4..] == rest;
  }

  lemma OneRunReadsBack(run: R.Run, rest: string)
    requires run.length <= 255 && run.color <= 255
    ensures S.ParseDraws(S.Chunks(ToPaddedHex(run.length) + ToPaddedHex(run.color) + rest))
         == [AsDraw(run)] + S.ParseDraws(S.Chunks(rest))
  {
    var length, color := ToPaddedHex(run.length), ToPaddedHex(run.color);
    TwoCharacters(run.length);
    TwoCharacters(run.color);
    PrintedIsHex(run.length);
    PrintedIsHex(run.color);
    ParsePrinted(run.length);
    ParsePrinted(run.color);
    TwoFields(length, color);
    FourCharacterChunk(length + color, rest);
    ParseFirst(length + color, S.Chunks(rest));
  }

  lemma TwoFields(a: string, b: string)
    requires |a| == 2 && |b| == 2
    ensures S.Substring(a + b, 0, 2) == a && S.Substring(a + b, 2, 4) == b
  {
  }

  lemma {:induction false} RunsReadBack(runs: seq<R.Run>)
    requires OneByteRuns(runs)
    ensures S.ParseDraws(S.Chunks(R.HexRuns(runs))) == AsDraws(runs)
    decreases runs
  {
    if runs != [] {
      OneRunReadsBack(runs[0], R.HexRuns(runs[1..]));
      RunsReadBack(runs[1..]);
    }
  }

  lemma ParseFirst(chunk: string, chunks: seq<string>)
    ensures S.ParseDraws([chunk] + chunks) == [S.ParseDraw(chunk)] + S.ParseDraws(chunks)
  {
    assert ([chunk] + chunks)[1..] == chunks;
  }

  lemma {:induction false} ParsedColorsAreBytes(chunks: seq<string>)
    ensures forall i :: 0 <= i < |S.ParseDraws(chunks)| ==>
              S.ParseDraws(chunks)[i].color.Val? ==> S.ParseDraws(chunks)[i].color.n <= 255
    decreases chunks
  {
    if chunks != [] {
      TwoCharactersAreOneByte(S.Substring(chunks[0], 2, 4));
      ParsedColorsAreBytes(chunks[1..]);
    }
  }

  lemma {:induction false} AsDrawsAt(runs: seq<R.Run>)
    ensures |AsDraws(runs)| == |runs|
    ensures forall i :: 0 <= i < |runs| ==> AsDraws(runs)[i] == AsDraw(runs[i])
    decreases runs
  {
    if runs != [] {
      AsDrawsAt(runs[1..]);
    }
  }

  // ----- reading back the header -----

  predicate BoundsFit(b: I.ImageBounds) {
    b.top <= 255 && b.right <= 255 && b.bottom <= 255 && b.left <= 255
  }

  lemma HeaderReadsBack(b: I.ImageBounds, rest: string)
    requires BoundsFit(b) && b.top >= 0 && b.right >= 0 && b.bottom >= -1 && b.left >= 0
    ensures var data := I.Header(b) + rest;
      && |data| >= 10 && data[10..] == rest
      && ParseInt16(S.Substring(data, 0, 2)) == Val(0)
      && ParseInt16(S.Substring(data, 2, 4)) == Val(b.top)
      && ParseInt16(S.Substring(data, 4, 6)) == Val(b.right)
      && ParseInt16(S.Substring(data, 6, 8)) == Val(b.bottom)
      && ParseInt16(S.Substring(data, 8, 10)) == Val(b.left)
  {
    TwoCharacters(0); TwoCharacters(b.top); TwoCharacters(b.right); TwoCharacters(b.bottom); TwoCharacters(b.left);
    ParsePrinted(0); ParsePrinted(b.top); ParsePrinted(b.right); ParsePrinted(b.bottom); ParsePrinted(b.left);
    FiveFields(ToPaddedHex(0), ToPaddedHex(b.top), ToPaddedHex(b.right), ToPaddedHex(b.bottom), ToPaddedHex(b.left), rest);
  }

  lemma FiveFields(f0: string, f1: string, f2: string, f3: string, f4: string, rest: string)
    requires |f0| == |f1| == |f2| == |f3| == |f4| == 2
    ensures var data := f0 + f1 + f2 + f3 + f4 + rest;
      && |data| >= 10 && data[0..2] == f0 && data[2..4] == f1 && data[4..6] == f2 && data[6..8] == f3
      && data[8..10] == f4 && data[10..] == rest
  {
  }

  lemma PrefixDrops(data: string, header: string, rest: string)
    requires data == header + rest
    ensures S.DropPrefix0x("0x" + header + rest) == data
  {
    assert "0x" + header + rest == "0x" + data;
  }

  lemma FittingTextReadsBack(b: I.ImageBounds, runs: seq<R.Run>)
    requires b.top >= 0 && b.right >= 0 && b.bottom >= -1 && b.left >= 0
    requires BoundsFit(b) && OneByteRuns(runs)
    ensures S.DecodeImage(I.RleText(b, runs)) == AsDecoded(b, runs)
  {
    PrefixDrops(I.Header(b) + R.HexRuns(runs), I.Header(b), R.HexRuns(runs));
    HeaderReadsBack(b, R.HexRuns(runs));
    RunsReadBack(runs);
  }

  /** No text decodes to a bound or a colour index above 255. */
  lemma DecodedFieldsFit(text: string, b: I.ImageBounds, runs: seq<R.Run>)
    requires S.DecodeImage(text) == AsDecoded(b, runs)
    ensures BoundsFit(b)
    ensures forall i :: 0 <= i < |runs| ==> runs[i].color <= 255
  {
    var data := S.DropPrefix0x(text);
    TwoCharactersAreOneByte(S.Substring(data, 2, 4));
    TwoCharactersAreOneByte(S.Substring(data, 4, 6));
    TwoCharactersAreOneByte(S.Substring(data, 6, 8));
    TwoCharactersAreOneByte(S.Substring(data, 8, 10));
    ParsedColorsAreBytes(S.Chunks(if |data| < 10 then "" else data[10..]));
    AsDrawsAt(runs);
    forall i | 0 <= i < |runs| ensures runs[i].color <= 255 {
      assert AsDraws(runs)[i] == AsDraw(runs[i]);
    }
  }

  /** Parsing the printed text gives the bounds and runs back if and only if every field fits its byte. */
  lemma TextRoundTrip(b: I.ImageBounds, runs: seq<R.Run>)
    requires b.top >= 0 && b.right >= 0 && b.bottom >= -1 && b.left >= 0 && R.AllValid(runs)
    ensures S.DecodeImage(I.RleText(b, runs)) == AsDecoded(b, runs) <==> BoundsFit(b) && OneByteRuns(runs)
  {
    if BoundsFit(b) && OneByteRuns(runs) {
      FittingTextReadsBack(b, runs);
    }
    if S.DecodeImage(I.RleText(b, runs)) == AsDecoded(b, runs) {
      DecodedFieldsFit(I.RleText(b, runs), b, runs);
      assert forall i :: 0 <= i < |runs| ==> runs[i].Valid();
    }
  }

  // ----- the picture -----

  /** The format has one byte for each bound and for each colour index; these are the pictures it can hold. */
  ghost predicate Fits(img: I.PngImage, p: Palette) {
    && BoundsFit(I.BoundsOf(img))
    && forall i :: 0 <= i < |I.Indexes(img, p)| ==> I.Indexes(img, p)[i] <= 255
  }

  /** A picture within 255 by 256 pixels that leaves the palette at 256 entries or fewer always fits. */
  lemma SmallPicturesFit(img: I.PngImage, p: Palette)
    requires img.width <= 255 && img.height <= 256
    requires Ordered(p) && |I.PaletteAfter(img, p).keys| <= 256
    ensures Fits(img, p)
  {
    I.BoundsAreOrdered(img);
    var pixels := I.VisiblePixels(img);
    InsertAllGrows(p, I.Colors(pixels));
    var after := I.PaletteAfter(img, p);
    forall i | 0 <= i < |pixels| ensures I.IndexIn(pixels[i], after) <= 255 {
      IndexIsPlace(pixels[i], after);
    }
  }

  /** In an ordered palette a colour's index is its place, and only "transparent" is at place 0. */
  lemma IndexIsPlace(c: I.Rgba, p: Palette)
    requires Ordered(p)
    ensures I.IndexIn(c, p) < |p.keys|
    ensures c.a != 0 && c.Hex() in p.values ==> I.IndexIn(c, p) != 0 && p.keys[I.IndexIn(c, p)] == c.Hex()
  {
    if c.a != 0 && c.Hex() in p.values {
      TwoCharacters(c.r);
      assert |c.Hex()| >= 2;
    }
  }

  /**
   * A palette that draws every colour it can name: a colour's index, where it fits a byte, is its place, and not the
   * place of "transparent". Entries that are no colours do not matter.
   */
  ghost predicate Usable(p: Palette) {
    p.keys != [] && forall text :: IsColorText(text) ==> UsableColor(p, text)
  }

  predicate UsableColor(p: Palette, text: string) {
    text in p.values && p.values[text] <= 255 ==> 0 < p.values[text] < |p.keys| && p.keys[p.values[text]] == text
  }

  lemma OrderedIsUsable(p: Palette)
    requires Ordered(p)
    ensures Usable(p)
  {
    assert !IsColorText("");
  }

  lemma InsertKeepsUsable(p: Palette, color: string)
    requires Usable(p)
    ensures Usable(Insert(p, color))
  {
    forall text | IsColorText(text) ensures UsableColor(Insert(p, color), text) {
      assert UsableColor(p, text);
    }
  }

  lemma {:induction false} InsertAllKeepsUsable(p: Palette, colors: seq<string>)
    requires Usable(p)
    ensures Usable(InsertAll(p, colors))
    decreases |colors|
  {
    hide Usable, Insert;
    if colors != [] {
      InsertAllKeepsUsable(p, colors[..|colors| - 1]);
      InsertKeepsUsable(InsertAll(p, colors[..|colors| - 1]), colors[|colors| - 1]);
    }
  }

  lemma EncodingKeepsUsable(img: I.PngImage, p: Palette)
    requires Usable(p)
    ensures Usable(I.PaletteAfter(img, p))
  {
    hide Usable;
    InsertAllKeepsUsable(p, I.Colors(I.VisiblePixels(img)));
  }

  lemma {:induction false} ExpandCovers(runs: seq<R.Run>, k: nat)
    requires k < |R.Expand(runs)|
    ensures exists i :: 0 <= i < |runs| && runs[i].color == R.Expand(runs)[k]
    decreases runs
  {
    if k >= runs[0].length {
      ExpandCovers(runs[1..], k - runs[0].length);
      var i :| 0 <= i < |runs[1..]| && runs[1..][i].color == R.Expand(runs)[k];
      assert runs[i + 1].color == R.Expand(runs)[k];
    }
  }

  lemma RunsFitWhenIndexesDo(data: seq<nat>)
    ensures OneByteRuns(R.Runs(data)) <==> forall i :: 0 <= i < |data| ==> data[i] <= 255
  {
    R.RunsExpand(data);
    var runs := R.Runs(data);
    if OneByteRuns(runs) {
      forall k | 0 <= k < |data| ensures data[k] <= 255 {
        ExpandCovers(runs, k);
      }
    }
    if forall i :: 0 <= i < |data| ==> data[i] <= 255 {
      forall i | 0 <= i < |runs| ensures runs[i].length <= 255 && runs[i].color <= 255 {
        assert runs[i].Valid() && runs[i].color in data;
      }
    }
  }

  /** `decodeImage(toRLE(img))` is the box and the runs of the picture if and only if the picture fits the format. */
  lemma DecodeInvertsEncode(img: I.PngImage, p: Palette)
    ensures S.DecodeImage(I.Encoded(img, p)) == AsDecoded(I.BoundsOf(img), R.Runs(I.Indexes(img, p))) <==> Fits(img, p)
  {
    I.BoundsAreOrdered(img);
    R.RunsExpand(I.Indexes(img, p));
    RunsFitWhenIndexesDo(I.Indexes(img, p));
    TextRoundTrip(I.BoundsOf(img), R.Runs(I.Indexes(img, p)));
  }

  lemma {:induction false} RunsLength(runs: seq<R.Run>)
    requires OneByteRuns(runs)
    ensures |R.HexRuns(runs)| == 4 * |runs|
    decreases runs
  {
    if runs != [] {
      TwoCharacters(runs[0].length);
      TwoCharacters(runs[0].color);
      RunsLength(runs[1..]);
      hide ToPaddedHex;
    }
  }

  /** The two characters from place k on. */
  function PairAt(text: string, k: nat): string {
    if k + 2 <= |text| then text[k..k + 2] else ""
  }

  /** Where the i-th run is in the text. */
  lemma {:induction false} RunLayout(runs: seq<R.Run>, i: nat)
    requires OneByteRuns(runs) && i < |runs|
    ensures PairAt(R.HexRuns(runs), 4 * i) == ToPaddedHex(runs[i].length)
    ensures PairAt(R.HexRuns(runs), 4 * i + 2) == ToPaddedHex(runs[i].color)
    decreases runs
  {
    hide ToPaddedHex, PairAt;
    var length, color, rest := ToPaddedHex(runs[0].length), ToPaddedHex(runs[0].color), R.HexRuns(runs[1..]);
    TwoCharacters(runs[0].length);
    TwoCharacters(runs[0].color);
    assert R.HexRuns(runs) == length + color + rest;
    hide R.HexRuns;
    if i == 0 {
      FirstPairs(length, color, rest);
    } else {
      RunLayout(runs[1..], i - 1);
      LaterPairs(length + color, rest, 4 * (i - 1), 4 * i);
      LaterPairs(length + color, rest, 4 * (i - 1) + 2, 4 * i + 2);
    }
  }

  lemma FirstPairs(a: string, b: string, rest: string)
    requires |a| == |b| == 2
    ensures PairAt(a + b + rest, 0) == a && PairAt(a + b + rest, 2) == b
  {
  }

  lemma LaterPairs(first: string, rest: string, k: nat, k': nat)
    requires k' == k + |first|
    ensures PairAt(first + rest, k') == PairAt(rest, k)
  {
    if k + 2 <= |rest| {
      assert (first + rest)[k'..k' + 2] == rest[k..k + 2];
    }
  }

  /**
   * The text of a picture that fits: "0x", one byte 0 for the palette, one byte each for top, right, bottom and left,
   * and for each run one byte for its length and one for its colour index.
   */
  lemma TextLayout(img: I.PngImage, p: Palette, i: nat)
    requires Fits(img, p)
    ensures var text, b, runs := I.Encoded(img, p), I.BoundsOf(img), R.Runs(I.Indexes(img, p));
      && |text| == 12 + 4 * |runs| && PairAt(text, 0) == "0x" && ParseInt16(PairAt(text, 2)) == Val(0)
      && ParseInt16(PairAt(text, 4)) == Val(b.top) && ParseInt16(PairAt(text, 6)) == Val(b.right)
      && ParseInt16(PairAt(text, 8)) == Val(b.bottom) && ParseInt16(PairAt(text, 10)) == Val(b.left)
      && (i < |runs| ==>
            && ParseInt16(PairAt(text, 12 + 4 * i)) == Val(runs[i].length)
            && ParseInt16(PairAt(text, 14 + 4 * i)) == Val(runs[i].color))
  {
    var text, b, runs := I.Encoded(img, p), I.BoundsOf(img), R.Runs(I.Indexes(img, p));
    I.BoundsAreOrdered(img);
    R.RunsExpand(I.Indexes(img, p));
    RunsFitWhenIndexesDo(I.Indexes(img, p));
    assert BoundsFit(b) && OneByteRuns(runs);
    hide I.Header, R.Runs, I.Indexes, I.BoundsOf, Fits;
    PartsLayout(text, b, runs, i);
  }

  lemma PartsLayout(text: string, b: I.ImageBounds, runs: seq<R.Run>, i: nat)
    requires text == I.RleText(b, runs) && BoundsFit(b) && OneByteRuns(runs)
    requires b.top >= 0 && b.right >= 0 && b.bottom >= -1 && b.left >= 0
    ensures |text| == 12 + 4 * |runs| && PairAt(text, 0) == "0x" && ParseInt16(PairAt(text, 2)) == Val(0)
    ensures ParseInt16(PairAt(text, 4)) == Val(b.top) && ParseInt16(PairAt(text, 6)) == Val(b.right)
    ensures ParseInt16(PairAt(text, 8)) == Val(b.bottom) && ParseInt16(PairAt(text, 10)) == Val(b.left)
    ensures i < |runs| ==>
              && ParseInt16(PairAt(text, 12 + 4 * i)) == Val(runs[i].length)
              && ParseInt16(PairAt(text, 14 + 4 * i)) == Val(runs[i].color)
  {
    var header, rest := I.Header(b), R.HexRuns(runs);
    HeaderLayout(b);
    RunsLength(runs);
    assert text == ("0x" + header) + rest;
    hide ParseInt16, ToPaddedHex, R.HexRuns, I.Header, I.RleText;
    FrontPairs(header, rest);
    hide PairAt;
    if i < |runs| {
      RunLayout(runs, i);
      ParsePrinted(runs[i].length);
      ParsePrinted(runs[i].color);
      LaterPairs("0x" + header, rest, 4 * i, 12 + 4 * i);
      LaterPairs("0x" + header, rest, 4 * i + 2, 14 + 4 * i);
    }
  }

  lemma FrontPairs(header: string, rest: string)
    requires |header| == 10
    ensures var text := ("0x" + header) + rest;
      PairAt(text, 0) == "0x"
      && forall k :: 0 <= k <= 8 ==> PairAt(text, k + 2) == PairAt(header, k)
  {
  }

  lemma HeaderLayout(b: I.ImageBounds)
    requires BoundsFit(b) && b.top >= 0 && b.right >= 0 && b.bottom >= -1 && b.left >= 0
    ensures var text := I.Header(b);
      && |text| == 10 && ParseInt16(PairAt(text, 0)) == Val(0)
      && ParseInt16(PairAt(text, 2)) == Val(b.top) && ParseInt16(PairAt(text, 4)) == Val(b.right)
      && ParseInt16(PairAt(text, 6)) == Val(b.bottom) && ParseInt16(PairAt(text, 8)) == Val(b.left)
  {
    TwoCharacters(0); TwoCharacters(b.top); TwoCharacters(b.right); TwoCharacters(b.bottom); TwoCharacters(b.left);
    ParsePrinted(0); ParsePrinted(b.top); ParsePrinted(b.right); ParsePrinted(b.bottom); ParsePrinted(b.left);
    FiveFields(ToPaddedHex(0), ToPaddedHex(b.top), ToPaddedHex(b.right), ToPaddedHex(b.bottom), ToPaddedHex(b.left), "");
    assert I.Header(b) + "" == I.Header(b);
    hide ToPaddedHex, ParseInt16;
  }

  function AsNums(data: seq<nat>): seq<Num> {
    seq(|data|, i requires 0 <= i < |data| => Val(data[i]))
  }

  lemma {:induction false} PixelsOfRuns(runs: seq<R.Run>)
    ensures S.AllNumeric(AsDraws(runs))
    ensures P.Pixels(AsDraws(runs)) == AsNums(R.Expand(runs))
    decreases runs
  {
    AsDrawsAt(runs);
    if runs != [] {
      PixelsOfRuns(runs[1..]);
      var draws := AsDraws(runs);
      assert draws[1..] == AsDraws(runs[1..]);
      assert P.Repeat(runs[0].length, Val(runs[0].color)) == AsNums(R.Repeat(runs[0].length, runs[0].color));
    }
  }

  /** The colour index that bounds and runs give a pixel. */
  lemma RunsIndex(b: I.ImageBounds, runs: seq<R.Run>, x: int, y: int)
    ensures var d, at, data := AsDecoded(b, runs), (y - b.top) * (b.right - b.left) + (x - b.left), R.Expand(runs);
      && S.Halts(d)
      && P.IndexAt(d, x, y) == Val(if b.left <= x < b.right && 0 <= at < |data| then data[at] else 0)
  {
    PixelsOfRuns(runs);
  }

  /** The index at a row-major place of a box that lies within the picture and holds all visible pixels. */
  lemma IndexInBox(img: I.PngImage, q: Palette, b: I.ImageBounds, x: int, y: int)
    requires I.Encloses(b, img) && 0 <= b.top <= b.bottom + 1 <= img.height && 0 <= b.left <= b.right <= img.width
    ensures var at, data := (y - b.top) * (b.right - b.left) + (x - b.left), I.IndexesIn(I.Crop(img, b, b.bottom + 1), q);
      (if b.left <= x < b.right && 0 <= at < |data| then data[at] else 0)
      == if img.Visible(x, y) then I.IndexIn(img.rgbaAt(x, y), q) else 0
  {
    I.CropLength(img, b, b.bottom + 1);
    hide I.Crop, I.IndexIn;
    if b.left <= x < b.right {
      PosInBox(b, x, y);
      if b.top <= y <= b.bottom {
        I.CropAt(img, b, b.bottom + 1, x, y);
      }
    }
  }

  /** The colour index the decoded picture has at a pixel. */
  lemma DecodedIndex(img: I.PngImage, p: Palette, x: int, y: int)
    requires Fits(img, p)
    ensures var d := S.DecodeImage(I.Encoded(img, p));
      && S.Halts(d)
      && P.IndexAt(d, x, y) == Val(if img.Visible(x, y) then I.IndexIn(img.rgbaAt(x, y), I.PaletteAfter(img, p)) else 0)
  {
    DecodeInvertsEncode(img, p);
    R.RunsExpand(I.Indexes(img, p));
    RunsIndex(I.BoundsOf(img), R.Runs(I.Indexes(img, p)), x, y);
    I.BoundsAreOrdered(img);
    I.BoundsAreVisibleBox(img);
    IndexInBox(img, I.PaletteAfter(img, p), I.BoundsOf(img), x, y);
  }

  lemma PosInBox(b: I.ImageBounds, x: int, y: int)
    requires b.left <= x < b.right && b.top <= b.bottom + 1
    ensures var at := (y - b.top) * (b.right - b.left) + (x - b.left);
      0 <= at < (b.bottom + 1 - b.top) * (b.right - b.left) <==> b.top <= y <= b.bottom
  {
    var w := b.right - b.left;
    P.RowAtLeast(y - b.top, w);
    P.RowAtLeast(b.bottom + 1 - y, w);
    assert (b.bottom + 1 - b.top) * w == (b.bottom + 1 - y) * w + (y - b.top) * w;
  }

  lemma ColorInCrop(img: I.PngImage, b: I.ImageBounds, bottom: int, x: int, y: int)
    requires b.left <= x < b.right && b.top <= y < bottom
    ensures exists i :: 0 <= i < |I.Colors(I.Crop(img, b, bottom))|
                     && I.Colors(I.Crop(img, b, bottom))[i] == img.rgbaAt(x, y).Hex()
  {
    I.CropAt(img, b, bottom, x, y);
    var at := (y - b.top) * (b.right - b.left) + (x - b.left);
    assert I.Colors(I.Crop(img, b, bottom))[at] == img.rgbaAt(x, y).Hex();
  }

  lemma VisibleColorsAreKnown(img: I.PngImage, p: Palette, x: int, y: int)
    requires img.Visible(x, y)
    ensures img.rgbaAt(x, y).Hex() in I.PaletteAfter(img, p).values
  {
    InsertAllGrows(p, I.Colors(I.VisiblePixels(img)));
    I.BoundsAreOrdered(img);
    I.BoundsAreVisibleBox(img);
    ColorInCrop(img, I.BoundsOf(img), I.BoundsOf(img).bottom + 1, x, y);
  }

  lemma VisibleIndexFits(img: I.PngImage, p: Palette, x: int, y: int)
    requires Fits(img, p) && img.Visible(x, y)
    ensures I.IndexIn(img.rgbaAt(x, y), I.PaletteAfter(img, p)) <= 255
  {
    I.BoundsAreOrdered(img);
    I.BoundsAreVisibleBox(img);
    var b := I.BoundsOf(img);
    I.CropAt(img, b, b.bottom + 1, x, y);
    var at := (y - b.top) * (b.right - b.left) + (x - b.left);
    assert I.Indexes(img, p)[at] == I.IndexIn(img.rgbaAt(x, y), I.PaletteAfter(img, p));
  }

  /** The index of a visible pixel is not 0, and is the place of the pixel's colour. */
  lemma VisibleIndexIsPlace(img: I.PngImage, p: Palette, x: int, y: int)
    requires Usable(p) && Fits(img, p) && img.Visible(x, y)
    ensures var q := I.PaletteAfter(img, p);
      var i := I.IndexIn(img.rgbaAt(x, y), q);
      0 < i < |q.keys| && q.keys[i] == img.rgbaAt(x, y).Hex()
  {
    var c := img.rgbaAt(x, y);
    VisibleColorsAreKnown(img, p, x, y);
    VisibleIndexFits(img, p, x, y);
    EncodingKeepsUsable(img, p);
    RgbToHexIff(c.Hex(), c.r, c.g, c.b);
    hide RgbToHex, I.PaletteAfter, Fits;
    assert UsableColor(I.PaletteAfter(img, p), c.Hex());
  }

  /** The fill has the colour of the pixel: its text reads as the pixel's red, green and blue. */
  predicate HasColor(fill: Option<string>, c: I.Rgba) {
    fill.Some? && c.NamedBy(fill.value)
  }

  /** The decoded picture, drawn with `palette`, paints the pixel once and in its own colour, or not at all. */
  ghost predicate DrawnRight(img: I.PngImage, p: Palette, palette: seq<string>, x: int, y: int) {
    var d := S.DecodeImage(I.Encoded(img, p));
    && S.Halts(d)
    && var fills := P.Hits(S.PartRects(d, palette), x, y);
       if img.Visible(x, y) then |fills| == 1 && HasColor(fills[0], img.rgbaAt(x, y)) else fills == []
  }

  /**
   * Lossless: drawn with the palette left behind by the encoder, or any longer one, the decoded picture paints every
   * visible pixel exactly once and with its own red, green and blue, and never paints any other pixel.
   */
  lemma Lossless(img: I.PngImage, p: Palette, palette: seq<string>, x: int, y: int)
    requires Usable(p) && Fits(img, p)
    requires I.PaletteAfter(img, p).keys <= palette
    ensures DrawnRight(img, p, palette, x, y)
  {
    DrawnIndex(img, p, palette, x, y);
    if img.Visible(x, y) {
      VisibleIndexIsPlace(img, p, x, y);
      var c := img.rgbaAt(x, y);
      RgbToHexIff(c.Hex(), c.r, c.g, c.b);
    }
    hide RgbToHex, I.PaletteAfter, I.Encoded, S.DecodeImage, S.PartRects, S.Halts, P.Hits, Names;
  }

  lemma DrawnIndex(img: I.PngImage, p: Palette, palette: seq<string>, x: int, y: int)
    requires Fits(img, p)
    ensures var d := S.DecodeImage(I.Encoded(img, p));
      && S.Halts(d)
      && P.Hits(S.PartRects(d, palette), x, y)
         == P.Paint(Val(if img.Visible(x, y) then I.IndexIn(img.rgbaAt(x, y), I.PaletteAfter(img, p)) else 0), palette)
  {
    var d := S.DecodeImage(I.Encoded(img, p));
    DecodedIndex(img, p, x, y);
    hide I.Encoded, S.DecodeImage, I.PaletteAfter, Fits, S.Halts, P.Hits, P.IndexAt, P.Paint, S.PartRects;
    P.PartHits(d, palette, x, y);
  }

  // ----- exactly which palettes are lossless -----

  function OnePixel(c: I.Rgba): I.PngImage {
    I.PngImage(1, 1, (x, y) => c)
  }

  lemma {:induction false} InsertAllSame(p: Palette, colors: seq<string>, c: string)
    requires forall i :: 0 <= i < |colors| ==> colors[i] == c
    ensures InsertAll(p, colors) == if colors == [] then p else Insert(p, c)
    decreases |colors|
  {
    if colors != [] {
      InsertAllSame(p, colors[..|colors| - 1], c);
    }
  }

  lemma {:induction false} CropIsUniform(c: I.Rgba, b: I.ImageBounds, y: int)
    requires b.left <= b.right
    ensures forall i :: 0 <= i < |I.Crop(OnePixel(c), b, y)| ==> I.Crop(OnePixel(c), b, y)[i] == c
    decreases y - b.top
  {
    if y > b.top {
      CropIsUniform(c, b, y - 1);
    }
  }

  lemma OnePixelCrop(c: I.Rgba)
    requires c.a != 0
    ensures I.VisiblePixels(OnePixel(c)) != []
    ensures forall i :: 0 <= i < |I.VisiblePixels(OnePixel(c))| ==> I.VisiblePixels(OnePixel(c))[i] == c
  {
    var img := OnePixel(c);
    var b := I.BoundsOf(img);
    I.BoundsAreOrdered(img);
    I.BoundsAreVisibleBox(img);
    assert img.Visible(0, 0);
    hide I.BoundsOf, RgbToHex, I.Crop;
    I.CropAt(img, b, b.bottom + 1, 0, 0);
    CropIsUniform(c, b, b.bottom + 1);
  }

  lemma OnePixelPalette(c: I.Rgba, p: Palette)
    requires c.a != 0
    ensures I.PaletteAfter(OnePixel(c), p) == Insert(p, c.Hex())
    ensures forall i :: 0 <= i < |I.Indexes(OnePixel(c), p)| ==>
              I.Indexes(OnePixel(c), p)[i] == I.IndexIn(c, Insert(p, c.Hex()))
  {
    OnePixelCrop(c);
    hide OnePixel, I.VisiblePixels, I.IndexIn, RgbToHex, Insert, InsertAll;
    InsertAllSame(p, I.Colors(I.VisiblePixels(OnePixel(c))), c.Hex());
  }

  /** A picture of one pixel is drawn right only if its colour's index is its place. */
  lemma OnePixelDrawn(c: I.Rgba, p: Palette)
    requires c.a != 0 && Insert(p, c.Hex()).values[c.Hex()] <= 255
    ensures var img, q := OnePixel(c), Insert(p, c.Hex());
      && Fits(img, p)
      && (DrawnRight(img, p, I.PaletteAfter(img, p).keys, 0, 0) ==>
            var i := q.values[c.Hex()]; 0 < i < |q.keys| && q.keys[i] == c.Hex())
  {
    var img, q := OnePixel(c), Insert(p, c.Hex());
    assert img.Visible(0, 0);
    I.BoundsAreOrdered(img);
    OnePixelPalette(c, p);
    assert c.Hex() in q.values;
    hide RgbToHex, I.PaletteAfter, I.Indexes, S.DecodeImage, I.Encoded, I.BoundsOf, Insert, Names;
    DrawnIndex(img, p, q.keys, 0, 0);
    if DrawnRight(img, p, q.keys, 0, 0) {
      RgbToHexIff(q.keys[q.values[c.Hex()]], c.r, c.g, c.b);
    }
  }

  /**
   * Exactly the usable palettes are lossless: with any other, some picture that fits is not drawn as it is. Every
   * JavaScript map is well formed.
   */
  lemma LosslessIff(p: Palette)
    requires p.WellFormed()
    ensures (forall img: I.PngImage, x: int, y: int ::
               Fits(img, p) ==> DrawnRight(img, p, I.PaletteAfter(img, p).keys, x, y))
       <==> Usable(p)
  {
    if Usable(p) {
      forall img: I.PngImage, x: int, y: int | Fits(img, p)
        ensures DrawnRight(img, p, I.PaletteAfter(img, p).keys, x, y)
      {
        Lossless(img, p, I.PaletteAfter(img, p).keys, x, y);
      }
    }
    if forall img: I.PngImage, x: int, y: int :: Fits(img, p) ==> DrawnRight(img, p, I.PaletteAfter(img, p).keys, x, y) {
      hide DrawnRight, Fits, I.PaletteAfter, RgbToHex;
      forall text | IsColorText(text) ensures UsableColor(p, text) {
        var r, g, b := ColorTextNames(text);
        var c := I.Rgba(r, g, b, 255);
        RgbToHexIff(text, r, g, b);
        if text in p.values && p.values[text] <= 255 {
          OnePixelDrawn(c, p);
        }
      }
      if p.keys == [] {
        OnePixelDrawn(I.Rgba(0, 0, 0, 255), p);
      }
    }
  }

  // ----- several parts on top of each other -----

  /** A picture together with the palette it was encoded with. */
  datatype Part = Part(img: I.PngImage, palette: Palette) {
    ghost predicate DrawableWith(final: seq<string>) {
      Usable(palette) && Fits(img, palette) && I.PaletteAfter(img, palette).keys <= final
    }

    function Text(): string {
      I.Encoded(img, palette)
    }
  }

  function Texts(parts: seq<Part>): seq<string> {
    seq(|parts|, i requires 0 <= i < |parts| => parts[i].Text())
  }

  /** The place of the last picture visible at the pixel; -1 if there is none. */
  function TopVisible(parts: seq<Part>, x: int, y: int): (top: int)
    ensures -1 <= top < |parts|
    ensures top >= 0 ==> parts[top].img.Visible(x, y)
    ensures forall i :: top < i < |parts| ==> !parts[i].img.Visible(x, y)
    decreases |parts|
  {
    var last := |parts| - 1;
    if last < 0 || parts[last].img.Visible(x, y) then last else TopVisible(parts[..last], x, y)
  }

  /** The decoded part is transparent exactly where its picture is, and names the picture's colour elsewhere. */
  ghost predicate Shows(d: S.DecodedImage, img: I.PngImage, palette: seq<string>, x: int, y: int) {
    && S.Halts(d)
    && (P.IndexAt(d, x, y) != Val(0) <==> img.Visible(x, y))
    && (img.Visible(x, y) ==> HasColor(S.Fill(palette, P.IndexAt(d, x, y)), img.rgbaAt(x, y)))
  }

  lemma PartShows(part: Part, palette: seq<string>, x: int, y: int)
    requires part.DrawableWith(palette)
    ensures Shows(S.DecodeImage(part.Text()), part.img, palette, x, y)
  {
    hide RgbToHex, I.PaletteAfter, I.Encoded, S.DecodeImage, S.Halts, P.IndexAt, Names, Fits, Usable, I.IndexIn;
    var img, p := part.img, part.palette;
    DecodedIndex(img, p, x, y);
    if img.Visible(x, y) {
      VisibleIndexIsPlace(img, p, x, y);
      var c := img.rgbaAt(x, y);
      RgbToHexIff(c.Hex(), c.r, c.g, c.b);
    }
  }

  /** What is shown is the colour of the last part visible at the pixel, else the background. */
  predicate ShowsTop(parts: seq<Part>, x: int, y: int, background: Option<string>, shown: Option<string>) {
    var top := TopVisible(parts, x, y);
    if top < 0 then shown == background else HasColor(shown, parts[top].img.rgbaAt(x, y))
  }

  lemma ComposedImages(images: seq<S.DecodedImage>, parts: seq<Part>, palette: seq<string>, x: int, y: int,
                       background: Option<string>)
    requires |images| == |parts|
    requires forall i :: 0 <= i < |parts| ==> Shows(images[i], parts[i].img, palette, x, y)
    ensures S.AllHalt(images)
    ensures ShowsTop(parts, x, y, background, P.Shown(S.AllRects(images, palette), x, y, background))
  {
    assert S.AllHalt(images);
    hide P.IndexAt, P.Shown, S.AllRects, S.Fill, S.Halts, HasColor;
    P.ShownIsTopPart(images, palette, x, y, background);
  }

  /**
   * Drawing encoded pictures over a background shows, at every pixel, the colour of the last picture visible there,
   * else the background.
   */
  lemma ComposedPicture(parts: seq<Part>, palette: seq<string>, x: int, y: int, background: Option<string>)
    requires forall i :: 0 <= i < |parts| ==> parts[i].DrawableWith(palette)
    ensures S.AllHalt(S.DecodeAll(Texts(parts)))
    ensures ShowsTop(parts, x, y, background, P.Shown(S.AllRects(S.DecodeAll(Texts(parts)), palette), x, y, background))
  {
    var images := S.DecodeAll(Texts(parts));
    forall i | 0 <= i < |parts| ensures Shows(images[i], parts[i].img, palette, x, y) {
      PartShows(parts[i], palette, x, y);
      assert images[i] == S.DecodeImage(parts[i].Text());
    }
    ComposedImages(images, parts, palette, x, y, background);
  }

  // ----- canonical encodings -----

  /** The palette already holds the colour of every visible pixel. */
  ghost predicate Holds(p: Palette, img: I.PngImage) {
    forall x, y :: img.Visible(x, y) ==> img.rgbaAt(x, y).Hex() in p.values
  }

  /** Same visible pixels with the same colours; alpha counts only as "zero or not". */
  ghost predicate SamePicture(img: I.PngImage, other: I.PngImage) {
    && (forall x, y :: img.Visible(x, y) <==> other.Visible(x, y))
    && (forall x, y :: img.Visible(x, y) ==>
          var c, d := img.rgbaAt(x, y), other.rgbaAt(x, y); c.r == d.r && c.g == d.g && c.b == d.b)
  }

  /** Within the rows above `y` and the columns of the box, both palettes give both pictures the same indexes. */
  ghost predicate SameWithin(img: I.PngImage, q: Palette, other: I.PngImage, r: Palette, b: I.ImageBounds, bottom: int) {
    forall x, y {:trigger img.rgbaAt(x, y)} :: b.left <= x < b.right && b.top <= y < bottom ==>
      I.IndexIn(img.rgbaAt(x, y), q) == I.IndexIn(other.rgbaAt(x, y), r)
  }

  lemma {:induction false} SameIndexes(img: I.PngImage, q: Palette, other: I.PngImage, r: Palette, b: I.ImageBounds, y: int)
    requires b.left <= b.right && SameWithin(img, q, other, r, b, y)
    ensures I.IndexesIn(I.Crop(img, b, y), q) == I.IndexesIn(I.Crop(other, b, y), r)
    decreases y - b.top
  {
    if y > b.top {
      SameIndexes(img, q, other, r, b, y - 1);
      var row, row' := I.RowPixels(img, y - 1, b.left, b.right), I.RowPixels(other, y - 1, b.left, b.right);
      assert I.IndexesIn(row, q) == I.IndexesIn(row', r);
      IndexesConcat(I.Crop(img, b, y - 1), row, q);
      IndexesConcat(I.Crop(other, b, y - 1), row', r);
    }
  }

  /** With a palette that holds all colours, an index does not depend on what else is inserted. */
  lemma KnownIndex(img: I.PngImage, p: Palette, x: int, y: int)
    requires Holds(p, img) && 0 <= x < img.width && 0 <= y < img.height
    ensures I.IndexIn(img.rgbaAt(x, y), I.PaletteAfter(img, p)) == I.IndexIn(img.rgbaAt(x, y), p)
  {
    InsertAllGrows(p, I.Colors(I.VisiblePixels(img)));
    assert img.Visible(x, y) <==> img.rgbaAt(x, y).a != 0;
  }

  lemma SamePictureSameText(img: I.PngImage, other: I.PngImage, p: Palette)
    requires Holds(p, img) && Holds(p, other) && SamePicture(img, other)
    requires I.Blank(img) ==> (img.height == 0 <==> other.height == 0)
    ensures I.Encoded(img, p) == I.Encoded(other, p)
  {
    hide I.BoundsOf, I.Crop, I.IndexesIn, I.RleText, R.Runs, InsertAll;
    var b := I.BoundsOf(img);
    I.BoundsDependOnVisible(img, other);
    I.BoundsAreOrdered(img);
    I.BoundsAreOrdered(other);
    forall x, y | b.left <= x < b.right && b.top <= y < b.bottom + 1
      ensures I.IndexIn(img.rgbaAt(x, y), I.PaletteAfter(img, p)) == I.IndexIn(other.rgbaAt(x, y), I.PaletteAfter(other, p))
    {
      KnownIndex(img, p, x, y);
      KnownIndex(other, p, x, y);
      assert img.Visible(x, y) <==> other.Visible(x, y);
    }
    SameIndexes(img, I.PaletteAfter(img, p), other, I.PaletteAfter(other, p), b, b.bottom + 1);
  }

  lemma IndexesConcat(a: seq<I.Rgba>, b: seq<I.Rgba>, p: Palette)
    ensures I.IndexesIn(a + b, p) == I.IndexesIn(a, p) + I.IndexesIn(b, p)
  {
    hide I.IndexIn;
  }

  lemma SameColorAt(img: I.PngImage, other: I.PngImage, p: Palette, x: int, y: int)
    requires Usable(p) && Holds(p, img) && Holds(p, other) && Fits(img, p) && Fits(other, p)
    requires I.Encoded(img, p) == I.Encoded(other, p)
    ensures img.Visible(x, y) <==> other.Visible(x, y)
    ensures img.Visible(x, y) ==>
      var c, d := img.rgbaAt(x, y), other.rgbaAt(x, y); c.r == d.r && c.g == d.g && c.b == d.b
  {
    DecodedIndex(img, p, x, y);
    DecodedIndex(other, p, x, y);
    if img.Visible(x, y) { KnownPlace(img, p, x, y); }
    if other.Visible(x, y) { KnownPlace(other, p, x, y); }
    hide Usable, Holds, Fits, I.Encoded, S.DecodeImage, I.PaletteAfter, P.IndexAt, RgbToHex;
    if img.Visible(x, y) {
      var c, d := img.rgbaAt(x, y), other.rgbaAt(x, y);
      RgbToHexInjective(c.r, c.g, c.b, d.r, d.g, d.b);
    }
  }

  lemma KnownPlace(img: I.PngImage, p: Palette, x: int, y: int)
    requires Usable(p) && Holds(p, img) && Fits(img, p) && img.Visible(x, y)
    ensures var i := I.IndexIn(img.rgbaAt(x, y), I.PaletteAfter(img, p));
      0 < i < |p.keys| && p.keys[i] == img.rgbaAt(x, y).Hex()
  {
    var c := img.rgbaAt(x, y);
    KnownIndex(img, p, x, y);
    VisibleIndexFits(img, p, x, y);
    RgbToHexIff(c.Hex(), c.r, c.g, c.b);
    hide RgbToHex, I.PaletteAfter, Fits;
    assert UsableColor(p, c.Hex());
  }

  lemma SameTextSameBounds(img: I.PngImage, other: I.PngImage, p: Palette)
    requires Fits(img, p) && Fits(other, p) && I.Encoded(img, p) == I.Encoded(other, p)
    ensures I.BoundsOf(img) == I.BoundsOf(other)
  {
    hide I.Encoded, I.BoundsOf, I.Indexes, R.Runs, Fits, S.DecodeImage;
    DecodeInvertsEncode(img, p);
    DecodeInvertsEncode(other, p);
  }

  /**
   * Under a palette that already holds every colour, two pictures are encoded alike if and only if their visible
   * pixels and colours coincide (and, when nothing is visible, both or neither have rows).
   */
  lemma EncodingIsCanonical(img: I.PngImage, other: I.PngImage, p: Palette)
    requires Usable(p) && Holds(p, img) && Holds(p, other) && Fits(img, p) && Fits(other, p)
    ensures I.Encoded(img, p) == I.Encoded(other, p) <==>
        SamePicture(img, other) && (I.Blank(img) ==> (img.height == 0 <==> other.height == 0))
  {
    hide I.Encoded, I.BoundsOf, I.Indexes, Fits;
    if SamePicture(img, other) && (I.Blank(img) ==> (img.height == 0 <==> other.height == 0)) {
      SamePictureSameText(img, other, p);
    }
    if I.Encoded(img, p) == I.Encoded(other, p) {
      forall x, y ensures img.Visible(x, y) <==> other.Visible(x, y)
      {
        SameColorAt(img, other, p, x, y);
      }
      forall x, y | img.Visible(x, y)
        ensures var c, d := img.rgbaAt(x, y), other.rgbaAt(x, y); c.r == d.r && c.g == d.g && c.b == d.b
      {
        SameColorAt(img, other, p, x, y);
      }
      SameTextSameBounds(img, other, p);
      I.BoundsAreOrdered(img);
      I.BoundsAreOrdered(other);
    }
  }
}
