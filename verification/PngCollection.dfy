/** `PNGCollectionEncoder`: many pictures, one palette, and the grouping of the results into folders. */
module PngCollections {
  import opened Options
  import opened JsMaps
  import opened Palettes
  import opened Images
  import opened PngFolders
  import C = Codec

  datatype ImageData = ImageData(palette: seq<string>, images: seq<Folder>)

  /** One call of `encodeImage`. A missing or empty folder name means no folder. */
  datatype Call = Call(name: string, png: PngImage, folder: Option<string>)

  /** The names under which every plain object already has something that is no list. */
  const INHERITED := {
    "constructor", "hasOwnProperty", "isPrototypeOf", "propertyIsEnumerable", "toLocaleString", "toString", "valueOf",
    "__proto__", "__defineGetter__", "__defineSetter__", "__lookupGetter__", "__lookupSetter__"}

  predicate NamesFolder(folder: Option<string>) {
    folder.Some? && folder.value != ""
  }

  /** Adding to a folder of such a name throws, when palette and images are already updated. */
  predicate Throws(folder: Option<string>) {
    NamesFolder(folder) && folder.value in INHERITED
  }

  // ----- the state after a history of calls -----

  /** The colour map after the constructor: "transparent", then each seed colour with its place as index. */
  function Seeded(seed: seq<string>): Palette {
    if seed == [] then Empty<nat>().Set("", 0)
    else Seeded(seed[..|seed| - 1]).Set(seed[|seed| - 1], |seed| - 1)
  }

  function PaletteAfterCalls(p: Palette, history: seq<Call>): Palette {
    if history == [] then p
    else PaletteAfter(history[|history| - 1].png, PaletteAfterCalls(p, history[..|history| - 1]))
  }

  /** The palette in use when call i encodes. */
  function PaletteAt(p: Palette, history: seq<Call>, i: nat): Palette
    requires i <= |history|
  {
    PaletteAfterCalls(p, history[..i])
  }

  function TextOf(p: Palette, history: seq<Call>, i: nat): string
    requires i < |history|
  {
    Encoded(history[i].png, PaletteAt(p, history, i))
  }

  function ImagesAfter(p: Palette, history: seq<Call>): JsMap<string> {
    if history == [] then Empty()
    else
      var last := |history| - 1;
      ImagesAfter(p, history[..last]).Set(history[last].name, TextOf(p, history, last))
  }

  function AddToFolder(folders: JsMap<seq<string>>, folder: string, name: string): JsMap<seq<string>> {
    folders.Set(folder, (if folder in folders.values then folders.values[folder] else []) + [name])
  }

  function FoldersAfter(history: seq<Call>): JsMap<seq<string>> {
    if history == [] then Empty()
    else
      var call, before := history[|history| - 1], FoldersAfter(history[..|history| - 1]);
      if NamesFolder(call.folder) && !Throws(call.folder) then AddToFolder(before, call.folder.value, call.name)
      else before
  }

  lemma OneMoreCall(p: Palette, history: seq<Call>, call: Call)
    ensures var now, before := history + [call], PaletteAfterCalls(p, history);
      && TextOf(p, now, |history|) == Encoded(call.png, before)
      && PaletteAfterCalls(p, now) == PaletteAfter(call.png, before)
      && ImagesAfter(p, now) == ImagesAfter(p, history).Set(call.name, Encoded(call.png, before))
      && FoldersAfter(now) ==
           if NamesFolder(call.folder) && !Throws(call.folder)
           then AddToFolder(FoldersAfter(history), call.folder.value, call.name) else FoldersAfter(history)
  {
    hide PaletteAfter, Encoded, AddToFolder, Throws;
    assert (history + [call])[..|history|] == history;
  }

  // ----- the encoder -----

  class PngCollectionEncoder {
    const colors: ColorMap
    var images: JsMap<string>
    var folders: JsMap<seq<string>>
    ghost const seed: seq<string>
    ghost var history: seq<Call>

    /** The fields are what the calls so far have made of them. */
    ghost predicate Valid()
      reads this, colors
    {
      && colors.View() == PaletteAfterCalls(Seeded(seed), history)
      && images == ImagesAfter(Seeded(seed), history)
      && folders == FoldersAfter(history)
    }

    constructor (palette: seq<string>)
      ensures Valid() && fresh(colors)
      ensures history == [] && seed == palette
    {
      var map0 := new ColorMap();
      colors := map0;
      images, folders := Empty(), Empty();
      seed, history := palette, [];
      new;
      colors.Set("", 0);
      for i := 0 to |palette|
        modifies colors
        invariant colors.View() == Seeded(palette[..i])
      {
        assert palette[..i + 1][..i] == palette[..i];
        colors.Set(palette[i], i);
      }
      assert palette[..|palette|] == palette;
    }

    /** The result is None if the call throws. */
    method EncodeImage(name: string, png: PngImage, folder: Option<string>) returns (rle: Option<string>)
      requires Valid()
      modifies this, colors
      ensures Valid()
      ensures history == old(history) + [Call(name, png, folder)]
      ensures rle == if Throws(folder) then None else Some(TextOf(Seeded(seed), history, |history| - 1))
    {
      hide PaletteAfterCalls, ImagesAfter, FoldersAfter, TextOf, PaletteAfter, Encoded, Throws, AddToFolder;
      OneMoreCall(Seeded(seed), history, Call(name, png, folder));
      var image := new Image(png.width, png.height, png.rgbaAt);
      assert image.Picture() == png;
      var text := image.ToRLE(colors);
      images := images.Set(name, text);
      history := history + [Call(name, png, folder)];
      var thrown := PushName(folder, name);
      rle := if thrown then None else Some(text);
    }

    /** `(this._folders[folder] ||= []).push(name)`, if a folder is given. */
    method PushName(folder: Option<string>, name: string) returns (thrown: bool)
      modifies `folders
      ensures thrown == Throws(folder)
      ensures folders == if NamesFolder(folder) && !thrown then AddToFolder(old(folders), folder.value, name)
                         else old(folders)
    {
      thrown := Throws(folder);
      if NamesFolder(folder) && !thrown {
        folders := AddToFolder(folders, folder.value, name);
      }
    }

    /** `order` is the order in which JavaScript enumerates the folder names. */
    method Data(order: seq<string>) returns (data: ImageData)
      requires Valid() && Lists(order, folders)
      ensures data.palette == PaletteAfterCalls(Seeded(seed), history).keys
      ensures data.images == Formatted(ImagesAfter(Seeded(seed), history), FoldersAfter(history), order, false)
    {
      var formatted := Format(order, false);
      data := ImageData(colors.keys, formatted);
    }

    method Format(order: seq<string>, flatten: bool) returns (data: seq<Folder>)
      requires Lists(order, folders)
      ensures data == Formatted(images, folders, order, flatten)
    {
      var left := images;
      data := [];
      if !flatten && |folders.keys| > 0 {
        for k := 0 to |order|
          invariant (data, left) == FillFolders(order[..k], folders.values, images)
        {
          var files := folders.values[order[k]];
          var entries: seq<EncodedImage> := [];
          ghost var before := left;
          for j := 0 to |files|
            invariant (entries, left) == TakeFiles(files[..j], before)
          {
            assert files[..j + 1][..j] == files[..j];
            entries := entries + [EntryFor(files[j], left)];
            left := left.Delete(files[j]);
          }
          assert files[..|files|] == files;
          assert order[..k + 1][..k] == order[..k];
          data := data + [Folder(order[k], entries)];
        }
        assert order[..|order|] == order;
      }
      // What no folder lists
      if |left.keys| > 0 {
        data := PutRoot(data, AllEntries(left.keys, left.values));
      }
    }
  }

  // ----- palette history -----

  lemma PaletteExtends(img: PngImage, p: Palette)
    ensures p.ExtendedBy(PaletteAfter(img, p))
    ensures Ordered(p) ==> Ordered(PaletteAfter(img, p))
  {
    InsertAllGrows(p, Colors(VisiblePixels(img)));
  }

  lemma {:induction false} CallsKeepOrder(p: Palette, history: seq<Call>)
    requires Ordered(p)
    ensures Ordered(PaletteAfterCalls(p, history))
    decreases |history|
  {
    hide PaletteAfter;
    if history != [] {
      CallsKeepOrder(p, history[..|history| - 1]);
      PaletteExtends(history[|history| - 1].png, PaletteAfterCalls(p, history[..|history| - 1]));
    }
  }

  lemma {:induction false} CallsKeepUsable(p: Palette, history: seq<Call>)
    requires C.Usable(p)
    ensures C.Usable(PaletteAfterCalls(p, history))
    decreases |history|
  {
    hide PaletteAfter, C.Usable;
    if history != [] {
      CallsKeepUsable(p, history[..|history| - 1]);
      C.EncodingKeepsUsable(history[|history| - 1].png, PaletteAfterCalls(p, history[..|history| - 1]));
    }
  }

  lemma {:induction false} CallsExtend(p: Palette, history: seq<Call>, i: nat)
    requires i <= |history|
    ensures PaletteAt(p, history, i).ExtendedBy(PaletteAfterCalls(p, history))
    decreases |history|
  {
    hide PaletteAfter;
    if i == |history| {
      assert history[..i] == history;
    } else {
      var front, last := history[..|history| - 1], history[|history| - 1];
      assert front[..i] == history[..i];
      CallsExtend(p, front, i);
      PaletteExtends(last.png, PaletteAfterCalls(p, front));
      ExtendsTransitively(PaletteAt(p, history, i), PaletteAfterCalls(p, front), PaletteAfterCalls(p, history));
    }
  }

  /** However many pictures follow, the palette stays ordered and only grows at its end. */
  lemma PalettesGrow(p: Palette, history: seq<Call>, i: nat)
    requires Ordered(p) && i <= |history|
    ensures Ordered(PaletteAt(p, history, i)) && Ordered(PaletteAfterCalls(p, history))
    ensures PaletteAt(p, history, i).ExtendedBy(PaletteAfterCalls(p, history))
  {
    hide Ordered, PaletteAfterCalls;
    CallsKeepOrder(p, history);
    CallsKeepOrder(p, history[..i]);
    CallsExtend(p, history, i);
  }

  lemma ExtendsTransitively(p: Palette, q: Palette, r: Palette)
    requires p.ExtendedBy(q) && q.ExtendedBy(r)
    ensures p.ExtendedBy(r)
  {
  }

  function PartAt(p: Palette, history: seq<Call>, i: nat): C.Part
    requires i < |history|
  {
    C.Part(history[i].png, PaletteAt(p, history, i))
  }

  /**
   * An encoding made by any call can be drawn with the palette as it is after all calls, whatever came later, and a
   * visible pixel never has the index of "transparent".
   */
  lemma EarlierEncodingsStayValid(p: Palette, history: seq<Call>, i: nat)
    requires C.Usable(p) && i < |history| && C.Fits(history[i].png, PaletteAt(p, history, i))
    ensures PartAt(p, history, i).DrawableWith(PaletteAfterCalls(p, history).keys)
    ensures forall x, y :: history[i].png.Visible(x, y) ==>
              IndexIn(history[i].png.rgbaAt(x, y), PaletteAt(p, history, i + 1)) != 0
  {
    hide C.Usable, C.Fits, PaletteAfterCalls;
    CallsKeepUsable(p, history[..i]);
    CallsExtend(p, history, i + 1);
    NextPalette(p, history, i);
    forall x, y | history[i].png.Visible(x, y)
      ensures IndexIn(history[i].png.rgbaAt(x, y), PaletteAt(p, history, i + 1)) != 0
    {
      C.VisibleIndexIsPlace(history[i].png, PaletteAt(p, history, i), x, y);
    }
  }

  lemma NextPalette(p: Palette, history: seq<Call>, i: nat)
    requires i < |history|
    ensures PaletteAt(p, history, i + 1) == PaletteAfter(history[i].png, PaletteAt(p, history, i))
  {
    assert history[..i + 1][..i] == history[..i];
  }

  /**
   * After any sequence of `encodeImage` calls, drawing any selection of the results with the final palette shows, at
   * every pixel, the colour of the last selected picture visible there, else the background.
   */
  lemma CollectionDrawsFaithfully(p: Palette, history: seq<Call>, chosen: seq<nat>, x: int, y: int, background: Option<string>)
    requires C.Usable(p)
    requires forall i :: 0 <= i < |chosen| ==>
               chosen[i] < |history| && C.Fits(history[chosen[i]].png, PaletteAt(p, history, chosen[i]))
    ensures var images := C.S.DecodeAll(ChosenTexts(p, history, chosen));
      && C.S.AllHalt(images)
      && C.ShowsTop(ChosenParts(p, history, chosen), x, y, background,
                    C.P.Shown(C.S.AllRects(images, PaletteAfterCalls(p, history).keys), x, y, background))
  {
    ChosenPartsAreDrawable(p, history, chosen);
    ChosenPartsHaveTexts(p, history, chosen);
    var parts, final := ChosenParts(p, history, chosen), PaletteAfterCalls(p, history).keys;
    hide PaletteAfterCalls, ChosenParts, ChosenTexts;
    C.ComposedPicture(parts, final, x, y, background);
  }

  /** The results of the chosen calls, in the order drawn. */
  function ChosenTexts(p: Palette, history: seq<Call>, chosen: seq<nat>): seq<string>
    requires forall i :: 0 <= i < |chosen| ==> chosen[i] < |history|
  {
    seq(|chosen|, i requires 0 <= i < |chosen| => TextOf(p, history, chosen[i]))
  }

  function ChosenParts(p: Palette, history: seq<Call>, chosen: seq<nat>): seq<C.Part>
    requires forall i :: 0 <= i < |chosen| ==> chosen[i] < |history|
  {
    seq(|chosen|, i requires 0 <= i < |chosen| => PartAt(p, history, chosen[i]))
  }

  lemma ChosenPartsHaveTexts(p: Palette, history: seq<Call>, chosen: seq<nat>)
    requires forall i :: 0 <= i < |chosen| ==> chosen[i] < |history|
    ensures C.Texts(ChosenParts(p, history, chosen)) == ChosenTexts(p, history, chosen)
  {
    hide PaletteAt, Encoded;
  }

  lemma ChosenPartsAreDrawable(p: Palette, history: seq<Call>, chosen: seq<nat>)
    requires C.Usable(p)
    requires forall i :: 0 <= i < |chosen| ==>
               chosen[i] < |history| && C.Fits(history[chosen[i]].png, PaletteAt(p, history, chosen[i]))
    ensures var parts := ChosenParts(p, history, chosen);
      forall i :: 0 <= i < |parts| ==> parts[i].DrawableWith(PaletteAfterCalls(p, history).keys)
  {
    var parts, final := ChosenParts(p, history, chosen), PaletteAfterCalls(p, history).keys;
    hide PaletteAfterCalls, PaletteAt, C.Usable, C.Fits;
    forall i | 0 <= i < |parts| ensures parts[i].DrawableWith(final) {
      assert parts[i] == PartAt(p, history, chosen[i]);
      EarlierEncodingsStayValid(p, history, chosen[i]);
    }
  }

  // ----- the stored texts -----

  /** After any calls, each name is stored with the text of the last call that used it. */
  lemma {:induction false} LatestTextIsStored(p: Palette, history: seq<Call>, i: nat)
    requires i < |history| && forall j :: i < j < |history| ==> history[j].name != history[i].name
    ensures ImagesAfter(p, history).WellFormed()
    ensures history[i].name in ImagesAfter(p, history).values
    ensures ImagesAfter(p, history).values[history[i].name] == TextOf(p, history, i)
    decreases |history|
  {
    hide TextOf;
    var last := |history| - 1;
    var front := history[..last];
    ImagesAreMap(p, history);
    if i < last {
      LatestTextIsStored(p, front, i);
      TextOfPrefix(p, history, last, i);
    }
  }

  lemma TextOfPrefix(p: Palette, history: seq<Call>, n: nat, i: nat)
    requires i < n <= |history|
    ensures TextOf(p, history[..n], i) == TextOf(p, history, i)
  {
    assert history[..n][..i] == history[..i];
  }

  lemma {:induction false} ImagesAreMap(p: Palette, history: seq<Call>)
    ensures ImagesAfter(p, history).WellFormed()
    decreases |history|
  {
    hide TextOf;
    if history != [] {
      var last := |history| - 1;
      ImagesAreMap(p, history[..last]);
      SetKeepsWellFormed(ImagesAfter(p, history[..last]), history[last].name, TextOf(p, history, last));
    }
  }

  // ----- names, folders and their order -----

  function CallNames(history: seq<Call>): seq<string> {
    seq(|history|, i requires 0 <= i < |history| => history[i].name)
  }

  /** The images are stored under the names of the calls, in the order in which these first occur. */
  lemma {:induction false} ImagesInOrder(p: Palette, history: seq<Call>)
    ensures InOrderOf(ImagesAfter(p, history).keys, CallNames(history))
    decreases |history|
  {
    hide TextOf, InOrderOf;
    if history == [] {
      KeysInOwnOrder([]);
      assert CallNames(history) == [];
    } else {
      var front, last := history[..|history| - 1], history[|history| - 1];
      ImagesInOrder(p, front);
      ImagesAreMap(p, front);
      assert CallNames(history) == CallNames(front) + [last.name];
      assert ImagesAfter(p, history) == ImagesAfter(p, front).Set(last.name, TextOf(p, history, |front|));
      hide ImagesAfter, CallNames;
      SetInOrder(ImagesAfter(p, front), CallNames(front), last.name, TextOf(p, history, |front|));
    }
  }

  lemma SetInOrder(m: JsMap<string>, names: seq<string>, name: string, text: string)
    requires m.WellFormed() && InOrderOf(m.keys, names)
    ensures InOrderOf(m.Set(name, text).keys, names + [name])
  {
    hide InOrderOf;
    SetKeepsOrder(m.keys, names, name);
  }

  /** The call names the folder, and does not throw. */
  predicate AddsTo(call: Call, folder: string) {
    call.folder == Some(folder) && folder != "" && folder !in INHERITED
  }

  /** The names of the calls that add to the folder, in the order of the calls. */
  function NamesIn(history: seq<Call>, folder: string): seq<string> {
    if history == [] then []
    else
      var last := history[|history| - 1];
      NamesIn(history[..|history| - 1], folder) + if AddsTo(last, folder) then [last.name] else []
  }

  /** The folders of the calls that add to one, in the order of the calls. */
  function FolderNames(history: seq<Call>): seq<string> {
    if history == [] then []
    else
      var last := history[|history| - 1];
      FolderNames(history[..|history| - 1])
      + if last.folder.Some? && AddsTo(last, last.folder.value) then [last.folder.value] else []
  }

  lemma {:induction false} FolderIsNamedIff(history: seq<Call>, folder: string)
    ensures folder in FolderNames(history) <==> exists i :: 0 <= i < |history| && AddsTo(history[i], folder)
    decreases |history|
  {
    if history != [] {
      var front, last := history[..|history| - 1], history[|history| - 1];
      FolderIsNamedIff(front, folder);
      assert history == front + [last];
      hide AddsTo;
      if i :| 0 <= i < |history| && AddsTo(history[i], folder) {
        assert i < |front| ==> AddsTo(front[i], folder);
      }
      AddsToIsNamed(last, folder);
    }
  }

  lemma AddsToIsNamed(call: Call, folder: string)
    ensures AddsTo(call, folder) ==> call.folder == Some(folder)
  {
  }

  /** The map has the folders in the order in which they were first added to, each with the names added. */
  ghost predicate FoldersRight(folders: JsMap<seq<string>>, history: seq<Call>) {
    && folders.WellFormed() && InOrderOf(folders.keys, FolderNames(history))
    && forall f :: f in folders.values ==> folders.values[f] == NamesIn(history, f)
  }

  lemma {:induction false} NamesOfUnnamed(history: seq<Call>, folder: string)
    requires folder !in FolderNames(history)
    ensures NamesIn(history, folder) == []
    decreases |history|
  {
    if history != [] {
      NamesOfUnnamed(history[..|history| - 1], folder);
      AddsToIsNamed(history[|history| - 1], folder);
      hide AddsTo;
    }
  }

  lemma AddsToIff(call: Call, folder: string)
    ensures AddsTo(call, folder) <==> NamesFolder(call.folder) && !Throws(call.folder) && call.folder.value == folder
  {
  }

  lemma OneMoreName(folders: JsMap<seq<string>>, history: seq<Call>, call: Call)
    requires FoldersRight(folders, history)
    ensures FoldersRight(
      if NamesFolder(call.folder) && !Throws(call.folder) then AddToFolder(folders, call.folder.value, call.name) else folders,
      history + [call])
  {
    var all := history + [call];
    assert all[..|history|] == history && all[|history|] == call;
    forall f ensures AddsTo(call, f) <==> NamesFolder(call.folder) && !Throws(call.folder) && call.folder.value == f {
      AddsToIff(call, f);
    }
    assert forall f :: NamesIn(all, f) == NamesIn(history, f) + if AddsTo(call, f) then [call.name] else [];
    assert FolderNames(all) == FolderNames(history)
      + if call.folder.Some? && AddsTo(call, call.folder.value) then [call.folder.value] else [];
    hide AddsTo, Throws, NamesFolder, NamesIn, FolderNames, InOrderOf;
    if call.folder.Some? && AddsTo(call, call.folder.value) {
      AddedRight(folders, history, all, call.folder.value, call.name);
    } else {
      assert FolderNames(all) == FolderNames(history);
    }
  }

  lemma AddedRight(folders: JsMap<seq<string>>, history: seq<Call>, all: seq<Call>, folder: string, name: string)
    requires FoldersRight(folders, history)
    requires FolderNames(all) == FolderNames(history) + [folder]
    requires forall f :: NamesIn(all, f) == NamesIn(history, f) + if f == folder then [name] else []
    ensures FoldersRight(AddToFolder(folders, folder, name), all)
  {
    hide InOrderOf, FolderNames, NamesIn;
    var list := (if folder in folders.values then folders.values[folder] else []) + [name];
    if folder !in folders.values {
      assert folder !in folders.keys;
      OrderHasMembers(folders.keys, FolderNames(history), folder);
      NamesOfUnnamed(history, folder);
    }
    SetKeepsOrder(folders.keys, FolderNames(history), folder);
    SetKeepsWellFormed(folders, folder, list);
    assert list == NamesIn(all, folder);
  }

  lemma OrderHasMembers(keys: seq<string>, names: seq<string>, k: string)
    requires InOrderOf(keys, names)
    ensures k in keys <==> k in names
  {
  }

  /** The folders after any history of calls: which there are, what they list and in which order they come. */
  lemma {:induction false} FoldersAreRight(history: seq<Call>)
    ensures FoldersRight(FoldersAfter(history), history)
    decreases |history|
  {
    hide FoldersRight, Throws, NamesFolder, AddToFolder;
    if history == [] {
      NoFolders();
    } else {
      var front, last := history[..|history| - 1], history[|history| - 1];
      FoldersAreRight(front);
      OneMoreName(FoldersAfter(front), front, last);
      assert history == front + [last];
    }
  }

  lemma NoFolders()
    ensures FoldersRight(Empty(), [])
  {
    KeysInOwnOrder([]);
  }

  /**
   * A folder exists if and only if a call added to it; it then lists the names of these calls in their order, and it
   * comes before another one if it was added to earlier.
   */
  lemma FoldersOfHistory(history: seq<Call>, folder: string)
    ensures var folders := FoldersAfter(history);
      && (folder in folders.values <==> exists i :: 0 <= i < |history| && AddsTo(history[i], folder))
      && (folder in folders.values ==> folders.values[folder] == NamesIn(history, folder))
      && InOrderOf(folders.keys, FolderNames(history))
  {
    FoldersAreRight(history);
    FolderIsNamedIff(history, folder);
    hide AddsTo, NamesIn, FolderNames;
  }

  /**
   * The data of a collection, after any history: the folders, each with the files of the calls that added to it in
   * their order, unless the images in no folder take the place of a folder called `root`.
   */
  lemma DataOfHistory(p: Palette, history: seq<Call>, order: seq<string>, k: nat)
    requires Lists(order, FoldersAfter(history)) && k < |order|
    ensures var images, files := ImagesAfter(p, history), FoldersAfter(history).values;
      var data := Formatted(images, FoldersAfter(history), order, false);
      && k < |data| && data[k].name == order[k]
      && FileNames(data[k].entries)
         == if order[k] == "root" && RootAssigned(images, order, files) then Unlisted(images.keys, order, files)
            else NamesIn(history, order[k])
  {
    ImagesAreMap(p, history);
    FoldersAreRight(history);
    hide ImagesAfter, FoldersAfter, NamesIn, Formatted, Unlisted;
    FormattedContents(ImagesAfter(p, history), FoldersAfter(history), order);
  }

  /** Every image that a folder lists is stored. */
  ghost predicate ListStored(folders: JsMap<seq<string>>, images: JsMap<string>) {
    forall f :: f in folders.values ==> AllStored(folders.values[f], images)
  }

  lemma {:induction false} ListedAreStored(p: Palette, history: seq<Call>)
    ensures ListStored(FoldersAfter(history), ImagesAfter(p, history))
    decreases |history|
  {
    hide TextOf, ListStored, AddToFolder, Throws;
    if history == [] {
      NothingListed();
    } else {
      var front, last := history[..|history| - 1], history[|history| - 1];
      ListedAreStored(p, front);
      StoredStep(FoldersAfter(front), last.folder, ImagesAfter(p, front), last.name, TextOf(p, history, |history| - 1));
    }
  }

  lemma NothingListed()
    ensures ListStored(Empty(), Empty())
  {
  }

  lemma StoredStep(folders: JsMap<seq<string>>, folder: Option<string>, images: JsMap<string>, name: string, text: string)
    requires ListStored(folders, images)
    ensures ListStored(folders, images.Set(name, text))
    ensures folder.Some? ==> ListStored(AddToFolder(folders, folder.value, name), images.Set(name, text))
  {
  }

  /** In the data of any history of calls: where no folder is overwritten, all entries carry data iff none is twice. */
  lemma CollectionDataIff(p: Palette, history: seq<Call>, order: seq<string>)
    requires Lists(order, FoldersAfter(history))
    ensures var images, folders := ImagesAfter(p, history), FoldersAfter(history);
      && (AllFoldersData(Formatted(images, folders, order, false))
          <==> forall k :: 0 <= k < |order| ==>
                 Overwritten(images, order, folders.values, k) || ListsAfresh(order, folders.values, k))
      && (!("root" in order && RootAssigned(images, order, folders.values)) ==>
            (AllFoldersData(Formatted(images, folders, order, false)) <==> NoneTwice(AllListed(order, folders.values))))
  {
    var images, folders := ImagesAfter(p, history), FoldersAfter(history);
    ImagesAreMap(p, history);
    ListedAreStored(p, history);
    hide ImagesAfter, FoldersAfter, AllStored;
    assert ListStored(folders, images);
    assert FoldersStored(order, folders.values, images);
    FormatDataIff(images, folders, order);
    hide Formatted, AllFoldersData, Overwritten, ListsAfresh, FoldersStored;
    if !("root" in order && RootAssigned(images, order, folders.values)) {
      ListedOnceIff(images, folders, order);
    }
  }

  // ----- seed palettes -----

  /**
   * A seed palette to start from: empty, or without repetition and starting with "transparent". A first colour that
   * is given twice in a row also works, since its second mention moves it to index 1.
   */
  ghost predicate GoodSeed(seed: seq<string>) {
    seed == []
    || (NoRepetition([""] + seed[1..]) && (seed[0] == "" || (|seed| >= 2 && seed[0] == seed[1])))
  }

  ghost predicate NoRepetition(s: seq<string>) {
    forall i, j :: 0 <= i < j < |s| ==> s[i] != s[j]
  }

  lemma {:induction false} SeededIsMap(seed: seq<string>)
    ensures 1 <= |Seeded(seed).keys| <= |seed| + 1 && Seeded(seed).keys[0] == ""
    ensures forall i :: 0 <= i < |Seeded(seed).keys| ==> Seeded(seed).keys[i] in Seeded(seed).values
    decreases |seed|
  {
    if seed != [] {
      SeededIsMap(seed[..|seed| - 1]);
    }
  }

  /** If nothing was merged, every seed colour comes one place after its index. */
  lemma {:induction false} SeededUnmerged(seed: seq<string>)
    requires |Seeded(seed).keys| == |seed| + 1
    ensures Seeded(seed).keys == [""] + seed
    ensures forall j :: 0 <= j < |seed| ==> seed[j] in Seeded(seed).values && Seeded(seed).values[seed[j]] == j
    decreases |seed|
  {
    if seed != [] {
      var front, last := seed[..|seed| - 1], seed[|seed| - 1];
      SeededIsMap(front);
      assert last !in Seeded(front).values;
      SeededUnmerged(front);
      assert [""] + seed == ([""] + front) + [last];
    }
  }

  lemma SeededStep(seed: seq<string>)
    requires seed != []
    ensures Seeded(seed) == Seeded(seed[..|seed| - 1]).Set(seed[|seed| - 1], |seed| - 1)
  {
  }

  /** The seeds `[""]` and `[c, c]`. */
  ghost predicate IsShortSeed(seed: seq<string>) {
    seed == [""] || (|seed| == 2 && seed[0] == seed[1] && seed[1] != "")
  }

  lemma ShortSeedIsGood(seed: seq<string>)
    ensures IsShortSeed(seed) <==> GoodSeed(seed) && (|seed| == 1 || (|seed| == 2 && seed[0] != ""))
  {
    if |seed| == 1 {
      assert [""] + seed[1..] == [""];
    } else if |seed| == 2 {
      assert [""] + seed[1..] == ["", seed[1]];
    }
  }

  lemma ShortSeedIsOrdered(seed: seq<string>)
    requires IsShortSeed(seed)
    ensures Ordered(Seeded(seed)) && Seeded(seed).keys == [""] + seed[1..]
  {
    hide Seeded, Ordered;
    if |seed| == 1 {
      SeededOnce(seed);
      TransparentIsOrdered();
    } else {
      SeededOnce(seed[..1]);
      SeededStep(seed);
      PairIsOrdered(seed[1]);
      assert Seeded(seed) == JsMap(["", seed[1]], map["" := 0, seed[1] := 1]);
    }
  }

  lemma SeededOnce(seed: seq<string>)
    requires |seed| == 1
    ensures Seeded(seed) == if seed[0] == "" then JsMap([""], map["" := 0])
                            else JsMap(["", seed[0]], map["" := 0, seed[0] := 0])
  {
    assert seed[..0] == [];
    assert Seeded([]) == JsMap([""], map["" := 0]);
  }

  lemma TransparentIsOrdered()
    ensures Ordered(JsMap([""], map["" := 0]))
    ensures Seeded([]) == JsMap([""], map["" := 0])
  {
  }

  lemma PairIsOrdered(c: string)
    requires c != ""
    ensures Ordered(JsMap(["", c], map["" := 0, c := 1]))
  {
  }

  lemma FreshColorKeepsOrder(p: Palette, color: string)
    requires Ordered(p) && color !in p.keys
    ensures Ordered(p.Set(color, |p.keys|)) && p.Set(color, |p.keys|).keys == p.keys + [color]
  {
  }

  /** A longer good seed is a good one with a new last colour. */
  lemma GoodSeedShrinks(seed: seq<string>, front: seq<string>, last: string)
    requires GoodSeed(seed) && |seed| >= 2 && !IsShortSeed(seed)
    requires front == seed[..|seed| - 1] && last == seed[|seed| - 1]
    ensures front != [] && GoodSeed(front) && last !in [""] + front[1..]
    ensures [""] + seed[1..] == ([""] + front[1..]) + [last]
  {
    var all, n := [""] + seed[1..], |seed| - 1;
    assert all[..n] == [""] + front[1..] && all[n] == last;
  }

  lemma SeedGrows(seed: seq<string>, front: seq<string>, last: string)
    requires seed != [] && front == seed[..|seed| - 1] && last == seed[|seed| - 1] && front != []
    requires Ordered(Seeded(front)) && Seeded(front).keys == [""] + front[1..] && last !in [""] + front[1..]
    requires [""] + seed[1..] == ([""] + front[1..]) + [last]
    ensures Ordered(Seeded(seed)) && Seeded(seed).keys == [""] + seed[1..]
  {
    hide Seeded, Ordered;
    SeededStep(seed);
    FreshColorKeepsOrder(Seeded(front), last);
  }

  lemma {:induction false} GoodSeedIsOrdered(seed: seq<string>)
    requires GoodSeed(seed)
    ensures Ordered(Seeded(seed))
    ensures Seeded(seed).keys == if seed == [] then [""] else [""] + seed[1..]
    decreases |seed|
  {
    hide IsShortSeed, Seeded, Ordered;
    ShortSeedIsGood(seed);
    if seed == [] {
      TransparentIsOrdered();
    } else if IsShortSeed(seed) {
      ShortSeedIsOrdered(seed);
    } else if |seed| >= 2 {
      hide GoodSeed;
      var front, last := seed[..|seed| - 1], seed[|seed| - 1];
      GoodSeedShrinks(seed, front, last);
      GoodSeedIsOrdered(front);
      SeedGrows(seed, front, last);
    }
  }

  lemma {:induction false} OrderedSeedIsGood(seed: seq<string>)
    requires Ordered(Seeded(seed))
    ensures GoodSeed(seed)
    decreases |seed|
  {
    if seed != [] {
      var front, last := seed[..|seed| - 1], seed[|seed| - 1];
      SeededIsMap(front);
      SeededStep(seed);
      if last in Seeded(front).values {
        LastWasKnown(seed);
        ShortSeedIsGood(seed);
      } else {
        LastIsAtEnd(Seeded(front), Seeded(seed), last, |front|);
        OrderedBefore(Seeded(front), Seeded(seed), last);
        OrderedSeedIsGood(front);
        FreshSeedIsGood(front, last);
        assert seed == front + [last];
      }
    }
  }

  lemma LastIsAtEnd(p: Palette, q: Palette, last: string, n: nat)
    requires q == p.Set(last, n) && Ordered(q) && last !in p.values && |p.keys| <= n + 1
    ensures |p.keys| == n
  {
    assert q.values[last] == n && q.keys[|p.keys|] == last;
  }

  lemma FreshSeedIsGood(front: seq<string>, last: string)
    requires GoodSeed(front) && |Seeded(front).keys| == |front| && last !in Seeded(front).values
    ensures GoodSeed(front + [last])
  {
    GoodSeedIsOrdered(front);
    hide Seeded, GoodSeed;
    var keys := Seeded(front).keys;
    assert last !in keys;
    GoodSeedGrows(front, last, keys);
  }

  lemma GoodSeedGrows(front: seq<string>, last: string, keys: seq<string>)
    requires front != [] && GoodSeed(front) && keys == [""] + front[1..] && last !in keys
    ensures GoodSeed(front + [last])
  {
    assert [""] + (front + [last])[1..] == keys + [last];
  }

  lemma OrderedBefore(p: Palette, q: Palette, color: string)
    requires q == p.Set(color, |p.keys|) && Ordered(q) && color !in p.values && |p.keys| >= 1
    ensures Ordered(p)
  {
    assert forall i :: 0 <= i < |p.keys| ==> q.keys[i] == p.keys[i];
    forall k | k in p.values ensures p.values[k] < |p.keys| && p.keys[p.values[k]] == k {
      assert q.values[k] == p.values[k] && q.keys[|p.keys|] == color;
    }
  }

  /** The case in which the last seed colour repeats an earlier one: only `[c, c]` or `[""]` is left. */
  lemma LastWasKnown(seed: seq<string>)
    requires seed != [] && Ordered(Seeded(seed))
    requires seed[|seed| - 1] in Seeded(seed[..|seed| - 1]).values
    ensures IsShortSeed(seed)
  {
    hide Ordered, Seeded, IsShortSeed;
    var front, last := seed[..|seed| - 1], seed[|seed| - 1];
    SeededStep(seed);
    SeededIsMap(front);
    KnownLastIsUnmerged(Seeded(front), Seeded(seed), last, |front|);
    SeededUnmerged(front);
    MergedIsShort(Seeded(front), Seeded(seed), front, last);
    ShortFromFront(seed, front, last);
  }

  lemma ShortFromFront(seed: seq<string>, front: seq<string>, last: string)
    requires seed != [] && front == seed[..|seed| - 1] && last == seed[|seed| - 1]
    requires |front| <= 1 && (if front == [] then last == "" else last == front[0] && last != "")
    ensures IsShortSeed(seed)
  {
    if front != [] {
      assert seed[0] == front[0];
    }
  }

  lemma KnownLastIsUnmerged(p: Palette, q: Palette, last: string, n: nat)
    requires q == p.Set(last, n) && Ordered(q) && last in p.values && |p.keys| <= n + 1
    ensures |p.keys| == n + 1
  {
    assert q.values[last] == n;
  }

  lemma MergedIsShort(p: Palette, q: Palette, front: seq<string>, last: string)
    requires p.keys == [""] + front && forall j :: 0 <= j < |front| ==> front[j] in p.values && p.values[front[j]] == j
    requires q == p.Set(last, |front|) && Ordered(q) && last in p.values
    ensures |front| <= 1 && (if front == [] then last == "" else last == front[0] && last != "")
  {
    var n := |front|;
    assert q.values[last] == n && q.keys[n] == last;
    if n >= 1 {
      assert q.keys[1] == front[0] && q.values[front[0]] == 1;
    }
  }

  lemma {:induction false} SeededIsWellFormed(seed: seq<string>)
    ensures Seeded(seed).WellFormed()
    decreases |seed|
  {
    if seed != [] {
      SeededIsWellFormed(seed[..|seed| - 1]);
      SetKeepsWellFormed(Seeded(seed[..|seed| - 1]), seed[|seed| - 1], |seed| - 1);
    }
  }

  /**
   * Exactly which seeds are lossless for the first picture: those whose palette gives every colour its own place. Good
   * seeds do, and so do seeds that only repeat what is no colour.
   */
  lemma SeedIsLosslessIff(seed: seq<string>)
    ensures (forall img: PngImage, x: int, y: int :: C.Fits(img, Seeded(seed)) ==>
               C.DrawnRight(img, Seeded(seed), PaletteAfter(img, Seeded(seed)).keys, x, y))
       <==> C.Usable(Seeded(seed))
    ensures GoodSeed(seed) ==> C.Usable(Seeded(seed))
  {
    SeededIsWellFormed(seed);
    C.LosslessIff(Seeded(seed));
    if GoodSeed(seed) {
      GoodSeedIsOrdered(seed);
      C.OrderedIsUsable(Seeded(seed));
    }
    hide Seeded, GoodSeed;
  }

  /** Exactly the good seeds give a palette whose i-th colour has index i. */
  lemma SeedIsOrderedIffGood(seed: seq<string>)
    ensures Ordered(Seeded(seed)) <==> GoodSeed(seed)
  {
    if GoodSeed(seed) { GoodSeedIsOrdered(seed); }
    if Ordered(Seeded(seed)) { OrderedSeedIsGood(seed); }
  }

  /** Starting a new encoder from a saved palette restores the colour map exactly. */
  lemma ReseedingRestores(p: Palette)
    requires Ordered(p)
    ensures Seeded(p.keys) == p
  {
    assert [""] + p.keys[1..] == p.keys;
    GoodSeedIsOrdered(p.keys);
    hide Seeded;
    OrderedIsDetermined(Seeded(p.keys), p);
  }

  lemma OrderedIsDetermined(p: Palette, q: Palette)
    requires Ordered(p) && Ordered(q) && p.keys == q.keys
    ensures p == q
  {
    assert forall k :: k in p.values ==> k == q.keys[p.values[k]];
    assert forall k :: k in q.values ==> k == p.keys[q.values[k]];
  }
}
