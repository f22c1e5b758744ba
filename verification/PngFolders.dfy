/** `PNGCollectionEncoder.format`: the encoded images grouped into their folders, the rest under `root`. */
module PngFolders {
  import opened Options
  import opened JsMaps

  datatype EncodedImage = EncodedImage(filename: string, data: Option<string>)
  datatype Folder = Folder(name: string, entries: seq<EncodedImage>)

  /** `order` enumerates the folder names, each once. */
  ghost predicate Lists(order: seq<string>, folders: JsMap<seq<string>>) {
    && (forall i, j :: 0 <= i < j < |order| ==> order[i] != order[j])
    && (forall f :: f in order <==> f in folders.values)
    && (order == [] <==> folders.keys == [])
  }

  function EntryFor(file: string, images: JsMap<string>): EncodedImage {
    EncodedImage(file, if file in images.values then Some(images.values[file]) else None)
  }

  function TakeFiles(files: seq<string>, images: JsMap<string>): (seq<EncodedImage>, JsMap<string>) {
    if files == [] then ([], images)
    else
      var last := files[|files| - 1];
      var (entries, left) := TakeFiles(files[..|files| - 1], images);
      (entries + [EntryFor(last, left)], left.Delete(last))
  }

  function FillFolders(order: seq<string>, files: map<string, seq<string>>, images: JsMap<string>)
    : (seq<Folder>, JsMap<string>)
    requires forall i :: 0 <= i < |order| ==> order[i] in files
  {
    if order == [] then ([], images)
    else
      var last := order[|order| - 1];
      var (data, left) := FillFolders(order[..|order| - 1], files, images);
      var (entries, left') := TakeFiles(files[last], left);
      (data + [Folder(last, entries)], left')
  }

  function AllEntries(names: seq<string>, texts: map<string, string>): seq<EncodedImage> {
    seq(|names|, i requires 0 <= i < |names| =>
      EncodedImage(names[i], if names[i] in texts then Some(texts[names[i]]) else None))
  }

  /** `data.root = entries`: an existing folder of that name is replaced. */
  function PutRoot(data: seq<Folder>, entries: seq<EncodedImage>): seq<Folder> {
    if data == [] then [Folder("root", entries)]
    else if data[0].name == "root" then [Folder("root", entries)] + data[1..]
    else [data[0]] + PutRoot(data[1..], entries)
  }

  function Formatted(images: JsMap<string>, folders: JsMap<seq<string>>, order: seq<string>, flatten: bool): seq<Folder>
    requires forall i :: 0 <= i < |order| ==> order[i] in folders.values
  {
    var (data, left) :=
      if !flatten && |folders.keys| > 0 then FillFolders(order, folders.values, images) else ([], images);
    if |left.keys| > 0 then PutRoot(data, AllEntries(left.keys, left.values)) else data
  }

  // ----- every image is delivered exactly once, or the `root` folder is overwritten -----

  /** How often the image is present with its data. */
  function Count(entries: seq<EncodedImage>, name: string): nat {
    if entries == [] then 0
    else
      var last := entries[|entries| - 1];
      Count(entries[..|entries| - 1], name) + if last.filename == name && last.data.Some? then 1 else 0
  }

  function Delivered(data: seq<Folder>, name: string): nat {
    if data == [] then 0
    else Delivered(data[..|data| - 1], name) + Count(data[|data| - 1].entries, name)
  }

  function DeliveredInRoot(data: seq<Folder>, name: string): nat {
    if data == [] then 0
    else
      var last := data[|data| - 1];
      DeliveredInRoot(data[..|data| - 1], name) + if last.name == "root" then Count(last.entries, name) else 0
  }

  ghost predicate RightTexts(entries: seq<EncodedImage>, texts: map<string, string>) {
    forall e :: e in entries && e.data.Some? ==> e.filename in texts && e.data.value == texts[e.filename]
  }

  ghost predicate AllRightTexts(data: seq<Folder>, texts: map<string, string>) {
    forall f :: f in data ==> RightTexts(f.entries, texts)
  }

  /** The first folder that lists the image. */
  function FirstIn(order: seq<string>, files: map<string, seq<string>>, name: string): Option<string>
    requires forall i :: 0 <= i < |order| ==> order[i] in files
  {
    if order == [] then None
    else
      var last, before := order[|order| - 1], FirstIn(order[..|order| - 1], files, name);
      if before.Some? then before else if name in files[last] then Some(last) else None
  }

  ghost predicate SubMap(part: JsMap<string>, whole: JsMap<string>) {
    forall k :: k in part.values ==> k in whole.values && part.values[k] == whole.values[k]
  }

  lemma CountAppend(entries: seq<EncodedImage>, e: EncodedImage, name: string)
    ensures Count(entries + [e], name) == Count(entries, name) + if e.filename == name && e.data.Some? then 1 else 0
  {
    assert (entries + [e])[..|entries|] == entries;
  }

  lemma DeliveredAppend(data: seq<Folder>, f: Folder, name: string)
    ensures Delivered(data + [f], name) == Delivered(data, name) + Count(f.entries, name)
    ensures DeliveredInRoot(data + [f], name)
         == DeliveredInRoot(data, name) + if f.name == "root" then Count(f.entries, name) else 0
  {
    assert (data + [f])[..|data|] == data;
  }

  lemma {:induction false} TakeFilesDelivers(files: seq<string>, images: JsMap<string>, name: string)
    requires images.WellFormed()
    ensures var (entries, left) := TakeFiles(files, images);
      && left.WellFormed() && SubMap(left, images) && RightTexts(entries, images.values)
      && (name in left.values <==> name in images.values && name !in files)
      && Count(entries, name) == if name in images.values && name in files then 1 else 0
    decreases |files|
  {
    if files != [] {
      var front, last := files[..|files| - 1], files[|files| - 1];
      TakeFilesDelivers(front, images, name);
      var (entries, left) := TakeFiles(front, images);
      DeleteKeepsWellFormed(left, last);
      CountAppend(entries, EntryFor(last, left), name);
      assert files == front + [last];
    }
  }

  lemma {:induction false} FillFoldersDelivers(order: seq<string>, files: map<string, seq<string>>, images: JsMap<string>,
                                               name: string)
    requires images.WellFormed()
    requires forall i :: 0 <= i < |order| ==> order[i] in files
    ensures var (data, left) := FillFolders(order, files, images);
      var first := FirstIn(order, files, name);
      && left.WellFormed() && SubMap(left, images) && AllRightTexts(data, images.values)
      && (name in left.values <==> name in images.values && first == None)
      && (name in images.values ==>
            && Delivered(data, name) == (if first.Some? then 1 else 0)
            && DeliveredInRoot(data, name) == (if first == Some("root") then 1 else 0))
    decreases |order|
  {
    if order != [] {
      var front, last := order[..|order| - 1], order[|order| - 1];
      FillFoldersDelivers(front, files, images, name);
      var (data, left) := FillFolders(front, files, images);
      TakeFilesDelivers(files[last], left, name);
      DeliveredAppend(data, Folder(last, TakeFiles(files[last], left).0), name);
    }
  }

  lemma {:induction false} FoldersAreNamed(order: seq<string>, files: map<string, seq<string>>, images: JsMap<string>)
    requires forall i :: 0 <= i < |order| ==> order[i] in files
    ensures var data := FillFolders(order, files, images).0;
      |data| == |order| && forall i :: 0 <= i < |order| ==> data[i].name == order[i]
    decreases |order|
  {
    if order != [] {
      FoldersAreNamed(order[..|order| - 1], files, images);
    }
  }

  lemma {:induction false} DeliveredFirst(f: Folder, rest: seq<Folder>, name: string)
    ensures Delivered([f] + rest, name) == Count(f.entries, name) + Delivered(rest, name)
    ensures DeliveredInRoot([f] + rest, name)
         == (if f.name == "root" then Count(f.entries, name) else 0) + DeliveredInRoot(rest, name)
    decreases |rest|
  {
    if rest == [] {
      DeliveredAppend([], f, name);
      assert [f] + rest == [] + [f];
    } else {
      var front, last := rest[..|rest| - 1], rest[|rest| - 1];
      DeliveredFirst(f, front, name);
      DeliveredAppend([f] + front, last, name);
      DeliveredAppend(front, last, name);
      assert [f] + rest == ([f] + front) + [last] && rest == front + [last];
    }
  }

  lemma {:induction false} NoRootFolder(data: seq<Folder>, name: string)
    requires forall i :: 0 <= i < |data| ==> data[i].name != "root"
    ensures DeliveredInRoot(data, name) == 0
    decreases |data|
  {
    if data != [] {
      NoRootFolder(data[..|data| - 1], name);
    }
  }

  /** Assigning `data.root` adds the new entries and drops what an earlier folder of that name held. */
  lemma {:induction false} PutRootDelivers(data: seq<Folder>, entries: seq<EncodedImage>, name: string)
    requires forall i, j :: 0 <= i < j < |data| ==> data[i].name != data[j].name
    ensures Delivered(PutRoot(data, entries), name)
         == Delivered(data, name) - DeliveredInRoot(data, name) + Count(entries, name)
    decreases data
  {
    if data == [] {
      DeliveredFirst(Folder("root", entries), [], name);
      assert [Folder("root", entries)] + [] == [Folder("root", entries)];
    } else {
      var f, rest := data[0], data[1..];
      assert data == [f] + rest;
      DeliveredFirst(f, rest, name);
      if f.name == "root" {
        DeliveredFirst(Folder("root", entries), rest, name);
        NoRootFolder(rest, name);
      } else {
        DeliveredFirst(f, PutRoot(rest, entries), name);
        PutRootDelivers(rest, entries, name);
      }
    }
  }

  lemma {:induction false} PutRootTexts(data: seq<Folder>, entries: seq<EncodedImage>, texts: map<string, string>)
    requires AllRightTexts(data, texts) && RightTexts(entries, texts)
    ensures AllRightTexts(PutRoot(data, entries), texts)
    decreases data
  {
    if data != [] && data[0].name != "root" {
      PutRootTexts(data[1..], entries, texts);
    }
  }

  lemma {:induction false} AllEntriesDeliver(names: seq<string>, texts: map<string, string>, name: string)
    requires forall i, j :: 0 <= i < j < |names| ==> names[i] != names[j]
    requires forall i :: 0 <= i < |names| ==> names[i] in texts
    ensures Count(AllEntries(names, texts), name) == if name in names then 1 else 0
    ensures RightTexts(AllEntries(names, texts), texts)
    decreases |names|
  {
    if names != [] {
      var front, last := names[..|names| - 1], names[|names| - 1];
      AllEntriesDeliver(front, texts, name);
      CountAppend(AllEntries(front, texts), EncodedImage(last, Some(texts[last])), name);
      assert AllEntries(names, texts) == AllEntries(front, texts) + [EncodedImage(last, Some(texts[last]))];
      assert names == front + [last];
    }
  }

  /** Some image is in no folder, so that `root` is assigned at the end. */
  ghost predicate RootAssigned(images: JsMap<string>, order: seq<string>, files: map<string, seq<string>>)
    requires forall i :: 0 <= i < |order| ==> order[i] in files
  {
    exists n :: n in images.values && FirstIn(order, files, n) == None
  }

  lemma LeftoverMeansRoot(images: JsMap<string>, order: seq<string>, files: map<string, seq<string>>)
    requires images.WellFormed() && forall i :: 0 <= i < |order| ==> order[i] in files
    ensures |FillFolders(order, files, images).1.keys| > 0 <==> RootAssigned(images, order, files)
  {
    var left := FillFolders(order, files, images).1;
    FillFoldersDelivers(order, files, images, "");
    if |left.keys| > 0 {
      FillFoldersDelivers(order, files, images, left.keys[0]);
      assert left.keys[0] in left.values;
    }
    if RootAssigned(images, order, files) {
      var n :| n in images.values && FirstIn(order, files, n) == None;
      FillFoldersDelivers(order, files, images, n);
      assert n in left.keys;
    }
  }

  /**
   * In `data`, an image comes exactly once with its latest encoding, unless the first folder that lists it is itself
   * called `root` and other images are in no folder: assigning `root` then drops it. In `images`, always once.
   */
  lemma FormatDelivers(images: JsMap<string>, folders: JsMap<seq<string>>, order: seq<string>, name: string)
    requires images.WellFormed() && Lists(order, folders) && name in images.values
    ensures Delivered(Formatted(images, folders, order, false), name)
         == if FirstIn(order, folders.values, name) == Some("root") && RootAssigned(images, order, folders.values)
            then 0 else 1
    ensures Delivered(Formatted(images, folders, order, true), name) == 1
    ensures AllRightTexts(Formatted(images, folders, order, false), images.values)
  {
    if |folders.keys| > 0 {
      FilledDelivers(images, folders, order, name);
    }
    AllEntriesDeliver(images.keys, images.values, name);
    PutRootDelivers([], AllEntries(images.keys, images.values), name);
    assert name in images.keys;
    if |folders.keys| == 0 {
      PutRootTexts([], AllEntries(images.keys, images.values), images.values);
      assert FirstIn([], folders.values, name) == None;
    }
  }

  lemma FilledDelivers(images: JsMap<string>, folders: JsMap<seq<string>>, order: seq<string>, name: string)
    requires images.WellFormed() && Lists(order, folders) && name in images.values && |folders.keys| > 0
    ensures Delivered(Formatted(images, folders, order, false), name)
         == if FirstIn(order, folders.values, name) == Some("root") && RootAssigned(images, order, folders.values)
            then 0 else 1
    ensures AllRightTexts(Formatted(images, folders, order, false), images.values)
  {
    var (data, left) := FillFolders(order, folders.values, images);
    FillFoldersDelivers(order, folders.values, images, name);
    LeftoverMeansRoot(images, order, folders.values);
    FoldersAreNamed(order, folders.values, images);
    hide FillFolders, FirstIn, RootAssigned;
    RootDelivers(data, left, images, name);
  }

  lemma RootDelivers(data: seq<Folder>, left: JsMap<string>, images: JsMap<string>, name: string)
    requires forall i, j :: 0 <= i < j < |data| ==> data[i].name != data[j].name
    requires left.WellFormed() && SubMap(left, images) && AllRightTexts(data, images.values)
    ensures var root := PutRoot(data, AllEntries(left.keys, left.values));
      && Delivered(root, name) == Delivered(data, name) - DeliveredInRoot(data, name)
                                  + (if name in left.keys then 1 else 0)
      && AllRightTexts(root, images.values)
  {
    var entries := AllEntries(left.keys, left.values);
    AllEntriesDeliver(left.keys, left.values, name);
    PutRootDelivers(data, entries, name);
    assert RightTexts(entries, images.values);
    PutRootTexts(data, entries, images.values);
  }

  // ----- which entries carry data -----

  ghost predicate AllData(entries: seq<EncodedImage>) {
    forall e :: e in entries ==> e.data.Some?
  }

  ghost predicate NoneTwice(names: seq<string>) {
    forall i, j :: 0 <= i < j < |names| ==> names[i] != names[j]
  }

  ghost predicate AllStored(names: seq<string>, images: JsMap<string>) {
    forall name :: name in names ==> name in images.values
  }

  /** Files taken out of a map have data if they are all in it and none is taken twice. */
  lemma TakeFilesData(files: seq<string>, left: JsMap<string>)
    requires left.WellFormed()
    ensures AllData(TakeFiles(files, left).0) <==> NoneTwice(files) && AllStored(files, left)
  {
    TakenEntries(files, left);
    var entries := TakeFiles(files, left).0;
    hide TakeFiles;
    NoneTwiceIff(files);
    hide NoneTwice;
    if AllData(entries) {
      forall j | 0 <= j < |files| ensures files[j] in left.values && files[j] !in files[..j] {
        assert entries[j] in entries;
      }
    }
  }

  lemma NoneTwiceIff(files: seq<string>)
    ensures NoneTwice(files) <==> forall j :: 0 <= j < |files| ==> files[j] !in files[..j]
  {
    if !NoneTwice(files) {
      var i, j :| 0 <= i < j < |files| && files[i] == files[j];
      assert files[..j][i] == files[j];
    }
  }

  /** Folder k lists no image twice, and none that an earlier folder lists. */
  ghost predicate ListsAfresh(order: seq<string>, files: map<string, seq<string>>, k: nat)
    requires k < |order| && forall i :: 0 <= i < |order| ==> order[i] in files
  {
    && NoneTwice(files[order[k]])
    && forall name :: name in files[order[k]] ==> FirstIn(order[..k], files, name) == None
  }

  ghost predicate FoldersStored(order: seq<string>, files: map<string, seq<string>>, images: JsMap<string>)
    requires forall i :: 0 <= i < |order| ==> order[i] in files
  {
    forall i :: 0 <= i < |order| ==> AllStored(files[order[i]], images)
  }

  lemma {:induction false} FillFoldersData(order: seq<string>, files: map<string, seq<string>>, images: JsMap<string>, k: nat)
    requires images.WellFormed() && k < |order|
    requires (forall i :: 0 <= i < |order| ==> order[i] in files) && FoldersStored(order, files, images)
    ensures |FillFolders(order, files, images).0| == |order|
    ensures AllData(FillFolders(order, files, images).0[k].entries) <==> ListsAfresh(order, files, k)
    decreases |order|
  {
    var front, last := order[..|order| - 1], order[|order| - 1];
    FoldersAreNamed(order, files, images);
    FoldersAreNamed(front, files, images);
    if k < |front| {
      FillFoldersData(front, files, images, k);
      assert front[..k] == order[..k];
    } else {
      var left := FillFolders(front, files, images).1;
      FillFoldersDelivers(front, files, images, "");
      TakeFilesData(files[last], left);
      forall name | name in files[last]
        ensures name in left.values <==> FirstIn(front, files, name) == None
      {
        FillFoldersDelivers(front, files, images, name);
        assert AllStored(files[order[k]], images);
      }
      hide FirstIn, NoneTwice, AllData, TakeFiles;
    }
  }

  lemma {:induction false} PutRootMembers(data: seq<Folder>, entries: seq<EncodedImage>, f: Folder)
    requires forall i, j :: 0 <= i < j < |data| ==> data[i].name != data[j].name
    ensures f in PutRoot(data, entries) <==> f == Folder("root", entries) || (f in data && f.name != "root")
    decreases data
  {
    if data != [] {
      assert data == [data[0]] + data[1..];
      if data[0].name != "root" {
        PutRootMembers(data[1..], entries, f);
      }
    }
  }

  ghost predicate AllFoldersData(data: seq<Folder>) {
    forall f :: f in data ==> AllData(f.entries)
  }

  lemma PutRootData(data: seq<Folder>, entries: seq<EncodedImage>)
    requires forall i, j :: 0 <= i < j < |data| ==> data[i].name != data[j].name
    requires AllData(entries)
    ensures AllFoldersData(PutRoot(data, entries)) <==> forall f :: f in data && f.name != "root" ==> AllData(f.entries)
  {
    hide AllData;
    forall f ensures f in PutRoot(data, entries) <==> f == Folder("root", entries) || (f in data && f.name != "root") {
      PutRootMembers(data, entries, f);
    }
  }

  lemma AllEntriesData(left: JsMap<string>)
    requires left.WellFormed()
    ensures AllData(AllEntries(left.keys, left.values))
  {
  }

  /** The folder's entries are replaced by those of the images that no folder lists. */
  ghost predicate Overwritten(images: JsMap<string>, order: seq<string>, files: map<string, seq<string>>, k: nat)
    requires k < |order| && forall i :: 0 <= i < |order| ==> order[i] in files
  {
    order[k] == "root" && RootAssigned(images, order, files)
  }

  /**
   * All entries delivered carry data if and only if every folder that is not overwritten lists no image twice and none
   * that an earlier folder lists: an image is taken out of the map where it is listed first.
   */
  lemma FormatDataIff(images: JsMap<string>, folders: JsMap<seq<string>>, order: seq<string>)
    requires images.WellFormed() && Lists(order, folders) && FoldersStored(order, folders.values, images)
    ensures AllFoldersData(Formatted(images, folders, order, false))
       <==> forall k :: 0 <= k < |order| ==>
              Overwritten(images, order, folders.values, k) || ListsAfresh(order, folders.values, k)
  {
    if |folders.keys| > 0 {
      FilledDataIff(images, folders, order);
    } else {
      AllEntriesData(images);
      PutRootData([], AllEntries(images.keys, images.values));
    }
  }

  lemma FilledDataIff(images: JsMap<string>, folders: JsMap<seq<string>>, order: seq<string>)
    requires images.WellFormed() && Lists(order, folders) && FoldersStored(order, folders.values, images)
    requires |folders.keys| > 0
    ensures AllFoldersData(Formatted(images, folders, order, false))
       <==> forall k :: 0 <= k < |order| ==>
              Overwritten(images, order, folders.values, k) || ListsAfresh(order, folders.values, k)
  {
    hide FillFolders, RootAssigned, AllData, ListsAfresh, PutRoot, AllEntries, FoldersStored, FirstIn;
    var files := folders.values;
    var (data, left) := FillFolders(order, files, images);
    FillFoldersDelivers(order, files, images, "");
    LeftoverMeansRoot(images, order, files);
    FoldersAreNamed(order, files, images);
    forall k | 0 <= k < |order| ensures AllData(data[k].entries) <==> ListsAfresh(order, files, k) {
      FillFoldersData(order, files, images, k);
    }
    AllEntriesData(left);
    PutRootData(data, AllEntries(left.keys, left.values));
    ByPlace(data, order, RootAssigned(images, order, files));
  }

  /** Folders by member and by place. */
  lemma ByPlace(data: seq<Folder>, order: seq<string>, rootGone: bool)
    requires |data| == |order| && forall i :: 0 <= i < |order| ==> data[i].name == order[i]
    ensures (forall f :: f in data && !(f.name == "root" && rootGone) ==> AllData(f.entries))
       <==> forall k :: 0 <= k < |order| ==> (order[k] == "root" && rootGone) || AllData(data[k].entries)
  {
    hide AllData;
  }

  /** The names all folders list, one folder after the other. */
  function AllListed(order: seq<string>, files: map<string, seq<string>>): seq<string>
    requires forall i :: 0 <= i < |order| ==> order[i] in files
  {
    if order == [] then [] else AllListed(order[..|order| - 1], files) + files[order[|order| - 1]]
  }

  lemma {:induction false} ListedSomewhere(order: seq<string>, files: map<string, seq<string>>, name: string)
    requires forall i :: 0 <= i < |order| ==> order[i] in files
    ensures name in AllListed(order, files) <==> FirstIn(order, files, name).Some?
    decreases |order|
  {
    if order != [] {
      ListedSomewhere(order[..|order| - 1], files, name);
    }
  }

  lemma NoneTwiceConcat(a: seq<string>, b: seq<string>)
    ensures NoneTwice(a + b) <==> NoneTwice(a) && NoneTwice(b) && forall name :: name in b ==> name !in a
  {
    var c := a + b;
    if NoneTwice(c) {
      forall i, j | 0 <= i < j < |a| ensures a[i] != a[j] {
        assert c[i] != c[j];
      }
      forall i, j | 0 <= i < j < |b| ensures b[i] != b[j] {
        assert c[|a| + i] != c[|a| + j];
      }
      forall i, j | 0 <= i < |a| && 0 <= j < |b| ensures a[i] != b[j] {
        assert c[i] != c[|a| + j];
      }
    }
    if NoneTwice(a) && NoneTwice(b) && forall name :: name in b ==> name !in a {
      forall i, j | 0 <= i < j < |c| ensures c[i] != c[j] {
        if i < |a| <= j {
          assert c[i] in a && c[j] in b;
        }
      }
    }
  }

  lemma AfreshAt(order: seq<string>, files: map<string, seq<string>>, k: nat)
    requires k < |order| && forall i :: 0 <= i < |order| ==> order[i] in files
    ensures var front := order[..|order| - 1];
      if k < |front| then ListsAfresh(order, files, k) <==> ListsAfresh(front, files, k)
      else ListsAfresh(order, files, k)
           <==> NoneTwice(files[order[k]]) && forall name :: name in files[order[k]] ==> name !in AllListed(front, files)
  {
    var front := order[..|order| - 1];
    if k < |front| {
      assert front[..k] == order[..k];
    } else {
      assert front == order[..k];
      forall name ensures name in AllListed(front, files) <==> FirstIn(front, files, name).Some? {
        ListedSomewhere(front, files, name);
      }
    }
    hide NoneTwice, AllListed, FirstIn;
  }

  lemma {:induction false} AfreshIffNoneTwice(order: seq<string>, files: map<string, seq<string>>)
    requires forall i :: 0 <= i < |order| ==> order[i] in files
    ensures NoneTwice(AllListed(order, files)) <==> forall k :: 0 <= k < |order| ==> ListsAfresh(order, files, k)
    decreases |order|
  {
    if order != [] {
      var front, last := order[..|order| - 1], order[|order| - 1];
      assert AllListed(order, files) == AllListed(front, files) + files[last];
      hide NoneTwice, AllListed, ListsAfresh;
      AfreshIffNoneTwice(front, files);
      NoneTwiceConcat(AllListed(front, files), files[last]);
      forall k | 0 <= k < |front| ensures ListsAfresh(order, files, k) <==> ListsAfresh(front, files, k) {
        AfreshAt(order, files, k);
      }
      AfreshAt(order, files, |front|);
    }
  }

  /** Where no folder is overwritten: all entries carry data if and only if no name is listed twice. */
  lemma ListedOnceIff(images: JsMap<string>, folders: JsMap<seq<string>>, order: seq<string>)
    requires images.WellFormed() && Lists(order, folders) && FoldersStored(order, folders.values, images)
    requires "root" in order ==> !RootAssigned(images, order, folders.values)
    ensures AllFoldersData(Formatted(images, folders, order, false)) <==> NoneTwice(AllListed(order, folders.values))
  {
    FormatDataIff(images, folders, order);
    AfreshIffNoneTwice(order, folders.values);
    hide Formatted, AllFoldersData, NoneTwice, ListsAfresh, RootAssigned, AllListed;
  }

  // ----- names and order of the entries -----

  function FileNames(entries: seq<EncodedImage>): seq<string> {
    seq(|entries|, i requires 0 <= i < |entries| => entries[i].filename)
  }

  /** The names that no folder lists, in their own order. */
  function Unlisted(names: seq<string>, order: seq<string>, files: map<string, seq<string>>): seq<string>
    requires forall i :: 0 <= i < |order| ==> order[i] in files
  {
    if names == [] then []
    else
      var last, front := names[|names| - 1], Unlisted(names[..|names| - 1], order, files);
      if FirstIn(order, files, last) == None then front + [last] else front
  }

  /** The names that are not in the list. */
  function NotAmong(names: seq<string>, taken: seq<string>): seq<string> {
    if names == [] then []
    else (if names[0] in taken then [] else [names[0]]) + NotAmong(names[1..], taken)
  }

  lemma {:induction false} WithoutOneMore(names: seq<string>, taken: seq<string>, name: string)
    ensures Without(NotAmong(names, taken), name) == NotAmong(names, taken + [name])
    decreases names
  {
    if names != [] {
      WithoutOneMore(names[1..], taken, name);
      var rest := NotAmong(names[1..], taken);
      if names[0] in taken {
        assert NotAmong(names, taken) == rest;
      } else {
        assert ([names[0]] + rest)[1..] == rest;
      }
    }
  }

  lemma {:induction false} NotAmongNone(names: seq<string>)
    ensures NotAmong(names, []) == names
    decreases names
  {
    if names != [] {
      NotAmongNone(names[1..]);
    }
  }

  /** A file taken is named in its place, and carries data if it is stored and was not taken before. */
  lemma {:induction false} TakenEntries(files: seq<string>, images: JsMap<string>)
    requires images.WellFormed()
    ensures var (entries, left) := TakeFiles(files, images);
      && FileNames(entries) == files && |entries| == |files|
      && (forall j :: 0 <= j < |files| ==>
            (entries[j].data.Some? <==> files[j] in images.values && files[j] !in files[..j]))
    decreases |files|
  {
    if files != [] {
      var front, last := files[..|files| - 1], files[|files| - 1];
      TakenEntries(front, images);
      TakeFilesDelivers(front, images, last);
      var entries, left := TakeFiles(front, images).0, TakeFiles(front, images).1;
      assert TakeFiles(files, images).0 == entries + [EntryFor(last, left)];
      hide TakeFiles;
      assert files == front + [last];
      forall j | 0 <= j < |files|
        ensures (entries + [EntryFor(last, left)])[j].data.Some? <==> files[j] in images.values && files[j] !in files[..j]
      {
        assert j < |front| ==> files[..j] == front[..j];
        assert j == |front| ==> files[..j] == front;
      }
    }
  }

  lemma {:induction false} TakenKeys(files: seq<string>, images: JsMap<string>, all: seq<string>, taken: seq<string>)
    requires images.keys == NotAmong(all, taken)
    ensures TakeFiles(files, images).1.keys == NotAmong(all, taken + files)
    decreases |files|
  {
    if files == [] {
      assert taken + files == taken;
    } else {
      var front, last := files[..|files| - 1], files[|files| - 1];
      TakenKeys(front, images, all, taken);
      WithoutOneMore(all, taken + front, last);
      assert taken + files == (taken + front) + [last];
    }
  }

  lemma {:induction false} FilledKeys(order: seq<string>, files: map<string, seq<string>>, images: JsMap<string>)
    requires forall i :: 0 <= i < |order| ==> order[i] in files
    ensures FillFolders(order, files, images).1.keys == NotAmong(images.keys, AllListed(order, files))
    decreases |order|
  {
    if order == [] {
      NotAmongNone(images.keys);
    } else {
      var front, last := order[..|order| - 1], order[|order| - 1];
      FilledKeys(front, files, images);
      TakenKeys(files[last], FillFolders(front, files, images).1, images.keys, AllListed(front, files));
    }
  }

  lemma {:induction false} NotAmongAppend(names: seq<string>, name: string, taken: seq<string>)
    ensures NotAmong(names + [name], taken) == NotAmong(names, taken) + if name in taken then [] else [name]
    decreases names
  {
    if names == [] {
      assert names + [name] == [name] && [name][1..] == [];
    } else {
      assert (names + [name])[1..] == names[1..] + [name];
      NotAmongAppend(names[1..], name, taken);
    }
  }

  lemma {:induction false} UnlistedAreLeft(names: seq<string>, order: seq<string>, files: map<string, seq<string>>)
    requires forall i :: 0 <= i < |order| ==> order[i] in files
    ensures NotAmong(names, AllListed(order, files)) == Unlisted(names, order, files)
    decreases |names|
  {
    if names != [] {
      var front, last := names[..|names| - 1], names[|names| - 1];
      UnlistedAreLeft(front, order, files);
      assert names == front + [last];
      NotAmongAppend(front, last, AllListed(order, files));
      ListedSomewhere(order, files, last);
    }
  }

  /** Folder k, as filled: its files in their order; those stored and not listed before carry data. */
  ghost predicate FilledRight(entries: seq<EncodedImage>, images: JsMap<string>, order: seq<string>,
                              files: map<string, seq<string>>, k: nat)
    requires k < |order| && forall i :: 0 <= i < |order| ==> order[i] in files
  {
    var list := files[order[k]];
    && FileNames(entries) == list && |entries| == |list|
    && forall j :: 0 <= j < |list| ==>
         (entries[j].data.Some? <==>
            list[j] in images.values && list[j] !in list[..j] && FirstIn(order[..k], files, list[j]) == None)
  }

  lemma {:induction false} FilledFolders(order: seq<string>, files: map<string, seq<string>>, images: JsMap<string>, k: nat)
    requires images.WellFormed() && k < |order| && forall i :: 0 <= i < |order| ==> order[i] in files
    ensures |FillFolders(order, files, images).0| == |order|
    ensures FilledRight(FillFolders(order, files, images).0[k].entries, images, order, files, k)
    decreases |order|
  {
    var front, last := order[..|order| - 1], order[|order| - 1];
    FoldersAreNamed(order, files, images);
    FoldersAreNamed(front, files, images);
    if k < |front| {
      FilledFolders(front, files, images, k);
      assert front[..k] == order[..k] && front[k] == order[k];
    } else {
      LastFilled(order, files, images);
    }
  }

  lemma LastFilled(order: seq<string>, files: map<string, seq<string>>, images: JsMap<string>)
    requires images.WellFormed() && order != [] && forall i :: 0 <= i < |order| ==> order[i] in files
    ensures var n := |order| - 1;
      |FillFolders(order, files, images).0| == |order|
      && FilledRight(FillFolders(order, files, images).0[n].entries, images, order, files, n)
  {
    var n := |order| - 1;
    var front, list := order[..n], files[order[n]];
    FoldersAreNamed(front, files, images);
    FillFoldersDelivers(front, files, images, "");
    var left := FillFolders(front, files, images).1;
    TakenEntries(list, left);
    forall name ensures name in left.values <==> name in images.values && FirstIn(front, files, name) == None {
      FillFoldersDelivers(front, files, images, name);
    }
    var entries := TakeFiles(list, left).0;
    assert FillFolders(order, files, images).0[n].entries == entries;
    hide FillFolders, FirstIn, TakeFiles;
  }

  lemma {:induction false} PutRootPlaces(data: seq<Folder>, entries: seq<EncodedImage>)
    requires forall i, j :: 0 <= i < j < |data| ==> data[i].name != data[j].name
    ensures var after, named := PutRoot(data, entries), exists i :: 0 <= i < |data| && data[i].name == "root";
      && |after| == |data| + (if named then 0 else 1)
      && (forall i :: 0 <= i < |data| ==> after[i] == if data[i].name == "root" then Folder("root", entries) else data[i])
      && (!named ==> after[|data|] == Folder("root", entries))
    decreases data
  {
    if data != [] {
      if data[0].name == "root" {
        assert forall i :: 1 <= i < |data| ==> data[i].name != "root";
      } else {
        PutRootPlaces(data[1..], entries);
        assert forall i :: 1 <= i < |data| ==> data[i] == data[1..][i - 1];
        if j :| 0 <= j < |data| && data[j].name == "root" {
          assert data[1..][j - 1].name == "root";
        }
        if j :| 0 <= j < |data[1..]| && data[1..][j].name == "root" {
          assert data[j + 1].name == "root";
        }
      }
    }
  }

  /** The entries for what no folder lists. */
  ghost predicate RootRight(entries: seq<EncodedImage>, images: JsMap<string>, names: seq<string>) {
    && FileNames(entries) == names && |entries| == |names|
    && forall j :: 0 <= j < |names| ==> names[j] in images.values && entries[j].data == Some(images.values[names[j]])
  }

  /**
   * What `format` returns, folder by folder: the folders in their order with the files they list, then, or in place of
   * a folder called `root`, the files that no folder lists, if any.
   */
  lemma FormattedContents(images: JsMap<string>, folders: JsMap<seq<string>>, order: seq<string>)
    requires images.WellFormed() && Lists(order, folders)
    ensures var data, files := Formatted(images, folders, order, false), folders.values;
      var root := RootAssigned(images, order, files);
      && |data| == |order| + (if root && "root" !in order then 1 else 0)
      && (forall k :: 0 <= k < |order| ==> data[k].name == order[k])
      && (forall k :: 0 <= k < |order| ==>
            if Overwritten(images, order, files, k)
            then RootRight(data[k].entries, images, Unlisted(images.keys, order, files))
            else FilledRight(data[k].entries, images, order, files, k))
      && (root && "root" !in order ==>
            data[|order|].name == "root"
            && RootRight(data[|order|].entries, images, Unlisted(images.keys, order, files)))
  {
    var files := folders.values;
    if |folders.keys| > 0 {
      FilledContents(images, folders, order);
    } else {
      NotAmongNone(images.keys);
      UnlistedAreLeft(images.keys, [], files);
      assert images.keys != [] ==> images.keys[0] in images.values;
      assert forall n :: n in images.values ==> n in images.keys;
      RootEntries(images, images);
    }
  }

  /** Flattened, all images are in one folder `root`, in their order and with their texts. */
  lemma FlattenedContents(images: JsMap<string>, folders: JsMap<seq<string>>, order: seq<string>)
    requires images.WellFormed() && Lists(order, folders)
    ensures var data := Formatted(images, folders, order, true);
      if images.keys == [] then data == []
      else |data| == 1 && data[0].name == "root" && RootRight(data[0].entries, images, images.keys)
  {
    RootEntries(images, images);
  }

  lemma RootEntries(left: JsMap<string>, images: JsMap<string>)
    requires left.WellFormed() && SubMap(left, images)
    ensures RootRight(AllEntries(left.keys, left.values), images, left.keys)
  {
  }

  lemma FilledContents(images: JsMap<string>, folders: JsMap<seq<string>>, order: seq<string>)
    requires images.WellFormed() && Lists(order, folders) && |folders.keys| > 0
    ensures var data, files := Formatted(images, folders, order, false), folders.values;
      var root := RootAssigned(images, order, files);
      && |data| == |order| + (if root && "root" !in order then 1 else 0)
      && (forall k :: 0 <= k < |order| ==> data[k].name == order[k])
      && (forall k :: 0 <= k < |order| ==>
            if Overwritten(images, order, files, k)
            then RootRight(data[k].entries, images, Unlisted(images.keys, order, files))
            else FilledRight(data[k].entries, images, order, files, k))
      && (root && "root" !in order ==>
            data[|order|].name == "root"
            && RootRight(data[|order|].entries, images, Unlisted(images.keys, order, files)))
  {
    hide FillFolders, RootAssigned, FilledRight, RootRight, PutRoot, AllEntries, Unlisted, NotAmong;
    var files := folders.values;
    var (data, left) := FillFolders(order, files, images);
    FillFoldersDelivers(order, files, images, "");
    LeftoverMeansRoot(images, order, files);
    FoldersAreNamed(order, files, images);
    FilledKeys(order, files, images);
    UnlistedAreLeft(images.keys, order, files);
    RootEntries(left, images);
    var entries := AllEntries(left.keys, left.values);
    PutRootPlaces(data, entries);
    forall k | 0 <= k < |order| ensures FilledRight(data[k].entries, images, order, files, k) {
      FilledFolders(order, files, images, k);
    }
    assert (exists i :: 0 <= i < |data| && data[i].name == "root") <==> "root" in order;
  }
}
