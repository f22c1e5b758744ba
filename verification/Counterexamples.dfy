/** Inputs on which a promised property fails, for conditions found necessary elsewhere. */
module Counterexamples {
  import opened Options
  import opened Entities
  import opened LedgerSpec
  import opened Ledger
  import opened Hex
  import JsMaps
  import Palettes
  import I = Images
  import C = Codec
  import S = SvgBuilder
  import N = Painting
  import P = PngCollections
  import F = PngFolders
  import A = AuctionSlice
  import Q = Proposals
  import U = SubgraphRuns
  import W = ProposalStates
  import DC = DelegateCount
  import Z = Seeds

  // ----- the token ledger: any two different accounts, and one token -----

  function Minted(alice: Address): State {
    AfterTransfer(EMPTY_STORE, ZERO_ADDRESS, alice, 7)
  }

  lemma MintedOne(alice: Address, s: State)
    requires alice != ZERO_ADDRESS && s == Minted(alice)
    ensures LedgerOk(s) && AccountOf(s, alice).nouns == [7] && AccountOf(s, alice).delegate == Some(alice)
  {
    EmptyLedgerOk();
    TransferKeepsLedgerIffFits(EMPTY_STORE, ZERO_ADDRESS, alice, 7);
    TransferAccount(EMPTY_STORE, ZERO_ADDRESS, alice, 7, alice);
    hide AfterTransfer, LedgerOk;
    assert [] + [7] == [7];
  }

  /** A transfer to oneself, which the token standard allows, puts the token into its owner's list twice. */
  lemma SelfTransferBreaksLedger(alice: Address)
    requires alice != ZERO_ADDRESS
    ensures LedgerOk(Minted(alice)) && !LedgerOk(AfterTransfer(Minted(alice), alice, alice, 7))
  {
    hide LedgerOk, AfterTransfer, Minted, ReceiverFits;
    MintedOne(alice, Minted(alice));
    TransferKeepsLedgerIffFits(Minted(alice), alice, alice, 7);
  }

  /** Delegating again to the current delegate represents every token twice. */
  lemma SameDelegateBreaksLedger(alice: Address)
    requires alice != ZERO_ADDRESS
    ensures LedgerOk(Minted(alice)) && !LedgerOk(AfterDelegateChanged(Minted(alice), alice, alice, alice))
  {
    hide LedgerOk, AfterDelegateChanged, Minted;
    MintedOne(alice, Minted(alice));
    DelegationKeepsLedgerIffFits(Minted(alice), alice, alice, alice);
  }

  /** The very first token minted creates a delegate that `totalDelegates` loses again. */
  lemma FirstMintLosesDelegate(alice: Address)
    requires alice != ZERO_ADDRESS
    ensures DC.DelegatesCounted(EMPTY_STORE) && !DC.DelegatesCounted(Minted(alice))
  {
    EmptyLedgerOk();
    assert DC.NonZero(EMPTY_STORE.delegates.Keys) == {};
    hide LedgerOk, AfterTransfer;
    DC.TransferIsCountedIffKnown(EMPTY_STORE, ZERO_ADDRESS, alice, 7);
  }

  /** A delegation made without tokens is harmless until the first token arrives. */
  lemma EarlyDelegationBreaksLedger(alice: Address, bob: Address)
    requires alice != ZERO_ADDRESS && alice != bob
    ensures var s := AfterDelegateChanged(EMPTY_STORE, alice, alice, bob);
      LedgerOk(s) && !LedgerOk(AfterTransfer(s, ZERO_ADDRESS, alice, 7))
  {
    hide LedgerOk, AfterTransfer, AfterDelegateChanged, OwnershipFits;
    EmptyLedgerOk();
    DelegationKeepsLedgerIffFits(EMPTY_STORE, alice, alice, bob);
    DelegationRest(EMPTY_STORE, alice, alice, bob, alice);
    TransferKeepsLedgerIffFits(AfterDelegateChanged(EMPTY_STORE, alice, alice, bob), ZERO_ADDRESS, alice, 7);
  }

  // ----- proposals -----

  const CANCELED_AFTER_QUEUEING := [
    ProposalCreated(1, ZERO_ADDRESS, 10, 20, 30, 0), ProposalQueued(1, 1000), ProposalCanceled(1)]

  /** A queued proposal that is cancelled stays counted as queued. */
  lemma CanceledStaysCounted()
    ensures U.RunFits(EMPTY_STORE, 0, CANCELED_AFTER_QUEUEING)
    ensures !Q.QueuedStatusOk(U.Run(EMPTY_STORE, 0, CANCELED_AFTER_QUEUEING).0)
  {
    var events := CANCELED_AFTER_QUEUEING;
    var s1 := U.Apply(EMPTY_STORE, events[0]);
    var s2 := U.Apply(s1, events[1]);
    ThreeEvents(EMPTY_STORE, 0, events[0], events[1], events[2]);
    assert Q.StatusQueued(s2) == {1};
    Q.EndingKeepsQueuedStatusIff(s2, 1, CANCELLED);
  }

  lemma OneEvent(s: State, now: nat, e: Event, rest: seq<Event>)
    requires U.Fits(s, now, e) && U.RunFits(U.Apply(s, e), U.BlockAfter(now, e), rest)
    ensures U.RunFits(s, now, [e] + rest)
    ensures U.Run(s, now, [e] + rest) == U.Run(U.Apply(s, e), U.BlockAfter(now, e), rest)
  {
    assert ([e] + rest)[1..] == rest;
    hide U.Apply, U.BlockAfter, U.CanApply;
  }

  lemma ThreeEvents(s: State, now: nat, a: Event, b: Event, c: Event)
    requires U.Fits(s, now, a)
    requires var s1, now1 := U.Apply(s, a), U.BlockAfter(now, a);
      && U.Fits(s1, now1, b) && U.Fits(U.Apply(s1, b), U.BlockAfter(now1, b), c)
    ensures U.RunFits(s, now, [a, b, c])
    ensures U.Run(s, now, [a, b, c]).0 == U.Apply(U.Apply(U.Apply(s, a), b), c)
  {
    hide U.Apply, U.BlockAfter, U.CanApply;
    var s1, now1 := U.Apply(s, a), U.BlockAfter(now, a);
    OneEvent(U.Apply(s1, b), U.BlockAfter(now1, b), c, []);
    OneEvent(s1, now1, b, [c]);
    OneEvent(s, now, a, [b, c]);
    assert [c] + [] == [c] && [b] + [c] == [b, c] && [a] + [b, c] == [a, b, c];
  }

  /** Long after its voting period, the first abstention turns a proposal shown as ACTIVE into a DEFEATED one. */
  lemma LateAbstentionDefeats(voter: Address, votes: nat)
    ensures var s := U.Apply(EMPTY_STORE, ProposalCreated(1, ZERO_ADDRESS, 10, 20, 30, 0));
      && U.Fits(s, 10, VoteCast(voter, 1, 2, votes, "", 31))
      && W.GetProposalState(Some(31), None, s.proposals[1]) == W.ACTIVE
      && W.GetProposalState(Some(31), None, U.Apply(s, VoteCast(voter, 1, 2, votes, "", 31)).proposals[1]) == W.DEFEATED
  {
  }

  // ----- the image codec -----

  /** A picture of one visible pixel is printed as one run, and no run is recorded. */
  lemma OnePixelHasNoTuples(c: I.Rgba, p: Palettes.Palette)
    requires c.a != 0
    ensures var img := C.OnePixel(c);
      C.R.AllButLast(C.R.Runs(I.Indexes(img, p))) != C.R.Runs(I.Indexes(img, p))
  {
    assert C.OnePixel(c).Visible(0, 0);
    I.TuplesAreRunsIffBlank(C.OnePixel(c), p);
  }

  /** A picture one pixel too wide for its bound's byte is not read back. */
  lemma TooWidePictureIsNotReadBack()
    ensures var img := I.PngImage(256, 1, (x, y) => I.Rgba(255, 0, 0, 255));
      forall p :: S.DecodeImage(I.Encoded(img, p)) != C.AsDecoded(I.BoundsOf(img), C.R.Runs(I.Indexes(img, p)))
  {
    var img := I.PngImage(256, 1, (x, y) => I.Rgba(255, 0, 0, 255));
    assert img.Visible(255, 0);
    I.BoundsAreVisibleBox(img);
    forall p ensures S.DecodeImage(I.Encoded(img, p)) != C.AsDecoded(I.BoundsOf(img), C.R.Runs(I.Indexes(img, p))) {
      hide I.BoundsOf, I.Indexes, I.Encoded, S.DecodeImage;
      C.DecodeInvertsEncode(img, p);
    }
  }

  const MALFORMED := "0x0000010000zz01"

  /** A run length that is not a number keeps the painter's inner loop running forever. */
  lemma MalformedRunNeverEnds()
    ensures var d := S.DecodeImage(MALFORMED);
      && !S.Halts(d)
      && forall n :: N.Guard(d.bounds, N.Iterate(d.bounds, d.bounds.left, d.rects[0].length, n))
  {
    MalformedDecodes();
    var d := S.DecodeImage(MALFORMED);
    hide S.DecodeImage;
    forall n: nat ensures N.Guard(d.bounds, N.Iterate(d.bounds, d.bounds.left, d.rects[0].length, n)) {
      N.NaNRunsOn(d.bounds, d.bounds.left, n);
    }
  }

  lemma MalformedDecodes()
    ensures var d := S.DecodeImage(MALFORMED);
      && d.bounds == S.Bounds(Val(0), Val(1), Val(0), Val(0))
      && |d.rects| == 1 && d.rects[0].length == NaN
  {
    hide I.Header, ParseInt16, S.Substring, S.Chunks, S.ParseDraws, S.DropPrefix0x;
    MalformedData();
    C.HeaderReadsBack(I.ImageBounds(0, 1, 0, 0), "zz01");
    RunNotANumber();
  }

  lemma MalformedData()
    ensures S.DropPrefix0x(MALFORMED) == I.Header(I.ImageBounds(0, 1, 0, 0)) + "zz01"
  {
    var data := "0000010000zz01";
    assert ToPaddedHex(0) == "00" && ToPaddedHex(1) == "01";
    hide ToPaddedHex;
    assert I.Header(I.ImageBounds(0, 1, 0, 0)) == "0000010000";
    assert S.DropPrefix0x(MALFORMED) == data;
  }

  lemma RunNotANumber()
    ensures |S.ParseDraws(S.Chunks("zz01"))| == 1 && S.ParseDraws(S.Chunks("zz01"))[0].length == NaN
  {
    var run := "zz01";
    assert run[1..] == "z01" && "z01"[1..] == "01" && "01"[1..] == "1";
    assert S.MatchLength("1", 1) == 1;
    assert S.MatchLength("01", 2) == 2;
    assert S.MatchLength("z01", 3) == 3;
    assert run[..4] == run && run[4..] == [];
    assert S.Chunks(run) == [run] + S.Chunks([]);
    assert S.Substring(run, 0, 2) == "zz";
    assert TrimStart("zz") == "zz";
    assert ParseInt16("zz") == NaN;
    assert [run][1..] == [];
  }

  /** A seed palette that does not start with "transparent" gives its first colour the index of "transparent". */
  lemma SeedWithoutTransparent()
    ensures !Palettes.Ordered(P.Seeded(["ff0000"])) && !C.Usable(P.Seeded(["ff0000"]))
  {
    P.SeededOnce(["ff0000"]);
    hide P.Seeded;
    assert IsColorText("ff0000");
    assert !C.UsableColor(P.Seeded(["ff0000"]), "ff0000");
    assert !P.GoodSeed(["ff0000"]);
    P.SeedIsOrderedIffGood(["ff0000"]);
  }

  /** A seed that repeats what is no colour: indexes and places disagree, yet every picture is drawn as it is. */
  lemma RepeatedNoColorIsHarmless()
    ensures !Palettes.Ordered(P.Seeded(["", "zz", "zz"])) && C.Usable(P.Seeded(["", "zz", "zz"]))
  {
    var p := P.Seeded(["", "zz", "zz"]);
    RepeatedSeed("zz");
    hide P.Seeded;
    assert p.values["zz"] == 2;
    forall text | IsColorText(text) ensures C.UsableColor(p, text) {
      assert text !in p.values;
    }
  }

  lemma RepeatedSeed(c: string)
    requires c != ""
    ensures P.Seeded(["", c, c]) == JsMaps.JsMap(["", c], map["" := 0, c := 2])
  {
    var one, two, three := [""], ["", c], ["", c, c];
    assert two[..1] == one && three[..2] == two;
    P.SeededOnce(one);
    P.SeededStep(two);
    P.SeededStep(three);
    hide P.Seeded;
    assert P.Seeded(two) == JsMaps.JsMap(two, map["" := 0, c := 1]);
  }

  // ----- seeds from a hash -----

  /** Hash 0 defines no trait at all. */
  lemma ZeroHashHasNoParts(counts: Z.PartCounts)
    requires counts.AllPositive()
    ensures Z.GetNounSeed(0, counts) == Z.NounSeed(None, None, None, None, None)
  {
    forall shift: nat ensures Z.ShiftRight(0, shift) == 0 {
    }
    Z.PartIsWindow(0, counts.backgrounds, 0);
    Z.PartIsWindow(0, counts.bodies, 48);
    Z.PartIsWindow(0, counts.accessories, 192);
    Z.PartIsWindow(0, counts.heads, 144);
    Z.PartIsWindow(0, counts.glasses, 192);
    hide Z.ShiftRight, Z.GetPseudorandomPart;
  }

  // ----- the auction -----

  /** Two greatest bids of different senders: whoever is heard first is shown. */
  lemma EqualBidsDependOnOrder()
    ensures var a, b := A.BidEvent(1, "alice", 5, false, "0x01", 0), A.BidEvent(1, "bob", 5, false, "0x02", 0);
      A.OrderMatters(1, 0, 0, [a, b])
  {
    var a, b := A.BidEvent(1, "alice", 5, false, "0x01", 0), A.BidEvent(1, "bob", 5, false, "0x02", 0);
    assert a.transactionHash[3] == '1' && b.transactionHash[3] == '2';
    var bids := A.BidsOf([a, b], 1);
    assert a == [a, b][0] && b == [a, b][1];
    assert bids == {a, b};
    assert A.IsTop(a, bids) && A.IsTop(b, bids);
    assert a.sender[0] != b.sender[0];
    A.OrderMattersIffTopSendersDiffer(1, 0, 0, [a, b]);
  }

  /** An image listed only in a folder called `root` is lost as soon as another image is in no folder. */
  lemma RootFolderIsOverwritten()
    ensures var images := JsMaps.JsMap(["a", "b"], map["a" := "0x01", "b" := "0x02"]);
      var folders := JsMaps.JsMap(["root"], map["root" := ["a"]]);
      F.Delivered(F.Formatted(images, folders, ["root"], false), "a") == 0
  {
    var images := JsMaps.JsMap(["a", "b"], map["a" := "0x01", "b" := "0x02"]);
    var folders := JsMaps.JsMap(["root"], map["root" := ["a"]]);
    assert "a"[0] != "b"[0];
    assert ["root"][..0] == [];
    assert "a" in folders.values["root"] && "b" !in folders.values["root"];
    assert F.FirstIn(["root"], folders.values, "a") == Some("root");
    assert F.FirstIn(["root"], folders.values, "b") == None;
    assert "b" in images.values;
    assert F.RootAssigned(images, ["root"], folders.values);
    assert images.WellFormed();
    assert F.Lists(["root"], folders);
    F.FormatDelivers(images, folders, ["root"], "a");
  }

  /** An image listed twice in a folder comes a second time without its data. */
  lemma ListedTwiceHasNoData()
    ensures var images := JsMaps.JsMap(["a"], map["a" := "0x01"]);
      var folders := JsMaps.JsMap(["f"], map["f" := ["a", "a"]]);
      !F.AllFoldersData(F.Formatted(images, folders, ["f"], false))
  {
    var images := JsMaps.JsMap(["a"], map["a" := "0x01"]);
    var folders := JsMaps.JsMap(["f"], map["f" := ["a", "a"]]);
    assert F.Lists(["f"], folders);
    assert "f"[0] != "root"[0];
    assert !F.ListsAfresh(["f"], folders.values, 0) by {
      var files := folders.values["f"];
      assert files[0] == files[1];
    }
    F.FormatDataIff(images, folders, ["f"]);
  }
}
