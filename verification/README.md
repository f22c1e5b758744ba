# Verification of the Nouns image codec, subgraph ledger and bots

This project models the parts of the repository whose correctness is not visible from one function at a time, and
proves properties of the models with Dafny. Check it with `dafny verify dfyconfig.toml`.

## What is modelled

**The image codec** (`Hex`, `JsMaps`, `Palettes`, `Rle`, `Images`, `SvgBuilder`, `Painting`, `Codec`, `PngFolders`,
`PngCollections`). `Image` crops a picture to its visible box, maps pixels to indexes of a growing palette and
run-length encodes them across row ends into hexadecimal text. `SvgBuilder` parses that text, including text nobody
encoded, with JavaScript's `parseInt` and NaN arithmetic, and paints rectangles with a cursor that cuts runs at the
right bound. `Painting` says what the rectangles show at each pixel. `Codec` proves that the whole chain is lossless
and canonical; `PngCollections` extends this to any sequence of calls sharing one palette.

**The subgraph** (`Entities`, `Sums`, `LedgerSpec`, `Ledger`, `DelegatedVotes`, `DelegateCount`, `ProposalSpec`,
`Proposals`, `DynamicQuorum`, `Subgraph`, `SubgraphRuns`, `SubgraphHistory`, `ProposalHistory`). `Subgraph.Store` holds
The Graph's entities as maps of values, because `load` copies and `save` writes a whole entity back; its methods are the
event handlers, with their early copies and late saves. Each handler is proved equal to a function on the store.
Theorems about these functions say exactly which events keep the redundant views in agreement, and `SubgraphRuns`
combines them over whole runs. `SubgraphHistory` and `ProposalHistory` say what the fields are after a run, in terms of
the list of events alone. `ProposalStates` is the web app's reading of a proposal's state.

**Smaller state machines**: the bot's notification caches (`AuctionBot`, `GovernanceBot`), the current auction
(`AuctionSlice`), the log cache and its keys (`LogKeys`, `Logs`), and the seeds cut from a hash (`Seeds`).

Event conditions are those of the contracts as the handlers rely on them. For token transfers this is the `Transfer`
event in the "Specification" section of EIP-721: from the zero address on minting, to the zero address on burning.

## Where the code does not keep a promise

Each of these has a theorem saying exactly when the promise is kept, and an input in `Counterexamples` on which it is
not (for log keys, `LogKeys.TopiclessFilterDoesNotRoundTrip` names the whole failing family).

- A run length that is not a number keeps `buildSVG` in its inner loop for ever (`Painting.InnerLoopEnds`,
  `MalformedRunNeverEnds`).
- Bounds or indexes above 255 are not read back (`Codec.DecodeInvertsEncode`, `TooWidePictureIsNotReadBack`).
- A seed palette that does not leave every colour at the place of its index, as most that do not start with
  "transparent", loses colours (`Codec.LosslessIff`, `PngCollections.SeedIsLosslessIff`, `SeedWithoutTransparent`).
- A folder called `root` is overwritten when other images are in no folder (`PngFolders.FormatDelivers`,
  `RootFolderIsOverwritten`).
- An image listed in folders twice comes a second time without its data (`PngFolders.FormatDataIff`,
  `ListedTwiceHasNoData`).
- A transfer to oneself, a delegation to the current delegate, and a delegation made before the first token arrives
  break the lists of owned or represented tokens (`Ledger.TransferKeepsLedgerIffFits`,
  `Ledger.DelegationKeepsLedgerIffFits`, `SelfTransferBreaksLedger`, `SameDelegateBreaksLedger`,
  `EarlyDelegationBreaksLedger`).
- `totalDelegates` is documented as the number of delegates; late saves of an early copy undo increments
  (`DelegateCount.TransferIsCountedIffKnown`, `DelegateCount.VotesChangeIsCountedIffKnown`, `FirstMintLosesDelegate`).
- `proposalsQueued` is not the number of proposals with status QUEUED once a queued one is cancelled or vetoed
  (`SubgraphRuns.EventKeepsQueuedStatusIff`, `SubgraphRuns.RunCountsQueuedIff`, `CanceledStaysCounted`). It counts
  those with an execution time (`Proposals.QueueingKeepsCountersIff`).
- A proposal created before its start block on which nobody votes is never shown with an outcome, and then even an
  abstention changes the state shown (`ProposalStates.OutcomeIsShownIff`, `ProposalStates.AbstainingKeepsStateIff`,
  `LateAbstentionDefeats`).
- `Image.tuples` lacks the final run (`Images.TuplesAreRunsIffBlank`, `OnePixelHasNoTuples`).
- The key of a log filter without topics is not read back, so its results never reach the entry that asked
  (`LogKeys.KeyRoundTripsIff`, `Logs.ResultsReachAskerIff`).
- Of two equal greatest bids the one heard first is shown (`AuctionSlice.OrderMattersIffTopSendersDiffer`,
  `EqualBidsDependOnOrder`).
- A 48-bit window is undefined if the shifted hash is below 2^40 (`Seeds.PartIsWindow`, `ZeroHashHasNoParts`).

## Model

| member | source | states |
|---|---|---|
| `Codec.Lossless` | packages/nouns-sdk/src/image/image.ts:36-65 | With a palette in which colours have their own places, for every picture that fits the byte fields: decoding its text and painting it with the palette left behind (or any longer one) covers each visible pixel exactly once, with a fill whose three pairs of digits read as its red, green and blue, and no other pixel, blank pictures included |
| `Codec.LosslessIff` | packages/nouns-sdk/src/image/image.ts:36-65 | Exactly those palettes are lossless for all pictures that fit: every colour named with an index of at most 255 stands at that place, which is not the first |
| `Codec.DecodeInvertsEncode` | packages/nouns-sdk/src/image/svg-builder.ts:7-27 | Decoding the encoded text gives the box and the runs back if and only if all bounds and all indexes used are at most 255 |
| `Codec.TextRoundTrip` | packages/nouns-sdk/src/image/svg-builder.ts:7-27 | The same for any bounds and any runs of length 1 to 255, whether or not an image produced them |
| `Codec.TextLayout` | packages/nouns-sdk/src/image/image.ts:56-64 | Where everything stands in the text of a picture that fits: "0x", a byte 0, top, right, bottom and left, then a length and an index for each run |
| `Codec.SmallPicturesFit` | packages/nouns-sdk/src/image/image.ts:4-9 | With a palette whose i-th colour has index i, pictures up to 255 by 256 pixels that leave at most 256 palette entries always fit |
| `Codec.EncodingIsCanonical` | packages/nouns-sdk/src/image/image.ts:36-65 | With a usable palette that already holds every visible colour, two pictures that fit the byte fields get equal texts if and only if their visible pixels and colours coincide (a blank picture with no rows at all being told from one with rows) |
| `Codec.ComposedPicture` | packages/nouns-sdk/src/image/svg-builder.ts:44-87 | Drawing any list of encoded pictures shows, at every pixel, the red, green and blue of the last one visible there, else the background |
| `Rle.RunsAreOptimal` | packages/nouns-sdk/src/image/image.ts:71-91 | No list of runs of length 1 to 255 that expands to the same indexes is shorter than the encoder's |
| `Rle.RunsExpand` | packages/nouns-sdk/src/image/image.ts:71-91 | The encoder's runs expand to exactly its input, and every run length fits a byte |
| `Rle.RunsAreGreedy` | packages/nouns-sdk/src/image/image.ts:71-91 | Neighbouring runs have one colour only after a run of 255 |
| `Images.BoundsAreVisibleBox` | packages/nouns-sdk/src/image/image.ts:93-120 | The computed bounds enclose all visible pixels and each side touches one; a blank picture gets the empty box |
| `Images.BoundsAreLeast` | packages/nouns-sdk/src/image/image.ts:93-120 | Every box that encloses all visible pixels contains the computed one |
| `Images.BoxIsReadInRows` | packages/nouns-sdk/src/image/image.ts:41-54 | The box is read row by row from left to right |
| `Images.PaletteIsReadInOrder` | packages/nouns-sdk/src/image/image.ts:43-48 | The palette afterwards is the one before, then the new colours of the box, transparent pixels included, each once, in the order read and with its place as index |
| `Images.Image.ToRLE` | packages/nouns-sdk/src/image/image.ts:36-65 | Text, palette, bounds and recorded tuples after encoding, from the picture and the palette before; a fresh image records all runs it prints only if the picture is blank |
| `Images.TuplesAreRunsIffBlank` | packages/nouns-sdk/src/image/image.ts:71-91 | The runs recorded are the runs printed if and only if no pixel is visible: the last run is never recorded |
| `Counterexamples.OnePixelHasNoTuples` | packages/nouns-sdk/src/image/image.ts:86-90 | Of a picture with one visible pixel one run is printed and none recorded |
| `Images.Image.Encode` | packages/nouns-sdk/src/image/image.ts:71-91 | The loop prints exactly the greedy runs of its input |
| `Images.Image.CalcBounds` | packages/nouns-sdk/src/image/image.ts:93-120 | The four scanning loops compute the visible box |
| `Images.Image.IsTransparentColumn` | packages/nouns-sdk/src/image/image.ts:122-129 | True exactly if the whole column has alpha 0 |
| `Images.Image.IsTransparentRow` | packages/nouns-sdk/src/image/image.ts:131-138 | True exactly if the whole row has alpha 0 |
| `Images.ScanStep` | packages/nouns-sdk/src/image/image.ts:43-52 | Inserting a colour changes no index taken before it |
| `Hex.ParsePrinted` | packages/nouns-sdk/src/image/utils.ts:6-8 | Parsing a printed number, padded or not, gives it back, for every integer |
| `Hex.TwoCharacters` | packages/nouns-sdk/src/image/utils.ts:6-8 | Exactly the integers from -15 to 255 are printed in two characters, none in fewer |
| `Hex.RgbToHexIff` | packages/nouns-sdk/src/image/utils.ts:16-18 | On byte channels a text is the colour text if and only if it has six lower-case digits whose pairs read as red, green and blue in this order |
| `Hex.DigitValues` | packages/nouns-sdk/src/image/svg-builder.ts:9-24 | The value of a hexadecimal digit, in either case, is its place in the alphabet of digits |
| `Hex.ParseIntReads` | packages/nouns-sdk/src/image/svg-builder.ts:9-24 | How `parseInt(_, 16)`, which the decoder applies to every field, reads any text: spaces, a sign, a prefix, digits of either case, and a rest that does not matter; without digits it is not a number |
| `SvgBuilder.BuildSVG` | packages/nouns-sdk/src/image/svg-builder.ts:44-87 | The nested loops emit the rectangles of all parts in order, over the background |
| `SvgBuilder.BuildPart` | packages/nouns-sdk/src/image/svg-builder.ts:49-82 | One part's rectangles, for any decoded text on which the loop ends |
| `SvgBuilder.BuildRun` | packages/nouns-sdk/src/image/svg-builder.ts:56-81 | One run cut at the right bound, and where the cursor is after it |
| `SvgBuilder.ChunksAreText` | packages/nouns-sdk/src/image/svg-builder.ts:18-22 | The chunks matched are all characters but line terminators, in order, one to four in each |
| `SvgBuilder.ChunksOfLine` | packages/nouns-sdk/src/image/svg-builder.ts:18-22 | Without line terminators the i-th chunk is the four characters from 4 i on, or what is left |
| `Painting.PartHits` | packages/nouns-sdk/src/image/svg-builder.ts:44-87 | Any decoded part paints each pixel of non-zero index exactly once, in that index's colour, and no other pixel |
| `Painting.ShownIsTopPart` | packages/nouns-sdk/src/image/svg-builder.ts:44-87 | For any decoded parts, a pixel shows the last part that is not transparent there, else the background |
| `Painting.DrawingIsSafe` | packages/nouns-sdk/src/image/svg-builder.ts:53-81 | Whatever text was decoded: rectangles lie in one row within [left, right), no two share a pixel, and their total width is that of the coloured runs; without columns there are none |
| `Painting.InnerLoopEnds` | packages/nouns-sdk/src/image/svg-builder.ts:62-80 | The inner loop ends if and only if the run length is a number or there is no column to draw in |
| `Counterexamples.MalformedRunNeverEnds` | packages/nouns-sdk/src/image/svg-builder.ts:62-80 | A text whose run length is not a number, on which the inner loop never ends |
| `Counterexamples.TooWidePictureIsNotReadBack` | packages/nouns-sdk/src/image/image.ts:56-64 | A picture 256 pixels wide is never read back |
| `PngCollections.CollectionDrawsFaithfully` | packages/nouns-sdk/src/image/png-collection-encoder.ts:40-51 | After any sequence of calls, drawing any selection of the results with the final palette shows at every pixel the red, green and blue of the last selected picture visible there, else the background |
| `PngCollections.EarlierEncodingsStayValid` | packages/nouns-sdk/src/image/png-collection-encoder.ts:40-51 | An encoding made by any call can be drawn with the palette after all calls, and no visible pixel has index 0 |
| `PngCollections.PalettesGrow` | packages/nouns-sdk/src/image/png-collection-encoder.ts:40-51 | The palette after any number of calls extends the palette at each of them at its end, and its i-th colour has index i |
| `PngCollections.SeedIsOrderedIffGood` | packages/nouns-sdk/src/image/png-collection-encoder.ts:15-18 | Exactly which seed palettes make colour places and indexes agree: the empty one, duplicate-free ones starting with "transparent", and those whose first colour is only repeated at once |
| `PngCollections.SeedIsLosslessIff` | packages/nouns-sdk/src/image/png-collection-encoder.ts:15-18 | Exactly which seed palettes are lossless: those that leave every colour at the place of its index, all the former included |
| `Counterexamples.RepeatedNoColorIsHarmless` | packages/nouns-sdk/src/image/png-collection-encoder.ts:15-18 | A seed that repeats a text that is no colour: places and indexes disagree, and every picture is still drawn as it is |
| `PngCollections.ReseedingRestores` | packages/nouns-sdk/src/image/png-collection-encoder.ts:30-32 | An encoder started from a saved palette has the same colour map |
| `Counterexamples.SeedWithoutTransparent` | packages/nouns-sdk/src/image/png-collection-encoder.ts:15-18 | A seed of one visible colour gives that colour the index of "transparent", and is not lossless |
| `PngCollections.PngCollectionEncoder.constructor` | packages/nouns-sdk/src/image/png-collection-encoder.ts:15-18 | A new encoder holds the seeded colour map and nothing else |
| `PngCollections.PngCollectionEncoder.EncodeImage` | packages/nouns-sdk/src/image/png-collection-encoder.ts:40-51 | The call is added to the history that determines all fields, and its text is returned, except that naming a folder after an inherited property of plain objects throws when palette and images are updated already |
| `PngCollections.PngCollectionEncoder.Data` | packages/nouns-sdk/src/image/png-collection-encoder.ts:30-32 | The saved palette and folders follow from the history of calls |
| `PngCollections.PngCollectionEncoder.Format` | packages/nouns-sdk/src/image/png-collection-encoder.ts:65-95 | The loops that move images from a shrinking map into folders compute the specified grouping |
| `PngCollections.LatestTextIsStored` | packages/nouns-sdk/src/image/png-collection-encoder.ts:44 | A name is stored with the text of the last call that used it |
| `PngCollections.ImagesInOrder` | packages/nouns-sdk/src/image/png-collection-encoder.ts:44 | The images are stored under the names of the calls, each once, in the order in which these first occur |
| `PngCollections.FoldersOfHistory` | packages/nouns-sdk/src/image/png-collection-encoder.ts:46-48 | A folder exists if and only if a call that does not throw named it; it lists the names of exactly these calls in their order, and folders come in the order in which they were first named |
| `PngCollections.DataOfHistory` | packages/nouns-sdk/src/image/png-collection-encoder.ts:30-32 | In the data of any history, each folder has the files of the calls that named it in their order, unless the images in no folder take the place of a folder called root |
| `PngFolders.FormatDelivers` | packages/nouns-sdk/src/image/png-collection-encoder.ts:65-95 | Each stored image is delivered exactly once with its data, the latest text, except, and only then, if its first folder is itself named root while other images are in no folder |
| `PngFolders.FormattedContents` | packages/nouns-sdk/src/image/png-collection-encoder.ts:65-95 | All folders delivered, with files and their order; which entries carry data (files stored and not listed before); the folder root last, or in place of one of that name, if and only if some image is in no folder |
| `PngFolders.FlattenedContents` | packages/nouns-sdk/src/image/png-collection-encoder.ts:23-25 | Flattened, all images come in one folder root in their order, with their texts |
| `PngFolders.FormatDataIff` | packages/nouns-sdk/src/image/png-collection-encoder.ts:75-80 | All entries delivered carry data if and only if every folder that is not overwritten lists no image twice and none that an earlier folder lists |
| `PngFolders.ListedOnceIff` | packages/nouns-sdk/src/image/png-collection-encoder.ts:75-80 | Where no folder is overwritten: all entries carry data if and only if no name is listed twice across the folder lists |
| `PngCollections.CollectionDataIff` | packages/nouns-sdk/src/image/png-collection-encoder.ts:30-51 | Both statements for the images and folders that any history of calls leaves |
| `Counterexamples.ListedTwiceHasNoData` | packages/nouns-sdk/src/image/png-collection-encoder.ts:75-80 | An image listed twice in a folder comes a second time without data |
| `Counterexamples.RootFolderIsOverwritten` | packages/nouns-sdk/src/image/png-collection-encoder.ts:88-93 | An image listed only in a folder named root is lost |
| `Ledger.TransferKeepsLedgerIffFits` | packages/nouns-subgraph/src/nouns-erc-721.ts:100-213 | From a state in agreement, a transfer keeps ownership lists, balances, owners, represented lists and both token counters in agreement if and only if the sender owns the token (or it is new), is not the receiver, and a receiver without tokens has not delegated to somebody else |
| `Ledger.DelegationKeepsLedgerIffFits` | packages/nouns-subgraph/src/nouns-erc-721.ts:39-77 | A change of delegate keeps that agreement if and only if the delegator has no tokens, or the event names its current delegate and a different new one |
| `Ledger.RepresentationIsPartition` | packages/nouns-subgraph/src/nouns-erc-721.ts:39-61 | In agreement, every minted token is in exactly one represented list, once: that of its owner's delegate |
| `Ledger.BalancesSumToTokens` | packages/nouns-subgraph/src/nouns-erc-721.ts:185-192 | In agreement, all balances together are the number of tokens minted |
| `SubgraphHistory.AccountByEvents` | packages/nouns-subgraph/src/nouns-erc-721.ts:100-213 | After any run of events that can be processed: how often an account has ever received a token, its balance and its delegate, by the events |
| `SubgraphHistory.TokenByEvents` | packages/nouns-subgraph/src/nouns-erc-721.ts:12-34 | After any run: which tokens and seeds are stored, the owner of each token (its last receiver), and which token is linked to its seed |
| `SubgraphHistory.TokensInReceiptOrder` | packages/nouns-subgraph/src/nouns-erc-721.ts:185-192 | After any fitting run, an account lists its tokens in the order in which it received them |
| `SubgraphHistory.DelegateByEvents` | packages/nouns-subgraph/src/nouns-erc-721.ts:39-97 | After any run: a delegate has the votes last reported for it, and is said to represent as many holders as there were delegations to it less those away from it |
| `SubgraphHistory.TotalsByEvents` | packages/nouns-subgraph/src/nouns-erc-721.ts:107-113 | After any run, the supply counted is tokens minted less tokens burned, and both forms of the delegated votes are the same |
| `DelegatedVotes.VotesChangeKeepsTotalsIffFits` | packages/nouns-subgraph/src/nouns-erc-721.ts:79-97 | A change of votes keeps the global sum and the count of delegates with votes right if and only if the previous number is the stored one and the change is not from zero to zero |
| `DelegateCount.DelegationIsCounted` | packages/nouns-subgraph/src/utils/helpers.ts:53-57 | A change of delegate counts every delegate it creates |
| `DelegateCount.VotesChangeIsCountedIffKnown` | packages/nouns-subgraph/src/nouns-erc-721.ts:79-97 | A change of votes loses the count of delegates exactly when it creates one |
| `DelegateCount.TransferIsCountedIffKnown` | packages/nouns-subgraph/src/nouns-erc-721.ts:179-199 | A fitting transfer loses the count of delegates exactly when the receiver's delegate is new |
| `Counterexamples.FirstMintLosesDelegate` | packages/nouns-subgraph/src/nouns-erc-721.ts:179-199 | The first token minted creates a delegate that is not counted in the end |
| `Counterexamples.SelfTransferBreaksLedger` | packages/nouns-subgraph/src/nouns-erc-721.ts:101-102 | A transfer to oneself breaks the agreement |
| `Counterexamples.SameDelegateBreaksLedger` | packages/nouns-subgraph/src/nouns-erc-721.ts:41-61 | Delegating again to the current delegate breaks it |
| `Counterexamples.EarlyDelegationBreaksLedger` | packages/nouns-subgraph/src/nouns-erc-721.ts:179-202 | A delegation made without tokens breaks it when the first token arrives |
| `Subgraph.Store.HandleTransfer` | packages/nouns-subgraph/src/nouns-erc-721.ts:100-213 | The handler with its early copies and late saves has exactly the specified effect, sender and receiver being the same or not |
| `Subgraph.Store.SendFrom` | packages/nouns-subgraph/src/nouns-erc-721.ts:121-156 | The sender's block, on the copies loaded at the start |
| `Subgraph.Store.ReceiveAt` | packages/nouns-subgraph/src/nouns-erc-721.ts:179-212 | The receiver's block, on the copies loaded at the start, and the token's owner |
| `Subgraph.Store.HandleDelegateChanged` | packages/nouns-subgraph/src/nouns-erc-721.ts:39-61 | The whole store after a change of delegate; of two copies of the same delegate the second save wins |
| `Subgraph.Store.HandleDelegateVotesChanged` | packages/nouns-subgraph/src/nouns-erc-721.ts:79-97 | The whole store after a change of votes, the early governance copy overwriting what was saved in between |
| `Subgraph.Store.HandleNounCreated` | packages/nouns-subgraph/src/nouns-erc-721.ts:12-34 | The seed is stored, and linked if the token is known |
| `Subgraph.Store.GetOrCreateAccount` | packages/nouns-subgraph/src/utils/helpers.ts:12-33 | Loads the account or stores a new empty one |
| `Subgraph.Store.GetOrCreateDelegate` | packages/nouns-subgraph/src/utils/helpers.ts:37-63 | Loads the delegate or stores a new one, counting it unless it is the zero address |
| `Subgraph.Store.GetGovernanceEntity` | packages/nouns-subgraph/src/utils/helpers.ts:106-122 | Loads the totals, or zeros without storing them |
| `Subgraph.Store.GetOrCreateDynamicQuorumParams` | packages/nouns-subgraph/src/utils/helpers.ts:124-144 | Loads or stores the parameters, setting the start block once |
| `Proposals.VoteKeepsTalliesIffFirst` | packages/nouns-subgraph/src/nouns-dao.ts:162-183 | A vote keeps every tally equal to the sum over the stored votes if and only if the voter has no counted vote on the proposal yet |
| `Proposals.CreationKeepsTalliesIffFresh` | packages/nouns-subgraph/src/nouns-dao.ts:83-85 | Creating a proposal keeps the tallies right if and only if its id has no counted votes |
| `Proposals.QueueingKeepsCountersIff` | packages/nouns-subgraph/src/nouns-dao.ts:117-127 | Queueing keeps the queue counter equal to the proposals with an execution time if and only if the proposal had none |
| `Proposals.ExecutingKeepsCountersIff` | packages/nouns-subgraph/src/nouns-dao.ts:129-139 | Executing keeps that counter right if and only if the proposal had an execution time |
| `Proposals.EndingKeepsQueuedStatusIff` | packages/nouns-subgraph/src/nouns-dao.ts:103-115 | Cancelling or vetoing keeps the queue counter equal to the proposals with status QUEUED if and only if the proposal was not QUEUED |
| `Proposals.QueueingKeepsQueuedStatusIff` | packages/nouns-subgraph/src/nouns-dao.ts:117-127 | Queueing does if and only if the proposal was not QUEUED |
| `Proposals.ExecutingKeepsQueuedStatusIff` | packages/nouns-subgraph/src/nouns-dao.ts:129-139 | Executing does if and only if the proposal was QUEUED |
| `SubgraphRuns.EventKeepsQueuedStatusIff` | packages/nouns-subgraph/src/nouns-dao.ts:55-222 | For every kind of event, exactly when it keeps the queue counter equal to the proposals with status QUEUED; votes always do, and a creation unless it replaces a QUEUED proposal |
| `SubgraphRuns.RunCountsQueuedIff` | packages/nouns-subgraph/src/nouns-dao.ts:103-139 | After any run of fitting events from the empty store, the queue counter is the number of QUEUED proposals if and only if every proposal with an execution time is QUEUED |
| `Counterexamples.CanceledStaysCounted` | packages/nouns-subgraph/src/nouns-dao.ts:103-108 | Creating, queueing and cancelling a proposal is a fitting run after which the counter is wrong |
| `Proposals.VoteKeepsQuorums` | packages/nouns-subgraph/src/nouns-dao.ts:185-198 | After any vote, every dynamic proposal voted on has the quorum of its own snapshot and its votes against |
| `SubgraphRuns.RunKeepsAll` | packages/nouns-subgraph/src/nouns-erc-721.ts:36-213 | Any run of fitting events of all thirteen kinds keeps the token ledger, the delegated votes, the tallies, the counters, the statuses and the quorums all in agreement |
| `SubgraphRuns.RunKeepsProposal` | packages/nouns-subgraph/src/nouns-dao.ts:90-98 | Over any such run, a proposal keeps its snapshot and whether it uses dynamic quorum, whatever the parameters become |
| `SubgraphHistory.ParamsByEvents` | packages/nouns-subgraph/src/nouns-dao.ts:206-222 | After any run, the quorum parameters are those last set, or 0, and the start block is that of the first setting |
| `SubgraphHistory.VoteByEvents` | packages/nouns-subgraph/src/nouns-dao.ts:141-174 | After any run, exactly the votes cast are stored, each as last cast, with the last reason given and the tokens its voter represented at that moment |
| `ProposalHistory.ProposalByEvents` | packages/nouns-subgraph/src/nouns-dao.ts:55-139 | After any run, a proposal has the proposer and blocks of its creation, the supply and parameters as the events before its creation left them, the votes since, and the status and time of how it was last ended |
| `ProposalHistory.QuorumByEvents` | packages/nouns-subgraph/src/nouns-dao.ts:185-198 | After any fitting run, the quorum is the formula on supply and parameters at creation and votes against since, once a proposal created after the first setting is voted on, and the number its creation gave otherwise |
| `ProposalHistory.TallyByEvents` | packages/nouns-subgraph/src/nouns-dao.ts:162-183 | After any fitting run, the stored votes for and against sum up to the votes cast since the creation |
| `SubgraphRuns.SnapshotIsSupply` | packages/nouns-subgraph/src/nouns-dao.ts:92-93 | The supply a proposal is created with is the number of tokens minted and not burned |
| `SubgraphRuns.EmptyStoreOk` | packages/nouns-subgraph/src/utils/helpers.ts:106-122 | The empty store is in agreement |
| `Subgraph.Store.HandleProposalCreated` | packages/nouns-subgraph/src/nouns-dao.ts:55-101 | The whole store after a proposal is created |
| `Subgraph.Store.HandleProposalCanceled` | packages/nouns-subgraph/src/nouns-dao.ts:103-108 | The status, and nothing else |
| `Subgraph.Store.HandleProposalVetoed` | packages/nouns-subgraph/src/nouns-dao.ts:110-115 | The status, and nothing else |
| `Subgraph.Store.HandleProposalQueued` | packages/nouns-subgraph/src/nouns-dao.ts:117-127 | Status, execution time and queue counter |
| `Subgraph.Store.HandleProposalExecuted` | packages/nouns-subgraph/src/nouns-dao.ts:129-139 | Status, execution time and queue counter |
| `Subgraph.Store.HandleVoteCast` | packages/nouns-subgraph/src/nouns-dao.ts:141-204 | The whole store after a vote: the vote, the tallies, the quorum and the status |
| `Subgraph.Store.HandleMinQuorumVotesBPSSet` | packages/nouns-subgraph/src/nouns-dao.ts:206-210 | The parameter, and the start block if unset |
| `Subgraph.Store.HandleMaxQuorumVotesBPSSet` | packages/nouns-subgraph/src/nouns-dao.ts:212-216 | The parameter, and the start block if unset |
| `Subgraph.Store.HandleQuorumCoefficientSet` | packages/nouns-subgraph/src/nouns-dao.ts:218-222 | The parameter, and the start block if unset |
| `DynamicQuorum.Monotone` | packages/nouns-subgraph/src/utils/dynamicQuorum.ts:4-19 | More votes against never lower the quorum |
| `DynamicQuorum.Bounded` | packages/nouns-subgraph/src/utils/dynamicQuorum.ts:4-19 | The quorum stays between the floors of the minimum and maximum share of the supply |
| `DynamicQuorum.QuorumIsThreeFloors` | packages/nouns-subgraph/src/utils/dynamicQuorum.ts:11-18 | A number is the quorum if and only if it is reached by three whole parts: of the votes against in basis points of the supply, of the coefficient in millionths of these, and of the capped share of the supply |
| `DynamicQuorum.RoundingError` | packages/nouns-subgraph/src/utils/dynamicQuorum.ts:11-18 | The three nested floors lose less than supply * (1 + coefficient / 10^6) / 10000 + 1 votes against the exact quorum, and gain none |
| `DynamicQuorum.CastIsSafe` | packages/nouns-subgraph/src/utils/dynamicQuorum.ts:16 | The cast to a 32-bit integer is exact if votes against are at most the supply, the minimum at most 10000 and the coefficient below 2^32 |
| `ProposalStates.AgainstVoteNeverRescues` | packages/nouns-webapp/src/wrappers/nounsDao.ts:350-364 | One more vote against, through the vote handler, never turns a defeated proposal into a successful one, at the same or any later block and time |
| `ProposalStates.ForVoteNeverSinks` | packages/nouns-webapp/src/wrappers/nounsDao.ts:350-364 | One more vote in favour never turns a successful proposal into a defeated one, at the same or any later block and time |
| `ProposalStates.AbstainingKeepsStateIff` | packages/nouns-webapp/src/wrappers/nounsDao.ts:342-364 | A vote of any other kind leaves the state shown as it is if and only if the proposal is not pending, or no block is known, or the block is within the voting period |
| `ProposalStates.OutcomeIsShownIff` | packages/nouns-webapp/src/wrappers/nounsDao.ts:342-364 | A proposal is shown as defeated or successful if and only if voting is over, nothing ended or queued it, and somebody voted or it was created within its voting period; otherwise one created before its start is shown as active for ever |
| `ProposalHistory.OpenShownByEvents` | packages/nouns-webapp/src/wrappers/nounsDao.ts:335-364 | After any fitting run, the state shown of a proposal nobody ended; when voting is over it is SUCCEEDED if and only if the stored votes in favour exceed those against and reach the quorum of the events, else DEFEATED |
| `ProposalHistory.EndedShownByEvents` | packages/nouns-webapp/src/wrappers/nounsDao.ts:366-377 | After any fitting run, the state shown of a proposal that was ended: how it was last ended, a queued one being EXPIRED from 14 days after its time on |
| `Counterexamples.LateAbstentionDefeats` | packages/nouns-subgraph/src/nouns-dao.ts:199-202 | Long after the voting period, the first abstention turns an active proposal into a defeated one |
| `AuctionBot.NoticesIncrease` | packages/nouns-bots/src/index.ts:39-84 | With auction ids that never go back, any run with restarts and with crashes between cache write and notice announces new and ending auctions for strictly increasing ids |
| `AuctionBot.EveryAuctionIsAnnounced` | packages/nouns-bots/src/index.ts:48-84 | Without crashes, and with ids that never go back: an auction is announced as new if and only if it was seen and is later than the one seeded, and as ending soon if and only if it was seen with less than 20 minutes to go |
| `AuctionBot.BidChangesAreAnnounced` | packages/nouns-bots/src/index.ts:67-71 | Without crashes, exactly the changes of the greatest bid seen are announced, in their order, each with its auction |
| `AuctionBot.RestartIsHarmlessIff` | packages/nouns-bots/src/index.ts:39-43 | After a restart no ticks, whatever they see and wherever they stop, announce an auction again or out of order, if and only if no announced auction is later than the id seeded |
| `AuctionBot.Bot.ProcessAuctionTick` | packages/nouns-bots/src/index.ts:48-84 | A tick stopped after any number of operations: caches and notices |
| `GovernanceBot.LaterVotesAreAnnouncedOnce` | packages/nouns-bots/src/index.ts:94-128 | Without crashes, over any run of ticks in which votes persist, each vote of positive weight that appears after the cached copy is announced exactly once, and no other |
| `GovernanceBot.AnnouncedOnceFromStartUp` | packages/nouns-bots/src/index.ts:89-126 | From start-up over any ticks: a proposal is announced as new exactly once if it was not listed at start-up and is ever seen, else never; it is warned about exactly once if it was ever seen at risk of expiry after it was known, else never |
| `GovernanceBot.StatusChangesAreAnnounced` | packages/nouns-bots/src/index.ts:100-112 | From start-up over any ticks, a status is announced exactly as often as the proposal is seen with it and had another before |
| `GovernanceBot.Bot.ProcessGovernanceTick` | packages/nouns-bots/src/index.ts:94-128 | Cache, warnings and notices after a tick over any list of proposals |
| `GovernanceBot.Bot.SetupGovernance` | packages/nouns-bots/src/index.ts:89-92 | The cache is filled without any notice |
| `GovernanceBot.ExtractedCount` | packages/nouns-bots/src/utils/proposals.ts:46-51 | Of distinct votes, exactly those with a new id and positive weight are extracted, once each |
| `AuctionSlice.OrderMattersIffTopSendersDiffer` | packages/nouns-webapp/src/state/slices/auction.ts:48-86 | The order in which bid events arrive changes the auction shown if and only if two greatest bids come from different senders |
| `AuctionSlice.BidOrderDoesNotMatter` | packages/nouns-webapp/src/state/slices/auction.ts:48-86 | Otherwise any order, repetition and mixing with other auctions' bids ends with the same bids, amount and bidder |
| `AuctionSlice.BidsAreStoredOnce` | packages/nouns-webapp/src/state/slices/auction.ts:78-86 | Whatever arrived, exactly the auction's own bids are stored, each once, and their maximum is shown |
| `AuctionSlice.AuctionKeepsTimes` | packages/nouns-webapp/src/state/slices/auction.ts:23-30 | Whatever bids arrive, the auction keeps its id and times and is not settled, and shows the greatest bid stored, or nobody's |
| `AuctionSlice.Slice.AppendBid` | packages/nouns-webapp/src/state/slices/auction.ts:78-86 | The reducer ignores other auctions and known transactions and recomputes the maximum |
| `AuctionSlice.Slice.SetActiveAuction` | packages/nouns-webapp/src/state/slices/auction.ts:69-73 | A fresh auction without bids |
| `AuctionSlice.Slice.FindMaxBid` | packages/nouns-webapp/src/state/slices/auction.ts:48-52 | The reduction keeps the bid furthest back among equals |
| `Counterexamples.EqualBidsDependOnOrder` | packages/nouns-webapp/src/state/slices/auction.ts:48-52 | Two equal bids of different senders depend on their order |
| `LogKeys.KeyRoundTripsIff` | packages/nouns-webapp/src/utils/logParsing.ts:17-42 | A key is read back as itself if and only if it has exactly one colon and no empty segment after it |
| `LogKeys.PlainFilterRoundTrips` | packages/nouns-webapp/src/utils/logParsing.ts:17-42 | Keys of filters with at least one topic and no separator characters are read back as themselves |
| `LogKeys.FilterReadsBack` | packages/nouns-webapp/src/utils/logParsing.ts:17-42 | Such a key is read back as the filter, topic by topic and alternative by alternative, a missing topic as the character written for it |
| `LogKeys.KeyExample` | packages/nouns-webapp/src/utils/logParsing.ts:17-23 | What the key of a filter with a topic, a missing one and two alternatives looks like |
| `LogKeys.TopiclessFilterDoesNotRoundTrip` | packages/nouns-webapp/src/utils/logParsing.ts:17-42 | Keys of filters without topics never are |
| `Logs.ResultsReachAskerIff` | packages/nouns-webapp/src/state/updaters/logs.ts:20-34 | Results fetched for the filter read from a key reach the entry that asked if and only if the key is read back as itself |
| `Logs.ResultsNeverGoBack` | packages/nouns-webapp/src/state/slices/logs.ts:46-75 | Over any actions, an entry stays and its stored block number never decreases |
| `Logs.EntryByActions` | packages/nouns-webapp/src/state/slices/logs.ts:22-81 | After any actions an entry exists if it was asked for, with the listeners added less those removed, the block last said to be fetched, and the results for the latest block |
| `Logs.FetchedIff` | packages/nouns-webapp/src/state/updaters/logs.ts:20-36 | After any actions, exactly when logs are fetched for an entry and a block |
| `Logs.RangesCover` | packages/nouns-webapp/src/state/updaters/logs.ts:42-51 | Every block from the start to the head is fetched, twice exactly at positive multiples of the range size from the start, and no other block is |
| `Logs.BlockRanges` | packages/nouns-webapp/src/state/updaters/logs.ts:42-51 | The loop computes these ranges |
| `Logs.LogsSlice.AddListener` | packages/nouns-webapp/src/state/slices/logs.ts:26-33 | A new entry with one listener, or one listener more |
| `Logs.LogsSlice.FetchingLogs` | packages/nouns-webapp/src/state/slices/logs.ts:34-45 | The block is noted on every known entry |
| `Logs.LogsSlice.FetchedLogs` | packages/nouns-webapp/src/state/slices/logs.ts:46-60 | Results are stored unless newer ones are there |
| `Logs.LogsSlice.FetchedLogsError` | packages/nouns-webapp/src/state/slices/logs.ts:61-75 | Failures are stored unless newer results are there |
| `Logs.LogsSlice.RemoveListener` | packages/nouns-webapp/src/state/slices/logs.ts:76-80 | One listener fewer |
| `Seeds.CastDenotesIff` | packages/nouns-assets/src/utils.ts:46-53 | For every shift and window size: a window of n hex digits is defined if and only if n is positive and the padded text has n digits, that is, for n > 2, if the shifted number is at least 16^(n - 2), or 16^(n - 1) for odd n; it then denotes the number modulo 16^n |
| `Seeds.PartIsWindow` | packages/nouns-assets/src/utils.ts:62-70 | A trait index is defined if and only if the shifted hash is at least 2^40, and is then the 48-bit window modulo the number of parts |
| `Seeds.SeedIsDefinedIff` | packages/nouns-assets/src/utils.ts:77-86 | All trait indexes of a seed are defined if and only if the hash is at least 2^232, the last of them decides, and all are then within their arrays |
| `Seeds.SeedWindows` | packages/nouns-assets/src/utils.ts:77-86 | Which bits of the hash choose which trait; accessory and glasses share theirs |
| `Counterexamples.ZeroHashHasNoParts` | packages/nouns-assets/src/utils.ts:62-70 | Hash 0 defines no trait index |

## Left out

- Text of the SVG document: rectangles and the background's fill are records; the 320 by 320 view box is not applied.
- Characters: JavaScript's UTF-16 units are Dafny characters; characters outside the basic plane are not distinguished.
- SvgBuilder.BuildSVG: requires that no run length is NaN where there is a column to draw in, because the loop does not end otherwise (`Painting.InnerLoopEnds`).
- PNG reading, `writeToFile` and JSON: a picture is a size and a pixel function with byte channels.
- PngCollections.PngCollectionEncoder.Format: takes the enumeration order of folder names as a parameter and holds for every order; JavaScript puts integer-like names first.
- The Graph's runtime: saving or reading an entity whose required fields are unset aborts a handler; cancel, veto, queue, execute and vote handlers therefore take an existing proposal, and a vote on a dynamic proposal a positive supply.
- DynamicQuorum.DynamicQuorumVotes: takes the cast to a 32-bit integer as exact; `DynamicQuorum.CastIsSafe` says when it is.
- TransferEvent, DelegationEvent, Bid and Auction entities, and a proposal's title, description, targets and calldata: written but not read by the handlers modelled.
- Entity ids: tokens and proposals are numbers and a vote's id is a pair, where the store uses their decimal texts and a dash; addresses contain no dash.
- `tokenHoldersRepresentedAmount` is what the delegation events say (`SubgraphHistory.DelegateByEvents`); nothing is claimed about it as a number of holders, since automatic self-delegation never increments it.
- Bots: Redis is a record of caches, Discord and Twitter are the list of notices, ticks run one after the other, and the observations (subgraph answers, the clock) are parameters. Governance ticks are modelled without crashes.
- The other reducers of the auction slice, which assign single fields.
- React components, hooks, wallets, deployment and the Solidity contracts are not part of this model.
- Keccak hashing: the hash is a parameter of `Seeds.GetNounSeed`.
