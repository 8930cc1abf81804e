# Verified model of CraftOS-PC internals

This project models six parts of CraftOS-PC 2 in Dafny and proves what they are for.

- **The GIF writer** (`src/gif.cpp`). Palette construction by quickselect and a recursive median
  split into a k-d tree, the branch-and-bound search of that tree, thresholding and Floyd-Steinberg
  dithering with a transparent index, LZW compression, bit packing, sub-blocks and frame headers.
  The specification is a GIF89a reader (`GifHeader`, `GifFormat`, `Lzw`, `SubBlocks`) and a player
  (`GifPlayer.PlayFile`). The main result is `GifWriter.GifWriter.End`: exactly when a viewer shows
  what the writer's buffer held, frame by frame and for the delays asked for, and exactly when it shows
  the images as given. `GifSample` is one file, byte by byte.
- **The cluster allocator** (`src/mem/cluster.cpp`). A linked list of bitmap clusters on the heap
  with a first-free hint, and the header words in memory from which `free` finds the cluster of an
  address; its abstract value is the set of live slots.
- **Event delivery** (`src/runtime.cpp`). Names and parameter lists in two queues, filled from
  providers that other threads push at any moment.
- **Timers** (`src/apis/os.cpp`). Records shared by four parties, one step for each critical section.
- **Raw frames** (`examples/raw_frame_reader.cpp`). Table-driven CRC-32 and base64.
- **Pixel rectangles and chests** (`src/apis/term.cpp`, `src/peripheral/chest.cpp`,
  `api/generic_peripheral/inventory.hpp`).

Code that works in place is modelled in place, by classes and array methods proved against
specification functions; the properties are lemmas about those functions.

Files and modules have the same names. Bits and bytes: `Bits`, `SubBlocks`, `BitStream`. LZW: `Lzw`
(decoder and string-table encoder), `LzwRoundTrip`, `LzwWriter` (the tree of nodes), `GifImage`. Frames:
`GifHeader`, `GifFormat` (reader), `GifFrame` (writer). Palettes: `Colours`, `PaletteSearch`, `Median`,
`MedianSplit`, `MedianTree`, `SplitPalette`, `Shares`, `ColourList`, `FramePalette`. Quantisation:
`Threshold`, `Dither`, `Diffusion`, `OneColumn`, `Gather`, `TallImages`, `NearestColours`, `Quantisation`.
Whole files: `GifPlayer`, `GifSample`, `GifWriter`. The rest: `Bitmap`, `WideBitmap`, `ClusterAllocator`, `EventQueue`,
`EventOrigins`, `Timers`, `TimerRuns`, `Crc32`, `Base64`, `TermPixels`, `Chest`; `Options` and `Arithmetic` hold
an optional value, minimum and maximum, and facts about products and quotients.

## Main results

| part | result | members |
|---|---|---|
| GIF file | exactly when a viewer shows every frame as the writer's buffer held it | `GifPlayer.PlaysBackIff`, `GifWriter.GifWriter.WriteFrame`, `End` |
| GIF file | exactly when a viewer shows the images that were given | `GifPlayer.PlaysImagesIff`, `Quantisation.ExactIff` |
| LZW | round trip over any number of resets; codes and widths in step with the reader | `LzwRoundTrip.RoundTrip`, `EncodeLagging`, `StreamToEnd` |
| sub-blocks | bits out are bits in, framed in blocks of 1 to 255 bytes | `SubBlocks.UnblockBlocks`, `BitStream.Finish` |
| palettes | cuts along an axis of largest range; when the tree is ordered; the pruned search equals a scan | `MedianSplit.CutIs`, `Shares.AlwaysOrderedIff`, `PaletteSearch.SearchEqualsScan` |
| dithering | a nearest entry for every pending colour; exactly which pixels are shown as written | `NearestColours.DitheredNearest`, `TallImages.DitherShownIff` |
| allocator | live slots change one at a time and never overlap; ordered list, full before the hint | `ClusterAllocator.ClusterAllocator.Alloc`, `Free`, `LiveApart` |
| events | what a run of calls delivers under any schedule; when parameters are misplaced | `EventQueue.ServedIsPicked`, `EventOrigins.CallDelivers`, `DeliveredPairs` |
| timers | exactly which records make their event; none is lost | `TimerRuns.EmittedIff`, `NothingLeaks` |
| timers | each record freed once and never used afterwards, but for one race | `Timers.RunsAreSafe`, `FaultyIff` |
| checksums | table equals bitwise division; base64 round trip | `Crc32.Crc.Update`, `Base64.RoundTrip` |
| screen | what was read writes back unchanged; fills are clipped exactly | `TermPixels.WriteBackText`, `SolidFill` |
| chests | totals kept over every run, self-transfers included | `Chest.RunConserves`, `TransferIsShift` |

## Results that differ from what the code suggests

- The footer of the LZW stream is written at the width of the last data code. A reader that goes on
  to the end code loses its place if and only if the last dictionary entry filled that width
  (`LzwRoundTrip.StreamToEnd`; there is such an image at every depth, `LzwRoundTrip.FooterFails`). One
  that stops when the image is complete is never affected (`LzwRoundTrip.RoundTrip`).
- Every leaf of the median split gets a pixel if and only if there are at least 2^depth - 1 pixels
  (`MedianTree.ServedIff`). With fewer, an unreached leaf keeps what the palette held before
  (`FramePalette.MakePalette`, `Shares.UnreachedLeaf`), and for every such number of pixels the tree can
  fail to be ordered (`Shares.AlwaysOrderedIff`). Frames without dithering still play back as written
  (`Quantisation.QuantisedFaithful`), as long as the split axes that were never set name a channel.
- A palette given as a list loses one of its colours to the transparent entry
  (`FramePalette.MakePaletteFromColors`).
- Dithering an image of one column can write colours that are in no palette entry
  (`OneColumn.OneColumnFails`), and dithering a tall image with a poor palette can leave visible pixels at
  the transparent index (`TallImages.TallImageFails`). Files with such a frame do not show what the buffer
  held (`GifWriter.OnePixelFileFails`, `GifWriter.TallFileFails`). `OneColumn.ColumnFaithfulIff` and
  `TallImages.DitherShownIff` say exactly which pixels come out as written, and
  `GifWriter.GifWriter.WriteFrame` and `End` exactly which files play back. An image whose colours are all
  in the palette or on the screen is not affected, at any size (`Quantisation.ExactIff`).
- The comment in `struct GifPalette` speaks of leaves at nodes 256 to 511. That holds for depth 8 only;
  the code, and the model, put the leaves at 2^depth.
- A hook that drops an event leaves the event's parameters to the next one
  (`EventQueue.DroppedParametersLeak`); `EventOrigins.DeliveredPairs` says exactly which delivered events
  are affected, `EventQueue.FillPairs` and `EventQueue.AwaitPairs` which fills and waits.
- A timer can be freed while the call that started it still reads it (`Timers.FaultyIff`).
- Where an unsigned long has 64 bits the allocator still shifts an int: bit 31 brings the bits above it
  along, so that of every 64 slots only the first 32 are ever used (`WideBitmap.FirstSlot`,
  `WideBitmap.RoomIff`). No shift reaches 32.
- A chest search stops at a full stack of the item (`Chest.SearchTakesNone`). Items without a name and
  negative counts can leave slots out of order: exactly when is `Chest.KeepsIff`, two inputs are
  `Chest.SomeBreak`, and a refused slot or an unchanged count never does.
- Elements of size zero would confuse the allocator's division (`ClusterAllocator.OffsetRecoversSlot`).

## Model

| member | source | states |
|---|---|---|
| Bits.ToFromBits | src/gif.cpp:635-647 | Reading a bit string as a number, low bit first, and writing it at the same width are inverse to each other |
| Bits.ToBitsAppend | src/gif.cpp:607-622 | Setting bit `width` of a partial number appends that bit to its bit string |
| Bits.BytesToBitsToBytes | src/gif.cpp:607-622 | Cutting a bit string of whole bytes into bytes and spreading the bytes out again gives it back |
| Bits.OrIsPlus | src/gif.cpp:609-611 | Or-ing the shifted bit into the partial byte, as `BitStatus.WriteBit` does, is adding it, because the byte has no bit there yet |
| SubBlocks.UnblockBlocks | src/gif.cpp:624-633 | A sub-block reader gets exactly the data back and stops right behind the terminator, whatever follows |
| SubBlocks.BlocksAppend | src/gif.cpp:642-645 | One more block behind whole blocks of 255 bytes is the framing of the longer data |
| BitStream.BitStatus.WriteBit | src/gif.cpp:607-622 | The stream of all bits so far grows by the low bit of the argument; a byte moves to the chunk every eight bits |
| BitStream.WriteChunk | src/gif.cpp:624-633 | The file gains the length byte and the chunk; no bit is lost exactly when no partial byte is pending |
| BitStream.WriteCode | src/gif.cpp:635-647 | The stream grows by exactly the `length` low bits of the code, and file and chunk stay a sub-block framing |
| BitStream.Finish | src/gif.cpp:785-789 | The file ends as the sub-blocks and terminator of bytes whose bits are the stream and its zero padding |
| Lzw.FeedInv | src/gif.cpp:741-776 | One pixel keeps the dictionary prefix-closed and free of duplicates, its codes below 4096 and the width between depth + 1 and 12 |
| Lzw.EncodeInv | src/gif.cpp:725-778 | That invariant holds after any number of pixels |
| Lzw.FeedWrites | src/gif.cpp:741-776 | A code is written exactly when the extended run is unknown, and a clear code follows exactly when that run took the last of the 4096 codes |
| Lzw.WidthStays | src/gif.cpp:759-764 | One more entry needs at most one more bit, and never a thirteenth |
| Lzw.DictionaryAppend | src/gif.cpp:756-757 | A known run extended by a symbol that is not yet in the dictionary keeps it prefix-closed and free of duplicates |
| LzwRoundTrip.RunMeaning | src/gif.cpp:751-757 | The code of the run means the run to the lagging decoder, including the code that equals its next entry |
| LzwRoundTrip.FeedLagging | src/gif.cpp:741-776 | One pixel keeps encoder and decoder in step, with or without a code written |
| LzwRoundTrip.RunCode | src/gif.cpp:754 | The code of the current run is below the next free code and 2^width, is no control code, and stands for that run |
| LzwRoundTrip.StepRun | src/gif.cpp:751-764 | A decoder that lags one entry behind decodes the code of the run to the run, also when the code is its own next entry |
| LzwRoundTrip.EmitLagging | src/gif.cpp:751-764 | Writing a run and learning its extension keeps the decoder one entry behind and at the same width |
| LzwRoundTrip.EmitClear | src/gif.cpp:765-773 | The clear code of a full dictionary is written at the width 12 that the decoder expects, and both restart together |
| LzwRoundTrip.EncodeLagging | src/gif.cpp:714-778 | At every data code and clear the encoder's width is the one the decoder derives from its own table |
| LzwRoundTrip.CodesFit | src/gif.cpp:723-776 | Every code is below 2 to the width it is written with, and no width exceeds twelve bits |
| LzwRoundTrip.RoundTrip | src/gif.cpp:709-783 | Decoding the code stream of any nonempty index image gives the image back, across any number of dictionary resets, whatever bits follow |
| LzwRoundTrip.StreamToEnd | src/gif.cpp:780-783 | A decoder that reads on to the end code also succeeds, if and only if the last dictionary entry did not fill the current width |
| LzwRoundTrip.FooterFails | src/gif.cpp:780-783 | At every depth the image 0, 1, .., 2^depth - 2 is one on which a reader that goes on to the end code fails |
| LzwWriter.ChildAfterLearning | src/gif.cpp:756-757 | Learning a run changes exactly one entry of the tree the table stands for |
| LzwWriter.LzwState.Clear | src/gif.cpp:770-772 | The tree, width and counter are those of an empty dictionary |
| LzwWriter.LzwState.Learn | src/gif.cpp:757-764 | The tree mirrors the table with the extended run, under the next free code, and the width grows when that code needs it |
| LzwWriter.LzwState.NextRun | src/gif.cpp:756-775 | After a finished run the state and the code stream are those of the string-table encoder |
| LzwWriter.LzwState.Pixel | src/gif.cpp:741-776 | The tree of nodes refines the string-table encoder for one pixel: same codes, same widths, same dictionary |
| GifImage.StartData | src/gif.cpp:706-723 | The minimum code size, then a clear code as the first code |
| GifImage.EncodePixels | src/gif.cpp:725-778 | The double loop over the rows encodes the indices in row-major order |
| GifImage.WriteFooter | src/gif.cpp:780-789 | The last run, a clear code and the end code, then the padding and the terminator |
| GifImage.WriteImageData | src/gif.cpp:706-791 | The file gains the minimum code size and the framed, packed code stream of the image |
| GifFormat.ReadImageData | src/gif.cpp:706-791 | A GIF89a reader of image data (section 22) gets the indices back and stops behind the block |
| GifFormat.ReadWrittenControl | src/gif.cpp:678-686 | Reading the written extension gives delay modulo 65536, disposal 1 and transparent index 0 |
| GifFormat.ReadWrittenDescriptor | src/gif.cpp:688-703 | Reading the written descriptor gives corner, width, height and table size |
| GifFormat.ReadFrame | src/gif.cpp:676-791 | A GIF89a reader gets place, size, delay, disposal 1, transparent index 0, colour table and indices back and stops behind the frame |
| GifFrame.WriteControl | src/gif.cpp:678-686 | The graphic control extension with disposal 1 and the transparent index |
| GifFrame.WriteDescriptor | src/gif.cpp:688-703 | The image descriptor: corner, size and a local colour table of 2^depth entries |
| GifFrame.WritePalette | src/gif.cpp:657-673 | The colour table: black, then the palette entries |
| GifFrame.WriteLzwImage | src/gif.cpp:676-792 | The file gains exactly the bytes of one frame |
| PaletteSearch.ClosestIsCandidate | src/gif.cpp:89-135 | On any tree the search keeps the incoming best or returns a strictly nearer colour of its subtree that is not the transparent one |
| PaletteSearch.BeyondPlane | src/gif.cpp:121-133 | A half behind a plane at least as far as the best so far holds nothing nearer |
| PaletteSearch.DistanceIs | src/gif.cpp:98-101 | A distance is the sum of what the three channels differ by |
| PaletteSearch.ClosestIsNearest | src/gif.cpp:89-135 | On an ordered subtree nothing in it is nearer than what the pruned search returns |
| PaletteSearch.ScanIsMinimum | src/gif.cpp:95-107 | The linear scan over the entries finds the minimum |
| PaletteSearch.SearchEqualsScan | src/gif.cpp:89-135 | From the root of an ordered tree the pruned search finds the distance of the linear scan, at an index that has it |
| Median.Partition | src/gif.cpp:161-187 | The pixels are rearranged so that the pivot separates them on the channel; the store index counts the smaller pixels and every second equal one |
| Median.PartitionScan | src/gif.cpp:165-184 | The scan leaves smaller or equal values left and greater or equal values right of the store index, every second equal one left |
| Median.SwapPixels | src/gif.cpp:137-158 | Two pixels change places |
| Median.PartitionByMedian | src/gif.cpp:190-205 | Quickselect terminates, permutes only its part and leaves nothing larger before the center and nothing smaller behind it |
| MedianSplit.ShareBounds | src/gif.cpp:311-312 | The proportional share is in range, and serves both sides as soon as there is one pixel per leaf |
| MedianSplit.ShareProportional | src/gif.cpp:311-312 | The left child gets its part of the coloured leaves of the pixels, rounded down |
| MedianSplit.CutIs | src/gif.cpp:304-317 | A node is cut along an axis of largest range, at a value some pixel of the right part has, which none of the right part falls below and none of the left exceeds |
| MedianSplit.MeanBounds | src/gif.cpp:258-277 | The rounded average stays within the range of the averaged values |
| MedianSplit.LeafColourIs | src/gif.cpp:213-280 | For dithering the first coloured leaf gets the smallest and the last the largest value of its pixels in each channel; any other leaf the average, off by at most one half |
| MedianSplit.LargestAxisIs | src/gif.cpp:304-309 | The axis is one on which two pixels differ as much as any two on any axis; green when no other range exceeds its own, red only when its range alone is the largest; no other axis qualifies |
| SplitPalette.FindAxis | src/gif.cpp:282-309 | The range loop returns that axis |
| SplitPalette.Darkest | src/gif.cpp:221-236 | The channelwise minimum of the leaf's pixels |
| SplitPalette.Lightest | src/gif.cpp:239-254 | The channelwise maximum of the leaf's pixels |
| SplitPalette.Average | src/gif.cpp:258-279 | The rounded channelwise mean of the leaf's pixels |
| SplitPalette.Split | src/gif.cpp:208-321 | The recursive split builds the tree over a permutation of its pixels, touches no entry outside its own subtree, and leaves every subtree that gets no pixel as it was; without pixels it changes nothing |
| SplitPalette.BuiltFrame | src/gif.cpp:319-320 | What one child built survives the building of the other |
| SplitPalette.SparedFrame | src/gif.cpp:319-320 | What one child spared stays spared during the building of the other |
| Shares.ReachedLeaf | src/gif.cpp:208-321 | A leaf that is reached has the darkest, lightest or average colour of exactly the pixels that reach it |
| Shares.UnreachedLeaf | src/gif.cpp:210-211 | A leaf that no pixel reaches keeps the colour the palette held before |
| MedianTree.ServedIff | src/gif.cpp:311-320 | Every leaf of a node gets a share if and only if there are at least as many pixels as leaves |
| MedianTree.SharesSuffice | src/gif.cpp:311-312 | A node with a pixel per leaf passes on a pixel per leaf to both children |
| MedianTree.BuiltWithin | src/gif.cpp:213-280 | With a pixel per leaf every leaf colour, averaged or extreme, lies in the range of the pixels of its subtree |
| MedianTree.BuiltOrdered | src/gif.cpp:208-321 | With a pixel per leaf every subtree is ordered: left colours at most, right colours at least the split, index 0 excluded |
| MedianTree.TreeOrdered | src/gif.cpp:367-377 | With at least 2^depth - 1 pixels and the zero split above the transparent leaf the whole tree is ordered |
| Shares.UnorderedTree | src/gif.cpp:208-321 | For every smaller number of pixels, with or without dithering, a grey image of that size and a palette that the split can leave whose tree is not ordered |
| Shares.AlwaysOrderedIff | src/gif.cpp:367-377 | The tree is ordered whatever the pixels are and whatever the palette held before, if and only if there are at least 2^depth - 1 pixels |
| Shares.OldColourDisorders | src/gif.cpp:210-211 | How it happens: a grey image leaves an old colour at an unreached leaf, on the wrong side of the root's split |
| FramePalette.PickChangedPixels | src/gif.cpp:327-349 | The pixels that differ from the last frame are moved to the front in order; the rest of the buffer stays |
| FramePalette.ChangedIs | src/gif.cpp:327-349 | What is moved there are exactly the pixels whose colour differs from that of the last frame at their place, in order |
| FramePalette.ListedTransparent | src/gif.cpp:441-445 | The same on a listed palette: it stays ordered and loses the first sorted colour only |
| FramePalette.TransparentKeeps | src/gif.cpp:375-379 | Entering the transparent leaf keeps what was built and what was spared, and completes the order |
| FramePalette.MakePalette | src/gif.cpp:353-380 | The palette is built over a permutation of the changed pixels; every entry is the colour of the pixels that reach its leaf, or what the palette held before if none does; with 2^depth - 1 pixels the tree is ordered |
| ColourList.SortPart | src/gif.cpp:420-424 | The sort: a permutation of the part, sorted on the channel |
| ColourList.SplitColorPalette | src/gif.cpp:382-431 | The leaves of a node are a permutation of the colours it was given, and its subtree is ordered |
| ColourList.OrderedInside | src/gif.cpp:441-445 | An ordered tree stays ordered when its first leaf and the split above it are reset |
| FramePalette.MakePaletteFromColors | src/gif.cpp:434-446 | A listed palette is ordered and holds every listed colour but the one whose place the transparent index takes |
| Threshold.ThresholdedNearest | src/gif.cpp:575-587 | On an ordered palette the chosen colour is a nearest one among all entries but the transparent one |
| Threshold.ThresholdedFaithful | src/gif.cpp:563-587 | Skipping index 0 over the previous frame shows exactly the colour that was written |
| Threshold.Thresholded | src/gif.cpp:565-587 | The pixel is transparent if and only if the previous frame shows its colour |
| Threshold.ThresholdImage | src/gif.cpp:558-593 | Every output pixel is that of the pointwise rule on the previous content of the buffer, although both frames share it |
| Diffusion.VisitLocal | src/gif.cpp:469-544 | With two columns or more a visit writes its own pixel and touches no earlier one, and none past the pixel below right |
| Diffusion.AfterWritten | src/gif.cpp:465-546 | What is written for a pixel is final |
| Diffusion.AfterNonNegative | src/gif.cpp:514-544 | No pending value is ever negative |
| Diffusion.AfterIndices | src/gif.cpp:491-505 | Every visited pixel gets an index of the palette, whatever the width |
| Diffusion.CastWritten | src/gif.cpp:548-552 | The cast to bytes loses nothing of a finished pixel |
| Diffusion.DitheredPixels | src/gif.cpp:449-555 | With two columns or more every output pixel is index 0 with the last frame's colour, or carries the palette colour of its index |
| OneColumn.OneColumnReturns | src/gif.cpp:510-528 | In a single column the share for the pixel below left comes back to the pixel that was just written |
| OneColumn.ColumnWritten | src/gif.cpp:465-546 | After its own visit a pixel of a column is final: its colour plus that share |
| OneColumn.SurvivesIff | src/gif.cpp:522-528 | A channel comes out as written if and only if the share is a multiple of 256 from zero up, or negative where the channel is zero |
| OneColumn.ColumnFaithfulIff | src/gif.cpp:449-555 | For a column of any height and any palette, a pixel is shown as written if and only if the last colour was kept, or the chosen colour survives its error, or, at the transparent index, the previous frame shows what came out |
| OneColumn.OneColumnFails | src/gif.cpp:510-528 | A concrete one-column image that is not shown as written, its output colour being in no palette entry |
| Gather.AfterIsGathered | src/gif.cpp:507-544 | With two columns or more scattering errors to four neighbours is gathering them from four neighbours |
| Gather.PendingBound | src/gif.cpp:507-544 | With two columns or more a pending channel of row y is at most 174080 * (y + 1), for any image and palette |
| Gather.NoOverflow | src/gif.cpp:467-544 | With two columns or more and at most 1762 rows every pending colour with its rounding, every error and seven times every error fit an int32, at every moment of the pass: no 32-bit operation of the pass overflows |
| Gather.SearchAnswers | src/gif.cpp:89-135 | A search that every leaf would improve on does improve, ordered tree or not |
| Gather.ChoiceIsVisible | src/gif.cpp:491-505 | In an image of at most 490 rows no visited pixel falls back to the transparent index |
| Gather.DitheredFaithful | src/gif.cpp:449-555 | In such an image a viewer that keeps the previous frame shows exactly the output colours, for every palette the builders make |
| TallImages.DitheredFaithfulIff | src/gif.cpp:477-505 | On an ordered palette, with two columns or more and any height, a pixel is shown as written if and only if the last colour was kept, or a palette colour is within the search's reach, or the previous frame shows entry 0 |
| TallImages.LowImagesShown | src/gif.cpp:477-505 | With two columns or more and at most 490 rows that condition holds for every pixel, whatever the palette |
| TallImages.DitherShownIff | src/gif.cpp:449-555 | The condition for every image, of any width and height, and every palette the builders make |
| TallImages.WhiteGrows | src/gif.cpp:507-544 | Under a black palette the pending values of a white image grow by at least 65276 every width + 1 pixels |
| TallImages.TallImageFails | src/gif.cpp:491-505 | In a white image under a black palette every pixel from number 1310 * (width + 1) on is not shown as written |
| TallImages.TallImageNotShown | src/gif.cpp:491-505 | So such an image fails the condition |
| NearestColours.ChoiceIsNearest | src/gif.cpp:471-505 | On an ordered palette a pending colour gets the screen's colour if that is the one wanted, else an entry no other visible entry is nearer than, or the transparent one exactly when none is within reach; its error is what that leaves |
| NearestColours.DitheredNearest | src/gif.cpp:449-555 | So every pixel of a dithered image, of any size, has the index of an entry nearest to its rounded pending colour, and with two columns or more that entry's colour |
| NearestColours.RoundedNearest | src/gif.cpp:471-474 | Rounding a pending colour to bytes is off by at most half a unit |
| NearestColours.SharesAddUp | src/gif.cpp:507-544 | The four shares of an error make up all of it but for less than four 256ths, and never more than it |
| NearestColours.NudgeIs | src/gif.cpp:516-518 | A share is added unless that would take a channel below zero |
| Dither.DitherImage | src/gif.cpp:449-555 | The double loop and the final copy compute the specified diffusion, although the last frame shares the output buffer |
| Quantisation.QuantisedFaithfulIff | src/gif.cpp:880-883 | For every size, and every palette the builders make, the pixels of a frame are shown as written if and only if it is not dithered or every pixel meets the condition |
| Quantisation.QuantisedFaithful | src/gif.cpp:880-883 | Pixels chosen without dithering are always shown as written; dithered ones always with two columns or more and at most 490 rows |
| Quantisation.NothingSpreads | src/gif.cpp:465-544 | An image of available colours leaves no error anywhere: every pixel is visited with the colour that was given, whatever the width, one column included |
| Quantisation.ThresholdedExact | src/gif.cpp:558-593 | Without dithering a colour that the screen or an ordered palette has is chosen as it is |
| Quantisation.ExactIff | src/gif.cpp:449-593 | On an ordered palette, dithered or not, at any width and height, a viewer shows exactly the image that was given if and only if each of its colours is on the screen at its place or in the palette |
| Quantisation.AllListedIff | src/gif.cpp:434-446 | With a palette from a list the colours to choose from are the listed ones, less the lost one |
| GifHeader.ReadWrittenHead | src/gif.cpp:822-857 | A reader of the header gets the size of the screen, endless repetition exactly when the delay is not zero, and stops where the images begin |
| GifHeader.WriteHead | src/gif.cpp:819-858 | Signature, screen descriptor, dummy table and NETSCAPE block, byte for byte |
| GifSample.SampleFile | src/gif.cpp:804-905 | One whole file, byte by byte: signature, screen, repetition, control extension with its delay, descriptor, colour table, sub-blocks of LZW codes, trailer |
| GifPlayer.PlayFilePaints | src/gif.cpp:804-905 | A viewer of any finished file, faithful or not, paints its frames over one another on a screen of the given size, each for its delay, and stops at the trailer |
| GifPlayer.FileIsTimed | src/gif.cpp:867-905 | In any finished file a viewer finds one image for each frame, with the frame's delay modulo 65536 |
| GifPlayer.FileHead | src/gif.cpp:804-858 | A reader of any finished file learns the size of the screen and whether to repeat |
| GifPlayer.PaintIff | src/gif.cpp:867-888 | Painting a frame shows the colours of its pixels if and only if it is faithful to the canvas |
| GifPlayer.FirstFrameIff | src/gif.cpp:871-888 | The first frame is shown as written over every canvas if and only if it needs none |
| GifPlayer.PlaysBackIff | src/gif.cpp:867-905 | A viewer of the finished file shows every frame as its pixels say and for its delay, whatever was on the screen before, if and only if every frame is faithful to the one before it |
| GifPlayer.FirstFrameOpaque | src/gif.cpp:871-888 | In a file that plays back the first frame has no transparent pixel |
| GifPlayer.AvailableCarried | src/gif.cpp:867-888 | Frames made of available colours carry exactly the colours of their images, one after the other |
| GifPlayer.AllPaintedAvailable | src/gif.cpp:867-888 | What is painted can only be made of colours of the palettes and of the canvas before |
| GifPlayer.PlaysImagesIff | src/gif.cpp:867-905 | On ordered palettes a viewer of the whole file shows exactly the images that were given, each for its delay, if and only if every colour of every image is in the palette of its frame or at the same place in the image before |
| GifWriter.ChoosePalette | src/gif.cpp:874-878 | Without a list the palette is built, for dithering or not, from all pixels of a dithered image or else from the changed ones; a given list is in it, less the lost colour; it is ordered whenever a list was given or enough pixels feed it |
| GifWriter.Quantise | src/gif.cpp:880-883 | The buffer, which holds the last frame until then, gets exactly the pixels of the specified quantisation; their indices fit the palette |
| GifWriter.GifWriter.constructor | src/gif.cpp:804-861 | A writer that has no frames yet and has written its header behind whatever the file already held |
| GifWriter.GifWriter.WriteFrame | src/gif.cpp:867-888 | One frame is appended whose pixels are the new buffer, the quantisation of the image over the old one. Every frame stays faithful, that is, by `End`, the file plays back, if and only if it did before and, for a dithered frame, every pixel meets the exact condition, which it does with two columns or more and at most 490 rows. On an ordered palette the buffer also has the colours of the image if and only if all of them are available: in the palette, or for a given list in the list less the lost colour, or on the screen |
| GifWriter.GifWriter.Append | src/gif.cpp:885 | The file is the header and the concatenation of all frames so far |
| GifWriter.GifWriter.End | src/gif.cpp:893-905 | A viewer of the finished file learns the size of the screen, the repetition and the delay of every frame; whatever was on screen before, it shows every frame as the buffer held it if and only if every frame is faithful to the one before; on ordered palettes it shows the images as given if and only if all their colours are available |
| GifWriter.FirstFrameFails | src/gif.cpp:867-905 | A file whose first frame has a pixel that is not shown as written does not play back |
| GifWriter.TallFileFails | src/gif.cpp:449-555 | So the file of a tall white image, dithered under a black palette, does not show what the buffer held, whatever frames follow |
| GifWriter.OnePixelFileFails | src/gif.cpp:449-555 | Nor does the file of a single white pixel |
| Bitmap.LowestZeroIs | src/mem/cluster.cpp:50-57 | For every word but all ones the xor, shift and population count yield the index of its lowest zero bit |
| Bitmap.TakeSlot | src/mem/cluster.cpp:59 | Setting or clearing a bit changes the occupancy of exactly one slot |
| Bitmap.EmptyMeansUnused | src/mem/cluster.cpp:80-90 | All words are zero if and only if no slot is used |
| Bitmap.FirstFree | src/mem/cluster.cpp:48-58 | The first word with room and its lowest zero bit are the first free slot of the cluster |
| WideBitmap.FirstSlot | src/mem/cluster.cpp:50-59 | With a 64-bit unit the word has room for 32 slots only: the expression yields the first of them that is not live, and no int shift reaches 32 |
| WideBitmap.StepInv | src/mem/cluster.cpp:50-75 | Because the shifted int extends its sign, every claim and every free of a live slot keeps the upper half of the word equal to bit 31 |
| WideBitmap.RoomIff | src/mem/cluster.cpp:49 | Such a word is all ones if and only if its 32 slots are live, and zero if and only if none is |
| ClusterAllocator.OffsetRecoversSlot | src/mem/cluster.cpp:58-75 | The division in `free` recovers the slot `alloc` chose, if and only if elements have a size above zero |
| ClusterAllocator.SlotsApart | src/mem/cluster.cpp:34-39 | The storage of a slot ends before the header word of any later slot begins |
| ClusterAllocator.StoredGrows | src/mem/cluster.cpp:34-40 | A new cluster, placed where nothing lies, leaves the header words of the others as they were |
| ClusterAllocator.OwnerFound | src/mem/cluster.cpp:74 | The word in front of the address of a slot names its cluster |
| ClusterAllocator.PayloadsApart | src/mem/cluster.cpp:34-39 | Different slots, of the same or of different clusters, share no byte, header words included |
| ClusterAllocator.LiveAfterTake | src/mem/cluster.cpp:59-76 | Changing one bit of one cluster adds or removes exactly one live slot |
| ClusterAllocator.LiveWithoutEmpty | src/mem/cluster.cpp:91-102 | Taking an empty cluster out of the list removes no live slot |
| ClusterAllocator.ClusterAllocator.constructor | src/mem/cluster.cpp:19-22 | A list of one empty cluster that satisfies the invariant |
| ClusterAllocator.ClusterAllocator.WriteHeaders | src/mem/cluster.cpp:37-38 | The loop puts the cluster into the header word of each of its slots and changes no word outside it |
| ClusterAllocator.ClusterAllocator.IdOrder | src/mem/cluster.cpp:65-66 | Cluster ids are strictly increasing along the list |
| ClusterAllocator.ClusterAllocator.FindRoom | src/mem/cluster.cpp:47-68 | The walk from the hint ends at the first cluster with room, or at the last one when all are full |
| ClusterAllocator.ClusterAllocator.EnsureRoom | src/mem/cluster.cpp:47-68 | A cluster is appended if and only if all clusters are full |
| ClusterAllocator.ClusterAllocator.Claim | src/mem/cluster.cpp:53-59 | The lowest free slot of the cluster becomes live, and nothing else |
| ClusterAllocator.ClusterAllocator.Alloc | src/mem/cluster.cpp:43-71 | The address handed out is that of a slot that was not live, the first free one of the first cluster with room, which is the only change of the live set; the invariant, header words included, holds again |
| ClusterAllocator.ClusterAllocator.Free | src/mem/cluster.cpp:73-106 | Given the address of a live slot alone, exactly that slot leaves the live set; its cluster leaves the list if and only if it owns no live slot and is not the last; the invariant holds again |
| ClusterAllocator.ClusterAllocator.EmptyIffDead | src/mem/cluster.cpp:91 | A bitmap is all zeros if and only if its cluster owns no live slot |
| ClusterAllocator.ClusterAllocator.LiveApart | src/mem/cluster.cpp:34-71 | The storage of live slots never overlaps |
| ClusterAllocator.ClusterAllocator.Predecessor | src/mem/cluster.cpp:94-95 | The walk finds the cluster in front, which exists |
| ClusterAllocator.ClusterAllocator.Unlink | src/mem/cluster.cpp:91-102 | Unlinking an empty cluster keeps the whole invariant, the hint included |
| ClusterAllocator.ClusterAllocator.ReleaseCluster | src/mem/cluster.cpp:77-105 | The hint moves back when needed, every cluster in front of it stays full, and the tail is never unlinked |
| EventQueue.RunKeeps | src/runtime.cpp:249-266 | Running a provider moves its event from what is coming to what is queued |
| EventQueue.FillKeeps | src/runtime.cpp:247-267 | Filling the queue changes neither the order nor the content of what will be delivered |
| EventQueue.AwaitKeeps | src/runtime.cpp:246-275 | Neither does waiting, whenever other threads push their providers or stop the computer |
| EventQueue.HooksInTurn | src/runtime.cpp:255-266 | A computer's own hook sees the name first and the shared one the name it made of it; a dropped event goes no further, and an event without hooks keeps its name |
| EventQueue.TwoHooks | src/runtime.cpp:256-259 | Each hook of a list gets what the one before it returned, until one drops the event |
| EventQueue.FillLimit | src/runtime.cpp:252 | A fill goes on until the computer stops, no provider is left or 256 events are queued, and never queues more |
| EventQueue.StopIsLast | src/runtime.cpp:252-266 | A provider that stops the computer is the last one a fill runs |
| EventQueue.ArrivalStops | src/runtime.cpp:252 | When another thread has stopped the computer a fill runs nothing |
| EventQueue.NextIsFirst | src/runtime.cpp:235-314 | Under every schedule of the other threads the call delivers the first wanted event of the whole stream and leaves exactly the events behind it; by name always, with its own parameters when no event comes behind a dropped one that left values; an undisturbed computer returns nothing only if no event is wanted |
| EventQueue.ServedIsPicked | src/runtime.cpp:235-314 | A whole run of calls delivers exactly what its filters pick from the stream, in order, until the computer stops |
| EventQueue.FillPairs | src/runtime.cpp:247-267 | From any state, with any arrivals, stops and queue limit: the providers run are the first of those pending, and their events are queued with their own parameters if and only if none comes behind a dropped event, or an old list, that left values |
| EventQueue.AwaitPairs | src/runtime.cpp:243-275 | The same condition over all the fills and waits of one await |
| EventOrigins.MadeAt | src/runtime.cpp:247-267 | Every event made comes from one kept provider and carries its values behind those the dropped ones before it left |
| EventOrigins.LeftNothingIff | src/runtime.cpp:249-266 | Nothing is left on the list if and only if nothing was pushed since the last kept provider |
| EventOrigins.FillMakes | src/runtime.cpp:247-267 | A fill queues exactly the events its providers make, with the parameters they really get, in any state |
| EventOrigins.AwaitMakes | src/runtime.cpp:243-275 | So does a whole await |
| EventOrigins.PassesAreFirst | src/runtime.cpp:235-275 | Over its awaits a call runs the first of the pending providers, each once and in order |
| EventOrigins.CallDelivers | src/runtime.cpp:235-314 | With any hooks, arrivals and stops a call hands over the first wanted event it sees, with the parameters it was made with, and leaves the events behind it |
| EventOrigins.NotPassedOver | src/runtime.cpp:276-281 | No call passes over a terminate event, nor over one of the name it waits for |
| EventOrigins.DeliveredPairs | src/runtime.cpp:235-314 | A delivered event that the call itself queued has its own parameters if and only if no dropped event left any since the last kept event of the same await |
| EventQueue.DroppedParametersLeak | src/runtime.cpp:249-266 | A concrete run in which a hook drops an event and its parameter is delivered with the next one |
| EventQueue.EventLoop.QueueLuaEvent | src/apis/os.cpp:34-48 | An event queued by a program arrives with its parameters, names and parameter lists staying paired |
| EventQueue.EventLoop.QueueEvent | src/runtime.cpp:226-233 | A provider joins the end of the provider queue |
| EventQueue.EventLoop.ApplyHooks | src/runtime.cpp:250-261 | The hooks rename an event in turn until one drops it |
| EventQueue.EventLoop.TakeEvent | src/termsupport.cpp:691-699 | The first provider runs on the spare parameter list; a kept event gets that list and a new spare list is made |
| EventQueue.EventLoop.FillQueue | src/runtime.cpp:247-267 | The loop computes the specified filling, up to the queue limit |
| EventQueue.EventLoop.WaitForEvent | src/runtime.cpp:268-274 | The wait ends with a provider or a stop |
| EventQueue.EventLoop.AwaitEvent | src/runtime.cpp:246-275 | The inner loop ends with an event or a stopped computer |
| EventQueue.EventLoop.PopEvent | src/runtime.cpp:276-279 | The front event is taken; it is wanted if and only if there is no filter, or its name is the filter or terminate; unwanted, it goes with its parameters; the spare list goes in any case |
| EventQueue.EventLoop.GetNextEvent | src/runtime.cpp:235-314 | The call returns the specified event with its own parameter list and keeps the two queues paired; it returns only names that the filter, or its absence, lets through, or terminate; the branches for a mismatch are never taken |
| Timers.StepInv | src/apis/os.cpp:74-180 | Every step of every thread keeps the invariant |
| Timers.RunsAreSafe | src/apis/os.cpp:74-180 | In every run each record is freed at most once, no callback, provider or cancel uses it afterwards, and it makes at most one event, none once a cancel has taken it |
| Timers.StepFault | src/apis/os.cpp:148-155 | Only a start that looks at its record again can use a freed one |
| Timers.FaultyIff | src/apis/os.cpp:143-156 | A run that lets every call end reads a freed record if and only if a callback during exit, or another computer's cancel, freed the record of a start that had not ended |
| Timers.CancelDuringStart | src/apis/os.cpp:148-179 | Such a cancel is possible from every state in which a start is still reading, and leads to the read of a freed record |
| Timers.ExitDuringStart | src/apis/os.cpp:97-103 | So is such a callback |
| Timers.DeadStep | src/apis/os.cpp:104-114 | The timers of a destroyed computer are never those of a start that is still reading |
| TimerRuns.LifeCycle | src/apis/os.cpp:74-180 | Every step moves a record along one life: made by a start, listed under the id SDL gives, then delivered, cancelled or dropped, and freed; its computer and kind never change |
| TimerRuns.FiringQueues | src/apis/os.cpp:90-123 | A callback that finds its record listed, the program not exiting and the computer not gone makes one more event pending; the provider can then run whenever its computer is in no call, and makes the event |
| TimerRuns.ListedUntil | src/apis/os.cpp:74-180 | A listed record stays listed exactly until a delivery, a cancel with its id, or a callback during exit or after its computer went |
| TimerRuns.EmittedIff | src/apis/os.cpp:74-180 | In every run a record makes its event if and only if its callback fires and later its provider runs, nothing taking the record between |
| TimerRuns.NothingLeaks | src/apis/os.cpp:74-180 | When no call is under way every record ever made is in the table or was freed |
| TimerRuns.RecordOrigin | src/apis/os.cpp:126-135 | A record's computer and kind are those of the start that made it |
| TimerRuns.TimerOrigin | src/apis/os.cpp:143-147 | Its timer is the id SDL gave to that start |
| Timers.TimerTable.StartTimer | src/apis/os.cpp:126-135 | A new record with no timer yet |
| Timers.TimerTable.AddTimer | src/apis/os.cpp:143-147 | The record gets SDL's id and enters the table unless the id is zero |
| Timers.TimerTable.LookAtTimer | src/apis/os.cpp:148-156 | The reads after the lock was released; a start without a timer deletes its record |
| Timers.TimerTable.Find | src/apis/os.cpp:78 | The search finds the record if and only if some entry of the table is it |
| Timers.TimerTable.NotifyEvent | src/apis/os.cpp:90-123 | The callback is the specified step |
| Timers.TimerTable.TimerEvent | src/apis/os.cpp:74-88 | The provider is the specified step and returns "alarm" or "timer", by the record's kind, with the timer's id, or no event if the record is not listed |
| Timers.TimerTable.TakeOut | src/apis/os.cpp:164-169 | The first section of a cancel is the specified step |
| Timers.TimerTable.LetGo | src/apis/os.cpp:169-179 | The second section and the deletions are the specified step |
| Crc32.RoundsAreLinear | examples/raw_frame_reader.cpp:131-138 | Filling in table entries is linear over exclusive or |
| Crc32.BitsAreRounds | examples/raw_frame_reader.cpp:131-138 | Dividing bit by bit is the same as dividing the register with all bits entered at once |
| Crc32.TableStep | examples/raw_frame_reader.cpp:146-149 | One step by table is eight steps of bit-by-bit division by the reflected polynomial (section 8 of RFC 1952) |
| Crc32.ChunksCompose | examples/raw_frame_reader.cpp:118-151 | Feeding two chunks in turn gives the checksum of their concatenation |
| Crc32.CheckValue | examples/raw_frame_reader.cpp:118-151 | The checksum of the digits 1 to 9 is the check value of this CRC |
| Crc32.Crc.FillTable | examples/raw_frame_reader.cpp:128-142 | Every table entry is the remainder of its index |
| Crc32.Crc.Update | examples/raw_frame_reader.cpp:118-151 | The function returns the checksum by bit-by-bit division, on the first call and on later ones |
| Base64.AlphabetIs | examples/raw_frame_reader.cpp:40-116 | The letters are the 64 of the alphabet of RFC 4648 (section 4), in order and in both directions, and nothing else is a letter |
| Base64.Vectors | examples/raw_frame_reader.cpp:40-77 | Three test vectors of RFC 4648 (section 10), one for each padding |
| Base64.RoundTrip | examples/raw_frame_reader.cpp:40-116 | Decoding an encoded octet string gives it back, for every length |
| Base64.Encode | examples/raw_frame_reader.cpp:40-77 | The loop with its staging array computes the text of the octets |
| Base64.Decode | examples/raw_frame_reader.cpp:79-116 | The loop with its staging array computes the octets of the text up to its first character outside the alphabet |
| TermPixels.RunInRow | api/Terminal.hpp:71-118 | A run of pixels in one row is a run in the flat buffer and stays inside it |
| TermPixels.Screen.FillSolid | src/apis/term.cpp:440-456 | The clipped rows of memset draw exactly the rectangle |
| TermPixels.Screen.TextRow | src/apis/term.cpp:466-478 | A clipped memcpy draws exactly the visible part of a string row |
| TermPixels.Screen.NumbersRow | src/apis/term.cpp:479-500 | A row of numbers sets the visible cells that hold a number of zero or more |
| TermPixels.Screen.DrawPixels | src/apis/term.cpp:383-507 | Every pixel afterwards is the one the drawing gives it, or the one it was; refused calls change nothing; the argument errors in their order |
| TermPixels.Screen.GetPixels | src/apis/term.cpp:509-593 | Every cell of the result is the pixel at its place, or 15 in strings and -1 in numbers outside the screen; the argument errors in their order |
| TermPixels.WriteBackText | src/apis/term.cpp:383-593 | Writing back the string rows of any rectangle, at any origin and with any sizes, leaves the screen unchanged |
| TermPixels.WriteBackNumbers | src/apis/term.cpp:383-593 | So does writing back the rows of numbers, in either colour mode |
| TermPixels.VerdictIs | src/apis/term.cpp:395-437 | A call is accepted if and only if it starts beyond the screen, or is a fill with both sizes, none negative, and a colour of the mode, or a table with no negative size; otherwise the argument named is at fault |
| TermPixels.ReadCells | src/apis/term.cpp:509-593 | A read gives the pixel, in 16-colour mode as a power of two, and outside the screen 15 in strings and -1 in numbers |
| TermPixels.SolidFill | src/apis/term.cpp:428-456 | In either colour mode a solid fill changes exactly the cells in the intersection of the rectangle and the screen, to the stored form of the colour |
| TermPixels.DrawnIsRead | src/apis/term.cpp:462-593 | What a string row put on the screen is what is read there |
| TermPixels.DrawnRows | src/apis/term.cpp:462-507 | Of rows of strings and numbers exactly the cells change that rows, sizes and screen have in common, to what the rows say |
| TermPixels.DrawnNumberIsRead | src/apis/term.cpp:479-593 | A number put on the screen is read back, in either colour mode |
| Chest.SeekIsFirst | src/peripheral/chest.cpp:36 | The search passes over exactly the slots that hold other items |
| Chest.SearchTakesNone | src/peripheral/chest.cpp:36-41 | A search places nothing if and only if it finds no slot or stops at a full one, even when a later slot has room |
| Chest.TransferIsShift | api/generic_peripheral/inventory.hpp:77-87 | Whatever chests and slots are named, what is put back always fits, and exactly the items that found a place have moved |
| Chest.TransferConserves | api/generic_peripheral/inventory.hpp:77-87 | A transfer, also of a chest with itself, keeps the number of items of every name, at most 64 a slot, and a name exactly in the slots that are not empty |
| Chest.BackFits | api/generic_peripheral/inventory.hpp:84 | The put-back after a partial insert finds room for all of it |
| Chest.RunConserves | api/generic_peripheral/inventory.hpp:56-88 | So does every run of calls among any chests |
| Chest.KeepsIff | src/peripheral/chest.cpp:38-40 | Adding leaves the slots in order if and only if the slot does not take the item, its count does not change, or the item has a name and the new count is from 1 to 64 |
| Chest.NamedKeep | src/peripheral/chest.cpp:38-40 | Items with a name, in counts of zero or more, always do |
| Chest.SomeBreak | src/peripheral/chest.cpp:38-40 | Two inputs that do not: one item less than none, and an item without a name |
| Chest.Chest.AddItems | src/peripheral/chest.cpp:28-42 | For every name, slot and count: the byte returned and the new slots, and exactly when the slots stay in order; for counts of zero or more as many items as fit are added |
| Chest.Chest.RemoveItems | src/peripheral/chest.cpp:44-50 | As many items are removed as are there, and an emptied slot loses its name |
| Chest.Chest.SetItem | src/peripheral/chest.cpp:52-64 | The same for every name, slot and count; for counts of zero or more the total of one name grows by the number returned and no other changes |
| Chest.Chest.GetItemDetail | src/peripheral/chest.cpp:18-26 | A slot is described if and only if it is in range and not empty |
| Chest.TransferIsLocal | api/generic_peripheral/inventory.hpp:77-87 | A transfer among any number of chests is the transfer between its two; no other chest changes |
| Chest.MoveItems | api/generic_peripheral/inventory.hpp:66-88 | A call is carried out if and only if its slots are in range or no target slot is given; the transfer on the slot arrays is then the specified one; the two slot errors in their order |

## Left out

- GifWriter.GifWriter.constructor: opening the file is not modelled; the file may hold anything before the header. Widths and heights below 65536 only, the range of the format's fields.
- GifHeader.ReadHead: a reader of this header; other extensions between header and images are not read.
- GifFrame.WriteLzwImage: bit depths from 2 to 8, where the smallest code size is the depth.
- Gather.NoOverflow: for one column, or more than 1762 rows, products and sums in `GifDitherImage` stay mathematical integers, and overflow is not modelled; nor is that of the sums in `GifSplitPalette` on very large images.
- SplitPalette.GifPalette: an entry of `treeSplitElt` that no frame ever set holds whatever the stack held; the type `Axis` assumes 0, 1 or 2. With at least 2^depth - 1 pixels every entry is set.
- ColourList.SortPart: stands for the library's sort; only its contract is used.
- Median.Partition: pixels are colours; the alpha byte, which the swap takes from the wrong pixel and nothing reads, is not permuted.
- SplitPalette.Split: the tree arrays have 256 entries, one more than declared, because node 255 is addressed at depth 8.
- ClusterAllocator.ClusterAllocator.Alloc: the bitmap is a field holding a sequence of 32-bit words; ids are unbounded, a header word has 8 bytes, and a new cluster is placed at a given address where no cluster of the list lies. Allocation failure, alignment, the bytes of the elements and programs that write over a header word are not modelled.
- Bitmap.LowestZeroIs: words of 32 bits; those of 64 bits are the subject of `WideBitmap`, one word at a time.
- WideBitmap.IntBit: `1 << 31` is taken to be the negative int with that bit, as compilers have it.
- EventQueue.EventLoop.GetNextEvent: hooks are pure renamings; resize and SDL events, stack growth failures and the abort timer are not modelled, and a wait that nothing ever ends counts as a stop.
- EventQueue.EventLoop.ApplyHooks: a hook that has other effects than renaming is not modelled.
- EventQueue.EventLoop.QueueEvent: the test for an already destroyed computer is not modelled.
- Timers.FaultyIff: record addresses and timer ids are never used twice; the destruction of a computer object itself, and the set of ids a computer keeps, are not modelled beyond what marks its timers as freed.
- Timers.RunsAreSafe: the reads a start makes after the lock are exempt; they are what `Timers.FaultyIff` decides.
- Crc32.Crc.Update: one thread.
- Base64.Decode: the character test is that of ASCII.
- TermPixels.Screen.DrawPixels: origins and sizes are mathematical integers, so the overflow of `pixelWidth - init_x` near the lowest int is not modelled; missing table rows read as absent, and a number in the place of a row, which the program reads as its text, is not modelled. In 16-colour mode colour numbers are powers of two without a 32-bit limit.
- TermPixels.Screen.GetPixels: the same overflow.
- Chest.Chest.SetItem: sums near the largest int are not modelled.
- Chest.Chest.RemoveItems: slot 0, which passes the guard and would read in front of the array, is excluded; the one caller never asks for it.
- Chest.MoveItems: the target is an existing chest; lookup by side, and its two errors, are not modelled.
- The task queue between threads, HTTP, websockets, rendering, the file system API, configuration and plugins: I/O and library plumbing.
