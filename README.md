# Bound Venn diagrams for spreadsheets, in Dafny

This project models the core of a spreadsheet add-on that draws Venn diagrams. The user selects a range of rows `[item, group]`. The add-on does four things:

- It counts the items in every region of the diagram.
- It fills the diagram's fixed drawing, which exists for 2 to 6 sets.
- It inserts the picture next to the range and binds it to the range through its alt text, `bound-diagram#venn#<uniqueId>#<sheetId>#<A1 notation>`.
- It redraws every bound picture whose range an edit touches.

Two source files make up this core, `src/venn.js` and `src/add-on.js`. The modules follow them.

- `Binary`, `Numerals`, `Text` and `Wrappers` hold the JavaScript behaviour the core relies on:
  - `n.toString(2).padStart(N, '0')` and `1 << k`;
  - `String(n)`, `parseInt` and `toFixed(1)`;
  - the default string order of `sort()`;
  - `split('#')` and `startsWith`.
- `VennPartition` models `vennLabelsNames_`. The method `VennLabelsNames` keeps the source's loops:
  - collecting rows into insertion-ordered maps and sets;
  - ORing each item's group bits;
  - counting bitmaps;
  - writing one label per code `1 .. 2^N - 1`.

  Each loop is its own method, proved against the ghost specification `SortedGroupNames` / `VennLabels`. The lemmas then show what those functions promise.
- `VennTemplate` models `vennBody_` and `vennSvg_`. The per-`N` drawings are data: a layout is a list of shapes, label anchors and name anchors. The body is a list of elements, and the document is their markup inside the fixed SVG header.
- `RangeGeometry` models three things:
  - `rangesIntersect_`;
  - `a1NotationToRangeExtent_`, as `ParseA1`, checked against a grammar predicate;
  - the host's `getA1Notation()`, as `HostA1Notation`.
- `BindingCodec` models the alt text written at `src/add-on.js:41`, the bound-image filter and `parseOverGridImageAlt_`.
- `EditSync` models the spreadsheet as a class `Spreadsheet`. It has three fields:
  - `images`, the over-grid images in the host's order;
  - `cache`, the cached index of bound diagrams;
  - `trace`, the writes made so far.

  The class has two operations:
  - `OnEdit` is proved against the ghost function `EditPlan`;
  - `AddBoundDiagram` is stated on the new state directly.

  The host's reads are parameters: `read` for a range's values on the edited sheet, and `naturalSize` for the size the host gives a new or replaced picture.

Some behaviours of the code are easy to misread; the model follows the code:

- A redraw that fails makes the whole edit fail before anything is written, because `Promise.all` rejects (`src/add-on.js:139-145`). Failures are not isolated to their own diagram.
- A bound alt whose type is not `venn` decodes to an empty record. That record's missing notation then breaks the index rebuild (`src/add-on.js:116-117`), so the model returns `MissingNotation`. Such alts are not skipped.
- Colours are looked up as `c[i]`, not cyclically. With the default six colours and at most six sets the two agree (`DefaultColorsSuffice`).
- Group names are drawn with `t(x, y, n[i], c[i], pos)`, and `t` takes only four arguments. The colour therefore becomes the text's class, and the position class is never used (`NamePlaced`).
- The label keys of a diagram are visited in ascending code order. Anchor `i` of a layout therefore belongs to code `i + 1`.

## Model

| member | source | states |
|---|---|---|
| Text.SortStrings | src/venn.js:246 | the sorted names are a permutation of the input, in ascending string order |
| Text.SortDistinct | src/venn.js:246 | sorting distinct names orders them strictly, keeps exactly their elements and their number |
| Text.SortedUnique | src/venn.js:246 | two strictly sorted sequences with the same elements are equal, so any correct sort gives the same names |
| Text.LessTotal | src/venn.js:246 | the default string order compares any two different strings |
| Text.LessTransitive | src/venn.js:246 | the default string order is transitive |
| Text.SplitJoin | src/add-on.js:200 | joining the pieces of `split('#')` with `#` gives the alt back |
| Text.SplitPiecesFree | src/add-on.js:200 | no piece of a split holds the separator |
| Text.SplitAtSeparator | src/add-on.js:200 | the first piece ends at the first separator |
| Text.SplitNoSeparator | src/add-on.js:200 | text without a separator is a single piece |
| Numerals.DecimalString | src/add-on.js:41 | `String(n)` is a non-empty run of decimal digits |
| Numerals.DecimalRoundTrip | src/venn.js:282 | the decimal numeral of a count has that count as its value |
| Numerals.DecimalStringOfValue | src/venn.js:282 | a numeral without leading zeros is what `String` prints for its value |
| Numerals.DigitPrefix | src/add-on.js:204 | `parseInt` reads the longest run of leading digits |
| Numerals.ParseIntDecimal | src/add-on.js:204 | `parseInt(String(n))` is `n` |
| Numerals.PercentTenthsRounds | src/venn.js:283 | the tenths of the percentage are within half a tenth of the exact share |
| Binary.SetBitBits | src/venn.js:264 | `b \| (1 << k)` sets bit `k` and keeps every other bit |
| Binary.SetBitBound | src/venn.js:264 | setting a bit below `N` keeps the bitmap below `2^N` |
| Binary.BitsDetermine | src/venn.js:260-269 | two bitmaps below `2^N` with the same `N` bits are equal |
| Binary.FixedBinaryRoundTrip | src/venn.js:276 | reading the `N`-bit string of a code gives the code back |
| Binary.FromBinaryRoundTrip | src/venn.js:276 | a binary string is the `N`-bit string of its value |
| Binary.KeyIsFixedBinary | src/venn.js:276 | `n.toString(2).padStart(N, '0')` is the `N`-bit string of `n` for `n < 2^N` |
| Binary.KeyRoundTrip | src/venn.js:276 | every code `1 .. 2^N - 1` has a key of `N` binary digits, not all zero, that reads back as the code |
| Binary.FromKey | src/venn.js:276 | every such key is the key of exactly one code in `1 .. 2^N - 1` |
| Binary.KeySetIsKeys | src/venn.js:275-276 | the keys of the codes `1 .. 2^N - 1` are exactly the non-zero `N`-digit binary strings |
| Binary.KeySetSize | src/venn.js:275-276 | there are `2^N - 1` keys, one per code |
| RangeGeometry.IntersectIffSharedCell | src/add-on.js:58-67 | for well-formed extents the four checks hold iff some cell lies in both, so touching edges intersect |
| RangeGeometry.IntersectSymmetric | src/add-on.js:58-67 | the test is symmetric |
| RangeGeometry.IntersectReflexive | src/add-on.js:58-67 | a well-formed extent intersects itself |
| RangeGeometry.ColumnRoundTrip | src/add-on.js:77 | the letters of column `n` read back as `n` (bijective base 26, `A` = 1) |
| RangeGeometry.LettersRoundTrip | src/add-on.js:77 | upper-case column letters are the letters of their number |
| RangeGeometry.ColumnNumberPositive | src/add-on.js:77 | non-empty column letters name a column of at least 1 |
| RangeGeometry.CellSplit | src/add-on.js:79 | the split point ends the leading letters and then the digits that follow |
| RangeGeometry.ParseA1Accepts | src/add-on.js:79-80 | the parse succeeds iff the text is letters and digits, optionally followed by `:` and letters and digits |
| RangeGeometry.ParseA1Sound | src/add-on.js:79-80 | a successful parse has the grammar's shape |
| RangeGeometry.ParseA1Complete | src/add-on.js:79-80 | every text of the grammar's shape parses |
| RangeGeometry.ParseCell | src/add-on.js:82-84 | a single cell gives an extent whose start is its end |
| RangeGeometry.ParseRange | src/add-on.js:82-84 | `L1D1:L2D2` gives `[D1, col(L1), D2, col(L2)]` |
| RangeGeometry.ParseHostNotation | src/add-on.js:69-85 | parsing the host's notation of an extent gives that extent |
| RangeGeometry.HostNotationHasNoHash | src/add-on.js:41 | the host's notation never contains `#` |
| RangeGeometry.ParseFirstCell | src/add-on.js:76-85 | `A1` is row 1, column 1 |
| RangeGeometry.ParseSquare | src/add-on.js:76-85 | `A1:B2` spans rows and columns 1 to 2 |
| RangeGeometry.ParseColumnAA | src/add-on.js:77 | `AA1` is column 27 |
| RangeGeometry.ParseRejects | src/add-on.js:79-80 | `1A`, `a1` and the empty text are rejected |
| BindingCodec.Fields | src/add-on.js:200 | `split('#', 5)` keeps between one and five fields |
| BindingCodec.NoHashInDecimal | src/add-on.js:41 | the numeric fields of an alt never contain `#` |
| BindingCodec.EncodedFields | src/add-on.js:41 | the fields of an encoded alt are the prefix, type, id and sheet id, then those of the notation |
| BindingCodec.DecodeEncoded | src/add-on.js:199-205 | decoding a `venn` alt recovers the sheet id and notation when the notation has no `#` |
| BindingCodec.DecodeTruncates | src/add-on.js:200 | a notation with `#` comes back cut at its first `#` |
| BindingCodec.OtherTypesIgnored | src/add-on.js:201-203 | any other diagram type decodes to the empty record |
| BindingCodec.UniqueIdDropped | src/add-on.js:200-204 | the decoded record does not depend on the unique id |
| BindingCodec.EncodedIsBound | src/add-on.js:193 | every encoded alt passes the bound-image filter |
| BindingCodec.NoTypeNoBinding | src/add-on.js:200-203 | an alt without a second field decodes to the empty record |
| VennPartition.SnocSets | src/venn.js:233-244 | one more row adds its group, its item and that item's membership, and nothing else |
| VennPartition.GroupOrder | src/venn.js:233-237 | the group keys are distinct and are exactly the table's groups |
| VennPartition.ItemOrder | src/venn.js:240-243 | the item keys are distinct and are exactly the table's items |
| VennPartition.NamesAreGroups | src/venn.js:246-247 | `names` is strictly sorted, holds each distinct group exactly once, and `N` is their number |
| VennPartition.MembershipString | src/venn.js:260-265 | an item's membership has one binary digit per name |
| VennPartition.MembershipAt | src/venn.js:260-265 | digit `p` of the membership is `1` iff the item is in group `names[p]` |
| VennPartition.Code | src/venn.js:260-265 | an item's bitmap is below `2^N` |
| VennPartition.CodeBits | src/venn.js:264 | sorted group `p` sets bit `N - p - 1` of the bitmap and no other group does |
| VennPartition.ItemKey | src/venn.js:260-276 | each item lands in one code in `1 .. 2^N - 1`; character `p` of its key is `1` iff the table has the row `[item, names[p]]` |
| VennPartition.CountIsRegionSize | src/venn.js:268-277 | the count of a code is the number of distinct items whose bitmap is that code, 0 for an empty region |
| VennPartition.SumOverItems | src/venn.js:260-269 | the counts over all codes add up to the number of items counted |
| VennPartition.RegionsPartitionItems | src/venn.js:248-269 | the counts over all keys add up to `totalItems`, the number of distinct items |
| VennPartition.FormatPlain | src/venn.js:279-286 | a format without `{` is copied unchanged |
| VennPartition.FormatNoToken | src/venn.js:279-286 | a format in which no `{number}`, `{percent}` or `{logic}` starts anywhere is copied unchanged, stray braces included |
| VennPartition.FormatPrefix | src/venn.js:279-286 | text without `{` in front of a format is copied, and the rest of the format is filled independently |
| VennPartition.PlainCharCopied | src/venn.js:279-286 | a first character other than `{` is copied and the rest is filled |
| VennPartition.PrefixStep | src/venn.js:279-286 | the first character of a `{`-free prefix is copied |
| VennPartition.NumberThenText | src/venn.js:279-286 | `{number} items` becomes the count followed by ` items` |
| VennPartition.StrayBraceCopied | src/venn.js:279-286 | `{x}` starts no token and is copied |
| VennPartition.NumberLabelRoundTrip | src/venn.js:282 | with `{number}` a label reads back as its count |
| VennPartition.LogicLabel | src/venn.js:281 | with `{logic}` a label is its key |
| VennPartition.PercentLabel | src/venn.js:283 | one item of three is labelled `33.3` |
| VennPartition.LabelKeys | src/venn.js:275-288 | `labels` has exactly the non-zero `N`-digit binary keys, `2^N - 1` of them |
| VennPartition.VennLabelsNames | src/venn.js:228-292 | the method returns the sorted group names and the specified labels |
| VennPartition.OrganizeRows | src/venn.js:233-244 | the loop leaves insertion-ordered, duplicate-free groups, items and per-item group sets |
| VennPartition.AddRow | src/venn.js:240-243 | one more row keeps the item keys and per-item group lists equal to those of the longer table |
| VennPartition.GroupsByItemAre | src/venn.js:240-243 | the per-item group lists have exactly the table's items as keys, and each list is duplicate-free and holds exactly that item's groups |
| VennPartition.BitPositions | src/venn.js:251-254 | each name maps to its sorted index and back |
| VennPartition.ItemBitmap | src/venn.js:261-265 | the OR of an item's group bits sets exactly the bits of its groups |
| VennPartition.CountBitmaps | src/venn.js:257-269 | every counter equals the size of its region; codes without a counter have empty regions |
| VennPartition.KeyedBelowAre | src/venn.js:275-288 | the labels written for the codes below `n` have exactly those codes' keys, each filled for its own code |
| VennPartition.WriteLabels | src/venn.js:272-289 | one label per key of `1 .. 2^N - 1`, filled from the template with that code's count |
| VennPartition.SameRowsSameSets | src/venn.js:233-244 | tables with the same rows have the same groups, items and memberships |
| VennPartition.SameRowsSameCounts | src/venn.js:233-269 | tables with the same rows have the same count per code |
| VennPartition.RowOrderIrrelevant | src/venn.js:233-244 | reordering or repeating rows leaves `names` and `labels` unchanged |
| VennTemplate.LayoutFor | src/venn.js:60-219 | a layout exists iff `2 <= N <= 6`, with `N` shapes, `N` name anchors and `2^N - 1` label anchors |
| VennTemplate.VennBody | src/venn.js:51-219 | the body is defined iff `2 <= N <= 6` and then has `2N + 2^N - 1` elements |
| VennTemplate.BodyFromLayout | src/venn.js:51-219 | for 2 to 6 sets the body is the layout's shapes, then its labels, then its names |
| VennTemplate.ShapeAt | src/venn.js:54-219 | element `i` of a body is shape `i` of its layout, filled with `c[i]` |
| VennTemplate.LabelAt | src/venn.js:55-219 | the label elements of a body show, at each anchor, the label of the key of that anchor's code |
| VennTemplate.NameAt | src/venn.js:55-219 | the name elements of a body draw `n[i]` at name anchor `i` with class `c[i]` |
| VennTemplate.ShapesColoured | src/venn.js:60-219 | element `i < N` is shape `i`: an ellipse for `N <= 5` or a triangle for `N = 6`, filled with `c[i]` |
| VennTemplate.RegionLabelled | src/venn.js:60-219 | every non-zero key's label is drawn, at position `N - 1 + code`, without a class |
| VennTemplate.LabelsAreRegions | src/venn.js:60-219 | every label element shows the label of exactly one non-zero key |
| VennTemplate.LabelSection | src/venn.js:60-219 | the label elements are the layout's label anchors in code order |
| VennTemplate.NamePlaced | src/venn.js:55-66 | name `i` is drawn once, with the colour `c[i]` as its class |
| VennTemplate.DefaultColorsSuffice | src/venn.js:18-25 | the six default colours cover every set of a drawable diagram |
| VennTemplate.EvenDiameters | src/venn.js:54 | every ellipse has even diameters, so `dx/2` and `dy/2` are whole numbers |
| VennTemplate.ElementInDocument | src/venn.js:27-46 | each element's markup occurs in the document, after its header |
| VennTemplate.SvgReadBack | src/venn.js:27-46 | `vennSvg_`'s text read between its header and its closing tag gives back the body text, or `undefined` |
| VennTemplate.SvgLayout | src/venn.js:27-46 | the document is the opening tag, then a style element opened and closed, then the body, then the closing tag |
| VennTemplate.BetweenFrame | src/venn.js:27-46 | text framed by a header and a trailer is read back between them |
| VennTemplate.ElementInSvg | src/venn.js:27-46 | every element of the body occurs in the SVG |
| VennTemplate.UnsupportedSetCount | src/venn.js:219 | outside 2 to 6 sets the body is `undefined` |
| EditSync.SvgTextReadBack | src/add-on.js:170-173 | the SVG a Venn picture renders holds the body of its labels and names in the default colours |
| EditSync.FirstTwo | src/add-on.js:165 | `slice(0, 2)` keeps the first two cells, or fewer |
| EditSync.VennTableRows | src/add-on.js:165 | the table holds exactly the first two cells of each row with a non-empty one |
| EditSync.VennTableFails | src/add-on.js:165-168 | a range is rejected before counting iff a kept row has no group cell |
| EditSync.VennImageDrawn | src/add-on.js:163-175 | a drawn picture has 2 to 6 groups, is named after its alt and renders a full body |
| EditSync.SameRowsSameImage | src/add-on.js:165-170 | ranges that keep the same rows draw the same picture |
| EditSync.BoundAlts | src/add-on.js:190-194 | the bound alts are exactly the non-empty image alts with the prefix |
| EditSync.Collect | src/add-on.js:116-119 | a mapped sequence succeeds iff every element does, keeping their values in order |
| EditSync.CollectAppend | src/add-on.js:116-119 | mapping one more element appends its value or fails with its error |
| EditSync.CollectFirstError | src/add-on.js:139-145 | the first failing element decides the error |
| EditSync.IndexEntries | src/add-on.js:116-119 | one entry per bound alt |
| EditSync.Rebuild | src/add-on.js:114-121 | the rebuilt index has one entry per bound alt, and succeeds iff every alt parses |
| EditSync.OtherTypeBreaksRebuild | src/add-on.js:116-117 | one bound image of another diagram type makes the rebuild fail |
| EditSync.EncodedEntry | src/add-on.js:116-118 | the entry of an alt written at insertion is its sheet and range |
| EditSync.AddedAltIndexed | src/add-on.js:41-49 | the alt of an inserted diagram is bound and indexes its sheet and range |
| EditSync.AddedRebuild | src/add-on.js:114-121 | one more bound image adds its entry at the end of the rebuilt index |
| EditSync.AddedDiagramIndexed | src/add-on.js:107-128 | after an insertion the rebuilt index ends with the new diagram, and an edit of its range on its sheet matches it |
| EditSync.Matches | src/add-on.js:123-128 | the matches are exactly the entries on the edited sheet whose extent intersects the edit |
| EditSync.MatchExamples | src/add-on.js:123-128 | B2:C5 on sheet 7 misses A1:A10, hits C3 and C5, misses C3 on sheet 8; an unparsed sheet id never matches |
| EditSync.LiveIndex | src/add-on.js:100-105 | an alt maps to the last bound image carrying it, or to nothing |
| EditSync.Relevant | src/add-on.js:136 | the redrawn images are the live images of the matches; matches without one are dropped |
| EditSync.UpdateFor | src/add-on.js:139-145 | a redraw keeps the image's alt and its width and height from before the replace |
| EditSync.Redraws | src/add-on.js:139-145 | one redraw per live image |
| EditSync.Recompute | src/add-on.js:139-145 | all redraws succeed, in order, or the edit fails |
| EditSync.RecomputeConsistent | src/add-on.js:139-145 | every redraw carries its own image's alt and size |
| EditSync.CachedIndexUsed | src/add-on.js:107-113 | a cached index is kept and used as it is |
| EditSync.LastTarget | src/add-on.js:147-156 | the last redraw aimed at an image, if any |
| EditSync.AfterReplace | src/add-on.js:147-149 | the replace phase changes no image count |
| EditSync.AfterRestore | src/add-on.js:152-156 | the restore phase changes no image count |
| EditSync.AfterReplaceAt | src/add-on.js:147-149 | after the replace phase an image holds the last blob aimed at it, or is untouched |
| EditSync.AfterRestoreAt | src/add-on.js:152-156 | after the restore phase an image carries the last alt and size aimed at it, or is untouched |
| EditSync.RestoreStep | src/add-on.js:152-156 | one more redraw in the restore phase is its three writes on top of the earlier ones |
| EditSync.ApplyKeepsMetadata | src/add-on.js:147-156 | after both phases each image keeps its alt, width and height; only its content changes |
| EditSync.ReplaceEvents | src/add-on.js:147-149 | one replacement per redraw, in order |
| EditSync.MetadataEvents | src/add-on.js:152-156 | three metadata writes per redraw, in order |
| EditSync.TwoPhases | src/add-on.js:147-156 | every replacement precedes the settle, which precedes every metadata write |
| EditSync.EditKeepsMetadata | src/add-on.js:139-156 | an applied edit leaves every image's sheet, anchor, alt and size; a redrawn image gets its new picture |
| EditSync.Spreadsheet.InsertImage | src/add-on.js:43 | the new picture is appended at the given cell with the host's size |
| EditSync.Spreadsheet.Replace | src/add-on.js:148 | only image `i` changes, and one replacement is recorded |
| EditSync.Spreadsheet.Settle | src/add-on.js:207-210 | only a settle is recorded |
| EditSync.Spreadsheet.SetAlt | src/add-on.js:153 | only the alt of image `i` changes |
| EditSync.Spreadsheet.SetWidth | src/add-on.js:154 | only the width of image `i` changes |
| EditSync.Spreadsheet.SetHeight | src/add-on.js:155 | only the height of image `i` changes |
| EditSync.Spreadsheet.GenerateVennImage | src/add-on.js:163-175 | the picture of the range, or the set-count failure |
| EditSync.Spreadsheet.Draw | src/add-on.js:25-27 | only `venn` has a drawing function |
| EditSync.Spreadsheet.PrepareUpdate | src/add-on.js:140-144 | the redraw of one live image as specified |
| EditSync.Spreadsheet.PrepareUpdates | src/add-on.js:139-145 | all redraws, one after the other, without writing |
| EditSync.Spreadsheet.ReplaceAll | src/add-on.js:147-149 | every image aimed at gets its new blob, one replacement event per redraw in order, and the cache is unchanged |
| EditSync.Spreadsheet.RestoreAll | src/add-on.js:152-156 | every image aimed at gets its alt, width and height back, three metadata events per redraw in order, and the cache is unchanged |
| EditSync.Spreadsheet.ApplyUpdates | src/add-on.js:147-156 | all replacements, the settle, then all metadata writes, on the images and in the trace |
| EditSync.Spreadsheet.OnEdit | src/add-on.js:94-157 | follows the plan; keeps a cache hit and stores a rebuilt index; with no match or a failure, no image is written |
| EditSync.Spreadsheet.AddBoundDiagram | src/add-on.js:38-51 | inserts the bound picture right of the range, drops the cached index and sets the alt to the picture's name |

## Left out

- `RangeGeometry.HostA1Notation` assumes bounded selections: the host's notation is always `A1` or `A1:B2`. Whole-column and whole-row selections have the open forms `A:B` and `2:5`, which the parser at `src/add-on.js:79` rejects. A binding made from such a selection would make every later index rebuild fail; the model cannot represent it.
- `src/lib.rs` and `svgToPng_` are not part of this model: they are SVG-to-PNG rasterisation in foreign code. A Venn picture is represented by the labels and names it draws, and `SvgText` gives the SVG text it renders.
- `Utilities.newBlob` is modelled only through the picture's name.
- `Promise.all`: redraws run one after the other. A rejection is the first failing redraw in order, not the first in time.
- `imageUpdateWorkaround_` (flush and sleep) is a `Settled` event in the trace.
- The cache's time to live and its JSON serialisation are left out: the cache holds the index as a value. A NaN sheet id, which JSON turns into `null`, is `None` either way.
- Trigger installation, state tokens, dialogs and menus (`onOpen`, `installTrigger*`, `isTriggerInstalled_`, `getInstallTriggerCallbackURL_`) are left out: they are host wiring.
- `new Date()` for the unique id is a parameter.
- What the host does to the alt and size of a replaced picture is unknown. The model resets the alt and takes `naturalSize`, the worst case the two-phase protocol guards against.
- Cells are text, and the empty string is an empty cell. Numbers, dates and booleans in cells are left out.
- Range values are taken to be rectangular, as the host returns them. `EditSync.VennTable` rejects a kept row without a group cell directly. In JavaScript that row's group is `undefined`, and the set-count guard then rejects the range, because a one-column range has at most one group.
- `Numerals.ParseInt` reads only unsigned leading decimal digits. `parseInt`'s leading whitespace, signs and `0x` hexadecimal prefix are left out: `parseInt("0x10")` is 16, and the model reads 0. Sheet ids written by the add-on are `String(n)` and have none of these.
- `Text.Less` compares characters, not UTF-16 code units. The two orders differ only outside the Basic Multilingual Plane.
- `Numerals.PercentText` is exact rational rounding, half up. `toFixed(1)` on binary floating point can round a midpoint differently.
- `VennPartition.ItemBitmap` does not model 32-bit `1 << k` wrap-around for `N >= 31`. Those counts are rejected by the set-count guard before drawing.
- `VennPartition.WriteLabels` and `VennPartition.VennLabelsNames` loop to `2^N - 1` without the 32-bit wrap-around of the bound `1 << N`. For `N = 31` the source's bound is negative and it writes no labels, while the model writes `2^31 - 1`. The set-count guard then rejects the range either way, so no picture depends on these labels.
- Group and item names are written into the SVG without XML escaping, as in the source. The model does not reason about markup validity.
- `groupsMap`'s per-group item sets are never read by the source and are not modelled. Only its key order, `GroupOrder`, is.
