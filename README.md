# Marching-squares isoline builder, modelled in Dafny

This project models the isoline builder of `MarchingSquares/MarchingSquares.h`
and the records it uses from `MarchingSquares/IsolineTools.h`. The builder
takes a grid of samples and a list of isovalues. For each isovalue it returns
a list of polylines.

**Sequential builder** (`doMarchingSquaresAccelerate`):

- It drops the isovalues outside `[minGridValue, maxGridValue]`.
- It scans the cells row by row, then column by column, then isovalue by
  isovalue.
- For each cell it classifies the four corners into a 4-bit square index and
  resolves the two saddle cases by the corner mean. The lookup tables turn the
  index into 0, 1 or 2 segments.
- It hands every segment to the incremental stitcher:
  - `addPointToLineAccelerate` closes one open line, extends an end of one
    open line, or starts a new line. It consults a five-entry move-to-front
    table of recently extended lines first (`setHitTableAccelerate`).
  - After an extension, `isMergeIsoLineAccelerate` splices at most one other
    line onto the extended end. It also renumbers the line index and the
    table entries.
- A closure pass at the end marks as closed every line whose two end keys lie
  within half a grid unit.

**Parallel builder** (`doMarchingSquaresAccelerateOMP`):

- It fills a buffer of two slots per cell and isovalue with the sentinel
  isovalue 999.
- It writes every segment into its slot (`doGridCalcOMP`).
- It stitches four quarters of the buffer separately.
- It merges neighbouring quarters along a band of rows (`isMergeTwoArea`).
  The band's open fragments are joined pairwise by `isMergeTwoIsoLine`.
- The model of this builder carries the two corrections listed under
  "## Findings": the joined line's head key at line 941, and the third
  section bound when the buffer holds two slots. On the inputs those rows
  name, its output differs from the source's; elsewhere it is the same.

**Keys.** Every line carries two end keys: the midpoints, in grid-index units,
of the cell edges that hold its first and last point. Keys are exact pairs of
reals; the half-integers are represented exactly. Every join decision compares
keys, never interpolated coordinates.

**Modelling style.**

- The imperative functions become Dafny methods with their loops.
  - Each method is proved equal to a specification function of its inputs.
  - The properties are proved as lemmas about that function.
- Functions that take vectors by reference take the old values and return the
  new ones. `m` and the hit table are returned too.
- The segment buffer is a Dafny `array<Edge>`.
- The three loops of `isMergeTwoArea` are the three methods
  `PullFirstRegion`, `PullSecondRegion` and `JoinBand`.
- The four parallel sections run one after another. They read disjoint slices
  of the buffer and build into separate accumulators.

Modules:

| module | contents |
|---|---|
| `IsolineTools` | `Point2D`, `Isoline` and `Edge`, and point bags |
| `PointLists` | the four loops that move a point list |
| `Tables` | `EdgeTable` and `SegmentTable` |
| `EdgeKeys` | edge keys and cut corners |
| `Cells` | classification |
| `HitTable` | the move-to-front table |
| `Stitcher` | `isMergeIsoLineAccelerate` |
| `Accumulate` | `addPointToLineAccelerate` |
| `Sequential` | filter, scan and closure |
| `SlotArith` | slot index arithmetic |
| `Slots` | what the grid pass writes and what the sections read |
| `Parallel` | grid pass, sections and driver |
| `BandMerge` | `isMergeTwoIsoLine` and `isMergeTwoArea` |

## Model

| member | source | states |
|---|---|---|
| IsolineTools.SamePoint | MarchingSquares/IsolineTools.h:11-14 | two points compare equal exactly when both coordinates are equal, i.e. exactly when they are the same key |
| IsolineTools.PushFront | MarchingSquares/IsolineTools.h:20-28 | inserting at the head puts the point first, keeps the old points after it, and changes no other field of the line |
| IsolineTools.PushBack | MarchingSquares/IsolineTools.h:20-28 | inserting at the tail puts the point last, keeps the old points before it, and changes no other field of the line |
| IsolineTools.ReverseMultiset | MarchingSquares/MarchingSquares.h:857-861 | reading a point list backwards (moving it with back and pop_back) keeps every point |
| PointLists.PushBackAll | MarchingSquares/MarchingSquares.h:883-887 | moving src front-first to the back of dst yields dst followed by src |
| PointLists.PushFrontAll | MarchingSquares/MarchingSquares.h:908-912 | moving src front-first to the front of dst yields src reversed, followed by dst |
| PointLists.PushBackFromLast | MarchingSquares/MarchingSquares.h:857-861 | moving src back-first to the back of dst yields dst followed by src reversed |
| PointLists.PushFrontFromLast | MarchingSquares/MarchingSquares.h:942-946 | moving src back-first to the front of dst yields src followed by dst, in src's order |
| Tables.EdgeTableComplement | MarchingSquares/MarchingSquares.h:19-39 | the edge flags of index k and of its complement 15-k are the same |
| Tables.EdgeTableZero | MarchingSquares/MarchingSquares.h:19-39 | an index has no flagged edge exactly when it is 0 or 15 |
| Tables.EdgeTableIsCornerChange | MarchingSquares/MarchingSquares.h:19-39 | edge e is flagged in EdgeTable[k] exactly when the two corners of edge e lie on different sides in k |
| Tables.SegmentTableMatchesEdgeTable | MarchingSquares/MarchingSquares.h:19-62 | the edges listed in SegmentTable[k] before the -1 terminator are exactly those flagged in EdgeTable[k] (leftmost bit is edge 0); there are 2 segments for k = 5 and k = 10, none for 0 and 15, one otherwise; each segment joins two different edges; the two saddle segments share no edge |
| Tables.PairsOfRows | MarchingSquares/MarchingSquares.h:42-62 | the segments read from a row are its first pair, or both pairs for the saddle rows 5 and 10, or none for rows 0 and 15 |
| Tables.TableRowsTerminated | MarchingSquares/MarchingSquares.h:42-62 | every row has five entries and ends with the -1 terminator, so the reading loop stops inside the row |
| EdgeKeys.CutCorners | MarchingSquares/MarchingSquares.h:162-176 | the two corners the cut point of edge e interpolates between are corners of cell (i, j) and differ in exactly one coordinate |
| EdgeKeys.CutCornersMatchTables | MarchingSquares/MarchingSquares.h:162-176 | those corners are the two corners whose bits define edge e in the tables |
| EdgeKeys.MiddlePoint | MarchingSquares/MarchingSquares.h:118-143 | the key of local edge e of cell (i, j) is the midpoint of that edge's two corners |
| EdgeKeys.KeysDistinctInCell | MarchingSquares/MarchingSquares.h:118-143 | the four edge keys of one cell are pairwise distinct |
| EdgeKeys.NeighbourKeysShared | MarchingSquares/MarchingSquares.h:118-143 | edge 2 of cell (i, j) has the key of edge 0 of cell (i, j+1), and edge 3 of cell (i, j) has the key of edge 1 of cell (i+1, j) |
| EdgeKeys.NeighbourCutCornersReversed | MarchingSquares/MarchingSquares.h:118-176 | such a shared edge is interpolated between the same two corners in both cells, listed in opposite order |
| EdgeKeys.KeyEqualityIsSameEdge | MarchingSquares/MarchingSquares.h:118-143 | two edge keys are equal exactly when they name the same edge of the grid, from either adjoining cell |
| EdgeKeys.NearKeysInCell | MarchingSquares/MarchingSquares.h:738 | within one cell two different edge keys pass the half-unit closure test exactly when their edges meet at a corner |
| Cells.PrefilterMax | MarchingSquares/MarchingSquares.h:677-681 | the pre-filter's upper bound is the largest corner, or 0 when every corner is below 0 |
| Cells.PrefilterMin | MarchingSquares/MarchingSquares.h:677-685 | the pre-filter's lower bound is the smallest corner, capped at the largest finite float |
| Cells.SquareIndex | MarchingSquares/MarchingSquares.h:694-698 | the index is in [0, 15], with bit 8, 4, 2 or 1 set exactly when corner data[i][j], data[i][j+1], data[i+1][j+1] or data[i+1][j], respectively, is at or above the isovalue |
| Cells.ResolveSaddle | MarchingSquares/MarchingSquares.h:700-718 | the index changes exactly when it is 5 or 10 and the corner mean is strictly below the isovalue, and then 5 and 10 swap |
| Cells.CellPairs | MarchingSquares/MarchingSquares.h:687-726 | a cell emits at most two segments for an isovalue, each joining two different local edges 0..3 |
| Cells.CellPairsExactlyInRange | MarchingSquares/MarchingSquares.h:677-726 | a cell emits a segment exactly when the isovalue lies in (smallest corner, largest corner]; the pre-filter maximum starting at 0 never lets an extra segment through |
| Cells.SaddleSegmentsIsolateCorners | MarchingSquares/MarchingSquares.h:700-726 | in a saddle cell each segment cuts off one corner, and that corner lies on the other side of the isovalue from the corner mean |
| Cells.IsoEdges | MarchingSquares/MarchingSquares.h:719-726 | the segment records of one cell and isovalue are well formed, one per emitted segment, naming that cell, that isovalue index and its value |
| Cells.CellEdgesUpTo | MarchingSquares/MarchingSquares.h:687-727 | the records of one cell for its isovalues in order name that cell and an isovalue below the bound |
| HitTable.SetHitTable | MarchingSquares/MarchingSquares.h:443-475 | the loop computes HitAfter: an empty table becomes [h]; a table headed by h is unchanged; otherwise h is put in front and the old entries follow in order, the last one dropped when the table is at capacity |
| HitTable.HitAfter | MarchingSquares/MarchingSquares.h:443-475 | states the move-to-front rule above, and that every entry afterwards is h or an old entry |
| HitTable.HitAfterValid | MarchingSquares/MarchingSquares.h:443-475 | a hit at a valid line index leaves that index in front, keeps every entry a valid index, and and a table that was within capacity stays within it |
| Stitcher.JoinWith | MarchingSquares/MarchingSquares.h:199-427 | another line can join the grown end exactly when one of its two keys equals the new key |
| Stitcher.FirstJoin | MarchingSquares/MarchingSquares.h:195-197 | the partner is the first line other than m that can join, and no earlier line can |
| Stitcher.RenumberHits | MarchingSquares/MarchingSquares.h:219-231 | the renumbering loop over the hit table computes Renumbered: entries above the erased index move down by one, and entries naming it name the survivor |
| Stitcher.Join | MarchingSquares/MarchingSquares.h:214-270 | erasing the removed line and renumbering m and the table gives Joined, the list with the survivor in place and the other line gone |
| Stitcher.SpliceLines | MarchingSquares/MarchingSquares.h:199-427 | moving the points case by case gives Splice: the survivor takes the spliced content and the other line is erased |
| Stitcher.MergeIsoLineAccelerate | MarchingSquares/MarchingSquares.h:191-430 | the scan over the lines returns exactly MergeSpec: the first line other than m with a key at the grown end is spliced on, or nothing changes |
| Stitcher.MergeIffKeyShared | MarchingSquares/MarchingSquares.h:191-430 | the merge happens exactly when another line has the new key at one of its ends; a failed merge leaves the lines, m and the table unchanged |
| Stitcher.SplicedLineOrder | MarchingSquares/MarchingSquares.h:199-427 | in head-head and tail-tail joins the longer line survives, with ties going to line i; otherwise the line whose tail is joined survives; the survivor keeps its isovalue and flags and its points in its own order; the other line, read in one direction or the other, is attached at the survivor's end that carries the shared key, without the other line's copy of the point there; the keys are the two free ends |
| Stitcher.SplicedLineCount | MarchingSquares/MarchingSquares.h:199-427 | the spliced line holds a + b - 1 points: every point of both lines except the erased line's copy at the shared key |
| Stitcher.MergeSurvivor | MarchingSquares/MarchingSquares.h:191-430 | a merge removes exactly one line, and the returned m indexes the survivor, which holds the spliced line |
| Stitcher.MergeKeepsOthers | MarchingSquares/MarchingSquares.h:216-270 | after a merge every other line is kept, shifted past the erased one; every valid hit entry still names the same line, or the survivor if it named either joined line |
| Stitcher.MergeCounts | MarchingSquares/MarchingSquares.h:191-430 | a merge keeps every line at two points or more, and exactly one point leaves the lines: the dropped copy of the shared key's point |
| Stitcher.MergeKeepsIsovalue | MarchingSquares/MarchingSquares.h:191-430 | lines that share one isovalue still share it after a merge |
| Stitcher.MergeStitchable | MarchingSquares/MarchingSquares.h:191-430 | after a merge every line still holds at least two points |
| Accumulate.ExtensionFor | MarchingSquares/MarchingSquares.h:510-557 | a line is acted on exactly when it is open and one of its keys is mid1 or mid2; it is closed exactly when its two keys are mid1 and mid2 in either order |
| Accumulate.FirstCached | MarchingSquares/MarchingSquares.h:506-558 | the first hit table entry whose line the segment acts on, with no earlier entry's line acted on |
| Accumulate.FirstOpen | MarchingSquares/MarchingSquares.h:560-614 | the first line of the list the segment acts on, with no earlier line acted on |
| Accumulate.ExtendLine | MarchingSquares/MarchingSquares.h:514-557 | the action on the chosen line yields Extended: close it, or push the other cut point, move that key, try one merge, then record the hit |
| Accumulate.AddPointToLineAccelerate | MarchingSquares/MarchingSquares.h:497-630 | the two search loops and the new-line branch compute AddPointSpec: lines from the hit table are tried first, then the whole list, else the segment starts a new line |
| Accumulate.ChoiceOfLine | MarchingSquares/MarchingSquares.h:506-614 | a line is chosen exactly when some open line has mid1 or mid2 as a key, and closed lines are never chosen |
| Accumulate.GrownValid | MarchingSquares/MarchingSquares.h:526-527 | after growing, merging and the hit, every table entry names a line, the survivor is in front, and the table stays within five entries |
| Accumulate.GrownCounts | MarchingSquares/MarchingSquares.h:526 | a merge leaves one line and one point fewer; no merge leaves the lines and m as they were |
| Accumulate.AddPointNewLine | MarchingSquares/MarchingSquares.h:615-629 | when no open line has either key, one open, non-border, two-point line [p1, p2] keyed (mid1, mid2) is appended; the table is unchanged, so a new line is not cached |
| Accumulate.AddPointCloses | MarchingSquares/MarchingSquares.h:514-518 | a segment whose keys are the chosen line's two keys only sets its closed flag: no point is added, the keys stay, and the table is unchanged |
| Accumulate.AddPointExtends | MarchingSquares/MarchingSquares.h:520-557 | otherwise exactly one cut point is added at the matching end, that end's key moves to the other key, one merge is tried, and the survivor goes to the front of the table |
| Accumulate.AddPointKeepsValid | MarchingSquares/MarchingSquares.h:497-630 | every line keeps two points or more, every table entry names a line, the table stays within five entries, and a common isovalue is kept |
| Sequential.FilterIsovalues | MarchingSquares/MarchingSquares.h:657-664 | the in-place erase loop leaves exactly Kept: the isovalues in [minGridValue, maxGridValue], in their original order |
| Sequential.KeptCounts | MarchingSquares/MarchingSquares.h:657-664 | every isovalue in range is kept as often as it occurs, and none outside the range is kept |
| Sequential.KeptInRange | MarchingSquares/MarchingSquares.h:657-664 | every kept isovalue lies in [minGridValue, maxGridValue] |
| Sequential.KeptIdempotent | MarchingSquares/MarchingSquares.h:657-664 | filtering a second time changes nothing |
| Sequential.KeptAppend | MarchingSquares/MarchingSquares.h:657-664 | the filter works element by element: filtering a concatenation filters each part |
| Sequential.Ingest | MarchingSquares/MarchingSquares.h:719-726 | adding one segment keeps every isovalue's lines and table valid and leaves every other isovalue's lines and table unchanged |
| Sequential.FoldSeparatesIsovalues | MarchingSquares/MarchingSquares.h:725 | segments of other isovalues never touch an isovalue's lines or table |
| Sequential.FoldAppend | MarchingSquares/MarchingSquares.h:669-730 | adding x then y is adding x followed by y |
| Sequential.CellBounds | MarchingSquares/MarchingSquares.h:677-685 | the eight comparisons compute the pre-filter's bounds |
| Sequential.ClassifyCell | MarchingSquares/MarchingSquares.h:689-718 | the pre-filter, square index, table check and saddle resolution give an index whose segments are exactly the cell's segments, or skip a cell that emits none |
| Sequential.WalkSegments | MarchingSquares/MarchingSquares.h:721-726 | the loop over the table row adds exactly the cell's segment records for that isovalue, in order |
| Sequential.ScanIsovalue | MarchingSquares/MarchingSquares.h:687-727 | one isovalue at one cell adds exactly that cell's records for it |
| Sequential.ScanCell | MarchingSquares/MarchingSquares.h:673-728 | one cell adds its records for every isovalue in order |
| Sequential.ScanRow | MarchingSquares/MarchingSquares.h:672-729 | one row adds the records of its cells in column order, over data[i].size() - 1 cells |
| Sequential.ScanGrid | MarchingSquares/MarchingSquares.h:669-730 | the row-by-row scan adds exactly GridEdges, in scan order, to empty lists |
| Sequential.ClosureLoop | MarchingSquares/MarchingSquares.h:732-746 | the closure pass computes ClosurePass |
| Sequential.ClosurePassFacts | MarchingSquares/MarchingSquares.h:732-746 | the closure pass keeps every line's points, isovalue, border flag and head key; a line is closed afterwards exactly when it was closed or its keys were within half a unit, and then both keys are equal; other lines are untouched; a second pass changes nothing |
| Sequential.ClosedOutput | MarchingSquares/MarchingSquares.h:732-746 | after the closure pass no open line has its two keys within half a unit |
| Sequential.DoMarchingSquaresAccelerate | MarchingSquares/MarchingSquares.h:649-747 | the driver returns the filtered isovalues and the closure pass over the lines built from the scan's segments in scan order |
| Sequential.SequentialOutput | MarchingSquares/MarchingSquares.h:649-747 | there is one line list per kept isovalue, and every kept isovalue is in range; every line holds two points or more and carries its list's isovalue; no open line has near keys |
| SlotArith.SlotIndexIsOffset | MarchingSquares/MarchingSquares.h:812 | the slot of the segment at table position k (0 or 2) is the first slot of its cell and isovalue plus k / 2 |
| SlotArith.SlotIndexInRange | MarchingSquares/MarchingSquares.h:812 | for in-range i, j, m and k in {0, 2} the slot lies in [0, edgeSize), where edgeSize = dataSize_i * dataSize_j * isovaluesNum * 2 |
| SlotArith.SlotIndexInjective | MarchingSquares/MarchingSquares.h:812 | different (i, j, m, k) in range get different slots |
| SlotArith.CellSlotsInRange | MarchingSquares/MarchingSquares.h:1153 | the 2 * isovaluesNum slots of every cell lie inside the buffer |
| Slots.RectangularRows | MarchingSquares/MarchingSquares.h:672 | on a rectangular grid the sequential scan's per-row cell count is the first row's cell count used by the parallel builder |
| Slots.CellWrites | MarchingSquares/MarchingSquares.h:784-821 | a cell owns 2 * isovaluesNum slots; the records it writes there are its segment records in isovalue order |
| Slots.GridWrites | MarchingSquares/MarchingSquares.h:1163-1170 | the pass writes exactly EdgeSize slots; the records written, in slot order, are the pass's segment records in row-by-row scan order |
| Slots.PassEdges | MarchingSquares/MarchingSquares.h:1163-1170 | on a rectangular grid the pass's records are the sequential scan's records |
| Slots.LiveMembers | MarchingSquares/MarchingSquares.h:1182 | the records a section hands on are exactly its slots without the sentinel isovalue |
| Slots.BufferLive | MarchingSquares/MarchingSquares.h:1157-1170 | after the fill and the pass, the buffer's non-sentinel slots are the pass's records that do not carry the sentinel |
| Slots.BufferIsScan | MarchingSquares/MarchingSquares.h:1157-1170 | on a rectangular grid with no isovalue equal to 999, the buffer's non-sentinel slots, in slot order, are exactly the sequential scan's segments |
| Slots.SentinelIsovalueDropped | MarchingSquares/MarchingSquares.h:1160 | a segment of an isovalue equal to 999 is never handed on from the buffer |
| Slots.SentinelCollision | MarchingSquares/MarchingSquares.h:1160 | on the grid [[1000, 1000], [998, 998]] with the isovalue 999, the sequential scan emits one segment while the parallel buffer hands on none |
| Parallel.FillSentinel | MarchingSquares/MarchingSquares.h:1157-1161 | every slot gets the sentinel isovalue; its other fields stay as they were |
| Parallel.WriteSegments | MarchingSquares/MarchingSquares.h:808-819 | the loop over the table row writes the cell's records for isovalue m into that isovalue's two slots and leaves every other slot as it was |
| Parallel.IsovalueSlots | MarchingSquares/MarchingSquares.h:778-821 | one isovalue at one cell writes its records, or writes nothing when the pre-filter or the tables reject the isovalue |
| Parallel.GridCalcOMP | MarchingSquares/MarchingSquares.h:764-823 | one cell writes exactly CellWrites over its own slots and changes no other slot |
| Parallel.GridPassRow | MarchingSquares/MarchingSquares.h:1163-1170 | one row of cells writes its records over its own slots |
| Parallel.GridPass | MarchingSquares/MarchingSquares.h:1163-1170 | the whole pass leaves the buffer as the fill overlaid with GridWrites |
| Parallel.RunSection | MarchingSquares/MarchingSquares.h:1178-1190 | a section adds its slice's non-sentinel records in slot order to empty lists |
| Parallel.SectionBuild | MarchingSquares/MarchingSquares.h:1176-1227 | every section's lines are valid, each line carries its isovalue and at least two points |
| Parallel.BufferSection | MarchingSquares/MarchingSquares.h:1176-1227 | a slice of the buffer hands on exactly the live records the pass wrote into that slice |
| Parallel.Section | MarchingSquares/MarchingSquares.h:1176-1227 | each section's result is SectionBuild of its slice |
| Parallel.SectionsOverlapAsWritten | MarchingSquares/MarchingSquares.h:1172-1174 | with edgeSize == 2 the bounds as written are (0, 1, 0), and slot 0 is read by two sections |
| Parallel.SectionsAsWrittenOrdered | MarchingSquares/MarchingSquares.h:1172-1174 | for even buffer sizes, the bounds as written are in order exactly when edgeSize != 2 |
| Parallel.SectionBounds | MarchingSquares/MarchingSquares.h:1172-1174 | the corrected bounds, with the third bound raised to the second where it would fall below it, are in order within the buffer |
| Parallel.SectionBoundsAsWrittenElsewhere | MarchingSquares/MarchingSquares.h:1172-1174 | for even buffer sizes the corrected bounds equal the bounds as written exactly when edgeSize != 2 |
| Parallel.BufferBoundsAsWritten | MarchingSquares/MarchingSquares.h:1153-1174 | every buffer size is even, so on every grid the corrected bounds differ from the bounds as written only when the buffer has two slots |
| Parallel.SectionsCoverOnce | MarchingSquares/MarchingSquares.h:1172-1227 | with the corrected bounds every slot is read by exactly one section |
| Parallel.SectionsPartition | MarchingSquares/MarchingSquares.h:1172-1227 | the four sections read one after the other hand on the pass's live records in pass order |
| Parallel.SectionsAreScan | MarchingSquares/MarchingSquares.h:1163-1227 | on a rectangular grid with no isovalue equal to 999, the four sections together take exactly the sequential scan's segments, in scan order |
| Parallel.PassIsScan | MarchingSquares/MarchingSquares.h:1163-1170 | on such a grid, the pass's live records are the sequential scan's segments |
| Parallel.BuildSections | MarchingSquares/MarchingSquares.h:1172-1227 | the four sections build SectionsLines |
| Parallel.SectionsLines | MarchingSquares/MarchingSquares.h:1176-1227 | every section's lines carry their isovalue and at least two points |
| Parallel.MergeAll | MarchingSquares/MarchingSquares.h:1229-1247 | merging at dataSize_i / 4, at dataSize_i / 4 * 3 and then at dataSize_i / 2, followed by the closure pass, gives MergeSections |
| Parallel.MergeSectionsOutput | MarchingSquares/MarchingSquares.h:1229-1247 | the merged lines keep their isovalue and at least two points, and no open line is left with near keys |
| Parallel.ParallelLines | MarchingSquares/MarchingSquares.h:1111-1250 | the parallel builder's output has one list per isovalue; every line carries its isovalue and at least two points; no open line has near keys |
| Parallel.DoMarchingSquaresAccelerateOMP | MarchingSquares/MarchingSquares.h:1111-1250 | the driver returns the filtered isovalues and the four sections' lines merged in the source's order and closed; it runs the corrected pairwise merge and section bounds of "## Findings", so it differs from the source where those rows say |
| Parallel.ParallelOutput | MarchingSquares/MarchingSquares.h:1111-1250 | the parallel output satisfies the same guarantees as the sequential one: kept isovalues in range, one list per isovalue, lines tagged with at least two points, no open line with near keys |
| BandMerge.PairCaseOf | MarchingSquares/MarchingSquares.h:841-999 | nothing joins when a line is empty or closed or no keys match; both ends matching (same or crossed) is tested before a single end |
| BandMerge.MergeTwoIsolines | MarchingSquares/MarchingSquares.h:839-1000 | the point-moving loops and erase give MergeTwoSpec, with the head key of the head-to-tail case taken from the other line (see Findings) |
| BandMerge.JoinedPairChains | MarchingSquares/MarchingSquares.h:851-998 | the joined line is the two fragments end to end, each read in some direction, keyed by its two outer ends |
| BandMerge.JoinedPairContents | MarchingSquares/MarchingSquares.h:851-998 | the joined line holds all points of both fragments, the shared one twice (a + b points); it keeps the survivor's isovalue and border flag; it is closed, with equal keys, exactly when both ends matched |
| BandMerge.StaleHeadKey | MarchingSquares/MarchingSquares.h:941 | as written, the head-to-tail join in which the first line survives keeps the shared key at its head; the joined line is not keyed by its outer ends |
| BandMerge.MergeTwoOutcome | MarchingSquares/MarchingSquares.h:839-1000 | nothing changes exactly when the fragments do not join; otherwise one line fewer remains, the longer line (the first, j1, on a tie) holds the joined line, and every other line is kept in order |
| BandMerge.MergeTwoKeepsBag | MarchingSquares/MarchingSquares.h:839-1000 | the pairwise merge keeps every point, the shared one included |
| BandMerge.MergeTwoKeepsTotal | MarchingSquares/MarchingSquares.h:839-1000 | the pairwise merge keeps the point count |
| BandMerge.PullBorder | MarchingSquares/MarchingSquares.h:1025-1040 | the erase loop leaves exactly Remaining and appends exactly Border, both in order |
| BandMerge.PullSplitsPoints | MarchingSquares/MarchingSquares.h:1025-1040 | the lines and their points split between what stays and what is pulled out |
| BandMerge.PullSelects | MarchingSquares/MarchingSquares.h:1025-1040 | the lines that stay are exactly the closed ones and those with no end key in (mergePos - 1, mergePos]; each pulled fragment is open, in the band and marked as a border line |
| BandMerge.ClosedLinesStay | MarchingSquares/MarchingSquares.h:1031 | a closed line is never pulled out |
| BandMerge.FirstPartner | MarchingSquares/MarchingSquares.h:1069-1078 | the first fragment after j that joins fragment j, with no fragment in between joining it |
| BandMerge.StitchFragments | MarchingSquares/MarchingSquares.h:1064-1079 | the double loop, which retries j after a merge, computes Stitch |
| BandMerge.StitchKeepsBag | MarchingSquares/MarchingSquares.h:1064-1079 | stitching keeps every point of the fragments |
| BandMerge.StitchKeepsLines | MarchingSquares/MarchingSquares.h:1064-1079 | stitching keeps a common isovalue and at least two points per line |
| BandMerge.StitchSettles | MarchingSquares/MarchingSquares.h:1064-1079 | after stitching no two fragments join |
| BandMerge.AppendLines | MarchingSquares/MarchingSquares.h:1081-1090 | appending one by one gives dst followed by src |
| BandMerge.PullFirstRegion | MarchingSquares/MarchingSquares.h:1023-1041 | the first region keeps Remaining, and the fragments hold Border, per isovalue |
| BandMerge.PullSecondRegion | MarchingSquares/MarchingSquares.h:1043-1061 | the second region keeps Remaining, and the fragments gain its Border after the first region's |
| BandMerge.JoinBand | MarchingSquares/MarchingSquares.h:1064-1091 | per isovalue the first region becomes its remaining lines, the stitched fragments, then the second region's remaining lines |
| BandMerge.MergeTwoArea | MarchingSquares/MarchingSquares.h:1014-1092 | the band merge yields AreaMerged for the first region and AreaRest for the second |
| BandMerge.AreaConserves | MarchingSquares/MarchingSquares.h:1014-1092 | the band merge keeps every point of both regions, and their total count, isovalue by isovalue |
| BandMerge.AreaKeepsSettledLines | MarchingSquares/MarchingSquares.h:1014-1092 | every line of either region that is closed or has no key in the band is kept unchanged; no two stitched fragments join |
| BandMerge.AreaKeepsLines | MarchingSquares/MarchingSquares.h:1014-1092 | the merged lines keep their isovalue and at least two points when the input lines do |

## Left out

- VertexInterp's floating-point interpolation is left out, because its
  arithmetic never affects a key comparison (MarchingSquares/MarchingSquares.h:64, 81-105). This covers the
  V_EPSILON snapping to a corner, the `mu` fraction and the map to longitude
  and latitude. It is the `Interp` parameter of the drivers: a function of
  the isovalue and the two corners with their samples. `Cells.GetCutPoint`
  picks the corners, as `getCutPoint` does.
- `getCutPoint` returns nothing for an edge index outside 0..3. The model
  requires the index to be in 0..3.
- `float` is modelled as `real`. Rounding, NaN and infinities are not
  modelled. `FLT_MAX` is its exact value. The closure test's `abs` is the
  absolute value of the real difference.
- OpenMP parallelism is left out: the sections run one after another. They
  read disjoint slices of the buffer and build into separate accumulators.
- `new[]` and `delete[]` become a Dafny `array<Edge>`. The fields of a fresh
  `Edge` are uninitialised in the source. The model starts from whatever the
  array holds and changes only the isovalue.
- 32-bit `int` overflow of `edgeSize` and of the slot index is not modelled;
  integers are unbounded.
- Stitcher.MergeIsoLineAccelerate, Accumulate.AddPointToLineAccelerate: both
  require every line to hold at least two points. The source relies on this
  implicitly: every line it creates has two points, and `AddPointKeepsValid`
  proves that this is kept.
- Sequential.DoMarchingSquaresAccelerate: requires that no row is shorter than
  the one before it. The scan reads row `i + 1` with the cell count of row
  `i`, so a shorter next row would be read out of bounds.
- Parallel.DoMarchingSquaresAccelerateOMP: requires a non-empty grid whose
  first row is non-empty and no shorter than any other row. The builder takes
  every row's cell count from the first row.
- BandMerge.MergeTwoIsolines: models the corrected join of line 941. In the
  head-to-tail case where j1 survives, the joined line's head key is j2's
  head key, where the source keeps the shared key. Only that case differs.
- Parallel.DoMarchingSquaresAccelerateOMP: models the corrected program. It
  uses BandMerge.MergeTwoIsolines as above, and its sections use
  Parallel.SectionBounds. The two differ from the source only when the
  buffer holds exactly two slots (one cell, one isovalue). There the source
  reads slot 0 in two sections.
- Slots.BufferIsScan, Parallel.SectionsAreScan: equal to the sequential scan
  only on rectangular grids with no isovalue equal to 999. Slots.SentinelCollision
  shows the case that breaks it.
- The isovalues are passed by reference and filtered in place in the source.
  The model returns the filtered list as `isos`.
- CubicSplineInterpolation/CubicInterpolation.cpp, CubicSplineInterpolation/CubicInterpolation.h
  and both `main.cpp` files are not part of this model; they are independent
  of the isoline builder.

## Findings

| source | as written | input that shows it | evidently intended | confidence | as-written member | corrected member |
|---|---|---|---|---|---|---|
| MarchingSquares/MarchingSquares.h:941 | In the head-to-tail case where line j1 survives, j1's head key is assigned to itself. The joined line starts with j2's points but keeps the shared key at its head. | two 2-point fragments, a keyed (K, A) and b keyed (B, K): the joined line is b's points then a's, keyed (K, A) instead of (B, A) | `startPoint` takes j2's head key, as the survivor takes the far key of the other line in the other single-end cases | high; not executed | BandMerge.JoinedPairAsWritten, BandMerge.StaleHeadKey | BandMerge.JoinedPair, BandMerge.JoinedPairChains, BandMerge.MergeTwoIsolines |
| MarchingSquares/MarchingSquares.h:1172-1174 | The third section bound is `edgeSize / 4 * 3`. It truncates before multiplying, and with two slots it falls below the second bound `edgeSize / 2`. | edgeSize == 2 (one cell, one isovalue): the bounds are (0, 1, 0), so sections 2 and 4 both read slot 0 and its segment is stitched twice | sections that partition the buffer: the third bound is never below the second, so with two slots the bounds are (0, 1, 1); every other buffer size keeps the bounds as written | high; not executed | Parallel.SectionBoundsAsWritten, Parallel.SectionsOverlapAsWritten | Parallel.SectionBounds, Parallel.SectionsCoverOnce, Parallel.BufferBoundsAsWritten, Parallel.BuildSections |
