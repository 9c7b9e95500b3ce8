# faim-hcs tile alignment and chunk assembly, in Dafny

This project models the engine that builds per-well mosaics in faim-hcs.
It also models the well and plate bookkeeping around that engine.

- **Origin shift** (`shift_to_origin`). Every tile's 5-component position
  (time, channel, z, y, x) is moved so that the per-axis minimum becomes 0.
  The code changes the caller's tiles in place. The model does the same
  on an `array<Tile>`.
- **Alignment strategies.**
  - `AbstractAlignment` first shifts its tiles to the origin, then aligns
    those same, already shifted, tiles.
  - Stage alignment returns its input.
  - Grid alignment groups tiles into cells of the common tile shape and
    emits them row-major over the occupied rows and columns. Each emitted
    position is snapped to the cell's corner.
- **Chunk assembly.**
  - `translate_tiles_2d` warps each tile by an integer shift into the
    chunk's frame, filling with 0, and builds an in-bounds mask.
  - The warped tiles are fused by `fuse_sum` or `fuse_mean`.
  - `assemble_chunk` returns zeros for a chunk with no tiles, and otherwise
    the fused image with three leading singleton axes.
- **Well and plate bookkeeping** (the `hcs` and `io` acquisition classes):
  - the well's extent, and the common well shape across wells;
  - the OMERO channel list, with placeholders for missing channel indices;
  - the dispatch to an alignment strategy, which raises ValueError for an
    unknown option;
  - the row/column split of a well name;
  - the axis list;
  - the multiscale coordinate transformations;
  - the single-well check of the `WellAcquisition` constructor.
- **CellVoyager.**
  - `_parse_files` turns the measurement records into file rows.
  - `get_channel_metadata` turns the channel table into a dictionary
    keyed by channel index.

Modules:

| module | what it holds |
|---|---|
| `Outcomes` | `Option`, `Result` and the error kinds. Each raised exception becomes an `Err`. |
| `Tiles` | `Tile`, `TilePosition`, and per-axis arithmetic, minimum and maximum. |
| `PyText` | Python's `str(int)`, `int(str)`, `zfill`, `chr` and `os.path.join`, on `seq<char>`. |
| `IntSeqs` | Python sets of ints as duplicate-free sequences, and `sorted`. |
| `StitchingUtils` | The origin shift, the warp, both fusions and chunk assembly. |
| `Alignment` | Grid alignment, as a specification and as the imperative method, plus `AbstractAlignment`. |
| `Acquisitions` | The `files` table, the single-well check, `get_row_col` and the alignment options. These are shared by both acquisition packages. |
| `HcsAcquisition` | The `hcs` package's `WellAcquisition` and its plate-level operations. |
| `IoAcquisition` | The `io` package's `WellAcquisition`. |
| `CellVoyager` | The CellVoyager record and channel transformations. |

Behaviour of the code that the model follows, where a reader might expect
otherwise:

- Grid alignment does not depend on input order across cells. Tiles that
  share a cell, however, come out in their input order
  (`Alignment.GridAlignStable`).
- `shift_to_origin` does not return fresh tiles. It reassigns the
  `position` of the caller's tiles, and `AbstractAlignment` aligns those
  mutated tiles.
- `fuse_mean` has no guard for a pixel that no mask covers: it divides by
  zero there and casts the resulting NaN to the pixel type. The model gives
  such a pixel the value `uncovered`, a parameter of the mean fusion
  (`StitchingUtils.FuseMeanUncovered`).

## Model

| member | source | states |
|---|---|---|
| StitchingUtils.ShiftAll | src/faim_hcs/stitching/stitching_utils.py:122-126 | Definition: Each tile keeps everything but its position, which becomes its position minus the origin. |
| StitchingUtils.Shifted | src/faim_hcs/stitching/stitching_utils.py:109-133 | The shift keeps length and every non-position field, and preserves the per-axis difference between any two tile positions. |
| StitchingUtils.ShiftedAtOrigin | src/faim_hcs/stitching/stitching_utils.py:111-132 | After the shift, every component is at least 0, and on each axis some tile has 0. |
| StitchingUtils.AtOriginMinimum | src/faim_hcs/stitching/stitching_utils.py:122 | For tiles at the origin, the per-axis minimum of the positions is the zero position. |
| StitchingUtils.ShiftIdempotent | src/faim_hcs/stitching/stitching_utils.py:122-126 | Shifting already shifted tiles changes nothing. |
| StitchingUtils.ShiftToOrigin | src/faim_hcs/stitching/stitching_utils.py:109-133 | An empty list raises, and the array is unchanged. Otherwise the caller's tiles are replaced in place by their shifted versions, and the returned list is those tiles in the same order. |
| StitchingUtils.Warp | src/faim_hcs/stitching/stitching_utils.py:63-73 | Definition: The warped image has the chunk's shape. Pixel (r, c) is the source pixel at (r + dy, c + dx) when that index is in bounds, and 0 otherwise. |
| StitchingUtils.WarpMask | src/faim_hcs/stitching/stitching_utils.py:75-82 | Definition: The mask has the chunk's shape and is true exactly where the shifted index is in bounds. |
| StitchingUtils.WarpIdentity | src/faim_hcs/stitching/stitching_utils.py:62-82 | A zero shift to the image's own shape returns the image, with an all-true mask. |
| StitchingUtils.WarpRoundTrip | src/faim_hcs/stitching/stitching_utils.py:63-73 | Every in-bounds source pixel is found in the warped image at its shifted place (when that place is inside the chunk). |
| StitchingUtils.WarpedTiles | src/faim_hcs/stitching/stitching_utils.py:51-83 | Definition: One warped image per tile, of the chunk's (y, x) shape. The offset is the chunk origin minus the tile position. |
| StitchingUtils.WarpedMasks | src/faim_hcs/stitching/stitching_utils.py:51-83 | Definition: One mask per tile, of the chunk's (y, x) shape, true exactly where that tile's shifted index is in bounds. |
| StitchingUtils.WarpedOutsideMaskIsZero | src/faim_hcs/stitching/stitching_utils.py:63-82 | A warped pixel whose mask is false is 0. |
| StitchingUtils.TranslateTiles2d | src/faim_hcs/stitching/stitching_utils.py:51-83 | Fills fresh arrays of shape (len(tiles), h, w) with each tile's warped pixels and mask. |
| StitchingUtils.MaskCount | src/faim_hcs/stitching/stitching_utils.py:25-26 | The per-pixel mask count is at most the number of tiles. |
| StitchingUtils.FuseSum | src/faim_hcs/stitching/stitching_utils.py:32-48 | The fused image has the tiles' (y, x) shape. |
| StitchingUtils.SumIgnoresMaskedOut | src/faim_hcs/stitching/stitching_utils.py:47 | When every tile is 0 where its mask is false, the mask-blind sum equals the sum over covering tiles. |
| StitchingUtils.FuseSumMasked | src/faim_hcs/stitching/stitching_utils.py:32-48 | On such stacks, each fused pixel is the sum of the covering tiles wrapped modulo 2^bits (the cast to the pixel type). It is below 2^bits, and it is that sum exactly when the sum fits. |
| StitchingUtils.FuseSumOfWarped | src/faim_hcs/stitching/stitching_utils.py:32-83 | On the stacks that `translate_tiles_2d` produces, `fuse_sum` adds only the tiles covering each pixel. |
| StitchingUtils.FuseMean | src/faim_hcs/stitching/stitching_utils.py:10-29 | Definition of the mean fusion, for any coverage: the fused image has the tiles' shape. Its values are stated by `FuseMeanSingleCoverage`, `FuseMeanBounds` and `FuseMeanUncovered`. |
| StitchingUtils.FuseMeanUncovered | src/faim_hcs/stitching/stitching_utils.py:25-29 | A pixel has mask count 0 exactly when no mask covers it, and then the mean fusion gives it the `uncovered` value (the cast of the NaN from 0/0). |
| StitchingUtils.CoveredCountPositive | src/faim_hcs/stitching/stitching_utils.py:25-29 | A covered pixel has a positive mask count, so the division is defined. |
| StitchingUtils.SingleCoverageSums | src/faim_hcs/stitching/stitching_utils.py:25-28 | With exactly one mask true at a pixel, the count is 1 and the masked sum is that tile's value. |
| StitchingUtils.NoCoverageSums | src/faim_hcs/stitching/stitching_utils.py:25-28 | With no mask true at a pixel, the count and the masked sum are both 0. |
| StitchingUtils.FuseMeanSingleCoverage | src/faim_hcs/stitching/stitching_utils.py:10-29 | Where exactly one mask is true, the mean is that tile's value; no other pixel needs to be covered. |
| StitchingUtils.MaskedSumBounds | src/faim_hcs/stitching/stitching_utils.py:25-28 | If the masked values lie in [lo, hi], the masked sum lies between lo and hi times the count. |
| StitchingUtils.FuseMeanBounds | src/faim_hcs/stitching/stitching_utils.py:10-29 | At a covered pixel, the mean lies between the smallest and the largest covering tile value; no other pixel needs to be covered. |
| StitchingUtils.OneTilePixel | src/faim_hcs/stitching/stitching_utils.py:10-48 | For one covering tile whose value fits the dtype, both fusions give that tile's value at the pixel. |
| StitchingUtils.OneTileFusionsAgree | src/faim_hcs/stitching/stitching_utils.py:10-48 | A single fully covering tile fuses to itself under both sum and mean. |
| StitchingUtils.Zeros | src/faim_hcs/stitching/stitching_utils.py:103-104 | Definition: The zero block has exactly the chunk shape and holds only zeros. |
| StitchingUtils.FusedChunk | src/faim_hcs/stitching/stitching_utils.py:93-102 | The tiles are warped to the chunk's last two dimensions, and the fused image has that shape. |
| StitchingUtils.AssembleChunk | src/faim_hcs/stitching/stitching_utils.py:86-106 | A missing location raises. No tiles give zeros of exactly the chunk shape. Otherwise the result is the fused chunk image (`FusedChunk`) with three leading singleton axes, of shape (1, 1, 1, h, w). |
| StitchingUtils.AlignedTileChunk | src/faim_hcs/stitching/stitching_utils.py:86-106 | A chunk whose one tile sits at the chunk origin and has the chunk's yx shape is that tile's image, under either fusion. |
| Alignment.Snap | src/faim_hcs/alignment/alignment.py:63-75 | Definition: a tile's y and x are rounded down to multiples of the tile shape; properties in `SnapProperties`. |
| Alignment.SnapAll | src/faim_hcs/alignment/alignment.py:58-76 | Snaps every tile, keeping length and order; properties in `SnapAllPermutation`. |
| Alignment.GridAlign | src/faim_hcs/alignment/alignment.py:37-78 | Definition of `_align` on values; properties in `GridAlignFails`, `GridAlignPermutes`, `GridAlignStable`, `GridAlignRowMajor` and `GridAlignAtOrigin`, and `GridAlignTiles` computes it. |
| Alignment.SnapProperties | src/faim_hcs/alignment/alignment.py:47-75 | A snapped y (x) is a multiple of the tile height (width), at most the original, and more than the original minus the size. A lattice point is kept, and every other field is copied. |
| Alignment.GridAlignFails | src/faim_hcs/alignment/alignment.py:40-46 | Grid alignment fails exactly on an empty list (IndexError) or on a tile whose shape differs from the first tile's (AssertionError). |
| Alignment.GridAlignPermutes | src/faim_hcs/alignment/alignment.py:44-76 | The output has the input's length and is, as a multiset, the input with every tile snapped. |
| Alignment.GridAlignStable | src/faim_hcs/alignment/alignment.py:49-61 | The tiles of each cell appear in their input order, all snapped to the same corner. |
| Alignment.GridAlignRowMajor | src/faim_hcs/alignment/alignment.py:56-61 | The output is ordered by ascending y, then by ascending x within a row. |
| Alignment.GridAlignAtOrigin | src/faim_hcs/alignment/alignment.py:47-71 | Snapping tiles that sit at the origin leaves them at the origin. |
| Alignment.SnapAllPermutation | src/faim_hcs/alignment/alignment.py:58-76 | Snapping respects multiset equality. |
| Alignment.CollectCells | src/faim_hcs/alignment/alignment.py:44-54 | The loop checks every shape against the first tile's, maps each cell to its tiles in input order, and collects exactly the occupied rows and columns. |
| Alignment.EmitCells | src/faim_hcs/alignment/alignment.py:56-76 | The nested loops emit the snapped tiles of each occupied cell, row by row, column by column. |
| Alignment.GridAlignTiles | src/faim_hcs/alignment/alignment.py:37-78 | The imperative `_align` computes exactly the grid alignment specified by `GridAlign`. |
| Alignment.Align | src/faim_hcs/alignment/alignment.py:23-29 | Stage alignment returns its input unchanged. |
| Alignment.AlignAtOrigin | src/faim_hcs/alignment/alignment.py:11-14 | Both strategies keep tiles at the origin there. |
| Alignment.AbstractAlignment.Create | src/faim_hcs/alignment/alignment.py:11-14 | The caller's tiles are shifted in place (an empty list raises). The object stores the shifted tiles and their alignment, which is `_align` of the shifted input. Mixed shapes fail only after the shift. |
| Alignment.AbstractAlignment.GetTiles | src/faim_hcs/alignment/alignment.py:19-20 | Returns the aligned tiles, which are `_align` of the stored tiles and sit at the origin. |
| Acquisitions.Column | src/faim_hcs/io/acquisition.py:96-99 | Definition: A column exists exactly when its key is a column (KeyError otherwise), and holds one value per row. |
| Acquisitions.NUnique | src/faim_hcs/io/acquisition.py:96-98 | Definition of `nunique()`: the number of distinct non-missing values; properties in `DistinctIsSet` and `SingleValueIff`. |
| Acquisitions.DistinctIsSet | src/faim_hcs/io/acquisition.py:96 | The distinct values hold no duplicates and are exactly the non-missing values of the column. |
| Acquisitions.SingleValueIff | src/faim_hcs/io/acquisition.py:96 | `nunique() == 1` holds exactly when some row has a value and every present value equals it. |
| Acquisitions.SingleWellName | src/faim_hcs/io/acquisition.py:95-99 | The single-well check; its contract and `SingleWellNameSpec` state when it succeeds and which value it gives. |
| Acquisitions.SingleWellNameSpec | src/faim_hcs/io/acquisition.py:95-99 | The name exists exactly when a `well` column exists and holds one distinct value. That value is the first row's, and every present well equals it. |
| Acquisitions.RowCol | src/faim_hcs/io/acquisition.py:127-128 | The split of a well name into its first character and the rest; properties in `RowColRoundTrip`. |
| Acquisitions.RowColRoundTrip | src/faim_hcs/io/acquisition.py:127-128 | For a non-empty name, the row is its first character, and row plus column gives the name back. |
| Acquisitions.AlignWith | src/faim_hcs/io/acquisition.py:110-121 | Alignment of the tiles by a chosen strategy; its contract and `AlignWithSpec` state the result. |
| Acquisitions.AlignWithSpec | src/faim_hcs/io/acquisition.py:110-121 | Empty tiles raise. Stage alignment is the origin shift. Grid alignment gives, as a multiset, the snapped shifted tiles, and fails (ShapeMismatch) exactly when the tiles' shapes differ. Every result sits at the origin. |
| Acquisitions.AlignedTiles | src/faim_hcs/io/acquisition.py:110-121 | Definition: the dispatch error, else `AlignWith`; properties in `AlignedTilesSpec`. |
| Acquisitions.AlignedTilesSpec | src/faim_hcs/hcs/acquisition.py:162-173 | An unknown option's error comes first. Otherwise the tiles are aligned by the selected strategy (`AlignWith`), and aligned tiles are as many as the input and sit at the origin. |
| Acquisitions.Construction | src/faim_hcs/io/acquisition.py:95-103 | Definition of the constructor's outcome; properties in `ConstructionSpec`. |
| Acquisitions.ConstructionSpec | src/faim_hcs/io/acquisition.py:95-103 | Construction succeeds exactly when the single-well check and the alignment both succeed, and the single-well error is raised first. On success the name is the first row's well, and the tiles are exactly the aligned tiles (`AlignedTiles`), as many as the assembled tiles, non-empty and at the origin. |
| Acquisitions.AlignTilesWith | src/faim_hcs/alignment/alignment.py:11-14 | The imperative construction of the chosen alignment gives the specified alignment. |
| HcsAcquisition.ChannelDict.Put | src/faim_hcs/hcs/cellvoyager/StackAcquisition.py:45-58 | Dictionary assignment: the entry is replaced, and the key is appended to the insertion order only when it is new. |
| HcsAcquisition.WavelengthId | src/faim_hcs/hcs/acquisition.py:82-100 | Definition of `"C" + str(n).zfill(2)`; properties in `WavelengthIdDigits` and `WavelengthIdInjective`. |
| HcsAcquisition.ActiveChannel | src/faim_hcs/hcs/acquisition.py:74-90 | Definition of the entry of a present channel; properties in `OmeroChannelsContents`. |
| HcsAcquisition.InactiveChannel | src/faim_hcs/hcs/acquisition.py:91-108 | Definition of the placeholder entry of a missing channel; properties in `OmeroChannelsContents` and `OmeroWavelengthIds`. |
| HcsAcquisition.OmeroEntry | src/faim_hcs/hcs/acquisition.py:72-108 | Definition: the active entry for a key, else the placeholder; properties in `OmeroChannelsShape` and `OmeroChannelsContents`. |
| HcsAcquisition.OmeroChannels | src/faim_hcs/hcs/acquisition.py:67-110 | Definition of `get_omero_channel_metadata` on values; properties in `OmeroChannelsShape`, `OmeroChannelsContents` and `OmeroWavelengthIds`. |
| HcsAcquisition.GetOmeroChannelMetadata | src/faim_hcs/hcs/acquisition.py:67-110 | The loop builds exactly the OMERO list that `OmeroChannels` specifies. |
| HcsAcquisition.OmeroChannelsShape | src/faim_hcs/hcs/acquisition.py:67-110 | An empty dictionary raises (max of an empty sequence). Otherwise there are m + 1 entries for the largest key m, and entry i is active exactly when i is a key. |
| HcsAcquisition.OmeroChannelsContents | src/faim_hcs/hcs/acquisition.py:72-108 | Present channels carry their colour and name. Missing ones are black and labelled "empty". All entries have coefficient 1, the linear family, no inversion, and the window 0..65535. |
| HcsAcquisition.WavelengthIdDigits | src/faim_hcs/hcs/acquisition.py:82-100 | A wavelength id is "C" followed by at least two digits that denote the number, ending in its shortest numeral. |
| HcsAcquisition.WavelengthIdInjective | src/faim_hcs/hcs/acquisition.py:82-100 | Different channel numbers give different wavelength ids. |
| HcsAcquisition.OmeroWavelengthIds | src/faim_hcs/hcs/acquisition.py:82-100 | When each channel's index is its key, entry i has wavelength id `C{i+1:02}`, whose digits denote i + 1. |
| HcsAcquisition.HcsStrategy | src/faim_hcs/hcs/acquisition.py:162-173 | The Enum dispatch; its contract and `HcsStrategySpec` state what each option selects. |
| HcsAcquisition.HcsStrategySpec | src/faim_hcs/hcs/acquisition.py:162-173 | The Enum dispatch accepts exactly its own members: STAGE_POSITION gives stage, GRID gives grid, anything else raises ValueError. |
| HcsAcquisition.AlignTiles | src/faim_hcs/hcs/acquisition.py:162-173 | The method dispatches exactly as specified. |
| HcsAcquisition.Extents | src/faim_hcs/hcs/acquisition.py:233-235 | Definition: Each extent is the tile's position plus (1, 1, 1, h, w). |
| HcsAcquisition.WellShape | src/faim_hcs/hcs/acquisition.py:229-236 | Definition: the per-axis maximum of the tile extents; properties in `WellShapeCovers` and `WellShapePositive`. |
| HcsAcquisition.WellShapeCovers | src/faim_hcs/hcs/acquisition.py:229-236 | The shape exists exactly for a non-empty well. Every tile's extent fits in it, and on each axis some tile reaches it. |
| HcsAcquisition.WellShapePositive | src/faim_hcs/hcs/acquisition.py:229-236 | For tiles at the origin, every axis of the shape is at least 1. |
| HcsAcquisition.LayerScale | src/faim_hcs/hcs/acquisition.py:198-225 | Definition of the scale of one layer; properties in `LayerScaleShape` and `LayerScaleDoubles`. |
| HcsAcquisition.LayerScaleShape | src/faim_hcs/hcs/acquisition.py:194-227 | Every scale starts with 1, has 4 entries exactly when a z spacing exists (then second), else 3. At layer 0, the yx entries are spacing times binning. |
| HcsAcquisition.LayerScaleDoubles | src/faim_hcs/hcs/acquisition.py:206-225 | Each layer doubles the previous layer's yx scale and keeps the other entries. |
| HcsAcquisition.WellAcquisition.Create | src/faim_hcs/hcs/acquisition.py:136-152 | Construction fails or succeeds as specified by `Construction` with the Enum dispatch, and the error is the same. On success the object holds the well name, the aligned tiles and the given arguments. |
| HcsAcquisition.WellAcquisition.GetTiles | src/faim_hcs/hcs/acquisition.py:175-177 | Returns the stored tiles unchanged. |
| HcsAcquisition.WellAcquisition.GetRowCol | src/faim_hcs/hcs/acquisition.py:179-180 | Returns the row/column split of the well name. |
| HcsAcquisition.WellAcquisition.GetShape | src/faim_hcs/hcs/acquisition.py:229-236 | The loop computes the well shape specified by `WellShape`. |
| HcsAcquisition.WellAcquisition.GetCoordinateTransformations | src/faim_hcs/hcs/acquisition.py:194-227 | Returns max_layer + 1 entries. Entry s is a single "scale" transformation with layer s's scale. |
| HcsAcquisition.WellShapesSpec | src/faim_hcs/hcs/acquisition.py:112-125 | Collecting the well shapes succeeds exactly when no well is empty, and then yields each well's shape in order. |
| HcsAcquisition.CommonWellShape | src/faim_hcs/hcs/acquisition.py:112-125 | Definition: the per-axis maximum of the well shapes; properties in `CommonWellShapeCovers` and `CommonWellShapeCoversTiles`. |
| HcsAcquisition.CommonWellShapeCovers | src/faim_hcs/hcs/acquisition.py:112-125 | The common shape exists exactly for a non-empty plate of non-empty wells. It is at least every well's shape, and on each axis some well reaches it. |
| HcsAcquisition.CommonWellShapeCoversTiles | src/faim_hcs/hcs/acquisition.py:112-125 | Every tile of every well fits in the common shape. |
| HcsAcquisition.GetCommonWellShape | src/faim_hcs/hcs/acquisition.py:112-125 | The loop computes the common shape of the wells' tiles. |
| IoAcquisition.IoStrategy | src/faim_hcs/io/acquisition.py:110-121 | Definition of the StrEnum dispatch; properties in `IoStrategySpec`. |
| IoAcquisition.IoStrategySpec | src/faim_hcs/io/acquisition.py:110-121 | The StrEnum dispatch accepts exactly its own members and the strings "StageAlignment" and "GridAlignment", and a string selects what its member selects. The `hcs` members are refused here, and the `io` members and strings are refused by the `hcs` dispatch. |
| IoAcquisition.AlignTiles | src/faim_hcs/io/acquisition.py:110-121 | The method dispatches exactly as specified. |
| IoAcquisition.Axes | src/faim_hcs/io/acquisition.py:130-134 | "z" is an axis exactly when the files have a z column. The list is c, [z,] y, x. |
| IoAcquisition.WellAcquisition.Create | src/faim_hcs/io/acquisition.py:95-103 | Construction fails or succeeds as specified by `Construction` with the StrEnum dispatch. On success the object holds the single well name and the aligned parsed tiles. |
| IoAcquisition.WellAcquisition.GetTiles | src/faim_hcs/io/acquisition.py:123-125 | Returns the stored tiles unchanged. |
| IoAcquisition.WellAcquisition.GetRowCol | src/faim_hcs/io/acquisition.py:127-128 | Returns the row/column split of the well name. |
| IoAcquisition.WellAcquisition.GetAxes | src/faim_hcs/io/acquisition.py:130-134 | Returns the axes of the well's files. |
| CellVoyager.ParseFiles | src/faim_hcs/hcs/cellvoyager/StackAcquisition.py:138-151 | The loop over records, with its pops and updates, builds exactly the rows that `ParseRecords` specifies. |
| CellVoyager.RecordRow | src/faim_hcs/hcs/cellvoyager/StackAcquisition.py:139-148 | Definition of the handling of one record; properties in `RecordRowSpec`. |
| CellVoyager.ParseRecords | src/faim_hcs/hcs/cellvoyager/StackAcquisition.py:138-151 | Definition of `_parse_files` on values; properties in `ParseRecordsSpec`, `ParseRecordsPrefixErr` and `ImageRecordsInOrder`. |
| CellVoyager.RecordRowSpec | src/faim_hcs/hcs/cellvoyager/StackAcquisition.py:139-148 | A record without Type raises KeyError. Records whose Type is not IMG are dropped. An image row loses Type, Row and Column, gains the joined path and the well, and keeps every other attribute. |
| CellVoyager.ParseRecordsPrefixErr | src/faim_hcs/hcs/cellvoyager/StackAcquisition.py:138-149 | Once a record raises, later records do not change the outcome. |
| CellVoyager.ParseRecordsSpec | src/faim_hcs/hcs/cellvoyager/StackAcquisition.py:138-149 | Parsing succeeds exactly when no record raises, and then gives the kept rows. Otherwise it raises the first failing record's error. |
| CellVoyager.ImageRecordsInOrder | src/faim_hcs/hcs/cellvoyager/StackAcquisition.py:138-149 | Rows come exactly from the IMG records, one each, in record order. |
| CellVoyager.WellName | src/faim_hcs/hcs/cellvoyager/StackAcquisition.py:146-147 | Definition of the well name of a record; properties in `WellNameSpec` and `TestPlateWellNames`. |
| CellVoyager.WellNameSpec | src/faim_hcs/hcs/cellvoyager/StackAcquisition.py:146-147 | For rows 1..26, the name is the row's letter ("A" for 1) followed by the column zero-padded to two digits. It splits back into that letter and that column. |
| CellVoyager.TestPlateWellNames | tests/hcs/test_converter.py:73-77 | Rows 4, 5, 6 with columns 8, 3, 8 name the wells D08, E03, F08, and D08 splits into D and 08. |
| CellVoyager.ChannelEntries | src/faim_hcs/hcs/cellvoyager/StackAcquisition.py:41-58 | The channel dictionary built row by row is well formed. |
| CellVoyager.ChannelEntriesOk | src/faim_hcs/hcs/cellvoyager/StackAcquisition.py:41-58 | Building the dictionary succeeds exactly when every row gives a channel. |
| CellVoyager.ChannelEntriesKeys | src/faim_hcs/hcs/cellvoyager/StackAcquisition.py:44-58 | Every row's channel index is a key, and each stored channel sits under its own index. |
| CellVoyager.ChannelEntriesLastWins | src/faim_hcs/hcs/cellvoyager/StackAcquisition.py:44-58 | A key holds the channel of the last row with that index. |
| CellVoyager.RowChannel | src/faim_hcs/hcs/cellvoyager/StackAcquisition.py:44-58 | Definition of the channel built from one table row; properties in `RowChannelIndex`. |
| CellVoyager.RowChannelIndex | src/faim_hcs/hcs/cellvoyager/StackAcquisition.py:44-47 | A row whose Ch is n gives channel index n - 1 and the name "n". |
| CellVoyager.ChannelMetadataOf | src/faim_hcs/hcs/cellvoyager/StackAcquisition.py:39-61 | Definition of `get_channel_metadata` on values; properties in `ChannelMetadataOfSpec`, `ChannelEntriesKeys` and `ChannelEntriesLastWins`. |
| CellVoyager.ChannelMetadataOfSpec | src/faim_hcs/hcs/cellvoyager/StackAcquisition.py:39-61 | The metadata is returned exactly when every row gives a channel and the smallest index is 0 (otherwise the assertion fails). Then channel 0 is present and every key is its channel's index. |
| CellVoyager.GetChannelMetadata | src/faim_hcs/hcs/cellvoyager/StackAcquisition.py:39-61 | The loop builds exactly the metadata that `ChannelMetadataOf` specifies. |
| CellVoyager.CellVoyagerOmeroChannels | src/faim_hcs/hcs/acquisition.py:67-110 | For CellVoyager channel metadata, the OMERO list is non-empty, entry 0 is active, and entry i has wavelength id `C{i+1:02}`. |
| PyText.DecimalString | src/faim_hcs/hcs/acquisition.py:82-82 | Definition of `str(n)`; properties in `NatStringValue` and `ParseDecimalString`. |
| PyText.ParseInt | src/faim_hcs/hcs/cellvoyager/StackAcquisition.py:44-44 | Definition of `int(s)` on an optional sign and ASCII digits; properties in `ParseDecimalString`. |
| PyText.Chr | src/faim_hcs/hcs/cellvoyager/StackAcquisition.py:146-146 | Definition of `chr`: a code that is not a Unicode scalar value fails; used by `WellNameSpec`. |
| PyText.JoinPath | src/faim_hcs/hcs/cellvoyager/StackAcquisition.py:145-145 | `os.path.join` of two parts: an absolute second part replaces the first. Otherwise a `/` is inserted unless the first part is empty or already ends in one. |
| PyText.NatStringValue | src/faim_hcs/hcs/acquisition.py:82 | The decimal numeral of n denotes n. |
| PyText.ParseDecimalString | src/faim_hcs/hcs/cellvoyager/StackAcquisition.py:44-45 | `int(str(n)) == n`. |
| PyText.ZFill | src/faim_hcs/hcs/cellvoyager/StackAcquisition.py:147-147 | The padded length is the larger of the width and the original length; properties in `ZFillDigits`. |
| PyText.ZFillDigits | src/faim_hcs/hcs/cellvoyager/StackAcquisition.py:147 | Zero-padding a numeral keeps it a numeral of the same value and ends in the original. |
| IntSeqs.Sorted | src/faim_hcs/alignment/alignment.py:56-57 | `sorted` of a set of row or column indices is strictly increasing and holds the same elements. |
| IntSeqs.SetOfIsSet | src/faim_hcs/alignment/alignment.py:50-54 | Adding indices one by one to a set gives exactly the indices seen, without duplicates. |
| Tiles.MinAll | src/faim_hcs/stitching/stitching_utils.py:122-122 | The per-axis minimum is at most every position; attainment in `MinAllAttained`. |
| Tiles.MaxAll | src/faim_hcs/hcs/acquisition.py:236-236 | The per-axis maximum is at least every position; attainment in `MaxAllAttained`. |
| Tiles.MinAllAttained | src/faim_hcs/stitching/stitching_utils.py:122 | The per-axis minimum is attained by some tile. |
| Tiles.MaxAllAttained | src/faim_hcs/hcs/acquisition.py:236 | The per-axis maximum is attained by some tile. |

## Left out

- XML and file access are not modelled. This covers `ET.parse`, the `exists` checks, the namespace stripping of attribute keys, `os.walk`, and the filename regexes. The parsed records and file tables are parameters.
- `_parse_metadata` is not modelled. It merges the channel tables from the XML files, so the channel table is a parameter.
- `get_well_names`, `get_well_acquisitions`, the `PlateAcquisition` constructors, `get_dtype`, `get_yx_spacing`, `get_z_spacing` and `Tile.load_data` are not modelled. They are I/O or thin accessors. Tile loading is a function parameter `load`.
- The z-spacing computation (`_compute_z_spacing`) is not modelled. It is floating point (`np.mean`, `np.diff`, `Decimal` rounding), so the z spacing is a parameter.
- Abstract methods are constructor parameters. For example, `_assemble_tiles` and `_parse_tiles` of a concrete acquisition become the `assembled` and `parsed` tiles.
- skimage `warp` is modelled as an exact integer shift with order-0 sampling and fill 0. Dask's `block_info` is replaced by an explicit chunk origin, location and shape.
- StitchingUtils.FuseMean: float32 rounding is not modelled. The mean is the floor of the exact rational mean, so the pixel comes out as the integer cast of an exact division.
- StitchingUtils.FuseMean: the NaN produced at a pixel no mask covers is cast to the pixel type, whose value numpy leaves platform-dependent. The model leaves it unspecified as the parameter `uncovered` of the mean fusion.
- StitchingUtils.FusedChunk: its contract states only the shape. Its values are stated by `FuseSumMasked`, `FuseSumOfWarped`, `FuseMeanBounds`, `FuseMeanSingleCoverage`, `FuseMeanUncovered` and `AlignedTileChunk`.
- Tiles.Extent: tile sides are positive integers. A zero side, which `get_shape` accepts (src/faim_hcs/hcs/acquisition.py:235) and on which grid alignment raises ZeroDivisionError (src/faim_hcs/alignment/alignment.py:47-48), cannot be expressed.
- StitchingUtils.Image: pixels are natural numbers within the range of an unsigned pixel type. Signed pixel types are not modelled, and neither is the wrap of the warp's `.astype(dtype)` (src/faim_hcs/stitching/stitching_utils.py:73) when tile data exceed the chunk's type; only the sum fusion's final cast wraps modulo 2^bits.
- HcsAcquisition.LayerScale: real arithmetic is exact. Float rounding of the scale values is not modelled.
- StitchingUtils.ShiftToOrigin: aliasing is not captured. A tile object that appears twice in the list is shifted twice by the code, but the model's tiles are values.
- CellVoyager.ParseFiles: the result is the list of row dictionaries. The column order of the resulting DataFrame is not modelled.
- CellVoyager.RowChannel: a `Ch` value that `int()` cannot parse, or that pandas reads as NaN, is reported as `InvalidLiteral`. The model does not distinguish the exception types.
- PyText.ParseInt: the forms that Python's `int()` also accepts (surrounding whitespace, `_` separators, non-ASCII digits) are not modelled. It accepts an optional sign and ASCII digits only.
- PyText.Chr: the model treats `chr` of a code in the surrogate range (0xD800 to 0xDFFF) as an error, but Python returns a lone surrogate there.
- The converter, zarr/NGFF writing, binning, the ImageXpress acquisition and the MetaSeries TIFF reader are not part of this model. Neither is dask cluster management.
