/**
  The `hcs` acquisition classes: the OMERO channel list and the common well
  shape a plate acquisition derives from its channels and wells, and the
  well acquisition that aligns its tiles on construction and reports its
  stitched extent and its per-layer scale transformations.

  The abstract members a concrete acquisition supplies (`_parse_files`,
  `get_well_acquisitions`, `get_channel_metadata`, `_assemble_tiles`,
  `get_yx_spacing`, `get_z_spacing`) are parameters of the operations that
  call them.
 */
module HcsAcquisition {
  import opened Outcomes
  import opened Tiles
  import opened IntSeqs
  import opened PyText
  import opened Alignment
  import opened Acquisitions
  import StitchingUtils

  /** The metadata record of one channel (the `ChannelMetadata` constructor's keywords). */
  datatype ChannelMetadata = ChannelMetadata(
    channelIndex: int,
    channelName: string,
    displayColor: Value,
    spatialCalibrationX: Value,
    spatialCalibrationY: Value,
    spatialCalibrationUnits: string,
    zSpacing: Option<real>,
    wavelength: Value,
    exposureTime: Value,
    exposureTimeUnit: string,
    objective: Value
  )

  /**
    A `dict[int, ChannelMetadata]`: its keys in insertion order (what
    `list(d.keys())` gives) and its entries.
   */
  datatype ChannelDict = ChannelDict(keys: seq<int>, entries: map<int, ChannelMetadata>) {
    predicate Valid() {
      && NoDuplicates(keys)
      && (forall k | k in keys :: k in entries)
      && (forall k | k in entries :: k in keys)
    }

    /** `d[k] = v`: a new key goes to the end, an existing key keeps its place. */
    function Put(k: int, v: ChannelMetadata): (r: ChannelDict)
      requires Valid()
      ensures r.Valid()
      ensures r.entries == entries[k := v]
      ensures k in keys ==> r.keys == keys
      ensures k !in keys ==> r.keys == keys + [k]
    {
      if k in keys then ChannelDict(keys, entries[k := v])
      else
        assert forall u :: u in keys + [k] <==> u in keys || u == k;
        ChannelDict(keys + [k], entries[k := v])
    }
  }

  /** The empty dict `{}`. */
  const EmptyChannels := ChannelDict([], map[])

  /** `np.iinfo(np.uint16)`: the smallest and largest 16-bit unsigned values. */
  const Uint16Min := 0
  const Uint16Max := 0xFFFF

  /** The display window of an OMERO channel. */
  datatype Window = Window(min: int, max: int, start: int, end: int)

  const Uint16Window := Window(Uint16Min, Uint16Max, Uint16Min, Uint16Max)

  /** One entry of the OMERO `channels` list. */
  datatype OmeroChannel = OmeroChannel(
    active: bool,
    coefficient: int,
    color: Value,
    family: string,
    inverted: bool,
    channelLabel: string,
    wavelengthId: string,
    window: Window
  )

  /** `f"C{str(n).zfill(2)}"`. */
  function WavelengthId(n: int): string {
    "C" + ZFill(DecimalString(n), 2)
  }

  /** The entry for a channel that is present, numbered by its own channel index. */
  function ActiveChannel(metadata: ChannelMetadata): OmeroChannel {
    OmeroChannel(true, 1, metadata.displayColor, "linear", false, metadata.channelName,
                 WavelengthId(metadata.channelIndex + 1), Uint16Window)
  }

  /** The placeholder for a missing channel index. */
  function InactiveChannel(index: int): OmeroChannel {
    OmeroChannel(false, 1, Some("#000000"), "linear", false, "empty", WavelengthId(index + 1), Uint16Window)
  }

  /** The entry of the OMERO list at a position from 0 to the largest key. */
  function OmeroEntry(d: ChannelDict, index: int): OmeroChannel {
    if index in d.entries then ActiveChannel(d.entries[index]) else InactiveChannel(index)
  }

  /**
    The OMERO channel list of a channel dict: one entry per index from 0 up
    to the largest key; `max` of no keys raises ValueError.
   */
  function OmeroChannels(d: ChannelDict): Result<seq<OmeroChannel>>
  {
    if |d.keys| == 0 then Err(EmptyReduction)
    else
      var maxChannel := MaxOf(d.keys);
      Ok(seq(if maxChannel < 0 then 0 else maxChannel + 1, i => OmeroEntry(d, i)))
  }

  /**
    `PlateAcquisition.get_omero_channel_metadata`, given what
    `get_channel_metadata` returned.  The `elif index < max_channel` branch
    is the only one a missing index can reach, since the largest key is
    present; there is no `else`.
   */
  method GetOmeroChannelMetadata(chMetadata: ChannelDict) returns (r: Result<seq<OmeroChannel>>)
    requires chMetadata.Valid()
    ensures r == OmeroChannels(chMetadata)
  {
    if |chMetadata.keys| == 0 {
      return Err(EmptyReduction);
    }
    var maxChannel := MaxOf(chMetadata.keys);
    var omeChannels: seq<OmeroChannel> := [];
    var index := 0;
    while index < maxChannel + 1
      invariant 0 <= index <= (if maxChannel < 0 then 0 else maxChannel + 1)
      invariant |omeChannels| == index
      invariant forall i | 0 <= i < index :: omeChannels[i] == OmeroEntry(chMetadata, i)
    {
      if index in chMetadata.keys {
        var metadata := chMetadata.entries[index];
        omeChannels := omeChannels + [ActiveChannel(metadata)];
      } else if index < maxChannel {
        omeChannels := omeChannels + [InactiveChannel(index)];
      }
      index := index + 1;
    }
    assert omeChannels == OmeroChannels(chMetadata).value;
    return Ok(omeChannels);
  }

  /**
    The list fails exactly for an empty dict; otherwise it has one entry per
    index 0..m, m the largest key, and the entry at i is active exactly
    when i is a key.
   */
  lemma OmeroChannelsShape(d: ChannelDict)
    requires d.Valid()
    ensures OmeroChannels(d).Err? <==> |d.keys| == 0
    ensures OmeroChannels(d).Err? ==> OmeroChannels(d).error == EmptyReduction
    ensures OmeroChannels(d).Ok? ==>
      var m := MaxOf(d.keys);
      && m in d.entries
      && (forall k | k in d.entries :: k <= m)
      && |OmeroChannels(d).value| == (if m < 0 then 0 else m + 1)
      && (forall i | 0 <= i < |OmeroChannels(d).value| :: OmeroChannels(d).value[i].active <==> i in d.entries)
  {
    if |d.keys| > 0 {
      var m := MaxOf(d.keys);
      forall k | k in d.entries ensures k <= m {
        var j :| 0 <= j < |d.keys| && d.keys[j] == k;
      }
    }
  }

  /**
    Entries for present keys carry that channel's colour and name; the
    placeholders are black, labelled "empty"; every entry has coefficient 1,
    the linear family, no inversion and the full 16-bit window.
   */
  lemma OmeroChannelsContents(d: ChannelDict, i: int)
    requires d.Valid() && OmeroChannels(d).Ok? && 0 <= i < |OmeroChannels(d).value|
    ensures var e := OmeroChannels(d).value[i];
      && e.coefficient == 1 && e.family == "linear" && !e.inverted
      && e.window == Window(0, 65535, 0, 65535)
      && (i in d.entries ==> e.color == d.entries[i].displayColor && e.channelLabel == d.entries[i].channelName)
      && (i !in d.entries ==> e.color == Some("#000000") && e.channelLabel == "empty" && e.wavelengthId == WavelengthId(i + 1))
  {
  }

  /**
    A wavelength id is "C" followed by a numeral of at least two digits
    denoting n, ending in the shortest numeral of n.
   */
  lemma WavelengthIdDigits(n: nat)
    ensures var id := WavelengthId(n);
      && |id| >= 3 && id[0] == 'C'
      && AllDigits(id[1..]) && DigitsValue(id[1..]) == n
      && id[|id| - |NatString(n)|..] == NatString(n)
      && (n < 100 ==> |id| == 3)
  {
    var s := NatString(n);
    var id := WavelengthId(n);
    assert DecimalString(n) == s;
    ZFillDigits(s, 2);
    NatStringValue(n);
    assert id[1..] == ZFill(s, 2);
    if n < 100 && n >= 10 {
      assert |NatString(n / 10)| == 1;
    }
  }

  /** Different numbers get different wavelength ids. */
  lemma WavelengthIdInjective(m: nat, n: nat)
    requires WavelengthId(m) == WavelengthId(n)
    ensures m == n
  {
    WavelengthIdDigits(m);
    WavelengthIdDigits(n);
  }

  /**
    When each channel's index equals its key, as the channel parsers build
    them, entry i of the list has wavelength id `C{i+1:02}`, whether the
    channel is present or not.
   */
  lemma OmeroWavelengthIds(d: ChannelDict, i: int)
    requires d.Valid() && OmeroChannels(d).Ok? && 0 <= i < |OmeroChannels(d).value|
    requires forall k | k in d.entries :: d.entries[k].channelIndex == k
    ensures OmeroChannels(d).value[i].wavelengthId == WavelengthId(i + 1)
    ensures DigitsValue(OmeroChannels(d).value[i].wavelengthId[1..]) == i + 1
  {
    var e := OmeroChannels(d).value[i];
    assert e == OmeroEntry(d, i);
    if i in d.entries {
      assert d.entries[i].channelIndex == i;
    }
    WavelengthIdDigits(i + 1);
  }

  /**
    `WellAcquisition._align_tiles` of the `hcs` package: only its own Enum
    members select an alignment; anything else, including the `io`
    package's members and their string values, raises ValueError.
   */
  function HcsStrategy(alignment: AlignmentArg): (r: Result<Strategy>)
  {
    match alignment
    case HcsOption(o) => Ok(StrategyOf(o))
    case _ => Err(UnknownAlignment)
  }

  /** The `hcs` dispatch accepts exactly its own members, each selecting its strategy. */
  lemma HcsStrategySpec(alignment: AlignmentArg)
    ensures HcsStrategy(alignment).Ok? <==> alignment.HcsOption?
    ensures HcsStrategy(alignment).Err? ==> HcsStrategy(alignment).error == UnknownAlignment
    ensures HcsStrategy(HcsOption(StagePosition)) == Ok(StageStrategy)
    ensures HcsStrategy(HcsOption(Grid)) == Ok(GridStrategy)
  {
  }

  /** `_align_tiles`: stage alignment, grid alignment, or ValueError. */
  method AlignTiles(alignment: AlignmentArg, tiles: seq<Tile>) returns (r: Result<seq<Tile>>)
    ensures r == AlignedTiles(HcsStrategy(alignment), tiles)
  {
    match alignment
    case HcsOption(StagePosition) =>
      r := AlignTilesWith(StageStrategy, tiles);
    case HcsOption(Grid) =>
      r := AlignTilesWith(GridStrategy, tiles);
    case _ =>
      r := Err(UnknownAlignment);
  }

  /** `tile.get_position() + (1, 1, 1) + tile.shape`: the far corner of a tile. */
  function TileExtent(t: Tile): TilePosition {
    Add(t.position, TilePosition(1, 1, 1, t.shape.h, t.shape.w))
  }

  function Extents(ts: seq<Tile>): (r: seq<TilePosition>)
    ensures |r| == |ts| && forall i | 0 <= i < |ts| :: r[i] == TileExtent(ts[i])
  {
    seq(|ts|, i requires 0 <= i < |ts| => TileExtent(ts[i]))
  }

  /** `get_shape`: the component-wise maximum of the tile extents; none raises ValueError. */
  function WellShape(ts: seq<Tile>): Result<TilePosition> {
    if |ts| == 0 then Err(EmptyReduction) else Ok(MaxAll(Extents(ts)))
  }

  /**
    The well shape covers every tile: each tile's position plus its extent
    (one time point, channel and plane, its height and width) fits within
    it, and on each axis some tile reaches it.
   */
  lemma WellShapeCovers(ts: seq<Tile>)
    ensures WellShape(ts).Ok? <==> |ts| > 0
    ensures WellShape(ts).Ok? ==> forall i | 0 <= i < |ts| :: LessEq(TileExtent(ts[i]), WellShape(ts).value)
    ensures WellShape(ts).Ok? ==> forall a | 0 <= a < 5 :: exists i | 0 <= i < |ts| :: Axis(TileExtent(ts[i]), a) == Axis(WellShape(ts).value, a)
  {
    if |ts| > 0 {
      forall a | 0 <= a < 5 ensures exists i | 0 <= i < |ts| :: Axis(TileExtent(ts[i]), a) == Axis(WellShape(ts).value, a) {
        var i := MaxAllAttained(Extents(ts), a);
      }
    }
  }

  /** For tiles at the origin every axis of the well shape is at least one pixel. */
  lemma WellShapePositive(ts: seq<Tile>)
    requires |ts| > 0 && StitchingUtils.AtOrigin(ts)
    ensures forall a | 0 <= a < 5 :: Axis(WellShape(ts).value, a) >= 1
  {
    WellShapeCovers(ts);
    forall a | 0 <= a < 5 ensures Axis(WellShape(ts).value, a) >= 1 {
      assert LessEq(TileExtent(ts[0]), WellShape(ts).value);
      assert Axis(ts[0].position, a) >= 0;
    }
  }

  /** One `scale` transformation of the multiscale metadata. */
  datatype Transformation = Transformation(scale: seq<real>, kind: string)

  /** `spacing * yx_binning * 2**s`: the pixel spacing on one yx axis at layer s. */
  function LayerSpacing(spacing: real, yxBinning: int, s: nat): real {
    spacing * (yxBinning as real) * (StitchingUtils.Pow2(s) as real)
  }

  /**
    The scale of pyramid layer s: 1 for the channel axis, the z spacing when
    there is one, and the yx spacing times the binning times 2^s.
   */
  function LayerScale(s: nat, yxBinning: int, zSpacing: Option<real>, yxSpacing: (real, real)): seq<real> {
    var y := LayerSpacing(yxSpacing.0, yxBinning, s);
    var x := LayerSpacing(yxSpacing.1, yxBinning, s);
    match zSpacing
    case Some(z) => [1.0, z, y, x]
    case None => [1.0, y, x]
  }

  /**
    Every layer's scale starts at 1, has four entries exactly when a z
    spacing exists (then second), and the yx entries of layer 0 are the
    spacing times the binning.
   */
  lemma LayerScaleShape(s: nat, yxBinning: int, zSpacing: Option<real>, yxSpacing: (real, real))
    ensures var sc := LayerScale(s, yxBinning, zSpacing, yxSpacing);
      && sc[0] == 1.0
      && (|sc| == 4 <==> zSpacing.Some?) && (|sc| == 3 <==> zSpacing.None?)
      && (zSpacing.Some? ==> sc[1] == zSpacing.value)
      && (s == 0 ==> sc[|sc| - 2] == yxSpacing.0 * (yxBinning as real) && sc[|sc| - 1] == yxSpacing.1 * (yxBinning as real))
  {
  }

  /** Each layer doubles the yx scale of the one before and keeps the rest. */
  lemma LayerScaleDoubles(s: nat, yxBinning: int, zSpacing: Option<real>, yxSpacing: (real, real))
    ensures var a := LayerScale(s, yxBinning, zSpacing, yxSpacing);
      var b := LayerScale(s + 1, yxBinning, zSpacing, yxSpacing);
      && |a| == |b| && a[..|a| - 2] == b[..|b| - 2]
      && b[|b| - 2] == 2.0 * a[|a| - 2] && b[|b| - 1] == 2.0 * a[|a| - 1]
  {
    var p := StitchingUtils.Pow2(s) as real;
    assert StitchingUtils.Pow2(s + 1) as real == 2.0 * p;
    var scaleY := yxSpacing.0 * (yxBinning as real);
    var scaleX := yxSpacing.1 * (yxBinning as real);
    assert scaleY * (2.0 * p) == 2.0 * (scaleY * p);
    assert scaleX * (2.0 * p) == 2.0 * (scaleX * p);
  }

  /**
    `WellAcquisition` of the `hcs` package.  The constructor's `files`
    argument, alignment option and correction-matrix dicts are stored as
    given; `tiles` holds the aligned tiles.
   */
  class WellAcquisition {
    var name: Value
    var files: Table
    var alignment: AlignmentArg
    var backgroundCorrectionMatrices: Option<map<string, string>>
    var illuminationCorrectionMatrices: Option<map<string, string>>
    var tiles: seq<Tile>

    constructor Init(name: Value, files: Table, alignment: AlignmentArg,
                     backgroundCorrectionMatrices: Option<map<string, string>>,
                     illuminationCorrectionMatrices: Option<map<string, string>>,
                     tiles: seq<Tile>)
      ensures this.name == name && this.files == files && this.alignment == alignment
      ensures this.backgroundCorrectionMatrices == backgroundCorrectionMatrices
      ensures this.illuminationCorrectionMatrices == illuminationCorrectionMatrices
      ensures this.tiles == tiles
    {
      this.name := name;
      this.files := files;
      this.alignment := alignment;
      this.backgroundCorrectionMatrices := backgroundCorrectionMatrices;
      this.illuminationCorrectionMatrices := illuminationCorrectionMatrices;
      this.tiles := tiles;
    }

    /**
      `WellAcquisition.__init__`, given the tiles the subclass's
      `_assemble_tiles` produces: the single-well check, the name, then the
      alignment of the tiles.
     */
    static method Create(files: Table, alignment: AlignmentArg,
                         backgroundCorrectionMatrices: Option<map<string, string>>,
                         illuminationCorrectionMatrices: Option<map<string, string>>,
                         assembled: seq<Tile>) returns (r: Result<WellAcquisition>)
      ensures r.Ok? <==> Construction(files, HcsStrategy(alignment), assembled).Ok?
      ensures r.Err? ==> Construction(files, HcsStrategy(alignment), assembled) == Err(r.error)
      ensures r.Ok? ==>
        && fresh(r.value)
        && (r.value.name, r.value.tiles) == Construction(files, HcsStrategy(alignment), assembled).value
        && r.value.files == files && r.value.alignment == alignment
        && r.value.backgroundCorrectionMatrices == backgroundCorrectionMatrices
        && r.value.illuminationCorrectionMatrices == illuminationCorrectionMatrices
    {
      var column := Column(files, "well");
      if column.Err? {
        return Err(column.error);
      }
      if NUnique(column.value) != 1 {
        return Err(NotSingleWell);
      }
      var name := column.value[0];
      var aligned := AlignTiles(alignment, assembled);
      if aligned.Err? {
        return Err(aligned.error);
      }
      var well := new WellAcquisition.Init(name, files, alignment, backgroundCorrectionMatrices,
                                           illuminationCorrectionMatrices, aligned.value);
      return Ok(well);
    }

    /** `get_tiles`. */
    method GetTiles() returns (r: seq<Tile>)
      ensures r == tiles
    {
      return tiles;
    }

    /** `get_row_col`. */
    method GetRowCol() returns (r: Result<(string, string)>)
      ensures r == RowCol(name)
    {
      match name
      case None =>
        return Err(TypeMismatch);
      case Some(s) =>
        if |s| == 0 {
          return Err(EmptyIndex);
        }
        return Ok((s[..1], s[1..]));
    }

    /** `get_shape`: collects each tile's extent, then takes the maximum. */
    method GetShape() returns (r: Result<TilePosition>)
      ensures r == WellShape(tiles)
    {
      var tileExtents: seq<TilePosition> := [];
      for i := 0 to |tiles|
        invariant tileExtents == Extents(tiles[..i])
      {
        tileExtents := tileExtents + [TileExtent(tiles[i])];
      }
      assert tiles[..|tiles|] == tiles;
      if |tileExtents| == 0 {
        return Err(EmptyReduction);
      }
      return Ok(MaxAll(tileExtents));
    }

    /**
      `get_coordinate_transformations`, given what the subclass's
      `get_z_spacing` and `get_yx_spacing` return: one single-element list
      of scale transformations per layer 0..max_layer.
     */
    method GetCoordinateTransformations(maxLayer: int, yxBinning: int, zSpacing: Option<real>, yxSpacing: (real, real))
      returns (transformations: seq<seq<Transformation>>)
      ensures |transformations| == if maxLayer < 0 then 0 else maxLayer + 1
      ensures forall s | 0 <= s < |transformations| ::
        transformations[s] == [Transformation(LayerScale(s, yxBinning, zSpacing, yxSpacing), "scale")]
    {
      transformations := [];
      var s: nat := 0;
      while s < maxLayer + 1
        invariant 0 <= s <= (if maxLayer < 0 then 0 else maxLayer + 1)
        invariant |transformations| == s
        invariant forall k | 0 <= k < s ::
          transformations[k] == [Transformation(LayerScale(k, yxBinning, zSpacing, yxSpacing), "scale")]
      {
        var y := LayerSpacing(yxSpacing.0, yxBinning, s);
        var x := LayerSpacing(yxSpacing.1, yxBinning, s);
        var scale: seq<real>;
        if zSpacing.Some? {
          scale := [1.0, zSpacing.value, y, x];
          assert scale == LayerScale(s, yxBinning, zSpacing, yxSpacing);
        } else {
          scale := [1.0, y, x];
          assert scale == LayerScale(s, yxBinning, zSpacing, yxSpacing);
        }
        transformations := transformations + [[Transformation(scale, "scale")]];
        s := s + 1;
      }
    }
  }

  /** The tiles of each well, in order. */
  function WellTiles(wells: seq<WellAcquisition>): (r: seq<seq<Tile>>)
    reads wells
    ensures |r| == |wells| && forall i | 0 <= i < |wells| :: r[i] == wells[i].tiles
  {
    if wells == [] then [] else WellTiles(wells[..|wells| - 1]) + [wells[|wells| - 1].tiles]
  }

  /** Each well's `get_shape`, in order; the first well without tiles raises. */
  function WellShapes(tileLists: seq<seq<Tile>>): Result<seq<TilePosition>> {
    if tileLists == [] then Ok([])
    else
      var shapes :- WellShapes(tileLists[..|tileLists| - 1]);
      var shape :- WellShape(tileLists[|tileLists| - 1]);
      Ok(shapes + [shape])
  }

  /** `get_common_well_shape`: the component-wise maximum of the well shapes; no wells raises ValueError. */
  function CommonWellShape(tileLists: seq<seq<Tile>>): Result<TilePosition> {
    var shapes :- WellShapes(tileLists);
    if |shapes| == 0 then Err(EmptyReduction) else Ok(MaxAll(shapes))
  }

  /** The well shapes exist exactly when every well has tiles, and are then each well's shape. */
  lemma {:induction false} WellShapesSpec(tileLists: seq<seq<Tile>>)
    ensures WellShapes(tileLists).Ok? <==> forall i | 0 <= i < |tileLists| :: |tileLists[i]| > 0
    ensures WellShapes(tileLists).Err? ==> WellShapes(tileLists) == Err(EmptyReduction)
    ensures WellShapes(tileLists).Ok? ==>
      && |WellShapes(tileLists).value| == |tileLists|
      && forall i | 0 <= i < |tileLists| :: WellShape(tileLists[i]) == Ok(WellShapes(tileLists).value[i])
  {
    if tileLists != [] {
      var n := |tileLists| - 1;
      WellShapesSpec(tileLists[..n]);
      assert forall i | 0 <= i < n :: tileLists[..n][i] == tileLists[i];
    }
  }

  /** An error in the shapes of the first wells is the error of all of them. */
  lemma {:induction false} WellShapesPrefixErr(tileLists: seq<seq<Tile>>, i: nat)
    requires i <= |tileLists| && WellShapes(tileLists[..i]).Err?
    ensures WellShapes(tileLists) == WellShapes(tileLists[..i])
  {
    if i < |tileLists| {
      var n := |tileLists| - 1;
      assert tileLists[..n][..i] == tileLists[..i];
      WellShapesPrefixErr(tileLists[..n], i);
    } else {
      assert tileLists[..i] == tileLists;
    }
  }

  /**
    The common shape exists exactly when there are wells and each has tiles;
    it covers every well's shape and hence every tile of every well, and on
    each axis some well reaches it.
   */
  lemma CommonWellShapeCovers(tileLists: seq<seq<Tile>>)
    ensures CommonWellShape(tileLists).Ok? <==> |tileLists| > 0 && forall i | 0 <= i < |tileLists| :: |tileLists[i]| > 0
    ensures CommonWellShape(tileLists).Ok? ==>
      && (forall i | 0 <= i < |tileLists| :: LessEq(WellShape(tileLists[i]).value, CommonWellShape(tileLists).value))
      && (forall a | 0 <= a < 5 :: exists i | 0 <= i < |tileLists| :: Axis(WellShape(tileLists[i]).value, a) == Axis(CommonWellShape(tileLists).value, a))
  {
    WellShapesSpec(tileLists);
    if CommonWellShape(tileLists).Ok? {
      var shapes := WellShapes(tileLists).value;
      forall a | 0 <= a < 5
        ensures exists i | 0 <= i < |tileLists| :: Axis(WellShape(tileLists[i]).value, a) == Axis(CommonWellShape(tileLists).value, a)
      {
        var i := MaxAllAttained(shapes, a);
        assert WellShape(tileLists[i]).value == shapes[i];
      }
    }
  }

  /** Every tile of every well fits within the common well shape. */
  lemma CommonWellShapeCoversTiles(tileLists: seq<seq<Tile>>, i: int, j: int)
    requires CommonWellShape(tileLists).Ok? && 0 <= i < |tileLists| && 0 <= j < |tileLists[i]|
    ensures LessEq(TileExtent(tileLists[i][j]), CommonWellShape(tileLists).value)
  {
    CommonWellShapeCovers(tileLists);
    WellShapeCovers(tileLists[i]);
    var e, w, c := TileExtent(tileLists[i][j]), WellShape(tileLists[i]).value, CommonWellShape(tileLists).value;
    assert LessEq(e, w) && LessEq(w, c);
    forall a | 0 <= a < 5 ensures Axis(e, a) <= Axis(c, a) {
      assert Axis(e, a) <= Axis(w, a);
    }
  }

  /**
    `PlateAcquisition.get_common_well_shape`, given the wells
    `get_well_acquisitions` returns: asks each well for its shape, then
    takes the maximum.
   */
  method GetCommonWellShape(wells: seq<WellAcquisition>) returns (r: Result<TilePosition>)
    ensures r == CommonWellShape(WellTiles(wells))
  {
    ghost var lists := WellTiles(wells);
    var wellShapes: seq<TilePosition> := [];
    for i := 0 to |wells|
      invariant WellShapes(lists[..i]) == Ok(wellShapes)
    {
      var shape := wells[i].GetShape();
      assert lists[..i + 1][..i] == lists[..i];
      if shape.Err? {
        WellShapesPrefixErr(lists, i + 1);
        return Err(shape.error);
      }
      wellShapes := wellShapes + [shape.value];
    }
    assert lists[..|wells|] == lists;
    if |wellShapes| == 0 {
      return Err(EmptyReduction);
    }
    return Ok(MaxAll(wellShapes));
  }
}
