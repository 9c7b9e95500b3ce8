/**
  The `io` acquisition classes: a well acquisition whose alignment option is
  a StrEnum, so that its members and their string values select the same
  alignment, and which reports its axes from the columns of its files.

  The abstract `_parse_tiles` a concrete acquisition supplies is a parameter
  of the constructor.
 */
module IoAcquisition {
  import opened Outcomes
  import opened Tiles
  import opened Alignment
  import opened Acquisitions
  import StitchingUtils
  import HcsAcquisition

  /**
    `alignment == member` for a StrEnum member: true for the member itself
    and for a string equal to its value.
   */
  predicate EqualsMember(alignment: AlignmentArg, o: AlignmentOption) {
    alignment == IoOption(o) || alignment == Text(OptionValue(o))
  }

  /** `WellAcquisition._align_tiles` of the `io` package: the option selected, or ValueError. */
  function IoStrategy(alignment: AlignmentArg): Result<Strategy> {
    if EqualsMember(alignment, StagePosition) then Ok(StageStrategy)
    else if EqualsMember(alignment, Grid) then Ok(GridStrategy)
    else Err(UnknownAlignment)
  }

  /**
    The `io` dispatch accepts exactly its own members and the strings
    "StageAlignment" and "GridAlignment"; a string selects what its member
    selects.  The `hcs` members, which the `hcs` dispatch accepts, are
    refused here, and the `io` members are refused there.
   */
  lemma IoStrategySpec(alignment: AlignmentArg, o: AlignmentOption)
    ensures IoStrategy(alignment).Ok? <==>
      alignment.IoOption? || (alignment.Text? && (alignment.text == "StageAlignment" || alignment.text == "GridAlignment"))
    ensures IoStrategy(alignment).Err? ==> IoStrategy(alignment).error == UnknownAlignment
    ensures IoStrategy(IoOption(o)) == IoStrategy(Text(OptionValue(o))) == Ok(StrategyOf(o))
    ensures IoStrategy(IoOption(o)) == HcsAcquisition.HcsStrategy(HcsOption(o))
    ensures IoStrategy(HcsOption(o)).Err? && HcsAcquisition.HcsStrategy(IoOption(o)).Err?
    ensures HcsAcquisition.HcsStrategy(Text(OptionValue(o))).Err?
  {
    assert OptionValue(StagePosition) != OptionValue(Grid) by {
      assert OptionValue(StagePosition)[0] != OptionValue(Grid)[0];
    }
  }

  /** `_align_tiles`: stage alignment, grid alignment, or ValueError, in that order of comparison. */
  method AlignTiles(alignment: AlignmentArg, tiles: seq<Tile>) returns (r: Result<seq<Tile>>)
    ensures r == AlignedTiles(IoStrategy(alignment), tiles)
  {
    if alignment == IoOption(StagePosition) || alignment == Text("StageAlignment") {
      r := AlignTilesWith(StageStrategy, tiles);
      return;
    }
    if alignment == IoOption(Grid) || alignment == Text("GridAlignment") {
      r := AlignTilesWith(GridStrategy, tiles);
      return;
    }
    return Err(UnknownAlignment);
  }

  /** `get_axes` of a well whose files have the given columns. */
  function Axes(columns: seq<string>): (r: seq<string>)
    ensures "z" in r <==> "z" in columns
    ensures |r| == (if "z" in columns then 4 else 3)
    ensures r[0] == "c" && r[|r| - 2..] == ["y", "x"]
  {
    if "z" in columns then ["c", "z", "y", "x"] else ["c", "y", "x"]
  }

  /**
    `WellAcquisition` of the `io` package.  The constructor's `files`
    argument and alignment option are stored as given; `tiles` holds the
    aligned tiles.
   */
  class WellAcquisition {
    var name: Value
    var files: Table
    var alignment: AlignmentArg
    var tiles: seq<Tile>

    constructor Init(name: Value, files: Table, alignment: AlignmentArg, tiles: seq<Tile>)
      ensures this.name == name && this.files == files && this.alignment == alignment && this.tiles == tiles
    {
      this.name := name;
      this.files := files;
      this.alignment := alignment;
      this.tiles := tiles;
    }

    /**
      `WellAcquisition.__init__`, given the tiles the subclass's
      `_parse_tiles` produces: the single-well check, the name, then the
      alignment of the tiles.
     */
    static method Create(files: Table, alignment: AlignmentArg, parsed: seq<Tile>) returns (r: Result<WellAcquisition>)
      ensures r.Ok? <==> Construction(files, IoStrategy(alignment), parsed).Ok?
      ensures r.Err? ==> Construction(files, IoStrategy(alignment), parsed) == Err(r.error)
      ensures r.Ok? ==>
        && fresh(r.value)
        && (r.value.name, r.value.tiles) == Construction(files, IoStrategy(alignment), parsed).value
        && r.value.files == files && r.value.alignment == alignment
    {
      var column := Column(files, "well");
      if column.Err? {
        return Err(column.error);
      }
      if NUnique(column.value) != 1 {
        return Err(NotSingleWell);
      }
      var name := column.value[0];
      var aligned := AlignTiles(alignment, parsed);
      if aligned.Err? {
        return Err(aligned.error);
      }
      var well := new WellAcquisition.Init(name, files, alignment, aligned.value);
      return Ok(well);
    }

    /** `get_tiles`. */
    method GetTiles() returns (r: seq<Tile>)
      ensures r == tiles
    {
      return tiles;
    }

    /** `get_row_col`. */
    method GetRowCol() returns (r: Result<(string, string)>)
      ensures r == RowCol(name)
    {
      match name
      case None =>
        return Err(TypeMismatch);
      case Some(s) =>
        if |s| == 0 {
          return Err(EmptyIndex);
        }
        return Ok((s[..1], s[1..]));
    }

    /** `get_axes`: channel, then z when the files have a `z` column, then y and x. */
    method GetAxes() returns (r: seq<string>)
      ensures r == Axes(files.columns)
    {
      if "z" in files.columns {
        return ["c", "z", "y", "x"];
      } else {
        return ["c", "y", "x"];
      }
    }
  }
}
