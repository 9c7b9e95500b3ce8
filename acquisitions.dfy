/**
  Bookkeeping shared by both acquisition hierarchies (the `hcs` one and the
  `io` one): the table of files, the single-well check made when a well
  acquisition is constructed, the split of a well name into row and column,
  and the tile alignment option a well acquisition is given.
 */
module Acquisitions {
  import opened Outcomes
  import opened Tiles
  import opened Alignment
  import StitchingUtils

  /** One cell of a pandas table of strings: the string, or None for NaN. */
  type Value = Option<string>

  /**
    A pandas DataFrame of strings: its column names and its rows.  A row that
    has no entry for one of the columns holds NaN there.
   */
  datatype Table = Table(columns: seq<string>, rows: seq<map<string, string>>)

  function CellValue(row: map<string, string>, key: string): Value {
    if key in row then Some(row[key]) else None
  }

  /** `table[key]`: the column's values row by row; a KeyError for an unknown column. */
  function Column(t: Table, key: string): (r: Result<seq<Value>>)
    ensures r.Ok? <==> key in t.columns
    ensures r.Err? ==> r.error == MissingKey(key)
    ensures r.Ok? ==> |r.value| == |t.rows|
    ensures r.Ok? ==> forall i | 0 <= i < |t.rows| :: r.value[i] == CellValue(t.rows[i], key)
  {
    if key in t.columns then Ok(seq(|t.rows|, i requires 0 <= i < |t.rows| => CellValue(t.rows[i], key)))
    else Err(MissingKey(key))
  }

  /** The distinct non-NaN values of a column, in order of first appearance. */
  function Distinct(col: seq<Value>): seq<string> {
    if col == [] then []
    else
      var d := Distinct(col[..|col| - 1]);
      match col[|col| - 1]
      case None => d
      case Some(v) => if v in d then d else d + [v]
  }

  predicate DistinctStrings(d: seq<string>) {
    forall i, j | 0 <= i < j < |d| :: d[i] != d[j]
  }

  /** `Series.nunique()`: the number of distinct values, NaN not counted. */
  function NUnique(col: seq<Value>): nat {
    |Distinct(col)|
  }

  /** Distinct lists every present value exactly once and nothing else. */
  lemma {:induction false} DistinctIsSet(col: seq<Value>)
    ensures DistinctStrings(Distinct(col))
    ensures forall v :: v in Distinct(col) <==> Some(v) in col
  {
    if col != [] {
      var n := |col| - 1;
      var d := Distinct(col[..n]);
      DistinctIsSet(col[..n]);
      assert forall u :: u in col <==> u in col[..n] || u == col[n] by {
        assert col == col[..n] + [col[n]];
      }
      match col[n]
      case None =>
        assert Distinct(col) == d;
      case Some(v) =>
        if v !in d {
          assert Distinct(col) == d + [v];
        }
    }
  }

  /** Every present value of the column is v. */
  ghost predicate AllPresentAre(col: seq<Value>, v: string) {
    forall i | 0 <= i < |col| :: col[i].Some? ==> col[i].value == v
  }

  /** A column whose present values all equal v has no distinct value but v. */
  lemma {:induction false} AtMostOneDistinct(col: seq<Value>, v: string)
    requires AllPresentAre(col, v)
    ensures Distinct(col) == [] || Distinct(col) == [v]
  {
    if col != [] {
      var n := |col| - 1;
      assert AllPresentAre(col[..n], v) by {
        forall i | 0 <= i < n && col[..n][i].Some? ensures col[..n][i].value == v {
          assert col[..n][i] == col[i];
        }
      }
      AtMostOneDistinct(col[..n], v);
    }
  }

  /** `nunique() == 1` holds exactly when some value is present and every present value is that one. */
  lemma SingleValueIff(col: seq<Value>)
    ensures NUnique(col) == 1 <==> exists i | 0 <= i < |col| :: col[i].Some? && AllPresentAre(col, col[i].value)
  {
    DistinctIsSet(col);
    var d := Distinct(col);
    if |d| == 1 {
      assert Some(d[0]) in col;
      var i :| 0 <= i < |col| && col[i] == Some(d[0]);
      forall j | 0 <= j < |col| && col[j].Some? ensures col[j].value == d[0] {
        assert col[j].value in d;
      }
    }
    if exists i | 0 <= i < |col| :: col[i].Some? && AllPresentAre(col, col[i].value) {
      var i :| 0 <= i < |col| && col[i].Some? && AllPresentAre(col, col[i].value);
      assert col[i].value in d;
      AtMostOneDistinct(col, col[i].value);
    }
  }

  /**
    The check and the name assignment at the start of a well acquisition's
    constructor: the table must have a `well` column holding exactly one
    distinct value, and the name is the first row's entry of that column.
   */
  function SingleWellName(files: Table): (r: Result<Value>)
  {
    match Column(files, "well")
    case Err(e) => Err(e)
    case Ok(col) =>
      if NUnique(col) != 1 then Err(NotSingleWell)
      else
        assert col != [];
        Ok(col[0])
  }

  /**
    A well acquisition can be built exactly when the files have a `well`
    column with one value present and no other value; its name is then
    that value, or NaN when the first row lacks it.
   */
  lemma SingleWellNameSpec(files: Table)
    ensures SingleWellName(files).Ok? <==>
      && "well" in files.columns
      && exists i | 0 <= i < |files.rows| :: "well" in files.rows[i]
           && AllPresentAre(Column(files, "well").value, files.rows[i]["well"])
    ensures "well" !in files.columns ==> SingleWellName(files) == Err(MissingKey("well"))
    ensures SingleWellName(files).Ok? ==>
      && |files.rows| > 0
      && SingleWellName(files).value == CellValue(files.rows[0], "well")
      && (SingleWellName(files).value.Some? ==> AllPresentAre(Column(files, "well").value, SingleWellName(files).value.value))
  {
    if "well" in files.columns {
      var col := Column(files, "well").value;
      SingleValueIff(col);
      if NUnique(col) == 1 {
        var i :| 0 <= i < |col| && col[i].Some? && AllPresentAre(col, col[i].value);
        assert "well" in files.rows[i];
      }
    }
  }

  /**
    `get_row_col`: the first character of the name and the rest.  Indexing
    an empty name raises IndexError; a NaN name (a float) raises TypeError.
   */
  function RowCol(name: Value): (r: Result<(string, string)>)
  {
    match name
    case None => Err(TypeMismatch)
    case Some(s) => if s == [] then Err(EmptyIndex) else Ok((s[..1], s[1..]))
  }

  /** Row and column put back together give the name; the row is one character. */
  lemma RowColRoundTrip(name: string)
    ensures RowCol(Some(name)).Ok? <==> |name| > 0
    ensures RowCol(Some(name)).Ok? ==>
      var (row, col) := RowCol(Some(name)).value;
      |row| == 1 && row + col == name
  {
    if |name| > 0 {
      assert name[..1] + name[1..] == name;
    }
  }

  /** The two members of `TileAlignmentOptions`. */
  datatype AlignmentOption = StagePosition | Grid

  /** The member's value: the name of the alignment class it selects. */
  function OptionValue(o: AlignmentOption): string {
    match o
    case StagePosition => "StageAlignment"
    case Grid => "GridAlignment"
  }

  /**
    What a well acquisition can be handed as its alignment: a member of the
    `hcs` enumeration (a plain Enum), a member of the `io` enumeration (a
    StrEnum, equal to its string value), a plain string, or anything else.
   */
  datatype AlignmentArg =
    | HcsOption(hcs: AlignmentOption)
    | IoOption(io: AlignmentOption)
    | Text(text: string)
    | OtherValue

  function StrategyOf(o: AlignmentOption): Strategy {
    match o
    case StagePosition => StageStrategy
    case Grid => GridStrategy
  }

  /**
    `_align_tiles` beyond the dispatch: the selected alignment is constructed
    on the tiles (shifting them to the origin first) and its tiles returned.
   */
  function AlignWith(strategy: Strategy, tiles: seq<Tile>): (r: Result<seq<Tile>>)
  {
    if |tiles| == 0 then Err(EmptyReduction)
    else Align(strategy, StitchingUtils.Shifted(tiles))
  }

  /**
    Whatever the strategy, aligned tiles sit at the origin; stage alignment
    gives exactly the shifted tiles, grid alignment a snapped permutation of
    them, and fails exactly when the tiles' shapes differ (the shift keeps
    every shape).
   */
  lemma AlignWithSpec(strategy: Strategy, tiles: seq<Tile>)
    ensures |tiles| == 0 ==> AlignWith(strategy, tiles) == Err(EmptyReduction)
    ensures AlignWith(strategy, tiles).Ok? ==> StitchingUtils.AtOrigin(AlignWith(strategy, tiles).value)
    ensures |tiles| > 0 && strategy == StageStrategy ==> AlignWith(strategy, tiles) == Ok(StitchingUtils.Shifted(tiles))
    ensures strategy == GridStrategy && AlignWith(strategy, tiles).Ok? ==>
      var shifted := StitchingUtils.Shifted(tiles);
      multiset(AlignWith(strategy, tiles).value) == multiset(SnapAll(shifted, shifted[0].shape))
    ensures |tiles| > 0 && strategy == GridStrategy ==>
      (AlignWith(strategy, tiles).Err? <==> exists i | 0 <= i < |tiles| :: tiles[i].shape != tiles[0].shape)
    ensures |tiles| > 0 && AlignWith(strategy, tiles).Err? ==> AlignWith(strategy, tiles) == Err(ShapeMismatch)
  {
    if |tiles| > 0 {
      var shifted := StitchingUtils.Shifted(tiles);
      StitchingUtils.ShiftedAtOrigin(tiles);
      assert forall i | 0 <= i < |tiles| :: shifted[i].shape == tiles[i].shape by {
        forall i | 0 <= i < |tiles| ensures shifted[i].shape == tiles[i].shape {
          assert shifted[i].(position := tiles[i].position) == tiles[i];
        }
      }
      GridAlignFails(shifted);
      if Align(strategy, shifted).Ok? {
        AlignAtOrigin(strategy, shifted);
        if strategy == GridStrategy {
          GridAlignPermutes(shifted);
        }
      }
    }
  }

  /** The tiles a well keeps: the outcome of the dispatch, then the chosen alignment. */
  function AlignedTiles(strategy: Result<Strategy>, tiles: seq<Tile>): Result<seq<Tile>> {
    match strategy
    case Err(e) => Err(e)
    case Ok(s) => AlignWith(s, tiles)
  }

  /**
    A failed dispatch fails before the tiles are looked at; a successful one
    aligns the tiles with the chosen strategy, and aligned tiles are as many
    as the input tiles and sit at the origin.
   */
  lemma AlignedTilesSpec(strategy: Result<Strategy>, tiles: seq<Tile>)
    ensures strategy.Err? ==> AlignedTiles(strategy, tiles) == Err(strategy.error)
    ensures strategy.Ok? ==> AlignedTiles(strategy, tiles) == AlignWith(strategy.value, tiles)
    ensures AlignedTiles(strategy, tiles).Ok? ==>
      && strategy.Ok? && |tiles| > 0
      && |AlignedTiles(strategy, tiles).value| == |tiles|
      && StitchingUtils.AtOrigin(AlignedTiles(strategy, tiles).value)
  {
    if strategy.Ok? {
      AlignWithSpec(strategy.value, tiles);
      if strategy.value == GridStrategy && AlignWith(strategy.value, tiles).Ok? {
        GridAlignPermutes(StitchingUtils.Shifted(tiles));
      }
    }
  }

  /**
    What a well acquisition's constructor computes before storing it: the
    well name (after the single-well check) and the aligned tiles.
   */
  function Construction(files: Table, strategy: Result<Strategy>, assembled: seq<Tile>): Result<(Value, seq<Tile>)> {
    var name :- SingleWellName(files);
    var tiles :- AlignedTiles(strategy, assembled);
    Ok((name, tiles))
  }

  /**
    A well acquisition is built exactly when its files come from one well
    and its tiles align; the single-well check comes first.
   */
  lemma ConstructionSpec(files: Table, strategy: Result<Strategy>, assembled: seq<Tile>)
    ensures Construction(files, strategy, assembled).Ok? <==>
      SingleWellName(files).Ok? && AlignedTiles(strategy, assembled).Ok?
    ensures SingleWellName(files).Err? ==> Construction(files, strategy, assembled) == Err(SingleWellName(files).error)
    ensures SingleWellName(files).Ok? && strategy.Err? ==> Construction(files, strategy, assembled) == Err(strategy.error)
    ensures Construction(files, strategy, assembled).Ok? ==>
      var (name, tiles) := Construction(files, strategy, assembled).value;
      && name == CellValue(files.rows[0], "well")
      && tiles == AlignedTiles(strategy, assembled).value
      && |tiles| == |assembled| > 0
      && StitchingUtils.AtOrigin(tiles)
  {
    SingleWellNameSpec(files);
    AlignedTilesSpec(strategy, assembled);
  }

  /**
    `_align_tiles` itself: builds the array the alignment works on, runs the
    alignment's constructor on it and returns the alignment's tiles.
   */
  method AlignTilesWith(strategy: Strategy, tiles: seq<Tile>) returns (r: Result<seq<Tile>>)
    ensures r == AlignWith(strategy, tiles)
  {
    var list := new Tile[|tiles|](i requires 0 <= i < |tiles| => tiles[i]);
    assert list[..] == tiles;
    var alignment := AbstractAlignment.Create(strategy, list);
    if alignment.Err? {
      if |tiles| > 0 {
        GridAlignFails(list[..]);
      }
      return Err(alignment.error);
    }
    var aligned := alignment.value.GetTiles();
    return Ok(aligned);
  }
}
