/**
  The CellVoyager stack acquisition: the file table built from the records
  of a measurement-data file, and the channel metadata built from the
  merged channel tables of a measurement-detail and a settings file.

  The XML files are not read here: a record is its attributes (names
  already stripped of the schema namespace) and its text, and the merged
  channel table is a parameter, as is the z spacing the acquisition
  computes from its files.
 */
module CellVoyager {
  import opened Outcomes
  import opened IntSeqs
  import opened PyText
  import opened Acquisitions
  import opened HcsAcquisition

  /** One `MeasurementRecord` element: its attributes and its text. */
  datatype Record = Record(attrs: map<string, string>, text: Option<string>)

  /** `chr(ord("@") + int(row))` followed by `column.zfill(2)`: the well name. */
  function WellName(rowText: string, column: string): Result<string> {
    match ParseInt(rowText)
    case None => Err(InvalidLiteral(rowText))
    case Some(n) =>
      var letter :- Chr('@' as int + n);
      Ok([letter] + ZFill(column, 2))
  }

  /**
    The file-table row of one record: dropped (None) unless its `Type` is
    "IMG"; otherwise the attributes without `Type`, `Row` and `Column`, with
    the image path and the well name added.  The failures come in the
    order the source evaluates: the `Type` pop, the path join of a missing
    text, the `Row` pop, its conversion, `chr`, then the `Column` pop.
   */
  function RecordRow(dir: string, r: Record): Result<Option<map<string, string>>> {
    if "Type" !in r.attrs then Err(MissingKey("Type"))
    else if r.attrs["Type"] != "IMG" then Ok(None)
    else if r.text.None? then Err(TypeMismatch)
    else if "Row" !in r.attrs then Err(MissingKey("Row"))
    else
      var rowText := r.attrs["Row"];
      match ParseInt(rowText)
      case None => Err(InvalidLiteral(rowText))
      case Some(n) =>
        match Chr('@' as int + n)
        case Err(e) => Err(e)
        case Ok(letter) =>
          if "Column" !in r.attrs then Err(MissingKey("Column"))
          else
            var kept := r.attrs - {"Type", "Row", "Column"};
            Ok(Some(kept["path" := JoinPath(dir, r.text.value)]["well" := [letter] + ZFill(r.attrs["Column"], 2)]))
  }

  /** The rows of the records in order, or the first record's failure. */
  function ParseRecords(dir: string, records: seq<Record>): Result<seq<map<string, string>>> {
    if records == [] then Ok([])
    else
      var files :- ParseRecords(dir, records[..|records| - 1]);
      var row :- RecordRow(dir, records[|records| - 1]);
      match row
      case None => Ok(files)
      case Some(m) => Ok(files + [m])
  }

  /**
    The row-building part of `_parse_files`: each record's attributes are
    copied, `Type`, `Row` and `Column` popped, and the path and well added
    to the rows of image records, which are collected in record order.
   */
  method ParseFiles(dir: string, records: seq<Record>) returns (r: Result<seq<map<string, string>>>)
    ensures r == ParseRecords(dir, records)
  {
    var files: seq<map<string, string>> := [];
    for i := 0 to |records|
      invariant ParseRecords(dir, records[..i]) == Ok(files)
    {
      assert records[..i + 1][..i] == records[..i];
      var record := records[i];
      var row := record.attrs;
      if "Type" !in row {
        ParseRecordsPrefixErr(dir, records, i + 1);
        return Err(MissingKey("Type"));
      }
      var recordType := row["Type"];
      row := row - {"Type"};
      if recordType == "IMG" {
        if record.text.None? {
          ParseRecordsPrefixErr(dir, records, i + 1);
          return Err(TypeMismatch);
        }
        var path := JoinPath(dir, record.text.value);
        if "Row" !in row {
          ParseRecordsPrefixErr(dir, records, i + 1);
          return Err(MissingKey("Row"));
        }
        var rowText := row["Row"];
        row := row - {"Row"};
        var rowNumber := ParseInt(rowText);
        if rowNumber.None? {
          ParseRecordsPrefixErr(dir, records, i + 1);
          return Err(InvalidLiteral(rowText));
        }
        var letter := Chr('@' as int + rowNumber.value);
        if letter.Err? {
          ParseRecordsPrefixErr(dir, records, i + 1);
          return Err(letter.error);
        }
        if "Column" !in row {
          ParseRecordsPrefixErr(dir, records, i + 1);
          return Err(MissingKey("Column"));
        }
        var column := row["Column"];
        row := row - {"Column"};
        row := row["path" := path]["well" := [letter.value] + ZFill(column, 2)];
        assert row == RecordRow(dir, record).value.value;
        files := files + [row];
      }
    }
    assert records[..|records|] == records;
    return Ok(files);
  }

  /** A failure among the first records is the failure of all of them. */
  lemma {:induction false} ParseRecordsPrefixErr(dir: string, records: seq<Record>, i: nat)
    requires i <= |records| && ParseRecords(dir, records[..i]).Err?
    ensures ParseRecords(dir, records) == ParseRecords(dir, records[..i])
  {
    if i < |records| {
      var n := |records| - 1;
      assert records[..n][..i] == records[..i];
      ParseRecordsPrefixErr(dir, records[..n], i);
    } else {
      assert records[..i] == records;
    }
  }

  /**
    A record fails exactly as the source raises; it is dropped exactly when
    its type is not "IMG"; an image record's row has lost `Type`, `Row` and
    `Column`, holds the joined path and the well name, and keeps every
    other attribute unchanged.
   */
  lemma RecordRowSpec(dir: string, r: Record)
    ensures "Type" !in r.attrs ==> RecordRow(dir, r) == Err(MissingKey("Type"))
    ensures RecordRow(dir, r) == Ok(None) <==> "Type" in r.attrs && r.attrs["Type"] != "IMG"
    ensures RecordRow(dir, r).Ok? && RecordRow(dir, r).value.Some? <==>
      && "Type" in r.attrs && r.attrs["Type"] == "IMG" && r.text.Some?
      && "Row" in r.attrs && WellName(r.attrs["Row"], "").Ok? && "Column" in r.attrs
    ensures RecordRow(dir, r).Ok? && RecordRow(dir, r).value.Some? ==>
      var row := RecordRow(dir, r).value.value;
      && "Type" !in row && "Row" !in row && "Column" !in row
      && row["path"] == JoinPath(dir, r.text.value)
      && Ok(row["well"]) == WellName(r.attrs["Row"], r.attrs["Column"])
      && (forall k | k !in {"Type", "Row", "Column", "path", "well"} :: (k in row <==> k in r.attrs) && (k in row ==> row[k] == r.attrs[k]))
  {
  }

  /** The present values of a list of options, in order. */
  function Somes<T>(xs: seq<Option<T>>): (r: seq<T>)
    ensures |r| <= |xs|
  {
    if xs == [] then []
    else
      var init := Somes(xs[..|xs| - 1]);
      match xs[|xs| - 1]
      case None => init
      case Some(v) => init + [v]
  }

  /**
    The present values of a list appear in the same order as in the list:
    the j-th comes from position idx[j], the positions increase, and every
    present position is one of them.
   */
  lemma {:induction false} SomesOrder<T>(xs: seq<Option<T>>) returns (idx: seq<int>)
    ensures |idx| == |Somes(xs)| && StrictlyIncreasing(idx)
    ensures forall j | 0 <= j < |idx| :: 0 <= idx[j] < |xs| && xs[idx[j]] == Some(Somes(xs)[j])
    ensures forall i | 0 <= i < |xs| && xs[i].Some? :: i in idx
  {
    if xs == [] {
      idx := [];
    } else {
      var n := |xs| - 1;
      var front := xs[..n];
      var init := SomesOrder(front);
      var out := Somes(xs);
      match xs[n]
      case None =>
        idx := init;
        assert out == Somes(front);
        forall j | 0 <= j < |idx| ensures 0 <= idx[j] < |xs| && xs[idx[j]] == Some(out[j]) {
          assert xs[init[j]] == front[init[j]];
        }
        forall i | 0 <= i < |xs| && xs[i].Some? ensures i in idx {
          assert i < n && front[i] == xs[i];
        }
      case Some(v) =>
        idx := init + [n];
        assert out == Somes(front) + [v];
        forall j | 0 <= j < |idx| ensures 0 <= idx[j] < |xs| && xs[idx[j]] == Some(out[j]) {
          if j < |init| {
            assert xs[init[j]] == front[init[j]];
          }
        }
        forall i | 0 <= i < |xs| && xs[i].Some? ensures i in idx {
          if i < n {
            assert front[i] == xs[i];
            assert i in init;
          }
        }
        assert StrictlyIncreasing(idx) by {
          forall j, k | 0 <= j < k < |idx| ensures idx[j] < idx[k] {
            if k == |init| {
              assert init[j] < |front|;
            }
          }
        }
    }
  }

  /** Each record's outcome, in record order. */
  function RecordRows(dir: string, records: seq<Record>): (r: seq<Result<Option<map<string, string>>>>)
    ensures |r| == |records| && forall i | 0 <= i < |records| :: r[i] == RecordRow(dir, records[i])
  {
    seq(|records|, i requires 0 <= i < |records| => RecordRow(dir, records[i]))
  }

  /** The rows of records none of which fails. */
  function KeptRows(dir: string, records: seq<Record>): seq<map<string, string>>
    requires forall i | 0 <= i < |records| :: RecordRow(dir, records[i]).Ok?
  {
    Somes(seq(|records|, i requires 0 <= i < |records| => RecordRow(dir, records[i]).value))
  }

  /**
    Parsing succeeds exactly when no record fails, and then yields the rows
    of the image records in record order; otherwise it fails as the first
    failing record does.
   */
  lemma {:induction false} ParseRecordsSpec(dir: string, records: seq<Record>)
    ensures ParseRecords(dir, records).Ok? <==> forall i | 0 <= i < |records| :: RecordRow(dir, records[i]).Ok?
    ensures ParseRecords(dir, records).Ok? ==> ParseRecords(dir, records).value == KeptRows(dir, records)
    ensures ParseRecords(dir, records).Err? ==>
      exists i | 0 <= i < |records| ::
        && RecordRow(dir, records[i]) == Err(ParseRecords(dir, records).error)
        && forall j | 0 <= j < i :: RecordRow(dir, records[j]).Ok?
  {
    if records != [] {
      var n := |records| - 1;
      ParseRecordsSpec(dir, records[..n]);
      assert forall i | 0 <= i < n :: records[..n][i] == records[i];
      if ParseRecords(dir, records).Ok? {
        var opts := seq(|records|, i requires 0 <= i < |records| => RecordRow(dir, records[i]).value);
        assert opts[..n] == seq(n, i requires 0 <= i < n => RecordRow(dir, records[..n][i]).value);
      }
    }
  }

  /**
    Only image records give rows, each from its own record, in record
    order, and every image record gives one.
   */
  lemma ImageRecordsInOrder(dir: string, records: seq<Record>) returns (idx: seq<int>)
    requires ParseRecords(dir, records).Ok?
    ensures var files := ParseRecords(dir, records).value;
      && |idx| == |files| && StrictlyIncreasing(idx)
      && (forall j | 0 <= j < |idx| ::
            && 0 <= idx[j] < |records|
            && "Type" in records[idx[j]].attrs && records[idx[j]].attrs["Type"] == "IMG"
            && RecordRow(dir, records[idx[j]]) == Ok(Some(files[j])))
      && (forall i | 0 <= i < |records| :: "Type" in records[i].attrs && (records[i].attrs["Type"] == "IMG" <==> i in idx))
  {
    ParseRecordsSpec(dir, records);
    var opts := seq(|records|, i requires 0 <= i < |records| => RecordRow(dir, records[i]).value);
    idx := SomesOrder(opts);
    forall i | 0 <= i < |records| ensures "Type" in records[i].attrs && (records[i].attrs["Type"] == "IMG" <==> i in idx) {
      RecordRowSpec(dir, records[i]);
      if i in idx {
        var j :| 0 <= j < |idx| && idx[j] == i;
      }
    }
    forall j | 0 <= j < |idx|
      ensures "Type" in records[idx[j]].attrs && records[idx[j]].attrs["Type"] == "IMG"
    {
      RecordRowSpec(dir, records[idx[j]]);
    }
  }

  /**
    For rows 1 to 26 and a numeral column, the well name is the row's
    letter ("A" for 1) followed by the column padded to two digits; its
    row and column split back into that letter and that padded column.
   */
  lemma WellNameSpec(n: int, column: string)
    requires 1 <= n <= 26 && |column| > 0 && AllDigits(column)
    ensures WellName(DecimalString(n), column).Ok?
    ensures var well := WellName(DecimalString(n), column).value;
      && well[0] == ('A' as int + n - 1) as char
      && RowCol(Some(well)) == Ok(([well[0]], ZFill(column, 2)))
      && AllDigits(well[1..]) && DigitsValue(well[1..]) == DigitsValue(column)
      && |well[1..]| >= 2
  {
    ParseDecimalString(n);
    ZFillDigits(column, 2);
    var well := WellName(DecimalString(n), column).value;
    assert well[1..] == ZFill(column, 2);
    RowColRoundTrip(well);
  }

  /** The wells of the test plate: row 4 column 8 is D08, row 5 column 3 is E03, row 6 column 8 is F08. */
  lemma TestPlateWellNames()
    ensures WellName("4", "8") == Ok("D08")
    ensures WellName("5", "3") == Ok("E03")
    ensures WellName("6", "8") == Ok("F08")
    ensures RowCol(Some("D08")) == Ok(("D", "08"))
  {
    SmallNumeral(4);
    SmallNumeral(5);
    SmallNumeral(6);
    assert [DigitChar(4)] == "4" && [DigitChar(5)] == "5" && [DigitChar(6)] == "6";
    assert Chr('@' as int + 4) == Ok('D');
    assert Chr('@' as int + 5) == Ok('E');
    assert Chr('@' as int + 6) == Ok('F');
    assert ZFill("8", 2) == "08";
    assert ZFill("3", 2) == "03";
    assert ['D'] + "08" == "D08";
    assert ['E'] + "03" == "E03";
    assert ['F'] + "08" == "F08";
  }

  /** `int(str(d)) == d` for a digit d, written out. */
  lemma SmallNumeral(d: nat)
    requires d < 10
    ensures ParseInt([DigitChar(d)]) == Some(d)
  {
    ParseDecimalString(d);
  }

  /** `row[key]` of a row of the channel table: a KeyError for a column the table lacks. */
  function Field(t: Table, row: map<string, string>, key: string): Result<Value> {
    if key in t.columns then Ok(CellValue(row, key)) else Err(MissingKey(key))
  }

  /**
    The channel metadata of one row of the channel table: index `Ch - 1`,
    the channel's name, colour, pixel sizes in micrometres, target
    wavelength, exposure in milliseconds and objective, and the
    acquisition's z spacing.
   */
  function RowChannel(t: Table, row: map<string, string>, zSpacing: Option<real>): Result<ChannelMetadata> {
    var ch :- Field(t, row, "Ch");
    match ch
    case None => Err(InvalidLiteral("nan"))
    case Some(chText) =>
      match ParseInt(chText)
      case None => Err(InvalidLiteral(chText))
      case Some(n) =>
        var color :- Field(t, row, "Color");
        var horizontal :- Field(t, row, "HorizontalPixelDimension");
        var vertical :- Field(t, row, "VerticalPixelDimension");
        var target :- Field(t, row, "Target");
        var exposure :- Field(t, row, "ExposureTime");
        var objective :- Field(t, row, "Objective");
        Ok(ChannelMetadata(n - 1, chText, color, horizontal, vertical, "um", zSpacing, target, exposure, "ms", objective))
  }

  /** The dict filled row by row, each row's channel stored under its index. */
  function ChannelEntries(t: Table, rows: seq<map<string, string>>, zSpacing: Option<real>): (r: Result<ChannelDict>)
    ensures r.Ok? ==> r.value.Valid()
  {
    if rows == [] then Ok(EmptyChannels)
    else
      var d :- ChannelEntries(t, rows[..|rows| - 1], zSpacing);
      var metadata :- RowChannel(t, rows[|rows| - 1], zSpacing);
      Ok(d.Put(metadata.channelIndex, metadata))
  }

  /** `get_channel_metadata`'s result: the filled dict, whose smallest key must be 0. */
  function ChannelMetadataOf(t: Table, zSpacing: Option<real>): Result<ChannelDict> {
    var d :- ChannelEntries(t, t.rows, zSpacing);
    if |d.keys| == 0 then Err(EmptyReduction)
    else if MinOf(d.keys) != 0 then Err(ChannelsNotFromZero)
    else Ok(d)
  }

  /**
    `get_channel_metadata`, given the merged channel table `_parse_metadata`
    returns and the z spacing: fills the dict row by row, then checks the
    smallest index.
   */
  method GetChannelMetadata(metadata: Table, zSpacing: Option<real>) returns (r: Result<ChannelDict>)
    ensures r == ChannelMetadataOf(metadata, zSpacing)
  {
    var chMetadata := EmptyChannels;
    for i := 0 to |metadata.rows|
      invariant ChannelEntries(metadata, metadata.rows[..i], zSpacing) == Ok(chMetadata)
    {
      assert metadata.rows[..i + 1][..i] == metadata.rows[..i];
      var channel := RowChannel(metadata, metadata.rows[i], zSpacing);
      if channel.Err? {
        ChannelEntriesPrefixErr(metadata, metadata.rows, zSpacing, i + 1);
        return Err(channel.error);
      }
      var index := channel.value.channelIndex;
      chMetadata := chMetadata.Put(index, channel.value);
    }
    assert metadata.rows[..|metadata.rows|] == metadata.rows;
    if |chMetadata.keys| == 0 {
      return Err(EmptyReduction);
    }
    if MinOf(chMetadata.keys) != 0 {
      return Err(ChannelsNotFromZero);
    }
    return Ok(chMetadata);
  }

  /** A failure among the first rows is the failure of the whole table. */
  lemma {:induction false} ChannelEntriesPrefixErr(t: Table, rows: seq<map<string, string>>, zSpacing: Option<real>, i: nat)
    requires i <= |rows| && ChannelEntries(t, rows[..i], zSpacing).Err?
    ensures ChannelEntries(t, rows, zSpacing) == ChannelEntries(t, rows[..i], zSpacing)
  {
    if i < |rows| {
      var n := |rows| - 1;
      assert rows[..n][..i] == rows[..i];
      ChannelEntriesPrefixErr(t, rows[..n], zSpacing, i);
    } else {
      assert rows[..i] == rows;
    }
  }

  /** The dict is filled exactly when every row gives a channel. */
  lemma {:induction false} ChannelEntriesOk(t: Table, rows: seq<map<string, string>>, zSpacing: Option<real>)
    ensures ChannelEntries(t, rows, zSpacing).Ok? <==> forall i | 0 <= i < |rows| :: RowChannel(t, rows[i], zSpacing).Ok?
  {
    if rows != [] {
      var n := |rows| - 1;
      ChannelEntriesOk(t, rows[..n], zSpacing);
      assert forall i | 0 <= i < n :: rows[..n][i] == rows[i];
    }
  }

  /**
    Every row's index is a key of the filled dict, and each entry's own
    index is its key.
   */
  lemma {:induction false} ChannelEntriesKeys(t: Table, rows: seq<map<string, string>>, zSpacing: Option<real>)
    requires ChannelEntries(t, rows, zSpacing).Ok?
    ensures var d := ChannelEntries(t, rows, zSpacing).value;
      && (forall i | 0 <= i < |rows| :: RowChannel(t, rows[i], zSpacing).Ok? && RowChannel(t, rows[i], zSpacing).value.channelIndex in d.entries)
      && (forall k | k in d.entries :: d.entries[k].channelIndex == k)
  {
    if rows != [] {
      var n := |rows| - 1;
      ChannelEntriesKeys(t, rows[..n], zSpacing);
      assert forall i | 0 <= i < n :: rows[..n][i] == rows[i];
    }
  }

  /**
    Each entry of the filled dict is the channel of the last row with its
    index: a later row with the same index overwrites an earlier one.
   */
  lemma {:induction false} ChannelEntriesLastWins(t: Table, rows: seq<map<string, string>>, zSpacing: Option<real>, k: int)
    requires ChannelEntries(t, rows, zSpacing).Ok? && k in ChannelEntries(t, rows, zSpacing).value.entries
    ensures exists i | 0 <= i < |rows| ::
      && RowChannel(t, rows[i], zSpacing) == Ok(ChannelEntries(t, rows, zSpacing).value.entries[k])
      && forall j | i < j < |rows| :: RowChannel(t, rows[j], zSpacing).Ok? && RowChannel(t, rows[j], zSpacing).value.channelIndex != k
  {
    var n := |rows| - 1;
    var init := rows[..n];
    var d0 := ChannelEntries(t, init, zSpacing).value;
    var m := RowChannel(t, rows[n], zSpacing).value;
    var d := ChannelEntries(t, rows, zSpacing).value;
    assert d == d0.Put(m.channelIndex, m);
    if k == m.channelIndex {
      assert RowChannel(t, rows[n], zSpacing) == Ok(d.entries[k]);
    } else {
      assert d.entries[k] == d0.entries[k];
      ChannelEntriesLastWins(t, init, zSpacing, k);
      var i :| 0 <= i < n
        && RowChannel(t, init[i], zSpacing) == Ok(d0.entries[k])
        && forall j | i < j < n :: RowChannel(t, init[j], zSpacing).Ok? && RowChannel(t, init[j], zSpacing).value.channelIndex != k;
      LastWinsStep(t, rows, init, zSpacing, k, i);
    }
  }

  /** The step of ChannelEntriesLastWins for a key the last row does not write. */
  lemma LastWinsStep(t: Table, rows: seq<map<string, string>>, init: seq<map<string, string>>, zSpacing: Option<real>, k: int, i: int)
    requires |rows| > 0 && init == rows[..|rows| - 1] && 0 <= i < |init|
    requires RowChannel(t, rows[|rows| - 1], zSpacing).Ok? && RowChannel(t, rows[|rows| - 1], zSpacing).value.channelIndex != k
    requires forall j | i < j < |init| :: RowChannel(t, init[j], zSpacing).Ok? && RowChannel(t, init[j], zSpacing).value.channelIndex != k
    ensures forall j | i < j < |rows| :: RowChannel(t, rows[j], zSpacing).Ok? && RowChannel(t, rows[j], zSpacing).value.channelIndex != k
  {
    forall j | i < j < |rows|
      ensures RowChannel(t, rows[j], zSpacing).Ok? && RowChannel(t, rows[j], zSpacing).value.channelIndex != k
    {
      if j < |rows| - 1 {
        assert init[j] == rows[j];
      }
    }
  }

  /**
    The channel metadata is returned exactly when every row gives a channel,
    there is at least one, and the smallest index is 0; then every key is
    at least 0 and channel 0 is present.
   */
  lemma ChannelMetadataOfSpec(t: Table, zSpacing: Option<real>)
    ensures ChannelMetadataOf(t, zSpacing).Ok? <==>
      && (forall i | 0 <= i < |t.rows| :: RowChannel(t, t.rows[i], zSpacing).Ok?)
      && (exists i | 0 <= i < |t.rows| :: RowChannel(t, t.rows[i], zSpacing).value.channelIndex == 0)
      && (forall i | 0 <= i < |t.rows| :: RowChannel(t, t.rows[i], zSpacing).value.channelIndex >= 0)
    ensures ChannelMetadataOf(t, zSpacing).Ok? ==>
      var d := ChannelMetadataOf(t, zSpacing).value;
      0 in d.entries && forall k | k in d.entries :: k >= 0 && d.entries[k].channelIndex == k
  {
    ChannelEntriesOk(t, t.rows, zSpacing);
    var e := ChannelEntries(t, t.rows, zSpacing);
    if e.Ok? {
      var d := e.value;
      ChannelEntriesKeys(t, t.rows, zSpacing);
      if |d.keys| > 0 {
        var lo := MinOf(d.keys);
        assert forall k | k in d.entries :: lo <= k by {
          forall k | k in d.entries ensures lo <= k {
            var j :| 0 <= j < |d.keys| && d.keys[j] == k;
          }
        }
        if exists i | 0 <= i < |t.rows| :: RowChannel(t, t.rows[i], zSpacing).value.channelIndex == 0 {
          var i :| 0 <= i < |t.rows| && RowChannel(t, t.rows[i], zSpacing).value.channelIndex == 0;
          assert 0 in d.entries;
        }
        if lo == 0 {
          forall i | 0 <= i < |t.rows| ensures RowChannel(t, t.rows[i], zSpacing).value.channelIndex >= 0 {
            assert RowChannel(t, t.rows[i], zSpacing).value.channelIndex in d.entries;
          }
          assert RowChannel(t, t.rows[0], zSpacing).value.channelIndex in d.entries;
          ChannelEntriesLastWins(t, t.rows, zSpacing, 0);
        } else {
          ChannelEntriesLastWins(t, t.rows, zSpacing, lo);
        }
      }
    }
  }

  /** A row whose `Ch` is the numeral of n gives channel index n - 1 and name that numeral. */
  lemma RowChannelIndex(t: Table, row: map<string, string>, zSpacing: Option<real>, n: int)
    requires "Ch" in row && row["Ch"] == DecimalString(n)
    requires RowChannel(t, row, zSpacing).Ok?
    ensures RowChannel(t, row, zSpacing).value.channelIndex == n - 1
    ensures RowChannel(t, row, zSpacing).value.channelName == DecimalString(n)
  {
    ParseDecimalString(n);
  }

  /**
    The OMERO list of CellVoyager channel metadata: channel 0 is an active
    first entry, and entry i, present or not, has wavelength id `C{i+1:02}`.
   */
  lemma CellVoyagerOmeroChannels(t: Table, zSpacing: Option<real>)
    requires ChannelMetadataOf(t, zSpacing).Ok?
    ensures var d := ChannelMetadataOf(t, zSpacing).value;
      && OmeroChannels(d).Ok? && |OmeroChannels(d).value| > 0
      && OmeroChannels(d).value[0].active
      && forall i | 0 <= i < |OmeroChannels(d).value| :: OmeroChannels(d).value[i].wavelengthId == WavelengthId(i + 1)
  {
    var d := ChannelMetadataOf(t, zSpacing).value;
    ChannelMetadataOfSpec(t, zSpacing);
    OmeroChannelsShape(d);
    forall i | 0 <= i < |OmeroChannels(d).value| ensures OmeroChannels(d).value[i].wavelengthId == WavelengthId(i + 1) {
      OmeroWavelengthIds(d, i);
    }
  }
}
