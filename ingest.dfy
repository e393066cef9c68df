/**
 * `get_required_columns`: the whole ingestion of a simulator export, from the raw
 * lines of the file to the cleaned table, the flight events and the burnout time.
 * The CSV parser and `pd.to_numeric` are parameters of the model.
 */
module Ingest {
  import opened Common
  import opened Strings
  import opened Frame
  import opened Registry
  import opened Units
  import opened Normaliser
  import opened Header
  import opened Events

  /**
   * What ingestion hands back: the table, the event list and burnout time it leaves in
   * the globals `events` and `BURNOUT_TIME`, and the warnings printed on the way.
   */
  datatype Ingested = Ingested(table: Table, events: seq<Event>, burnout: Timestamp, warnings: seq<Warning>)

  /**
   * A CSV parser as `pd.read_csv` behaves: when it succeeds every row has one cell per
   * column; it fails only with `ParserError` or `EmptyDataError`, and on an empty text
   * always with `EmptyDataError` (no columns to parse).
   */
  ghost predicate ParsesRectangular(readCsv: string -> Result<Table>)
  {
    && (forall text :: readCsv(text).Ok? ==> readCsv(text).value.Valid())
    && (forall text :: readCsv(text).Err? ==>
          readCsv(text).error == ParserError || readCsv(text).error == EmptyDataError)
    && readCsv("") == Err(EmptyDataError)
  }

  /**
   * The parsed and cleaned table: the rebuilt text handed to `pd.read_csv`, with its
   * labels stripped, or the exception raised on the way.
   */
  ghost function Parsed(lines: seq<string>, readCsv: string -> Result<Table>): (r: Result<Table>)
    requires ParsesRectangular(readCsv)
    ensures r.Ok? ==> r.value.Valid()
    ensures r.Err? ==> r.error == IndexError || r.error == ParserError || r.error == EmptyDataError
  {
    match Blob(lines)
    case Err(e) => Err(e)
    case Ok(text) =>
      match readCsv(text)
      case Err(e) => Err(e)
      case Ok(t) => Ok(CleanLabels(t))
  }

  /** A file of one line that is not an event and cleans to nothing leaves the parser no columns. */
  lemma BlankHeaderOnlyFile(line: string, readCsv: string -> Result<Table>)
    requires ParsesRectangular(readCsv)
    requires !IsEventLine(line) && CleanHeader(line) == ""
    ensures Parsed([line], readCsv) == Err(EmptyDataError)
  {
    HeaderIndexSpec([line]);
    assert [line][1..] == [];
    assert [CleanHeader(line)] + [line][1..] == [""];
  }

  /** `quantities` lists the unit of each key of `keys`, in the same order. */
  predicate Paired(keys: seq<string>, quantities: seq<(string, string)>)
  {
    |keys| == |quantities| && forall k :: 0 <= k < |keys| ==> quantities[k].0 == keys[k]
  }

  /** `REQUIRED_UNITS` lists the quantities of `REQUIRED_COLUMNS`, in the same order. */
  lemma RequiredTablesPaired()
    ensures Paired(RequiredColumns, RequiredUnits)
  {
  }

  /** The kept columns of `t`, renamed and with their units converted: the table before the event scan. */
  ghost function Prepared(t: Table, keys: seq<string>, quantities: seq<(string, string)>,
                          toNumeric: string -> Option<real>): (r: Result<Converted>)
    requires t.Valid()
    ensures r.Ok? ==> r.value.table.Valid() && |r.value.table.rows| == |t.rows|
  {
    var selected := Bound(t.labels, keys);
    var kept := Rename(Project(t, KeptLabels(keys, selected, t.labels)), selected);
    ConvertFrom(kept, quantities, selected, UnitsOf(selected), toNumeric)
  }

  /**
   * The conversion succeeds only when every required quantity is mentioned by some
   * label: a file matching some quantities but not all raises `KeyError`.
   */
  lemma PreparedBindsEveryQuantity(t: Table, keys: seq<string>, quantities: seq<(string, string)>,
                                   toNumeric: string -> Option<real>)
    requires t.Valid() && Paired(keys, quantities)
    requires Prepared(t, keys, quantities, toNumeric).Ok?
    ensures forall key :: key in keys ==> key in Bound(t.labels, keys)
  {
    var selected := Bound(t.labels, keys);
    var kept := Rename(Project(t, KeptLabels(keys, selected, t.labels)), selected);
    SuccessNeedsEveryQuantity(kept, quantities, selected, UnitsOf(selected), toNumeric);
    forall key | key in keys ensures key in selected {
      var k :| 0 <= k < |keys| && keys[k] == key;
      assert quantities[k].0 == key;
    }
  }

  /**
   * What `get_required_columns(lines)` computes: the parsed table with a warning when no
   * label mentions any key; otherwise the bound columns kept, renamed and converted, the
   * event scan of `get_events`, and `dropna` over the required labels.
   */
  ghost function Ingestion(lines: seq<string>, readCsv: string -> Result<Table>, toNumeric: string -> Option<real>,
                           events: seq<Event>, burnout: Timestamp,
                           keys: seq<string>, quantities: seq<(string, string)>, names: seq<string>): Result<Ingested>
    requires ParsesRectangular(readCsv)
  {
    match Parsed(lines, readCsv)
    case Err(e) => Err(e)
    case Ok(df) =>
      if Bound(df.labels, keys) == map[] then Ok(Ingested(df, events, burnout, [NoMatchingColumns]))
      else
        match Prepared(df, keys, quantities, toNumeric)
        case Err(e) => Err(e)
        case Ok(converted) => Finish(converted, burnout, names)
  }

  /** The last two stages, on the converted table: the event scan, then `dropna` over the required labels. */
  function Finish(converted: Converted, burnout: Timestamp, names: seq<string>): Result<Ingested>
    requires converted.table.Valid()
  {
    match Scan(converted.table, burnout)
    case Err(e) => Err(e)
    case Ok(timeline) =>
      match DropNA(timeline.table, names)
      case Err(e) => Err(e)
      case Ok(cleaned) => Ok(Ingested(cleaned, timeline.events, timeline.burnout, converted.warnings))
  }

  /**
   * The last two stages succeed exactly when the time column can be read (it exists, or
   * there are no rows) and every required label is present; they keep the events and
   * burnout time of the walk and the complete rows among those it visited, in order.
   */
  lemma FinishOutcome(converted: Converted, burnout: Timestamp, names: seq<string>)
    requires converted.table.Valid()
    ensures var t := converted.table;
      var ps := Positions(t.labels, TimeLabel);
      var r := Finish(converted, burnout, names);
      && (r.Ok? <==> (|ps| != 0 || |t.rows| == 0) && forall name :: name in names ==> name in t.labels)
      && (r.Err? ==> r.error == KeyError(TimeLabel) || r.error == KeyErrorList(Absent(t.labels, names)))
      && (r.Ok? ==>
            && r.value.warnings == converted.warnings
            && r.value.table.labels == t.labels
            && (|ps| != 1 ==> r.value.table.rows == KeepComplete(t.labels, t.rows, names)
                              && r.value.events == [] && r.value.burnout == burnout)
            && (|ps| == 1 ==>
                  var cells := Column(t, ps[0]);
                  var n := Cutoff(cells);
                  && r.value.table.rows == KeepComplete(t.labels, t.rows[..n], names)
                  && r.value.events == EventsBefore(cells, n)
                  && r.value.burnout == BurnoutBefore(cells, n, burnout)))
  {
  }

  /**
   * The outcome of ingestion once some label mentions a key and the conversion has run:
   * that of the last two stages (see `FinishOutcome`), and a success binds every key.
   */
  lemma IngestionOutcome(lines: seq<string>, readCsv: string -> Result<Table>, toNumeric: string -> Option<real>,
                         events: seq<Event>, burnout: Timestamp,
                         keys: seq<string>, quantities: seq<(string, string)>, names: seq<string>)
    requires ParsesRectangular(readCsv) && Paired(keys, quantities)
    requires Parsed(lines, readCsv).Ok? && Bound(Parsed(lines, readCsv).value.labels, keys) != map[]
    requires Prepared(Parsed(lines, readCsv).value, keys, quantities, toNumeric).Ok?
    ensures var parsed := Parsed(lines, readCsv).value;
      var converted := Prepared(parsed, keys, quantities, toNumeric).value;
      var r := Ingestion(lines, readCsv, toNumeric, events, burnout, keys, quantities, names);
      && r == Finish(converted, burnout, names)
      && (r.Ok? ==> forall key :: key in keys ==> key in Bound(parsed.labels, keys))
  {
    var parsed := Parsed(lines, readCsv).value;
    PreparedBindsEveryQuantity(parsed, keys, quantities, toNumeric);
  }

  /**
   * `get_required_columns(lines)`, with `events` and `burnout` the values of the globals
   * before the call, and the registry's `REQUIRED_COLUMNS`, `REQUIRED_UNITS` and
   * `REQUIRED_COLUMN_NAMES` passed in as `keys`, `quantities` and `names`. The file's
   * lines are searched for the header row, the CSV text is rebuilt and parsed, and the
   * labels cleaned. When no label mentions any key a warning is printed and the parsed
   * table is returned as it is; otherwise the bound columns are kept and renamed, their
   * units converted, the events read off the time column, and the rows with a NaN in
   * any required column dropped.
   */
  method GetRequiredColumns(lines: seq<string>, readCsv: string -> Result<Table>, toNumeric: string -> Option<real>,
                            events: seq<Event>, burnout: Timestamp,
                            keys: seq<string>, quantities: seq<(string, string)>, names: seq<string>)
    returns (r: Result<Ingested>)
    requires ParsesRectangular(readCsv)
    ensures r == Ingestion(lines, readCsv, toNumeric, events, burnout, keys, quantities, names)
  {
    var h := LocateHeader(lines);
    var line := PyIndex(lines, h);
    if line.Err? {
      return Err(line.error);
    }
    var text := JoinLines([CleanHeader(line.value)] + lines[h + 1..]);
    assert Blob(lines) == Ok(text);
    var csv := readCsv(text);
    if csv.Err? {
      return Err(csv.error);
    }
    var df := CleanLabels(csv.value);
    assert Parsed(lines, readCsv) == Ok(df);
    var selected, units := ResolveColumns(df.labels, keys);
    if selected == map[] {
      return Ok(Ingested(df, events, burnout, [NoMatchingColumns]));
    }
    var valid := ValidColumns(keys, selected, df.labels);
    var kept := Rename(Project(df, valid), selected);
    var converted := ConvertUnits(kept, quantities, selected, units, toNumeric);
    assert converted == Prepared(df, keys, quantities, toNumeric);
    if converted.Err? {
      return Err(converted.error);
    }
    var timeline := GetEvents(converted.value.table, burnout);
    if timeline.Err? {
      return Err(timeline.error);
    }
    var cleaned := DropNA(timeline.value.table, names);
    if cleaned.Err? {
      return Err(cleaned.error);
    }
    r := Ok(Ingested(cleaned.value, timeline.value.events, timeline.value.burnout, converted.value.warnings));
  }
}
