# pitchfreq ingestion core, modelled in Dafny

`main.py` reads a flight-simulation export (an OpenRocket-style CSV whose time column is
interleaved with `# Event …` marker lines). It then computes the rocket's pitch frequency
along the trajectory. This project models the part that turns the raw lines of the file
into a clean flight table, plus the two physical lookups the frequency formula uses:

- **Header location.** `get_required_columns` scans the lines for the first `# Event`
  line and takes the line before it as the header row. It strips the leading `#` and
  whitespace, then rebuilds the CSV text from the header and every later line
  (`Header.LocateHeader`, `Header.Blob`).
- **Parsing and label cleaning.** The rebuilt text goes to the CSV parser. Every label
  is then stripped and loses its zero-width spaces (`Ingest.Parsed`, `Header.CleanLabels`).
- **Column matching.** Each required quantity (`Time`, `Altitude`, …) is bound to the
  leftmost label that contains it, ignoring case. The unit written in that label's
  parentheses is extracted too (`Header.ResolveColumns`, `Units.ExtractUnit`). When no
  quantity matches, a warning is given and the parsed table is returned as it is.
- **Projection.** The bound labels still present are kept and "renamed" (`Header.ValidColumns`,
  `Frame.Project`, `Frame.Rename`).
- **Unit conversion.** `convert_units` rescales every column whose unit is registered
  with a factor to the canonical unit, and relabels it `Quantity (unit)`. An unknown
  unit pair only gives a warning (`Normaliser.ConvertUnits`, `Units.ConvertFrom`).
- **Events.** `get_events` walks the `Time (s)` column. It records each marker with the
  latest timestamp seen, remembers the time of the burnout marker, and cuts the table
  after the first apogee marker (`Events.WalkColumn`, `Events.GetEvents`).
- **Dropping incomplete rows.** Rows with a NaN in any of the seven canonical columns
  are dropped (`Frame.DropNA`).
- **Physical lookups.** `get_air_density` interpolates a standard-atmosphere table, and
  `get_inertia` is the full-tank/dry step function of time (`Physics.AirDensity`,
  `Physics.Inertia`).

Module layout: `Common` (Option, Result and the Python exceptions),
`Strings` (the `str` methods used), `Frame` (the DataFrame operations used),
`Registry` (the module-level tables), `Units` (`extract_unit`, and the conversion rule
with its reference fold), `Normaliser` (the `convert_units` loop), `Header` (the header
and column-matching half of `get_required_columns`), `Events` (`get_events`), `Physics`
(`get_air_density`, `get_inertia`), `Ingest` (`get_required_columns` end to end).

Each loop of the source is a `method` proved equal to a reference function on its
inputs: `LocateHeader`, `FindLabel`, `ResolveColumns`, `ValidColumns`, `ConvertUnits`,
`WalkColumn` and `GetEvents`. `GetRequiredColumns`, which calls them, is proved equal
to `Ingest.Ingestion`, which composes the reference functions stage by stage. The
properties are lemmas about those reference functions.

The two module-level globals `events` and `BURNOUT_TIME` are threaded through. They
are passed in as parameters and handed back in the result. The console warnings are
returned as `Warning` values. The Python exceptions the code can raise (`IndexError`,
`KeyError`, `TypeError`, `ParserError`, `EmptyDataError`) are `Err` results.

## Behaviour worth noting

- `df.rename(columns=selected_columns)` maps quantity names to the bound labels. It can
  only touch a column labelled exactly like a quantity. Such a column was bound by that
  same quantity, so the rename changes nothing (`Header.KeptColumnsRenameIsNoOp`). The
  columns keep their file labels until `convert_units` relabels the rescaled ones.
- `convert_units` looks up every required quantity in `selected_columns`. A file that
  matches some quantities but not all therefore raises `KeyError`
  (`Units.UnboundQuantityFails`, `Ingest.PreparedBindsEveryQuantity`).
- `BURNOUT_TIME` is overwritten at every BURNOUT marker, so the last one before the
  apogee cut wins (`Events.LastBurnoutWins`).
- The header row is line 0 when there is no event line. When line 0 itself is the event
  line, `header_line` is -1: the last line of the file becomes the header, and every line
  follows it in the rebuilt text (`Header.BlobShape`).
- `dropna` is given the labels `Normal force coefficient ()` and so on. A label written
  without parentheses, such as `Normal force coefficient`, is never relabelled, because
  it has no unit to convert. `dropna` then raises `KeyError` listing the absent labels
  (`Ingest.FinishOutcome`).
- A file of a single non-event line that cleans to nothing hands the parser an empty
  text, which raises `EmptyDataError` (`Ingest.BlankHeaderOnlyFile`).

## Model

| member | source | states |
|---|---|---|
| Registry.RegisteredFactorsPositive | main.py:47-54 | every factor in the conversion table is positive, so every conversion has an inverse |
| Units.RequiredUnitsWellFormed | main.py:57-58 | the canonical units name each quantity once and contain no parentheses |
| Ingest.RequiredTablesPaired | main.py:36-44 | `REQUIRED_UNITS` lists the quantities of `REQUIRED_COLUMNS` in the same order |
| Header.RequiredColumnsIndependent | main.py:36-44 | no required quantity name contains another, ignoring case |
| Strings.LStrip | main.py:134 | `lstrip('#')` drops exactly the longest prefix of `#` characters: the rest is a suffix of the input that does not start with one |
| Strings.TrimStartSpec | main.py:134 | `lstrip()` leaves a suffix that does not start with whitespace, and drops only whitespace |
| Strings.TrimEndSpec | main.py:134 | `rstrip()` leaves a prefix that does not end with whitespace, and drops only whitespace |
| Strings.StripBounds | main.py:134 | `strip()` leaves the slice `s[a..b]`, with only whitespace before `a` and from `b` on |
| Strings.StripSpec | main.py:143 | `strip()` leaves a slice of its input with whitespace on both sides of it and none at either of its ends, so nothing but outer whitespace is removed; a string without whitespace is unchanged |
| Strings.RemoveAll | main.py:143 | `replace(c, '')` leaves no `c` and keeps every other character with its multiplicity |
| Strings.RemoveAllAppend | main.py:143 | `replace(c, '')` of a concatenation is the concatenation of the parts' replacements, so the kept characters stay in order |
| Strings.FirstIndex | main.py:108 | the position of the first `c`: it holds `c` and no earlier position does |
| Strings.RemoveFirst | main.py:108 | `replace('.', '', 1)` is the text before the first `.` followed by the text after it, and the input itself when there is no `.` |
| Strings.RemoveFirstIsDifference | main.py:108 | deleting the first `c` is the multiset difference with one `c` |
| Strings.Lower | main.py:150 | `lower()` keeps the length and leaves no upper-case ASCII letter |
| Strings.JoinAppend | main.py:137 | `'\n'.join` of two non-empty runs of lines is the join of the first, one line break, and the join of the second |
| Strings.JoinStartsWithHead | main.py:137 | the joined text begins with its first line, followed by a line break when more lines follow |
| Header.FirstEventLine | main.py:128-131 | the first line starting with `# Event`, or none exactly when no line does |
| Header.LocateHeader | main.py:127-131 | the scan's `header_line` is `HeaderIndex`: the line before the first event line, or 0 |
| Header.HeaderIndexSpec | main.py:127-131 | the header index is 0 when no line is an event line, and k-1 when line k is the first event line |
| Header.PyIndex | main.py:134 | Python list indexing: negative indices count from the end, and an index out of range raises `IndexError` |
| Header.CleanHeader | main.py:134 | the cleaned header has no whitespace at either end |
| Header.CleanHeaderSlice | main.py:134 | the cleaned header is the slice `line[a..b]`, where the line is `#` before `h`, not `#` at `h`, and whitespace in `[h, a)` and from `b` on |
| Header.CleanHeaderSpec | main.py:134 | such bounds `h`, `a`, `b` exist for every line: only the `#` run and the whitespace around the rest are removed |
| Header.BlobShape | main.py:134-137 | an empty file raises `IndexError`; otherwise the text is the cleaned header followed by every later line; when line 0 is an event line the last line is the header and every line follows it |
| Header.CleanLabel | main.py:143 | a cleaned label holds no zero-width space, and a label with neither whitespace nor one is unchanged |
| Header.CleanLabels | main.py:143 | the rows are untouched and every label is cleaned in place |
| Units.AfterLast | main.py:78 | `split('(')[-1]`: the longest suffix without `(`, preceded by a `(` when shorter than the input |
| Units.BeforeFirst | main.py:78 | `split(')')[0]`: the longest prefix without `)`, followed by a `)` when shorter than the input |
| Units.ExtractUnit | main.py:75-79 | there is no unit exactly when the label lacks `(` or `)`; otherwise the unit runs from the last `(` to the next `)` (or to the end) and holds neither parenthesis |
| Units.ExtractUnitOfLabel | main.py:75-79 | extracting the unit of the relabelled `Quantity (unit)` gives back `unit`, so relabelling and extraction round-trip |
| Header.FirstMatch | main.py:149-153 | the leftmost label containing the key ignoring case, and none exactly when no label contains it |
| Header.FindLabel | main.py:149-153 | the inner matching loop finds exactly `FirstMatch` |
| Header.Bound | main.py:146-153 | a key is bound exactly when it is required and some label mentions it |
| Units.UnitsOf | main.py:147-152 | the units map has the same keys as the binding, each holding the unit extracted from its label |
| Units.UnitsOfBind | main.py:151-152 | binding one more key adds exactly that key's unit |
| Header.BoundStep | main.py:148-153 | scanning one more key grows the binding by that key exactly when some label mentions it |
| Header.ResolveColumns | main.py:146-153 | the nested matching loops build exactly `Bound` and the units of the bound labels |
| Header.BindingIsLeftmost | main.py:146-153 | a key is unbound if and only if no label mentions it; otherwise it is bound to the leftmost mentioning label, with that label's unit |
| Header.NoMatchMeansNoLabelMentionsAnyKey | main.py:154-156 | the binding is empty if and only if no label mentions any required quantity |
| Header.KeptLabels | main.py:159-162 | a label is kept exactly when some required key is bound to it and it is a column label |
| Header.ValidColumns | main.py:159-162 | the loop builds exactly `KeptLabels`, in key order |
| Header.KeptLabelsAreAllBound | main.py:159-163 | every bound label passes the membership filter, so the kept labels are exactly the bound ones |
| Frame.Positions | main.py:163 | every column carrying a label, left to right, and only those |
| Frame.Selection | main.py:163 | `df[names]` selects only columns whose label is among the names |
| Frame.SelectionCovers | main.py:163 | every name that labels some column is selected at least once |
| Frame.Gather | main.py:163 | the gathered table has the chosen columns, in order, with every row cut down alike |
| Frame.Project | main.py:163 | `df[names]` keeps every row; each of its labels is one of the names, and every name that labels some column appears |
| Frame.ProjectKeepsCell | main.py:163 | every cell of `df[names]` is the cell, in the same row, of a source column carrying the same label |
| Frame.Rename | main.py:164 | the rows are unchanged; a label that is a key of the map takes the mapped label, and any other stays |
| Frame.RenameFixedPoint | main.py:164 | a map whose every applicable entry is an identity leaves the table unchanged |
| Header.RenameIsNoOp | main.py:164 | on columns all labelled by the binding, the rename is the identity, because no quantity mentions another |
| Header.KeptColumnsRenameIsNoOp | main.py:159-164 | the rename applied to the kept columns leaves the table unchanged |
| Units.ActionFor | main.py:86-88 | a column is kept exactly when it has no unit, an empty one or the canonical one; otherwise it is rescaled exactly when the unit pair is registered, by the registered factor, which is positive; otherwise it warns with its own unit |
| Units.ScaleCell | main.py:89-90 | a rescaled cell is never text; it is NaN exactly when it was NaN or text that does not read as a number; otherwise it is the number times the factor |
| Units.ScaleCellInverse | main.py:89-90 | rescaling a number or NaN by a non-zero factor and then by its inverse gives it back |
| Units.ScaleColumn | main.py:89-93 | only the scaled column changes: its label is replaced and each of its cells rescaled |
| Units.ConversionRescalesBoundColumns | main.py:82-96 | when the pass succeeds and its labels do not collide: each column bound to a rescaled quantity is relabelled `Key (unit)` and its cells are converted by the registered factor, every other column keeps its label and cells, and the warnings are those of the unregistered unit pairs, in order |
| Normaliser.ConvertUnits | main.py:82-96 | the loop over `REQUIRED_UNITS` computes exactly the fold `ConvertFrom`, stopping at the first exception |
| Units.SuccessNeedsEveryQuantity | main.py:83-84 | a successful conversion has every required quantity bound |
| Units.UnboundQuantityFails | main.py:84 | a single unbound quantity makes the conversion raise |
| Units.NothingToScaleKeepsTable | main.py:86-95 | when every quantity is bound and none is rescaled, the table comes back unchanged |
| Units.CanonicalTableUnchanged | main.py:86 | a table already in canonical units passes unchanged and without a warning |
| Units.RelabelledNeedsNoScaling | main.py:92 | after the relabelling, the unit re-extracted for each quantity needs no further rescaling |
| Units.SecondPassIsIdentity | main.py:82-96 | run again with each quantity bound to the label the first pass left it (`Rebound`), the pass succeeds and leaves any table unchanged |
| Events.DigitsValue | main.py:109 | a run of n digits reads as a whole number below 10^n |
| Events.DecimalValue | main.py:109 | `float` of a decimal text is non-negative, and is the digits' value when there is no `.` |
| Events.PointRemoved | main.py:108 | deleting the first `.` of `a + '.' + b`, when `a` has none, leaves `a + b` |
| Events.CharsAfterPoint | main.py:109 | `a + '.' + b`, when `a` has no `.`, has exactly the characters of `b` after its first `.` |
| Events.DecimalValueSplit | main.py:108-109 | `a + '.' + b` for digit runs `a`, `b` is a decimal text, and its `float` is the whole number `a + b` divided by 10 per digit of `b` |
| Events.NumericStamp | main.py:107-109 | a cell is not a timestamp exactly when it is text that is not a decimal; NaN gives a NaN timestamp and nothing else does |
| Events.MarkerIsNoStamp | main.py:107-112 | an `# Event` marker is never read as a timestamp, so the two branches never overlap |
| Events.FirstApogee | main.py:119-121 | the first row whose marker mentions APOGEE, or none exactly when no row does |
| Events.Cutoff | main.py:119-121 | the walk visits the rows through the first apogee marker, or all rows without one |
| Events.Column | main.py:104 | the time column read row by row |
| Events.EventsBefore | main.py:112-113 | no more events than rows visited |
| Events.LatestStampIsLastNumeric | main.py:101-109 | the timestamp in force is that of the last row read as a timestamp, and 0.0 before any |
| Events.EventsOnlyGrow | main.py:103-113 | the events only grow: those of an earlier row are a prefix of those of a later one |
| Events.EventsAreMarkers | main.py:112-113 | the events are exactly the markers among the visited rows, each paired with the timestamp in force there and its stripped text |
| Events.MarkerTextKeepsPrefix | main.py:113 | stripping a marker keeps its `# Event` prefix |
| Events.EventTextsAreMarkers | main.py:112-113 | every event text starts with `# Event` |
| Events.LastBurnoutWins | main.py:115-117 | the burnout time is the timestamp in force at the last BURNOUT marker, and the previous value when there is none |
| Events.ApogeeIsLastEvent | main.py:119-121 | with an apogee marker, it is the last event recorded and the walk stops on its row |
| Events.WalkColumn | main.py:100-121 | the walk visits exactly `Cutoff` rows and returns exactly the reference events and burnout time |
| Events.GetEvents | main.py:98-122 | a missing time column raises `KeyError` only when there are rows; a duplicated one records nothing; otherwise the events, the table cut after the apogee row, and the burnout time are the reference ones; in all cases the result is `Scan` |
| Frame.Truncate | main.py:120 | `iloc[:n]` keeps the labels and the first n rows |
| Frame.KeepComplete | main.py:174 | a row is kept exactly when it is in the table and complete |
| Frame.KeepCompleteAppend | main.py:174 | filtering a concatenation filters each part, so the kept rows keep their order and multiplicity |
| Frame.Absent | main.py:174 | a name is listed exactly when it is in the subset and labels no column |
| Frame.AbsentAppend | main.py:174 | the absent names of a concatenation are those of each part, in subset order |
| Frame.DropNA | main.py:174 | raises `KeyError` if and only if some subset name labels no column, listing exactly those names; otherwise keeps the labels and exactly the complete rows |
| Ingest.Parsed | main.py:134-143 | a parsed table is rectangular; parsing fails only with `IndexError` (empty file), `ParserError` or `EmptyDataError` |
| Ingest.BlankHeaderOnlyFile | main.py:127-140 | a file of one non-event line that cleans to nothing raises `EmptyDataError` |
| Ingest.PreparedBindsEveryQuantity | main.py:146-167 | conversion of the kept columns succeeds only when every required quantity is mentioned by some label |
| Ingest.FinishOutcome | main.py:171-176 | after conversion, ingestion succeeds exactly when the time column can be read (it exists or there are no rows) and every required label is present; it fails with `KeyError('Time (s)')` or the list of absent labels; on success the labels and warnings are the converted table's, the events and burnout time are those of the walk up to the apogee cut, and the rows are the complete rows among those visited, in order |
| Ingest.IngestionOutcome | main.py:146-176 | once some label matches and conversion succeeds, ingestion is the last two stages on the converted table, and a success has every quantity bound |
| Ingest.GetRequiredColumns | main.py:125-176 | the method computes exactly `Ingestion`: parse errors propagate, no match returns the parsed table with one warning, and otherwise projection, conversion, the event scan and `dropna` run in turn, each error propagating |
| Physics.TableShape | main.py:182-186 | the altitude table ascends strictly and the density table descends, with 20 entries each |
| Physics.InterpBetween | main.py:190 | on a descending table, `np.interp` stays between the last and the first value |
| Physics.InterpAtKnot | main.py:190 | `np.interp` returns the table's own value at every knot |
| Physics.InterpOnSegment | main.py:190 | between two neighbouring knots, `np.interp` is the straight line through them |
| Physics.InterpFalls | main.py:190 | on a descending table, `np.interp` is non-increasing |
| Physics.AirDensity | main.py:178-190 | the density always lies between the floor value 0.00001 and the sea-level value 1.225 |
| Physics.AirDensityAtTable | main.py:182-190 | at each tabulated altitude the density is the tabulated one |
| Physics.AirDensityOnSegment | main.py:182-190 | between two tabulated altitudes the density is the straight line through their densities |
| Physics.AirDensityBelowSeaLevel | main.py:190 | at or below sea level the density is 1.225 |
| Physics.AirDensityFalls | main.py:188-190 | density never increases with altitude, across the 80 km cut-off too |
| Physics.AirDensitySamples | main.py:182-190 | density at 0 m exceeds that at 10 km, which exceeds that at 80 km, which exceeds the floor value used at 90 km |
| Physics.Inertia | main.py:192-198 | the full-tank value strictly before burnout, the dry value from burnout on (exactly at the boundary), and None when the burnout time is NaN |
| Physics.DryStaysDry | main.py:195-198 | once the dry value applies, it applies at every later time |
| Physics.PlaceholderBurnoutMeansDry | main.py:63 | with the placeholder burnout time 0, every time from 0 on gets the dry value |

## Left out

- Reading the file (`load_csv`, lines 69-72) and the script's top-level run (lines 268-275): I/O. The model starts from the list of lines.
- `pd.read_csv`: a parameter `readCsv` that may fail with `ParserError` or `EmptyDataError` (always the latter on an empty text) and otherwise returns a rectangular table of numbers, strings and NaN. Its type inference, its skipping of blank lines and its renaming of duplicate labels (`x.1`) are not modelled.
- `pd.to_numeric(errors='coerce')` on a string cell: a parameter `toNumeric`. Numbers and NaN pass through unchanged.
- `print` of warnings: returned as `Warning` values in the order they would be printed.
- The globals `events` and `BURNOUT_TIME`, and the registry tables inside `get_required_columns` and `convert_units`: passed in as parameters and handed back in the result. `Ingest.RequiredTablesPaired` ties the registry tables to the parameters' precondition.
- `add_air_and_inertia` (lines 200-215), `add_pitch_freq` (lines 217-237) and `plot` (lines 239-265): the row-wise enrichment, the frequency formula over floating point with its NaN for a negative radicand, and the plotting are outside this model. Only the two lookups they call are modelled.
- The conversion of the inertia constants at lines 64-65: floating-point scaling of configuration values. `Physics.Inertia` takes both values as parameters.
- `temp.py`: a scratch variant of the script, not part of this model.
- Floating point: numbers are reals. The model does not capture rounding, infinities, or NaN other than an empty cell's.
- `Physics.AirDensity`: the altitude is a real, so a NaN altitude is not modelled.
- `Physics.Inertia`: the time is a real, so `float(time)` of a NaN or non-numeric time is not modelled.
- `Strings.Lower`, `Strings.IsDigits`: ASCII letters and digits only. Python's `lower()` and `isdigit()` also act on other Unicode letters and digits.
- `Events.DecimalValue`: `float()` of the decimal text, exact and without rounding.
- `Events.GetEvents`: `iloc[:index+1]` uses the row label `index`. It equals the row's position because the parser gives the table a fresh range index and nothing before the walk reorders rows.
- `Events.NumericStamp`: every number the parser produces counts as a timestamp. Cell types other than numbers, strings and NaN (booleans, dates) are not modelled.
- `Units.SecondPassIsIdentity`: the second pass runs with the binding `Rebound` built from the first pass's labels, not with `Bound` recomputed from the converted table. Re-resolving the converted labels need not give the same binding: the kept columns are in key order rather than file order, and a label can mention several keys (file labels `Altitude (m)`, `Time altitude (s)` bind Altitude to the first, but after projection `Time altitude (s)` comes first).
- `Units.ConversionRescalesBoundColumns`: stated for passes whose labels do not collide (`Unambiguous`). When a rescaled quantity's new label is the bound label of a later rescaled quantity, or two rescaled quantities share a label, the later step reads the already relabelled column; that case is covered only by the general fold `ConvertFrom`.
