/**
 * The unit registry, `extract_unit` and the unit normaliser `convert_units`.
 * A bound column is rescaled and relabelled `Key (unit)` only when its unit is
 * non-empty, differs from the canonical one and the pair is registered; an
 * unregistered pair only produces a warning.
 */
module Units {
  import opened Common
  import opened Strings
  import opened Frame
  import opened Registry

  // ---------------------------------------------------------------- extract_unit

  /** `s.split(c)[-1]`: the text after the last `c`, or all of `s` when there is none. */
  function AfterLast(s: string, c: char): (r: string)
    ensures c !in r
    ensures |r| <= |s| && r == s[|s| - |r|..]
    ensures |r| < |s| ==> s[|s| - |r| - 1] == c
  {
    if s == [] then []
    else if s[|s| - 1] == c then []
    else
      var r := AfterLast(s[..|s| - 1], c);
      assert s[..|s| - 1][|s| - 1 - |r|..] + [s[|s| - 1]] == s[|s| - |r| - 1..];
      r + [s[|s| - 1]]
  }

  /** `s.split(c)[0]`: the text before the first `c`, or all of `s` when there is none. */
  function BeforeFirst(s: string, c: char): (r: string)
    ensures c !in r
    ensures |r| <= |s| && r == s[..|r|]
    ensures |r| < |s| ==> s[|r|] == c
  {
    if s == [] then []
    else if s[0] == c then []
    else [s[0]] + BeforeFirst(s[1..], c)
  }

  /** Position `i` holds the last `(` of `name`, and `u` runs from there to the next `)` or the end. */
  predicate UnitSlot(name: string, i: nat, u: string)
  {
    && i < |name| && name[i] == '(' && '(' !in name[i + 1..]
    && StartsWith(name[i + 1..], u) && ')' !in u
    && (i + 1 + |u| == |name| || name[i + 1 + |u|] == ')')
  }

  /** `extract_unit`: the unit token inside the label's parentheses, if it has both kinds. */
  function ExtractUnit(name: string): (r: Option<string>)
    ensures r.None? <==> '(' !in name || ')' !in name
    ensures r.Some? ==> '(' !in r.value && ')' !in r.value
    ensures r.Some? ==> exists i: nat :: UnitSlot(name, i, r.value)
  {
    if '(' in name && ')' in name then
      var tail := AfterLast(name, '(');
      var u := BeforeFirst(tail, ')');
      assert |tail| < |name| by {
        assert '(' in name && '(' !in tail && tail == name[|name| - |tail|..];
      }
      var i := |name| - |tail| - 1;
      assert name[i + 1..] == tail;
      assert name[i] == '(' && '(' !in name[i + 1..];
      assert StartsWith(name[i + 1..], u) && ')' !in u;
      assert i + 1 + |u| == |name| || name[i + 1 + |u|] == tail[|u|] == ')';
      assert UnitSlot(name, i, u);
      Some(u)
    else None
  }

  /** A label written `Name (unit)` gives back exactly `unit`: the inverse of the relabelling. */
  lemma {:induction false} ExtractUnitOfLabel(quantity: string, unit: string)
    requires '(' !in unit && ')' !in unit
    ensures ExtractUnit(quantity + " (" + unit + ")") == Some(unit)
  {
    var name := quantity + " (" + unit + ")";
    var p := |quantity| + 1;
    assert name[p] == '(';
    assert name[|name| - 1] == ')';
    assert name[p + 1..] == unit + ")";
    var tail := AfterLast(name, '(');
    assert |tail| == |unit| + 1;
    assert tail == unit + ")";
    var u := BeforeFirst(tail, ')');
    assert u == unit;
  }

  /** `column_units`: the unit extracted from each bound label. */
  function UnitsOf(selected: map<string, string>): (r: map<string, Option<string>>)
    ensures r.Keys == selected.Keys
    ensures forall key :: key in r ==> r[key] == ExtractUnit(selected[key])
  {
    map key | key in selected :: ExtractUnit(selected[key])
  }

  /** Binding one more key records the unit of its label and leaves the other units alone. */
  lemma UnitsOfBind(selected: map<string, string>, key: string, column: string)
    ensures UnitsOf(selected[key := column]) == UnitsOf(selected)[key := ExtractUnit(column)]
  {
  }

  // ---------------------------------------------------------------- convert_units

  /** What `convert_units` does with one bound column. */
  datatype Action = Keep | Scale(factor: real) | Warn(unit: string)

  /**
   * The branch taken for a column whose extracted unit is `unit`: no unit, an empty
   * unit or the canonical unit keep it; a registered non-zero factor scales it.
   */
  function ActionFor(unit: Option<string>, required: string): (r: Action)
    ensures r.Keep? <==> unit.None? || unit.value == "" || unit.value == required
    ensures r.Scale? <==> !r.Keep? && (unit.value, required) in UnitConversions
    ensures r.Scale? ==> r.factor == UnitConversions[(unit.value, required)] && r.factor > 0.0
    ensures r.Warn? ==> r.unit == unit.value
  {
    RegisteredFactorsPositive();
    if unit.None? || unit.value == "" || unit.value == required then Keep
    else if (unit.value, required) in UnitConversions && UnitConversions[(unit.value, required)] != 0.0
    then Scale(UnitConversions[(unit.value, required)])
    else Warn(unit.value)
  }

  /** The console warnings of ingestion: an unregistered unit pair, or no required column found at all. */
  datatype Warning =
    | NoConversion(column: string, unit: string, target: string)
    | NoMatchingColumns

  datatype Converted = Converted(table: Table, warnings: seq<Warning>)

  /** `pd.to_numeric(…, errors='coerce')` followed by `*= factor`, on one cell. */
  function ScaleCell(c: Cell, factor: real, toNumeric: string -> Option<real>): (r: Cell)
    ensures !r.Text?
    ensures r.Missing? <==> c.Missing? || (c.Text? && toNumeric(c.s).None?)
    ensures c.Num? ==> r.x == c.x * factor
    ensures c.Text? && toNumeric(c.s).Some? ==> r.x == toNumeric(c.s).value * factor
  {
    match c
    case Num(x) => Num(x * factor)
    case Missing => Missing
    case Text(s) => if toNumeric(s).Some? then Num(toNumeric(s).value * factor) else Missing
  }

  /** Scaling by a non-zero factor and then by its inverse gives back every number and NaN. */
  lemma ScaleCellInverse(c: Cell, factor: real, toNumeric: string -> Option<real>)
    requires factor != 0.0 && !c.Text?
    ensures ScaleCell(ScaleCell(c, factor, toNumeric), 1.0 / factor, toNumeric) == c
  {
    if c.Num? {
      calc {
        c.x * factor * (1.0 / factor);
        == c.x * (factor * (1.0 / factor));
        == c.x;
      }
    }
  }

  /** Column `j` rescaled and relabelled, every other column untouched. */
  function ScaleColumn(t: Table, j: nat, factor: real, toNumeric: string -> Option<real>, name: string): (r: Table)
    requires t.Valid() && j < |t.labels|
    ensures r.Valid() && r.labels == t.labels[j := name] && |r.rows| == |t.rows|
    ensures forall i :: 0 <= i < |t.rows| ==> r.rows[i] == t.rows[i][j := ScaleCell(t.rows[i][j], factor, toNumeric)]
  {
    var rows := seq(|t.rows|, i requires 0 <= i < |t.rows| =>
      assert t.rows[i] in t.rows;
      t.rows[i][j := ScaleCell(t.rows[i][j], factor, toNumeric)]);
    Table(t.labels[j := name], rows)
  }

  /**
   * One iteration of the `convert_units` loop for quantity `key`. Looking the key up in
   * `selected` raises for an unbound quantity; the column itself is only read when it is
   * rescaled, and then it must carry its label exactly once.
   */
  function Step(t: Table, key: string, required: string, selected: map<string, string>,
                units: map<string, Option<string>>, toNumeric: string -> Option<real>): (r: Result<Converted>)
    requires t.Valid()
    ensures r.Ok? ==> r.value.table.Valid() && |r.value.table.labels| == |t.labels| && |r.value.table.rows| == |t.rows|
  {
    if key !in selected then Err(KeyError(key))
    else
      var name := selected[key];
      var unit := UnitOf(key, units);
      match ActionFor(unit, required)
      case Keep => Ok(Converted(t, []))
      case Warn(from) => Ok(Converted(t, [NoConversion(name, from, required)]))
      case Scale(factor) =>
        var ps := Positions(t.labels, name);
        if |ps| == 0 then Err(KeyError(name))
        else if |ps| > 1 then Err(TypeError)
        else Ok(Converted(ScaleColumn(t, ps[0], factor, toNumeric, key + " (" + required + ")"), []))
  }

  /** The unit of quantity `key` as `column_units.get(key)` reads it. */
  function UnitOf(key: string, units: map<string, Option<string>>): Option<string>
  {
    if key in units then units[key] else None
  }

  /**
   * The conversion rule of one iteration: an unbound quantity raises; a column with no
   * unit, an empty unit or its canonical unit is kept; an unregistered pair only warns;
   * a registered pair rescales the one column carrying the bound label and relabels it
   * `Key (unit)`, leaving every other column as it was.
   */
  lemma StepRule(t: Table, key: string, required: string, selected: map<string, string>,
                 units: map<string, Option<string>>, toNumeric: string -> Option<real>)
    requires t.Valid()
    ensures key !in selected ==> Step(t, key, required, selected, units, toNumeric) == Err(KeyError(key))
    ensures key in selected && ActionFor(UnitOf(key, units), required).Keep? ==>
      Step(t, key, required, selected, units, toNumeric) == Ok(Converted(t, []))
    ensures key in selected && ActionFor(UnitOf(key, units), required).Warn? ==>
      Step(t, key, required, selected, units, toNumeric) ==
        Ok(Converted(t, [NoConversion(selected[key], units[key].value, required)]))
    ensures key in selected && ActionFor(UnitOf(key, units), required).Scale? ==>
      var r := Step(t, key, required, selected, units, toNumeric);
      var ps := Positions(t.labels, selected[key]);
      && (|ps| == 0 ==> r == Err(KeyError(selected[key])))
      && (|ps| > 1 ==> r == Err(TypeError))
      && (|ps| == 1 ==>
            && r.Ok? && r.value.warnings == []
            && r.value.table.labels == t.labels[ps[0] := key + " (" + required + ")"]
            && (forall i :: 0 <= i < |t.rows| ==>
                  r.value.table.rows[i] == t.rows[i][ps[0] := ScaleCell(t.rows[i][ps[0]], ActionFor(UnitOf(key, units), required).factor, toNumeric)]))
  {
  }

  /** The warnings `ws`, printed first, followed by the outcome of the remaining iterations. */
  function AfterWarnings(ws: seq<Warning>, r: Result<Converted>): Result<Converted>
  {
    match r
    case Err(e) => Err(e)
    case Ok(c) => Ok(Converted(c.table, ws + c.warnings))
  }

  /** The outcome of the `convert_units` iterations over `quantities`, in order, from table `t`. */
  function ConvertFrom(t: Table, quantities: seq<(string, string)>, selected: map<string, string>,
                       units: map<string, Option<string>>, toNumeric: string -> Option<real>): (r: Result<Converted>)
    requires t.Valid()
    ensures r.Ok? ==> r.value.table.Valid() && |r.value.table.labels| == |t.labels| && |r.value.table.rows| == |t.rows|
    decreases |quantities|
  {
    if quantities == [] then Ok(Converted(t, []))
    else
      match Step(t, quantities[0].0, quantities[0].1, selected, units, toNumeric)
      case Err(e) => Err(e)
      case Ok(c) => AfterWarnings(c.warnings, ConvertFrom(c.table, quantities[1..], selected, units, toNumeric))
  }

  lemma AfterWarningsTwice(first: seq<Warning>, second: seq<Warning>, r: Result<Converted>)
    ensures AfterWarnings(first, AfterWarnings(second, r)) == AfterWarnings(first + second, r)
  {
    if r.Ok? {
      assert first + (second + r.value.warnings) == (first + second) + r.value.warnings;
    }
  }

  /** A successful run looked up every quantity: an unbound one raises `KeyError`. */
  lemma {:induction false} SuccessNeedsEveryQuantity(t: Table, quantities: seq<(string, string)>,
                                                     selected: map<string, string>,
                                                     units: map<string, Option<string>>,
                                                     toNumeric: string -> Option<real>)
    requires t.Valid()
    requires ConvertFrom(t, quantities, selected, units, toNumeric).Ok?
    ensures forall k :: 0 <= k < |quantities| ==> quantities[k].0 in selected
    decreases |quantities|
  {
    if quantities != [] {
      var step := Step(t, quantities[0].0, quantities[0].1, selected, units, toNumeric);
      StepRule(t, quantities[0].0, quantities[0].1, selected, units, toNumeric);
      SuccessNeedsEveryQuantity(step.value.table, quantities[1..], selected, units, toNumeric);
      assert forall k :: 1 <= k < |quantities| ==> quantities[k] == quantities[1..][k - 1];
    }
  }

  /** An unbound quantity anywhere in the list makes the whole run raise. */
  lemma UnboundQuantityFails(t: Table, quantities: seq<(string, string)>, selected: map<string, string>,
                             units: map<string, Option<string>>, toNumeric: string -> Option<real>)
    requires t.Valid()
    requires exists k :: 0 <= k < |quantities| && quantities[k].0 !in selected
    ensures ConvertFrom(t, quantities, selected, units, toNumeric).Err?
  {
    if ConvertFrom(t, quantities, selected, units, toNumeric).Ok? {
      SuccessNeedsEveryQuantity(t, quantities, selected, units, toNumeric);
    }
  }

  /** Every quantity is bound and none would be rescaled. */
  predicate NothingToScale(quantities: seq<(string, string)>, selected: map<string, string>,
                           units: map<string, Option<string>>)
  {
    forall k :: 0 <= k < |quantities| ==>
      quantities[k].0 in selected && !ActionFor(UnitOf(quantities[k].0, units), quantities[k].1).Scale?
  }

  /** When every quantity is bound and none needs rescaling, the table comes back unchanged. */
  lemma {:induction false} NothingToScaleKeepsTable(t: Table, quantities: seq<(string, string)>,
                                                    selected: map<string, string>,
                                                    units: map<string, Option<string>>,
                                                    toNumeric: string -> Option<real>)
    requires t.Valid()
    requires NothingToScale(quantities, selected, units)
    ensures ConvertFrom(t, quantities, selected, units, toNumeric).Ok?
    ensures ConvertFrom(t, quantities, selected, units, toNumeric).value.table == t
    decreases |quantities|
  {
    if quantities != [] {
      StepRule(t, quantities[0].0, quantities[0].1, selected, units, toNumeric);
      assert NothingToScale(quantities[1..], selected, units) by {
        assert forall k :: 0 <= k < |quantities| - 1 ==> quantities[1..][k] == quantities[k + 1];
      }
      NothingToScaleKeepsTable(t, quantities[1..], selected, units, toNumeric);
    }
  }

  /** A table already in canonical units (no unit, an empty one or the canonical one) passes unchanged and silently. */
  lemma {:induction false} CanonicalTableUnchanged(t: Table, quantities: seq<(string, string)>,
                                                   selected: map<string, string>,
                                                   units: map<string, Option<string>>,
                                                   toNumeric: string -> Option<real>)
    requires t.Valid()
    requires forall k :: 0 <= k < |quantities| ==>
      quantities[k].0 in selected && ActionFor(UnitOf(quantities[k].0, units), quantities[k].1).Keep?
    ensures ConvertFrom(t, quantities, selected, units, toNumeric) == Ok(Converted(t, []))
    decreases |quantities|
  {
    if quantities != [] {
      StepRule(t, quantities[0].0, quantities[0].1, selected, units, toNumeric);
      assert forall k :: 0 <= k < |quantities| - 1 ==> quantities[1..][k] == quantities[k + 1];
      CanonicalTableUnchanged(t, quantities[1..], selected, units, toNumeric);
      var none: seq<Warning> := [];
      assert none + none == none;
    }
  }

  // ---------------------------------------------------------------- the whole pass

  /** Quantity `q` would be rescaled: its unit is non-canonical and the pair is registered. */
  predicate Rescaled(q: (string, string), units: map<string, Option<string>>)
  {
    ActionFor(UnitOf(q.0, units), q.1).Scale?
  }

  /** The column a rescaled quantity's column takes: `f"{key} ({required_unit})"`. */
  function Target(q: (string, string)): string
  {
    q.0 + " (" + q.1 + ")"
  }

  /**
   * What the pass does to a column labelled `column`: the new column and the factor of
   * the first rescaled quantity bound to it, or nothing when no rescaled quantity is.
   */
  function Rescaling(quantities: seq<(string, string)>, selected: map<string, string>,
                     units: map<string, Option<string>>, column: string): Option<(string, real)>
    decreases |quantities|
  {
    if quantities == [] then None
    else if quantities[0].0 in selected && selected[quantities[0].0] == column && Rescaled(quantities[0], units)
    then Some((Target(quantities[0]), ActionFor(UnitOf(quantities[0].0, units), quantities[0].1).factor))
    else Rescaling(quantities[1..], selected, units, column)
  }

  /**
   * The labels the pass reads and writes do not collide: no two rescaled quantities are
   * bound to the same column, and no rescaled quantity's new column is the bound column of a
   * later rescaled quantity.
   */
  predicate Unambiguous(quantities: seq<(string, string)>, selected: map<string, string>,
                        units: map<string, Option<string>>)
  {
    forall a, b :: (0 <= a < b < |quantities| && Rescaled(quantities[a], units) && Rescaled(quantities[b], units)
                    && quantities[a].0 in selected && quantities[b].0 in selected) ==>
        && selected[quantities[a].0] != selected[quantities[b].0]
        && Target(quantities[a]) != selected[quantities[b].0]
  }

  /** The warnings the pass prints, in order: one per bound quantity whose unit pair is unregistered. */
  function Diagnostics(quantities: seq<(string, string)>, selected: map<string, string>,
                       units: map<string, Option<string>>): seq<Warning>
    decreases |quantities|
  {
    if quantities == [] then []
    else
      var (key, required) := quantities[0];
      var rest := Diagnostics(quantities[1..], selected, units);
      if key in selected && ActionFor(UnitOf(key, units), required).Warn?
      then [NoConversion(selected[key], ActionFor(UnitOf(key, units), required).unit, required)] + rest
      else rest
  }

  /** A column's cell after the pass, given what the pass does to its column. */
  function CellAfter(c: Cell, rescaling: Option<(string, real)>, toNumeric: string -> Option<real>): Cell
  {
    if rescaling.Some? then ScaleCell(c, rescaling.value.1, toNumeric) else c
  }

  /** A column's column after the pass, given what the pass does to it. */
  function LabelAfterPass(column: string, rescaling: Option<(string, real)>): string
  {
    if rescaling.Some? then rescaling.value.0 else column
  }

  /**
   * The whole of `convert_units`: when it succeeds and its labels do not collide, every
   * column bound to a rescaled quantity is relabelled `Key (unit)` and holds its cells
   * converted by the registered factor, every other column is untouched, and the warnings
   * are exactly those for the unregistered unit pairs, in order.
   */
  lemma {:induction false} ConversionRescalesBoundColumns(t: Table, quantities: seq<(string, string)>,
                                                          selected: map<string, string>,
                                                          units: map<string, Option<string>>,
                                                          toNumeric: string -> Option<real>)
    requires t.Valid() && Unambiguous(quantities, selected, units)
    requires ConvertFrom(t, quantities, selected, units, toNumeric).Ok?
    ensures var out := ConvertFrom(t, quantities, selected, units, toNumeric).value;
      && out.warnings == Diagnostics(quantities, selected, units)
      && (forall j :: 0 <= j < |t.labels| ==>
            out.table.labels[j] == LabelAfterPass(t.labels[j], Rescaling(quantities, selected, units, t.labels[j])))
      && (forall i, j :: 0 <= i < |t.rows| && 0 <= j < |t.labels| ==>
            out.table.rows[i][j] == CellAfter(t.rows[i][j], Rescaling(quantities, selected, units, t.labels[j]), toNumeric))
    decreases |quantities|
  {
    if quantities != [] {
      var (key, required) := quantities[0];
      var rest := quantities[1..];
      var step := Step(t, key, required, selected, units, toNumeric);
      StepRule(t, key, required, selected, units, toNumeric);
      var t' := step.value.table;
      assert Unambiguous(rest, selected, units) by {
        forall a, b | 0 <= a < b < |rest| ensures rest[a] == quantities[a + 1] && rest[b] == quantities[b + 1] { }
      }
      ConversionRescalesBoundColumns(t', rest, selected, units, toNumeric);
      if Rescaled(quantities[0], units) {
        RescaledStep(t, quantities, selected, units, toNumeric);
      } else {
        forall j | 0 <= j < |t.labels|
          ensures Rescaling(quantities, selected, units, t.labels[j]) == Rescaling(rest, selected, units, t.labels[j])
        {
        }
      }
    }
  }

  /**
   * The first quantity is rescaled: its column `p` is the only one it touches, and the
   * rest of the pass never touches `p` again, since no later rescaled quantity is bound to
   * the old or the new label.
   */
  lemma RescaledStep(t: Table, quantities: seq<(string, string)>, selected: map<string, string>,
                     units: map<string, Option<string>>, toNumeric: string -> Option<real>)
    requires t.Valid() && quantities != [] && Unambiguous(quantities, selected, units)
    requires Rescaled(quantities[0], units)
    requires Step(t, quantities[0].0, quantities[0].1, selected, units, toNumeric).Ok?
    ensures var (key, required) := quantities[0];
      var t' := Step(t, key, required, selected, units, toNumeric).value.table;
      && |t'.labels| == |t.labels| && |t'.rows| == |t.rows|
      && forall j :: 0 <= j < |t.labels| ==>
           && LabelAfterPass(t'.labels[j], Rescaling(quantities[1..], selected, units, t'.labels[j]))
                == LabelAfterPass(t.labels[j], Rescaling(quantities, selected, units, t.labels[j]))
           && forall i :: 0 <= i < |t.rows| ==>
                CellAfter(t'.rows[i][j], Rescaling(quantities[1..], selected, units, t'.labels[j]), toNumeric)
                  == CellAfter(t.rows[i][j], Rescaling(quantities, selected, units, t.labels[j]), toNumeric)
  {
    var (key, required) := quantities[0];
    StepRule(t, key, required, selected, units, toNumeric);
    forall j | 0 <= j < |t.labels|
      ensures var t' := Step(t, key, required, selected, units, toNumeric).value.table;
        && LabelAfterPass(t'.labels[j], Rescaling(quantities[1..], selected, units, t'.labels[j]))
             == LabelAfterPass(t.labels[j], Rescaling(quantities, selected, units, t.labels[j]))
        && forall i :: 0 <= i < |t.rows| ==>
             CellAfter(t'.rows[i][j], Rescaling(quantities[1..], selected, units, t'.labels[j]), toNumeric)
               == CellAfter(t.rows[i][j], Rescaling(quantities, selected, units, t.labels[j]), toNumeric)
    {
      RescaledColumn(t, quantities, selected, units, toNumeric, j);
    }
  }

  /** `RescaledStep` for column `j`, the rescaled one or another. */
  lemma RescaledColumn(t: Table, quantities: seq<(string, string)>, selected: map<string, string>,
                       units: map<string, Option<string>>, toNumeric: string -> Option<real>, j: nat)
    requires t.Valid() && quantities != [] && Unambiguous(quantities, selected, units)
    requires Rescaled(quantities[0], units)
    requires Step(t, quantities[0].0, quantities[0].1, selected, units, toNumeric).Ok?
    requires j < |t.labels|
    ensures var (key, required) := quantities[0];
      var t' := Step(t, key, required, selected, units, toNumeric).value.table;
      && j < |t'.labels| && |t'.rows| == |t.rows|
      && LabelAfterPass(t'.labels[j], Rescaling(quantities[1..], selected, units, t'.labels[j]))
           == LabelAfterPass(t.labels[j], Rescaling(quantities, selected, units, t.labels[j]))
      && forall i :: 0 <= i < |t.rows| ==>
           CellAfter(t'.rows[i][j], Rescaling(quantities[1..], selected, units, t'.labels[j]), toNumeric)
             == CellAfter(t.rows[i][j], Rescaling(quantities, selected, units, t.labels[j]), toNumeric)
  {
    var (key, required) := quantities[0];
    StepRule(t, key, required, selected, units, toNumeric);
    var ps := Positions(t.labels, selected[key]);
    var p := ps[0];
    var factor := ActionFor(UnitOf(key, units), required).factor;
    if j == p {
      assert Rescaling(quantities, selected, units, selected[key]) == Some((Target(quantities[0]), factor));
      NoLaterRescaling(quantities, selected, units, Target(quantities[0]));
    }
  }

  /** No rescaled quantity after the first, itself rescaled, is bound to its new column. */
  lemma NoLaterRescaling(quantities: seq<(string, string)>, selected: map<string, string>,
                         units: map<string, Option<string>>, column: string)
    requires quantities != [] && Unambiguous(quantities, selected, units)
    requires Rescaled(quantities[0], units) && quantities[0].0 in selected
    requires column == Target(quantities[0])
    ensures Rescaling(quantities[1..], selected, units, column).None?
  {
    NoneAfter(quantities, selected, units, column, 1);
  }

  /** `Rescaling` from position `k` on finds nothing when no rescaled quantity from `k` on is bound to `column`. */
  lemma {:induction false} NoneAfter(quantities: seq<(string, string)>, selected: map<string, string>,
                                     units: map<string, Option<string>>, column: string, k: nat)
    requires k <= |quantities|
    requires forall b :: k <= b < |quantities| && Rescaled(quantities[b], units) && quantities[b].0 in selected ==>
      selected[quantities[b].0] != column
    ensures Rescaling(quantities[k..], selected, units, column).None?
    decreases |quantities| - k
  {
    if k < |quantities| {
      assert quantities[k..][1..] == quantities[k + 1..];
      NoneAfter(quantities, selected, units, column, k + 1);
    }
  }

  /** Quantity names are distinct and canonical units hold no parentheses. */
  predicate WellFormed(quantities: seq<(string, string)>)
  {
    && (forall a, b :: 0 <= a < b < |quantities| ==> quantities[a].0 != quantities[b].0)
    && (forall k :: 0 <= k < |quantities| ==> '(' !in quantities[k].1 && ')' !in quantities[k].1)
  }

  lemma RequiredUnitsWellFormed()
    ensures WellFormed(RequiredUnits)
  {
  }

  /** The label a bound column carries after the normaliser: `Key (unit)` if rescaled, else its own. */
  function LabelAfter(key: string, required: string, column: string, unit: Option<string>): string
  {
    if ActionFor(unit, required).Scale? then key + " (" + required + ")" else column
  }

  /** The binding a second resolution of the converted labels would produce. */
  ghost function Rebound(quantities: seq<(string, string)>, selected: map<string, string>,
                         units: map<string, Option<string>>): (r: map<string, string>)
    ensures r.Keys == selected.Keys
  {
    map key | key in selected ::
      if exists k :: 0 <= k < |quantities| && quantities[k].0 == key
      then
        var k :| 0 <= k < |quantities| && quantities[k].0 == key;
        LabelAfter(key, quantities[k].1, selected[key], UnitOf(key, units))
      else selected[key]
  }

  /**
   * Idempotence of the normaliser: once the labels it leaves behind are re-resolved (each
   * unit re-extracted from its label), no quantity needs rescaling, so a second pass is
   * the identity on any table.
   */
  lemma SecondPassIsIdentity(t: Table, quantities: seq<(string, string)>, selected: map<string, string>,
                             units: map<string, Option<string>>, toNumeric: string -> Option<real>)
    requires t.Valid() && WellFormed(quantities)
    requires forall k :: 0 <= k < |quantities| ==> quantities[k].0 in selected
    requires forall key :: key in selected ==> key in units && units[key] == ExtractUnit(selected[key])
    ensures
      var again := Rebound(quantities, selected, units);
      && ConvertFrom(t, quantities, again, UnitsOf(again), toNumeric).Ok?
      && ConvertFrom(t, quantities, again, UnitsOf(again), toNumeric).value.table == t
  {
    var again := Rebound(quantities, selected, units);
    var againUnits := UnitsOf(again);
    forall k | 0 <= k < |quantities|
      ensures quantities[k].0 in again && !ActionFor(UnitOf(quantities[k].0, againUnits), quantities[k].1).Scale?
    {
      RelabelledNeedsNoScaling(quantities, selected, units, k);
    }
    NothingToScaleKeepsTable(t, quantities, again, againUnits, toNumeric);
  }

  /** One quantity of the second pass: its re-extracted unit is the canonical one or a unit that was not rescaled. */
  lemma RelabelledNeedsNoScaling(quantities: seq<(string, string)>, selected: map<string, string>,
                                 units: map<string, Option<string>>, k: nat)
    requires WellFormed(quantities) && k < |quantities| && quantities[k].0 in selected
    requires forall key :: key in selected ==> key in units && units[key] == ExtractUnit(selected[key])
    ensures var again := Rebound(quantities, selected, units);
      quantities[k].0 in again && !ActionFor(UnitOf(quantities[k].0, UnitsOf(again)), quantities[k].1).Scale?
  {
    var key, required := quantities[k].0, quantities[k].1;
    var again := Rebound(quantities, selected, units);
    var relabelled := again[key];
    ReboundEntry(quantities, selected, units, k);
    assert UnitOf(key, UnitsOf(again)) == ExtractUnit(relabelled);
    if ActionFor(units[key], required).Scale? {
      assert '(' !in required && ')' !in required;
      ExtractUnitOfLabel(key, required);
      assert ExtractUnit(relabelled) == Some(required);
    } else {
      assert ExtractUnit(relabelled) == units[key];
    }
  }

  /** The label a second resolution binds the quantity at position `k` to. */
  lemma ReboundEntry(quantities: seq<(string, string)>, selected: map<string, string>,
                     units: map<string, Option<string>>, k: nat)
    requires WellFormed(quantities) && k < |quantities| && quantities[k].0 in selected
    ensures var key := quantities[k].0;
      Rebound(quantities, selected, units)[key] == LabelAfter(key, quantities[k].1, selected[key], UnitOf(key, units))
  {
    var key := quantities[k].0;
    var k' :| 0 <= k' < |quantities| && quantities[k'].0 == key;
    assert k' == k;
  }
}
