/**
 * `convert_units`: the loop over `REQUIRED_UNITS` applying the conversion rule of
 * `Units.Step` to each required quantity in turn.
 */
module Normaliser {
  import opened Common
  import opened Frame
  import opened Units

  /**
   * `convert_units(df, column_units, selected_columns)`: the loop over the
   * (quantity, unit) pairs of `REQUIRED_UNITS`, passed in as `quantities`.
   */
  method ConvertUnits(t: Table, quantities: seq<(string, string)>, selected: map<string, string>,
                      units: map<string, Option<string>>, toNumeric: string -> Option<real>)
    returns (r: Result<Converted>)
    requires t.Valid()
    ensures r == ConvertFrom(t, quantities, selected, units, toNumeric)
  {
    var table := t;
    var warnings: seq<Warning> := [];
    var rest := quantities;
    var whole := ConvertFrom(t, quantities, selected, units, toNumeric);
    assert whole.Ok? ==> whole.value.warnings == [] + whole.value.warnings;
    while rest != []
      invariant table.Valid()
      invariant whole == AfterWarnings(warnings, ConvertFrom(table, rest, selected, units, toNumeric))
      decreases |rest|
    {
      var (key, required) := rest[0];
      var step := Step(table, key, required, selected, units, toNumeric);
      if step.Err? {
        return Err(step.error);
      }
      AfterWarningsTwice(warnings, step.value.warnings,
                         ConvertFrom(step.value.table, rest[1..], selected, units, toNumeric));
      table, warnings, rest := step.value.table, warnings + step.value.warnings, rest[1..];
    }
    r := Ok(Converted(table, warnings));
    assert warnings + [] == warnings;
  }
}
