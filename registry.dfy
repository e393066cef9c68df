/** The fixed tables at the top of the script: what is searched for and which units are canonical. */
module Registry {

  /** `REQUIRED_COLUMNS`: the quantity names searched for, in search order. */
  const RequiredColumns: seq<string> :=
    ["Time", "Altitude", "Total velocity", "Reference area",
     "Normal force coefficient", "CG location", "CP location"]

  /** `REQUIRED_UNITS`, in the dict's iteration order. */
  const RequiredUnits: seq<(string, string)> :=
    [("Time", "s"), ("Altitude", "m"), ("Total velocity", "m/s"), ("Reference area", "m²"),
     ("Normal force coefficient", ""), ("CG location", "m"), ("CP location", "m")]

  /** `REQUIRED_COLUMN_NAMES`: the labels `dropna` checks. */
  const RequiredColumnNames: seq<string> :=
    ["Time (s)", "Altitude (m)", "Total velocity (m/s)", "Reference area (m²)",
     "Normal force coefficient ()", "CG location (m)", "CP location (m)"]

  /** `UNIT_CONVERSIONS`: (from, to) to the factor that takes a value in `from` to `to`. */
  const UnitConversions: map<(string, string), real> :=
    map[("in", "m") := 0.0254,
        ("ft", "m") := 0.3048,
        ("ft/s", "m/s") := 0.3048,
        ("cm²", "m²") := 0.0001,
        ("in²", "m²") := 0.00064516,
        ("lb·ft²", "kg·m²") := 0.0421401]

  /** Every registered factor is positive, so every conversion can be undone by its inverse. */
  lemma RegisteredFactorsPositive()
    ensures forall pair :: pair in UnitConversions ==> UnitConversions[pair] > 0.0
  {
  }
}
