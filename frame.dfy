/**
 * The slice of a pandas DataFrame the ingestion code touches: a row-major table
 * of labelled columns whose cells are numbers, strings or NaN, with column
 * selection by label (`df[names]`), `rename`, `iloc[:n]` and `dropna(subset=…)`.
 */
module Frame {
  import opened Common

  /** One cell: a parsed number, a string the CSV parser left as text, or NaN. */
  datatype Cell = Num(x: real) | Text(s: string) | Missing

  datatype Table = Table(labels: seq<string>, rows: seq<seq<Cell>>)
  {
    /** Every row has one cell per column. */
    predicate Valid()
    {
      forall row :: row in rows ==> |row| == |labels|
    }
  }

  /** The positions of every column labelled `name`, left to right (labels may repeat). */
  function Positions(labels: seq<string>, name: string): (ps: seq<nat>)
    ensures forall k :: 0 <= k < |ps| ==> ps[k] < |labels| && labels[ps[k]] == name
    ensures forall j :: 0 <= j < |labels| && labels[j] == name ==> j in ps
    ensures forall a, b :: 0 <= a < b < |ps| ==> ps[a] < ps[b]
  {
    if labels == [] then []
    else
      var ps := Positions(labels[..|labels| - 1], name);
      if labels[|labels| - 1] == name then ps + [|labels| - 1] else ps
  }

  /** The positions `df[names]` selects: for each name in turn, every column carrying it. */
  function Selection(labels: seq<string>, names: seq<string>): (ps: seq<nat>)
    ensures forall k :: 0 <= k < |ps| ==> ps[k] < |labels| && labels[ps[k]] in names
  {
    if names == [] then []
    else
      var first := Positions(labels, names[0]);
      var rest := Selection(labels, names[1..]);
      assert forall k :: 0 <= k < |rest| ==> labels[rest[k]] in names;
      first + rest
  }

  /** Every name that labels some column is selected at least once. */
  lemma {:induction false} SelectionCovers(labels: seq<string>, names: seq<string>, n: string)
    requires n in names && n in labels
    ensures exists k :: 0 <= k < |Selection(labels, names)| && labels[Selection(labels, names)[k]] == n
  {
    var first := Positions(labels, names[0]);
    var rest := Selection(labels, names[1..]);
    assert Selection(labels, names) == first + rest;
    if n == names[0] {
      var j :| 0 <= j < |labels| && labels[j] == n;
      var k :| 0 <= k < |first| && first[k] == j;
      assert (first + rest)[k] == j;
    } else {
      assert n in names[1..];
      SelectionCovers(labels, names[1..], n);
      var k :| 0 <= k < |rest| && labels[rest[k]] == n;
      assert (first + rest)[|first| + k] == rest[k];
    }
  }

  /** The columns at positions `ps`, in that order, with every row cut down alike. */
  function Gather(t: Table, ps: seq<nat>): (r: Table)
    requires t.Valid()
    requires forall k :: 0 <= k < |ps| ==> ps[k] < |t.labels|
    ensures r.Valid() && |r.labels| == |ps| && |r.rows| == |t.rows|
    ensures forall k :: 0 <= k < |ps| ==> r.labels[k] == t.labels[ps[k]]
    ensures forall i, k :: 0 <= i < |t.rows| && 0 <= k < |ps| ==> r.rows[i][k] == t.rows[i][ps[k]]
  {
    var labels := seq(|ps|, k requires 0 <= k < |ps| => t.labels[ps[k]]);
    var rows := seq(|t.rows|, i requires 0 <= i < |t.rows| =>
      assert t.rows[i] in t.rows;
      seq(|ps|, k requires 0 <= k < |ps| => t.rows[i][ps[k]]));
    Table(labels, rows)
  }

  /** `df[names]`. */
  function Project(t: Table, names: seq<string>): (r: Table)
    requires t.Valid()
    ensures r.Valid() && |r.rows| == |t.rows|
    ensures forall k :: 0 <= k < |r.labels| ==> r.labels[k] in names
    ensures forall n :: n in names && n in t.labels ==> n in r.labels
  {
    var ps := Selection(t.labels, names);
    var r := Gather(t, ps);
    assert forall k :: 0 <= k < |r.labels| ==> r.labels[k] == t.labels[ps[k]];
    forall n | n in names && n in t.labels ensures n in r.labels {
      SelectionCovers(t.labels, names, n);
      var k :| 0 <= k < |ps| && t.labels[ps[k]] == n;
      assert r.labels[k] == n;
    }
    r
  }

  /** Projection copies cells: cell `k` of row `i` of `df[names]` is, in row `i`, a cell of a column carrying the same label. */
  lemma ProjectKeepsCell(t: Table, names: seq<string>, i: nat, k: nat)
    requires t.Valid() && i < |t.rows| && k < |Project(t, names).labels|
    ensures exists j :: (0 <= j < |t.labels| && t.labels[j] == Project(t, names).labels[k]
      && Project(t, names).rows[i][k] == t.rows[i][j])
  {
    var ps := Selection(t.labels, names);
    var r := Gather(t, ps);
    assert r == Project(t, names);
    assert r.labels[k] == t.labels[ps[k]] && r.rows[i][k] == t.rows[i][ps[k]];
  }

  /** `df.rename(columns=m)`: a column whose label is a key of `m` takes the mapped label. */
  function Rename(t: Table, m: map<string, string>): (r: Table)
    ensures r.rows == t.rows && |r.labels| == |t.labels|
    ensures forall j :: 0 <= j < |t.labels| && t.labels[j] !in m ==> r.labels[j] == t.labels[j]
    ensures forall j :: 0 <= j < |t.labels| && t.labels[j] in m ==> r.labels[j] == m[t.labels[j]]
  {
    Table(seq(|t.labels|, j requires 0 <= j < |t.labels| =>
            if t.labels[j] in m then m[t.labels[j]] else t.labels[j]),
          t.rows)
  }

  /** A rename whose every applicable entry maps a label to itself leaves the table alone. */
  lemma RenameFixedPoint(t: Table, m: map<string, string>)
    requires forall j :: 0 <= j < |t.labels| && t.labels[j] in m ==> m[t.labels[j]] == t.labels[j]
    ensures Rename(t, m) == t
  {
    assert Rename(t, m).labels == t.labels;
  }

  /** `df.iloc[:n]`. */
  function Truncate(t: Table, n: nat): (r: Table)
    requires n <= |t.rows|
    ensures r.labels == t.labels && r.rows == t.rows[..n]
  {
    Table(t.labels, t.rows[..n])
  }

  /** No column whose label is in `subset` holds NaN in `row`. */
  predicate Complete(labels: seq<string>, row: seq<Cell>, subset: seq<string>)
  {
    forall j :: 0 <= j < |row| && j < |labels| && labels[j] in subset ==> !row[j].Missing?
  }

  /** The rows of `rows` that are complete for `subset`, in their original order. */
  function KeepComplete(labels: seq<string>, rows: seq<seq<Cell>>, subset: seq<string>): (r: seq<seq<Cell>>)
    ensures |r| <= |rows|
    ensures forall row :: row in r <==> row in rows && Complete(labels, row, subset)
  {
    if rows == [] then []
    else
      var rest := KeepComplete(labels, rows[1..], subset);
      assert rows == [rows[0]] + rows[1..];
      if Complete(labels, rows[0], subset) then [rows[0]] + rest else rest
  }

  /** Filtering rows distributes over concatenation: kept rows stay in their original order. */
  lemma {:induction false} KeepCompleteAppend(labels: seq<string>, a: seq<seq<Cell>>, b: seq<seq<Cell>>, subset: seq<string>)
    ensures KeepComplete(labels, a + b, subset) == KeepComplete(labels, a, subset) + KeepComplete(labels, b, subset)
    decreases |a|
  {
    if a == [] {
      assert a + b == b;
    } else {
      assert (a + b)[0] == a[0] && (a + b)[1..] == a[1..] + b;
      KeepCompleteAppend(labels, a[1..], b, subset);
    }
  }

  /** The names of `subset` that label no column, in `subset` order, repeats kept. */
  function Absent(labels: seq<string>, subset: seq<string>): (r: seq<string>)
    ensures |r| <= |subset|
    ensures forall n :: n in r <==> n in subset && n !in labels
  {
    if subset == [] then []
    else
      var rest := Absent(labels, subset[1..]);
      assert subset == [subset[0]] + subset[1..];
      if subset[0] !in labels then [subset[0]] + rest else rest
  }

  /** The absent names of a concatenation are those of each part, in order. */
  lemma {:induction false} AbsentAppend(labels: seq<string>, a: seq<string>, b: seq<string>)
    ensures Absent(labels, a + b) == Absent(labels, a) + Absent(labels, b)
    decreases |a|
  {
    if a == [] {
      assert a + b == b;
    } else {
      assert (a + b)[0] == a[0] && (a + b)[1..] == a[1..] + b;
      AbsentAppend(labels, a[1..], b);
    }
  }

  /**
   * `df.dropna(subset=subset)`: a `KeyError` listing the names of `subset` that label
   * no column; otherwise the rows with no NaN under any column of `subset`.
   */
  function DropNA(t: Table, subset: seq<string>): (r: Result<Table>)
    ensures r.Err? <==> exists n :: n in subset && n !in t.labels
    ensures r.Err? ==> r.error.KeyErrorList? && forall n :: n in r.error.keys <==> n in subset && n !in t.labels
    ensures r.Ok? ==> r.value.labels == t.labels
    ensures r.Ok? ==> forall row :: row in r.value.rows <==> row in t.rows && Complete(t.labels, row, subset)
  {
    var absent := Absent(t.labels, subset);
    assert absent != [] ==> absent[0] in absent;
    if absent != [] then Err(KeyErrorList(absent))
    else Ok(Table(t.labels, KeepComplete(t.labels, t.rows, subset)))
  }
}
