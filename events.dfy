/**
 * `get_events`: the walk down the `Time (s)` column that records the simulator's
 * `# Event` markers with the latest timestamp seen so far, remembers the time of the
 * last burnout marker, and cuts the table after the first apogee marker.
 */
module Events {
  import opened Common
  import opened Strings
  import opened Frame

  /** The label of the column the walk reads. */
  const TimeLabel: string := "Time (s)"

  /** A Python float as `latest_timestamp` holds it: a number, or NaN read from an empty cell. */
  datatype Timestamp = At(t: real) | NotANumber

  /** One entry of `events`: the timestamp in force and the marker text, stripped. */
  datatype Event = Event(time: Timestamp, text: string)

  /** What the walk returns: the events, the (possibly cut) table, and the burnout time. */
  datatype Timeline = Timeline(events: seq<Event>, table: Table, burnout: Timestamp)

  // ---------------------------------------------------------------- one cell

  /** `s.replace('.', '', 1).isdigit()`: digits, with at most one `.` among them. */
  predicate IsDecimalText(s: string)
  {
    IsDigits(RemoveFirst(s, '.'))
  }

  function Pow10(n: nat): (r: nat)
    ensures r >= 1
  {
    if n == 0 then 1 else 10 * Pow10(n - 1)
  }

  /** The value of a run of ASCII digits: fewer than `|s|` decimal places can hold. */
  function DigitsValue(s: string): (r: nat)
    requires forall i :: 0 <= i < |s| ==> IsDigit(s[i])
    ensures r < Pow10(|s|)
  {
    if s == [] then 0
    else
      var d := s[|s| - 1] as int - '0' as int;
      assert IsDigit(s[|s| - 1]) && 0 <= d <= 9;
      DigitsValue(s[..|s| - 1]) * 10 + d
  }

  /** The number of characters after the first `c` in `s`, or 0 when there is none. */
  function CharsAfterFirst(s: string, c: char): (r: nat)
    ensures r < |s| || r == 0
    ensures c !in s ==> r == 0
  {
    if s == [] then 0
    else if s[0] == c then |s| - 1
    else CharsAfterFirst(s[1..], c)
  }

  /** `float(s)` for a decimal text: its digits read as a whole number, shifted past the fraction digits. */
  function DecimalValue(s: string): (r: real)
    requires IsDecimalText(s)
    ensures r >= 0.0
    ensures '.' !in s ==> r == DigitsValue(s) as real
  {
    var digits := RemoveFirst(s, '.');
    assert forall i :: 0 <= i < |digits| ==> IsDigit(digits[i]);
    var whole := DigitsValue(digits);
    var scale := Pow10(CharsAfterFirst(s, '.'));
    whole as real / scale as real
  }

  /** The characters after the first `.` of `a + "." + b`, when `a` has no `.`, are those of `b`. */
  lemma {:induction false} CharsAfterPoint(a: string, b: string)
    requires '.' !in a
    ensures CharsAfterFirst(a + "." + b, '.') == |b|
    decreases |a|
  {
    if a == [] {
      assert a + "." + b == "." + b;
    } else {
      assert (a + "." + b)[0] == a[0] && (a + "." + b)[1..] == a[1..] + "." + b;
      CharsAfterPoint(a[1..], b);
    }
  }

  /** Deleting the first `.` of `a + "." + b`, when `a` has no `.`, leaves `a + b`. */
  lemma {:induction false} PointRemoved(a: string, b: string)
    requires '.' !in a
    ensures RemoveFirst(a + "." + b, '.') == a + b
  {
    var s := a + "." + b;
    assert s[|a|] == '.';
    assert s[..|a|] == a && s[|a| + 1..] == b;
  }

  /**
   * `float(a + '.' + b)` for digit runs `a` and `b`, not both empty: the digits of `a + b`
   * read as a whole number, divided by ten once per digit of `b`.
   */
  lemma {:induction false} DecimalValueSplit(a: string, b: string)
    requires forall i :: 0 <= i < |a| ==> IsDigit(a[i])
    requires forall i :: 0 <= i < |b| ==> IsDigit(b[i])
    requires a + b != []
    ensures IsDecimalText(a + "." + b)
    ensures DecimalValue(a + "." + b) == DigitsValue(a + b) as real / Pow10(|b|) as real
  {
    assert forall k :: 0 <= k < |a| ==> a[k] != '.';
    PointRemoved(a, b);
    var digits := a + b;
    assert forall i :: 0 <= i < |digits| ==> IsDigit(digits[i]) by {
      forall i | 0 <= i < |digits| ensures IsDigit(digits[i]) {
        if i < |a| { assert digits[i] == a[i]; } else { assert digits[i] == b[i - |a|]; }
      }
    }
    CharsAfterPoint(a, b);
  }

  /**
   * The first branch of the walk: a number or NaN is a timestamp as it stands; a string
   * is one when it reads as a decimal. Anything else is not a timestamp.
   */
  function NumericStamp(c: Cell): (r: Option<Timestamp>)
    ensures r.None? <==> c.Text? && !IsDecimalText(c.s)
    ensures r == Some(NotANumber) <==> c.Missing?
  {
    match c
    case Num(x) => Some(At(x))
    case Missing => Some(NotANumber)
    case Text(s) => if IsDecimalText(s) then Some(At(DecimalValue(s))) else None
  }

  /** The second branch: a string starting with `# Event` (never a timestamp, see `MarkerIsNoStamp`). */
  predicate IsMarker(c: Cell)
  {
    c.Text? && StartsWith(c.s, "# Event")
  }

  /** A marker starts with `#`, which no decimal text does, so the two branches never overlap. */
  lemma MarkerIsNoStamp(c: Cell)
    ensures IsMarker(c) ==> NumericStamp(c).None?
  {
    if IsMarker(c) {
      var s := c.s;
      assert s[..7] == "# Event";
      assert s[0] == '#';
      var d := RemoveFirst(s, '.');
      RemoveFirstIsDifference(s, '.');
      assert multiset(d)['#'] == multiset(s)['#'] > 0;
      assert '#' in d;
    }
  }

  /** A marker whose stripped text mentions `BURNOUT`. */
  predicate IsBurnout(c: Cell)
  {
    IsMarker(c) && Contains(Strip(c.s), "BURNOUT")
  }

  /** A marker whose text mentions `APOGEE`. */
  predicate IsApogee(c: Cell)
  {
    IsMarker(c) && Contains(c.s, "APOGEE")
  }

  // ---------------------------------------------------------------- reference definitions

  /** The timestamp in force after the first `n` cells: initially 0.0, then each timestamp read replaces it. */
  function LatestStamp(cells: seq<Cell>, n: nat): Timestamp
    requires n <= |cells|
  {
    if n == 0 then At(0.0)
    else
      match NumericStamp(cells[n - 1])
      case Some(stamp) => stamp
      case None => LatestStamp(cells, n - 1)
  }

  /** The events recorded among the first `n` cells, in row order. */
  function EventsBefore(cells: seq<Cell>, n: nat): (r: seq<Event>)
    requires n <= |cells|
    ensures |r| <= n
  {
    if n == 0 then []
    else
      EventsBefore(cells, n - 1) +
      (if IsMarker(cells[n - 1]) then [Event(LatestStamp(cells, n - 1), Strip(cells[n - 1].s))] else [])
  }

  /** `BURNOUT_TIME` after the first `n` cells, starting from `initial`: each burnout marker overwrites it. */
  function BurnoutBefore(cells: seq<Cell>, n: nat, initial: Timestamp): Timestamp
    requires n <= |cells|
  {
    if n == 0 then initial
    else if IsBurnout(cells[n - 1]) then LatestStamp(cells, n - 1)
    else BurnoutBefore(cells, n - 1, initial)
  }

  /** The row of the first apogee marker, if any. */
  function FirstApogee(cells: seq<Cell>): (r: Option<nat>)
    ensures r.None? <==> forall j :: 0 <= j < |cells| ==> !IsApogee(cells[j])
    ensures r.Some? ==> r.value < |cells| && IsApogee(cells[r.value])
    ensures r.Some? ==> forall j :: 0 <= j < r.value ==> !IsApogee(cells[j])
  {
    if cells == [] then None
    else
      var r := FirstApogee(cells[..|cells| - 1]);
      if r.Some? then r
      else if IsApogee(cells[|cells| - 1]) then Some(|cells| - 1)
      else None
  }

  /** How many rows the walk visits: through the first apogee marker, or all of them. */
  function Cutoff(cells: seq<Cell>): (n: nat)
    ensures n <= |cells|
    ensures FirstApogee(cells).Some? ==> n == FirstApogee(cells).value + 1
    ensures FirstApogee(cells).None? ==> n == |cells|
  {
    match FirstApogee(cells)
    case Some(k) => k + 1
    case None => |cells|
  }

  /** The cells of column `j`, top to bottom. */
  function Column(t: Table, j: nat): (r: seq<Cell>)
    requires t.Valid() && j < |t.labels|
    ensures |r| == |t.rows|
    ensures forall i :: 0 <= i < |t.rows| ==> r[i] == t.rows[i][j]
  {
    seq(|t.rows|, i requires 0 <= i < |t.rows| => assert t.rows[i] in t.rows; t.rows[i][j])
  }

  /** One more row visited: how each reference definition moves on. */
  lemma Advance(cells: seq<Cell>, n: nat, initial: Timestamp)
    requires n < |cells|
    ensures NumericStamp(cells[n]).Some? ==>
      && LatestStamp(cells, n + 1) == NumericStamp(cells[n]).value
      && EventsBefore(cells, n + 1) == EventsBefore(cells, n)
      && BurnoutBefore(cells, n + 1, initial) == BurnoutBefore(cells, n, initial)
    ensures NumericStamp(cells[n]).None? && !IsMarker(cells[n]) ==>
      && LatestStamp(cells, n + 1) == LatestStamp(cells, n)
      && EventsBefore(cells, n + 1) == EventsBefore(cells, n)
      && BurnoutBefore(cells, n + 1, initial) == BurnoutBefore(cells, n, initial)
    ensures IsMarker(cells[n]) ==>
      && LatestStamp(cells, n + 1) == LatestStamp(cells, n)
      && EventsBefore(cells, n + 1) == EventsBefore(cells, n) + [Event(LatestStamp(cells, n), Strip(cells[n].s))]
      && BurnoutBefore(cells, n + 1, initial) ==
           (if IsBurnout(cells[n]) then LatestStamp(cells, n) else BurnoutBefore(cells, n, initial))
  {
    MarkerIsNoStamp(cells[n]);
  }

  // ---------------------------------------------------------------- properties of the walk

  /**
   * The timestamp in force is that of the last cell read as a timestamp before row `n`,
   * and 0.0 while there has been none.
   */
  lemma {:induction false} LatestStampIsLastNumeric(cells: seq<Cell>, n: nat)
    requires n <= |cells|
    ensures (forall j :: 0 <= j < n ==> NumericStamp(cells[j]).None?) ==> LatestStamp(cells, n) == At(0.0)
    ensures forall j :: 0 <= j < n && NumericStamp(cells[j]).Some? &&
                        (forall m :: j < m < n ==> NumericStamp(cells[m]).None?)
                        ==> LatestStamp(cells, n) == NumericStamp(cells[j]).value
  {
    if n > 0 {
      LatestStampIsLastNumeric(cells, n - 1);
      forall j | 0 <= j < n && NumericStamp(cells[j]).Some? && (forall m :: j < m < n ==> NumericStamp(cells[m]).None?)
        ensures LatestStamp(cells, n) == NumericStamp(cells[j]).value
      {
        if j < n - 1 {
          assert NumericStamp(cells[n - 1]).None?;
          assert forall m :: j < m < n - 1 ==> NumericStamp(cells[m]).None?;
        }
      }
    }
  }

  /** Rows are visited in order: the events recorded before row `m` begin the events recorded before any later row. */
  lemma {:induction false} EventsOnlyGrow(cells: seq<Cell>, m: nat, n: nat)
    requires m <= n <= |cells|
    ensures |EventsBefore(cells, m)| <= |EventsBefore(cells, n)|
    ensures EventsBefore(cells, n)[..|EventsBefore(cells, m)|] == EventsBefore(cells, m)
    decreases n - m
  {
    if m < n {
      EventsOnlyGrow(cells, m, n - 1);
      var a, b, c := EventsBefore(cells, m), EventsBefore(cells, n - 1), EventsBefore(cells, n);
      assert c[..|b|] == b;
      assert c[..|a|] == b[..|a|];
    }
  }

  /**
   * The events are exactly the markers among the first `n` rows, each with the
   * timestamp in force at its row and its stripped text.
   */
  lemma {:induction false} EventsAreMarkers(cells: seq<Cell>, n: nat)
    requires n <= |cells|
    ensures forall e :: e in EventsBefore(cells, n) <==>
      exists j :: 0 <= j < n && IsMarker(cells[j]) && e == Event(LatestStamp(cells, j), Strip(cells[j].s))
  {
    if n > 0 {
      EventsAreMarkers(cells, n - 1);
    }
  }

  /** A marker keeps its `# Event` prefix once stripped: `#` and `t` are not whitespace. */
  lemma MarkerTextKeepsPrefix(s: string)
    requires StartsWith(s, "# Event")
    ensures StartsWith(Strip(s), "# Event")
  {
    TrimStartSpec(s);
    assert !IsSpace(s[0]);
    assert TrimStart(s) == s;
    TrimEndSpec(s);
    var r := TrimEnd(s);
    assert !IsSpace(s[6]);
    assert |r| > 6;
    assert r[..7] == s[..7];
  }

  /** Every event text starts with `# Event`. */
  lemma EventTextsAreMarkers(cells: seq<Cell>, n: nat)
    requires n <= |cells|
    ensures forall e :: e in EventsBefore(cells, n) ==> StartsWith(e.text, "# Event")
  {
    EventsAreMarkers(cells, n);
    forall e | e in EventsBefore(cells, n)
      ensures StartsWith(e.text, "# Event")
    {
      var j :| 0 <= j < n && IsMarker(cells[j]) && e == Event(LatestStamp(cells, j), Strip(cells[j].s));
      MarkerTextKeepsPrefix(cells[j].s);
    }
  }

  /**
   * The last burnout marker wins: the burnout time is the timestamp in force at the
   * last burnout marker before row `n`, and the initial value when there is none.
   */
  lemma {:induction false} LastBurnoutWins(cells: seq<Cell>, n: nat, initial: Timestamp)
    requires n <= |cells|
    ensures (forall j :: 0 <= j < n ==> !IsBurnout(cells[j])) ==> BurnoutBefore(cells, n, initial) == initial
    ensures forall j :: 0 <= j < n && IsBurnout(cells[j]) && (forall m :: j < m < n ==> !IsBurnout(cells[m]))
                        ==> BurnoutBefore(cells, n, initial) == LatestStamp(cells, j)
  {
    if n > 0 {
      LastBurnoutWins(cells, n - 1, initial);
      forall j | 0 <= j < n && IsBurnout(cells[j]) && (forall m :: j < m < n ==> !IsBurnout(cells[m]))
        ensures BurnoutBefore(cells, n, initial) == LatestStamp(cells, j)
      {
        if j < n - 1 {
          assert !IsBurnout(cells[n - 1]);
          assert forall m :: j < m < n - 1 ==> !IsBurnout(cells[m]);
        }
      }
    }
  }

  /**
   * With an apogee marker, the walk stops on it: it is the last event recorded, and no
   * row after it contributes an event or a burnout time.
   */
  lemma ApogeeIsLastEvent(cells: seq<Cell>)
    requires FirstApogee(cells).Some?
    ensures var k := FirstApogee(cells).value;
      && Cutoff(cells) == k + 1
      && EventsBefore(cells, Cutoff(cells)) != []
      && EventsBefore(cells, Cutoff(cells))[|EventsBefore(cells, Cutoff(cells))| - 1]
           == Event(LatestStamp(cells, k), Strip(cells[k].s))
  {
  }

  // ---------------------------------------------------------------- the walk

  /**
   * The loop of `get_events` over the time column: returns the events recorded, the
   * number of rows visited and the burnout time left behind.
   */
  method WalkColumn(cells: seq<Cell>, burnout: Timestamp) returns (events: seq<Event>, n: nat, last: Timestamp)
    ensures n == Cutoff(cells)
    ensures events == EventsBefore(cells, n)
    ensures last == BurnoutBefore(cells, n, burnout)
  {
    events := [];
    var latest := At(0.0);
    last := burnout;
    n := 0;
    while n < |cells|
      invariant 0 <= n <= |cells|
      invariant latest == LatestStamp(cells, n)
      invariant events == EventsBefore(cells, n)
      invariant last == BurnoutBefore(cells, n, burnout)
      invariant FirstApogee(cells).None? || n <= FirstApogee(cells).value
    {
      var cell := cells[n];
      var stamp := NumericStamp(cell);
      Advance(cells, n, burnout);
      if stamp.Some? {
        latest := stamp.value;
      } else if IsMarker(cell) {
        events := events + [Event(latest, Strip(cell.s))];
        if IsBurnout(cell) {
          last := latest;
        }
        if IsApogee(cell) {
          assert FirstApogee(cells) == Some(n);
          n := n + 1;
          return;
        }
      }
      n := n + 1;
    }
  }

  /**
   * What `get_events` computes, as a function of the table and the burnout time before
   * the call: a `KeyError` when there is no time column but there are rows, nothing
   * recorded when the time label is missing or repeated, and otherwise the walk of
   * the time column up to the first apogee marker.
   */
  function Scan(t: Table, burnout: Timestamp): Result<Timeline>
    requires t.Valid()
  {
    var ps := Positions(t.labels, TimeLabel);
    if |ps| == 0 && |t.rows| > 0 then Err(KeyError(TimeLabel))
    else if |ps| != 1 then Ok(Timeline([], t, burnout))
    else
      var cells := Column(t, ps[0]);
      var n := Cutoff(cells);
      Ok(Timeline(EventsBefore(cells, n), Truncate(t, n), BurnoutBefore(cells, n, burnout)))
  }

  /**
   * `get_events(df)`, with `BURNOUT_TIME` passed in as `burnout` and handed back.
   * Reading `row['Time (s)']` raises `KeyError` when there is no such column and at
   * least one row; when the label is carried by several columns the read yields a
   * row slice, which is neither a number nor a string, so nothing is recorded. After
   * the first apogee marker the table keeps the rows up to and including it; without
   * one, the rows visited are all of them and the table is returned whole.
   */
  method GetEvents(t: Table, burnout: Timestamp) returns (r: Result<Timeline>)
    requires t.Valid()
    ensures var ps := Positions(t.labels, TimeLabel);
      && (r.Err? <==> |ps| == 0 && |t.rows| > 0)
      && (r.Err? ==> r.error == KeyError(TimeLabel))
      && (r.Ok? && |ps| != 1 ==> r.value == Timeline([], t, burnout))
    ensures var ps := Positions(t.labels, TimeLabel);
      r.Ok? && |ps| == 1 ==>
        var cells := Column(t, ps[0]);
        var n := Cutoff(cells);
        r.value == Timeline(EventsBefore(cells, n), Truncate(t, n), BurnoutBefore(cells, n, burnout))
    ensures r == Scan(t, burnout)
  {
    var ps := Positions(t.labels, TimeLabel);
    if |ps| == 0 && |t.rows| > 0 {
      return Err(KeyError(TimeLabel));
    }
    if |ps| != 1 {
      return Ok(Timeline([], t, burnout));
    }
    var cells := Column(t, ps[0]);
    var events, n, last := WalkColumn(cells, burnout);
    var table := t;
    if n < |t.rows| {
      table := Truncate(t, n);
    }
    r := Ok(Timeline(events, table, last));
  }
}
