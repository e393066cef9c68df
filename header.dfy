/**
 * The first half of `get_required_columns`: locating the header row above the
 * first `# Event` line, rebuilding the CSV text from it, cleaning the parsed
 * labels, binding each required quantity to the leftmost label that mentions it,
 * and choosing the columns to keep.
 */
module Header {
  import opened Common
  import opened Strings
  import opened Frame
  import opened Registry
  import opened Units

  // ---------------------------------------------------------------- header row

  /** A line the simulator writes for a flight event. */
  predicate IsEventLine(line: string)
  {
    StartsWith(line, "# Event")
  }

  /** The first event line, if any. */
  function FirstEventLine(lines: seq<string>): (r: Option<nat>)
    ensures r.None? <==> forall i :: 0 <= i < |lines| ==> !IsEventLine(lines[i])
    ensures r.Some? ==> r.value < |lines| && IsEventLine(lines[r.value])
    ensures r.Some? ==> forall i :: 0 <= i < r.value ==> !IsEventLine(lines[i])
  {
    if lines == [] then None
    else
      var r := FirstEventLine(lines[..|lines| - 1]);
      if r.Some? then r
      else if IsEventLine(lines[|lines| - 1]) then Some(|lines| - 1)
      else None
  }

  /** `header_line` after the scan: the line before the first event line, or 0 without one. */
  function HeaderIndex(lines: seq<string>): int
  {
    match FirstEventLine(lines)
    case None => 0
    case Some(k) => k - 1
  }

  /** The scan of the header locator: the loop that stops at the first event line. */
  method LocateHeader(lines: seq<string>) returns (h: int)
    ensures h == HeaderIndex(lines)
  {
    h := 0;
    var i := 0;
    while i < |lines|
      invariant 0 <= i <= |lines| && h == 0
      invariant forall m :: 0 <= m < i ==> !IsEventLine(lines[m])
    {
      if IsEventLine(lines[i]) {
        h := i - 1;
        assert FirstEventLine(lines) == Some(i);
        break;
      }
      i := i + 1;
    }
  }

  /**
   * The header index in terms of the lines alone: 0 when no line is an event line,
   * and one less than the first event line otherwise (so -1 when line 0 is one).
   */
  lemma HeaderIndexSpec(lines: seq<string>)
    ensures (forall i :: 0 <= i < |lines| ==> !IsEventLine(lines[i])) ==> HeaderIndex(lines) == 0
    ensures forall k :: 0 <= k < |lines| && IsEventLine(lines[k]) && (forall i :: 0 <= i < k ==> !IsEventLine(lines[i]))
              ==> HeaderIndex(lines) == k - 1
  {
    forall k | 0 <= k < |lines| && IsEventLine(lines[k]) && (forall i :: 0 <= i < k ==> !IsEventLine(lines[i]))
      ensures HeaderIndex(lines) == k - 1
    {
      var r := FirstEventLine(lines);
      assert r.Some?;
      assert !(r.value < k) && !(k < r.value);
    }
  }

  /** Python's `xs[i]`: a negative index counts from the end; out of range raises `IndexError`. */
  function PyIndex(xs: seq<string>, i: int): (r: Result<string>)
    ensures r.Err? <==> !(-|xs| <= i < |xs|)
    ensures r.Ok? && i >= 0 ==> r.value == xs[i]
    ensures r.Ok? && i < 0 ==> r.value == xs[|xs| + i]
  {
    if 0 <= i < |xs| then Ok(xs[i])
    else if -|xs| <= i < 0 then Ok(xs[|xs| + i])
    else Err(IndexError)
  }

  /** `line.lstrip('#').strip()`: the header line without its leading `#` run and outer whitespace (see `CleanHeaderSpec`). */
  function CleanHeader(line: string): (r: string)
    ensures r == [] || (!IsSpace(r[0]) && !IsSpace(r[|r| - 1]))
  {
    StripEnds(LStrip(line, '#'));
    Strip(LStrip(line, '#'))
  }

  /** Where the cleaned header sits in the line: `#` before `h`, whitespace in `[h, a)` and from `b` on. */
  lemma CleanHeaderSlice(line: string) returns (h: nat, a: nat, b: nat)
    ensures h <= a <= b <= |line| && CleanHeader(line) == line[a..b]
    ensures forall i :: 0 <= i < h ==> line[i] == '#'
    ensures h < |line| ==> line[h] != '#'
    ensures forall i :: h <= i < a || b <= i < |line| ==> IsSpace(line[i])
  {
    h := |line| - |LStrip(line, '#')|;
    var a', b' := StripBounds(line[h..]);
    a, b := h + a', h + b';
    ShiftedSlice(line, h, a', b');
  }

  /** Bounds found in the suffix `s[h..]` carry over to `s` shifted by `h`. */
  lemma ShiftedSlice(s: string, h: nat, a: nat, b: nat)
    requires h <= |s| && a <= b <= |s| - h
    requires forall i :: 0 <= i < a || b <= i < |s| - h ==> IsSpace(s[h..][i])
    ensures s[h..][a..b] == s[h + a..h + b]
    ensures forall i :: h <= i < h + a || h + b <= i < |s| ==> IsSpace(s[i])
  {
    forall i | h <= i < h + a || h + b <= i < |s|
      ensures IsSpace(s[i])
    {
      assert s[i] == s[h..][i - h];
    }
  }

  /**
   * The cleaned header is the slice of the line left after dropping its run of leading
   * `#`, the whitespace right after that run and the whitespace at its end.
   */
  lemma CleanHeaderSpec(line: string)
    ensures exists h, a, b :: (
      && 0 <= h <= a <= b <= |line| && CleanHeader(line) == line[a..b]
      && (forall i :: 0 <= i < h ==> line[i] == '#') && (h < |line| ==> line[h] != '#')
      && (forall i :: h <= i < a || b <= i < |line| ==> IsSpace(line[i])))
  {
    var h, a, b := CleanHeaderSlice(line);
  }

  /**
   * `'\n'.join([header] + lines[header_line + 1:])`: the text handed to the CSV parser,
   * or the `IndexError` of reading the header row from an empty file.
   */
  function Blob(lines: seq<string>): Result<string>
  {
    var h := HeaderIndex(lines);
    match PyIndex(lines, h)
    case Err(e) => Err(e)
    case Ok(line) => Ok(JoinLines([CleanHeader(line)] + lines[h + 1..]))
  }

  /**
   * What the parser is handed: nothing for an empty file; otherwise the cleaned header
   * row first, then every line after it, so the metadata above the header is dropped.
   * When the very first line is an event line, index -1 makes the LAST line the header
   * and every line, the event line included, follows it.
   */
  lemma {:induction false} BlobShape(lines: seq<string>)
    ensures lines == [] <==> Blob(lines) == Err(IndexError)
    ensures lines != [] && !IsEventLine(lines[0]) ==>
      var h := HeaderIndex(lines);
      0 <= h < |lines| && Blob(lines) == Ok(JoinLines([CleanHeader(lines[h])] + lines[h + 1..]))
    ensures lines != [] && IsEventLine(lines[0]) ==>
      Blob(lines) == Ok(JoinLines([CleanHeader(lines[|lines| - 1])] + lines))
    ensures Blob(lines).Ok? ==> StartsWith(Blob(lines).value, CleanHeader(lines[if HeaderIndex(lines) < 0 then |lines| - 1 else HeaderIndex(lines)]))
  {
    var h := HeaderIndex(lines);
    var r := FirstEventLine(lines);
    if lines == [] {
      assert h == 0;
    } else {
      assert -1 <= h < |lines|;
      if IsEventLine(lines[0]) {
        assert r == Some(0);
        assert lines[h + 1..] == lines;
      }
      var idx := if h < 0 then |lines| - 1 else h;
      JoinStartsWithHead(CleanHeader(lines[idx]), lines[h + 1..]);
    }
  }

  // ---------------------------------------------------------------- labels

  /** One parsed label after `str.strip()` and the removal of every zero-width space. */
  function CleanLabel(name: string): (r: string)
    ensures '\U{200B}' !in r
    ensures (forall i :: 0 <= i < |name| ==> !IsSpace(name[i])) && '\U{200B}' !in name ==> r == name
  {
    StripSpec(name);
    RemoveAll(Strip(name), '\U{200B}')
  }

  /** `df.columns = df.columns.str.strip().str.replace('\u200b', '')`. */
  function CleanLabels(t: Table): (r: Table)
    ensures r.rows == t.rows && |r.labels| == |t.labels|
    ensures forall j :: 0 <= j < |t.labels| ==> r.labels[j] == CleanLabel(t.labels[j])
  {
    Table(seq(|t.labels|, j requires 0 <= j < |t.labels| => CleanLabel(t.labels[j])), t.rows)
  }

  // ---------------------------------------------------------------- column matching

  /** The leftmost label that mentions `key`, ignoring case. */
  function FirstMatch(labels: seq<string>, key: string): (r: Option<nat>)
    ensures r.None? <==> forall j :: 0 <= j < |labels| ==> !ContainsIgnoringCase(labels[j], key)
    ensures r.Some? ==> r.value < |labels| && ContainsIgnoringCase(labels[r.value], key)
    ensures r.Some? ==> forall j :: 0 <= j < r.value ==> !ContainsIgnoringCase(labels[j], key)
  {
    if labels == [] then None
    else
      var r := FirstMatch(labels[..|labels| - 1], key);
      if r.Some? then r
      else if ContainsIgnoringCase(labels[|labels| - 1], key) then Some(|labels| - 1)
      else None
  }

  /** `selected_columns` as the matching loops leave it: each key that matches bound to its leftmost label. */
  function Bound(labels: seq<string>, keys: seq<string>): (r: map<string, string>)
    ensures forall key :: key in r <==> key in keys && FirstMatch(labels, key).Some?
  {
    map key | key in keys && FirstMatch(labels, key).Some? :: labels[FirstMatch(labels, key).value]
  }

  /** The inner matching loop: the first label, left to right, containing `key` ignoring case. */
  method FindLabel(labels: seq<string>, key: string) returns (found: Option<nat>)
    ensures found == FirstMatch(labels, key)
  {
    found := None;
    var j := 0;
    while j < |labels|
      invariant 0 <= j <= |labels| && found.None?
      invariant forall m :: 0 <= m < j ==> !ContainsIgnoringCase(labels[m], key)
    {
      if ContainsIgnoringCase(labels[j], key) {
        found := Some(j);
        assert !(FirstMatch(labels, key).value < j);
        break;
      }
      j := j + 1;
    }
  }

  /** One more key scanned: the binding grows by that key exactly when some label mentions it. */
  lemma BoundStep(labels: seq<string>, keys: seq<string>, i: nat)
    requires i < |keys|
    ensures var key := keys[i];
      Bound(labels, keys[..i + 1]) ==
        if FirstMatch(labels, key).Some? then Bound(labels, keys[..i])[key := labels[FirstMatch(labels, key).value]]
        else Bound(labels, keys[..i])
  {
    assert keys[..i + 1] == keys[..i] + [keys[i]];
  }

  /**
   * The nested matching loops: for each key in turn, bind it to the first label
   * containing it, ignoring case, and record that label's unit.
   */
  method ResolveColumns(labels: seq<string>, keys: seq<string>)
    returns (selected: map<string, string>, units: map<string, Option<string>>)
    ensures selected == Bound(labels, keys)
    ensures units == UnitsOf(selected)
  {
    selected, units := map[], map[];
    var i := 0;
    while i < |keys|
      invariant 0 <= i <= |keys|
      invariant selected == Bound(labels, keys[..i])
      invariant units == UnitsOf(selected)
    {
      var key := keys[i];
      var found := FindLabel(labels, key);
      BoundStep(labels, keys, i);
      if found.Some? {
        UnitsOfBind(selected, key, labels[found.value]);
        selected := selected[key := labels[found.value]];
        units := units[key := ExtractUnit(labels[found.value])];
      }
      i := i + 1;
    }
    assert keys[..i] == keys;
  }

  /**
   * The matching binds each key that some label mentions to the leftmost such label, and
   * its unit to the unit in that label; a key no label mentions stays unbound.
   */
  lemma BindingIsLeftmost(labels: seq<string>, keys: seq<string>, key: string)
    requires key in keys
    ensures key !in Bound(labels, keys) <==> forall j :: 0 <= j < |labels| ==> !ContainsIgnoringCase(labels[j], key)
    ensures forall j :: 0 <= j < |labels| && ContainsIgnoringCase(labels[j], key)
                        && (forall m :: 0 <= m < j ==> !ContainsIgnoringCase(labels[m], key))
                        ==> key in Bound(labels, keys) && Bound(labels, keys)[key] == labels[j]
                            && UnitsOf(Bound(labels, keys))[key] == ExtractUnit(labels[j])
  {
    forall j | 0 <= j < |labels| && ContainsIgnoringCase(labels[j], key)
               && (forall m :: 0 <= m < j ==> !ContainsIgnoringCase(labels[m], key))
      ensures FirstMatch(labels, key) == Some(j)
    {
      var r := FirstMatch(labels, key);
      assert !(r.value < j) && !(j < r.value);
    }
  }

  /** `if not selected_columns`: no required quantity is mentioned by any label. */
  lemma NoMatchMeansNoLabelMentionsAnyKey(labels: seq<string>, keys: seq<string>)
    ensures Bound(labels, keys) == map[] <==>
      forall key, j :: key in keys && 0 <= j < |labels| ==> !ContainsIgnoringCase(labels[j], key)
  {
    if Bound(labels, keys) != map[] {
      var key :| key in Bound(labels, keys);
      var j := FirstMatch(labels, key).value;
      assert key in keys && ContainsIgnoringCase(labels[j], key);
    }
  }

  // ---------------------------------------------------------------- kept columns

  /** `valid_columns` over the first `n` keys: the bound labels still present, in key order. */
  function KeptLabels(keys: seq<string>, selected: map<string, string>, labels: seq<string>): (r: seq<string>)
    ensures forall c :: c in r <==> exists key :: key in keys && key in selected && selected[key] == c && c in labels
  {
    if keys == [] then []
    else
      var key := keys[|keys| - 1];
      var rest := KeptLabels(keys[..|keys| - 1], selected, labels);
      assert forall k :: k in keys <==> k in keys[..|keys| - 1] || k == key;
      if key in selected && selected[key] in labels then rest + [selected[key]] else rest
  }

  /** The loop building `valid_columns` from the bound labels in binding order. */
  method ValidColumns(keys: seq<string>, selected: map<string, string>, labels: seq<string>) returns (cols: seq<string>)
    ensures cols == KeptLabels(keys, selected, labels)
  {
    cols := [];
    var i := 0;
    while i < |keys|
      invariant 0 <= i <= |keys|
      invariant cols == KeptLabels(keys[..i], selected, labels)
    {
      var key := keys[i];
      assert keys[..i + 1][..i] == keys[..i];
      if key in selected && selected[key] in labels {
        cols := cols + [selected[key]];
      }
      i := i + 1;
    }
    assert keys[..i] == keys;
  }

  /** Every label the matching binds comes from the labels themselves, so the membership filter keeps them all. */
  lemma KeptLabelsAreAllBound(labels: seq<string>, keys: seq<string>)
    ensures forall c :: c in KeptLabels(keys, Bound(labels, keys), labels) <==>
      exists key :: key in Bound(labels, keys) && Bound(labels, keys)[key] == c
  {
  }

  // ---------------------------------------------------------------- the rename

  /** A letter at position `k` of `t` that `s` lacks in either case keeps `t` out of `s`, ignoring case. */
  lemma LetterRulesOut(s: string, t: string, k: nat, lower: char, upper: char)
    requires 'a' <= lower <= 'z' && upper as int == lower as int - 32
    requires k < |t| && (t[k] == lower || t[k] == upper)
    requires lower !in s && upper !in s
    ensures !ContainsIgnoringCase(s, t)
  {
    var ls, lt := Lower(s), Lower(t);
    assert lt[k] == lower;
    forall i: nat | i <= |ls| ensures !OccursAt(ls, lt, i) {
      if i + |lt| <= |ls| {
        assert s[i + k] in s;
        assert ls[i..i + |lt|][k] == ls[i + k] != lt[k];
      }
    }
  }

  /** "time" in "normal force coefficient" would need a `t` no later than position 20; its only `t` is at 23. */
  lemma TimeNotInNormalForce()
    ensures !ContainsIgnoringCase("Normal force coefficient", "Time")
  {
    var s, t := "Normal force coefficient", "Time";
    var ls, lt := Lower(s), Lower(t);
    assert lt[0] == 't';
    forall i: nat | i <= |ls| ensures !OccursAt(ls, lt, i) {
      if i + |lt| <= |ls| {
        assert ls[i..i + |lt|][0] == ls[i] != lt[0];
      }
    }
  }

  /** "reference area" in "normal force coefficient" would need an `a` at position 10 or later; its only `a` is at 4. */
  lemma ReferenceAreaNotInNormalForce()
    ensures !ContainsIgnoringCase("Normal force coefficient", "Reference area")
  {
    var s, t := "Normal force coefficient", "Reference area";
    var ls, lt := Lower(s), Lower(t);
    assert lt[10] == 'a';
    forall i: nat | i <= |ls| ensures !OccursAt(ls, lt, i) {
      if i + |lt| <= |ls| {
        assert ls[i..i + |lt|][10] == ls[i + 10] != lt[10];
      }
    }
  }

  /** The required quantity name at position `i` mentions none of the others, ignoring case. */
  predicate MentionsNoOther(i: nat)
    requires i < |RequiredColumns|
  {
    forall j :: 0 <= j < |RequiredColumns| && j != i ==> !ContainsIgnoringCase(RequiredColumns[j], RequiredColumns[i])
  }

  lemma TimeMentionsNoOther()
    ensures MentionsNoOther(0)
  {
    forall j | 0 <= j < |RequiredColumns| && j != 0
      ensures !ContainsIgnoringCase(RequiredColumns[j], RequiredColumns[0])
    {
      if j == 1 {
        LetterRulesOut("Altitude", "Time", 2, 'm', 'M');
      } else if j == 2 {
        LetterRulesOut("Total velocity", "Time", 2, 'm', 'M');
      } else if j == 3 {
        LetterRulesOut("Reference area", "Time", 2, 'm', 'M');
      } else if j == 4 {
        TimeNotInNormalForce();
      } else if j == 5 {
        LetterRulesOut("CG location", "Time", 2, 'm', 'M');
      } else {
        assert j == 6;
        LetterRulesOut("CP location", "Time", 2, 'm', 'M');
      }
    }
  }

  lemma AltitudeMentionsNoOther()
    ensures MentionsNoOther(1)
  {
    forall j | 0 <= j < |RequiredColumns| && j != 1
      ensures !ContainsIgnoringCase(RequiredColumns[j], RequiredColumns[1])
    {
      if j == 0 {
        assert |Lower("Time")| < |Lower("Altitude")|;
      } else if j == 2 {
        LetterRulesOut("Total velocity", "Altitude", 6, 'd', 'D');
      } else if j == 3 {
        LetterRulesOut("Reference area", "Altitude", 6, 'd', 'D');
      } else if j == 4 {
        LetterRulesOut("Normal force coefficient", "Altitude", 6, 'd', 'D');
      } else if j == 5 {
        LetterRulesOut("CG location", "Altitude", 6, 'd', 'D');
      } else {
        assert j == 6;
        LetterRulesOut("CP location", "Altitude", 6, 'd', 'D');
      }
    }
  }

  lemma TotalVelocityMentionsNoOther()
    ensures MentionsNoOther(2)
  {
    forall j | 0 <= j < |RequiredColumns| && j != 2
      ensures !ContainsIgnoringCase(RequiredColumns[j], RequiredColumns[2])
    {
      if j == 0 {
        assert |Lower("Time")| < |Lower("Total velocity")|;
      } else if j == 1 {
        assert |Lower("Altitude")| < |Lower("Total velocity")|;
      } else if j == 3 {
        LetterRulesOut("Reference area", "Total velocity", 6, 'v', 'V');
      } else if j == 4 {
        LetterRulesOut("Normal force coefficient", "Total velocity", 6, 'v', 'V');
      } else if j == 5 {
        assert |Lower("CG location")| < |Lower("Total velocity")|;
      } else {
        assert j == 6;
        assert |Lower("CP location")| < |Lower("Total velocity")|;
      }
    }
  }

  lemma ReferenceAreaMentionsNoOther()
    ensures MentionsNoOther(3)
  {
    forall j | 0 <= j < |RequiredColumns| && j != 3
      ensures !ContainsIgnoringCase(RequiredColumns[j], RequiredColumns[3])
    {
      if j == 0 {
        assert |Lower("Time")| < |Lower("Reference area")|;
      } else if j == 1 {
        assert |Lower("Altitude")| < |Lower("Reference area")|;
      } else if j == 2 {
        LetterRulesOut("Total velocity", "Reference area", 2, 'f', 'F');
      } else if j == 4 {
        ReferenceAreaNotInNormalForce();
      } else if j == 5 {
        assert |Lower("CG location")| < |Lower("Reference area")|;
      } else {
        assert j == 6;
        assert |Lower("CP location")| < |Lower("Reference area")|;
      }
    }
  }

  lemma NormalForceCoefficientMentionsNoOther()
    ensures MentionsNoOther(4)
  {
    forall j | 0 <= j < |RequiredColumns| && j != 4
      ensures !ContainsIgnoringCase(RequiredColumns[j], RequiredColumns[4])
    {
      if j == 0 {
        assert |Lower("Time")| < |Lower("Normal force coefficient")|;
      } else if j == 1 {
        assert |Lower("Altitude")| < |Lower("Normal force coefficient")|;
      } else if j == 2 {
        assert |Lower("Total velocity")| < |Lower("Normal force coefficient")|;
      } else if j == 3 {
        assert |Lower("Reference area")| < |Lower("Normal force coefficient")|;
      } else if j == 5 {
        assert |Lower("CG location")| < |Lower("Normal force coefficient")|;
      } else {
        assert j == 6;
        assert |Lower("CP location")| < |Lower("Normal force coefficient")|;
      }
    }
  }

  lemma CgLocationMentionsNoOther()
    ensures MentionsNoOther(5)
  {
    forall j | 0 <= j < |RequiredColumns| && j != 5
      ensures !ContainsIgnoringCase(RequiredColumns[j], RequiredColumns[5])
    {
      if j == 0 {
        assert |Lower("Time")| < |Lower("CG location")|;
      } else if j == 1 {
        assert |Lower("Altitude")| < |Lower("CG location")|;
      } else if j == 2 {
        LetterRulesOut("Total velocity", "CG location", 1, 'g', 'G');
      } else if j == 3 {
        LetterRulesOut("Reference area", "CG location", 1, 'g', 'G');
      } else if j == 4 {
        LetterRulesOut("Normal force coefficient", "CG location", 1, 'g', 'G');
      } else {
        assert j == 6;
        LetterRulesOut("CP location", "CG location", 1, 'g', 'G');
      }
    }
  }

  lemma CpLocationMentionsNoOther()
    ensures MentionsNoOther(6)
  {
    forall j | 0 <= j < |RequiredColumns| && j != 6
      ensures !ContainsIgnoringCase(RequiredColumns[j], RequiredColumns[6])
    {
      if j == 0 {
        assert |Lower("Time")| < |Lower("CP location")|;
      } else if j == 1 {
        assert |Lower("Altitude")| < |Lower("CP location")|;
      } else if j == 2 {
        LetterRulesOut("Total velocity", "CP location", 1, 'p', 'P');
      } else if j == 3 {
        LetterRulesOut("Reference area", "CP location", 1, 'p', 'P');
      } else if j == 4 {
        LetterRulesOut("Normal force coefficient", "CP location", 1, 'p', 'P');
      } else {
        assert j == 5;
        LetterRulesOut("CG location", "CP location", 1, 'p', 'P');
      }
    }
  }

  /** No key mentions another, ignoring case. */
  predicate Independent(keys: seq<string>)
  {
    forall a, b :: a in keys && b in keys && a != b ==> !ContainsIgnoringCase(b, a)
  }

  /** No required quantity name mentions another, ignoring case. */
  lemma RequiredColumnsIndependent()
    ensures Independent(RequiredColumns)
  {
    TimeMentionsNoOther();
    AltitudeMentionsNoOther();
    TotalVelocityMentionsNoOther();
    ReferenceAreaMentionsNoOther();
    NormalForceCoefficientMentionsNoOther();
    CgLocationMentionsNoOther();
    CpLocationMentionsNoOther();
    forall a, b | a in RequiredColumns && b in RequiredColumns && a != b
      ensures !ContainsIgnoringCase(b, a)
    {
      var i :| 0 <= i < |RequiredColumns| && RequiredColumns[i] == a;
      var j :| 0 <= j < |RequiredColumns| && RequiredColumns[j] == b;
      assert MentionsNoOther(i);
    }
  }

  /**
   * `df.rename(columns=selected_columns)` maps quantity names to bound labels, so it
   * could only touch a column labelled exactly like a quantity. When every column is
   * labelled by a binding, such a column was bound by that same quantity, since no
   * quantity name mentions another: the rename changes nothing.
   */
  lemma RenameIsNoOp(t: Table, labels: seq<string>, keys: seq<string>)
    requires Independent(keys)
    requires forall j :: 0 <= j < |t.labels| ==>
      exists key :: key in Bound(labels, keys) && Bound(labels, keys)[key] == t.labels[j]
    ensures Rename(t, Bound(labels, keys)) == t
  {
    var selected := Bound(labels, keys);
    forall j | 0 <= j < |t.labels| && t.labels[j] in selected
      ensures selected[t.labels[j]] == t.labels[j]
    {
      var key :| key in selected && selected[key] == t.labels[j];
      assert ContainsIgnoringCase(t.labels[j], key);
      assert key == t.labels[j];
    }
    RenameFixedPoint(t, selected);
  }

  /**
   * In the pipeline the rename is applied to the kept columns, each labelled by a
   * binding, so it leaves the table as it was.
   */
  lemma KeptColumnsRenameIsNoOp(t: Table, keys: seq<string>)
    requires t.Valid() && Independent(keys)
    ensures var selected := Bound(t.labels, keys);
      var kept := Project(t, KeptLabels(keys, selected, t.labels));
      Rename(kept, selected) == kept
  {
    var selected := Bound(t.labels, keys);
    var names := KeptLabels(keys, selected, t.labels);
    var kept := Project(t, names);
    forall j | 0 <= j < |kept.labels|
      ensures exists key :: key in Bound(t.labels, keys) && Bound(t.labels, keys)[key] == kept.labels[j]
    {
      assert kept.labels[j] in names;
      var key :| key in keys && key in selected && selected[key] == kept.labels[j] && kept.labels[j] in t.labels;
      assert key in selected && selected[key] == kept.labels[j];
    }
    assert forall j :: 0 <= j < |kept.labels| ==>
      exists key :: key in Bound(t.labels, keys) && Bound(t.labels, keys)[key] == kept.labels[j];
    RenameIsNoOp(kept, t.labels, keys);
  }
}
