/**
 * The Python `str` operations the ingestion code relies on: `lstrip`, `strip`,
 * `replace`, `lower`, `startswith`, the `in` operator on strings, `isdigit` and
 * `'\n'.join`.
 */
module Strings {

  /** `str.isspace()` for one character: the characters Python's `strip()` removes. */
  predicate IsSpace(c: char)
  {
    var n := c as int;
    || (9 <= n <= 13) || (0x1c <= n <= 0x20) || n == 0x85 || n == 0xa0 || n == 0x1680
    || (0x2000 <= n <= 0x200a) || n == 0x2028 || n == 0x2029 || n == 0x202f || n == 0x205f
    || n == 0x3000
  }

  /** `s.lstrip(c)`: drops the longest prefix made only of the character `c`. */
  function LStrip(s: string, c: char): (r: string)
    ensures |r| <= |s| && r == s[|s| - |r|..]
    ensures r == [] || r[0] != c
    ensures forall i :: 0 <= i < |s| - |r| ==> s[i] == c
  {
    if s != [] && s[0] == c then LStrip(s[1..], c) else s
  }

  /** `s.lstrip()`: the longest prefix of whitespace dropped (see `TrimStartSpec`). */
  function TrimStart(s: string): string
  {
    if s != [] && IsSpace(s[0]) then TrimStart(s[1..]) else s
  }

  lemma {:induction false} TrimStartSpec(s: string)
    ensures var r := TrimStart(s);
      && |r| <= |s| && r == s[|s| - |r|..]
      && (r == [] || !IsSpace(r[0]))
      && (forall i :: 0 <= i < |s| - |r| ==> IsSpace(s[i]))
  {
    if s != [] && IsSpace(s[0]) {
      TrimStartSpec(s[1..]);
      var r := TrimStart(s[1..]);
      assert s[1..][|s| - 1 - |r|..] == s[|s| - |r|..];
      forall i | 0 <= i < |s| - |r| ensures IsSpace(s[i]) {
        if i > 0 {
          assert s[i] == s[1..][i - 1];
        }
      }
    }
  }

  /** `s.rstrip()`: the longest suffix of whitespace dropped (see `TrimEndSpec`). */
  function TrimEnd(s: string): string
  {
    if s != [] && IsSpace(s[|s| - 1]) then TrimEnd(s[..|s| - 1]) else s
  }

  lemma {:induction false} TrimEndSpec(s: string)
    ensures var r := TrimEnd(s);
      && |r| <= |s| && r == s[..|r|]
      && (r == [] || !IsSpace(r[|r| - 1]))
      && (forall i :: |r| <= i < |s| ==> IsSpace(s[i]))
  {
    if s != [] && IsSpace(s[|s| - 1]) {
      TrimEndSpec(s[..|s| - 1]);
      var r := TrimEnd(s[..|s| - 1]);
      assert s[..|s| - 1][..|r|] == s[..|r|];
      forall i | |r| <= i < |s| ensures IsSpace(s[i]) {
        if i < |s| - 1 {
          assert s[i] == s[..|s| - 1][i];
        }
      }
    }
  }

  /** `s.strip()`: both ends cleared of whitespace (see `StripSpec`). */
  function Strip(s: string): string
  {
    TrimEnd(TrimStart(s))
  }

  /** The bounds of what `strip()` keeps: whitespace before `a` and from `b` on. */
  lemma StripBounds(s: string) returns (a: nat, b: nat)
    ensures a <= b <= |s| && Strip(s) == s[a..b]
    ensures forall i :: 0 <= i < a || b <= i < |s| ==> IsSpace(s[i])
  {
    var left := TrimStart(s);
    var r := TrimEnd(left);
    TrimStartSpec(s);
    TrimEndSpec(left);
    a, b := |s| - |left|, |s| - |left| + |r|;
    assert r == s[a..b] by {
      assert s[a..][..|r|] == s[a..b];
    }
    forall i | b <= i < |s|
      ensures IsSpace(s[i])
    {
      assert s[i] == left[i - a];
    }
  }

  /** `strip()` leaves no whitespace at either end. */
  lemma StripEnds(s: string)
    ensures var r := Strip(s); r == [] || (!IsSpace(r[0]) && !IsSpace(r[|r| - 1]))
  {
    TrimStartSpec(s);
    TrimEndSpec(TrimStart(s));
  }

  /**
   * What `strip()` leaves: the slice of `s` between a whitespace prefix and a whitespace
   * suffix, with no whitespace at either end, and `s` itself when it has none.
   */
  lemma StripSpec(s: string)
    ensures var r := Strip(s);
      && (r == [] || (!IsSpace(r[0]) && !IsSpace(r[|r| - 1])))
      && (exists a, b :: 0 <= a <= b <= |s| && r == s[a..b] &&
            forall i :: 0 <= i < a || b <= i < |s| ==> IsSpace(s[i]))
      && Contains(s, r)
      && ((forall i :: 0 <= i < |s| ==> !IsSpace(s[i])) ==> r == s)
  {
    TrimStartSpec(s);
    TrimEndSpec(TrimStart(s));
    var a, b := StripBounds(s);
    assert OccursAt(s, Strip(s), a);
  }

  /** `s.replace(c, '')`: every occurrence of `c` deleted, the rest kept in order. */
  function RemoveAll(s: string, c: char): (r: string)
    ensures c !in r
    ensures forall x :: x != c ==> multiset(r)[x] == multiset(s)[x]
    ensures c !in s ==> r == s
  {
    if s == [] then []
    else
      var rest := RemoveAll(s[1..], c);
      assert s == [s[0]] + s[1..];
      if s[0] == c then rest else [s[0]] + rest
  }

  /** `replace` works piece by piece: deleting from a concatenation deletes from each part, order kept. */
  lemma {:induction false} RemoveAllAppend(a: string, b: string, c: char)
    ensures RemoveAll(a + b, c) == RemoveAll(a, c) + RemoveAll(b, c)
  {
    if a != [] {
      assert (a + b)[0] == a[0] && (a + b)[1..] == a[1..] + b;
      RemoveAllAppend(a[1..], b, c);
    } else {
      assert a + b == b;
    }
  }

  /** The position of the first `c` in `s`. */
  function FirstIndex(s: string, c: char): (i: nat)
    requires c in s
    ensures i < |s| && s[i] == c && c !in s[..i]
  {
    if s[0] == c then 0
    else
      assert c in s[1..] by {
        var k :| 0 <= k < |s| && s[k] == c;
        assert s[1..][k - 1] == c;
      }
      var j := FirstIndex(s[1..], c);
      assert s[..j + 1] == [s[0]] + s[1..][..j];
      j + 1
  }

  /** `s.replace(c, '', 1)`: the first occurrence of `c` deleted, the rest kept in order. */
  function RemoveFirst(s: string, c: char): (r: string)
    ensures c in s ==> r == s[..FirstIndex(s, c)] + s[FirstIndex(s, c) + 1..]
    ensures c !in s ==> r == s
  {
    if s == [] then []
    else if s[0] == c then s[1..]
    else
      var rest := RemoveFirst(s[1..], c);
      assert c in s ==> [s[0]] + rest == s[..FirstIndex(s, c)] + s[FirstIndex(s, c) + 1..] by {
        if c in s {
          var j := FirstIndex(s[1..], c);
          assert FirstIndex(s, c) == j + 1;
          assert s[..j + 1] == [s[0]] + s[1..][..j];
          assert s[j + 2..] == s[1..][j + 1..];
        }
      }
      [s[0]] + rest
  }

  /** Deleting one `c` keeps every other character: it is a multiset difference. */
  lemma {:induction false} RemoveFirstIsDifference(s: string, c: char)
    ensures multiset(RemoveFirst(s, c)) == multiset(s) - multiset{c}
  {
    if s != [] {
      assert s == [s[0]] + s[1..];
      if s[0] != c {
        RemoveFirstIsDifference(s[1..], c);
      }
    }
  }

  function LowerChar(c: char): char
  {
    if 'A' <= c <= 'Z' then (c as int + 32) as char else c
  }

  /** `s.lower()` on the ASCII letters. */
  function Lower(s: string): (r: string)
    ensures |r| == |s|
    ensures forall i :: 0 <= i < |r| ==> !('A' <= r[i] <= 'Z')
  {
    seq(|s|, i requires 0 <= i < |s| => LowerChar(s[i]))
  }

  predicate StartsWith(s: string, prefix: string)
  {
    |prefix| <= |s| && s[..|prefix|] == prefix
  }

  /** `t` sits in `s` at position `i`. */
  predicate OccursAt(s: string, t: string, i: nat)
  {
    i + |t| <= |s| && s[i..i + |t|] == t
  }

  /** Python's `t in s` for strings. */
  predicate Contains(s: string, t: string)
  {
    exists i: nat :: i <= |s| && OccursAt(s, t, i)
  }

  /** `t.lower() in s.lower()`, the case-insensitive match of the column resolver. */
  predicate ContainsIgnoringCase(s: string, t: string)
  {
    Contains(Lower(s), Lower(t))
  }

  predicate IsDigit(c: char)
  {
    '0' <= c <= '9'
  }

  /** `s.isdigit()` on ASCII digits: true only for a non-empty run of digits. */
  predicate IsDigits(s: string)
  {
    s != [] && forall i :: 0 <= i < |s| ==> IsDigit(s[i])
  }

  /** `'\n'.join(xs)`. */
  function JoinLines(xs: seq<string>): string
  {
    if xs == [] then ""
    else if |xs| == 1 then xs[0]
    else xs[0] + "\n" + JoinLines(xs[1..])
  }

  /** Joining two non-empty runs of lines puts exactly one line break between their joins. */
  lemma {:induction false} JoinAppend(a: seq<string>, b: seq<string>)
    requires a != [] && b != []
    ensures JoinLines(a + b) == JoinLines(a) + "\n" + JoinLines(b)
    decreases |a|
  {
    assert (a + b)[0] == a[0] && (a + b)[1..] == a[1..] + b;
    if |a| > 1 {
      JoinAppend(a[1..], b);
    }
  }

  /** An occurrence inside a suffix of `s` is an occurrence in `s`. */
  lemma ContainsThroughSuffix(s: string, k: nat, t: string)
    requires k <= |s| && Contains(s[k..], t)
    ensures Contains(s, t)
  {
    var i: nat :| i <= |s[k..]| && OccursAt(s[k..], t, i);
    assert s[k + i..k + i + |t|] == s[k..][i..i + |t|];
    assert OccursAt(s, t, k + i);
  }

  /** `'\n'.join([h] + rest)` begins with `h` followed by a line break when `rest` is non-empty. */
  lemma {:induction false} JoinStartsWithHead(h: string, rest: seq<string>)
    ensures StartsWith(JoinLines([h] + rest), h)
    ensures rest != [] ==> StartsWith(JoinLines([h] + rest), h + "\n")
  {
    var xs := [h] + rest;
    assert xs[0] == h && xs[1..] == rest;
    if rest != [] {
      assert JoinLines(xs) == h + "\n" + JoinLines(rest);
      assert JoinLines(xs)[..|h| + 1] == h + "\n";
    }
  }
}
