/** String operations of Python that the two server modules rely on:
    `p in s`, `s.lower()` and `s.replace(p, r)`. Also the closed form of
    joining with a separator, which the tuple loop of `url_builder` is
    proved equal to, and a splitting reader that exists only to state that
    a join can be read back. Strings are sequences of chars. */
module Text {

  /** p occurs in s starting at index i. */
  predicate OccursAt(s: string, p: string, i: nat)
  {
    i + |p| <= |s| && s[i..i + |p|] == p
  }

  /** Python's substring test `p in s`. */
  predicate Contains(s: string, p: string)
    ensures Contains(s, p) ==> |p| <= |s|
    ensures p == [] ==> Contains(s, p)
  {
    assert p == [] ==> OccursAt(s, p, 0);
    exists i: nat | i <= |s| :: OccursAt(s, p, i)
  }

  predicate EndsWith(s: string, suffix: string)
  {
    |suffix| <= |s| && s[|s| - |suffix|..] == suffix
  }

  predicate StartsWith(s: string, prefix: string)
  {
    |prefix| <= |s| && s[..|prefix|] == prefix
  }

  /** Lower-casing of one character (ASCII letters only). */
  function LowerChar(c: char): char
  {
    if 'A' <= c <= 'Z' then (c as int - 'A' as int + 'a' as int) as char else c
  }

  /** `s.lower()`, restricted to ASCII letters. */
  function Lower(s: string): (t: string)
    ensures |t| == |s|
    ensures forall i :: 0 <= i < |s| ==> t[i] == LowerChar(s[i])
    ensures forall i :: 0 <= i < |t| ==> !('A' <= t[i] <= 'Z')
  {
    seq(|s|, i requires 0 <= i < |s| => LowerChar(s[i]))
  }

  /** `s.replace(p, r)` for a non-empty pattern: occurrences are found
      left to right and do not overlap; replaced text is not scanned again. */
  function ReplaceAll(s: string, p: string, r: string): (t: string)
    requires |p| > 0
    ensures |p| <= |r| ==> |s| <= |t|
    ensures |p| == |r| ==> |t| == |s|
    decreases |s|
  {
    if |s| < |p| then s
    else if s[..|p|] == p then r + ReplaceAll(s[|p|..], p, r)
    else [s[0]] + ReplaceAll(s[1..], p, r)
  }

  /** Replacing a pattern that does not occur changes nothing. */
  lemma {:induction false} ReplaceAbsent(s: string, p: string, r: string)
    requires |p| > 0
    requires !Contains(s, p)
    ensures ReplaceAll(s, p, r) == s
    decreases |s|
  {
    if |s| >= |p| {
      assert !OccursAt(s, p, 0);
      assert !Contains(s[1..], p) by {
        forall i: nat | i <= |s[1..]| ensures !OccursAt(s[1..], p, i) {
          assert !OccursAt(s, p, i + 1);
          if i + |p| <= |s[1..]| {
            assert s[1..][i..i + |p|] == s[i + 1..i + 1 + |p|];
          }
        }
      }
      ReplaceAbsent(s[1..], p, r);
    }
  }

  /** A string without the pattern's first character contains no occurrence. */
  lemma NoHeadNoOccurrence(s: string, p: string)
    requires |p| > 0 && p[0] !in s
    ensures !Contains(s, p)
  {
    forall i: nat | i <= |s| ensures !OccursAt(s, p, i) {
      if i + |p| <= |s| {
        assert s[i..i + |p|][0] == s[i];
      }
    }
  }

  /** Two strings whose boundary character is foreign to the pattern: no
      occurrence can straddle them. */
  predicate Separated(a: string, b: string, p: string)
  {
    (|a| > 0 && a[|a| - 1] !in p) || (|b| > 0 && b[0] !in p)
  }

  /** No occurrence starts in a and ends in b when they are separated. */
  lemma NoStraddle(a: string, b: string, p: string, i: nat)
    requires Separated(a, b, p)
    requires i < |a| < i + |p|
    ensures !OccursAt(a + b, p, i)
  {
    var s := a + b;
    if i + |p| <= |s| {
      if |a| > 0 && a[|a| - 1] !in p {
        assert s[i..i + |p|][|a| - 1 - i] == a[|a| - 1];
      } else {
        assert s[i..i + |p|][|a| - i] == b[0];
      }
    }
  }

  /** Replacement distributes over a concatenation at a separated boundary. */
  lemma {:induction false} ReplaceSplit(a: string, b: string, p: string, r: string)
    requires |p| > 0
    requires a == [] || Separated(a, b, p)
    ensures ReplaceAll(a + b, p, r) == ReplaceAll(a, p, r) + ReplaceAll(b, p, r)
    decreases |a|, 1
  {
    var s := a + b;
    if a == [] {
      assert s == b;
    } else if |s| < |p| {
    } else if s[..|p|] == p {
      ReplaceSplitAtMatch(a, b, p, r);
    } else {
      ReplaceSplitPastChar(a, b, p, r);
    }
  }

  /** The case where the pattern occurs at the start of a + b. */
  lemma {:induction false} ReplaceSplitAtMatch(a: string, b: string, p: string, r: string)
    requires |p| > 0 && a != [] && Separated(a, b, p)
    requires |a + b| >= |p| && (a + b)[..|p|] == p
    ensures ReplaceAll(a + b, p, r) == ReplaceAll(a, p, r) + ReplaceAll(b, p, r)
    decreases |a|, 0
  {
    var s := a + b;
    if |a| < |p| {
      NoStraddle(a, b, p, 0);
      assert OccursAt(s, p, 0);
    }
    assert a[..|p|] == p;
    var a' := a[|p|..];
    assert s[|p|..] == a' + b;
    if a' != [] {
      assert a'[|a'| - 1] == a[|a| - 1];
    }
    ReplaceSplit(a', b, p, r);
  }

  /** Where the pattern does not start, the first character is kept as is. */
  lemma ReplacePastChar(s: string, p: string, r: string)
    requires |p| > 0 && |s| > 0
    requires |s| < |p| || s[..|p|] != p
    ensures ReplaceAll(s, p, r) == [s[0]] + ReplaceAll(s[1..], p, r)
  {
    if |s| < |p| {
      assert s == [s[0]] + s[1..];
    }
  }

  /** The case where a + b does not start with the pattern. */
  lemma {:induction false} ReplaceSplitPastChar(a: string, b: string, p: string, r: string)
    requires |p| > 0 && a != [] && Separated(a, b, p)
    requires |a + b| >= |p| && (a + b)[..|p|] != p
    ensures ReplaceAll(a + b, p, r) == ReplaceAll(a, p, r) + ReplaceAll(b, p, r)
    decreases |a|, 0
  {
    var s := a + b;
    var a' := a[1..];
    assert s[1..] == a' + b;
    ReplacePastChar(s, p, r);
    if a' != [] {
      assert a'[|a'| - 1] == a[|a| - 1];
    }
    ReplaceSplit(a', b, p, r);
    if |a| >= |p| {
      assert a[..|p|] == s[..|p|];
    }
    ReplacePastChar(a, p, r);
  }

  /** Text that is exactly the pattern becomes exactly the replacement. */
  lemma ReplaceWhole(p: string, r: string)
    requires |p| > 0
    ensures ReplaceAll(p, p, r) == r
  {
    assert p[..|p|] == p && p[|p|..] == [];
  }

  /** One occurrence at the front, followed by text that holds none. */
  lemma ReplaceLeadingOccurrence(p: string, rest: string, r: string)
    requires |p| > 0 && |rest| > 0 && rest[0] !in p && !Contains(rest, p)
    ensures ReplaceAll(p + rest, p, r) == r + rest
  {
    ReplaceSplit(p, rest, p, r);
    ReplaceWhole(p, r);
    ReplaceAbsent(rest, p, r);
  }

  /** One occurrence at the end, after text that holds none. */
  lemma ReplaceTrailingOccurrence(rest: string, p: string, r: string)
    requires |p| > 0 && |rest| > 0 && rest[|rest| - 1] !in p && !Contains(rest, p)
    ensures ReplaceAll(rest + p, p, r) == rest + r
  {
    ReplaceSplit(rest, p, p, r);
    ReplaceWhole(p, r);
    ReplaceAbsent(rest, p, r);
  }

  /** The first character survives replacement when it is foreign to the pattern. */
  lemma ReplaceKeepsFirst(s: string, p: string, r: string)
    requires |p| > 0 && |s| > 0 && s[0] !in p
    ensures |ReplaceAll(s, p, r)| > 0 && ReplaceAll(s, p, r)[0] == s[0]
  {
    if |s| >= |p| {
      assert s[..|p|][0] == s[0];
    }
  }

  /** The last character survives replacement when it is foreign to the pattern. */
  lemma {:induction false} ReplaceKeepsLast(s: string, p: string, r: string)
    requires |p| > 0 && |s| > 0 && s[|s| - 1] !in p
    ensures |ReplaceAll(s, p, r)| > 0
    ensures ReplaceAll(s, p, r)[|ReplaceAll(s, p, r)| - 1] == s[|s| - 1]
    decreases |s|
  {
    if |s| < |p| {
    } else if s[..|p|] == p {
      if |s| > |p| {
        assert s[|p|..][|s[|p|..]| - 1] == s[|s| - 1];
        ReplaceKeepsLast(s[|p|..], p, r);
      }
    } else if |s| == 1 {
      assert s[1..] == [];
    } else {
      assert s[1..][|s[1..]| - 1] == s[|s| - 1];
      ReplaceKeepsLast(s[1..], p, r);
    }
  }

  /** The parts in order with a one-character separator between neighbours. */
  function Join(parts: seq<string>, sep: char): string
  {
    if |parts| == 0 then ""
    else if |parts| == 1 then parts[0]
    else parts[0] + [sep] + Join(parts[1..], sep)
  }

  /** Appending one part extends the joined text by the separator and that part. */
  lemma {:induction false} JoinAppend(parts: seq<string>, x: string, sep: char)
    requires |parts| > 0
    ensures Join(parts + [x], sep) == Join(parts, sep) + [sep] + x
    decreases |parts|
  {
    if |parts| == 1 {
      assert (parts + [x])[1..] == [x];
    } else {
      assert (parts + [x])[1..] == parts[1..] + [x];
      JoinAppend(parts[1..], x, sep);
    }
  }

  /** Index of the first `c` in s, or |s| when there is none. */
  function IndexOf(s: string, c: char): (k: nat)
    ensures k <= |s|
    ensures k < |s| ==> s[k] == c
    ensures forall j :: 0 <= j < k ==> s[j] != c
  {
    if s == [] then 0
    else if s[0] == c then 0
    else 1 + IndexOf(s[1..], c)
  }

  /** Reads a joined text back into its parts (the server never splits). */
  function Split(s: string, sep: char): (parts: seq<string>)
    ensures |parts| > 0
    decreases |s|
  {
    var k := IndexOf(s, sep);
    if k == |s| then [s] else [s[..k]] + Split(s[k + 1..], sep)
  }

  /** Splitting undoes joining when no part contains the separator. */
  lemma {:induction false} SplitJoin(parts: seq<string>, sep: char)
    requires |parts| > 0
    requires forall i :: 0 <= i < |parts| ==> sep !in parts[i]
    ensures Split(Join(parts, sep), sep) == parts
    decreases |parts|
  {
    if |parts| == 1 {
      assert IndexOf(parts[0], sep) == |parts[0]|;
    } else {
      var s := Join(parts, sep);
      var k := IndexOf(s, sep);
      assert s[|parts[0]|] == sep;
      assert s[..|parts[0]|] == parts[0];
      assert k == |parts[0]|;
      assert s[..k] == parts[0];
      assert s[k + 1..] == Join(parts[1..], sep);
      SplitJoin(parts[1..], sep);
    }
  }
}
