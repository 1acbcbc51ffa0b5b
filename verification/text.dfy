/** String helpers with the meaning the Python standard library gives them:
    decimal formatting of ints, ASCII lower-casing, `str.split(c)[0]`,
    `str.split(c)[-1]` and `str.replace(old, new)`. */
module Text {

  /** The decimal digit for `d`. */
  function DigitChar(d: nat): (c: char)
    requires d < 10
    ensures '0' <= c <= '9'
    ensures c as int - '0' as int == d
  {
    ('0' as int + d) as char
  }

  /** `str(n)` for a non-negative Python int: no sign, no leading zero. */
  function NatToString(n: nat): (s: string)
    ensures |s| >= 1
    ensures forall i :: 0 <= i < |s| ==> '0' <= s[i] <= '9'
    ensures |s| == 1 <==> n < 10
    ensures n >= 10 ==> s[0] != '0'
    decreases n
  {
    if n < 10 then [DigitChar(n)] else NatToString(n / 10) + [DigitChar(n % 10)]
  }

  /** Distinct numbers print differently, so numbered file names never collide. */
  lemma {:induction false} NatToStringInjective(a: nat, b: nat)
    requires NatToString(a) == NatToString(b)
    ensures a == b
    decreases a
  {
    var s := NatToString(a);
    if a < 10 {
      assert b < 10;
      assert DigitChar(a) == s[0] == DigitChar(b);
    } else {
      assert b >= 10;
      var pa, pb := NatToString(a / 10), NatToString(b / 10);
      assert s == pa + [DigitChar(a % 10)];
      assert s == pb + [DigitChar(b % 10)];
      assert DigitChar(a % 10) == s[|s| - 1] == DigitChar(b % 10);
      assert pa == s[..|s| - 1] == pb;
      NatToStringInjective(a / 10, b / 10);
    }
  }

  /** A name built as `x + str(a) + tail`, where `x` ends in a non-digit,
      determines `a`: the digits run from after `x` to the start of `tail`. */
  lemma NumberedNamesInjective(x: string, a: nat, y: string, b: nat, tail: string)
    requires |x| > 0 && !('0' <= x[|x| - 1] <= '9')
    requires |y| > 0 && !('0' <= y[|y| - 1] <= '9')
    requires x + NatToString(a) + tail == y + NatToString(b) + tail
    ensures a == b
  {
    var da, db := NatToString(a), NatToString(b);
    var sa, sb := x + da, y + db;
    assert sa == (x + da + tail)[..|sa|];
    assert sb == (y + db + tail)[..|sb|];
    assert |sa| == |sb|;
    assert da == sa[|x|..];
    assert db == sb[|y|..];
    NatToStringInjective(a, b);
  }

  /** ASCII lower-casing; other characters are left as they are. */
  function LowerChar(c: char): char
  {
    if 'A' <= c <= 'Z' then (c as int + 32) as char else c
  }

  /** `s.lower()` restricted to ASCII letters. */
  function Lower(s: string): (r: string)
    ensures |r| == |s|
    ensures forall i :: 0 <= i < |s| ==> r[i] == LowerChar(s[i])
  {
    seq(|s|, i requires 0 <= i < |s| => LowerChar(s[i]))
  }

  /** `s.split(c)[-1]`: the text after the last `c`, or all of `s` when `c` does not occur. */
  function AfterLast(s: string, c: char): (r: string)
    ensures |r| <= |s| && r == s[|s| - |r|..]
    ensures c !in r
    ensures |r| < |s| ==> s[|s| - |r| - 1] == c
    decreases |s|
  {
    if |s| == 0 then ""
    else if s[|s| - 1] == c then ""
    else
      var r := AfterLast(s[..|s| - 1], c);
      AfterLastStep(s, r, c);
      r + [s[|s| - 1]]
  }

  /** The recursive step of `AfterLast`: a last character other than `c`
      extends the segment after the last `c`. */
  lemma AfterLastStep(s: string, r: string, c: char)
    requires |s| > 0 && s[|s| - 1] != c
    requires |r| <= |s| - 1 && r == s[..|s| - 1][|s| - 1 - |r|..]
    requires c !in r
    requires |r| < |s| - 1 ==> s[..|s| - 1][|s| - 2 - |r|] == c
    ensures r + [s[|s| - 1]] == s[|s| - 1 - |r|..]
    ensures c !in r + [s[|s| - 1]]
    ensures |r| + 1 < |s| ==> s[|s| - 2 - |r|] == c
  {
  }

  /** `s.split(c)[0]`: the text before the first `c`, or all of `s` when `c` does not occur. */
  function BeforeFirst(s: string, c: char): (r: string)
    ensures |r| <= |s| && r == s[..|r|]
    ensures c !in r
    ensures |r| < |s| ==> s[|r|] == c
    decreases |s|
  {
    if |s| == 0 then ""
    else if s[0] == c then ""
    else [s[0]] + BeforeFirst(s[1..], c)
  }

  /** Appending text free of `c` extends the last `c`-separated segment. */
  lemma {:induction false} AfterLastAppend(s: string, t: string, c: char)
    requires c !in t
    ensures AfterLast(s + t, c) == AfterLast(s, c) + t
    decreases |t|
  {
    if |t| > 0 {
      var t' := t[..|t| - 1];
      assert (s + t)[..|s + t| - 1] == s + t';
      AfterLastAppend(s, t', c);
    } else {
      assert s + t == s;
    }
  }

  /** `p` occurs in `s` starting at index `i`. */
  predicate OccursAt(s: string, p: string, i: nat)
  {
    i + |p| <= |s| && s[i..i + |p|] == p
  }

  /** Python's `p in s`. */
  predicate Occurs(s: string, p: string)
  {
    exists i: nat | i <= |s| :: OccursAt(s, p, i)
  }

  /** `s.replace(p, r)`: every non-overlapping occurrence of `p`, scanned left to right, becomes `r`. */
  function ReplaceAll(s: string, p: string, r: string): string
    requires |p| > 0
    decreases |s|
  {
    if |s| < |p| then s
    else if s[..|p|] == p then r + ReplaceAll(s[|p|..], p, r)
    else [s[0]] + ReplaceAll(s[1..], p, r)
  }

  /** Occurrences in `s[1..]` are occurrences in `s`, one place further on. */
  lemma OccursShift(s: string, p: string, i: nat)
    requires |s| > 0
    ensures OccursAt(s[1..], p, i) <==> OccursAt(s, p, i + 1)
  {
    if i + |p| <= |s| - 1 {
      assert s[1..][i..i + |p|] == s[i + 1..i + 1 + |p|];
    }
  }

  /** Replacing a pattern by a replacement of the same length keeps the length. */
  lemma {:induction false} ReplaceAllLength(s: string, p: string, r: string)
    requires |p| > 0 && |r| == |p|
    ensures |ReplaceAll(s, p, r)| == |s|
    decreases |s|
  {
    if |s| < |p| {
    } else if s[..|p|] == p {
      ReplaceAllLength(s[|p|..], p, r);
    } else {
      ReplaceAllLength(s[1..], p, r);
    }
  }

  /** `s.replace(p, r)` returns `s` itself exactly when `p` does not occur in it
      (for a replacement of the same length that differs from `p`). */
  lemma {:induction false} ReplaceAllUnchangedIff(s: string, p: string, r: string)
    requires |p| > 0 && |r| == |p| && r != p
    ensures ReplaceAll(s, p, r) == s <==> !Occurs(s, p)
    decreases |s|
  {
    if |s| < |p| {
      forall i: nat ensures !OccursAt(s, p, i) { }
    } else if s[..|p|] == p {
      assert OccursAt(s, p, 0);
      ReplaceAllLength(s[|p|..], p, r);
      var res := ReplaceAll(s, p, r);
      assert res[..|p|] == r;
      assert res != s;
    } else {
      var tail := ReplaceAll(s[1..], p, r);
      ReplaceAllUnchangedIff(s[1..], p, r);
      assert !OccursAt(s, p, 0);
      if Occurs(s, p) {
        var i: nat :| OccursAt(s, p, i);
        assert i > 0;
        OccursShift(s, p, i - 1);
        assert Occurs(s[1..], p);
      }
      if Occurs(s[1..], p) {
        var i: nat :| OccursAt(s[1..], p, i);
        OccursShift(s, p, i);
        assert Occurs(s, p);
      }
      assert [s[0]] + s[1..] == s;
      if tail != s[1..] {
        assert ([s[0]] + tail)[1..] == tail;
      }
    }
  }

  /** The scan replaces the first occurrence and goes on after it:
      `(t + p + u).replace(p, r) == t + r + u.replace(p, r)` when no occurrence
      of `p` starts inside `t`. */
  lemma {:induction false} ReplaceFirstOccurrence(t: string, p: string, u: string, r: string)
    requires |p| > 0
    requires forall i: nat :: i < |t| ==> !OccursAt(t + p, p, i)
    ensures ReplaceAll(t + p + u, p, r) == t + r + ReplaceAll(u, p, r)
    decreases |t|
  {
    var s := t + p + u;
    if |t| == 0 {
      assert s == p + u && s[..|p|] == p && s[|p|..] == u;
    } else {
      assert !OccursAt(t + p, p, 0);
      assert s[..|p|] == (t + p)[..|p|];
      assert s[1..] == t[1..] + p + u;
      forall i: nat | i < |t[1..]|
        ensures !OccursAt(t[1..] + p, p, i)
      {
        OccursShift(t + p, p, i);
        assert (t + p)[1..] == t[1..] + p;
      }
      ReplaceFirstOccurrence(t[1..], p, u, r);
      assert [t[0]] + (t[1..] + r + ReplaceAll(u, p, r)) == t + r + ReplaceAll(u, p, r);
    }
  }

  /** Two occurrences, each the first after what precedes it, are both replaced:
      `(a + p + b + p + c).replace(p, r) == a + r + b + r + c` when `c` is left unchanged. */
  lemma ReplaceTwoOccurrences(a: string, b: string, c: string, p: string, r: string)
    requires |p| > 0
    requires forall i: nat :: i < |a| ==> !OccursAt(a + p, p, i)
    requires forall i: nat :: i < |b| ==> !OccursAt(b + p, p, i)
    requires ReplaceAll(c, p, r) == c
    ensures ReplaceAll(a + p + b + p + c, p, r) == a + r + b + r + c
  {
    assert a + p + b + p + c == a + p + (b + p + c);
    ReplaceFirstOccurrence(a, p, b + p + c, r);
    ReplaceFirstOccurrence(b, p, c, r);
    assert a + r + (b + r + c) == a + r + b + r + c;
  }

  /** A pattern that occurs only as the final suffix is the one replaced:
      `(t + p).replace(p, r) == t + r`. */
  lemma {:induction false} ReplaceSoleSuffix(t: string, p: string, r: string)
    requires |p| > 0
    requires forall i: nat :: i < |t| ==> !OccursAt(t + p, p, i)
    ensures ReplaceAll(t + p, p, r) == t + r
    decreases |t|
  {
    var s := t + p;
    if |t| == 0 {
      assert s == p && s[..|p|] == p && s[|p|..] == [];
    } else {
      assert !OccursAt(s, p, 0);
      assert s[..|p|] != p;
      assert s[1..] == t[1..] + p;
      forall i: nat | i < |t[1..]|
        ensures !OccursAt(t[1..] + p, p, i)
      {
        OccursShift(s, p, i);
      }
      ReplaceSoleSuffix(t[1..], p, r);
      assert [t[0]] + (t[1..] + r) == t + r;
    }
  }
}
