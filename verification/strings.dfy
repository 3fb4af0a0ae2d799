/**
 The handful of Python string operations the bot relies on: `str(int)`,
 the substring test `p in s`, `str.replace`, `str.lower` and
 `str.capitalize`. Strings are sequences of characters.
 */
module Strings {
  import opened Wrappers

  predicate IsDigit(c: char) {
    '0' <= c <= '9'
  }

  predicate AllDigits(s: string) {
    forall i :: 0 <= i < |s| ==> IsDigit(s[i])
  }

  function DigitChar(d: nat): (c: char)
    requires d < 10
    ensures IsDigit(c)
  {
    ('0' as int + d) as char
  }

  function DigitValue(c: char): nat
    requires IsDigit(c)
  {
    c as int - '0' as int
  }

  /** Decimal digits of `n`, most significant first, without leading zeros. */
  function NatToString(n: nat): (s: string)
    ensures |s| > 0 && AllDigits(s)
    decreases n
  {
    if n < 10 then [DigitChar(n)] else NatToString(n / 10) + [DigitChar(n % 10)]
  }

  /** Python's `str(i)` on an int: a minus sign exactly for negatives, then the digits. */
  function IntToString(i: int): (s: string)
    ensures |s| > 0
    ensures s[0] == '-' <==> i < 0
    ensures IsDigit(s[0]) <==> i >= 0
    ensures AllDigits(s[1..])
  {
    if i < 0 then "-" + NatToString(-i) else NatToString(i)
  }

  /** The value of a run of decimal digits (the reading direction of NatToString). */
  function DigitsValue(s: string): nat
    requires AllDigits(s)
  {
    if s == [] then 0 else DigitsValue(s[..|s| - 1]) * 10 + DigitValue(s[|s| - 1])
  }

  /** The inverse of IntToString: an optional minus sign followed by one or more digits. */
  function ParseInt(s: string): Option<int> {
    if |s| > 1 && s[0] == '-' && AllDigits(s[1..]) then Some(0 - DigitsValue(s[1..]) as int)
    else if |s| > 0 && AllDigits(s) then Some(DigitsValue(s))
    else None
  }

  lemma {:induction false} NatToStringRoundTrip(n: nat)
    ensures DigitsValue(NatToString(n)) == n
    decreases n
  {
    var s := NatToString(n);
    if n >= 10 {
      NatToStringRoundTrip(n / 10);
      assert s[..|s| - 1] == NatToString(n / 10);
    }
  }

  /** Parsing the text `str(i)` gives back `i`. */
  lemma IntToStringRoundTrip(i: int)
    ensures ParseInt(IntToString(i)) == Some(i)
  {
    var s := IntToString(i);
    if i < 0 {
      assert s[1..] == NatToString(-i);
      NatToStringRoundTrip(-i);
    } else {
      NatToStringRoundTrip(i);
    }
  }

  /** Distinct integers have distinct decimal texts. */
  lemma IntToStringInjective(i: int, j: int)
    ensures IntToString(i) == IntToString(j) <==> i == j
  {
    if IntToString(i) == IntToString(j) {
      IntToStringRoundTrip(i);
      IntToStringRoundTrip(j);
    }
  }

  /** `p` occurs in `s` starting at position `i`. */
  ghost predicate OccursAt(s: string, p: string, i: int) {
    0 <= i && i + |p| <= |s| && s[i..i + |p|] == p
  }

  /** A text that starts with a prefix is that prefix followed by the rest. */
  lemma PrefixThenRest(p: string, s: string)
    requires p <= s
    ensures s == p + s[|p|..]
  {
  }

  /** A text occurs in any text made of something, then it, then something else, right after the first part. */
  lemma OccursBetween(a: string, p: string, b: string)
    ensures OccursAt(a + p + b, p, |a|)
  {
    assert (a + p + b)[|a|..|a| + |p|] == p;
  }

  /** Python's substring test `p in s`. */
  predicate Contains(s: string, p: string)
    decreases |s|
  {
    p <= s || (|s| > 0 && Contains(s[1..], p))
  }

  /** An occurrence at any position makes Contains true. */
  lemma {:induction false} OccursAtContains(s: string, p: string, i: int)
    requires OccursAt(s, p, i)
    ensures Contains(s, p)
    decreases i
  {
    if i == 0 {
      assert s[..|p|] == p;
    } else {
      assert s[1..][i - 1..i - 1 + |p|] == s[i..i + |p|];
      OccursAtContains(s[1..], p, i - 1);
    }
  }

  /** Contains agrees with the positional definition of "is a substring of". */
  lemma {:induction false} ContainsIff(s: string, p: string)
    ensures Contains(s, p) <==> exists i :: OccursAt(s, p, i)
    decreases |s|
  {
    if p <= s {
      assert OccursAt(s, p, 0);
    } else if |s| > 0 && Contains(s[1..], p) {
      ContainsIff(s[1..], p);
      var i :| OccursAt(s[1..], p, i);
      assert s[i + 1..i + 1 + |p|] == s[1..][i..i + |p|];
      assert OccursAt(s, p, i + 1);
    }
    forall i | OccursAt(s, p, i)
      ensures Contains(s, p)
    {
      OccursAtContains(s, p, i);
    }
  }

  /** A text shorter than the pattern, or missing its first character, does not contain it. */
  lemma {:induction false} NotContainsWithoutFirstChar(s: string, p: string)
    requires |p| > 0 && p[0] !in s
    ensures !Contains(s, p)
    decreases |s|
  {
    if |s| > 0 {
      NotContainsWithoutFirstChar(s[1..], p);
      assert p[0] != s[0];
    }
  }

  /**
   Python's `s.replace(p, r)` for a non-empty pattern: every leftmost,
   non-overlapping occurrence of `p`, scanning left to right, becomes `r`.
   */
  function ReplaceAll(s: string, p: string, r: string): string
    requires |p| > 0
    decreases |s|
  {
    if |s| < |p| then s
    else if s[..|p|] == p then r + ReplaceAll(s[|p|..], p, r)
    else [s[0]] + ReplaceAll(s[1..], p, r)
  }

  /** Replacing a pattern that does not occur leaves the text unchanged. */
  lemma {:induction false} ReplaceAllAbsent(s: string, p: string, r: string)
    requires |p| > 0 && !Contains(s, p)
    ensures ReplaceAll(s, p, r) == s
    decreases |s|
  {
    if |s| >= |p| {
      assert !(p <= s);
      ReplaceAllAbsent(s[1..], p, r);
      assert [s[0]] + s[1..] == s;
    }
  }

  /** An occurrence at the very start is replaced, and the scan resumes after it. */
  lemma ReplaceAllLeading(p: string, t: string, r: string)
    requires |p| > 0
    ensures ReplaceAll(p + t, p, r) == r + ReplaceAll(t, p, r)
  {
    assert (p + t)[..|p|] == p;
    assert (p + t)[|p|..] == t;
  }

  /** A prefix that does not hold the pattern's first character is copied unchanged. */
  lemma {:induction false} ReplaceAllSkips(s: string, t: string, p: string, r: string)
    requires |p| > 0 && p[0] !in s
    ensures ReplaceAll(s + t, p, r) == s + ReplaceAll(t, p, r)
    decreases |s|
  {
    if |s| > 0 {
      var st := s + t;
      assert st[0] == s[0] != p[0];
      if |st| < |p| {
        assert ReplaceAll(t, p, r) == t;
      } else {
        assert st[..|p|] != p by { assert st[..|p|][0] == s[0]; }
        assert st[1..] == s[1..] + t;
        ReplaceAllSkips(s[1..], t, p, r);
        assert [s[0]] + s[1..] == s;
      }
    } else {
      assert s + t == t;
    }
  }

  /** Unicode lower case for ASCII and Latin-1 capitals; every other character is kept. */
  function LowerChar(c: char): char {
    if 'A' <= c <= 'Z' || ('À' <= c <= 'Þ' && c != '×') then (c as int + 32) as char
    else c
  }

  /** Upper case for ASCII and Latin-1 small letters; every other character is kept. */
  function UpperChar(c: char): char {
    if 'a' <= c <= 'z' || ('à' <= c <= 'þ' && c != '÷') then (c as int - 32) as char
    else c
  }

  /** A capital LowerChar maps is the upper case of its small letter. */
  lemma LowerCharUndone(c: char)
    ensures LowerChar(LowerChar(c)) == LowerChar(c)
    ensures LowerChar(c) != c ==> UpperChar(LowerChar(c)) == c
  {
  }

  /**
   Python's `s.lower()`, over the characters LowerChar knows: no capital is
   left, characters without a lower case are kept, and every changed
   character is the small letter of the capital it replaces.
   */
  function Lower(s: string): (l: string)
    ensures |l| == |s|
    ensures forall i :: 0 <= i < |l| ==> LowerChar(l[i]) == l[i]
    ensures forall i :: 0 <= i < |s| && LowerChar(s[i]) == s[i] ==> l[i] == s[i]
    ensures forall i :: 0 <= i < |s| && l[i] != s[i] ==> UpperChar(l[i]) == s[i]
  {
    var l := seq(|s|, i requires 0 <= i < |s| => LowerChar(s[i]));
    assert forall i :: 0 <= i < |s| ==> LowerChar(l[i]) == l[i] && (l[i] != s[i] ==> UpperChar(l[i]) == s[i]) by {
      forall i | 0 <= i < |s|
        ensures LowerChar(l[i]) == l[i] && (l[i] != s[i] ==> UpperChar(l[i]) == s[i])
      {
        LowerCharUndone(s[i]);
      }
    }
    l
  }

  /** The clauses of Lower's contract leave one possible result. */
  lemma LowerDetermined(s: string, l: string)
    requires |l| == |s|
    requires forall i :: 0 <= i < |l| ==> LowerChar(l[i]) == l[i]
    requires forall i :: 0 <= i < |s| && LowerChar(s[i]) == s[i] ==> l[i] == s[i]
    requires forall i :: 0 <= i < |s| && l[i] != s[i] ==> UpperChar(l[i]) == s[i]
    ensures l == Lower(s)
  {
    forall i | 0 <= i < |s|
      ensures l[i] == Lower(s)[i]
    {
      assert Lower(s)[i] == LowerChar(s[i]);
    }
  }

  /** Lower-casing twice is lower-casing once. */
  lemma LowerIdempotent(s: string)
    ensures Lower(Lower(s)) == Lower(s)
  {
  }

  /** A text already in lower case is its own lower case. */
  lemma LowerKeepsLowercase(s: string)
    requires forall i :: 0 <= i < |s| ==> 'a' <= s[i] <= 'z'
    ensures Lower(s) == s
  {
  }

  /**
   Python's `s.capitalize()`: only the case changes, the first character
   ends in upper case and the others in lower case.
   */
  function Capitalize(s: string): (c: string)
    ensures |c| == |s|
    ensures Lower(c) == Lower(s)
    ensures |c| > 0 ==> UpperChar(c[0]) == c[0]
    ensures forall i :: 1 <= i < |c| ==> LowerChar(c[i]) == c[i]
  {
    if s == [] then []
    else
      var c := [UpperChar(s[0])] + Lower(s[1..]);
      assert LowerChar(c[0]) == LowerChar(s[0]);
      assert forall i :: 1 <= i < |c| ==> c[i] == Lower(s[1..])[i - 1];
      assert Lower(c) == Lower(s) by {
        forall i | 0 <= i < |c|
          ensures Lower(c)[i] == Lower(s)[i]
        {
          if i > 0 {
            LowerCharUndone(s[i]);
            assert c[i] == LowerChar(s[1..][i - 1]);
          }
        }
      }
      c
  }

  /** The clauses of Capitalize's contract leave one possible result. */
  lemma CapitalizeDetermined(s: string, c: string)
    requires |c| == |s|
    requires Lower(c) == Lower(s)
    requires |c| > 0 ==> UpperChar(c[0]) == c[0]
    requires forall i :: 1 <= i < |c| ==> LowerChar(c[i]) == c[i]
    ensures c == Capitalize(s)
  {
    var d := Capitalize(s);
    forall i | 0 <= i < |s|
      ensures c[i] == d[i]
    {
      assert LowerChar(c[i]) == LowerChar(s[i]) by {
        assert Lower(c)[i] == LowerChar(c[i]) && Lower(s)[i] == LowerChar(s[i]);
      }
      if i == 0 {
        assert d[0] == UpperChar(s[0]);
      } else {
        assert d[i] == Lower(s[1..])[i - 1] == LowerChar(s[i]);
      }
    }
  }

  /** Capitalising a lower-case word raises its first letter and keeps the rest. */
  lemma CapitalizeLowerWord(c: char, rest: string)
    requires forall i :: 0 <= i < |rest| ==> 'a' <= rest[i] <= 'z'
    ensures Capitalize([c] + rest) == [UpperChar(c)] + rest
  {
    assert ([c] + rest)[1..] == rest;
    LowerKeepsLowercase(rest);
  }
}
