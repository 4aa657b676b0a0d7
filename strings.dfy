/** Character-level rewriting of strings, as Python's `str.replace` does it
    for a one-character pattern, and substring search (`in` / `str.contains`). */
module Strings {

  /** Number of occurrences of `c` in `s`. */
  function CountChar(s: string, c: char): (n: nat)
    ensures n <= |s|
    ensures n == 0 <==> c !in s
  {
    if s == [] then 0 else (if s[0] == c then 1 else 0) + CountChar(s[1..], c)
  }

  /** `s.replace(c, rep)`: every occurrence of the character `c`, scanned left
      to right, is replaced by the string `rep`; every other character is kept. */
  function ReplaceChar(s: string, c: char, rep: string): (r: string)
    ensures |r| + CountChar(s, c) == |s| + CountChar(s, c) * |rep|
    ensures c !in rep ==> c !in r
    ensures forall d :: d in r ==> d in rep || (d in s && d != c)
  {
    if s == [] then []
    else
      var tail := ReplaceChar(s[1..], c, rep);
      var n := CountChar(s[1..], c);
      if s[0] == c then
        assert (n + 1) * |rep| == n * |rep| + |rep|;
        rep + tail
      else
        [s[0]] + tail
  }

  lemma {:induction false} ReplaceAbsent(s: string, c: char, rep: string)
    requires c !in s
    ensures ReplaceChar(s, c, rep) == s
  {
    if s != [] {
      ReplaceAbsent(s[1..], c, rep);
    }
  }

  /** Replacement works piece by piece over a concatenation. */
  lemma {:induction false} ReplaceCharAppend(a: string, b: string, c: char, rep: string)
    ensures ReplaceChar(a + b, c, rep) == ReplaceChar(a, c, rep) + ReplaceChar(b, c, rep)
  {
    if a == [] {
      assert a + b == b;
    } else {
      assert (a + b)[1..] == a[1..] + b;
      ReplaceCharAppend(a[1..], b, c, rep);
    }
  }

  /** Replacing `c` by at most one character changes the count of any other
      character `d` only by the replacements that produce it. */
  lemma {:induction false} CountAfterReplace(s: string, c: char, rep: string, d: char)
    requires d != c && |rep| <= 1
    ensures CountChar(ReplaceChar(s, c, rep), d) == CountChar(s, d) + (if rep == [d] then CountChar(s, c) else 0)
  {
    if s != [] {
      CountAfterReplace(s[1..], c, rep, d);
      var tail := ReplaceChar(s[1..], c, rep);
      if s[0] == c {
        CountCharAppend(rep, tail, d);
        if rep != [] {
          assert CountChar(rep, d) == (if rep[0] == d then 1 else 0) + CountChar(rep[1..], d);
          assert rep[1..] == [];
        }
      } else {
        CountCharAppend([s[0]], tail, d);
      }
    }
  }

  /** A one-for-one replacement keeps every position: the result has the
      length of `s`, and position `i` holds `to` exactly where `s` held `c`. */
  lemma {:induction false} ReplaceCharPointwise(s: string, c: char, to: char, i: nat)
    requires i < |s|
    ensures |ReplaceChar(s, c, [to])| == |s|
    ensures ReplaceChar(s, c, [to])[i] == if s[i] == c then to else s[i]
  {
    if i > 0 {
      ReplaceCharPointwise(s[1..], c, to, i - 1);
    }
  }

  /** `pat in s` for Python strings: `pat` occurs in `s` at some offset. */
  predicate Contains(s: string, pat: string)
    decreases |s|
  {
    |pat| <= |s| && (s[..|pat|] == pat || (s != [] && Contains(s[1..], pat)))
  }

  /** `pat` is the slice of `s` that starts at offset `k`. */
  predicate OccursAt(s: string, pat: string, k: nat)
  {
    k + |pat| <= |s| && s[k..k + |pat|] == pat
  }

  /** `Contains` finds `pat` exactly when `pat` occurs in `s` at some offset. */
  lemma {:induction false} ContainsIff(s: string, pat: string)
    decreases |s|
    ensures Contains(s, pat) <==> exists k: nat :: OccursAt(s, pat, k)
  {
    if |pat| <= |s| && s[..|pat|] == pat {
      assert OccursAt(s, pat, 0);
    } else if |pat| <= |s| && s != [] {
      ContainsIff(s[1..], pat);
      if exists k: nat :: OccursAt(s, pat, k) {
        var k: nat :| OccursAt(s, pat, k);
        assert k > 0;
        assert OccursAt(s[1..], pat, k - 1);
      }
      if Contains(s[1..], pat) {
        var k: nat :| OccursAt(s[1..], pat, k);
        assert OccursAt(s, pat, k + 1);
      }
    }
  }

  lemma {:induction false} CountCharAppend(a: string, b: string, c: char)
    ensures CountChar(a + b, c) == CountChar(a, c) + CountChar(b, c)
  {
    if a != [] {
      assert (a + b)[1..] == a[1..] + b;
      CountCharAppend(a[1..], b, c);
    } else {
      assert a + b == b;
    }
  }

  // ---------------------------------------------------------------------------
  // Decimal rendering of a count, as Python's `str(int)` / f-string does it

  predicate IsDigit(ch: char)
  {
    '0' <= ch <= '9'
  }

  predicate AllDigits(s: string)
  {
    forall i :: 0 <= i < |s| ==> IsDigit(s[i])
  }

  function DigitChar(d: nat): (ch: char)
    requires d < 10
    ensures IsDigit(ch)
  {
    ('0' as int + d) as char
  }

  function DigitValue(ch: char): (d: nat)
    requires IsDigit(ch)
    ensures d < 10
  {
    ch as int - '0' as int
  }

  /** Decimal digits of `n`, most significant first, without leading zeros. */
  function NatToString(n: nat): (s: string)
    ensures |s| > 0 && AllDigits(s)
    ensures |s| > 1 ==> s[0] != '0'
  {
    if n < 10 then [DigitChar(n)] else NatToString(n / 10) + [DigitChar(n % 10)]
  }

  /** The number that a string of decimal digits denotes. */
  function ParseDigits(s: string): nat
    requires AllDigits(s)
  {
    if s == [] then 0 else ParseDigits(s[..|s| - 1]) * 10 + DigitValue(s[|s| - 1])
  }

  /** Reading the digits back gives the number. */
  lemma {:induction false} ParseNatToString(n: nat)
    ensures ParseDigits(NatToString(n)) == n
  {
    if n >= 10 {
      var s := NatToString(n);
      assert s[..|s| - 1] == NatToString(n / 10);
      ParseNatToString(n / 10);
    }
  }

  /** The longest prefix of `s` made of decimal digits. */
  function LeadingDigits(s: string): (d: string)
    ensures AllDigits(d) && d <= s
  {
    if s == [] || !IsDigit(s[0]) then [] else [s[0]] + LeadingDigits(s[1..])
  }

  lemma {:induction false} LeadingDigitsOf(d: string, rest: string)
    requires AllDigits(d)
    requires rest == [] || !IsDigit(rest[0])
    ensures LeadingDigits(d + rest) == d
  {
    if d != [] {
      assert (d + rest)[1..] == d[1..] + rest;
      LeadingDigitsOf(d[1..], rest);
    } else {
      assert d + rest == rest;
    }
  }
}
