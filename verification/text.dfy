/** The few Python `str` operations the resolver relies on: ASCII
    lower-casing, the `in` substring test, `replace(pat, "")`, and the
    decimal rendering of a counter inside an f-string. */
module Text {

  /** `str.lower()` on one character; only the ASCII letters are mapped. */
  function LowerChar(c: char): char
  {
    if 'A' <= c <= 'Z' then (c as int + 32) as char else c
  }

  /** `str.lower()`, character by character. */
  function Lower(s: string): string
  {
    seq(|s|, i requires 0 <= i < |s| => LowerChar(s[i]))
  }

  /** Lower-casing keeps the length and maps every character on its own. */
  lemma LowerAt(s: string)
    ensures |Lower(s)| == |s|
    ensures forall i :: 0 <= i < |s| ==> Lower(s)[i] == LowerChar(s[i])
  {
  }

  /** ".zip" is already lower-case. */
  lemma LowerZip()
    ensures Lower(".zip") == ".zip"
  {
    LowerAt(".zip");
  }

  /** `needle` occurs in `hay` starting at index `i`. */
  predicate OccursAt(hay: string, needle: string, i: int)
  {
    0 <= i && i + |needle| <= |hay| && hay[i..i + |needle|] == needle
  }

  /** Python's `needle in hay` for two strings (the empty needle occurs everywhere). */
  predicate Contains(hay: string, needle: string)
  {
    exists i :: 0 <= i <= |hay| - |needle| && OccursAt(hay, needle, i)
  }

  /** Python's `s.replace(pat, "")`: one left-to-right pass that deletes
      every non-overlapping occurrence of `pat`. */
  function RemoveAll(s: string, pat: string): (r: string)
    requires pat != []
    ensures |r| <= |s|
    ensures !Contains(s, pat) ==> r == s
    decreases |s|
  {
    if |s| < |pat| then s
    else if s[..|pat|] == pat then
      assert OccursAt(s, pat, 0);
      RemoveAll(s[|pat|..], pat)
    else
      var rest := RemoveAll(s[1..], pat);
      assert !Contains(s, pat) ==> !Contains(s[1..], pat) by {
        if Contains(s[1..], pat) {
          var i :| 0 <= i <= |s[1..]| - |pat| && OccursAt(s[1..], pat, i);
          assert s[i + 1..i + 1 + |pat|] == s[1..][i..i + |pat|];
          assert OccursAt(s, pat, i + 1);
        }
      }
      [s[0]] + rest
  }

  /** When `pat` occurs in `s + pat` only at the end, deleting every
      occurrence strips exactly that one. */
  lemma {:induction false} RemoveAllTrailing(s: string, pat: string)
    requires pat != []
    requires forall i :: 0 <= i < |s| ==> !OccursAt(s + pat, pat, i)
    ensures RemoveAll(s + pat, pat) == s
    decreases |s|
  {
    var whole := s + pat;
    if s == [] {
      assert whole[..|pat|] == pat;
      assert whole[|pat|..] == [];
    } else {
      assert !OccursAt(whole, pat, 0);
      assert whole[1..] == s[1..] + pat;
      forall i | 0 <= i < |s[1..]|
        ensures !OccursAt(s[1..] + pat, pat, i)
      {
        assert !OccursAt(whole, pat, i + 1);
        if i + |pat| <= |whole[1..]| {
          assert whole[i + 1..i + 1 + |pat|] == whole[1..][i..i + |pat|];
        }
      }
      RemoveAllTrailing(s[1..], pat);
      assert [s[0]] + s[1..] == s;
    }
  }

  /** Lower-casing distributes over concatenation. */
  lemma {:induction false} LowerAppend(a: string, b: string)
    ensures Lower(a + b) == Lower(a) + Lower(b)
  {
    if a == [] {
      assert a + b == b;
    } else {
      assert (a + b)[1..] == a[1..] + b;
      LowerAppend(a[1..], b);
    }
  }

  predicate IsDigit(c: char)
  {
    '0' <= c <= '9'
  }

  /** The value of a string of decimal digits, most significant first. */
  function DigitsValue(s: string): int
  {
    if s == [] then 0
    else DigitsValue(s[..|s| - 1]) * 10 + (s[|s| - 1] as int - '0' as int)
  }

  /** The character of one decimal digit. */
  function DigitChar(d: nat): char
    requires d < 10
  {
    ('0' as int + d) as char
  }

  /** `str(n)` / `f"{n}"` for a non-negative integer: its decimal digits,
      most significant first, with no leading zero. */
  function Decimal(n: nat): (r: string)
    ensures 1 <= |r|
  {
    if n < 10 then [DigitChar(n)] else Decimal(n / 10) + [DigitChar(n % 10)]
  }

  /** Every character of a rendered number is a digit. */
  lemma {:induction false} DecimalDigits(n: nat)
    ensures forall k :: 0 <= k < |Decimal(n)| ==> IsDigit(Decimal(n)[k])
  {
    if n >= 10 {
      DecimalDigits(n / 10);
      var r := Decimal(n);
      forall k | 0 <= k < |r| ensures IsDigit(r[k]) {
        if k < |r| - 1 {
          assert r[k] == Decimal(n / 10)[k];
        }
      }
    }
  }

  /** Only zero renders with a leading '0'. */
  lemma {:induction false} DecimalNoLeadingZero(n: nat)
    ensures Decimal(n)[0] == '0' ==> n == 0
  {
    if n >= 10 {
      DecimalNoLeadingZero(n / 10);
      assert Decimal(n)[0] == Decimal(n / 10)[0];
    }
  }

  /** Reading the rendered digits back gives the number: `int(str(n)) == n`. */
  lemma {:induction false} DecimalValue(n: nat)
    ensures DigitsValue(Decimal(n)) == n
  {
    if n >= 10 {
      DecimalValue(n / 10);
      var r := Decimal(n);
      assert r[..|r| - 1] == Decimal(n / 10);
    }
  }

  /** Distinct counters render as distinct strings. */
  lemma DecimalInjective(a: nat, b: nat)
    requires Decimal(a) == Decimal(b)
    ensures a == b
  {
    DecimalValue(a);
    DecimalValue(b);
  }
}
