/** The string conversions the dashboard's search box and year filter rely
    on: `toLowerCase` restricted to ASCII, `String.prototype.includes`, and
    the decimal rendering `Number.prototype.toString` gives integers. */
module Text {

  predicate IsUpper(c: char)
  {
    'A' <= c <= 'Z'
  }

  predicate IsDigit(c: char)
  {
    '0' <= c <= '9'
  }

  /** `toLowerCase` on one character of the ASCII range. */
  function LowerChar(c: char): (l: char)
    ensures !IsUpper(l)
    ensures !IsUpper(c) ==> l == c
    ensures IsUpper(c) ==> l as int - c as int == 'a' as int - 'A' as int
  {
    if IsUpper(c) then (c as int + 32) as char else c
  }

  /** `toLowerCase` on a string whose letters are ASCII. */
  function LowerAscii(s: string): (r: string)
    ensures |r| == |s|
    ensures forall i :: 0 <= i < |s| ==> r[i] == LowerChar(s[i])
    ensures forall i :: 0 <= i < |r| ==> !IsUpper(r[i])
  {
    seq(|s|, i requires 0 <= i < |s| => LowerChar(s[i]))
  }

  /** `text.includes(term)`: `term` starts at some position of `text`. */
  predicate Contains(text: string, term: string)
    decreases |text|
  {
    |term| <= |text| && (text[..|term|] == term || Contains(text[1..], term))
  }

  /** `term` occupies `text` from position `i` on. */
  predicate OccursAt(text: string, term: string, i: int)
  {
    0 <= i && i + |term| <= |text| && text[i..i + |term|] == term
  }

  /** `Contains` agrees with its positional reading. */
  lemma {:induction false} ContainsIffOccursAt(text: string, term: string)
    ensures Contains(text, term) <==> exists i :: OccursAt(text, term, i)
  {
    if |term| <= |text| {
      if text[..|term|] == term {
        assert OccursAt(text, term, 0);
      } else {
        ContainsIffOccursAt(text[1..], term);
        if Contains(text[1..], term) {
          var j :| OccursAt(text[1..], term, j);
          assert text[1..][j..j + |term|] == text[j + 1..j + 1 + |term|];
          assert OccursAt(text, term, j + 1);
        }
        if exists i :: OccursAt(text, term, i) {
          var i :| OccursAt(text, term, i);
          assert text[0..0 + |term|] == text[..|term|];
          assert i != 0;
          assert text[1..][i - 1..i - 1 + |term|] == text[i..i + |term|];
          assert OccursAt(text[1..], term, i - 1);
        }
      }
    }
  }

  /** `term` occupies `text` from position `i` on, up to letter case. */
  predicate OccursIgnoringCase(text: string, term: string, i: int)
  {
    0 <= i && i + |term| <= |text| && LowerAscii(text[i..i + |term|]) == LowerAscii(term)
  }

  /** Lower-casing commutes with taking a slice. */
  lemma LowerAsciiSlice(s: string, i: nat, j: nat)
    requires i <= j <= |s|
    ensures LowerAscii(s)[i..j] == LowerAscii(s[i..j])
  {
    assert forall k :: 0 <= k < j - i ==> LowerAscii(s)[i..j][k] == LowerChar(s[i + k]);
  }

  /** Searching the lower-cased text for the lower-cased term finds exactly
      the places where the term occurs up to letter case. */
  lemma LowerContainsIffOccursIgnoringCase(text: string, term: string)
    ensures Contains(LowerAscii(text), LowerAscii(term)) <==> exists i :: OccursIgnoringCase(text, term, i)
  {
    var lt, lterm := LowerAscii(text), LowerAscii(term);
    ContainsIffOccursAt(lt, lterm);
    if Contains(lt, lterm) {
      var i :| OccursAt(lt, lterm, i);
      LowerAsciiSlice(text, i, i + |term|);
      assert OccursIgnoringCase(text, term, i);
    }
    if exists i :: OccursIgnoringCase(text, term, i) {
      var i :| OccursIgnoringCase(text, term, i);
      LowerAsciiSlice(text, i, i + |term|);
      assert OccursAt(lt, lterm, i);
    }
  }

  /** A term the text contains as typed is also found after both are
      lower-cased. */
  lemma ContainsLowered(text: string, term: string)
    ensures Contains(text, term) ==> Contains(LowerAscii(text), LowerAscii(term))
  {
    if Contains(text, term) {
      ContainsIffOccursAt(text, term);
      var i :| OccursAt(text, term, i);
      assert OccursIgnoringCase(text, term, i);
      LowerContainsIffOccursIgnoringCase(text, term);
    }
  }

  function DigitChar(d: nat): (c: char)
    requires d < 10
    ensures IsDigit(c)
  {
    ('0' as int + d) as char
  }

  function DigitValue(c: char): (d: nat)
    ensures d < 10
  {
    if IsDigit(c) then c as int - '0' as int else 0
  }

  /** Decimal digits of `n` without leading zeros, as `String(n)` writes them. */
  function NatToString(n: nat): (s: string)
    ensures |s| >= 1
    ensures forall i :: 0 <= i < |s| ==> IsDigit(s[i])
    ensures s[0] == '0' <==> n == 0
    ensures |s| == 1 <==> n < 10
  {
    if n < 10 then [DigitChar(n)] else NatToString(n / 10) + [DigitChar(n % 10)]
  }

  /** The value of a string of decimal digits; the inverse of `NatToString`. */
  function ParseNat(s: string): nat
  {
    if s == [] then 0 else ParseNat(s[..|s| - 1]) * 10 + DigitValue(s[|s| - 1])
  }

  lemma {:induction false} ParseNatToString(n: nat)
    ensures ParseNat(NatToString(n)) == n
  {
    var s := NatToString(n);
    if n < 10 {
      assert s[..|s| - 1] == [];
    } else {
      assert s[..|s| - 1] == NatToString(n / 10);
      ParseNatToString(n / 10);
    }
  }

  /** `String(i)` for an integer `i`: a leading minus sign for negatives. */
  function IntToString(i: int): (s: string)
    ensures |s| >= 1
    ensures s[0] == '-' <==> i < 0
  {
    if i < 0 then "-" + NatToString(-i) else NatToString(i)
  }

  function ParseInt(s: string): int
  {
    if |s| > 0 && s[0] == '-' then -(ParseNat(s[1..]) as int) else ParseNat(s)
  }

  lemma IntToStringRoundTrip(i: int)
    ensures ParseInt(IntToString(i)) == i
  {
    if i < 0 {
      var digits := NatToString(-i);
      ParseNatToString(-i);
      assert IntToString(i) == ['-'] + digits;
      assert (['-'] + digits)[1..] == digits;
    } else {
      ParseNatToString(i);
    }
  }

  /** Distinct integers render as distinct strings. */
  lemma IntToStringInjective(a: int, b: int)
    ensures IntToString(a) == IntToString(b) <==> a == b
  {
    IntToStringRoundTrip(a);
    IntToStringRoundTrip(b);
  }
}
