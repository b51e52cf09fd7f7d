/** Text helpers shared by the query builders: `sep.join(parts)`, `str(int)` and ASCII `lower()`. */
module Strings {
  import opened Wrappers

  /** The summed length of the parts. */
  function TotalLength(parts: seq<string>): nat
  {
    if |parts| == 0 then 0 else |parts[0]| + TotalLength(parts[1..])
  }

  /** Python's `sep.join(parts)`. */
  function Join(sep: string, parts: seq<string>): string
  {
    if |parts| == 0 then ""
    else if |parts| == 1 then parts[0]
    else parts[0] + sep + Join(sep, parts[1..])
  }

  /** Joining nothing gives the empty string; otherwise the parts plus one separator between each two. */
  lemma {:induction false} JoinLength(sep: string, parts: seq<string>)
    ensures |parts| == 0 ==> Join(sep, parts) == []
    ensures |parts| > 0 ==> |Join(sep, parts)| == TotalLength(parts) + (|parts| - 1) * |sep|
  {
    if |parts| > 1 {
      JoinLength(sep, parts[1..]);
    }
  }

  /** Where the i-th part starts inside `Join(sep, parts)`: every earlier part and one separator after each. */
  function PieceStart(sep: string, parts: seq<string>, i: nat): nat
    requires i <= |parts|
  {
    if i == 0 then 0 else |parts[0]| + |sep| + PieceStart(sep, parts[1..], i - 1)
  }

  /** The i-th part is copied verbatim at its offset, and a separator follows every part but the last. */
  lemma {:induction false} JoinPieceAt(sep: string, parts: seq<string>, i: nat)
    requires i < |parts|
    ensures var j, p := Join(sep, parts), PieceStart(sep, parts, i);
      var e := p + |parts[i]|;
      && e <= |j|
      && j[p..e] == parts[i]
      && (i + 1 < |parts| ==> e + |sep| <= |j| && j[e..e + |sep|] == sep)
      && (i + 1 == |parts| ==> e == |j|)
  {
    var j := Join(sep, parts);
    if |parts| == 1 {
      assert j == parts[0];
    } else {
      var rest := Join(sep, parts[1..]);
      var o := |parts[0]| + |sep|;
      assert j == parts[0] + sep + rest;
      if i == 0 {
        assert PieceStart(sep, parts[1..], 0) == 0;
        assert j[..|parts[0]|] == parts[0];
        assert j[|parts[0]|..o] == sep;
      } else {
        JoinPieceAt(sep, parts[1..], i - 1);
        assert parts[1..][i - 1] == parts[i];
        var s' := PieceStart(sep, parts[1..], i - 1);
        assert PieceStart(sep, parts, i) == o + s';
        SliceAfterPrefix(parts[0] + sep, rest, s', s' + |parts[i]|);
        if i + 1 < |parts| {
          var e := s' + |parts[i]|;
          SliceAfterPrefix(parts[0] + sep, rest, e, e + |sep|);
        }
      }
    }
  }

  /** A slice past a prefix is the same slice of what follows it. */
  lemma SliceAfterPrefix(a: string, b: string, x: nat, y: nat)
    requires x <= y <= |b|
    ensures (a + b)[|a| + x..|a| + y] == b[x..y]
  {
  }

  predicate IsDigit(c: char)
  {
    '0' <= c <= '9'
  }

  predicate AllDigits(s: string)
  {
    forall i :: 0 <= i < |s| ==> IsDigit(s[i])
  }

  function DigitChar(d: nat): (c: char)
    requires d < 10
    ensures IsDigit(c) && c as int - '0' as int == d
  {
    "0123456789"[d]
  }

  /** The decimal digits of n, without leading zeros. */
  function NatToDecimal(n: nat): (s: string)
    ensures |s| > 0 && AllDigits(s)
  {
    if n < 10 then [DigitChar(n)] else NatToDecimal(n / 10) + [DigitChar(n % 10)]
  }

  /** Python's `str(n)` (equivalently `f"{n}"`) for an int. */
  function IntToDecimal(n: int): string
  {
    if n < 0 then "-" + NatToDecimal(-n) else NatToDecimal(n)
  }

  /** The value of a string of decimal digits, read left to right. */
  function ParseNat(s: string): nat
    requires AllDigits(s)
  {
    if |s| == 0 then 0 else ParseNat(s[..|s| - 1]) * 10 + (s[|s| - 1] as int - '0' as int)
  }

  /** Reads an optionally negative decimal integer; None when s is not one. */
  function ParseInt(s: string): Option<int>
  {
    if |s| > 1 && s[0] == '-' && AllDigits(s[1..]) then var v: int := ParseNat(s[1..]); Some(-v)
    else if |s| > 0 && AllDigits(s) then Some(ParseNat(s))
    else None
  }

  lemma {:induction false} ParseNatToDecimal(n: nat)
    ensures ParseNat(NatToDecimal(n)) == n
  {
    if n >= 10 {
      var s := NatToDecimal(n);
      assert s == NatToDecimal(n / 10) + [DigitChar(n % 10)];
      assert s[..|s| - 1] == NatToDecimal(n / 10);
      ParseNatToDecimal(n / 10);
    }
  }

  /** Reading back `str(n)` gives n: the decimal rendering loses nothing. */
  lemma IntToDecimalRoundTrip(n: int)
    ensures ParseInt(IntToDecimal(n)) == Some(n)
  {
    if n < 0 {
      var d := NatToDecimal(-n);
      var s := "-" + d;
      assert s == IntToDecimal(n);
      assert s[0] == '-' && s[1..] == d;
      ParseNatToDecimal(-n);
      assert ParseInt(s) == Some(n);
    } else {
      var d := NatToDecimal(n);
      assert d == IntToDecimal(n);
      assert IsDigit(d[0]);
      ParseNatToDecimal(n);
      assert ParseInt(d) == Some(ParseNat(d));
    }
  }

  /** Lower-cases the ASCII letters A-Z and leaves every other character alone. */
  function AsciiLowerChar(c: char): (d: char)
    ensures 'A' <= c <= 'Z' ==> d as int == c as int + 32
    ensures !('A' <= c <= 'Z') ==> d == c
  {
    if 'A' <= c <= 'Z' then (c as int + 32) as char else c
  }

  function AsciiLower(s: string): (r: string)
    ensures |r| == |s| && forall i :: 0 <= i < |s| ==> r[i] == AsciiLowerChar(s[i])
  {
    seq(|s|, i requires 0 <= i < |s| => AsciiLowerChar(s[i]))
  }

  function AsciiUpperChar(c: char): (d: char)
    ensures 'a' <= c <= 'z' ==> d as int == c as int - 32
    ensures !('a' <= c <= 'z') ==> d == c
  {
    if 'a' <= c <= 'z' then (c as int - 32) as char else c
  }

  function AsciiUpper(s: string): (r: string)
    ensures |r| == |s| && forall i :: 0 <= i < |s| ==> r[i] == AsciiUpperChar(s[i])
  {
    seq(|s|, i requires 0 <= i < |s| => AsciiUpperChar(s[i]))
  }

  /** Upper-casing first changes nothing once the text is lower-cased. */
  lemma LowerOfUpper(s: string)
    ensures AsciiLower(AsciiUpper(s)) == AsciiLower(s)
  {
    assert forall i :: 0 <= i < |s| ==> AsciiLower(AsciiUpper(s))[i] == AsciiLower(s)[i];
  }
}
