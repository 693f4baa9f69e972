/** Text helpers the program borrows from the JavaScript runtime:
    `String(n)` on integer amounts and years, `padStart`, `Array.join`
    and its inverse `String.split` on a one-character separator. */
module Text {
  import opened Wrappers

  predicate IsDigit(c: char) {
    '0' <= c <= '9'
  }

  predicate AllDigits(s: string) {
    forall i :: 0 <= i < |s| ==> IsDigit(s[i])
  }

  function DigitChar(d: nat): (c: char)
    requires d < 10
    ensures IsDigit(c)
  {
    ('0' as int + d) as char
  }

  function DigitValue(c: char): (d: nat)
    requires IsDigit(c)
    ensures d < 10 && DigitChar(d) == c
  {
    c as int - '0' as int
  }

  /** Decimal rendering of a non-negative integer, most significant digit
      first, without leading zeros. */
  function NatToDecimal(n: nat): (s: string)
    ensures 1 <= |s|
    ensures AllDigits(s)
    ensures s[0] == '0' ==> n == 0
  {
    if n < 10 then [DigitChar(n)]
    else NatToDecimal(n / 10) + [DigitChar(n % 10)]
  }

  /** `String(n)` for an integer `n`: a minus sign, then the digits. */
  function IntToDecimal(n: int): string {
    if n < 0 then "-" + NatToDecimal(-n) else NatToDecimal(n)
  }

  function ParseDigits(s: string): nat
    requires AllDigits(s)
  {
    if |s| == 0 then 0
    else ParseDigits(s[..|s| - 1]) * 10 + DigitValue(s[|s| - 1])
  }

  /** Reads back an optionally signed run of decimal digits; anything
      else is rejected. */
  function ParseInt(s: string): Option<int> {
    if |s| == 0 then None
    else if s[0] == '-' then
      if 1 < |s| && AllDigits(s[1..]) then Some(0 - ParseDigits(s[1..]) as int) else None
    else if AllDigits(s) then Some(ParseDigits(s))
    else None
  }

  lemma {:induction false} ParseNatToDecimal(n: nat)
    ensures ParseDigits(NatToDecimal(n)) == n
    decreases n
  {
    if n >= 10 {
      var s := NatToDecimal(n);
      assert s[..|s| - 1] == NatToDecimal(n / 10);
      ParseNatToDecimal(n / 10);
    }
  }

  lemma ParseSigned(d: string)
    requires 1 <= |d| && AllDigits(d)
    ensures ParseInt("-" + d) == Some(0 - ParseDigits(d) as int)
    ensures ParseInt(d) == Some(ParseDigits(d) as int)
  {
    var s := "-" + d;
    assert s[0] == '-' && s[1..] == d;
    assert d[0] != '-' by {
      assert IsDigit(d[0]);
    }
  }

  /** Every rendered integer reads back as itself. */
  lemma IntToDecimalRoundTrip(n: int)
    ensures ParseInt(IntToDecimal(n)) == Some(n)
  {
    var m: nat := if n < 0 then -n else n;
    ParseNatToDecimal(m);
    ParseSigned(NatToDecimal(m));
  }

  /** A rendered integer holds neither separator the export uses. */
  lemma IntToDecimalHasNoSeparator(n: int, sep: char)
    requires sep != '-' && !IsDigit(sep)
    ensures sep !in IntToDecimal(n)
  {
    var d := NatToDecimal(if n < 0 then -n else n);
    forall i | 0 <= i < |d|
      ensures d[i] != sep
    {
      assert IsDigit(d[i]);
    }
  }

  /** An integer from 1000 to 9999 renders as four digits and no sign. */
  lemma FourDigitRendering(n: int)
    requires 1000 <= n <= 9999
    ensures |IntToDecimal(n)| == 4 && AllDigits(IntToDecimal(n))
  {
    assert NatToDecimal(n) == NatToDecimal(n / 10) + [DigitChar(n % 10)];
    assert NatToDecimal(n / 10) == NatToDecimal(n / 100) + [DigitChar(n / 10 % 10)];
    assert NatToDecimal(n / 100) == NatToDecimal(n / 1000) + [DigitChar(n / 100 % 10)];
  }

  /** `s.padStart(width, fill)`: prefixes `fill` until `s` is `width`
      long; a string already that long is left as it is. */
  function PadStart(s: string, width: nat, fill: char): (r: string)
    ensures |s| >= width ==> r == s
    ensures |s| < width ==> |r| == width
    ensures |r| >= |s| && r[|r| - |s|..] == s
    ensures forall i :: 0 <= i < |r| - |s| ==> r[i] == fill
    decreases width - |s|
  {
    if |s| >= width then s else PadStart([fill] + s, width, fill)
  }

  /** `fields.join(sep)`. */
  function JoinWith(fields: seq<string>, sep: char): string
    decreases |fields|
  {
    if |fields| == 0 then ""
    else if |fields| == 1 then fields[0]
    else fields[0] + [sep] + JoinWith(fields[1..], sep)
  }

  /** `s.split(sep)`: the maximal runs between separators, so always at
      least one piece. */
  function SplitOn(s: string, sep: char): (pieces: seq<string>)
    ensures 1 <= |pieces|
    decreases |s|
  {
    if |s| == 0 then [""]
    else
      var rest := SplitOn(s[1..], sep);
      if s[0] == sep then [""] + rest
      else [[s[0]] + rest[0]] + rest[1..]
  }

  predicate NoneContains(fields: seq<string>, c: char) {
    forall i :: 0 <= i < |fields| ==> c !in fields[i]
  }

  lemma {:induction false} SplitPlain(f: string, t: string, sep: char)
    requires sep !in f
    ensures SplitOn(f + t, sep) == [f + SplitOn(t, sep)[0]] + SplitOn(t, sep)[1..]
    decreases |f|
  {
    if |f| > 0 {
      assert (f + t)[1..] == f[1..] + t;
      assert f[0] in f;
      SplitPlain(f[1..], t, sep);
      assert [f[0]] + (f[1..] + SplitOn(t, sep)[0]) == f + SplitOn(t, sep)[0];
    } else {
      var pieces := SplitOn(t, sep);
      assert f + t == t && f + pieces[0] == pieces[0];
      assert pieces == [pieces[0]] + pieces[1..];
    }
  }

  /** Splitting a join recovers the fields, provided no field holds the
      separator; `join` and `split` are inverse on such field lists. */
  lemma {:induction false} SplitJoin(fields: seq<string>, sep: char)
    requires 1 <= |fields|
    requires NoneContains(fields, sep)
    ensures SplitOn(JoinWith(fields, sep), sep) == fields
    decreases |fields|
  {
    if |fields| == 1 {
      SplitPlain(fields[0], "", sep);
      assert fields[0] + "" == fields[0];
    } else {
      var tail := JoinWith(fields[1..], sep);
      SplitJoin(fields[1..], sep);
      assert JoinWith(fields, sep) == fields[0] + ([sep] + tail);
      SplitPlain(fields[0], [sep] + tail, sep);
      assert ([sep] + tail)[1..] == tail;
      assert SplitOn([sep] + tail, sep) == [""] + SplitOn(tail, sep);
      assert fields[0] + "" == fields[0];
      assert fields == [fields[0]] + fields[1..];
    }
  }
}
