/** Decimal numbers as C text: what "%d" prints and what strtol and sscanf read. */
module DecimalText {
  import opened Basics

  const INT_MIN: int := -0x8000_0000
  const INT_MAX: int := 0x7FFF_FFFF

  predicate IsDigit(c: char) { '0' <= c <= '9' }

  predicate IsSpace(c: char) { c == ' ' || '\t' <= c <= '\r' }

  function DigitValue(c: char): nat
    requires IsDigit(c)
  {
    c as int - '0' as int
  }

  function Digit(d: nat): (c: char)
    requires d < 10
    ensures IsDigit(c) && DigitValue(c) == d
  {
    ('0' as int + d) as char
  }

  predicate AllDigits(s: string) { forall i :: 0 <= i < |s| ==> IsDigit(s[i]) }

  function Digits(n: nat): (s: string)
    ensures |s| >= 1 && AllDigits(s)
  {
    if n < 10 then [Digit(n)] else Digits(n / 10) + [Digit(n % 10)]
  }

  function Sign(v: int): string {
    if v < 0 then "-" else ""
  }

  function Abs(v: int): nat {
    if v < 0 then -v else v
  }

  function Print(v: int): string {
    Sign(v) + Digits(Abs(v))
  }

  function Value(s: string): nat
    requires AllDigits(s)
  {
    if s == [] then 0 else Value(s[..|s| - 1]) * 10 + DigitValue(s[|s| - 1])
  }

  lemma {:induction false} ValueOfDigits(n: nat)
    ensures Value(Digits(n)) == n
  {
    if n < 10 {
      assert Digits(n)[..0] == [];
    } else {
      ValueOfDigits(n / 10);
      var d := Digits(n);
      assert d[..|d| - 1] == Digits(n / 10);
    }
  }

  /** The end of the run of spaces, or of digits, that starts at i. */
  function SpacesEnd(s: string, i: nat): (e: nat)
    requires i <= |s|
    ensures i <= e <= |s| && (e < |s| ==> !IsSpace(s[e]))
    decreases |s| - i
  {
    if i < |s| && IsSpace(s[i]) then SpacesEnd(s, i + 1) else i
  }

  function DigitsEnd(s: string, i: nat): (e: nat)
    requires i <= |s|
    ensures i <= e <= |s| && AllDigits(s[i..e]) && (e < |s| ==> !IsDigit(s[e]))
    decreases |s| - i
  {
    if i < |s| && IsDigit(s[i]) then
      var e := DigitsEnd(s, i + 1);
      assert s[i..e] == [s[i]] + s[i + 1..e];
      e
    else i
  }

  /** Read one decimal integer from i on: its value and where it ends, or nothing if there is no digit. */
  function Scan(s: string, i: nat): (r: Option<(int, nat)>)
    requires i <= |s|
    ensures r.Some? ==> i < r.value.1 <= |s|
  {
    var start := SpacesEnd(s, i);
    if start < |s| && s[start] == '-' then ScanDigits(s, start + 1, true)
    else if start < |s| && s[start] == '+' then ScanDigits(s, start + 1, false)
    else ScanDigits(s, start, false)
  }

  function ScanDigits(s: string, from: nat, negative: bool): (r: Option<(int, nat)>)
    requires from <= |s|
    ensures r.Some? ==> from < r.value.1 <= |s|
  {
    var end := DigitsEnd(s, from);
    if end == from then None
    else
      var v: int := Value(s[from..end]);
      Some((if negative then -v else v, end))
  }

  /** strtol with all its checks: one number in the range of a 32-bit long, and nothing behind it. */
  function ParseLong(s: string): Option<int> {
    match Scan(s, 0)
    case None => None
    case Some((v, end)) => if end == |s| && INT_MIN <= v <= INT_MAX then Some(v) else None
  }

  lemma {:induction false} DigitsEndAt(s: string, i: nat, e: nat)
    requires i <= e <= |s| && AllDigits(s[i..e]) && (e < |s| ==> !IsDigit(s[e]))
    ensures DigitsEnd(s, i) == e
    decreases e - i
  {
    if i < e {
      assert s[i] == s[i..e][0];
      assert s[i + 1..e] == s[i..e][1..];
      DigitsEndAt(s, i + 1, e);
    }
  }

  lemma ScanAt(s: string, i: nat, negative: bool)
    requires i < |s| && if negative then s[i] == '-' else IsDigit(s[i])
    ensures Scan(s, i) == ScanDigits(s, if negative then i + 1 else i, negative)
  {
  }

  /** The digits of n stand at `from` and end at `end`. */
  ghost predicate DigitsAt(s: string, from: nat, n: nat, end: nat) {
    from <= end <= |s| && s[from..end] == Digits(n) && (end < |s| ==> !IsDigit(s[end]))
  }

  lemma ScanDigitsAt(s: string, from: nat, n: nat, end: nat, negative: bool)
    requires DigitsAt(s, from, n, end)
    ensures ScanDigits(s, from, negative) == Some((if negative then 0 - n else n, end))
  {
    DigitsEndAt(s, from, end);
    ValueOfDigits(n);
  }

  lemma ScanSigned(s: string, from: nat, v: int, end: nat)
    requires DigitsAt(s, from + |Sign(v)|, Abs(v), end) && (v < 0 ==> s[from] == '-')
    ensures Scan(s, from) == Some((v, end))
  {
    var digits := from + |Sign(v)|;
    assert s[digits] == s[digits..end][0];
    ScanAt(s, from, v < 0);
    ScanDigitsAt(s, digits, Abs(v), end, v < 0);
  }

  /** A printed number is read back, wherever it stands, up to the first character that is no digit. */
  lemma ScanPrinted(before: string, v: int, rest: string)
    requires rest != [] ==> !IsDigit(rest[0])
    ensures Scan(before + Print(v) + rest, |before|) == Some((v, |before| + |Print(v)|))
  {
    var s, end := before + Print(v) + rest, |before| + |Print(v)|;
    PrintedAt(s, before, v, rest, end);
    ScanSigned(s, |before|, v, end);
  }

  lemma PrintedAt(s: string, before: string, v: int, rest: string, end: nat)
    requires s == before + Print(v) + rest && end == |before| + |Print(v)| && (rest != [] ==> !IsDigit(rest[0]))
    ensures DigitsAt(s, |before| + |Sign(v)|, Abs(v), end) && (v < 0 ==> s[|before|] == '-')
  {
    assert s[|before|..end] == Print(v);
    assert s[|before| + |Sign(v)|..end] == Print(v)[|Sign(v)|..] == Digits(Abs(v));
    assert end < |s| ==> s[end] == rest[0];
    assert s[|before|] == Print(v)[0];
  }

  /** Printed numbers parse back exactly in the range of 32 bits. */
  lemma ParsePrinted(v: int)
    ensures ParseLong(Print(v)) == if -2147483648 <= v <= 2147483647 then Some(v) else None
  {
    ScanPrinted("", v, "");
    assert "" + Print(v) + "" == Print(v);
  }

  /** Anything behind the number is refused. */
  lemma ParseTrailing(v: int, c: char, rest: string)
    requires !('0' <= c <= '9')
    ensures ParseLong(Print(v) + [c] + rest).None?
  {
    ScanPrinted("", v, [c] + rest);
    assert "" + Print(v) + ([c] + rest) == Print(v) + [c] + rest;
  }

  lemma {:induction false} SpacesEndAt(s: string, i: nat, e: nat)
    requires i <= e <= |s| && (forall k :: i <= k < e ==> IsSpace(s[k])) && (e < |s| ==> !IsSpace(s[e]))
    ensures SpacesEnd(s, i) == e
    decreases e - i
  {
    if i < e {
      SpacesEndAt(s, i + 1, e);
    }
  }

  /** White space and a plus sign in front of a number are passed over. */
  lemma ParseSpaced(gap: string, n: nat)
    requires n <= 2147483647 && forall k :: 0 <= k < |gap| ==> gap[k] == ' ' || 9 <= gap[k] as int <= 13
    ensures ParseLong(gap + "+" + Digits(n)) == Some(n)
  {
    var s, at := gap + "+" + Digits(n), |gap|;
    assert forall k :: 0 <= k < at ==> s[k] == gap[k];
    assert s[at] == '+';
    SpacesEndAt(s, 0, at);
    assert s[at + 1..|s|] == Digits(n);
    ScanDigitsAt(s, at + 1, n, |s|, false);
  }

  /** The notation is decimal: a digit more is ten times as much. */
  lemma Decimal(n: nat, d: nat)
    requires 1 <= n && d < 10
    ensures Digits(10 * n + d) == Digits(n) + ["0123456789"[d]] && Digits(d) == ["0123456789"[d]]
    ensures Print(0 - n) == "-" + Digits(n) && Print(n) == Digits(n)
  {
  }
}
