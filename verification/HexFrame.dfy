/** The hexadecimal frame text of rs485.c: the parser of the send command and the dump it prints. */
module HexFrame {
  import opened CText

  type Byte = b: int | 0 <= b < 256 witness 0

  function Nibble(c: char): (v: int)
    ensures -1 <= v < 16
  {
    if '0' <= c <= '9' then c as int - '0' as int
    else if 'a' <= c <= 'f' then c as int - 'a' as int + 10
    else if 'A' <= c <= 'F' then c as int - 'A' as int + 10
    else -1
  }

  predicate IsSeparator(c: char) { c == ' ' || c == '\t' || c == ',' || c == '-' }

  // ---------------------------------------------------------------------------------------------
  // What a text means
  // ---------------------------------------------------------------------------------------------

  /** The text is the bytes in order, each as two hexadecimal digits of either case, with any
      separators before each byte. */
  predicate Renders(text: string, bytes: seq<Byte>)
    decreases |text|
  {
    if text != [] && IsSeparator(text[0]) then Renders(text[1..], bytes)
    else if bytes == [] then text == []
    else
      && |text| >= 2 && Nibble(text[0]) >= 0 && Nibble(text[1]) >= 0
      && bytes[0] == Nibble(text[0]) * 16 + Nibble(text[1])
      && Renders(text[2..], bytes[1..])
  }

  /** The parser as a function: the bytes of the longest readable beginning, `max` at most. */
  function Parse(text: string, max: nat): (out: seq<Byte>)
    ensures |out| <= max
    decreases |text|
  {
    if max == 0 || text == [] then []
    else if IsSeparator(text[0]) then Parse(text[1..], max)
    else if Nibble(text[0]) < 0 || |text| < 2 || Nibble(text[1]) < 0 then []
    else [Nibble(text[0]) * 16 + Nibble(text[1])] + Parse(text[2..], max - 1)
  }

  // ---------------------------------------------------------------------------------------------
  // The parser
  // ---------------------------------------------------------------------------------------------

  /** The bytes done so far and the text from i on make up the result. */
  ghost predicate Ahead(text: string, max: nat, done: seq<Byte>, i: nat) {
    i <= |text| && |done| <= max && Parse(text, max) == done + Parse(text[i..], max - |done|)
  }

  method SkipSeparators(text: string, from: nat, ghost max: nat, ghost done: seq<Byte>) returns (i: nat)
    requires Ahead(text, max, done, from)
    ensures from <= i <= |text| && !IsSeparator(At(text, i)) && Ahead(text, max, done, i)
  {
    i := from;
    while IsSeparator(At(text, i))
      invariant from <= i <= |text| && Ahead(text, max, done, i)
      decreases |text| - i
    {
      AheadSkip(text, max, done, i);
      i := i + 1;
    }
  }

  lemma AheadSkip(text: string, max: nat, done: seq<Byte>, i: nat)
    requires Ahead(text, max, done, i) && i < |text| && IsSeparator(text[i])
    ensures Ahead(text, max, done, i + 1)
  {
    assert text[i..][1..] == text[i + 1..];
  }

  lemma AheadStep(text: string, max: nat, done: seq<Byte>, i: nat)
    requires Ahead(text, max, done, i) && |done| < max && i + 2 <= |text| && !IsSeparator(text[i])
    requires Nibble(text[i]) >= 0 && Nibble(text[i + 1]) >= 0
    ensures Ahead(text, max, done + [Nibble(text[i]) * 16 + Nibble(text[i + 1])], i + 2)
  {
    assert text[i..][2..] == text[i + 2..];
  }

  /** No byte can be read at i. */
  predicate Stuck(text: string, i: nat) {
    i <= |text| && !IsSeparator(At(text, i)) &&
    (i == |text| || Nibble(text[i]) < 0 || Nibble(At(text, i + 1)) < 0)
  }

  lemma AheadDone(text: string, max: nat, done: seq<Byte>, i: nat)
    requires Ahead(text, max, done, i) && (|done| == max || Stuck(text, i))
    ensures Parse(text, max) == done
  {
    assert Parse(text[i..], max - |done|) == [];
  }

  /** Parse into a buffer; never past the terminator, never past the buffer. */
  method HexStrToBytes(text: string, out: array<Byte>, maxLen: nat) returns (len: nat)
    requires CString(text) && maxLen <= out.Length
    modifies out
    ensures len <= maxLen && out[..len] == Parse(text, maxLen)
    ensures forall k :: len <= k < out.Length ==> out[k] == old(out[k])
  {
    len := 0;
    if maxLen == 0 {
      return;
    }
    var i := 0;
    ghost var done: seq<Byte> := [];
    assert Ahead(text, maxLen, done, i) by {
      assert text[0..] == text;
    }
    while At(text, i) != NUL && len < maxLen
      invariant len <= maxLen && i <= |text|
      invariant out[..len] == done && Ahead(text, maxLen, done, i)
      invariant forall k :: len <= k < out.Length ==> out[k] == old(out[k])
      decreases |text| - i
    {
      i := SkipSeparators(text, i, maxLen, done);
      if At(text, i) == NUL {
        break;
      }
      var h := Nibble(text[i]);
      if h < 0 {
        break;
      }
      var l := Nibble(At(text, i + 1));
      if l < 0 {
        break;
      }
      AheadStep(text, maxLen, done, i);
      done := done + [h * 16 + l];
      out[len] := h * 16 + l;
      len := len + 1;
      i := i + 2;
    }
    AheadDone(text, maxLen, done, i);
  }

  // ---------------------------------------------------------------------------------------------
  // Main results
  // ---------------------------------------------------------------------------------------------

  /** Parsing inverts every rendering, as far as the buffer goes. */
  lemma {:induction false} ParseRendered(text: string, bytes: seq<Byte>, max: nat)
    requires Renders(text, bytes)
    ensures Parse(text, max) == if |bytes| <= max then bytes else bytes[..max]
    decreases |text|
  {
    if max > 0 && text != [] {
      if IsSeparator(text[0]) {
        ParseRendered(text[1..], bytes, max);
      } else {
        ParseRendered(text[2..], bytes[1..], max - 1);
      }
    }
  }

  /** Whatever the text, the bytes parsed are those that some beginning of it renders. */
  lemma {:induction false} ParsedPrefix(text: string, max: nat) returns (k: nat)
    ensures k <= |text| && Renders(text[..k], Parse(text, max))
    decreases |text|
  {
    k := 0;
    if max > 0 && text != [] {
      if IsSeparator(text[0]) {
        var k' := ParsedPrefix(text[1..], max);
        k := k' + 1;
        assert text[..k][1..] == text[1..][..k'];
      } else if Nibble(text[0]) >= 0 && |text| >= 2 && Nibble(text[1]) >= 0 {
        var k' := ParsedPrefix(text[2..], max - 1);
        k := k' + 2;
        assert text[..k][2..] == text[2..][..k'];
      }
    }
  }

  /** And they are the most: what any beginning of the text renders, if it fits the buffer, is part of them. */
  lemma {:induction false} ParsedMost(text: string, max: nat, k: nat, bytes: seq<Byte>)
    requires k <= |text| && Renders(text[..k], bytes) && |bytes| <= max
    ensures bytes <= Parse(text, max)
    decreases |text|
  {
    if bytes != [] {
      if IsSeparator(text[0]) {
        assert text[..k][1..] == text[1..][..k - 1];
        ParsedMost(text[1..], max, k - 1, bytes);
      } else {
        assert text[..k][2..] == text[2..][..k - 2];
        ParsedMost(text[2..], max - 1, k - 2, bytes[1..]);
      }
    }
  }

  const LOWER: string := "0123456789abcdef"
  const UPPER: string := "0123456789ABCDEF"

  /** The digits are read as their places. */
  ghost predicate Reads(digits: string) {
    |digits| == 16 && forall v :: 0 <= v < 16 ==> Nibble(digits[v]) == v && !IsSeparator(digits[v])
  }

  /** The sixteen digits are read in both cases, and no other character is. */
  lemma DigitsExactly(c: char)
    ensures Reads(LOWER) && Reads(UPPER)
    ensures Nibble(c) != -1 ==> c in LOWER || c in UPPER
  {
    if '0' <= c <= '9' {
      assert LOWER[c as int - '0' as int] == c;
    } else if 'a' <= c <= 'f' {
      assert LOWER[c as int - 'a' as int + 10] == c;
    } else if 'A' <= c <= 'F' {
      assert UPPER[c as int - 'A' as int + 10] == c;
    }
  }

  /** The bytes as pairs of digits with `gap` before each. */
  function Written(bytes: seq<Byte>, digits: string, gap: string): string
    requires |digits| == 16
  {
    if bytes == [] then ""
    else gap + [digits[bytes[0] / 16], digits[bytes[0] % 16]] + Written(bytes[1..], digits, gap)
  }

  predicate AllSeparators(gap: string) { forall i :: 0 <= i < |gap| ==> gap[i] in " \t,-" }

  lemma {:induction false} SkipsGap(gap: string, text: string, bytes: seq<Byte>)
    requires Renders(text, bytes) && AllSeparators(gap)
    ensures Renders(gap + text, bytes)
  {
    if gap == [] {
      assert gap + text == text;
    } else {
      assert gap[0] in " \t,-";
      SkipsGap(gap[1..], text, bytes);
      assert (gap + text)[1..] == gap[1..] + text;
    }
  }

  lemma PairRenders(high: char, low: char, rest: string, bytes: seq<Byte>)
    requires bytes != [] && Renders(rest, bytes[1..]) && !IsSeparator(high)
    requires Nibble(high) == bytes[0] / 16 && Nibble(low) == bytes[0] % 16
    ensures Renders([high, low] + rest, bytes)
  {
    assert ([high, low] + rest)[2..] == rest;
  }

  lemma {:induction false} WrittenRenders(bytes: seq<Byte>, digits: string, gap: string)
    requires Reads(digits) && AllSeparators(gap)
    ensures Renders(Written(bytes, digits, gap), bytes)
  {
    if bytes != [] {
      var high, low, rest := digits[bytes[0] / 16], digits[bytes[0] % 16], Written(bytes[1..], digits, gap);
      WrittenRenders(bytes[1..], digits, gap);
      PairRenders(high, low, rest, bytes);
      SkipsGap(gap, [high, low] + rest, bytes);
      assert Written(bytes, digits, gap) == gap + ([high, low] + rest);
    }
  }

  lemma {:induction false} StopsBehind(text: string, bytes: seq<Byte>, c: char, rest: string, max: nat)
    requires Renders(text, bytes) && Nibble(c) < 0 && !IsSeparator(c) && |bytes| <= max
    ensures Parse(text + [c] + rest, max) == bytes
    decreases |text|
  {
    var all := text + [c] + rest;
    if text != [] && IsSeparator(text[0]) {
      assert all[1..] == text[1..] + [c] + rest;
      StopsBehind(text[1..], bytes, c, rest, max);
    } else if text != [] {
      assert all[2..] == text[2..] + [c] + rest;
      StopsBehind(text[2..], bytes[1..], c, rest, max - 1);
    }
  }

  /** Bytes written in either case, with any run of blanks, tabs, commas and dashes before each, are
      parsed back, up to the capacity or to the first character that is neither digit nor one of these. */
  lemma ParseWritten(bytes: seq<Byte>, digits: string, gap: string, max: nat, c: char, rest: string)
    requires digits == LOWER || digits == UPPER
    requires AllSeparators(gap) && c !in LOWER && c !in UPPER && c !in " \t,-"
    ensures Parse(Written(bytes, digits, gap), max) == if |bytes| <= max then bytes else bytes[..max]
    ensures |bytes| <= max ==> Parse(Written(bytes, digits, gap) + [c] + rest, max) == bytes
  {
    var text := Written(bytes, digits, gap);
    DigitsExactly(c);
    WrittenRenders(bytes, digits, gap);
    ParseRendered(text, bytes, max);
    if |bytes| <= max {
      StopsBehind(text, bytes, c, rest, max);
    }
  }

  /** The dump: " %02X" for every byte. */
  function Dump(bytes: seq<Byte>): string {
    Written(bytes, UPPER, " ")
  }

  /** The parser undoes the dump. */
  lemma ParseDump(bytes: seq<Byte>, max: nat)
    requires |bytes| <= max
    ensures Parse(Dump(bytes), max) == bytes
  {
    assert '.' !in LOWER && '.' !in UPPER;
    ParseWritten(bytes, UPPER, " ", max, '.', "");
  }
}
