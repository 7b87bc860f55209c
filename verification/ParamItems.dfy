/** The parameters of flash_param.c: how a value is written to the key/value store, how it is read
    back, and what it looks like in RAM. Bytes are characters 0 to 255. */
module ParamItems {
  import opened Basics
  import opened CText
  import opened DecimalText

  type Bytes = string

  const STRING_MAX: nat := 128

  datatype Kind = Int | Str | Blob

  /** A value as the caller passes it; a string does not include its terminator. */
  datatype Value = IntV(v: int) | StrV(s: Bytes) | BlobV(b: Bytes)

  datatype Item = Item(key: string, kind: Kind, def: Value, ramSize: nat, group: nat)

  /** The value is one of the item's type. */
  predicate Matches(it: Item, v: Value) {
    match v
    case IntV(n) => it.kind == Int && INT_MIN <= n <= INT_MAX
    case StrV(s) => it.kind == Str && CString(s)
    case BlobV(_) => it.kind == Blob
  }

  function Min(a: nat, b: nat): nat { if a < b then a else b }

  function Zeros(n: nat): (z: Bytes)
    ensures |z| == n && forall i :: 0 <= i < n ==> z[i] == NUL
  {
    seq(n, i => NUL)
  }

  function LowByte(v: int): (c: char)
    ensures c as int == v % 256
  {
    (v % 256) as char
  }

  /** The four bytes of an int, least significant first. */
  function IntBytes(v: int): (b: Bytes)
    ensures |b| == 4
  {
    [LowByte(v), LowByte(v / 256), LowByte(v / 256 / 256), LowByte(v / 256 / 256 / 256)]
  }

  /** The int that four bytes in RAM stand for. */
  function IntOf(b: Bytes): int
    requires |b| == 4
  {
    var u := b[0] as int + 256 * (b[1] as int + 256 * (b[2] as int + 256 * (b[3] as int)));
    if u > INT_MAX then u - 0x1_0000_0000 else u
  }

  lemma IntRead(v: int)
    requires INT_MIN <= v <= INT_MAX
    ensures IntOf(IntBytes(v)) == v
  {
    TopRange(v);
    var top := v / 256 / 256 / 256;
    assert top % 256 == if top < 0 then top + 256 else top;
  }

  lemma SameByte(v: int, w: int)
    requires LowByte(v) == LowByte(w) && v / 256 == w / 256
    ensures v == w
  {
  }

  lemma SameTop(v: int, w: int)
    requires -128 <= v <= 127 && -128 <= w <= 127 && LowByte(v) == LowByte(w)
    ensures v == w
  {
  }

  lemma TopRange(v: int)
    requires INT_MIN <= v <= INT_MAX
    ensures -128 <= v / 256 / 256 / 256 <= 127
  {
  }

  lemma IntBytesInjective(v: int, w: int)
    requires INT_MIN <= v <= INT_MAX && INT_MIN <= w <= INT_MAX && IntBytes(v) == IntBytes(w)
    ensures v == w
  {
    var x, y := IntBytes(v), IntBytes(w);
    assert x[0] == y[0] && x[1] == y[1] && x[2] == y[2] && x[3] == y[3];
    TopRange(v);
    TopRange(w);
    SameTop(v / 256 / 256 / 256, w / 256 / 256 / 256);
    SameByte(v / 256 / 256, w / 256 / 256);
    SameByte(v / 256, w / 256);
    SameByte(v, w);
  }

  // ---------------------------------------------------------------------------------------------
  // RAM and store forms
  // ---------------------------------------------------------------------------------------------

  /** A bounded string copy with terminator into a buffer of `size` bytes. */
  function Padded(s: Bytes, size: nat): (r: Bytes)
    requires size >= 1
    ensures |r| == size
  {
    var n := Min(|s|, size - 1);
    s[..n] + Zeros(size - n)
  }

  /** The C string found in a buffer. */
  function StringOf(buffer: Bytes): Bytes {
    if buffer == [] || buffer[0] == NUL then [] else [buffer[0]] + StringOf(buffer[1..])
  }

  lemma {:induction false} StringRead(s: Bytes, rest: Bytes)
    requires CString(s) && rest != [] && rest[0] == NUL
    ensures StringOf(s + rest) == s
  {
    if s == [] {
      assert s + rest == rest;
    } else {
      StringRead(s[1..], rest);
      assert (s + rest)[1..] == s[1..] + rest;
    }
  }

  /** The copy always leaves a terminated string: the value, cut to the buffer less its terminator. */
  lemma PaddedRead(s: Bytes, size: nat)
    requires size >= 1 && CString(s)
    ensures StringOf(Padded(s, size)) == s[..Min(|s|, size - 1)]
  {
    var n := Min(|s|, size - 1);
    StringRead(s[..n], Zeros(size - n));
  }

  /** The RAM buffer after the value was copied into it. */
  function Image(it: Item, v: Value, was: Bytes): (r: Bytes)
    requires Sized(it) && Matches(it, v) && |was| == it.ramSize
    ensures |r| == it.ramSize
  {
    match v
    case IntV(n) => IntBytes(n) + was[4..]
    case StrV(s) => Padded(s, it.ramSize)
    case BlobV(b) => var n := Min(|b|, it.ramSize); b[..n] + Zeros(it.ramSize - n)
  }

  /** The buffer is large enough for the type. */
  predicate Sized(it: Item) {
    if it.kind == Int then it.ramSize >= 4 else it.ramSize >= 1
  }

  function Encode(v: Value): Bytes {
    match v
    case IntV(n) => Print(n)
    case StrV(s) => s
    case BlobV(b) => b
  }

  predicate Printable(s: Bytes) { forall i :: 0 <= i < |s| ==> ' ' <= s[i] <= '~' }

  /** What the store returns for a string read: at most 128 bytes, and only if they are printable and not empty. */
  function StoredString(b: Bytes): Option<Bytes> {
    var s := b[..Min(|b|, STRING_MAX)];
    if s != [] && Printable(s) then Some(s) else None
  }

  /** Reading an item from its stored bytes: the new RAM buffer, or nothing if the read fails. */
  function Load(it: Item, b: Bytes, was: Bytes): (r: Option<Bytes>)
    requires Sized(it) && |was| == it.ramSize
    ensures r.Some? ==> |r.value| == it.ramSize
  {
    match it.kind
    case Int =>
      (match StoredString(b)
       case None => None
       case Some(s) =>
         match ParseLong(s)
         case None => None
         case Some(n) => Some(IntBytes(n) + was[4..]))
    case Str =>
      (match StoredString(b)
       case None => None
       case Some(s) => Some(Padded(s, it.ramSize)))
    case Blob =>
      if b == [] then None
      else var n := Min(|b|, it.ramSize); Some(b[..n] + was[n..])
  }

  // ---------------------------------------------------------------------------------------------
  // Agreement
  // ---------------------------------------------------------------------------------------------

  /** RAM is the typed view of the stored bytes: the number they spell, the string cut to the buffer
      (or to the 128 bytes the store reads), the common prefix of a blob. */
  ghost predicate Agrees(it: Item, ram: Bytes, b: Bytes)
    requires Sized(it)
  {
    && |ram| == it.ramSize
    && match it.kind
       case Int =>
         && StoredString(b).Some? && ParseLong(StoredString(b).value).Some?
         && ram[..4] == IntBytes(ParseLong(StoredString(b).value).value)
       case Str => ram == Padded(b, it.ramSize) || ram == Padded(b[..Min(|b|, STRING_MAX)], it.ramSize)
       case Blob => var n := Min(|b|, it.ramSize); ram[..n] == b[..n]
  }

  lemma LoadAgrees(it: Item, b: Bytes, was: Bytes)
    requires Sized(it) && |was| == it.ramSize && Load(it, b, was).Some?
    ensures Agrees(it, Load(it, b, was).value, b)
  {
  }

  function TenTo(k: nat): nat {
    if k == 0 then 1 else 10 * TenTo(k - 1)
  }

  lemma {:induction false} DigitsLength(n: nat, k: nat)
    requires 1 <= k && n < TenTo(k)
    ensures |Digits(n)| <= k
  {
    if k > 1 && n >= 10 {
      DigitsLength(n / 10, k - 1);
    }
  }

  lemma PrintedIsRead(v: int)
    requires INT_MIN <= v <= INT_MAX
    ensures StoredString(Print(v)) == Some(Print(v)) && ParseLong(Print(v)) == Some(v)
  {
    ParsePrinted(v);
    assert TenTo(5) == 100000 && TenTo(10) == 10000000000;
    DigitsLength(Abs(v), 10);
    var p := Print(v);
    assert |p| <= 11;
    assert p[..|p|] == p;
    assert Printable(p) by {
      forall i | 0 <= i < |p| ensures ' ' <= p[i] <= '~' {
        if v < 0 && i > 0 {
          assert p[i] == Digits(Abs(v))[i - 1];
        }
      }
    }
  }

  lemma WrittenAgrees(it: Item, v: Value, was: Bytes)
    requires Sized(it) && Matches(it, v) && |was| == it.ramSize
    ensures Agrees(it, Image(it, v, was), Encode(v))
  {
    if v.IntV? {
      PrintedIsRead(v.v);
    }
  }

  // ---------------------------------------------------------------------------------------------
  // What the two forms mean
  // ---------------------------------------------------------------------------------------------

  /** RAM and stored bytes each stand for the value by themselves: an int as its decimal text and as the
      int in RAM, a string as itself and as the C string that fits the buffer, a blob as its bytes and as
      those that fit with zeros behind. */
  ghost predicate Shows(it: Item, v: Value, stored: Bytes, ram: Bytes, was: Bytes)
    requires |was| == it.ramSize
  {
    && |ram| == it.ramSize
    && match v
       case IntV(n) => 4 <= it.ramSize && ParseLong(stored) == Some(n) && IntOf(ram[..4]) == n && ram[4..] == was[4..]
       case StrV(s) => 1 <= it.ramSize && stored == s && StringOf(ram) == s[..Min(|s|, it.ramSize - 1)]
       case BlobV(b) => stored == b && forall k :: 0 <= k < |ram| ==> ram[k] == if k < |b| then b[k] else NUL
  }

  lemma WrittenShows(it: Item, v: Value, was: Bytes)
    requires Sized(it) && Matches(it, v) && |was| == it.ramSize
    ensures Shows(it, v, Encode(v), Image(it, v, was), was)
  {
    match v
    case IntV(n) =>
      ParsePrinted(n);
      IntRead(n);
      assert Image(it, v, was)[..4] == IntBytes(n);
    case StrV(s) => PaddedRead(s, it.ramSize);
    case BlobV(_) =>
  }

  /** Bytes that a string read accepts. */
  ghost predicate TextRead(b: Bytes, text: Bytes) {
    && text == b[..Min(|b|, 128)] && text != []
    && forall k :: 0 <= k < |text| ==> 0x20 <= text[k] as int <= 0x7E
  }

  /** Exactly which bytes can be read as an item, and what that leaves in RAM. */
  lemma LoadExactly(it: Item, b: Bytes, was: Bytes)
    requires Sized(it) && |was| == it.ramSize
    ensures var r, text := Load(it, b, was), b[..Min(|b|, 128)];
            match it.kind
            case Int =>
              && (r.Some? <==> TextRead(b, text) && ParseLong(text).Some?)
              && (r.Some? ==> r.value[..4] == IntBytes(ParseLong(text).value) && r.value[4..] == was[4..])
            case Str =>
              && (r.Some? <==> TextRead(b, text))
              && (r.Some? && CString(text) ==> StringOf(r.value) == text[..Min(|text|, it.ramSize - 1)])
            case Blob =>
              && (r.Some? <==> b != [])
              && (r.Some? ==> forall k :: 0 <= k < it.ramSize ==> r.value[k] == if k < |b| then b[k] else was[k])
  {
    var text := b[..Min(|b|, 128)];
    assert text != [] ==> (Printable(text) <==> TextRead(b, text));
    if it.kind == Str && CString(text) {
      PaddedRead(text, it.ramSize);
    }
  }

  // ---------------------------------------------------------------------------------------------
  // What survives a restart
  // ---------------------------------------------------------------------------------------------

  /** Reading back the stored form succeeds. */
  predicate Readable(v: Value) {
    match v
    case IntV(_) => true
    case StrV(s) => s != [] && Printable(s[..Min(|s|, STRING_MAX)])
    case BlobV(b) => b != []
  }

  /** The stored form is read back whole, as far as the buffer can show it. */
  predicate Complete(it: Item, v: Value) {
    v.StrV? ==> |v.s| <= STRING_MAX || it.ramSize <= STRING_MAX + 1
  }

  lemma ReadableLoads(it: Item, v: Value, was: Bytes)
    requires Sized(it) && Matches(it, v) && |was| == it.ramSize
    ensures Load(it, Encode(v), was).Some? <==> Readable(v)
  {
    if v.IntV? {
      PrintedIsRead(v.v);
    }
  }

  /** What a successful start leaves in RAM for stored bytes `b`: what is read, or else the default. */
  function Recovered(it: Item, b: Bytes, was: Bytes): (r: Bytes)
    requires Sized(it) && Matches(it, it.def) && |was| == it.ramSize
    ensures |r| == it.ramSize
  {
    match Load(it, b, was)
    case Some(r) => r
    case None => Image(it, it.def, was)
  }

  /** From cleared RAM, a stored value comes back exactly as it was set if it is readable and complete.
      If it is readable and too long for one string read it comes back cut; if it is not readable,
      the default comes back. */
  lemma RestoredExactly(it: Item, v: Value)
    requires Sized(it) && Matches(it, v) && Matches(it, it.def)
    ensures var z := Zeros(it.ramSize);
            && (Readable(v) ==> (Recovered(it, Encode(v), z) == Image(it, v, z) <==> Complete(it, v)))
            && (!Readable(v) ==> Recovered(it, Encode(v), z) == Image(it, it.def, z))
  {
    match v
    case IntV(n) => PrintedIsRead(n);
    case StrV(s) =>
      if Readable(v) {
        CutString(s, it.ramSize);
      }
    case BlobV(b) =>
      var n := Min(|b|, it.ramSize);
      assert Zeros(it.ramSize)[n..] == Zeros(it.ramSize - n);
  }

  lemma CutString(s: Bytes, size: nat)
    requires size >= 1 && CString(s)
    ensures Padded(s[..Min(|s|, STRING_MAX)], size) == Padded(s, size) <==> |s| <= STRING_MAX || size <= STRING_MAX + 1
  {
    var t := s[..Min(|s|, STRING_MAX)];
    if |s| <= STRING_MAX {
      assert t == s;
    } else if size <= STRING_MAX + 1 {
      assert t[..size - 1] == s[..size - 1];
    } else {
      assert Padded(t, size)[STRING_MAX] == NUL && Padded(s, size)[STRING_MAX] == s[STRING_MAX];
    }
  }

  // ---------------------------------------------------------------------------------------------
  // The default table
  // ---------------------------------------------------------------------------------------------

  /** The default as it is registered with the store: for an int its raw bytes, not its decimal text. */
  function RawDefault(it: Item): Bytes {
    match it.def
    case IntV(n) => IntBytes(n)
    case StrV(s) => s
    case BlobV(b) => b
  }

  lemma {:induction false} ValueBelow(s: string)
    requires AllDigits(s)
    ensures DecimalText.Value(s) < TenTo(|s|)
  {
    if s != [] {
      ValueBelow(s[..|s| - 1]);
    }
  }

  lemma {:induction false} TenToMonotone(a: nat, b: nat)
    requires a <= b
    ensures TenTo(a) <= TenTo(b)
  {
    if a < b {
      TenToMonotone(a, b - 1);
    }
  }

  /** Four characters spell no number beyond four digits. */
  lemma ShortNumber(s: string)
    requires |s| <= 4 && ParseLong(s).Some?
    ensures -10000 < ParseLong(s).value < 10000
  {
    var start := SpacesEnd(s, 0);
    var from := if start < |s| && (s[start] == '-' || s[start] == '+') then start + 1 else start;
    var digits := s[from..DigitsEnd(s, from)];
    ValueBelow(digits);
    TenToMonotone(|digits|, 4);
    assert TenTo(4) == 10000;
  }

  /** Four printable bytes are an int far beyond four digits. */
  lemma PrintableInt(v: int)
    requires INT_MIN <= v <= INT_MAX && Printable(IntBytes(v))
    ensures v >= 10000
  {
    TopRange(v);
    assert IntBytes(v)[3] == LowByte(v / 256 / 256 / 256);
  }

  /** A string read of these bytes gives a number. */
  predicate ReadsAsNumber(b: Bytes) {
    StoredString(b).Some? && ParseLong(StoredString(b).value).Some?
  }

  /** Reading an int's registered default back gives the default exactly when the raw bytes do not
      themselves read as a number. */
  lemma RawIntDefault(it: Item, was: Bytes)
    requires Sized(it) && it.kind == Int && Matches(it, it.def) && |was| == it.ramSize
    ensures Recovered(it, RawDefault(it), was) == Image(it, it.def, was) <==> !ReadsAsNumber(RawDefault(it))
  {
    var v := it.def.v;
    var b := IntBytes(v);
    assert b[..4] == b;
    if Load(it, b, was).Some? {
      var n := ParseLong(b).value;
      ShortNumber(b);
      PrintableInt(v);
      var r := Recovered(it, b, was);
      assert r[..4] == IntBytes(n) && Image(it, it.def, was)[..4] == IntBytes(v);
      if IntBytes(n) == IntBytes(v) {
        IntBytesInjective(n, v);
      }
    }
  }

  /** Such defaults exist: the int whose bytes spell "   5" comes back as 5. */
  lemma RawIntMisread(it: Item, was: Bytes)
    requires it.kind == Int && it.def == IntV(0x35202020) && it.ramSize == 4 && |was| == 4
    ensures Recovered(it, RawDefault(it), was) == IntBytes(5)
  {
    var b := IntBytes(0x35202020);
    assert b == "   5";
    assert b[..4] == b;
    assert SpacesEnd(b, 0) == 3 && DigitsEnd(b, 3) == 4;
    assert b[3..4] == "5" && "5"[..0] == "";
    assert DecimalText.Value("5") == 5;
    assert ParseLong(b) == Some(5);
  }

  /** A string of 129 bytes in a buffer of 200 comes back cut to 128. */
  lemma LongStringCut(it: Item, s: Bytes)
    requires it.kind == Str && it.def.StrV? && CString(it.def.s) && it.ramSize == 200
    requires |s| == 129 && CString(s) && Printable(s)
    ensures var z := Zeros(200);
            && Recovered(it, Encode(StrV(s)), z) == Image(it, StrV(s[..128]), z)
            && Recovered(it, Encode(StrV(s)), z) != Image(it, StrV(s), z)
  {
    RestoredExactly(it, StrV(s));
  }
}
