/** Splitting a modem response line into comma-separated fields (at_device_aiwb2.c). A line is a C
    string. */
module AtFields {
  import opened CText

  const FIELD_MAX: nat := 31

  predicate EndOfLine(c: char) { c == '\r' || c == '\n' }

  // ---------------------------------------------------------------------------------------------
  // Reference
  // ---------------------------------------------------------------------------------------------

  /** The text before the first carriage return or line feed. */
  function Text(line: string): string {
    if line == [] || EndOfLine(line[0]) then [] else [line[0]] + Text(line[1..])
  }

  /** All comma-separated tokens; an empty text is one empty token. */
  function Tokens(s: string): (t: seq<string>)
    ensures |t| >= 1
  {
    if s == [] then [[]]
    else
      var t := Tokens(s[1..]);
      if s[0] == ',' then [[]] + t else [[s[0]] + t[0]] + t[1..]
  }

  function Join(t: seq<string>): string
    requires |t| >= 1
  {
    if |t| == 1 then t[0] else t[0] + "," + Join(t[1..])
  }

  function Cut(s: string): string {
    if |s| <= FIELD_MAX then s else s[..FIELD_MAX]
  }

  function CutAll(t: seq<string>): (r: seq<string>)
    ensures |r| == |t| && forall i :: 0 <= i < |t| ==> r[i] == Cut(t[i])
  {
    seq(|t|, i requires 0 <= i < |t| => Cut(t[i]))
  }

  function First(t: seq<string>, n: int): seq<string> {
    if n <= 0 then [] else if |t| <= n then t else t[..n]
  }

  lemma {:induction false} JoinTokens(s: string)
    ensures Join(Tokens(s)) == s
  {
    if s != [] {
      var t := Tokens(s[1..]);
      JoinTokens(s[1..]);
      if s[0] == ',' {
        assert Tokens(s)[1..] == t;
      } else if |t| > 1 {
        assert Tokens(s)[1..] == t[1..];
      }
    }
  }

  /** With the join this fixes the tokens: none of them holds a comma. */
  lemma {:induction false} TokensHoldNoComma(s: string, i: nat)
    requires i < |Tokens(s)|
    ensures ',' !in Tokens(s)[i]
  {
    if s != [] {
      var t := Tokens(s[1..]);
      if s[0] == ',' {
        if i > 0 {
          TokensHoldNoComma(s[1..], i - 1);
        }
      } else {
        TokensHoldNoComma(s[1..], i);
      }
    }
  }

  /** The text is the longest beginning of the line without a line end. */
  lemma {:induction false} TextIsLongest(line: string)
    ensures var t := Text(line);
            && t <= line && (forall i :: 0 <= i < |t| ==> t[i] != '\r' && t[i] != '\n')
            && (|t| < |line| ==> line[|t|] == '\r' || line[|t|] == '\n')
  {
    if line != [] && !EndOfLine(line[0]) {
      TextIsLongest(line[1..]);
      var t := Text(line[1..]);
      assert |t| < |line[1..]| ==> line[1..][|t|] == line[|t| + 1];
    }
  }

  // ---------------------------------------------------------------------------------------------
  // The splitter
  // ---------------------------------------------------------------------------------------------

  predicate Plain(c: char) { c != NUL && c != ',' && !EndOfLine(c) }

  /** How the tokens of a rest of the line relate to the first character that ends a token. */
  lemma {:induction false} TokenStep(line: string, p: nat, q: nat)
    requires CString(line) && p <= q <= |line|
    requires forall i :: p <= i < q ==> Plain(line[i])
    requires !Plain(At(line, q))
    ensures Tokens(Text(line[p..]))[0] == line[p..q]
    ensures At(line, q) == ',' ==> Tokens(Text(line[p..]))[1..] == Tokens(Text(line[q + 1..]))
    ensures At(line, q) != ',' ==> |Tokens(Text(line[p..]))| == 1
    decreases q - p
  {
    var rest := line[p..];
    if p == q {
      if q < |line| && line[q] == ',' {
        assert Text(rest)[1..] == Text(rest[1..]) && rest[1..] == line[q + 1..];
      }
    } else {
      TokenStep(line, p + 1, q);
      assert rest[1..] == line[p + 1..] && Text(rest)[1..] == Text(rest[1..]);
      assert line[p..q] == [line[p]] + line[p + 1..q];
    }
  }

  function Remaining(line: string, p: nat, n: int): seq<string>
    requires p <= |line|
  {
    First(CutAll(Tokens(Text(line[p..]))), n)
  }

  /** What is still to come from position p is what is missing from the fields. */
  ghost predicate Pending(all: seq<string>, line: string, max: int, fields: seq<string>, p: nat) {
    p <= |line| && |fields| <= max && all == fields + Remaining(line, p, max - |fields|)
  }

  lemma FieldStep(all: seq<string>, line: string, max: int, fields: seq<string>, p: nat, q: nat, field: string)
    requires CString(line) && Pending(all, line, max, fields, p) && |fields| < max
    requires p <= q <= |line| && (forall i :: p <= i < q ==> Plain(line[i])) && !Plain(At(line, q))
    requires field == Cut(line[p..q])
    ensures At(line, q) == ',' ==> Pending(all, line, max, fields + [field], q + 1)
    ensures At(line, q) != ',' ==> fields + [field] == all
  {
    TokenStep(line, p, q);
    Cons(all, fields, Tokens(Text(line[p..])), max);
  }

  lemma Cons(all: seq<string>, fields: seq<string>, t: seq<string>, max: int)
    requires |fields| < max && |t| >= 1 && all == fields + First(CutAll(t), max - |fields|)
    ensures all == fields + [Cut(t[0])] + First(CutAll(t[1..]), max - |fields| - 1)
    ensures |t| == 1 ==> all == fields + [Cut(t[0])]
  {
    FirstCut(t, max - |fields|);
  }

  lemma FirstCut(t: seq<string>, n: int)
    requires |t| >= 1 && n >= 1
    ensures First(CutAll(t), n) == [Cut(t[0])] + First(CutAll(t[1..]), n - 1)
  {
    assert CutAll(t) == [Cut(t[0])] + CutAll(t[1..]);
  }

  method SplitFields(line: string, max: int) returns (field: seq<string>)
    requires CString(line)
    ensures field == if line == [] then [] else First(CutAll(Tokens(Text(line))), max)
    ensures line != [] && 0 < max ==> FirstTokens(field, Tokens(Text(line)), max)
  {
    field := [];
    if At(line, 0) == NUL {
      return;
    }
    if max <= 0 {
      return;
    }
    assert line[0..] == line;
    field := SplitLoop(line, max, First(CutAll(Tokens(Text(line))), max));
  }

  /** The fields are as many of the first tokens as there is room for, each up to its 31st character. */
  ghost predicate FirstTokens(field: seq<string>, tokens: seq<string>, max: nat) {
    && |field| == (if |tokens| < max then |tokens| else max)
    && forall k :: 0 <= k < |field| ==> field[k] == tokens[k][..if |tokens[k]| < 31 then |tokens[k]| else 31]
  }

  method SplitLoop(line: string, max: nat, ghost all: seq<string>) returns (field: seq<string>)
    requires CString(line) && 0 < max && Pending(all, line, max, [], 0)
    ensures field == all
  {
    field := [];
    var p := 0;
    while |field| < max
      invariant Pending(all, line, max, field, p)
      decreases max - |field|
    {
      var start := p;
      ghost var q;
      var text, more;
      text, p, more, q := OneField(line, p);
      FieldStep(all, line, max, field, start, q, text);
      field := field + [text];
      if !more {
        return;
      }
    }
  }

  /** One round: copy a field and step over what separates it from the next; `q` is where the field ends. */
  method OneField(line: string, start: nat) returns (text: string, p: nat, more: bool, ghost q: nat)
    requires CString(line) && start <= |line|
    ensures start <= q <= |line| && (forall i :: start <= i < q ==> Plain(line[i])) && !Plain(At(line, q))
    ensures text == Cut(line[start..q])
    ensures more <==> At(line, q) == ','
    ensures more ==> p == q + 1 <= |line|
  {
    text, p := TakeField(line, start);
    if At(line, p) == ',' {
      return text, p + 1, true, p;
    }
    if |text| == FIELD_MAX {
      p := SkipField(line, p);
      OverlongCut(line, start, p, text);
      if At(line, p) == ',' {
        return text, p + 1, true, p;
      }
    }
    return text, p, false, p;
  }

  lemma OverlongCut(line: string, start: nat, q: nat, text: string)
    requires start + FIELD_MAX <= q <= |line| && text == line[start..start + FIELD_MAX]
    ensures text == Cut(line[start..q])
  {
    assert line[start..q][..FIELD_MAX] == text;
  }

  /** Copy the plain characters of a field, 31 at most. */
  method TakeField(line: string, start: nat) returns (text: string, p: nat)
    requires start <= |line|
    ensures start <= p <= |line| && text == line[start..p] && |text| <= FIELD_MAX
    ensures forall i :: start <= i < p ==> Plain(line[i])
    ensures |text| < FIELD_MAX ==> !Plain(At(line, p))
  {
    text, p := "", start;
    while Plain(At(line, p)) && |text| < FIELD_MAX
      invariant start <= p <= |line| && text == line[start..p] && |text| <= FIELD_MAX
      invariant forall i :: start <= i < p ==> Plain(line[i])
      decreases |line| - p
    {
      assert line[start..p + 1] == line[start..p] + [line[p]];
      text := text + [line[p]];
      p := p + 1;
    }
  }

  /** Pass over the rest of an overlong field. */
  method SkipField(line: string, from: nat) returns (p: nat)
    requires from <= |line|
    ensures from <= p <= |line| && (forall i :: from <= i < p ==> Plain(line[i])) && !Plain(At(line, p))
  {
    p := from;
    while Plain(At(line, p))
      invariant from <= p <= |line| && forall i :: from <= i < p ==> Plain(line[i])
      decreases |line| - p
    {
      p := p + 1;
    }
  }

  /** Joining the fields gives the text of the line back exactly when nothing was cut off. */
  lemma JoinedBack(line: string, max: int, field: seq<string>)
    requires 1 <= max && field == First(CutAll(Tokens(Text(line))), max)
    ensures |field| >= 1
    ensures Join(field) == Text(line) <==> Whole(Tokens(Text(line)), max)
  {
    JoinTokens(Text(line));
    CutShortens(Tokens(Text(line)), max);
  }

  function Size(t: seq<string>): nat {
    if t == [] then 0 else |t[0]| + 1 + Size(t[1..])
  }

  lemma {:induction false} JoinSize(t: seq<string>)
    requires |t| >= 1
    ensures |Join(t)| + 1 == Size(t)
  {
    if |t| > 1 {
      JoinSize(t[1..]);
    }
  }

  ghost predicate Whole(t: seq<string>, max: int) {
    |t| <= max && forall i :: 0 <= i < |t| ==> |t[i]| <= FIELD_MAX
  }

  lemma {:induction false} CutShortens(t: seq<string>, max: int)
    requires 1 <= max && |t| >= 1
    ensures |First(CutAll(t), max)| >= 1
    ensures Whole(t, max) ==> First(CutAll(t), max) == t
    ensures !Whole(t, max) ==> Join(First(CutAll(t), max)) != Join(t)
  {
    if !Whole(t, max) {
      SizeShrinks(t, max);
      JoinSize(t);
      JoinSize(First(CutAll(t), max));
    }
  }

  lemma {:induction false} SizeShrinks(t: seq<string>, max: int)
    ensures Size(First(CutAll(t), max)) <= Size(t)
    ensures !Whole(t, max) && |t| >= 1 ==> Size(First(CutAll(t), max)) < Size(t)
  {
    if t != [] && max >= 1 {
      SizeShrinks(t[1..], max - 1);
      var f := First(CutAll(t), max);
      assert CutAll(t)[1..] == CutAll(t[1..]);
      assert f[1..] == First(CutAll(t[1..]), max - 1);
      if !Whole(t, max) && |t[0]| <= FIELD_MAX && |t| >= 2 {
        assert !Whole(t[1..], max - 1);
      }
    }
  }
}
