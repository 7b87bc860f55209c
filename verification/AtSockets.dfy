/** Socket events and connection ids of the AT modem driver (at_socket_aiwb2.c). A line is the received
    bytes; the client places a NUL behind them, so C string functions stop there or at an earlier NUL. */
module AtSockets {
  import opened Basics
  import opened CText
  import opened DecimalText

  const PREFIX: string := "+EVENT:SocketDown,"

  // ---------------------------------------------------------------------------------------------
  // The payload of a receive event
  // ---------------------------------------------------------------------------------------------

  function ToInt(v: int): int {
    if INT_MIN <= v <= INT_MAX then v else (v - INT_MIN) % 0x1_0000_0000 + INT_MIN
  }

  /** An int read into a size variable. */
  function ToSize(v: int): (r: nat)
    ensures 0 <= v <= INT_MAX ==> r == v
  {
    if v < 0 then v + 0x1_0000_0000 * (1 + (-v) / 0x1_0000_0000) else v % 0x1_0000_0000
  }

  /** Both numbers of the event head, if both are there. */
  function Header(prefix: string, line: string): Option<(int, nat)> {
    if !(prefix <= line) then None
    else match Scan(line, |prefix|)
      case None => None
      case Some((id, end)) =>
        if end == |line| || line[end] != ',' then None
        else match Scan(line, end + 1)
          case None => None
          case Some((len, _)) => Some((ToInt(id), ToSize(ToInt(len))))
  }

  /** strchr for a comma. */
  function NextComma(line: string, from: nat): (r: Option<nat>)
    requires from <= |line|
    ensures r.Some? ==> from <= r.value < |line| && line[r.value] == ','
    decreases |line| - from
  {
    if from == |line| || line[from] == NUL then None
    else if line[from] == ',' then Some(from)
    else NextComma(line, from + 1)
  }

  function ThirdComma(line: string): (r: Option<nat>)
    ensures r.Some? ==> r.value < |line|
  {
    match NextComma(line, 0)
    case None => None
    case Some(a) =>
      match NextComma(line, a + 1)
      case None => None
      case Some(b) => NextComma(line, b + 1)
  }

  /** Bytes behind `from`, not counting a line end. */
  function Available(line: string, from: nat): nat
    requires from <= |line|
  {
    var n, size := |line| - from, |line|;
    if n >= 2 && line[size - 2] == '\r' && line[size - 1] == '\n' then n - 2 else n
  }

  datatype Slice = Nothing | Slice(conId: int, from: nat, len: nat)

  /** The part of the line that is handed on. For any line it lies inside the line and leaves the line end out. */
  function Extract(prefix: string, line: string): (s: Slice)
    ensures s.Slice? ==> 0 <= s.conId && s.from + s.len <= |line| && s.len <= Available(line, s.from)
  {
    SliceAt(line, Header(prefix, line), ThirdComma(line))
  }

  function SliceAt(line: string, head: Option<(int, nat)>, comma: Option<nat>): (s: Slice)
    requires comma.Some? ==> comma.value < |line|
    ensures s.Slice? ==> 0 <= s.conId && s.from + s.len <= |line| && s.len <= Available(line, s.from)
  {
    if head.None? || comma.None? then Nothing
    else
      var (id, len), p := head.value, comma.value;
      if id < 0 || len == 0 then Nothing
      else
        var avail := Available(line, p + 1);
        Slice(id, p + 1, if len > avail then avail else len)
  }

  function Body(data: string): string {
    "," + data + "\r\n"
  }

  function Assembled(prefix: string, id: string, len: string, body: string): string {
    prefix + id + ("," + len + body)
  }

  /** An event line for connection `id` that announces n bytes and carries `data`. */
  function Announced(prefix: string, id: nat, n: nat, data: string): string {
    Assembled(prefix, Digits(id), Digits(n), Body(data))
  }

  /** The line the modem sends for `data` received on connection `id`. */
  function EventLine(prefix: string, id: nat, data: string): string {
    Announced(prefix, id, |data|, data)
  }

  /** The text spells n. */
  predicate Spells(text: string, n: nat) {
    text != [] && AllDigits(text) && Value(text) == n
  }

  lemma Regrouped(x: string, a: string, b: string, c: string)
    ensures x + (a + b + c) == x + a + b + c
  {
  }

  lemma {:induction false} CommaAt(line: string, from: nat, c: nat)
    requires from <= c < |line| && line[c] == ','
    requires forall i :: from <= i < c ==> line[i] != ',' && line[i] != NUL
    ensures NextComma(line, from) == Some(c)
    decreases c - from
  {
    if from < c {
      CommaAt(line, from + 1, c);
    }
  }

  lemma ScanIn(line: string, before: string, text: string, rest: string, n: nat)
    requires line == before + text + rest && Spells(text, n) && rest != [] && rest[0] == ','
    ensures var end := |before| + |text|;
            |before| <= end < |line| && Scan(line, |before|) == Some((n, end)) && line[end] == ','
  {
    var end := |before| + |text|;
    assert line[|before|..end] == text;
    assert line[end] == rest[0];
    assert line[|before|] == text[0];
    DigitsEndAt(line, |before|, end);
    ScanAt(line, |before|, false);
  }

  lemma FirstNumber(line: string, prefix: string, id: string, len: string, body: string, n: nat)
    requires line == Assembled(prefix, id, len, body) && Spells(id, n)
    ensures var end := |prefix| + |id|;
            prefix <= line && Scan(line, |prefix|) == Some((n, end)) && end < |line| && line[end] == ','
  {
    ScanIn(line, prefix, id, "," + len + body, n);
  }

  lemma SecondNumber(line: string, prefix: string, id: string, len: string, body: string, n: nat)
    requires line == Assembled(prefix, id, len, body) && Spells(len, n) && body != [] && body[0] == ','
    ensures var from := |prefix| + |id| + 1; from < |line| && Scan(line, from) == Some((n, from + |len|))
  {
    Regrouped(prefix + id, ",", len, body);
    ScanIn(line, prefix + id + ",", len, body, n);
  }

  lemma HeaderOf(line: string, prefix: string, id: string, len: string, body: string, m: nat, n: nat)
    requires line == Assembled(prefix, id, len, body) && Spells(id, m) && Spells(len, n) && body != [] && body[0] == ','
    requires m <= INT_MAX && n <= INT_MAX
    ensures Header(prefix, line) == Some((m, n))
  {
    var end := |prefix| + |id|;
    FirstNumber(line, prefix, id, len, body, m);
    SecondNumber(line, prefix, id, len, body, n);
    HeaderFrom(prefix, line, m, end, n, end + 1 + |len|);
  }

  lemma HeaderFrom(prefix: string, line: string, m: int, end: nat, n: int, last: nat)
    requires prefix <= line && Scan(line, |prefix|) == Some((m, end)) && end < |line| && line[end] == ','
    requires Scan(line, end + 1) == Some((n, last)) && 0 <= m <= INT_MAX && 0 <= n <= INT_MAX
    ensures Header(prefix, line) == Some((m, n))
  {
  }

  ghost predicate NoComma(s: string) {
    forall i :: 0 <= i < |s| ==> s[i] != ',' && s[i] != NUL
  }

  /** The third comma is the one in front of the data. */
  lemma CommasOf(line: string, prefix: string, id: string, len: string, body: string, p: nat)
    requires line == Assembled(prefix, id, len, body) && p == |prefix| + |id| + 1 + |len|
    requires prefix != [] && prefix[|prefix| - 1] == ',' && NoComma(prefix[..|prefix| - 1])
    requires NoComma(id) && NoComma(len) && body != [] && body[0] == ','
    ensures ThirdComma(line) == Some(p)
  {
    CommaAfter(line, "", prefix[..|prefix| - 1], prefix[|prefix| - 1..] + id + ("," + len + body));
    CommaAfter(line, prefix, id, "," + len + body);
    Regrouped(prefix + id, ",", len, body);
    CommaAfter(line, prefix + id + ",", len, body);
  }

  lemma CommaAfter(line: string, before: string, part: string, rest: string)
    requires line == before + part + rest && NoComma(part) && rest != [] && rest[0] == ','
    ensures NextComma(line, |before|) == Some(|before| + |part|)
  {
    forall i | |before| <= i < |before| + |part| ensures line[i] != ',' && line[i] != NUL {
      assert line[i] == part[i - |before|];
    }
    assert line[|before| + |part|] == rest[0];
    CommaAt(line, |before|, |before| + |part|);
  }

  lemma DigitsSpell(n: nat)
    ensures Spells(Digits(n), n) && NoComma(Digits(n))
  {
    ValueOfDigits(n);
  }

  /** The slice is exactly `data`, for connection `id`. */
  ghost predicate Carries(line: string, s: Slice, id: int, data: string) {
    s.Slice? && s.conId == id && s.from + s.len <= |line| && line[s.from..s.from + s.len] == data
  }

  /** Whatever the data holds and however many bytes are announced, the extraction gives the announced
      beginning of the data, or all of it if that is shorter. */
  lemma ExtractAnnounced(prefix: string, id: nat, n: nat, data: string)
    requires 0 < id <= INT_MAX && 0 < n <= INT_MAX
    requires prefix != [] && prefix[|prefix| - 1] == ',' && NoComma(prefix[..|prefix| - 1])
    ensures var line := Announced(prefix, id, n, data);
            Carries(line, Extract(prefix, line), id, data[..if n < |data| then n else |data|])
  {
    DigitsSpell(id);
    DigitsSpell(n);
    var line := Announced(prefix, id, n, data);
    var p := LineFacts(line, prefix, Digits(id), Digits(n), data, id, n);
    CarriesFrom(prefix, line, id, n, data, p);
  }

  /** The extraction inverts the event format. */
  lemma ExtractEvent(prefix: string, id: nat, data: string)
    requires 0 < id <= INT_MAX && 0 < |data| <= INT_MAX
    requires prefix != [] && prefix[|prefix| - 1] == ',' && NoComma(prefix[..|prefix| - 1])
    ensures Carries(EventLine(prefix, id, data), Extract(prefix, EventLine(prefix, id, data)), id, data)
  {
    ExtractAnnounced(prefix, id, |data|, data);
    assert data[..|data|] == data;
  }

  /** The head says `id` and n, and the data stands behind the comma at p. */
  ghost predicate Holds(prefix: string, line: string, id: int, n: nat, data: string, p: nat) {
    && 0 <= id && 0 < n && p + 1 + |data| <= |line| && Available(line, p + 1) == |data|
    && line[p + 1..p + 1 + |data|] == data
    && Header(prefix, line) == Some((id, n)) && ThirdComma(line) == Some(p)
  }

  lemma LineFacts(line: string, prefix: string, id: string, len: string, data: string, m: nat, n: nat) returns (p: nat)
    requires line == Assembled(prefix, id, len, Body(data)) && Spells(id, m) && Spells(len, n)
    requires NoComma(id) && NoComma(len) && m <= INT_MAX && 0 < n <= INT_MAX
    requires prefix != [] && prefix[|prefix| - 1] == ',' && NoComma(prefix[..|prefix| - 1])
    ensures Holds(prefix, line, m, n, data, p)
  {
    p := |prefix| + |id| + 1 + |len|;
    HeaderOf(line, prefix, id, len, Body(data), m, n);
    CommasOf(line, prefix, id, len, Body(data), p);
    DataOf(line, prefix, id, len, data, p);
  }

  lemma CarriesFrom(prefix: string, line: string, id: int, n: nat, data: string, p: nat)
    requires Holds(prefix, line, id, n, data, p)
    ensures Carries(line, Extract(prefix, line), id, data[..if n < |data| then n else |data|])
  {
    SliceCarries(line, id, n, data, p);
  }

  lemma SliceCarries(line: string, id: int, n: nat, data: string, p: nat)
    requires 0 <= id && 0 < n && p + 1 + |data| <= |line| && Available(line, p + 1) == |data|
    requires line[p + 1..p + 1 + |data|] == data
    ensures Carries(line, SliceAt(line, Some((id, n)), Some(p)), id, data[..if n < |data| then n else |data|])
  {
    var m := if n < |data| then n else |data|;
    Beginning(line, p + 1, data, m);
  }

  lemma Beginning(line: string, from: nat, data: string, m: nat)
    requires from + |data| <= |line| && line[from..from + |data|] == data && m <= |data|
    ensures line[from..from + m] == data[..m]
  {
    forall k | 0 <= k < m ensures line[from..from + m][k] == data[..m][k] {
      assert data[k] == line[from..from + |data|][k] == line[from + k];
    }
  }

  lemma DataOf(line: string, prefix: string, id: string, len: string, data: string, p: nat)
    requires line == Assembled(prefix, id, len, Body(data)) && p == |prefix| + |id| + 1 + |len|
    ensures p + 1 + |data| <= |line| && Available(line, p + 1) == |data| && line[p + 1..p + 1 + |data|] == data
  {
    var from := p + 1;
    Regrouped(prefix + id, ",", len, Body(data));
    var head := prefix + id + "," + len;
    assert line == head + Body(data);
    assert line[from..] == Body(data)[1..] == data + "\r\n";
    assert line[|line| - 2] == line[from..][|data|] && line[|line| - 1] == line[from..][|data| + 1];
    assert line[from..from + |data|] == line[from..][..|data|];
  }

  /** The prefix of the receive event has its one comma at the end. */
  lemma PrefixShape()
    ensures PREFIX != [] && PREFIX[|PREFIX| - 1] == ',' && NoComma(PREFIX[..|PREFIX| - 1])
  {
    assert PREFIX[..|PREFIX| - 1] == "+EVENT:SocketDown";
  }

  // ---------------------------------------------------------------------------------------------
  // Connection ids
  // ---------------------------------------------------------------------------------------------

  /** `Gone` is a socket the peer has closed and the program has not; it was connected before or not. */
  datatype SocketState = Free | Open | Connected | Gone(connected: bool)

  /** What the modem answers to one connect command: an error, or lines of text. */
  datatype Reply = Refused | Lines(lines: seq<string>)

  const REPORT: string := "connect success ConID="

  /** sscanf's literal text: a space stands for any white space, every other character for itself. */
  function Literal(format: string, line: string, i: nat): (r: Option<nat>)
    requires i <= |line|
    ensures r.Some? ==> r.value <= |line|
    decreases |format|
  {
    if format == [] then Some(i)
    else if IsSpace(format[0]) then Literal(format[1..], line, SpacesEnd(line, i))
    else if i < |line| && line[i] == format[0] then Literal(format[1..], line, i + 1)
    else None
  }

  /** The id a line reports. */
  function Reported(line: string): Option<int> {
    match Literal(REPORT, line, 0)
    case None => None
    case Some(p) =>
      match Scan(line, p)
      case None => None
      case Some((id, _)) => Some(ToInt(id))
  }

  /** The id of the first line that reports one, -1 if none does. */
  function ReportedId(lines: seq<string>): int {
    if lines == [] then -1 else if Reported(lines[0]).Some? then Reported(lines[0]).value else ReportedId(lines[1..])
  }

  /** In the format every space is a single one inside the text. */
  ghost predicate SingleSpaced(format: string) {
    forall k :: 0 <= k < |format| && IsSpace(format[k]) ==> k + 1 < |format| && !IsSpace(format[k + 1])
  }

  lemma {:induction false} LiteralFound(format: string, line: string, i: nat)
    requires SingleSpaced(format) && i + |format| <= |line| && line[i..i + |format|] == format
    ensures Literal(format, line, i) == Some(i + |format|)
    decreases |format|
  {
    if format != [] {
      var rest := format[1..];
      assert line[i] == line[i..i + |format|][0];
      assert line[i + 1..i + 1 + |rest|] == rest;
      assert SingleSpaced(rest) by {
        assert forall k :: 0 <= k < |rest| ==> rest[k] == format[k + 1];
      }
      if IsSpace(format[0]) {
        assert line[i + 1] == rest[0];
        assert SpacesEnd(line, i) == i + 1;
      }
      LiteralFound(rest, line, i + 1);
    }
  }

  lemma ReportShape()
    ensures SingleSpaced(REPORT)
  {
  }

  /** The line the modem sends for a connection is read as its id, whatever follows. */
  lemma ReportRead(id: int, rest: string)
    requires INT_MIN <= id <= INT_MAX && (rest != [] ==> !IsDigit(rest[0]))
    ensures Reported("connect success ConID=" + Print(id) + rest) == Some(id)
  {
    var line := REPORT + Print(id) + rest;
    ReportShape();
    assert line[0..|REPORT|] == REPORT;
    LiteralFound(REPORT, line, 0);
    ScanPrinted(REPORT, id, rest);
  }

  /** Only such a line reports: one that does not begin like it does not. */
  lemma OthersReportNothing(line: string)
    requires line == [] || line[0] != 'c'
    ensures Reported(line).None?
  {
    assert REPORT[0] == 'c';
  }

  /** The first line that reports decides: a reply connects with the id of that line and with no other. */
  lemma {:induction false} FirstDecides(lines: seq<string>, k: nat, id: int, rest: string, wanted: int)
    requires k < |lines| && forall m :: 0 <= m < k ==> Reported(lines[m]).None?
    requires lines[k] == "connect success ConID=" + Print(id) + rest
    requires INT_MIN <= id <= INT_MAX && (rest != [] ==> !IsDigit(rest[0]))
    ensures Assigns(Lines(lines), wanted) <==> wanted == id
  {
    if k == 0 {
      ReportRead(id, rest);
    } else {
      assert Reported(lines[0]).None?;
      FirstDecides(lines[1..], k - 1, id, rest, wanted);
    }
  }

  lemma {:induction false} NoneDecides(lines: seq<string>, wanted: nat)
    requires forall m :: 0 <= m < |lines| ==> Reported(lines[m]).None?
    ensures !Assigns(Lines(lines), wanted)
  {
    if lines != [] {
      assert Reported(lines[0]).None?;
      NoneDecides(lines[1..], wanted);
    }
  }

  predicate Assigns(r: Reply, conId: int) {
    r.Lines? && ReportedId(r.lines) == conId
  }

  /** A socket that was connected carries its connection id, which is the index of the next socket. */
  predicate HasId(s: SocketState) { s == Connected || s == Gone(true) }

  /** A socket that was not carries its index. */
  predicate HasIndex(s: SocketState) { s == Open || s == Gone(false) }

  function UserData(i: nat, s: SocketState): int {
    if HasId(s) then i + 1 else if HasIndex(s) then i else 0
  }

  /** Which socket an event for a connection id reaches: the one that carries the id, if there is one;
      otherwise the next one, if that was never connected. */
  function Reached(states: seq<SocketState>, conId: int): (r: Option<nat>)
    ensures r.Some? ==> r.value < |states|
  {
    if 0 < conId <= |states| && HasId(states[conId - 1]) then Some(conId - 1)
    else if 0 < conId < |states| && HasIndex(states[conId]) then Some(conId)
    else None
  }

  /** A disconnect event closes the socket it reaches. */
  function PeerClosed(states: seq<SocketState>, conId: int): seq<SocketState> {
    match Reached(states, conId)
    case None => states
    case Some(i) => states[i := Gone(HasId(states[i]))]
  }

  class Modem {
    const userData: array<int>
    const state: array<SocketState>

    ghost predicate Valid()
      reads userData, state
    {
      && userData.Length == state.Length
      && forall i :: 0 <= i < state.Length ==> userData[i] == UserData(i, state[i])
    }

    constructor (n: nat)
      ensures Valid() && fresh(userData) && fresh(state) && state.Length == n
      ensures forall i :: 0 <= i < n ==> state[i] == Free
    {
      userData := new int[n](i => 0);
      state := new SocketState[n](i => Free);
    }

    /** Take the first free entry; its user data becomes its index. */
    method Allocate() returns (r: Option<nat>)
      requires Valid()
      modifies userData, state
      ensures Valid()
      ensures r.None? ==> Free !in old(state[..]) && state[..] == old(state[..])
      ensures r.Some? ==> r.value < state.Length && old(state[r.value]) == Free && Free !in old(state[..r.value])
      ensures r.Some? ==> state[..] == old(state[..])[r.value := Open]
    {
      var i := 0;
      while i < state.Length && state[i] != Free
        invariant 0 <= i <= state.Length && Free !in state[..i]
      {
        i := i + 1;
      }
      if i == state.Length {
        assert state[..i] == state[..];
        return None;
      }
      state[i] := Open;
      userData[i] := i;
      r := Some(i);
    }

    /** Connect an open socket, with one retry; the answer must carry the id that was asked for. */
    method Connect(i: nat, replies: seq<Reply>) returns (ok: bool)
      requires Valid() && i < state.Length && state[i] == Open && |replies| == 2
      modifies userData, state
      ensures Valid()
      ensures ok <==> Assigns(replies[0], i + 1) || Assigns(replies[1], i + 1)
      ensures state[..] == if ok then old(state[..])[i := Connected] else old(state[..])
    {
      var conId := userData[i] + 1;
      var attempt := 0;
      ok := false;
      while attempt < 2 && !ok
        invariant 0 <= attempt <= 2 && conId == i + 1
        invariant ok <==> exists k :: 0 <= k < attempt && Assigns(replies[k], i + 1)
        invariant userData[..] == if ok then old(userData[..])[i := conId] else old(userData[..])
        invariant state[..] == old(state[..])
      {
        if replies[attempt].Lines? {
          var reported := FirstId(replies[attempt].lines);
          if reported == conId {
            userData[i] := conId;
            ok := true;
          }
        }
        attempt := attempt + 1;
      }
      if ok {
        state[i] := Connected;
      }
    }

    /** The search through the lines of a reply. */
    method FirstId(lines: seq<string>) returns (id: int)
      ensures id == ReportedId(lines)
    {
      for i := 0 to |lines|
        invariant ReportedId(lines) == ReportedId(lines[i..])
      {
        var reported := Reported(lines[i]);
        if reported.Some? {
          return reported.value;
        }
      }
      id := -1;
    }

    /** The disconnect event. */
    method CloseEvent(conId: int)
      requires Valid()
      modifies state
      ensures Valid() && state[..] == PeerClosed(old(state[..]), conId)
    {
      var socket := FindSocket(conId);
      if socket.Some? {
        var i := socket.value;
        state[i] := Gone(HasId(state[i]));
      }
    }

    /** Close: the whole entry is cleared. */
    method Close(i: nat)
      requires Valid() && i < state.Length && state[i] != Free
      modifies userData, state
      ensures Valid() && state[..] == old(state[..])[i := Free]
    {
      userData[i] := 0;
      state[i] := Free;
    }

    /** The search over the sockets' user data. */
    method FindSocket(conId: int) returns (r: Option<nat>)
      requires Valid()
      ensures r == Reached(state[..], conId)
    {
      if conId <= 0 {
        return None;
      }
      for i := 0 to state.Length
        invariant forall k :: 0 <= k < i ==> userData[k] != conId
      {
        if userData[i] == conId {
          assert HasIndex(state[i]) ==> i == conId && !HasId(state[conId - 1]);
          return Some(i);
        }
      }
      assert conId <= state.Length ==> !HasId(state[conId - 1]);
      assert conId < state.Length ==> !HasIndex(state[conId]);
      r := None;
    }

    /** The receive event: who gets which bytes. */
    method RecvEvent(line: string) returns (r: Option<(nat, string)>)
      requires Valid()
      ensures r == Delivered(state[..], line)
    {
      r := Deliver(line, Extract(PREFIX, line));
    }

    method Deliver(line: string, slice: Slice) returns (r: Option<(nat, string)>)
      requires Valid() && (slice.Slice? ==> slice.from + slice.len <= |line|)
      ensures r == Route(state[..], line, slice)
    {
      if slice.Nothing? {
        return None;
      }
      var socket := FindSocket(slice.conId);
      if socket.None? || state[socket.value].Gone? {
        return None;
      }
      r := Some((socket.value, line[slice.from..slice.from + slice.len]));
    }
  }

  function Delivered(states: seq<SocketState>, line: string): Option<(nat, string)> {
    Route(states, line, Extract(PREFIX, line))
  }

  function Route(states: seq<SocketState>, line: string, slice: Slice): Option<(nat, string)>
    requires slice.Slice? ==> slice.from + slice.len <= |line|
  {
    match slice
    case Nothing => None
    case Slice(id, from, len) =>
      match Reached(states, id)
      case None => None
      case Some(i) => if states[i].Gone? then None else Some((i, line[from..from + len]))
  }

  /** Who gets `data` of connection `id`. */
  function Receiver(states: seq<SocketState>, id: nat, data: string): Option<(nat, string)>
    requires 0 < id <= |states|
  {
    if states[id - 1] == Connected then Some((id - 1, data))
    else if states[id - 1] != Gone(true) && id < |states| && states[id] == Open then Some((id, data))
    else None
  }

  /** An event for a connection delivers exactly its data, to the socket of that connection exactly
      when the socket is connected. If the peer has closed it, nobody gets the data; if the program has
      closed it or never connected it, the next socket gets the data if that is open and not connected. */
  lemma EventReaches(states: seq<SocketState>, id: nat, data: string)
    requires 0 < id <= |states| && id <= INT_MAX && 0 < |data| <= INT_MAX
    ensures Delivered(states, EventLine("+EVENT:SocketDown,", id, data)) == Receiver(states, id, data)
  {
    PrefixShape();
    ExtractEvent(PREFIX, id, data);
    SliceReaches(states, EventLine(PREFIX, id, data), Extract(PREFIX, EventLine(PREFIX, id, data)), id, data);
  }

  lemma SliceReaches(states: seq<SocketState>, line: string, s: Slice, id: int, data: string)
    requires 0 < id <= |states| && Carries(line, s, id, data)
    ensures Route(states, line, s) == Receiver(states, id, data)
  {
  }

  /** After the disconnect event of a connected socket its data is dropped, and every other
      connected socket still gets its own. */
  lemma DisconnectIsolates(states: seq<SocketState>, gone: nat, id: nat, data: string)
    requires 0 < gone <= |states| && states[gone - 1] == Connected
    requires 0 < id <= |states| && states[id - 1] == Connected && id <= INT_MAX && 0 < |data| <= INT_MAX
    ensures Delivered(PeerClosed(states, gone), EventLine("+EVENT:SocketDown,", id, data)) ==
              if id == gone then None else Some((id - 1, data))
  {
    var after := PeerClosed(states, gone);
    assert after[id - 1] == if id == gone then Gone(true) else Connected;
    EventReaches(after, id, data);
    OwnEvent(after, id, data);
  }

  lemma OwnEvent(states: seq<SocketState>, id: nat, data: string)
    requires 0 < id <= |states| && HasId(states[id - 1])
    ensures Receiver(states, id, data) == if states[id - 1] == Connected then Some((id - 1, data)) else None
  {
  }
}
