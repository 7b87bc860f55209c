/** Receiving over the UART with DMA (drv_usart.c): a two-descriptor linked transfer fills the
    receive buffer in two halves, and two interrupt handlers share one counter to report how many
    bytes have come in.

    The DMA channel is plain state. When a transfer's count reaches zero the channel loads the
    linked descriptor and raises the completion flag; the flag is one bit, so a second completion
    before the first is served leaves it as it is. */
module UartRx {
  import opened Ring

  /** A linked-list descriptor: destination offset, transfer count, index of the next descriptor. */
  datatype Descriptor = Descriptor(dest: nat, count: nat, link: nat)

  function TransCount(bufsz: nat): nat {
    if bufsz <= 1 then bufsz else bufsz / 2
  }

  /** The descriptor table that the DMA configuration fills in; with one byte only entry 0 is used. */
  function Descriptors(bufsz: nat): (d: seq<Descriptor>)
    ensures |d| == 2
  {
    var t := TransCount(bufsz);
    if bufsz <= 1 then [Descriptor(0, t, 0), Descriptor(0, t, 0)]
    else [Descriptor(t, bufsz - t, 1), Descriptor(0, t, 0)]
  }

  /** The channel registers, the completion flag and the shared counter. */
  datatype Rx = Rx(buffer: seq<int>, dest: nat, setCount: nat, count: nat, link: nat,
                   pending: bool, remaining: nat)

  function Start(buffer: seq<int>): Rx {
    var t := TransCount(|buffer|);
    Rx(buffer, 0, t, t, 0, false, t)
  }

  /** One byte is transferred. */
  function Receive(s: Rx, b: int): Rx
    requires Sound(s)
  {
    var s1 := s.(buffer := s.buffer[s.dest + (s.setCount - s.count) := b], count := s.count - 1);
    if s1.count > 0 then s1
    else
      var d := Descriptors(|s.buffer|)[s.link];
      s1.(dest := d.dest, setCount := d.count, count := d.count, link := d.link, pending := true)
  }

  /** What an interrupt handler leaves behind and how many bytes it reports. */
  datatype Served = Served(rx: Rx, reported: nat)

  function Complete(s: Rx): Served {
    Served(s.(remaining := s.setCount, pending := false), s.remaining)
  }

  function Timeout(s: Rx): Served
    requires Sound(s)
  {
    TimeoutWith(s, s.count, s.setCount)
  }

  /** The timeout handler with the counts it read from the channel. */
  function TimeoutWith(s: Rx, count: nat, setCount: nat): Served
    requires count <= setCount
  {
    var len := if count <= s.remaining then s.remaining - count
               else s.remaining + setCount - count;
    if len != 0 then Served(s.(remaining := count), len) else Served(s, 0)
  }

  // ---------------------------------------------------------------------------------------------
  // Runs
  // ---------------------------------------------------------------------------------------------

  datatype Event = Byte(value: int) | CompletionIrq | TimeoutIrq

  /** A run: the registers, every byte received so far, the number of bytes reported so far, and the
      two ways of losing count (`lost`: completions merged into one flag; `doubled`: a timeout that
      took a completed transfer into account before its completion was served). */
  datatype Trace = Trace(rx: Rx, received: seq<int>, reported: nat, lost: nat, doubled: nat)

  ghost predicate Enabled(t: Trace, e: Event) {
    e.CompletionIrq? ==> t.rx.pending
  }

  /** A byte ends its transfer while the previous completion is still unserved. */
  predicate Merges(s: Rx) { s.pending && s.count == 1 }

  /** A timeout takes the wrap-around branch. */
  predicate Overtakes(s: Rx) { s.pending && s.count > s.remaining }

  function Step(t: Trace, e: Event): Trace
    requires Sound(t.rx)
  {
    match e
    case Byte(b) =>
      t.(rx := Receive(t.rx, b), received := t.received + [b],
         lost := t.lost + if Merges(t.rx) then t.rx.setCount else 0)
    case CompletionIrq =>
      var r := Complete(t.rx);
      t.(rx := r.rx, reported := t.reported + r.reported)
    case TimeoutIrq =>
      var r := Timeout(t.rx);
      t.(rx := r.rx, reported := t.reported + r.reported,
         doubled := t.doubled + if Overtakes(t.rx) then t.rx.setCount else 0)
  }

  ghost predicate IsRun(t: Trace, events: seq<Event>, t': Trace)
    decreases |events|
  {
    if events == [] then t' == t
    else Sound(t.rx) && Enabled(t, events[0]) && IsRun(Step(t, events[0]), events[1..], t')
  }

  function Fresh(buffer: seq<int>): Trace {
    Trace(Start(buffer), [], 0, 0, 0)
  }

  // ---------------------------------------------------------------------------------------------
  // Invariants
  // ---------------------------------------------------------------------------------------------

  /** The channel is inside one of the two halves, and the counter is within bounds. */
  ghost predicate Sound(s: Rx) {
    var n, t := |s.buffer|, TransCount(|s.buffer|);
    && 1 <= n
    && (|| (s.dest == 0 && s.setCount == t && s.link == 0)
        || (n > 1 && s.dest == t && s.setCount == n - t && s.link == 1))
    && 1 <= s.count <= s.setCount
    && 1 <= s.remaining
    && (!s.pending ==> s.count <= s.remaining <= s.setCount)
    && (n > 1 ==> s.remaining <= n - t)
    && (n == 1 ==> s.remaining == 1)
  }

  /** Bytes that have been transferred and not yet reported, as the handlers see it. */
  function Outstanding(s: Rx): int {
    if s.pending then s.remaining + (s.setCount - s.count) else s.remaining - s.count
  }

  /** The counting law of every run, and the place of the next byte. */
  ghost predicate Inv(t: Trace, initial: seq<int>) {
    && Sound(t.rx)
    && |t.rx.buffer| == |initial|
    && t.reported + Outstanding(t.rx) + t.lost == |t.received| + t.doubled
    && t.rx.dest + (t.rx.setCount - t.rx.count) == |t.received| % |initial|
    && t.rx.buffer == Put(initial, 0, t.received)
  }

  lemma StartInv(initial: seq<int>)
    requires 1 <= |initial|
    ensures Inv(Fresh(initial), initial)
  {
  }

  lemma ByteSound(s: Rx, b: int)
    requires Sound(s)
    ensures Sound(Receive(s, b))
    ensures s.dest + (s.setCount - s.count) < |s.buffer|
  {
  }

  lemma BytePosition(s: Rx, b: int, w: nat)
    requires Sound(s) && s.dest + (s.setCount - s.count) == w % |s.buffer|
    ensures var s' := Receive(s, b); s'.dest + (s'.setCount - s'.count) == (w + 1) % |s.buffer|
  {
    Next(w, |s.buffer|);
  }

  lemma ByteCount(s: Rx, b: int)
    requires Sound(s)
    ensures Outstanding(Receive(s, b)) + (if Merges(s) then s.setCount else 0) == Outstanding(s) + 1
  {
  }

  lemma TimeoutCount(s: Rx)
    requires Sound(s)
    ensures var r := Timeout(s);
            && Sound(r.rx) && r.rx.buffer == s.buffer
            && r.rx.dest == s.dest && r.rx.setCount == s.setCount && r.rx.count == s.count
            && r.reported + Outstanding(r.rx) == Outstanding(s) + if Overtakes(s) then s.setCount else 0
  {
  }

  lemma AtCell(n: nat, m: nat)
    requires 1 <= m
    ensures Cell(0, n, m) == n % m
  {
  }

  lemma ByteStored(s: Rx, b: int, received: seq<int>, initial: seq<int>)
    requires Sound(s) && |s.buffer| == |initial| && s.buffer == Put(initial, 0, received)
    requires s.dest + (s.setCount - s.count) == |received| % |initial|
    ensures Receive(s, b).buffer == Put(initial, 0, received + [b])
  {
    PutOne(initial, 0, received, b);
    AtCell(|received|, |initial|);
  }

  lemma StepInv(t: Trace, e: Event, initial: seq<int>)
    requires Inv(t, initial) && Enabled(t, e)
    ensures Inv(Step(t, e), initial)
  {
    match e
    case Byte(b) =>
      ByteSound(t.rx, b);
      BytePosition(t.rx, b, |t.received|);
      ByteCount(t.rx, b);
      ByteStored(t.rx, b, t.received, initial);
    case CompletionIrq =>
    case TimeoutIrq =>
      TimeoutCount(t.rx);
  }

  lemma {:induction false} RunInv(t: Trace, events: seq<Event>, t': Trace, initial: seq<int>)
    requires Inv(t, initial) && IsRun(t, events, t')
    ensures Inv(t', initial)
    decreases |events|
  {
    if events != [] {
      StepInv(t, events[0], initial);
      RunInv(Step(t, events[0]), events[1..], t', initial);
    }
  }

  // ---------------------------------------------------------------------------------------------
  // Main results
  // ---------------------------------------------------------------------------------------------

  /** Conservation with its exact error, over every run of every interleaving. */
  lemma Conservation(initial: seq<int>, events: seq<Event>, t: Trace)
    requires 1 <= |initial| && IsRun(Fresh(initial), events, t)
    ensures t.reported + Outstanding(t.rx) + t.lost == |t.received| + t.doubled
    ensures t.lost == t.doubled <==> t.reported + Outstanding(t.rx) == |t.received|
  {
    StartInv(initial);
    RunInv(Fresh(initial), events, t, initial);
  }

  /** Every completion is served before it can be merged or overtaken. */
  ghost predicate Prompt(t: Trace, events: seq<Event>)
    decreases |events|
  {
    events == [] ||
    (&& Sound(t.rx)
     && (events[0].Byte? ==> !Merges(t.rx))
     && (events[0].TimeoutIrq? ==> !Overtakes(t.rx))
     && Prompt(Step(t, events[0]), events[1..]))
  }

  /** Under prompt service nothing is reported twice and nothing is lost. */
  lemma PromptConservation(initial: seq<int>, events: seq<Event>, t: Trace)
    requires 1 <= |initial| && IsRun(Fresh(initial), events, t) && Prompt(Fresh(initial), events)
    ensures t.reported + Outstanding(t.rx) == |t.received|
  {
    Conservation(initial, events, t);
    PromptCounts(Fresh(initial), events, t);
  }

  lemma {:induction false} PromptCounts(t: Trace, events: seq<Event>, t': Trace)
    requires IsRun(t, events, t') && Prompt(t, events)
    ensures t'.lost == t.lost && t'.doubled == t.doubled
    decreases |events|
  {
    if events != [] {
      PromptCounts(Step(t, events[0]), events[1..], t');
    }
  }

  predicate CountRight(t: Trace) {
    t.reported + Outstanding(t.rx) == |t.received|
  }

  /** The count is right now and after every event. */
  ghost predicate RightThroughout(t: Trace, events: seq<Event>)
    decreases |events|
  {
    CountRight(t) && (events == [] || (Sound(t.rx) && RightThroughout(Step(t, events[0]), events[1..])))
  }

  lemma {:induction false} RightIsPrompt(t: Trace, events: seq<Event>, t': Trace, initial: seq<int>)
    requires Inv(t, initial) && IsRun(t, events, t') && t.lost == t.doubled
    ensures RightThroughout(t, events) <==> Prompt(t, events)
    decreases |events|
  {
    if events != [] {
      var next := Step(t, events[0]);
      StepInv(t, events[0], initial);
      if next.lost == next.doubled {
        RightIsPrompt(next, events[1..], t', initial);
      }
    }
  }

  /** Promptness is exactly what the count needs: it is right after every event of a run if and only if
      every completion is served before it can be merged or overtaken. */
  lemma PromptExactly(initial: seq<int>, events: seq<Event>, t: Trace)
    requires 1 <= |initial| && IsRun(Fresh(initial), events, t)
    ensures RightThroughout(Fresh(initial), events) <==> Prompt(Fresh(initial), events)
  {
    StartInv(initial);
    RightIsPrompt(Fresh(initial), events, t, initial);
  }

  /** Descriptors and initial transfer refine a circular buffer: byte k lands at k modulo the size. */
  lemma RefinesCircularBuffer(initial: seq<int>, events: seq<Event>, t: Trace)
    requires 1 <= |initial| && IsRun(Fresh(initial), events, t)
    ensures t.rx.buffer == Put(initial, 0, t.received)
    ensures forall k :: 0 <= k < |t.received| <= k + |initial| ==>
              t.rx.buffer[Cell(0, k, |initial|)] == t.received[k]
  {
    StartInv(initial);
    RunInv(Fresh(initial), events, t, initial);
    forall k | 0 <= k < |t.received| <= k + |initial|
      ensures t.rx.buffer[Cell(0, k, |initial|)] == t.received[k]
    {
      PutCell(initial, 0, t.received, k);
    }
  }

  /** While the count is right, every unreported byte is still in the buffer, in order. */
  lemma UnreportedSurvive(initial: seq<int>, events: seq<Event>, t: Trace)
    requires 1 <= |initial| && IsRun(Fresh(initial), events, t) && t.lost == t.doubled
    ensures 0 <= |t.received| - t.reported <= |initial| == |t.rx.buffer|
    ensures Get(t.rx.buffer, t.reported, |t.received| - t.reported) == t.received[t.reported..]
  {
    StartInv(initial);
    RunInv(Fresh(initial), events, t, initial);
    ReadBack(initial, 0, t.received, t.reported);
  }

  lemma PromptSurvive(initial: seq<int>, events: seq<Event>, t: Trace)
    requires 1 <= |initial| && IsRun(Fresh(initial), events, t) && Prompt(Fresh(initial), events)
    ensures 0 <= |t.received| - t.reported <= |initial| == |t.rx.buffer|
    ensures Get(t.rx.buffer, t.reported, |t.received| - t.reported) == t.received[t.reported..]
  {
    PromptCounts(Fresh(initial), events, t);
    UnreportedSurvive(initial, events, t);
  }

  /** What one timeout reports. Without a pending completion it is exactly what is outstanding; with
      one it is exactly that in the wrap-around branch, and the completed transfer's share otherwise. */
  lemma TimeoutReports(t: Trace, initial: seq<int>)
    requires Inv(t, initial) && t.lost == t.doubled
    ensures !t.rx.pending || t.rx.count > t.rx.remaining ==>
              Timeout(t.rx).reported == |t.received| - t.reported
    ensures t.rx.pending && t.rx.count <= t.rx.remaining ==>
              Timeout(t.rx).reported == |t.received| - t.reported - t.rx.setCount
  {
  }

  /** A wrap-around timeout followed by the completion it overtook reports `count` bytes too many: those
      the new transfer still waits for. */
  lemma OvertakenReportsTwice(t: Trace, initial: seq<int>)
    requires Inv(t, initial) && t.lost == t.doubled && Overtakes(t.rx)
    ensures var t' := Step(Step(t, TimeoutIrq), CompletionIrq);
            t'.reported == |t'.received| + t.rx.count
  {
    StepInv(t, TimeoutIrq, initial);
  }

  /** Such a run with a buffer of four: two bytes come in and four are reported. */
  lemma OvertakenRun(initial: seq<int>, x: int, y: int) returns (t: Trace)
    requires |initial| == 4
    ensures IsRun(Fresh(initial), [Byte(x), TimeoutIrq, Byte(y), TimeoutIrq, CompletionIrq], t)
    ensures t.reported == 4 && t.received == [x, y] && t.doubled == 2
  {
    var t1 := Step(Fresh(initial), Byte(x));
    var t2 := Step(t1, TimeoutIrq);
    var t3 := Step(t2, Byte(y));
    var t4 := Step(t3, TimeoutIrq);
    t := Step(t4, CompletionIrq);
    IsRunBack(t4, CompletionIrq, [], t);
    IsRunBack(t3, TimeoutIrq, [CompletionIrq], t);
    IsRunBack(t2, Byte(y), [TimeoutIrq, CompletionIrq], t);
    IsRunBack(t1, TimeoutIrq, [Byte(y), TimeoutIrq, CompletionIrq], t);
    IsRunBack(Fresh(initial), Byte(x), [TimeoutIrq, Byte(y), TimeoutIrq, CompletionIrq], t);
  }

  lemma IsRunBack(t: Trace, e: Event, events: seq<Event>, t': Trace)
    requires Sound(t.rx) && Enabled(t, e) && IsRun(Step(t, e), events, t')
    ensures IsRun(t, [e] + events, t')
  {
    assert ([e] + events)[1..] == events;
  }

  /** Two bytes fill one half of a buffer of four. */
  lemma HalfFilled(t: Trace, x: int, y: int) returns (t': Trace)
    requires Sound(t.rx) && |t.rx.buffer| == 4 && t.rx.count == 2
    ensures t' == Step(Step(t, Byte(x)), Byte(y)) && Sound(Step(t, Byte(x)).rx)
    ensures Sound(t'.rx) && |t'.rx.buffer| == 4 && t'.rx.count == t'.rx.setCount == 2
    ensures t'.rx.pending && t'.rx.remaining == t.rx.remaining && t'.reported == t.reported
    ensures t'.received == t.received + [x, y] && t'.lost == t.lost + if t.rx.pending then 2 else 0
  {
    ByteSound(t.rx, x);
    var mid := Step(t, Byte(x));
    ByteSound(mid.rx, y);
    t' := Step(mid, Byte(y));
  }

  /** A run that merges two completions: four bytes come in, two are reported and none is outstanding. */
  lemma MergingRun(initial: seq<int>, b: seq<int>) returns (t: Trace)
    requires |initial| == 4 && |b| == 4
    ensures IsRun(Fresh(initial), [Byte(b[0]), Byte(b[1]), Byte(b[2]), Byte(b[3]), CompletionIrq], t)
    ensures t.reported == 2 && t.received == b && Outstanding(t.rx) == 0 && t.lost == 2
  {
    var t0 := Fresh(initial);
    var t2 := HalfFilled(t0, b[0], b[1]);
    var t4 := HalfFilled(t2, b[2], b[3]);
    t := Step(t4, CompletionIrq);
    IsRunBack(t4, CompletionIrq, [], t);
    IsRunBack(Step(t2, Byte(b[2])), Byte(b[3]), [CompletionIrq], t);
    IsRunBack(t2, Byte(b[2]), [Byte(b[3]), CompletionIrq], t);
    IsRunBack(Step(t0, Byte(b[0])), Byte(b[1]), [Byte(b[2]), Byte(b[3]), CompletionIrq], t);
    IsRunBack(t0, Byte(b[0]), [Byte(b[1]), Byte(b[2]), Byte(b[3]), CompletionIrq], t);
  }

  // ---------------------------------------------------------------------------------------------
  // Counts read early
  // ---------------------------------------------------------------------------------------------

  /** `late` is `s` after bytes that did not merge a completion: still the same transfer, or the next
      one with the completion pending. */
  ghost predicate BytesLater(s: Rx, late: Rx) {
    && Sound(s) && Sound(late) && late.remaining == s.remaining
    && if late.pending == s.pending then late.setCount == s.setCount && late.count <= s.count
       else late.pending
  }

  lemma ByteLater(s: Rx, late: Rx, b: int)
    requires BytesLater(s, late) && !Merges(late)
    ensures BytesLater(s, Receive(late, b))
  {
    ByteSound(late, b);
  }

  /** The handler reads the channel's counts before it disables interrupts. Any bytes that come in
      between leave the counting law as it is. */
  lemma BytesBetween(s: Rx, late: Rx)
    requires BytesLater(s, late)
    ensures var r := TimeoutWith(late, s.count, s.setCount);
            r.reported + Outstanding(r.rx) == Outstanding(late) + if Overtakes(s) then s.setCount else 0
  {
  }

  /** A completion served in between does not: with a buffer of four, two bytes come in and three are
      reported. */
  lemma CompletionBetween(initial: seq<int>, x: int, y: int) returns (t: Trace)
    requires |initial| == 4
    ensures IsRun(Fresh(initial), [Byte(x), Byte(y), CompletionIrq], t)
    ensures var early := Receive(Start(initial), x);
            t.received == [x, y] && t.reported + TimeoutWith(t.rx, early.count, early.setCount).reported == 3
  {
    var t2 := HalfFilled(Fresh(initial), x, y);
    t := Step(t2, CompletionIrq);
    IsRunBack(t2, CompletionIrq, [], t);
    IsRunBack(Step(Fresh(initial), Byte(x)), Byte(y), [CompletionIrq], t);
    IsRunBack(Fresh(initial), Byte(x), [Byte(y), CompletionIrq], t);
  }

  // ---------------------------------------------------------------------------------------------
  // The handlers
  // ---------------------------------------------------------------------------------------------

  class Uart {
    var buffer: array<int>
    var llp: seq<Descriptor>
    var dest: nat
    var setCount: nat
    var count: nat
    var link: nat
    var pending: bool
    var remaining: nat

    ghost function View(): Rx
      reads this, buffer
    {
      Rx(buffer[..], dest, setCount, count, link, pending, remaining)
    }

    ghost predicate Valid()
      reads this, buffer
    {
      Sound(View()) && llp == Descriptors(buffer.Length)
    }

    /** Device configuration and DMA configuration. */
    constructor (buf: array<int>)
      requires 1 <= buf.Length
      ensures Valid() && buffer == buf && View() == Start(buf[..])
      ensures dest == 0 && setCount == count == remaining == (if buf.Length == 1 then 1 else buf.Length / 2) && !pending
    {
      var bufsz := buf.Length;
      var transCount := if bufsz <= 1 then bufsz else bufsz / 2;
      buffer := buf;
      dest, setCount, count, link := 0, transCount, transCount, 0;
      pending, remaining := false, transCount;
      llp := [Descriptor(if bufsz <= 1 then 0 else transCount,
                         if bufsz <= 1 then transCount else bufsz - transCount,
                         if bufsz <= 1 then 0 else 1),
              Descriptor(0, transCount, 0)];
    }

    method DmaTransfer(b: int)
      requires Valid()
      modifies this, buffer
      ensures Valid() && buffer == old(buffer)
      ensures View() == Receive(old(View()), b)
    {
      ByteSound(View(), b);
      buffer[dest + (setCount - count)] := b;
      count := count - 1;
      if count == 0 {
        var d := llp[link];
        dest, setCount, count, link := d.dest, d.count, d.count, d.link;
        pending := true;
      }
    }

    method DmaRxIrq() returns (reported: nat)
      requires Valid() && pending
      modifies this
      ensures Valid() && buffer == old(buffer)
      ensures Served(View(), reported) == Complete(old(View()))
    {
      var recvLen := remaining;
      remaining := setCount;
      pending := false;
      reported := recvLen;
    }

    method RxTimeoutIrq() returns (reported: nat)
      requires Valid()
      modifies this
      ensures Valid() && buffer == old(buffer)
      ensures Served(View(), reported) == Timeout(old(View()))
    {
      var recvLen;
      if count <= remaining {
        recvLen := remaining - count;
      } else {
        recvLen := remaining + setCount - count;
      }
      reported := 0;
      if recvLen != 0 {
        remaining := count;
        reported := recvLen;
      }
    }
  }
}
