/** The Ethernet descriptor rings of drv_eth.c: gathering a chain of packet buffers into the
    transmit buffers, and scattering received buffers into a chain.

    A ring of n descriptors, each with a buffer of `size` bytes, is one flat memory of n * size
    bytes: descriptor d has bytes d * size up to (d + 1) * size. `own[d]` is set while the DMA owns
    descriptor d. */
module EthRing {
  import opened Basics
  import opened Ring

  type Chain = seq<seq<int>>

  function Flatten(c: Chain): seq<int> {
    if c == [] then [] else Flatten(c[..|c| - 1]) + c[|c| - 1]
  }

  /** The descriptors a frame of n bytes takes; an empty frame still takes one. */
  function Segments(n: nat, size: nat): nat
    requires 1 <= size
  {
    if n == 0 then 1 else (n - 1) / size + 1
  }

  ghost predicate Geometry(mem: seq<int>, own: seq<bool>, size: nat, start: nat) {
    1 <= size && 1 <= |own| && |mem| == |own| * size && start < |own|
  }

  /** The first `n` descriptors from `start` on belong to the driver. */
  ghost predicate Free(own: seq<bool>, start: nat, n: nat)
    requires 1 <= |own|
  {
    forall d :: 0 <= d < n ==> !own[Cell(start, d, |own|)]
  }

  // ---------------------------------------------------------------------------------------------
  // Flat positions
  // ---------------------------------------------------------------------------------------------

  lemma ProductPositive(a: nat, b: nat)
    requires 1 <= a && 1 <= b
    ensures a * b >= a && a * b >= b
  {
  }

  lemma Regroup(start: nat, j: nat, q: int, n: nat, r: nat, size: nat)
    requires start + j == q * n + r
    ensures start * size + j * size == q * (n * size) + r * size
  {
    calc {
      start * size + j * size;
      (start + j) * size;
      (q * n + r) * size;
      q * n * size + r * size;
      q * (n * size) + r * size;
    }
  }

  lemma RowInside(r: nat, n: nat, size: nat)
    requires r < n
    ensures r * size + size <= n * size
  {
    MulLe(r + 1, n, size);
    MulSucc(r, size);
  }

  /** Byte `off` of the j-th descriptor from `start` is flat position start * size + j * size + off. */
  lemma FlatCell(n: nat, size: nat, start: nat, j: nat, off: nat)
    requires 1 <= n && off < size
    ensures 1 <= n * size
    ensures (start * size + (j * size + off)) % (n * size) == Cell(start, j, n) * size + off
    ensures Cell(start, j, n) * size + size <= n * size
  {
    ProductPositive(n, size);
    var q, r := (start + j) / n, Cell(start, j, n);
    Regroup(start, j, q, n, r, size);
    RowInside(r, n, size);
    ModOf(start * size + (j * size + off), q, r * size + off, n * size);
  }

  lemma CellNear(u: nat, k: nat, m: nat)
    requires 1 <= m && u % m + k < m
    ensures Cell(u, k, m) == u % m + k
  {
    ModOf(u + k, u / m, u % m + k, m);
  }

  lemma {:induction false} PutContiguous(mem: seq<int>, u: nat, p: nat, data: seq<int>)
    requires 1 <= |mem| && p == u % |mem| && p + |data| <= |mem|
    ensures Put(mem, u, data) == mem[..p] + data + mem[p + |data|..]
  {
    if data == [] {
      assert mem == mem[..p] + data + mem[p..];
    } else {
      var last := |data| - 1;
      PutContiguous(mem, u, p, data[..last]);
      CellNear(u, last, |mem|);
      Overwrite(mem, p, data);
    }
  }

  lemma Overwrite(mem: seq<int>, p: nat, data: seq<int>)
    requires data != [] && p + |data| <= |mem|
    ensures var last := |data| - 1;
            (mem[..p] + data[..last] + mem[p + last..])[p + last := data[last]] == mem[..p] + data + mem[p + |data|..]
  {
  }

  lemma GetContiguous(mem: seq<int>, u: nat, n: nat)
    requires 1 <= |mem| && u % |mem| + n <= |mem|
    ensures Get(mem, u, n) == mem[u % |mem|..u % |mem| + n]
  {
    var p := u % |mem|;
    forall k | 0 <= k < n ensures Get(mem, u, n)[k] == mem[p..p + n][k] {
      CellNear(u, k, |mem|);
    }
  }

  lemma GetConcat(mem: seq<int>, u: nat, a: nat, b: nat)
    requires 1 <= |mem|
    ensures Get(mem, u, a + b) == Get(mem, u, a) + Get(mem, u + a, b)
  {
    var whole, parts := Get(mem, u, a + b), Get(mem, u, a) + Get(mem, u + a, b);
    forall k | 0 <= k < a + b ensures whole[k] == parts[k] {
      if a <= k {
        assert Cell(u, k, |mem|) == Cell(u + a, k - a, |mem|);
      }
    }
  }

  // ---------------------------------------------------------------------------------------------
  // Copying
  // ---------------------------------------------------------------------------------------------

  /** Copy `data` to the flat position u; it does not cross the end of the memory. */
  method CopyIn(mem: array<int>, at: nat, data: seq<int>, ghost u: nat)
    requires 1 <= mem.Length && at + |data| <= mem.Length
    requires data != [] ==> u % mem.Length == at
    modifies mem
    ensures mem[..] == Put(old(mem[..]), u, data)
  {
    ghost var was := mem[..];
    forall k | 0 <= k < |data| {
      mem[at + k] := data[k];
    }
    if data != [] {
      PutContiguous(was, u, at, data);
      assert mem[..] == was[..at] + data + was[at + |data|..];
    } else {
      assert mem[..] == was;
    }
  }

  /** The bytes in j whole buffers. */
  ghost function Rows(j: nat, size: nat): nat {
    if j == 0 then 0 else Rows(j - 1, size) + size
  }

  lemma {:induction false} RowsProduct(j: nat, size: nat)
    ensures Rows(j, size) == j * size
  {
    if j > 0 {
      RowsProduct(j - 1, size);
    }
  }

  /** Where the gather or scatter stands: `done` bytes moved, buffer j entered, `off` bytes into it. */
  ghost predicate At(done: nat, size: nat, j: nat, off: nat) {
    done == Rows(j, size) + off && off <= size
  }

  /** A buffer is entered only to put something into it. */
  predicate Entered(j: nat, off: nat) { off == 0 ==> j == 0 }

  lemma AtSegments(done: nat, size: nat, j: nat, off: nat)
    requires 1 <= size && At(done, size, j, off) && Entered(j, off)
    ensures Segments(done, size) == j + 1
  {
    RowsProduct(j, size);
    if done > 0 {
      ModOf(done - 1, j, off - 1, size);
    }
  }

  datatype TxResult = Sent(frameLength: nat) | InUse

  /** The first `done` bytes of the frame have gone to flat position `base` and on. */
  ghost predicate Gathered(mem: seq<int>, was: seq<int>, base: nat, frame: seq<int>, done: nat) {
    1 <= |was| && done <= |frame| && mem == Put(was, base, frame[..done])
  }

  /** `payload` is the part of the frame that starts at `from`. */
  ghost predicate Part(frame: seq<int>, from: nat, payload: seq<int>) {
    from + |payload| <= |frame| && frame[from..from + |payload|] == payload
  }

  /** Gather one packet buffer, the part of the frame that starts at `done`. */
  method GatherOne(mem: array<int>, own: seq<bool>, size: nat, start: nat, payload: seq<int>, j0: nat, off0: nat,
                   ghost was: seq<int>, ghost frame: seq<int>, ghost done: nat)
    returns (ok: bool, j: nat, off: nat, frameLength: nat)
    requires Geometry(mem[..], own, size, start) && Free(own, start, j0 + 1)
    requires At(done, size, j0, off0) && Entered(j0, off0)
    requires Gathered(mem[..], was, start * size, frame, done) && Part(frame, done, payload)
    modifies mem
    ensures frameLength <= |payload| && Gathered(mem[..], was, start * size, frame, done + frameLength)
    ensures Free(own, start, j + 1)
    ensures ok ==> frameLength == |payload| && At(done + frameLength, size, j, off) && Entered(j, off)
    ensures !ok ==> own[Cell(start, j + 1, |own|)]
    ensures !ok ==> frameLength < |payload| && At(done + frameLength, size, j, size)
  {
    var byteCnt, payloadOffset := |payload|, 0;
    j, off, frameLength := j0, off0, 0;
    while byteCnt + off > size
      invariant payloadOffset == frameLength && 0 <= byteCnt && payloadOffset + byteCnt == |payload|
      invariant byteCnt == 0 ==> Entered(j, off)
      invariant Gathered(mem[..], was, start * size, frame, done + frameLength)
      invariant At(done + frameLength, size, j, off) && Free(own, start, j + 1)
      decreases byteCnt, off
    {
      var room := size - off;
      PlaceNext(mem, |own|, size, start, j, off, payload, payloadOffset, room, start * size, was, frame, done);
      frameLength := frameLength + room;
      if own[Cell(start, j + 1, |own|)] {
        ok := false;
        return;
      }
      FreeNext(own, start, j + 1);
      AtNext(done + frameLength, size, j);
      j := j + 1;
      byteCnt := byteCnt - room;
      payloadOffset := payloadOffset + room;
      off := 0;
    }
    PlaceNext(mem, |own|, size, start, j, off, payload, payloadOffset, byteCnt, start * size, was, frame, done);
    off := off + byteCnt;
    frameLength := frameLength + byteCnt;
    ok := true;
  }

  lemma FreeNext(own: seq<bool>, start: nat, n: nat)
    requires 1 <= |own| && Free(own, start, n) && !own[Cell(start, n, |own|)]
    ensures Free(own, start, n + 1)
  {
  }

  /** The end of a buffer is the beginning of the next. */
  lemma AtNext(done: nat, size: nat, j: nat)
    requires At(done, size, j, size)
    ensures At(done, size, j + 1, 0)
  {
  }

  /** Copy `room` bytes of the payload behind what has been gathered. */
  method PlaceNext(mem: array<int>, n: nat, size: nat, start: nat, j: nat, off: nat, payload: seq<int>, used: nat,
                   room: nat, ghost base: nat, ghost was: seq<int>, ghost frame: seq<int>, ghost done: nat)
    requires 1 <= n && 1 <= size && mem.Length == n * size && base == start * size
    requires off + room <= size && used + room <= |payload| && At(done + used, size, j, off)
    requires Gathered(mem[..], was, base, frame, done + used) && Part(frame, done, payload)
    modifies mem
    ensures Gathered(mem[..], was, base, frame, done + used + room)
  {
    ghost var before := mem[..];
    var data := payload[used..used + room];
    Place(mem, n, size, start, j, off, data, base, done + used);
    Appended(before, mem[..], was, base, frame, done, payload, used, room);
  }

  lemma Appended(mem: seq<int>, next: seq<int>, was: seq<int>, base: nat, frame: seq<int>, done: nat,
                 payload: seq<int>, used: nat, room: nat)
    requires Gathered(mem, was, base, frame, done + used) && Part(frame, done, payload) && used + room <= |payload|
    requires 1 <= |mem| && next == Put(mem, base + (done + used), payload[used..used + room])
    ensures Gathered(next, was, base, frame, done + used + room)
  {
    PartOfPart(frame, done, payload, used, room);
    PutConcat(was, base, frame[..done + used], payload[used..used + room]);
  }

  lemma PartOfPart(frame: seq<int>, from: nat, payload: seq<int>, used: nat, room: nat)
    requires Part(frame, from, payload) && used + room <= |payload|
    ensures frame[..from + used + room] == frame[..from + used] + payload[used..used + room]
  {
    forall k | 0 <= k < |payload| ensures frame[from + k] == payload[k] {
      assert payload[k] == frame[from..from + |payload|][k];
    }
  }

  method Place(mem: array<int>, n: nat, size: nat, start: nat, j: nat, off: nat, data: seq<int>,
               ghost base: nat, ghost done: nat)
    requires 1 <= n && 1 <= size && mem.Length == n * size && base == start * size
    requires off + |data| <= size && At(done, size, j, off)
    modifies mem
    ensures 1 <= mem.Length && mem[..] == Put(old(mem[..]), base + done, data)
  {
    Position(n, size, start, j, off, done);
    CopyIn(mem, Cell(start, j, n) * size + off, data, base + done);
  }

  lemma FullSegments(full: nat, total: nat, size: nat, j: nat)
    requires 1 <= size && At(full, size, j, size) && full < total
    ensures Segments(full, size) == j + 1 < Segments(total, size)
  {
    RowsProduct(j, size);
    ModOf(full - 1, j, size - 1, size);
    var q, r := (total - 1) / size, (total - 1) % size;
    assert total - 1 == q * size + r;
    if q <= j {
      MulLe(q, j, size);
    }
  }

  // ---------------------------------------------------------------------------------------------
  // Transmit
  // ---------------------------------------------------------------------------------------------

  /** Gather a chain and submit the frame. `placed` is the number of frame bytes written before the exit. */
  method Tx(mem: array<int>, own: seq<bool>, size: nat, start: nat, chain: Chain)
    returns (r: TxResult, ghost placed: nat)
    requires Geometry(mem[..], own, size, start)
    modifies mem
    ensures 1 <= mem.Length && placed <= |Flatten(chain)|
    ensures Gathered(mem[..], old(mem[..]), start * size, Flatten(chain), placed)
    ensures placed > 0 ==> Free(own, start, Segments(placed, size))
    ensures r.Sent? <==> chain == [] || Free(own, start, Segments(|Flatten(chain)|, size))
    ensures r.Sent? ==> r.frameLength == placed == |Flatten(chain)|
  {
    ProductPositive(|own|, size);
    ghost var was, frame := mem[..], Flatten(chain);
    var j, off, frameLength := 0, 0, 0;
    for q := 0 to |chain|
      invariant frameLength == |Flatten(chain[..q])| <= |frame|
      invariant Gathered(mem[..], was, start * size, frame, frameLength)
      invariant At(frameLength, size, j, off) && Entered(j, off)
      invariant q > 0 ==> Free(own, start, j + 1)
    {
      AtSegments(frameLength, size, j, off);
      SegmentsMonotone(frameLength, |frame|, size);
      if own[Cell(start, j, |own|)] {
        return InUse, frameLength;
      }
      FlattenPart(chain, q);
      var ok, len;
      ghost var done := frameLength;
      ok, j, off, len := GatherOne(mem, own, size, start, chain[q], j, off, was, frame, frameLength);
      frameLength := frameLength + len;
      if !ok {
        FullSegments(frameLength, |frame|, size, j);
        return InUse, frameLength;
      }
    }
    assert chain[..|chain|] == chain;
    AtSegments(frameLength, size, j, off);
    return Sent(frameLength), frameLength;
  }

  lemma FlattenPart(chain: Chain, q: nat)
    requires q < |chain|
    ensures Part(Flatten(chain), |Flatten(chain[..q])|, chain[q])
    ensures |Flatten(chain[..q + 1])| == |Flatten(chain[..q])| + |chain[q]| <= |Flatten(chain)|
  {
    FlattenNext(chain, q);
    FlattenPrefix(chain, q + 1);
    var n := |Flatten(chain[..q])|;
    assert Flatten(chain)[n..n + |chain[q]|] == Flatten(chain[..q + 1])[n..];
  }

  lemma FlattenNext(chain: Chain, q: nat)
    requires q < |chain|
    ensures Flatten(chain[..q + 1]) == Flatten(chain[..q]) + chain[q]
  {
    assert chain[..q + 1][..q] == chain[..q];
  }

  lemma {:induction false} FlattenPrefix(chain: Chain, q: nat)
    requires q <= |chain|
    ensures Flatten(chain[..q]) <= Flatten(chain)
    decreases |chain| - q
  {
    if q == |chain| {
      assert chain[..q] == chain;
    } else {
      FlattenNext(chain, q);
      FlattenPrefix(chain, q + 1);
    }
  }

  lemma QuotientAtLeast(a: nat, size: nat)
    requires 1 <= size
    ensures 0 <= a / size && (a / size) * size <= a
  {
  }

  lemma SegmentsMonotone(a: nat, b: nat, size: nat)
    requires 1 <= size && a <= b
    ensures Segments(a, size) <= Segments(b, size)
  {
    if a > 0 {
      var x := (a - 1) / size;
      QuotientAtLeast(a - 1, size);
      FloorAtLeast(b - 1, size, x);
    }
  }

  // ---------------------------------------------------------------------------------------------
  // Receive
  // ---------------------------------------------------------------------------------------------

  function Sum(lens: seq<nat>): nat {
    if lens == [] then 0 else Sum(lens[..|lens| - 1]) + lens[|lens| - 1]
  }

  ghost predicate Shaped(chain: Chain, lens: seq<nat>) {
    |chain| == |lens| && forall i :: 0 <= i < |lens| ==> |chain[i]| == lens[i]
  }

  /** Scatter the bytes from flat position `done` on into one packet buffer of `len` bytes. */
  method ScatterOne(mem: array<int>, n: nat, size: nat, first: nat, len: nat, j0: nat, off0: nat, ghost done: nat)
    returns (payload: seq<int>, j: nat, off: nat)
    requires 1 <= n && 1 <= size && 1 <= mem.Length == n * size && At(done, size, j0, off0)
    ensures At(done + len, size, j, off)
    ensures payload == Get(mem[..], first * size + done, len)
  {
    var byteCnt := len;
    payload, j, off := [], j0, off0;
    while byteCnt + off > size
      invariant 0 <= byteCnt && |payload| + byteCnt == len
      invariant payload == Get(mem[..], first * size + done, |payload|)
      invariant At(done + |payload|, size, j, off)
      decreases byteCnt, off
    {
      payload := Take(mem, n, size, first, j, off, size - off, payload, done);
      byteCnt := byteCnt - (size - off);
      j, off := j + 1, 0;
    }
    payload := Take(mem, n, size, first, j, off, byteCnt, payload, done);
    off := off + byteCnt;
  }

  lemma Position(n: nat, size: nat, first: nat, j: nat, off: nat, done: nat)
    requires 1 <= n && 1 <= size && At(done, size, j, off)
    ensures Cell(first, j, n) * size + size <= n * size && 1 <= n * size
    ensures off < size ==> (first * size + done) % (n * size) == Cell(first, j, n) * size + off
  {
    RowsProduct(j, size);
    FlatCell(n, size, first, j, 0);
    if off < size {
      FlatCell(n, size, first, j, off);
    }
  }

  /** Append `room` bytes of buffer j, from offset `off` on, to the payload. */
  method Take(mem: array<int>, n: nat, size: nat, first: nat, j: nat, off: nat, room: nat, payload: seq<int>,
              ghost done: nat) returns (more: seq<int>)
    requires 1 <= n && 1 <= size && 1 <= mem.Length == n * size
    requires off + room <= size && At(done + |payload|, size, j, off)
    requires payload == Get(mem[..], first * size + done, |payload|)
    ensures |more| == |payload| + room && more == Get(mem[..], first * size + done, |more|)
  {
    Position(n, size, first, j, off, done + |payload|);
    var at := Cell(first, j, n) * size + off;
    more := payload + mem[at..at + room];
    GetConcat(mem[..], first * size + done, |payload|, room);
    if room > 0 {
      GetContiguous(mem[..], first * size + done + |payload|, room);
    }
  }

  /** Take a received frame of `len` bytes out of the ring and give its descriptors back.
      `alloc` is the chain the network stack allocated for the length, which it is told as a 16-bit
      number; there is none for an empty frame or when memory is short. */
  method Rx(mem: array<int>, own: array<bool>, size: nat, first: nat, len: nat, segCount: nat, alloc: Option<seq<nat>>)
    returns (r: Option<Chain>)
    requires Geometry(mem[..], own[..], size, first)
    requires alloc.Some? ==> 0 < len && Sum(alloc.value) == len % 0x1_0000
    modifies own
    ensures 1 <= mem.Length
    ensures r.Some? <==> alloc.Some?
    ensures r.Some? ==> Shaped(r.value, alloc.value)
    ensures r.Some? ==> Flatten(r.value) == Get(mem[..], first * size, len % 0x1_0000)
    ensures own[..] == Released(old(own[..]), first, segCount)
  {
    ProductPositive(own.Length, size);
    r := None;
    if alloc.Some? {
      var chain := ScatterAll(mem, own.Length, size, first, alloc.value);
      r := Some(chain);
    }
    Release(own, first, segCount);
  }

  /** Give `n` consecutive descriptors back. */
  method Release(own: array<bool>, first: nat, n: nat)
    requires first < own.Length
    modifies own
    ensures own[..] == Released(old(own[..]), first, n)
  {
    ghost var was := own[..];
    var d := first;
    for i := 0 to n
      invariant d == Cell(first, i, |was|)
      invariant own[..] == Released(was, first, i)
    {
      own[d] := true;
      Next(first + i, |was|);
      d := if d + 1 == own.Length then 0 else d + 1;
    }
  }

  method ScatterAll(mem: array<int>, n: nat, size: nat, first: nat, lens: seq<nat>) returns (chain: Chain)
    requires 1 <= n && 1 <= size && 1 <= mem.Length == n * size
    ensures Shaped(chain, lens) && Flatten(chain) == Get(mem[..], first * size, Sum(lens))
  {
    chain := [];
    var j, off := 0, 0;
    for q := 0 to |lens|
      invariant |chain| == q && forall i :: 0 <= i < q ==> |chain[i]| == lens[i]
      invariant Flatten(chain) == Get(mem[..], first * size, Sum(lens[..q]))
      invariant At(Sum(lens[..q]), size, j, off)
    {
      ghost var done := Sum(lens[..q]);
      assert lens[..q + 1][..q] == lens[..q];
      var payload;
      payload, j, off := ScatterOne(mem, n, size, first, lens[q], j, off, done);
      GetConcat(mem[..], first * size, done, lens[q]);
      assert (chain + [payload])[..q] == chain;
      chain := chain + [payload];
    }
    assert lens[..|lens|] == lens;
  }

  /** Ownership after `n` consecutive descriptors from `first` on went back to the DMA. */
  ghost function Released(own: seq<bool>, first: nat, n: nat): (r: seq<bool>)
    requires 1 <= |own|
    ensures |r| == |own|
  {
    if n == 0 then own else Released(own, first, n - 1)[Cell(first, n - 1, |own|) := true]
  }

  // ---------------------------------------------------------------------------------------------
  // Main results
  // ---------------------------------------------------------------------------------------------

  /** Whatever the exit, a descriptor that the DMA owns keeps its buffer. */
  lemma OwnedUntouched(mem: seq<int>, own: seq<bool>, size: nat, start: nat, frame: seq<int>, placed: nat,
                       d: nat, x: nat)
    requires Geometry(mem, own, size, start) && 1 <= |mem| && placed <= |frame|
    requires placed > 0 ==> Free(own, start, Segments(placed, size))
    requires d < |own| && own[d] && x < size
    ensures d * size + x < |mem|
    ensures Put(mem, start * size, frame[..placed])[d * size + x] == mem[d * size + x]
  {
    RowInside(d, |own|, size);
    forall k | 0 <= k < placed ensures Cell(start * size, k, |mem|) != d * size + x {
      SegmentsMonotone(k + 1, placed, size);
      LandsFree(own, size, start, k, d, x);
    }
    PutElsewhere(mem, start * size, frame[..placed], d * size + x);
  }

  lemma LandsFree(own: seq<bool>, size: nat, start: nat, k: nat, d: nat, x: nat)
    requires 1 <= |own| && 1 <= size && Free(own, start, Segments(k + 1, size))
    requires d < |own| && own[d] && x < size
    ensures 1 <= |own| * size && Cell(start * size, k, |own| * size) != d * size + x
  {
    var j, off := k / size, k % size;
    assert k == j * size + off;
    FlatCell(|own|, size, start, j, off);
    var e := Cell(start, j, |own|);
    assert !own[e];
    if e * size + off == d * size + x {
      ModOf(d * size + x, d, x, size);
      ModOf(d * size + x, e, off, size);
    }
  }

  /** Exactly the released descriptors change hands. */
  lemma {:induction false} ReleasedExactly(own: seq<bool>, first: nat, n: nat, d: nat)
    requires d < |own|
    ensures Released(own, first, n)[d] <==> own[d] || exists i :: 0 <= i < n && Cell(first, i, |own|) == d
  {
    if n > 0 {
      ReleasedExactly(own, first, n - 1, d);
      if Cell(first, n - 1, |own|) == d {
        assert Released(own, first, n)[d];
      }
    }
  }

  /** Gather then scatter is the identity: what a transmission lays into a ring, found there by a
      reception under any other segmentation of its length, comes back byte for byte. */
  method GatherScatter(mem: array<int>, own: array<bool>, size: nat, start: nat, chain: Chain, lens: seq<nat>)
    returns (out: Option<Chain>)
    requires Geometry(mem[..], own[..], size, start) && Free(own[..], start, Segments(|Flatten(chain)|, size))
    requires 0 < |Flatten(chain)| == Sum(lens) < 0x1_0000 && |Flatten(chain)| <= mem.Length
    modifies mem, own
    ensures out.Some? && Shaped(out.value, lens) && Flatten(out.value) == Flatten(chain)
  {
    ghost var before, frame := mem[..], Flatten(chain);
    ghost var placed;
    var sent;
    sent, placed := Tx(mem, own[..], size, start, chain);
    ghost var base := start * size;
    assert frame[..placed] == frame;
    WholeReadBack(before, base, frame);
    assert Get(mem[..], base, |frame|) == frame;
    out := Rx(mem, own, size, start, sent.frameLength, Segments(sent.frameLength, size), Some(lens));
  }

  lemma WholeReadBack(mem: seq<int>, base: nat, frame: seq<int>)
    requires 1 <= |mem| && |frame| <= |mem|
    ensures Get(Put(mem, base, frame), base, |frame|) == frame
  {
    ReadBack(mem, base, frame, 0);
    assert frame[0..] == frame;
  }

  /** Frames of n bytes survive the ring exactly when the ring holds n bytes. The driver has no check:
      a longer frame wraps onto its own first buffers and is still submitted. */
  lemma FitsExactly(mem: seq<int>, base: nat, n: nat)
    requires 1 <= |mem|
    ensures (forall frame: seq<int> :: |frame| == n ==> Get(Put(mem, base, frame), base, n) == frame) <==> n <= |mem|
  {
    if n <= |mem| {
      forall frame: seq<int> | |frame| == n ensures Get(Put(mem, base, frame), base, n) == frame {
        WholeReadBack(mem, base, frame);
      }
    } else {
      var frame: seq<int> := seq(n, i => i);
      OneLapLater(mem, base, frame);
      assert Get(Put(mem, base, frame), base, n)[n - 1 - |mem|] != frame[n - 1 - |mem|];
    }
  }

  lemma OneLapLater(mem: seq<int>, base: nat, frame: seq<int>)
    requires 1 <= |mem| < |frame|
    ensures Get(Put(mem, base, frame), base, |frame|)[|frame| - 1 - |mem|] == frame[|frame| - 1]
  {
    var last, cap := |frame| - 1, |mem|;
    PutCell(mem, base, frame, last);
    var k := last - cap;
    MulSucc((base + k) / cap, cap);
    ModOf(base + last, (base + k) / cap + 1, (base + k) % cap, cap);
    assert Cell(base, k, cap) == Cell(base, last, cap);
  }
}
