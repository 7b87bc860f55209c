/** Reading the serial flash through the 64 MiB memory window of drv_qspi.c, with and without DMA.

    `bus(b, a)` is the byte the processor sees at bus address a while memory block b is selected.
    Addresses and lengths are 32-bit words. */
module QspiWindow {
  import opened Basics

  const BLOCK: nat := 0x400_0000
  const MAX_ADDR: nat := 0xFC00_0000
  const ROM_BASE: nat := 0x9800_0000
  const ROM_END: nat := 0x9BFF_FFFF
  const DMA_MAX: nat := 0x3FF

  type Bus = (nat, nat) -> int

  /** The flash as a flat memory: byte p is seen at offset p mod 64 MiB of block p / 64 MiB. */
  function Flash(bus: Bus, p: nat): int {
    bus(p / BLOCK, ROM_BASE + p % BLOCK)
  }

  /** The request passes the range check, which is made on the wrapped sum. */
  predicate Accepted(addr: nat, length: nat) {
    Wrap(addr + length) <= MAX_ADDR
  }

  /** The window check wraps around as well: the read is made as one straight run. */
  predicate Straight(addr: nat, length: nat) {
    addr % BLOCK + length >= WORD - ROM_BASE
  }

  /** Block and bus address from which byte k of the request is read. */
  function Source(addr: nat, length: nat, k: nat): (nat, nat) {
    if Straight(addr, length) then (addr / BLOCK, Wrap(ROM_BASE + addr % BLOCK + k))
    else ((addr + k) / BLOCK, ROM_BASE + (addr + k) % BLOCK)
  }

  datatype Status = Ok | InvalidParam | TimedOut

  // ---------------------------------------------------------------------------------------------
  // One stretch inside the selected block
  // ---------------------------------------------------------------------------------------------

  /** `n` bytes at `at` are those the bus shows from `address` on; before `at` and from `end` on the
      buffer is as it was. */
  ghost predicate Copied(bus: Bus, block: nat, address: nat, was: seq<int>, now: seq<int>, at: nat, n: nat, end: nat) {
    && at + n <= end <= |was| == |now|
    && (forall i :: at <= i < at + n ==> now[i] == bus(block, Wrap(address + (i - at))))
    && (forall i :: 0 <= i < at || end <= i < |was| ==> now[i] == was[i])
  }

  method CopyBytes(bus: Bus, block: nat, address: nat, rx: array<int>, at: nat, n: nat)
    requires at + n <= rx.Length
    modifies rx
    ensures Copied(bus, block, address, old(rx[..]), rx[..], at, n, at + n)
  {
    var count := 0;
    while count < n
      invariant count <= n
      invariant Copied(bus, block, address, old(rx[..]), rx[..], at, count, at + count)
    {
      rx[at + count] := bus(block, Wrap(address + count));
      count := count + 1;
    }
  }

  /** The DMA form, in chunks of at most 1023 bytes. `completes(i)` says whether the chunk that starts
      at buffer index i finishes in time; a chunk that does not may leave anything behind. */
  method CopyDma(bus: Bus, block: nat, address: nat, rx: array<int>, at: nat, n: nat, completes: nat -> bool)
    returns (ok: bool, got: nat)
    requires at + n <= rx.Length
    modifies rx
    ensures got <= n && Copied(bus, block, address, old(rx[..]), rx[..], at, got, at + n)
    ensures ok ==> got == n
    ensures forall i :: at <= i < at + got && (i - at) % 1023 == 0 ==> completes(i)
    ensures !ok ==> got < n && got % 1023 == 0 && !completes(at + got)
  {
    var left: nat := n;
    got := 0;
    while left != 0
      invariant got + left == n && (left != 0 ==> got % 1023 == 0)
      invariant forall i :: at <= i < at + got && (i - at) % 1023 == 0 ==> completes(i)
      invariant Copied(bus, block, address, old(rx[..]), rx[..], at, got, at + got)
    {
      var size;
      if left > DMA_MAX {
        size := DMA_MAX;
        left := left - DMA_MAX;
      } else {
        size := left;
        left := 0;
      }
      if !completes(at + got) {
        Havoc(rx, at + got, size);
        return false, got;
      }
      ghost var before := rx[..];
      CopyBytes(bus, block, Wrap(address + got), rx, at + got, size);
      Chained(bus, block, address, old(rx[..]), before, rx[..], at, got, size);
      got := got + size;
    }
    ok := true;
  }

  method Havoc(rx: array<int>, at: nat, n: nat)
    requires at + n <= rx.Length
    modifies rx
    ensures forall i :: 0 <= i < at || at + n <= i < rx.Length ==> rx[i] == old(rx[i])
  {
    for i := 0 to n
      invariant forall i :: 0 <= i < at || at + n <= i < rx.Length ==> rx[i] == old(rx[i])
    {
      rx[at + i] := *;
    }
  }

  lemma WrapTwice(a: nat, b: nat)
    ensures Wrap(Wrap(a) + b) == Wrap(a + b)
  {
  }

  lemma Chained(bus: Bus, block: nat, address: nat, was: seq<int>, mid: seq<int>, now: seq<int>, at: nat, a: nat, b: nat)
    requires Copied(bus, block, address, was, mid, at, a, at + a)
    requires Copied(bus, block, Wrap(address + a), mid, now, at + a, b, at + a + b)
    ensures Copied(bus, block, address, was, now, at, a + b, at + a + b)
  {
    forall i | at <= i < at + a + b ensures now[i] == bus(block, Wrap(address + (i - at))) {
      if at + a <= i {
        WrapTwice(address + a, i - at - a);
      }
    }
  }

  // ---------------------------------------------------------------------------------------------
  // The whole read
  // ---------------------------------------------------------------------------------------------

  ghost predicate Filled(bus: Bus, addr: nat, length: nat, rx: seq<int>, n: nat) {
    n <= |rx| && forall k :: 0 <= k < n ==>
      rx[k] == bus(Source(addr, length, k).0, Source(addr, length, k).1)
  }

  /** The read of a ROM command. `dma` selects the build option; without it no chunk can time out. */
  method Read(bus: Bus, addr: nat, length: nat, rx: array<int>, dma: bool, completes: nat -> bool)
    returns (status: Status, ghost got: nat)
    requires addr < WORD && length < WORD && length <= rx.Length
    modifies rx
    ensures status == InvalidParam <==> !Accepted(addr, length)
    ensures addr + length < WORD ==> (status == InvalidParam <==> addr + length > 63 * 0x400_0000)
    ensures status == Ok ==> got == length
    ensures status != InvalidParam && (!dma || forall i :: completes(i)) ==> status == Ok
    ensures got <= length && Filled(bus, addr, length, rx[..], got)
    ensures status == InvalidParam ==> rx[..] == old(rx[..])
    ensures rx[length..] == old(rx[length..])
    ensures addr % 0x400_0000 + length < 0x6800_0000 ==>
              forall k :: 0 <= k < got ==> rx[k] == bus((addr + k) / 0x400_0000, 0x9800_0000 + (addr + k) % 0x400_0000)
  {
    got := 0;
    var block: nat := addr / BLOCK;
    if Wrap(addr + length) > MAX_ADDR {
      return InvalidParam, 0;
    }
    var address: nat := addr % BLOCK + ROM_BASE;
    var left: nat, index: nat := length, 0;
    while left != 0
      invariant index + left == length && got == index
      invariant Filled(bus, addr, length, rx[..], index)
      invariant rx[length..] == old(rx[length..])
      invariant left != 0 ==> Aim(addr, length, index, block, address)
    {
      var size;
      if Wrap(address + left) > ROM_END + 1 {
        size := ROM_END + 1 - address;
        left := left - size;
      } else {
        size := left;
        left := 0;
      }
      StretchSource(addr, length, index, block, address, size);
      ghost var before := rx[..];
      if dma {
        var ok, n := CopyDma(bus, block, address, rx, index, size, completes);
        Extend(bus, addr, length, before, rx[..], index, block, address, n, index + size);
        if !ok {
          return TimedOut, index + n;
        }
      } else {
        CopyBytes(bus, block, address, rx, index, size);
        Extend(bus, addr, length, before, rx[..], index, block, address, size, index + size);
      }
      index := index + size;
      got := index;
      if left != 0 {
        block := block + 1;
        address := ROM_BASE;
      }
    }
    status := Ok;
  }

  /** Block and address stand at byte `index` of the request, at most one window before its end. */
  ghost predicate Aim(addr: nat, length: nat, index: nat, block: nat, address: nat) {
    && index < length && ROM_BASE <= address <= ROM_END
    && block * BLOCK + (address - ROM_BASE) == addr + index
    && (Straight(addr, length) ==> index == 0)
  }

  lemma StretchSource(addr: nat, length: nat, index: nat, block: nat, address: nat, size: nat)
    requires addr < WORD && length < WORD && Aim(addr, length, index, block, address)
    requires size == if Wrap(address + (length - index)) > ROM_END + 1 then ROM_END + 1 - address else length - index
    ensures 0 < size <= length - index
    ensures size < length - index ==> !Straight(addr, length) && address + size == ROM_END + 1
    ensures forall i :: index <= i < index + size ==>
              Source(addr, length, i) == (block, Wrap(address + (i - index)))
  {
    if !Straight(addr, length) {
      assert addr % BLOCK + length < WORD - ROM_BASE;
      assert address + (length - index) < WORD by {
        AimOffset(addr, length, index, block, address);
      }
    }
    forall i | index <= i < index + size
      ensures Source(addr, length, i) == (block, Wrap(address + (i - index)))
    {
    }
  }

  lemma AimOffset(addr: nat, length: nat, index: nat, block: nat, address: nat)
    requires Aim(addr, length, index, block, address)
    ensures address - ROM_BASE <= addr % BLOCK + index
  {
  }

  lemma Extend(bus: Bus, addr: nat, length: nat, was: seq<int>, now: seq<int>, index: nat, block: nat, address: nat,
               n: nat, end: nat)
    requires Filled(bus, addr, length, was, index) && Copied(bus, block, address, was, now, index, n, end)
    requires forall i :: index <= i < index + n ==> Source(addr, length, i) == (block, Wrap(address + (i - index)))
    requires end <= length <= |was|
    ensures Filled(bus, addr, length, now, index + n)
    ensures now[length..] == was[length..]
  {
  }

  // ---------------------------------------------------------------------------------------------
  // Main results
  // ---------------------------------------------------------------------------------------------

  /** The windowed read takes every byte from its flat place exactly when the window check did not wrap around. */
  lemma FlatExactly(addr: nat, length: nat)
    requires addr < WORD && length < WORD
    ensures (forall k :: 0 <= k < length ==>
               Source(addr, length, k) == ((addr + k) / BLOCK, ROM_BASE + (addr + k) % BLOCK))
            <==> !Straight(addr, length)
  {
    if Straight(addr, length) {
      var k := BLOCK - addr % BLOCK;
      assert Source(addr, length, k).1 == ROM_BASE + BLOCK;
      assert (addr + k) % BLOCK < BLOCK;
    }
  }

  /** A request that is accepted and read as one straight run, past the window's end after 64 MiB; it
      takes a buffer larger than this device has. */
  lemma StraightAccepted()
    ensures Accepted(0, 0x6800_0000) && Straight(0, 0x6800_0000)
    ensures Source(0, 0x6800_0000, BLOCK) == (0, ROM_END + 1) != (1, ROM_BASE)
  {
  }

  lemma FlatRead(bus: Bus, addr: nat, length: nat, rx: seq<int>, k: nat)
    requires !Straight(addr, length) && Filled(bus, addr, length, rx, length) && k < length
    ensures rx[k] == Flash(bus, addr + k)
  {
  }

  /** The block number stays within the 63 the flash range has exactly when the unwrapped end does. */
  lemma BlocksExactly(addr: nat, length: nat)
    requires 0 < length && !Straight(addr, length)
    ensures (forall k :: 0 <= k < length ==> Source(addr, length, k).0 <= 62) <==> addr + length <= MAX_ADDR
  {
    if addr + length > MAX_ADDR {
      assert Source(addr, length, length - 1).0 > 62;
    }
  }

  /** A request that runs past the end of the address space is accepted. */
  lemma AcceptedPastTheEnd()
    ensures Accepted(0xFFFF_FFF0, 0x20) && 0xFFFF_FFF0 + 0x20 > MAX_ADDR
    ensures Source(0xFFFF_FFF0, 0x20, 0x1F).0 == 64
  {
  }
}
