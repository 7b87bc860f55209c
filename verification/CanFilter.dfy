/** The acceptance-filter banks of drv_can.c: parameter check, automatic bank allocation, and the
    order in which the hardware layer programs the banks.

    The bit mask of selected filters is modelled as the set of its bit positions. */
module CanFilter {

  const FILTER_COUNT: int := 8
  const AUTO: int := -1

  /** One filter item; `bank` is the source's hdr_bank, `mode` and `rtr` its one-bit fields. */
  datatype Item = Item(id: nat, mask: nat, mode: bool, rtr: bool, bank: int)

  /** Bank numbers reach the range test as unsigned words, so any negative number but -1 is too large. */
  predicate Acceptable(it: Item) {
    (it.bank == AUTO || 0 <= it.bank < FILTER_COUNT) && !it.mode && !it.rtr
  }

  predicate Checked(items: seq<Item>) {
    |items| <= FILTER_COUNT && forall i :: 0 <= i < |items| ==> Acceptable(items[i])
  }

  function Unsigned(x: int): int
    requires -0x8000_0000 <= x < 0x8000_0000
  {
    if x < 0 then x + 0x1_0000_0000 else x
  }

  method CheckParams(items: seq<Item>) returns (ok: bool)
    requires |items| <= FILTER_COUNT
    requires forall i :: 0 <= i < |items| ==> -0x8000_0000 <= items[i].bank < 0x8000_0000
    ensures ok <==> Checked(items)
    ensures ok <==> forall i :: 0 <= i < |items| ==>
              (items[i].bank == -1 || 0 <= items[i].bank < 8) && !items[i].mode && !items[i].rtr
  {
    for i := 0 to |items|
      invariant forall k :: 0 <= k < i ==> Acceptable(items[k])
    {
      if items[i].bank != AUTO && Unsigned(items[i].bank) >= FILTER_COUNT {
        return false;
      }
      if items[i].mode {
        return false;
      }
      if items[i].rtr {
        return false;
      }
    }
    return true;
  }

  // ---------------------------------------------------------------------------------------------
  // What an allocation is
  // ---------------------------------------------------------------------------------------------

  function Banks(items: seq<Item>): (s: set<int>)
    ensures forall b :: b in s <==> exists i :: 0 <= i < |items| && items[i].bank == b
  {
    set i | 0 <= i < |items| :: items[i].bank
  }

  function Explicit(items: seq<Item>): (s: set<int>)
    ensures forall b :: b in s <==> exists i :: 0 <= i < |items| && items[i].bank == b && b != AUTO
  {
    set i | 0 <= i < |items| && items[i].bank != AUTO :: items[i].bank
  }

  /** Only the banks of automatic items change, and each of those gets a bank nobody else has. */
  ghost predicate Allocated(before: seq<Item>, after: seq<Item>) {
    && |after| == |before|
    && (forall i :: 0 <= i < |before| ==> after[i] == before[i].(bank := after[i].bank))
    && (forall i :: 0 <= i < |before| && before[i].bank != AUTO ==> after[i].bank == before[i].bank)
    && (forall i :: 0 <= i < |before| ==> 0 <= after[i].bank < FILTER_COUNT)
    && (forall i, j :: 0 <= i < |before| && 0 <= j < |before| && i != j && before[i].bank == AUTO ==>
          after[i].bank != after[j].bank)
  }

  /** Automatic banks are handed out lowest first: every bank below one is explicit or was handed out before. */
  ghost predicate LowestFirst(before: seq<Item>, after: seq<Item>)
    requires |after| == |before|
  {
    forall i, b :: 0 <= i < |before| && before[i].bank == AUTO && 0 <= b < after[i].bank ==>
      b in Explicit(before) || HandedOut(before, after, i, b)
  }

  ghost predicate HandedOut(before: seq<Item>, after: seq<Item>, i: int, b: int)
    requires |after| == |before| && 0 <= i <= |before|
  {
    exists j :: 0 <= j < i && before[j].bank == AUTO && after[j].bank == b
  }

  // ---------------------------------------------------------------------------------------------
  // The pigeonhole argument
  // ---------------------------------------------------------------------------------------------

  function Autos(items: seq<Item>): (n: nat)
    ensures n <= |items|
  {
    if items == [] then 0
    else Autos(items[..|items| - 1]) + if items[|items| - 1].bank == AUTO then 1 else 0
  }

  lemma {:induction false} ExplicitSize(items: seq<Item>)
    ensures |Explicit(items)| + Autos(items) <= |items|
  {
    if items != [] {
      var init, last := items[..|items| - 1], items[|items| - 1];
      ExplicitSize(init);
      assert Explicit(items) == Explicit(init) + if last.bank == AUTO then {} else {last.bank};
    }
  }

  lemma {:induction false} AutosMonotone(items: seq<Item>, i: nat)
    requires i < |items| && items[i].bank == AUTO
    ensures Autos(items[..i]) < Autos(items)
    decreases |items|
  {
    var init := items[..|items| - 1];
    if i < |init| {
      AutosMonotone(init, i);
      assert init[..i] == items[..i];
    }
  }

  lemma FreeBank(mask: set<int>)
    requires |mask| < FILTER_COUNT
    ensures exists b :: 0 <= b < FILTER_COUNT && b !in mask
  {
    if forall b :: 0 <= b < FILTER_COUNT ==> b in mask {
      var all := {0, 1, 2, 3, 4, 5, 6, 7};
      assert all <= mask;
      SubsetSize(all, mask);
      assert false;
    }
  }

  lemma SubsetSize(a: set<int>, b: set<int>)
    requires a <= b
    ensures |a| <= |b|
  {
    assert b == a + (b - a);
  }

  // ---------------------------------------------------------------------------------------------
  // The allocator
  // ---------------------------------------------------------------------------------------------

  method LowestFree(mask: set<int>) returns (j: int)
    requires |mask| < FILTER_COUNT
    ensures 0 <= j < FILTER_COUNT && j !in mask
    ensures forall b :: 0 <= b < j ==> b in mask
  {
    FreeBank(mask);
    j := 0;
    while j < FILTER_COUNT
      invariant 0 <= j <= FILTER_COUNT
      invariant forall b :: 0 <= b < j ==> b in mask
    {
      if j !in mask {
        return;
      }
      j := j + 1;
    }
    assert false;
  }

  method CollectExplicit(items: array<Item>) returns (mask: set<int>)
    ensures mask == Explicit(items[..])
  {
    mask := {};
    for i := 0 to items.Length
      invariant mask == Explicit(items[..i])
    {
      assert items[..i + 1] == items[..i] + [items[i]];
      if items[i].bank != AUTO {
        mask := mask + {items[i].bank};
      }
      assert mask == Explicit(items[..i + 1]);
    }
    assert items[..items.Length] == items[..];
  }

  /** Both loops of the allocator: collect the explicit banks, then give each automatic item the lowest free one. */
  method GetFilterIdx(items: array<Item>) returns (mask: set<int>)
    requires Checked(items[..])
    modifies items
    ensures Allocated(old(items[..]), items[..])
    ensures LowestFirst(old(items[..]), items[..])
    ensures mask == Banks(items[..])
  {
    ghost var before := items[..];
    mask := CollectExplicit(items);
    ExplicitSize(before);
    for i := 0 to items.Length
      invariant Progress(before, items[..], i, mask)
    {
      mask := AllocateOne(items, before, i, mask);
    }
    assert before[..|before|] == before;
    AllDone(before, items[..], mask);
  }

  /** One round of the second loop. */
  method AllocateOne(items: array<Item>, ghost before: seq<Item>, i: nat, selected: set<int>) returns (mask: set<int>)
    requires i < |before| && Checked(before) && Progress(before, items[..], i, selected)
    modifies items
    ensures Progress(before, items[..], i + 1, mask)
  {
    ghost var now := items[..];
    mask := selected;
    assert now[i] == before[i];
    AutosNext(before, i);
    if items[i].bank == AUTO {
      AutosMonotone(before, i);
      var j := LowestFree(mask);
      items[i] := items[i].(bank := j);
      assert items[..] == now[i := now[i].(bank := j)];
      ExtendAuto(before, now, i, mask, j);
      mask := mask + {j};
    } else {
      ExtendExplicit(before, now, i, mask);
    }
  }

  lemma AutosNext(items: seq<Item>, i: nat)
    requires i < |items|
    ensures Autos(items[..i + 1]) == Autos(items[..i]) + if items[i].bank == AUTO then 1 else 0
  {
    assert items[..i + 1][..i] == items[..i];
  }

  /** The second loop's invariant: the work done, the items to come, and the count of banks taken. */
  ghost predicate Progress(before: seq<Item>, now: seq<Item>, i: int, mask: set<int>) {
    && Done(before, now, i, mask)
    && Explicit(before) <= mask
    && (forall k :: i <= k < |before| ==> now[k] == before[k])
    && |mask| + Autos(before) <= |before| + Autos(before[..i])
  }

  lemma AllDone(before: seq<Item>, after: seq<Item>, mask: set<int>)
    requires Checked(before) && Done(before, after, |before|, mask) && Explicit(before) <= mask
    ensures Allocated(before, after) && LowestFirst(before, after) && mask == Banks(after)
  {
    forall b | b in mask ensures b in Banks(after) {
      if b in Explicit(before) {
        var i :| 0 <= i < |before| && before[i].bank == b;
        assert after[i].bank == b;
      }
    }
    forall i, j | 0 <= i < |before| && 0 <= j < |before| && i != j && before[i].bank == AUTO
      ensures after[i].bank != after[j].bank
    {
      if before[j].bank != AUTO {
        assert before[j].bank in Explicit(before);
      }
    }
  }

  /** What holds of the first `i` items while the second loop runs. */
  ghost predicate Done(before: seq<Item>, now: seq<Item>, i: int, mask: set<int>) {
    && |now| == |before| && 0 <= i <= |before|
    && (forall k :: 0 <= k < i ==> now[k] == before[k].(bank := now[k].bank))
    && (forall k :: 0 <= k < i ==> 0 <= now[k].bank < FILTER_COUNT && now[k].bank in mask)
    && (forall k :: 0 <= k < i && before[k].bank != AUTO ==> now[k].bank == before[k].bank)
    && (forall k :: 0 <= k < i && before[k].bank == AUTO ==> now[k].bank !in Explicit(before))
    && (forall k, l :: 0 <= k < l < i && before[k].bank == AUTO && before[l].bank == AUTO ==>
          now[k].bank != now[l].bank)
    && (forall k, b :: 0 <= k < i && before[k].bank == AUTO && 0 <= b < now[k].bank ==>
          b in Explicit(before) || HandedOut(before, now, k, b))
    && (forall b :: b in mask ==> b in Explicit(before) || HandedOut(before, now, i, b))
  }

  lemma ExtendAuto(before: seq<Item>, now: seq<Item>, i: nat, mask: set<int>, j: int)
    requires i < |before| && Done(before, now, i, mask) && Explicit(before) <= mask
    requires now[i] == before[i] && before[i].bank == AUTO
    requires 0 <= j < FILTER_COUNT && j !in mask && forall b :: 0 <= b < j ==> b in mask
    ensures Done(before, now[i := now[i].(bank := j)], i + 1, mask + {j})
  {
    var next := now[i := now[i].(bank := j)];
    forall k, b | 0 <= k <= i && HandedOut(before, now, k, b)
      ensures HandedOut(before, next, k, b) && HandedOut(before, next, i + 1, b)
    {
      StillHandedOut(before, now, next, k, i, b);
    }
    assert next[i].bank == j;
    assert HandedOut(before, next, i + 1, j);
  }

  lemma StillHandedOut(before: seq<Item>, now: seq<Item>, next: seq<Item>, k: int, i: int, b: int)
    requires |now| == |before| == |next| && 0 <= k <= i < |before| && HandedOut(before, now, k, b)
    requires forall h :: 0 <= h < i ==> next[h] == now[h]
    ensures HandedOut(before, next, k, b) && HandedOut(before, next, i + 1, b)
  {
    var h :| 0 <= h < k && before[h].bank == AUTO && now[h].bank == b;
    assert next[h].bank == b;
  }

  lemma ExtendExplicit(before: seq<Item>, now: seq<Item>, i: nat, mask: set<int>)
    requires i < |before| && Done(before, now, i, mask) && Explicit(before) <= mask
    requires now[i] == before[i] && before[i].bank != AUTO && 0 <= before[i].bank < FILTER_COUNT
    ensures Done(before, now, i + 1, mask)
  {
    assert before[i].bank in Explicit(before);
    forall b | HandedOut(before, now, i, b)
      ensures HandedOut(before, now, i + 1, b)
    {
      var h :| 0 <= h < i && before[h].bank == AUTO && now[h].bank == b;
      assert before[h].bank == AUTO && now[h].bank == b;
    }
  }

  // ---------------------------------------------------------------------------------------------
  // Programming the banks
  // ---------------------------------------------------------------------------------------------

  ghost predicate Increasing(s: seq<int>) {
    forall i, j :: 0 <= i < j < |s| ==> s[i] < s[j]
  }

  function Elements(s: seq<int>): set<int> {
    set i | 0 <= i < |s| :: s[i]
  }

  /** The driver-library loop over the mask: filter entry k goes to the k-th selected bank from below. */
  method FilterConfig(mask: set<int>) returns (slots: seq<int>)
    requires forall b :: b in mask ==> 0 <= b < FILTER_COUNT
    ensures Increasing(slots) && Elements(slots) == mask
  {
    slots := [];
    var addr, left := 0, mask;
    while left != {}
      invariant 0 <= addr
      invariant left <= mask && forall b :: b in left ==> addr <= b
      invariant forall b :: b in mask && b !in left ==> b < addr
      invariant Increasing(slots) && Elements(slots) == mask - left
      decreases FILTER_COUNT - addr
    {
      var b :| b in left;
      assert addr <= b < FILTER_COUNT;
      if addr in left {
        assert forall k :: 0 <= k < |slots| ==> slots[k] in Elements(slots);
        var next := slots + [addr];
        assert forall k :: 0 <= k < |slots| ==> next[k] == slots[k];
        assert next[|slots|] == addr;
        assert Elements(next) == Elements(slots) + {addr};
        slots := next;
        left := left - {addr};
      }
      addr := addr + 1;
    }
  }

  /** Two increasing sequences with the same elements are the same sequence. */
  lemma {:induction false} IncreasingUnique(s: seq<int>, t: seq<int>)
    requires Increasing(s) && Increasing(t) && Elements(s) == Elements(t)
    ensures s == t
  {
    if s == [] {
      EmptyElements(t);
    } else {
      assert s[0] in Elements(s);
      var a, b := |s| - 1, |t| - 1;
      assert s[a] in Elements(t) && t[b] in Elements(s);
      assert s[a] == t[b];
      Front(s);
      Front(t);
      IncreasingUnique(s[..a], t[..b]);
    }
  }

  lemma EmptyElements(t: seq<int>)
    ensures t == [] <==> Elements(t) == {}
  {
    if t != [] {
      assert t[0] in Elements(t);
    }
  }

  lemma Front(s: seq<int>)
    requires s != [] && Increasing(s)
    ensures Increasing(s[..|s| - 1])
    ensures Elements(s[..|s| - 1]) == Elements(s) - {s[|s| - 1]}
  {
    var f := s[..|s| - 1];
    forall x | x in Elements(s) && x != s[|s| - 1] ensures x in Elements(f) {
      var i :| 0 <= i < |s| && s[i] == x;
      assert f[i] == x;
    }
    forall x | x in Elements(f) ensures x in Elements(s) && x != s[|s| - 1] {
      var i :| 0 <= i < |f| && f[i] == x;
      assert s[i] == x;
    }
  }

  function BankSeq(items: seq<Item>): (s: seq<int>)
    ensures |s| == |items| && forall i :: 0 <= i < |s| ==> s[i] == items[i].bank
  {
    seq(|items|, i requires 0 <= i < |items| => items[i].bank)
  }

  /** What the caller passes is in order: explicit banks ascend, an explicit bank in front of an automatic
      item is that item's own position, and one behind an automatic item is above that item's position. */
  ghost predicate InOrder(before: seq<Item>) {
    forall i, j :: 0 <= i < j < |before| ==> InPlace(i, before[i].bank, before[j].bank)
  }

  predicate InPlace(i: nat, bank: int, later: int) {
    if bank == AUTO then later == AUTO || i < later
    else if later == AUTO then bank == i
    else bank < later
  }

  ghost predicate Allocation(before: seq<Item>, after: seq<Item>) {
    Checked(before) && Allocated(before, after) && LowestFirst(before, after)
  }

  /** A bank below an automatic item's belongs to somebody: to an explicit item or to an automatic one before. */
  lemma Taken(before: seq<Item>, after: seq<Item>, j: nat, b: nat) returns (h: nat)
    requires Allocation(before, after) && j < |before| && before[j].bank == AUTO && b < after[j].bank
    ensures h < |before| && after[h].bank == b && (before[h].bank != AUTO || h < j)
  {
    if b in Explicit(before) {
      h :| 0 <= h < |before| && before[h].bank == b;
    } else {
      assert HandedOut(before, after, j, b);
      h :| 0 <= h < j && before[h].bank == AUTO && after[h].bank == b;
    }
  }

  /** With ascending banks, everything up to an automatic item is in the bank of its position. */
  lemma {:induction false} Packed(before: seq<Item>, after: seq<Item>, j: nat, i: nat)
    requires Allocation(before, after) && Increasing(BankSeq(after))
    requires i <= j < |before| && before[j].bank == AUTO
    ensures after[i].bank == i
  {
    forall k | 0 <= k < i ensures after[k].bank == k {
      Packed(before, after, j, k);
    }
    assert i > 0 ==> BankSeq(after)[i - 1] < BankSeq(after)[i];
    if after[i].bank > i {
      assert i < j ==> BankSeq(after)[i] < BankSeq(after)[j];
      var h := Taken(before, after, j, i);
      assert false;
    }
  }

  /** When the caller's banks are in order, an automatic item gets the bank of its position. */
  lemma {:induction false} OwnPosition(before: seq<Item>, after: seq<Item>, j: nat)
    requires Allocation(before, after) && InOrder(before) && j < |before| && before[j].bank == AUTO
    ensures after[j].bank == j
  {
    forall i | 0 <= i < j ensures after[i].bank == i {
      if before[i].bank == AUTO {
        OwnPosition(before, after, i);
      }
    }
    var own := after[j].bank;
    var below := if own < j then own else 0;
    assert j > 0 ==> after[below].bank == below;
    if own > j {
      var h := Taken(before, after, j, j);
      assert false;
    }
  }

  lemma InOrderExactly(before: seq<Item>, after: seq<Item>)
    requires Allocation(before, after)
    ensures Increasing(BankSeq(after)) <==> InOrder(before)
  {
    forall i, j | 0 <= i < j < |before| && InOrder(before) ensures after[i].bank < after[j].bank {
      if before[i].bank == AUTO {
        OwnPosition(before, after, i);
      }
      if before[j].bank == AUTO {
        OwnPosition(before, after, j);
      }
    }
    if Increasing(BankSeq(after)) {
      forall i, j | 0 <= i < j < |before|
        ensures InPlace(i, before[i].bank, before[j].bank)
      {
        assert BankSeq(after)[i] < BankSeq(after)[j];
        if before[i].bank == AUTO {
          Packed(before, after, i, i);
        } else if before[j].bank == AUTO {
          Packed(before, after, j, i);
        }
      }
    }
  }

  /** Every item's filter is programmed into that item's own bank exactly when the caller's banks are in
      order; otherwise some filter sits in a bank of another item, or in none. */
  lemma OwnBankExactly(before: seq<Item>, after: seq<Item>, slots: seq<int>)
    requires Allocation(before, after)
    requires Increasing(slots) && Elements(slots) == Banks(after)
    ensures slots == BankSeq(after) <==> InOrder(before)
  {
    InOrderExactly(before, after);
    assert Elements(BankSeq(after)) == Banks(after) by {
      forall b | b in Banks(after) ensures b in Elements(BankSeq(after)) {
        var i :| 0 <= i < |after| && after[i].bank == b;
        assert BankSeq(after)[i] == b;
      }
    }
    if Increasing(BankSeq(after)) {
      IncreasingUnique(slots, BankSeq(after));
    }
  }

  /** With automatic banks only, every filter is in its own bank. */
  lemma AutomaticInOrder(before: seq<Item>, after: seq<Item>)
    requires Allocation(before, after)
    requires forall i :: 0 <= i < |before| ==> before[i].bank == AUTO
    ensures Increasing(BankSeq(after))
  {
    InOrderExactly(before, after);
  }

  /** Explicit banks out of order end up exchanged. */
  lemma OutOfOrderSwaps(x: Item, y: Item, slots: seq<int>)
    requires x.bank == 3 && y.bank == 1
    requires Increasing(slots) && Elements(slots) == Banks([x, y])
    ensures slots == [1, 3]
  {
    assert [x, y][0].bank == 3 && [x, y][1].bank == 1;
    assert [1, 3][0] in Elements([1, 3]) && [1, 3][1] in Elements([1, 3]);
    assert Elements([1, 3]) == Banks([x, y]);
    IncreasingUnique(slots, [1, 3]);
  }
}
