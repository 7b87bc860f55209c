/** The parameter manager of flash_param.c: every API call carried out step by step on the store and
    the RAM buffers, and proved to be the step of the same name in ParamRuns.

    `w` and `ws` say what the environment does to each store write; `lost` reports that power was
    lost during the call. */
module ParamManager {
  import opened Basics
  import opened CText
  import opened DecimalText
  import opened ParamItems
  import opened ParamRuns

  /** The table checks of initialisation. */
  method CheckItems(items: seq<Item>) returns (ok: bool)
    ensures ok <==> WellFormed(items)
    ensures ok <==>
              && 0 < |items|
              && (forall i :: 0 <= i < |items| ==> items[i].ramSize >= if items[i].kind == Int then 4 else 1)
              && (forall i, j :: 0 <= i < |items| && 0 <= j < |items| && i != j ==> items[i].key != items[j].key)
  {
    if |items| == 0 {
      return false;
    }
    for i := 0 to |items|
      invariant forall k :: 0 <= k < i ==> Sized(items[k])
    {
      match items[i].kind
      case Int =>
        if items[i].ramSize < 4 {
          return false;
        }
      case Str =>
        if items[i].ramSize == 0 {
          return false;
        }
      case Blob =>
        if items[i].ramSize == 0 {
          return false;
        }
    }
    for i := 0 to |items|
      invariant forall a, b :: 0 <= a < i && a < b < |items| ==> items[a].key != items[b].key
    {
      for j := i + 1 to |items|
        invariant forall b :: i < b < j ==> items[i].key != items[b].key
      {
        if items[i].key == items[j].key {
          return false;
        }
      }
    }
    return true;
  }

  class Manager {
    const items: seq<Item>
    var store: map<string, Bytes>
    var ram: seq<Bytes>
    var up: bool
    ghost var last: seq<Option<Value>>
    ghost var synced: set<nat>

    ghost function View(): State
      reads this
    {
      State(store, ram, up, last, synced)
    }

    ghost predicate Valid()
      reads this
    {
      Table(items) && Shape(items, View())
    }

    /** Before a table has been checked: buffers of the sizes it names, and no start yet on a bad one. */
    ghost predicate Prepared()
      reads this
    {
      Typed(items) && Shape(items, View()) && (up ==> WellFormed(items))
    }

    constructor (table: seq<Item>, flash: map<string, Bytes>)
      requires Typed(table)
      ensures Prepared() && items == table && View() == Blank(table, flash)
    {
      items, store, ram, up := table, flash, Cleared(table), false;
      last, synced := seq(|table|, i => None), {};
    }

    method LosePower()
      requires Valid()
      modifies this
      ensures Valid() && View() == Dark(items, old(View()))
    {
      ram, up, synced := Cleared(items), false, {};
    }

    method FindItem(key: string) returns (r: Option<nat>)
      ensures r == Find(items, key)
    {
      for i := 0 to |items|
        invariant FindFrom(items, key, 0) == FindFrom(items, key, i)
      {
        if items[i].key == key {
          return Some(i);
        }
      }
      r := None;
    }

    /** One write to the store. */
    method KvSet(i: nat, bytes: Bytes, w: Write, ghost v: Value) returns (ok: bool, lost: bool)
      requires Valid() && i < |items| && bytes == Encode(v)
      modifies this
      ensures Valid() && ok == (w == Done) && lost == (w == CutBefore || w == CutAfter)
      ensures match w
              case Refused => View() == old(View())
              case Done => View() == Stored(items, old(View()), i, v)
              case CutBefore => View() == Dark(items, old(View()))
              case CutAfter => View() == Dark(items, Stored(items, old(View()), i, v))
    {
      if w == Done || w == CutAfter {
        store := store[items[i].key := bytes];
        last := last[i := Some(v)];
      }
      ok, lost := w == Done, w == CutBefore || w == CutAfter;
      if lost {
        LosePower();
      }
    }

    /** Write one item through, by its type: the store first, RAM only after success. */
    method WriteThrough(i: nat, v: Value, w: Write) returns (ret: int, lost: bool)
      requires Valid() && i < |items| && Matches(items[i], v)
      modifies this
      ensures Valid() && Outcome(View(), ret, lost) == Put(items, old(View()), i, v, w)
    {
      var ok;
      ok, lost := KvSet(i, Encode(v), w, v);
      if lost || !ok {
        return -1, lost;
      }
      var size := items[i].ramSize;
      var buffer := ram[i];
      match v {
        case IntV(n) =>
          buffer := IntBytes(n) + buffer[4..];
        case StrV(s) =>
          var n := Min(|s|, size - 1);
          buffer := s[..n] + Zeros(size - 1 - n) + buffer[size - 1..];
          buffer := buffer[size - 1 := NUL];
          assert buffer == Padded(s, size);
        case BlobV(b) =>
          buffer := Zeros(size);
          var n := Min(|b|, size);
          buffer := b[..n] + buffer[n..];
          assert buffer == Image(items[i], v, ram[i]);
      }
      ram := ram[i := buffer];
      synced := synced + {i};
      ret := 0;
    }

    method Set(key: string, v: Value, w: Write) returns (ret: int, lost: bool)
      requires Valid() && Legal(items, Call.Set(key, v, w))
      modifies this
      ensures Valid() && Outcome(View(), ret, lost) == Step(items, old(View()), Call.Set(key, v, w))
    {
      if !up {
        return -1, false;
      }
      var found := FindItem(key);
      if found.None? {
        return -1, false;
      }
      var i := found.value;
      var value := v;
      if v.BlobV? {
        var size := if items[i].ramSize < |items[i].def.b| then items[i].ramSize else |items[i].def.b|;
        value := BlobV(v.b[..size]);
      }
      ret, lost := WriteThrough(i, value, w);
    }

    /** Set a blob of any length that fits: copy it and clear what is behind it. */
    method SetBlob(key: string, b: Bytes, w: Write) returns (ret: int, lost: bool)
      requires Valid()
      modifies this
      ensures Valid() && Outcome(View(), ret, lost) == Step(items, old(View()), Call.SetBlob(key, b, w))
    {
      if !up || b == [] {
        return -1, false;
      }
      var found := FindItem(key);
      if found.None? || items[found.value].kind != Blob || |b| > items[found.value].ramSize {
        return -1, false;
      }
      var i := found.value;
      var ok;
      ok, lost := KvSet(i, b, w, BlobV(b));
      if lost || !ok {
        return -1, lost;
      }
      var size := items[i].ramSize;
      var buffer := b + ram[i][|b|..];
      if |b| < size {
        buffer := buffer[..|b|] + Zeros(size - |b|);
      }
      assert buffer == Image(items[i], BlobV(b), ram[i]);
      ram := ram[i := buffer];
      synced := synced + {i};
      ret := 0;
    }

    /** Copy a RAM buffer out; a caller's buffer that is too small is told the size it needs. */
    method Get(key: string, size: nat) returns (ret: int, needed: nat, buffer: Bytes)
      requires Valid()
      ensures ret == 0 <==> up && Find(items, key).Some? && items[Find(items, key).value].ramSize <= size
      ensures ret == 0 ==> buffer == ram[Find(items, key).value] && needed == |buffer|
      ensures ret != 0 && up && Find(items, key).Some? ==> needed == items[Find(items, key).value].ramSize > size
    {
      buffer, needed := [], size;
      if !up {
        return -1, needed, buffer;
      }
      var found := FindItem(key);
      if found.None? {
        return -1, needed, buffer;
      }
      needed := items[found.value].ramSize;
      if size < needed {
        return -1, needed, buffer;
      }
      return 0, needed, ram[found.value];
    }

    method Reset(key: string, w: Write) returns (ret: int, lost: bool)
      requires Valid()
      modifies this
      ensures Valid() && Outcome(View(), ret, lost) == Step(items, old(View()), Call.Reset(key, w))
    {
      if !up {
        return -1, false;
      }
      var found := FindItem(key);
      if found.None? {
        return -1, false;
      }
      ret, lost := WriteThrough(found.value, items[found.value].def, w);
    }

    method GroupReset(group: nat, ws: seq<Write>) returns (ret: int, lost: bool)
      requires Valid()
      modifies this
      ensures Valid() && Outcome(View(), ret, lost) == Step(items, old(View()), Call.GroupReset(group, ws))
    {
      if !up {
        return -1, false;
      }
      ret, lost := 0, false;
      for i := 0 to |items|
        invariant Valid() && !lost
        invariant GroupFrom(items, old(View()), group, 0, ws, 0) == GroupFrom(items, View(), group, i, ws, ret)
      {
        if items[i].group == group {
          var r;
          r, lost := WriteThrough(i, items[i].def, WriteOf(ws, i));
          if lost {
            return r, lost;
          }
          if r != 0 {
            ret := -1;
          }
        }
      }
    }

    /** Read an item from the store; if that fails, write its default through. */
    method SyncOne(i: nat, w: Write) returns (ret: int, lost: bool)
      requires Valid() && i < |items|
      modifies this
      ensures Valid() && Outcome(View(), ret, lost) == Sync(items, old(View()), i, w)
      ensures up ==> old(up)
    {
      var it := items[i];
      if it.key in store {
        var read := Load(it, store[it.key], ram[i]);
        if read.Some? {
          ram := ram[i := read.value];
          synced := synced + {i};
          return 0, false;
        }
      }
      ret, lost := WriteThrough(i, it.def, w);
      if w == Refused {
        synced := synced - {i};
      }
    }

    /** Check the table and start up; `memory` and `storage` say whether allocating the default table
        and opening the store succeed, `formatted` what the store holds if opening it formatted it. A
        table that fails the check leaves everything as it was. */
    method Init(memory: bool, storage: bool, formatted: Option<map<string, Bytes>>, ws: seq<Write>)
      returns (ret: int, lost: bool)
      requires Prepared()
      modifies this
      ensures !WellFormed(items) ==> ret == -1 && !lost && View() == old(View())
      ensures WellFormed(items) ==>
                && Valid()
                && Outcome(View(), ret, lost) == Step(items, old(View()), Call.Init(memory, storage, formatted, ws))
    {
      var checked := CheckItems(items);
      if !checked {
        return -1, false;
      }
      up, synced := false, {};
      if !memory {
        return -1, false;
      }
      if formatted.Some? {
        store := formatted.value;
        last := seq(|last|, i => None);
      }
      if !storage {
        return -1, false;
      }
      ret, lost := SyncAll(ws, true);
      if ret == 0 {
        up := true;
      }
    }

    /** Synchronise every item in turn; with `stop`, give up at the first failure. */
    method SyncAll(ws: seq<Write>, stop: bool) returns (ret: int, lost: bool)
      requires Valid()
      modifies this
      ensures Valid() && Outcome(View(), ret, lost) == SyncFrom(items, old(View()), 0, ws, stop, 0)
      ensures up ==> old(up)
    {
      ret, lost := 0, false;
      for i := 0 to |items|
        invariant Valid() && !lost
        invariant SyncFrom(items, old(View()), 0, ws, stop, 0) == SyncFrom(items, View(), i, ws, stop, ret)
        invariant up ==> old(up)
      {
        var r;
        r, lost := SyncOne(i, WriteOf(ws, i));
        if lost || (stop && r != 0) {
          return r, lost;
        }
        if r != 0 {
          ret := -1;
        }
      }
    }

    method ResetAll(restored: map<string, Bytes>, cut: bool, ws: seq<Write>) returns (ret: int, lost: bool)
      requires Valid()
      modifies this
      ensures Valid() && Outcome(View(), ret, lost) == Step(items, old(View()), Call.ResetAll(restored, cut, ws))
    {
      if !up {
        return -1, false;
      }
      store := restored;
      last, synced := seq(|last|, i => None), {};
      if cut {
        LosePower();
        return -1, true;
      }
      ret, lost := SyncAll(ws, false);
    }

    method Deinit() returns (ret: int)
      requires Valid()
      modifies this
      ensures Valid() && Outcome(View(), ret, false) == Step(items, old(View()), Call.Deinit)
    {
      if !up {
        return -1;
      }
      up := false;
      ret := 0;
    }
  }
}
