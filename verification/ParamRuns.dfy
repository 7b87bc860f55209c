/** The parameter manager of flash_param.c as a state machine: every API call as a step that may be
    refused by the store on any write and may lose power before or after any write, and what holds
    over every run of such steps.

    The store is a map from keys to bytes. Its contract: a write either takes effect or is refused
    and changes nothing; when power is lost the write in progress either took effect or did not. */
module ParamRuns {
  import opened Basics
  import opened DecimalText
  import opened ParamItems

  type Items = seq<Item>

  ghost predicate WellFormed(items: Items) {
    && items != []
    && (forall i :: 0 <= i < |items| ==> Sized(items[i]))
    && (forall i, j :: 0 <= i < j < |items| ==> items[i].key != items[j].key)
  }

  /** Defaults are of their item's type; the source's table macros see to that. */
  ghost predicate Typed(items: Items) {
    forall i :: 0 <= i < |items| ==> Matches(items[i], items[i].def)
  }

  ghost predicate Table(items: Items) {
    WellFormed(items) && Typed(items)
  }

  datatype Write = Done | Refused | CutBefore | CutAfter

  /** Store, RAM buffers and the initialised flag. Two histories go with them: `last`, the value of
      each item that the manager last brought into the store, and `synced`, the items that have been
      read, or written, since power came on and since everything was last reset. */
  datatype State = State(store: map<string, Bytes>, ram: seq<Bytes>, up: bool,
                         last: seq<Option<Value>>, synced: set<nat>)

  /** The state after a call, its return value, and whether power was lost on the way. */
  datatype Outcome = Outcome(s: State, ret: int, lost: bool)

  ghost predicate Shape(items: Items, s: State) {
    && |s.ram| == |s.last| == |items|
    && forall i :: 0 <= i < |items| ==> |s.ram[i]| == items[i].ramSize
  }

  function Cleared(items: Items): (r: seq<Bytes>)
    ensures |r| == |items| && forall i :: 0 <= i < |items| ==> r[i] == Zeros(items[i].ramSize)
  {
    seq(|items|, i requires 0 <= i < |items| => Zeros(items[i].ramSize))
  }

  /** Power is gone: RAM is cleared, the store remains. */
  function Dark(items: Items, s: State): State {
    s.(ram := Cleared(items), up := false, synced := {})
  }

  function WriteOf(ws: seq<Write>, i: nat): Write {
    if i < |ws| then ws[i] else Refused
  }

  // ---------------------------------------------------------------------------------------------
  // One item
  // ---------------------------------------------------------------------------------------------

  function Lookup(store: map<string, Bytes>, key: string): Option<Bytes> {
    if key in store then Some(store[key]) else None
  }

  function Stored(items: Items, s: State, i: nat, v: Value): State
    requires i < |items| && i < |s.last|
  {
    s.(store := s.store[items[i].key := Encode(v)], last := s.last[i := Some(v)])
  }

  /** Write-through of one item: the store first, RAM only after success. */
  function Put(items: Items, s: State, i: nat, v: Value, w: Write): (o: Outcome)
    requires Shape(items, s) && i < |items| && Sized(items[i]) && Matches(items[i], v)
    ensures Shape(items, o.s)
  {
    match w
    case Refused => Outcome(s, -1, false)
    case Done =>
      var ram := s.ram[i := Image(items[i], v, s.ram[i])];
      Outcome(Stored(items, s, i, v).(ram := ram, synced := s.synced + {i}), 0, false)
    case CutBefore => Outcome(Dark(items, s), -1, true)
    case CutAfter => Outcome(Dark(items, Stored(items, s, i, v)), -1, true)
  }

  /** Read one item, or restore its default if that fails. */
  function Sync(items: Items, s: State, i: nat, w: Write): (o: Outcome)
    requires Table(items) && Shape(items, s) && i < |items|
    ensures Shape(items, o.s)
  {
    var it := items[i];
    var r := if it.key in s.store then Load(it, s.store[it.key], s.ram[i]) else None;
    if r.Some? then Outcome(s.(ram := s.ram[i := r.value], synced := s.synced + {i}), 0, false)
    else
      var o := Put(items, s, i, it.def, w);
      if w == Refused then o.(s := o.s.(synced := s.synced - {i})) else o
  }

  function Find(items: Items, key: string): (r: Option<nat>)
    ensures r.Some? ==> r.value < |items| && items[r.value].key == key
    ensures r.None? ==> forall i :: 0 <= i < |items| ==> items[i].key != key
  {
    FindFrom(items, key, 0)
  }

  function FindFrom(items: Items, key: string, from: nat): (r: Option<nat>)
    requires from <= |items|
    ensures r.Some? ==> from <= r.value < |items| && items[r.value].key == key
    ensures r.Some? ==> forall i :: from <= i < r.value ==> items[i].key != key
    ensures r.None? ==> forall i :: from <= i < |items| ==> items[i].key != key
    decreases |items| - from
  {
    if from == |items| then None
    else if items[from].key == key then Some(from)
    else FindFrom(items, key, from + 1)
  }

  // ---------------------------------------------------------------------------------------------
  // All items
  // ---------------------------------------------------------------------------------------------

  /** Synchronise the items from i on. Initialisation stops at a failure, a reset goes on. */
  function SyncFrom(items: Items, s: State, i: nat, ws: seq<Write>, stop: bool, ret: int): (o: Outcome)
    requires Table(items) && Shape(items, s) && i <= |items|
    ensures Shape(items, o.s)
    decreases |items| - i
  {
    if i == |items| then Outcome(s, ret, false)
    else
      var o := Sync(items, s, i, WriteOf(ws, i));
      if o.lost || (stop && o.ret != 0) then o
      else SyncFrom(items, o.s, i + 1, ws, stop, if o.ret != 0 then -1 else ret)
  }

  /** Write the defaults of a group's items from i on. */
  function GroupFrom(items: Items, s: State, g: nat, i: nat, ws: seq<Write>, ret: int): (o: Outcome)
    requires Table(items) && Shape(items, s) && i <= |items|
    ensures Shape(items, o.s)
    decreases |items| - i
  {
    if i == |items| then Outcome(s, ret, false)
    else if items[i].group != g then GroupFrom(items, s, g, i + 1, ws, ret)
    else
      var o := Put(items, s, i, items[i].def, WriteOf(ws, i));
      if o.lost then o
      else GroupFrom(items, o.s, g, i + 1, ws, if o.ret != 0 then -1 else ret)
  }

  // ---------------------------------------------------------------------------------------------
  // The calls
  // ---------------------------------------------------------------------------------------------

  /** The API calls with everything the environment decides: the outcome of each write, of memory
      allocation and of opening the store, what the store holds after it was formatted because no sector
      of it was valid, what restoring the default table leaves in it, and whether power is cut right
      after that. */
  datatype Call =
    | Init(memory: bool, storage: bool, formatted: Option<map<string, Bytes>>, ws: seq<Write>)
    | Deinit
    | Set(key: string, v: Value, w: Write)
    | SetBlob(key: string, b: Bytes, w: Write)
    | Reset(key: string, w: Write)
    | GroupReset(group: nat, ws: seq<Write>)
    | ResetAll(restored: map<string, Bytes>, cut: bool, ws: seq<Write>)
    | PowerLoss

  /** A blob is written with the smaller of buffer size and default size. */
  function Trimmed(it: Item, v: Value): Value
    requires Matches(it, it.def) && Matches(it, v) && Supplies(it, v)
  {
    match v
    case BlobV(b) => BlobV(b[..Min(it.ramSize, |it.def.b|)])
    case _ => v
  }

  /** The caller passes a value of the item's type, and enough bytes for a blob. */
  predicate Supplies(it: Item, v: Value) {
    Matches(it, v) && (v.BlobV? ==> it.def.BlobV? && |v.b| >= Min(it.ramSize, |it.def.b|))
  }

  ghost predicate Legal(items: Items, c: Call) {
    c.Set? && Find(items, c.key).Some? ==> Supplies(items[Find(items, c.key).value], c.v)
  }

  function Failed(s: State): Outcome { Outcome(s, -1, false) }

  /** Starting up: no item is known until it is synchronised. */
  function Opening(s: State, formatted: Option<map<string, Bytes>>): State {
    match formatted
    case None => s.(up := false, synced := {})
    case Some(table) => Restored(s, table).(up := false)
  }

  function AllItems(items: Items): (all: set<nat>)
    ensures forall i: nat :: i in all <==> i < |items|
  {
    if items == [] then {} else AllItems(items[..|items| - 1]) + {|items| - 1}
  }

  function Step(items: Items, s: State, c: Call): (o: Outcome)
    requires Table(items) && Shape(items, s) && Legal(items, c)
    ensures Shape(items, o.s)
  {
    match c
    case Init(memory, storage, formatted, ws) =>
      if !memory then Failed(Opening(s, None))
      else if !storage then Failed(Opening(s, formatted))
      else
        var o := SyncFrom(items, Opening(s, formatted), 0, ws, true, 0);
        o.(s := o.s.(up := o.ret == 0))
    case Deinit => if !s.up then Failed(s) else Outcome(s.(up := false), 0, false)
    case Set(key, v, w) =>
      (match Find(items, key)
       case Some(i) => if s.up then Put(items, s, i, Trimmed(items[i], v), w) else Failed(s)
       case None => Failed(s))
    case SetBlob(key, b, w) =>
      (match Find(items, key)
       case Some(i) =>
         if s.up && b != [] && items[i].kind == Blob && |b| <= items[i].ramSize then Put(items, s, i, BlobV(b), w)
         else Failed(s)
       case None => Failed(s))
    case Reset(key, w) =>
      (match Find(items, key)
       case Some(i) => if s.up then Put(items, s, i, items[i].def, w) else Failed(s)
       case None => Failed(s))
    case GroupReset(g, ws) => if !s.up then Failed(s) else GroupFrom(items, s, g, 0, ws, 0)
    case ResetAll(restored, cut, ws) =>
      if !s.up then Failed(s)
      else if cut then Outcome(Dark(items, Restored(s, restored)), -1, true)
      else SyncFrom(items, Restored(s, restored), 0, ws, false, 0)
    case PowerLoss => Outcome(Dark(items, s), 0, true)
  }

  /** The store went back to its default table, as far as that worked. */
  function Restored(s: State, restored: map<string, Bytes>): State {
    s.(store := restored, last := seq(|s.last|, i => None), synced := {})
  }

  ghost predicate AllLegal(items: Items, calls: seq<Call>) {
    forall k :: 0 <= k < |calls| ==> Legal(items, calls[k])
  }

  /** The state after a run of calls. */
  function Run(items: Items, s: State, calls: seq<Call>): (t: State)
    requires Table(items) && Shape(items, s) && AllLegal(items, calls)
    ensures Shape(items, t)
    decreases |calls|
  {
    if calls == [] then s else Run(items, Step(items, s, calls[0]).s, calls[1..])
  }

  // ---------------------------------------------------------------------------------------------
  // The invariant
  // ---------------------------------------------------------------------------------------------

  /** The store holds the encoding of the last value of item i. */
  ghost predicate Kept(items: Items, s: State, i: nat)
    requires Shape(items, s) && i < |items|
  {
    s.last[i].Some? ==>
      && Matches(items[i], s.last[i].value) && items[i].key in s.store
      && s.store[items[i].key] == Encode(s.last[i].value)
  }

  /** RAM and store agree on item i. */
  ghost predicate InStep(items: Items, s: State, i: nat)
    requires Shape(items, s) && i < |items| && Sized(items[i])
  {
    items[i].key in s.store && Agrees(items[i], s.ram[i], s.store[items[i].key])
  }

  ghost predicate Sound(items: Items, s: State, i: nat)
    requires Table(items) && Shape(items, s) && i < |items|
  {
    Kept(items, s, i) && (i in s.synced ==> InStep(items, s, i))
  }

  ghost predicate Inv(items: Items, s: State)
    requires Table(items)
  {
    Shape(items, s) && forall i :: 0 <= i < |items| ==> Sound(items, s, i)
  }

  lemma PutKeeps(items: Items, s: State, i: nat, v: Value, w: Write, j: nat)
    requires Table(items) && Shape(items, s) && i < |items| && Matches(items[i], v) && j < |items| && Sound(items, s, j)
    ensures Sound(items, Put(items, s, i, v, w).s, j)
  {
    WrittenAgrees(items[i], v, s.ram[i]);
  }

  lemma SyncKeeps(items: Items, s: State, i: nat, w: Write, j: nat)
    requires Table(items) && Shape(items, s) && i < |items| && j < |items| && Sound(items, s, j)
    ensures Sound(items, Sync(items, s, i, w).s, j)
  {
    var it := items[i];
    if it.key in s.store && Load(it, s.store[it.key], s.ram[i]).Some? {
      LoadAgrees(it, s.store[it.key], s.ram[i]);
    } else {
      PutKeeps(items, s, i, it.def, w, j);
    }
  }

  lemma {:induction false} SyncFromKeeps(items: Items, s: State, i: nat, ws: seq<Write>, stop: bool, ret: int, j: nat)
    requires Table(items) && Shape(items, s) && i <= |items| && j < |items| && Sound(items, s, j)
    ensures Sound(items, SyncFrom(items, s, i, ws, stop, ret).s, j)
    decreases |items| - i
  {
    if i < |items| {
      SyncKeeps(items, s, i, WriteOf(ws, i), j);
      var o := Sync(items, s, i, WriteOf(ws, i));
      var r := if o.ret != 0 then -1 else ret;
      if o.lost || (stop && o.ret != 0) {
        assert SyncFrom(items, s, i, ws, stop, ret) == o;
      } else {
        SyncFromKeeps(items, o.s, i + 1, ws, stop, r, j);
        assert SyncFrom(items, s, i, ws, stop, ret) == SyncFrom(items, o.s, i + 1, ws, stop, r);
      }
    }
  }

  lemma {:induction false} GroupFromKeeps(items: Items, s: State, g: nat, i: nat, ws: seq<Write>, ret: int, j: nat)
    requires Table(items) && Shape(items, s) && i <= |items| && j < |items| && Sound(items, s, j)
    ensures Sound(items, GroupFrom(items, s, g, i, ws, ret).s, j)
    decreases |items| - i
  {
    if i < |items| {
      if items[i].group != g {
        GroupFromKeeps(items, s, g, i + 1, ws, ret, j);
      } else {
        PutKeeps(items, s, i, items[i].def, WriteOf(ws, i), j);
        var o := Put(items, s, i, items[i].def, WriteOf(ws, i));
        if !o.lost {
          GroupFromKeeps(items, o.s, g, i + 1, ws, if o.ret != 0 then -1 else ret, j);
        }
      }
    }
  }

  lemma StepKeepsItem(items: Items, s: State, c: Call, j: nat)
    requires Table(items) && Shape(items, s) && Legal(items, c) && j < |items| && Sound(items, s, j)
    ensures Sound(items, Step(items, s, c).s, j)
  {
    match c
    case Init(_, _, formatted, ws) =>
      SyncFromKeeps(items, Opening(s, formatted), 0, ws, true, 0, j);
    case Set(key, v, w) =>
      if Find(items, key).Some? {
        var i := Find(items, key).value;
        PutKeeps(items, s, i, Trimmed(items[i], v), w, j);
      }
    case SetBlob(key, b, w) =>
      if Find(items, key).Some? && items[Find(items, key).value].kind == Blob {
        PutKeeps(items, s, Find(items, key).value, BlobV(b), w, j);
      }
    case Reset(key, w) =>
      if Find(items, key).Some? {
        var i := Find(items, key).value;
        PutKeeps(items, s, i, items[i].def, w, j);
      }
    case GroupReset(g, ws) =>
      GroupFromKeeps(items, s, g, 0, ws, 0, j);
    case ResetAll(restored, _, ws) =>
      SyncFromKeeps(items, Restored(s, restored), 0, ws, false, 0, j);
    case Deinit =>
    case PowerLoss =>
  }

  lemma StepKeeps(items: Items, s: State, c: Call)
    requires Table(items) && Inv(items, s) && Legal(items, c)
    ensures Inv(items, Step(items, s, c).s)
  {
    forall j | 0 <= j < |items| ensures Sound(items, Step(items, s, c).s, j) {
      StepKeepsItem(items, s, c, j);
    }
  }

  // ---------------------------------------------------------------------------------------------
  // Main results
  // ---------------------------------------------------------------------------------------------

  /** Device state before the first start: any store, cleared RAM, nothing brought in yet. */
  function Blank(items: Items, store: map<string, Bytes>): State {
    State(store, Cleared(items), false, seq(|items|, i => None), {})
  }

  lemma {:induction false} RunKeeps(items: Items, s: State, calls: seq<Call>)
    requires Table(items) && Inv(items, s) && AllLegal(items, calls)
    ensures Inv(items, Run(items, s, calls))
    decreases |calls|
  {
    if calls != [] {
      StepKeeps(items, s, calls[0]);
      RunKeeps(items, Step(items, s, calls[0]).s, calls[1..]);
    }
  }

  /** Reading the item from these stored bytes fails; what is in RAM has no part in that. */
  predicate Unreadable(it: Item, stored: Option<Bytes>)
    requires Sized(it)
  {
    stored.None? || Load(it, stored.value, Zeros(it.ramSize)).None?
  }

  lemma LoadIgnoresRam(it: Item, b: Bytes, was: Bytes)
    requires Sized(it) && |was| == it.ramSize
    ensures Load(it, b, was).None? <==> Load(it, b, Zeros(it.ramSize)).None?
  {
  }

  /** Synchronising the item fails: it cannot be read and writing its default is refused. */
  predicate FailsToSync(it: Item, stored: Option<Bytes>, w: Write)
    requires Sized(it)
  {
    Unreadable(it, stored) && w == Refused
  }

  /** Synchronising the item succeeds: it can be read, or its default is written. */
  predicate SyncsFine(it: Item, stored: Option<Bytes>, w: Write)
    requires Sized(it)
  {
    !Unreadable(it, stored) || w == Done
  }

  /** So does every item from i on. */
  ghost predicate AllFine(items: Items, store: map<string, Bytes>, i: nat, ws: seq<Write>)
    requires Table(items)
  {
    forall j :: i <= j < |items| ==> SyncsFine(items[j], Lookup(store, items[j].key), WriteOf(ws, j))
  }

  /** What a start finds for an item and leaves in RAM. */
  function Start(it: Item, stored: Option<Bytes>, was: Bytes): Bytes
    requires Sized(it) && Matches(it, it.def) && |was| == it.ramSize
  {
    match stored
    case None => Image(it, it.def, was)
    case Some(b) => Recovered(it, b, was)
  }

  /** What a state says of one item: its RAM, what the store has for it, whether it is synced. */
  datatype View = View(ram: Bytes, stored: Option<Bytes>, synced: bool)

  function ViewOf(items: Items, s: State, j: nat): (v: View)
    requires Shape(items, s) && j < |items|
    ensures |v.ram| == items[j].ramSize
  {
    View(s.ram[j], Lookup(s.store, items[j].key), j in s.synced)
  }

  /** One item synchronised, if power stays: read if it can be, else its default written through. */
  function Synced(it: Item, v: View, w: Write): View
    requires Sized(it) && Matches(it, it.def) && |v.ram| == it.ramSize
  {
    if !Unreadable(it, v.stored) then View(Start(it, v.stored, v.ram), v.stored, true)
    else if w == Refused then v.(synced := false)
    else View(Start(it, v.stored, v.ram), Some(Encode(it.def)), true)
  }

  lemma SyncEffect(items: Items, s: State, i: nat, w: Write, j: nat)
    requires Table(items) && Shape(items, s) && i < |items| && j < |items|
    ensures var o := Sync(items, s, i, w);
            && (o.lost ==> o.ret != 0 && !o.s.up)
            && (o.ret == 0 <==> SyncsFine(items[i], Lookup(s.store, items[i].key), w))
            && (!o.lost ==>
                  && ViewOf(items, o.s, j) ==
                     (if j == i then Synced(items[j], ViewOf(items, s, j), w) else ViewOf(items, s, j))
                  && (o.ret == 0 <==> !FailsToSync(items[i], Lookup(s.store, items[i].key), w)))
  {
    if items[i].key in s.store {
      LoadIgnoresRam(items[i], s.store[items[i].key], s.ram[i]);
    }
  }

  /** Synchronising from item i on treats every item by itself, unless power is lost or it gives up. */
  lemma {:induction false} SyncFromEffect(items: Items, s: State, i: nat, ws: seq<Write>, stop: bool, ret: int, j: nat)
    requires Table(items) && Shape(items, s) && i <= |items| && j < |items|
    ensures var o, v := SyncFrom(items, s, i, ws, stop, ret), ViewOf(items, s, j);
            !o.lost && (stop ==> o.ret == 0) ==>
              ViewOf(items, o.s, j) == if j < i then v else Synced(items[j], v, WriteOf(ws, j))
    decreases |items| - i
  {
    if i < |items| {
      var o := Sync(items, s, i, WriteOf(ws, i));
      var r := if o.ret != 0 then -1 else ret;
      SyncEffect(items, s, i, WriteOf(ws, i), j);
      if o.lost || (stop && o.ret != 0) {
        assert SyncFrom(items, s, i, ws, stop, ret) == o;
      } else {
        SyncFromEffect(items, o.s, i + 1, ws, stop, r, j);
        assert SyncFrom(items, s, i, ws, stop, ret) == SyncFrom(items, o.s, i + 1, ws, stop, r);
      }
    }
  }

  lemma FineLater(items: Items, s: State, i: nat, ws: seq<Write>)
    requires Table(items) && Shape(items, s) && i < |items| && !Sync(items, s, i, WriteOf(ws, i)).lost
    ensures AllFine(items, Sync(items, s, i, WriteOf(ws, i)).s.store, i + 1, ws) <==> AllFine(items, s.store, i + 1, ws)
  {
    var t := Sync(items, s, i, WriteOf(ws, i)).s;
    forall j | i < j < |items| ensures Lookup(t.store, items[j].key) == Lookup(s.store, items[j].key) {
      SyncEffect(items, s, i, WriteOf(ws, i), j);
    }
  }

  lemma FineFrom(items: Items, store: map<string, Bytes>, i: nat, ws: seq<Write>)
    requires Table(items) && i < |items|
    ensures AllFine(items, store, i, ws) <==>
              SyncsFine(items[i], Lookup(store, items[i].key), WriteOf(ws, i)) && AllFine(items, store, i + 1, ws)
  {
  }

  /** Synchronising returns 0 exactly if every item can be read or has its default written; a loss of
      power is reported. */
  lemma {:induction false} SyncFromReturns(items: Items, s: State, i: nat, ws: seq<Write>, stop: bool, ret: int)
    requires Table(items) && Shape(items, s) && i <= |items|
    ensures var o := SyncFrom(items, s, i, ws, stop, ret);
            && (o.lost ==> o.ret != 0 && !o.s.up)
            && (o.ret == 0 <==> ret == 0 && AllFine(items, s.store, i, ws))
    decreases |items| - i
  {
    if i < |items| {
      var o := Sync(items, s, i, WriteOf(ws, i));
      var r := if o.ret != 0 then -1 else ret;
      SyncEffect(items, s, i, WriteOf(ws, i), i);
      FineFrom(items, s.store, i, ws);
      if o.lost || (stop && o.ret != 0) {
        assert SyncFrom(items, s, i, ws, stop, ret) == o;
      } else {
        FineLater(items, s, i, ws);
        SyncFromReturns(items, o.s, i + 1, ws, stop, r);
        assert SyncFrom(items, s, i, ws, stop, ret) == SyncFrom(items, o.s, i + 1, ws, stop, r);
      }
    }
  }

  // ---------------------------------------------------------------------------------------------
  // Agreement
  // ---------------------------------------------------------------------------------------------

  /** The items that a reset of everything failed to restore and that nobody has written since, after
      one more call. */
  ghost function StillUnrestored(items: Items, s: State, c: Call, before: set<nat>): set<nat>
    requires Table(items) && Shape(items, s) && Legal(items, c)
  {
    match c
    case Init(_, _, _, _) => {}
    case ResetAll(restored, _, ws) =>
      if !s.up then before
      else set i | i in AllItems(items) && FailsToSync(items[i], Lookup(restored, items[i].key), WriteOf(ws, i))
    case GroupReset(g, ws) =>
      if !s.up then before
      else set i | i in before && !(Due(items, g, 0, i) && WriteOf(ws, i) == Done)
    case Set(key, _, _) => Without(items, before, key, Step(items, s, c).ret)
    case SetBlob(key, _, _) => Without(items, before, key, Step(items, s, c).ret)
    case Reset(key, _) => Without(items, before, key, Step(items, s, c).ret)
    case Deinit => before
    case PowerLoss => before
  }

  /** A call about `key` that returned 0 has written its item. */
  ghost function Without(items: Items, before: set<nat>, key: string, ret: int): set<nat> {
    if ret == 0 && Find(items, key).Some? then before - {Find(items, key).value} else before
  }

  /** The same over a whole run. */
  ghost function Unrestored(items: Items, s: State, calls: seq<Call>, before: set<nat>): set<nat>
    requires Table(items) && Shape(items, s) && AllLegal(items, calls)
    decreases |calls|
  {
    if calls == [] then before
    else Unrestored(items, Step(items, s, calls[0]).s, calls[1..], StillUnrestored(items, s, calls[0], before))
  }

  /** In an initialised state all items but the unrestored ones are synced, and those cannot be read. */
  ghost predicate Tracked(items: Items, s: State, out: set<nat>)
    requires Table(items) && Shape(items, s)
  {
    s.up ==> forall i :: 0 <= i < |items| ==>
      && (i in s.synced <==> i !in out)
      && (i in out ==> Unreadable(items[i], Lookup(s.store, items[i].key)))
  }

  lemma PutTracked(items: Items, s: State, i: nat, v: Value, w: Write, out: set<nat>)
    requires Table(items) && Shape(items, s) && i < |items| && Matches(items[i], v) && Tracked(items, s, out)
    ensures var o := Put(items, s, i, v, w); Tracked(items, o.s, if o.ret == 0 then out - {i} else out)
  {
  }

  lemma {:induction false} GroupTracked(items: Items, s: State, g: nat, i: nat, ws: seq<Write>, ret: int, out: set<nat>)
    requires Table(items) && Shape(items, s) && i <= |items| && Tracked(items, s, out)
    ensures Tracked(items, GroupFrom(items, s, g, i, ws, ret).s,
                    set k | k in out && !(Due(items, g, i, k) && WriteOf(ws, k) == Done))
    decreases |items| - i
  {
    if i < |items| {
      if items[i].group != g {
        GroupTracked(items, s, g, i + 1, ws, ret, out);
      } else {
        var o := Put(items, s, i, items[i].def, WriteOf(ws, i));
        var out' := if o.ret == 0 then out - {i} else out;
        PutTracked(items, s, i, items[i].def, WriteOf(ws, i), out);
        if !o.lost {
          GroupTracked(items, o.s, g, i + 1, ws, if o.ret != 0 then -1 else ret, out');
        }
      }
    }
  }

  lemma ResetAllTracked(items: Items, s: State, restored: map<string, Bytes>, ws: seq<Write>)
    requires Table(items) && Shape(items, s) && s.up
    ensures var c := ResetAll(restored, false, ws);
            Tracked(items, Step(items, s, c).s, StillUnrestored(items, s, c, {}))
  {
    var r := Restored(s, restored);
    var o := SyncFrom(items, r, 0, ws, false, 0);
    var out := StillUnrestored(items, s, ResetAll(restored, false, ws), {});
    forall j | 0 <= j < |items| && o.s.up
      ensures j in o.s.synced <==> j !in out
      ensures j in out ==> Unreadable(items[j], Lookup(o.s.store, items[j].key))
    {
      SyncFromEffect(items, r, 0, ws, false, 0, j);
      SyncFromReturns(items, r, 0, ws, false, 0);
    }
  }

  lemma InitTracked(items: Items, s: State, formatted: Option<map<string, Bytes>>, ws: seq<Write>)
    requires Table(items) && Shape(items, s)
    ensures Tracked(items, Step(items, s, Init(true, true, formatted, ws)).s, {})
  {
    var r := Opening(s, formatted);
    var o := SyncFrom(items, r, 0, ws, true, 0);
    forall j | 0 <= j < |items|
      ensures (o.ret == 0 ==> j in o.s.synced) && (o.ret != 0 ==> !Step(items, s, Init(true, true, formatted, ws)).s.up)
    {
      SyncFromEffect(items, r, 0, ws, true, 0, j);
      SyncFromReturns(items, r, 0, ws, true, 0);
    }
  }

  lemma StepTracked(items: Items, s: State, c: Call, out: set<nat>)
    requires Table(items) && Shape(items, s) && Legal(items, c) && Tracked(items, s, out)
    ensures Tracked(items, Step(items, s, c).s, StillUnrestored(items, s, c, out))
  {
    match c
    case Init(_, _, formatted, ws) =>
      InitTracked(items, s, formatted, ws);
    case ResetAll(restored, cut, ws) =>
      if s.up && !cut {
        ResetAllTracked(items, s, restored, ws);
      }
    case GroupReset(g, ws) =>
      GroupTracked(items, s, g, 0, ws, 0, out);
    case Set(key, v, w) =>
      if Find(items, key).Some? {
        var i := Find(items, key).value;
        PutTracked(items, s, i, Trimmed(items[i], v), w, out);
      }
    case SetBlob(key, b, w) =>
      if Find(items, key).Some? && items[Find(items, key).value].kind == Blob {
        PutTracked(items, s, Find(items, key).value, BlobV(b), w, out);
      }
    case Reset(key, w) =>
      if Find(items, key).Some? {
        var i := Find(items, key).value;
        PutTracked(items, s, i, items[i].def, w, out);
      }
    case Deinit =>
    case PowerLoss =>
  }

  lemma {:induction false} RunTracked(items: Items, s: State, calls: seq<Call>, out: set<nat>)
    requires Table(items) && Shape(items, s) && AllLegal(items, calls) && Tracked(items, s, out)
    ensures Tracked(items, Run(items, s, calls), Unrestored(items, s, calls, out))
    decreases |calls|
  {
    if calls != [] {
      StepTracked(items, s, calls[0], out);
      RunTracked(items, Step(items, s, calls[0]).s, calls[1..], StillUnrestored(items, s, calls[0], out));
    }
  }

  /** Agreement in every reachable initialised state: from any store contents, over any run with refused
      writes and power losses, RAM is the typed view of the store for every item but those that a reset
      of everything failed to restore and that were not written since; these the store cannot give back. */
  lemma Agreement(items: Items, store: map<string, Bytes>, calls: seq<Call>, i: nat)
    requires Table(items) && AllLegal(items, calls) && i < |items|
    requires Run(items, Blank(items, store), calls).up
    ensures var s := Run(items, Blank(items, store), calls);
            if i in Unrestored(items, Blank(items, store), calls, {})
            then Unreadable(items[i], Lookup(s.store, items[i].key))
            else InStep(items, s, i)
  {
    RunKeeps(items, Blank(items, store), calls);
    RunTracked(items, Blank(items, store), calls, {});
    assert Sound(items, Run(items, Blank(items, store), calls), i);
  }

  /** No reset of everything in the run was carried out and returned non-zero. */
  ghost predicate NoFailedReset(items: Items, s: State, calls: seq<Call>)
    requires Table(items) && Shape(items, s) && AllLegal(items, calls)
    decreases |calls|
  {
    calls == [] ||
    (&& (calls[0].ResetAll? && s.up ==> Step(items, s, calls[0]).ret == 0)
     && NoFailedReset(items, Step(items, s, calls[0]).s, calls[1..]))
  }

  lemma ResetAllRestores(items: Items, s: State, c: Call)
    requires Table(items) && Shape(items, s) && c.ResetAll? && s.up && Step(items, s, c).ret == 0
    ensures StillUnrestored(items, s, c, {}) == {}
  {
    forall j | 0 <= j < |items|
      ensures !FailsToSync(items[j], Lookup(c.restored, items[j].key), WriteOf(c.ws, j))
    {
      SyncFromReturns(items, Restored(s, c.restored), 0, c.ws, false, 0);
    }
  }

  lemma {:induction false} NothingUnrestored(items: Items, s: State, calls: seq<Call>)
    requires Table(items) && Shape(items, s) && AllLegal(items, calls) && NoFailedReset(items, s, calls)
    ensures Unrestored(items, s, calls, {}) == {}
    decreases |calls|
  {
    if calls != [] {
      if calls[0].ResetAll? && s.up {
        ResetAllRestores(items, s, calls[0]);
      }
      assert StillUnrestored(items, s, calls[0], {}) == {};
      NothingUnrestored(items, Step(items, s, calls[0]).s, calls[1..]);
    }
  }

  /** Over every run in which no reset of everything failed, every item agrees in every initialised state. */
  lemma FullAgreement(items: Items, store: map<string, Bytes>, calls: seq<Call>, i: nat)
    requires Table(items) && AllLegal(items, calls) && i < |items|
    requires NoFailedReset(items, Blank(items, store), calls) && Run(items, Blank(items, store), calls).up
    ensures InStep(items, Run(items, Blank(items, store), calls), i)
  {
    NothingUnrestored(items, Blank(items, store), calls);
    Agreement(items, store, calls, i);
  }

  /** A start, or a reset of everything, that returns 0 leaves every item in step. */
  lemma SuccessSyncsAll(items: Items, s: State, c: Call, i: nat)
    requires Table(items) && Inv(items, s) && (c.Init? || c.ResetAll?) && Step(items, s, c).ret == 0 && i < |items|
    ensures InStep(items, Step(items, s, c).s, i)
  {
    assert Sound(items, s, i);
    StepKeepsItem(items, s, c, i);
    match c
    case Init(_, _, formatted, ws) =>
      SyncFromReturns(items, Opening(s, formatted), 0, ws, true, 0);
      SyncFromEffect(items, Opening(s, formatted), 0, ws, true, 0, i);
    case ResetAll(restored, _, ws) =>
      SyncFromReturns(items, Restored(s, restored), 0, ws, false, 0);
      SyncFromEffect(items, Restored(s, restored), 0, ws, false, 0, i);
  }

  /** The item a single-item call is about and the value it brings. */
  ghost predicate Writes(items: Items, c: Call, i: nat, v: Value)
    requires Table(items) && Legal(items, c)
  {
    && i < |items|
    && ((c.Set? && Find(items, c.key) == Some(i) && v == Trimmed(items[i], c.v))
        || (c.SetBlob? && Find(items, c.key) == Some(i) && v == BlobV(c.b))
        || (c.Reset? && Find(items, c.key) == Some(i) && v == items[i].def))
  }

  /** A single-item call is atomic. Returning -1 it changes neither side; returning 0 it changed
      exactly its item, in both places; interrupted by a power loss it left the old value or the new
      one in the store. */
  lemma CallAtomic(items: Items, s: State, c: Call, i: nat, v: Value)
    requires Table(items) && Shape(items, s) && Legal(items, c) && Writes(items, c, i, v)
    ensures var o := Step(items, s, c);
            && (o.ret != 0 && !o.lost ==> o.s == s)
            && (o.ret == 0 ==>
                  && o.s.store == s.store[items[i].key := Encode(v)]
                  && o.s.ram == s.ram[i := Image(items[i], v, s.ram[i])]
                  && o.s.last == s.last[i := Some(v)])
            && (o.lost ==>
                  || (o.s.store == s.store && o.s.last == s.last)
                  || (o.s.store == s.store[items[i].key := Encode(v)] && o.s.last == s.last[i := Some(v)]))
  {
  }

  /** Item j is one a group reset that starts at i still has to do. */
  predicate Due(items: Items, g: nat, i: nat, j: nat) {
    i <= j < |items| && items[j].group == g
  }

  /** After a group reset, item j is fully at its default if its write was done, and otherwise fully
      as it was; so it is if it is no member. */
  ghost predicate FullyReset(items: Items, s: State, t: State, j: nat, done: bool)
    requires Table(items) && Shape(items, s) && Shape(items, t) && j < |items|
  {
    if done then
      && Lookup(t.store, items[j].key) == Some(Encode(items[j].def))
      && t.ram[j] == Image(items[j], items[j].def, s.ram[j])
    else Lookup(t.store, items[j].key) == Lookup(s.store, items[j].key) && t.ram[j] == s.ram[j]
  }

  lemma {:induction false} GroupExact(items: Items, s: State, g: nat, i: nat, ws: seq<Write>, ret: int, j: nat)
    requires Table(items) && Shape(items, s) && i <= |items| && j < |items|
    requires !GroupFrom(items, s, g, i, ws, ret).lost
    ensures FullyReset(items, s, GroupFrom(items, s, g, i, ws, ret).s, j, Due(items, g, i, j) && WriteOf(ws, j) == Done)
    decreases |items| - i
  {
    if i < |items| {
      if items[i].group != g {
        GroupExact(items, s, g, i + 1, ws, ret, j);
      } else {
        var o := Put(items, s, i, items[i].def, WriteOf(ws, i));
        GroupExact(items, o.s, g, i + 1, ws, if o.ret != 0 then -1 else ret, j);
      }
    }
  }

  /** It returns 0 exactly when every member's write was done. */
  lemma {:induction false} GroupReturns(items: Items, s: State, g: nat, i: nat, ws: seq<Write>, ret: int)
    requires Table(items) && Shape(items, s) && i <= |items|
    requires !GroupFrom(items, s, g, i, ws, ret).lost
    ensures GroupFrom(items, s, g, i, ws, ret).ret == 0 <==>
              ret == 0 && forall j: nat :: Due(items, g, i, j) ==> WriteOf(ws, j) == Done
    decreases |items| - i
  {
    if i < |items| {
      if items[i].group != g {
        GroupReturns(items, s, g, i + 1, ws, ret);
        assert forall j: nat :: Due(items, g, i, j) <==> Due(items, g, i + 1, j);
      } else {
        var o := Put(items, s, i, items[i].def, WriteOf(ws, i));
        GroupReturns(items, o.s, g, i + 1, ws, if o.ret != 0 then -1 else ret);
        assert forall j: nat :: Due(items, g, i, j) <==> j == i || Due(items, g, i + 1, j);
      }
    }
  }

  /** Cut short by a power loss, a group reset has left every key of the store at its old value or at
      its default, and keys outside the group untouched. */
  lemma {:induction false} GroupInterrupted(items: Items, s: State, g: nat, i: nat, ws: seq<Write>, ret: int, key: string)
    requires Table(items) && Shape(items, s) && i <= |items|
    ensures var t := GroupFrom(items, s, g, i, ws, ret).s;
            || Lookup(t.store, key) == Lookup(s.store, key)
            || exists j: nat :: Due(items, g, i, j) && items[j].key == key
                                && Lookup(t.store, key) == Some(Encode(items[j].def))
    decreases |items| - i
  {
    if i < |items| {
      if items[i].group != g {
        GroupInterrupted(items, s, g, i + 1, ws, ret, key);
      } else {
        var o := Put(items, s, i, items[i].def, WriteOf(ws, i));
        assert Due(items, g, i, i);
        if !o.lost {
          GroupInterrupted(items, o.s, g, i + 1, ws, if o.ret != 0 then -1 else ret, key);
        }
      }
    }
  }

  // ---------------------------------------------------------------------------------------------
  // What the calls do, on RAM and store
  // ---------------------------------------------------------------------------------------------

  /** Item i shows v in both places; no other buffer and no other key changed. */
  ghost predicate ItemSet(items: Items, s: State, t: State, i: nat, v: Value)
    requires Shape(items, s) && Shape(items, t) && i < |items|
  {
    var key := items[i].key;
    && key in t.store && Shows(items[i], v, t.store[key], t.ram[i], s.ram[i]) && t.up == s.up
    && (forall j :: 0 <= j < |items| && j != i ==> t.ram[j] == s.ram[j])
    && (forall k :: k != key ==> Lookup(t.store, k) == Lookup(s.store, k))
  }

  lemma PutShows(items: Items, s: State, i: nat, v: Value, w: Write)
    requires Table(items) && Shape(items, s) && i < |items| && Matches(items[i], v)
    ensures var o := Put(items, s, i, v, w);
            (o.ret == 0 <==> w == Done) && (o.ret == 0 ==> ItemSet(items, s, o.s, i, v))
  {
    WrittenShows(items[i], v, s.ram[i]);
  }

  /** Setting a known item succeeds exactly in an initialised manager whose write is done, and then shows
      the caller's value; of a blob, as many bytes as buffer and default both have. */
  lemma SetStores(items: Items, s: State, i: nat, v: Value, w: Write)
    requires Table(items) && Shape(items, s) && i < |items| && Supplies(items[i], v)
    ensures var c := Call.Set(items[i].key, v, w); Legal(items, c)
    ensures var o := Step(items, s, Call.Set(items[i].key, v, w));
            && (o.ret == 0 <==> s.up && w == Done)
            && (o.ret == 0 ==>
                  match v
                  case BlobV(b) => ItemSet(items, s, o.s, i, BlobV(b[..Min(items[i].ramSize, |items[i].def.b|)]))
                  case _ => ItemSet(items, s, o.s, i, v))
  {
    assert Find(items, items[i].key) == Some(i);
    PutShows(items, s, i, Trimmed(items[i], v), w);
  }

  lemma SetBlobStores(items: Items, s: State, i: nat, b: Bytes, w: Write)
    requires Table(items) && Shape(items, s) && i < |items|
    ensures var o := Step(items, s, SetBlob(items[i].key, b, w));
            && (o.ret == 0 <==> s.up && w == Done && items[i].kind == Blob && 0 < |b| <= items[i].ramSize)
            && (o.ret == 0 ==> ItemSet(items, s, o.s, i, BlobV(b)))
  {
    assert Find(items, items[i].key) == Some(i);
    if items[i].kind == Blob {
      PutShows(items, s, i, BlobV(b), w);
    }
  }

  lemma ResetStores(items: Items, s: State, i: nat, w: Write)
    requires Table(items) && Shape(items, s) && i < |items|
    ensures var o := Step(items, s, Reset(items[i].key, w));
            && (o.ret == 0 <==> s.up && w == Done)
            && (o.ret == 0 ==> ItemSet(items, s, o.s, i, items[i].def))
  {
    assert Find(items, items[i].key) == Some(i);
    PutShows(items, s, i, items[i].def, w);
  }

  /** A group reset that is not interrupted: every member whose write is done shows its default, every
      other item is as it was; it returns 0 exactly if the writes of all members are done. */
  lemma GroupResetStores(items: Items, s: State, g: nat, ws: seq<Write>, j: nat)
    requires Table(items) && Shape(items, s) && j < |items| && s.up && !Step(items, s, GroupReset(g, ws)).lost
    ensures var o, key := Step(items, s, GroupReset(g, ws)), items[j].key;
            && (if items[j].group == g && WriteOf(ws, j) == Done
                then key in o.s.store && Shows(items[j], items[j].def, o.s.store[key], o.s.ram[j], s.ram[j])
                else Lookup(o.s.store, key) == Lookup(s.store, key) && o.s.ram[j] == s.ram[j])
            && (o.ret == 0 <==> forall m :: 0 <= m < |items| && items[m].group == g ==> WriteOf(ws, m) == Done)
  {
    GroupExact(items, s, g, 0, ws, 0, j);
    GroupReturns(items, s, g, 0, ws, 0);
    WrittenShows(items[j], items[j].def, s.ram[j]);
    if forall m :: 0 <= m < |items| && items[m].group == g ==> WriteOf(ws, m) == Done {
      assert forall m :: Due(items, g, 0, m) ==> WriteOf(ws, m) == Done;
    } else {
      var m :| 0 <= m < |items| && items[m].group == g && WriteOf(ws, m) != Done;
      assert Due(items, g, 0, m);
    }
  }

  lemma UnknownKey(items: Items, s: State, key: string, v: Value, b: Bytes, w: Write)
    requires Table(items) && Shape(items, s) && forall i :: 0 <= i < |items| ==> items[i].key != key
    ensures Legal(items, Call.Set(key, v, w)) && Step(items, s, Call.Set(key, v, w)) == Outcome(s, -1, false)
    ensures Step(items, s, SetBlob(key, b, w)) == Step(items, s, Reset(key, w)) == Outcome(s, -1, false)
  {
    assert Find(items, key).None?;
  }

  /** A start returns 0, and comes up, exactly if memory and store are there and every item of the store
      that was found or formatted can be read or has its default written. */
  lemma StartReturns(items: Items, s: State, memory: bool, storage: bool, formatted: Option<map<string, Bytes>>,
                     ws: seq<Write>)
    requires Table(items) && Shape(items, s)
    ensures var o := Step(items, s, Init(memory, storage, formatted, ws));
            var store := if formatted.Some? then formatted.value else s.store;
            && (o.ret == 0 <==> memory && storage && AllFine(items, store, 0, ws))
            && (o.s.up <==> o.ret == 0)
  {
    SyncFromReturns(items, Opening(s, formatted), 0, ws, true, 0);
  }

  /** Resetting everything returns 0 under the same condition on what was restored. */
  lemma ResetAllReturns(items: Items, s: State, restored: map<string, Bytes>, cut: bool, ws: seq<Write>)
    requires Table(items) && Shape(items, s)
    ensures Step(items, s, ResetAll(restored, cut, ws)).ret == 0 <==> s.up && !cut && AllFine(items, restored, 0, ws)
  {
    SyncFromReturns(items, Restored(s, restored), 0, ws, false, 0);
  }

  /** A store that holds a readable value for every item starts, whatever happens to writes. */
  lemma ReadableStarts(items: Items, s: State, vs: seq<Value>, ws: seq<Write>)
    requires Table(items) && Shape(items, s) && |vs| == |items|
    requires forall i :: 0 <= i < |items| ==>
               Matches(items[i], vs[i]) && Readable(vs[i]) && Lookup(s.store, items[i].key) == Some(Encode(vs[i]))
    ensures Step(items, s, Init(true, true, None, ws)).ret == 0
  {
    forall i | 0 <= i < |items| ensures !Unreadable(items[i], Lookup(s.store, items[i].key)) {
      ReadableLoads(items[i], vs[i], Zeros(items[i].ramSize));
    }
    StartReturns(items, s, true, true, None, ws);
  }

  /** Stopping and losing power leave the store; only the latter clears RAM. */
  lemma StopsKeepStore(items: Items, s: State, i: nat)
    requires Table(items) && Shape(items, s) && i < |items|
    ensures var o := Step(items, s, Deinit);
            !o.s.up && o.s.store == s.store && o.s.ram == s.ram && (o.ret == 0 <==> s.up)
    ensures var o := Step(items, s, PowerLoss);
            !o.s.up && o.s.store == s.store && forall k :: 0 <= k < items[i].ramSize ==> o.s.ram[i][k] == 0 as char
  {
  }

  // ---------------------------------------------------------------------------------------------
  // Durability
  // ---------------------------------------------------------------------------------------------

  /** Durability over whole runs: from any store contents, after any run of calls with refused writes
      and power losses in and between them, one more power loss and a start that succeeds, every item
      whose last value was brought into the store shows that value again, exactly as setting it showed
      it, if the value can be read back as a whole; if it cannot be read at all, it shows its default. */
  lemma Durability(items: Items, store: map<string, Bytes>, calls: seq<Call>, ws: seq<Write>, i: nat)
    requires Table(items) && AllLegal(items, calls) && i < |items|
    requires Run(items, Blank(items, store), calls).last[i].Some?
    requires Step(items, Dark(items, Run(items, Blank(items, store), calls)), Init(true, true, None, ws)).ret == 0
    ensures Matches(items[i], Run(items, Blank(items, store), calls).last[i].value)
    ensures var s := Run(items, Blank(items, store), calls);
            var t := Step(items, Dark(items, s), Init(true, true, None, ws)).s;
            var v, z := s.last[i].value, Zeros(items[i].ramSize);
            && t.up
            && (Readable(v) ==> (t.ram[i] == Image(items[i], v, z) <==> Complete(items[i], v)))
            && (!Readable(v) ==> t.ram[i] == Image(items[i], items[i].def, z))
  {
    var s := Run(items, Blank(items, store), calls);
    RunKeeps(items, Blank(items, store), calls);
    assert Sound(items, s, i);
    StartRestores(items, s, ws, i);
    RestoredExactly(items[i], s.last[i].value);
  }

  /** The write takes effect. */
  predicate Lands(w: Write) { w == Done || w == CutAfter }

  /** The call brings no value of item i into the store, unless a start finds what is there unreadable. */
  predicate Spares(items: Items, c: Call, i: nat)
    requires i < |items|
  {
    match c
    case Init(_, _, formatted, _) => formatted.None?
    case Set(key, _, w) => key != items[i].key || !Lands(w)
    case SetBlob(key, _, w) => key != items[i].key || !Lands(w)
    case Reset(key, w) => key != items[i].key || !Lands(w)
    case GroupReset(g, ws) => items[i].group != g || !Lands(WriteOf(ws, i))
    case ResetAll(_, _, _) => false
    case Deinit => true
    case PowerLoss => true
  }

  /** The store holds v for item j, or the default in place of a v that cannot be read. */
  ghost predicate Holds(items: Items, s: State, j: nat, v: Value)
    requires j < |items|
  {
    var stored := Lookup(s.store, items[j].key);
    && Matches(items[j], v)
    && (stored == Some(Encode(v)) || (!Readable(v) && stored == Some(Encode(items[j].def))))
  }

  /** What synchronising leaves in the store for an item if its write takes effect. */
  function Mended(it: Item, stored: Option<Bytes>): Option<Bytes>
    requires Sized(it)
  {
    if Unreadable(it, stored) then Some(Encode(it.def)) else stored
  }

  lemma SyncStored(items: Items, s: State, i: nat, w: Write, j: nat)
    requires Table(items) && Shape(items, s) && i < |items| && j < |items|
    ensures var was, now := Lookup(s.store, items[j].key), Lookup(Sync(items, s, i, w).s.store, items[j].key);
            now == was || (i == j && now == Mended(items[j], was))
  {
    if i == j && items[j].key in s.store {
      LoadIgnoresRam(items[j], s.store[items[j].key], s.ram[j]);
    }
  }

  lemma {:induction false} SyncFromStored(items: Items, s: State, i: nat, ws: seq<Write>, stop: bool, ret: int, j: nat)
    requires Table(items) && Shape(items, s) && i <= |items| && j < |items|
    ensures var was := Lookup(s.store, items[j].key);
            var now := Lookup(SyncFrom(items, s, i, ws, stop, ret).s.store, items[j].key);
            now == was || (i <= j && now == Mended(items[j], was))
    decreases |items| - i
  {
    if i < |items| {
      SyncStored(items, s, i, WriteOf(ws, i), j);
      var o := Sync(items, s, i, WriteOf(ws, i));
      var r := if o.ret != 0 then -1 else ret;
      if o.lost || (stop && o.ret != 0) {
        assert SyncFrom(items, s, i, ws, stop, ret) == o;
      } else {
        SyncFromStored(items, o.s, i + 1, ws, stop, r, j);
        assert SyncFrom(items, s, i, ws, stop, ret) == SyncFrom(items, o.s, i + 1, ws, stop, r);
      }
    }
  }

  lemma {:induction false} GroupFromSpares(items: Items, s: State, g: nat, i: nat, ws: seq<Write>, ret: int, j: nat)
    requires Table(items) && Shape(items, s) && i <= |items| && j < |items|
    requires items[j].group != g || !Lands(WriteOf(ws, j))
    ensures Lookup(GroupFrom(items, s, g, i, ws, ret).s.store, items[j].key) == Lookup(s.store, items[j].key)
    decreases |items| - i
  {
    if i < |items| {
      if items[i].group != g {
        GroupFromSpares(items, s, g, i + 1, ws, ret, j);
      } else {
        var o := Put(items, s, i, items[i].def, WriteOf(ws, i));
        if !o.lost {
          GroupFromSpares(items, o.s, g, i + 1, ws, if o.ret != 0 then -1 else ret, j);
        }
      }
    }
  }

  lemma StepHolds(items: Items, s: State, c: Call, j: nat, v: Value)
    requires Table(items) && Shape(items, s) && Legal(items, c) && j < |items|
    requires Holds(items, s, j, v) && Spares(items, c, j)
    ensures Holds(items, Step(items, s, c).s, j, v)
  {
    if c.Init? {
      ReadableLoads(items[j], v, Zeros(items[j].ramSize));
      SyncFromStored(items, Opening(s, None), 0, c.ws, true, 0, j);
    } else if c.GroupReset? {
      GroupFromSpares(items, s, c.group, 0, c.ws, 0, j);
    } else {
      assert Lookup(Step(items, s, c).s.store, items[j].key) == Lookup(s.store, items[j].key);
    }
  }

  lemma {:induction false} RunHolds(items: Items, s: State, calls: seq<Call>, j: nat, v: Value)
    requires Table(items) && Shape(items, s) && AllLegal(items, calls) && j < |items| && Holds(items, s, j, v)
    requires forall k :: 0 <= k < |calls| ==> Spares(items, calls[k], j)
    ensures Holds(items, Run(items, s, calls), j, v)
    decreases |calls|
  {
    if calls != [] {
      StepHolds(items, s, calls[0], j, v);
      RunHolds(items, Step(items, s, calls[0]).s, calls[1..], j, v);
    }
  }

  lemma CallHolds(items: Items, s: State, c: Call, i: nat, v: Value)
    requires Table(items) && Shape(items, s) && Legal(items, c) && Writes(items, c, i, v)
    requires Step(items, s, c).ret == 0
    ensures Holds(items, Step(items, s, c).s, i, v)
  {
    CallAtomic(items, s, c, i, v);
  }

  /** What an item shows after a restart that followed setting it to v. */
  ghost predicate ComesBack(it: Item, v: Value, ram: Bytes)
    requires Sized(it) && Matches(it, v) && Matches(it, it.def)
  {
    var z := Zeros(it.ramSize);
    && (Readable(v) ==> (ram == Image(it, v, z) <==> Complete(it, v)))
    && (!Readable(v) ==> ram == Image(it, it.def, z) || ram == Recovered(it, Encode(it.def), z))
  }

  lemma HeldComesBack(items: Items, s: State, ws: seq<Write>, i: nat, v: Value)
    requires Table(items) && Shape(items, s) && i < |items| && Holds(items, s, i, v)
    requires Step(items, Dark(items, s), Init(true, true, None, ws)).ret == 0
    ensures var t := Step(items, Dark(items, s), Init(true, true, None, ws)).s;
            t.up && ComesBack(items[i], v, t.ram[i])
  {
    StartRestores(items, s, ws, i);
    RestoredExactly(items[i], v);
  }

  /** What call k of a run returns. */
  function ReturnOf(items: Items, s: State, calls: seq<Call>, k: nat): int
    requires Table(items) && Shape(items, s) && AllLegal(items, calls) && k < |calls|
    decreases |calls|
  {
    var o := Step(items, s, calls[0]);
    if k == 0 then o.ret else ReturnOf(items, o.s, calls[1..], k - 1)
  }

  /** Call k of the run brings v into item i and returns 0, and the calls behind it spare i. */
  ghost predicate SetAt(items: Items, s: State, calls: seq<Call>, k: nat, i: nat, v: Value)
    requires Table(items) && Shape(items, s) && AllLegal(items, calls)
  {
    && k < |calls| && Writes(items, calls[k], i, v) && ReturnOf(items, s, calls, k) == 0
    && forall m :: k < m < |calls| ==> Spares(items, calls[m], i)
  }

  lemma {:induction false} SetHolds(items: Items, s: State, calls: seq<Call>, k: nat, i: nat, v: Value)
    requires Table(items) && Shape(items, s) && AllLegal(items, calls) && SetAt(items, s, calls, k, i, v)
    ensures Holds(items, Run(items, s, calls), i, v)
    decreases |calls|
  {
    var s1 := Step(items, s, calls[0]).s;
    if k == 0 {
      CallHolds(items, s, calls[0], i, v);
      RunHolds(items, s1, calls[1..], i, v);
    } else {
      SetHolds(items, s1, calls[1..], k - 1, i, v);
    }
  }

  /** Durability on the calls alone: in any run from any store, a set, set blob or reset of item i that
      returned 0, with no call behind it that brings in another value of i, then power loss and a start
      that succeeds. The value is back exactly if it can be read back as a whole; one that cannot be read
      gives the default, or what the default's stored form reads as. */
  lemma SetSurvives(items: Items, store: map<string, Bytes>, calls: seq<Call>, k: nat, ws: seq<Write>, i: nat, v: Value)
    requires Table(items) && AllLegal(items, calls) && SetAt(items, Blank(items, store), calls, k, i, v)
    requires Step(items, Dark(items, Run(items, Blank(items, store), calls)), Init(true, true, None, ws)).ret == 0
    ensures var s := Run(items, Blank(items, store), calls);
            var t := Step(items, Dark(items, s), Init(true, true, None, ws)).s;
            t.up && Matches(items[i], v) && ComesBack(items[i], v, t.ram[i])
  {
    var blank := Blank(items, store);
    SetHolds(items, blank, calls, k, i, v);
    HeldComesBack(items, Run(items, blank, calls), ws, i, v);
  }

  /** A start after power loss shows what the stored bytes read as. */
  lemma StartRestores(items: Items, s: State, ws: seq<Write>, i: nat)
    requires Table(items) && Shape(items, s) && i < |items|
    requires Step(items, Dark(items, s), Init(true, true, None, ws)).ret == 0
    ensures var t := Step(items, Dark(items, s), Init(true, true, None, ws)).s;
            t.up && t.ram[i] == Start(items[i], Lookup(s.store, items[i].key), Zeros(items[i].ramSize))
  {
    SyncFromEffect(items, Opening(Dark(items, s), None), 0, ws, true, 0, i);
    SyncFromReturns(items, Opening(Dark(items, s), None), 0, ws, true, 0);
  }

  // ---------------------------------------------------------------------------------------------
  // Raw defaults
  // ---------------------------------------------------------------------------------------------

  /** A reset of everything that returns 0 leaves each item at what the restored table holds for it, or
      at its default if that cannot be read. */
  lemma ResetAllLeaves(items: Items, s: State, restored: map<string, Bytes>, ws: seq<Write>, i: nat)
    requires Table(items) && Shape(items, s) && s.up && i < |items|
    requires Step(items, s, ResetAll(restored, false, ws)).ret == 0
    ensures Step(items, s, ResetAll(restored, false, ws)).s.ram[i]
            == Start(items[i], Lookup(restored, items[i].key), s.ram[i])
  {
    SyncFromEffect(items, Restored(s, restored), 0, ws, false, 0, i);
    SyncFromReturns(items, Restored(s, restored), 0, ws, false, 0);
  }

  /** With the registered default in the restored table, a reset of everything that returns 0 gives an
      int its default exactly when the default's four raw bytes do not read as a number. */
  lemma ResetAllInt(items: Items, s: State, restored: map<string, Bytes>, ws: seq<Write>, i: nat)
    requires Table(items) && Shape(items, s) && s.up && i < |items| && items[i].kind == Int
    requires Lookup(restored, items[i].key) == Some(RawDefault(items[i]))
    requires Step(items, s, ResetAll(restored, false, ws)).ret == 0
    ensures Step(items, s, ResetAll(restored, false, ws)).s.ram[i] == Image(items[i], items[i].def, s.ram[i])
            <==> !ReadsAsNumber(RawDefault(items[i]))
  {
    ResetAllLeaves(items, s, restored, ws, i);
    RawIntDefault(items[i], s.ram[i]);
  }

  /** Such a default: the int whose bytes spell "   5" comes back as 5, whatever happens to the writes. */
  lemma ResetAllMisread(items: Items, s: State, restored: map<string, Bytes>, ws: seq<Write>, i: nat)
    requires Table(items) && Shape(items, s) && s.up && i < |items|
    requires items[i].kind == Int && items[i].def == IntV(0x35202020) && items[i].ramSize == 4
    requires Lookup(restored, items[i].key) == Some(RawDefault(items[i]))
    requires Step(items, s, ResetAll(restored, false, ws)).ret == 0
    ensures Step(items, s, ResetAll(restored, false, ws)).s.ram[i] == IntBytes(5)
  {
    ResetAllLeaves(items, s, restored, ws, i);
    RawIntMisread(items[i], s.ram[i]);
  }

  /** A start that formatted the store behaves the same: so does the first start of a blank device. */
  lemma FirstStartLeaves(items: Items, s: State, table: map<string, Bytes>, ws: seq<Write>, i: nat)
    requires Table(items) && Shape(items, s) && i < |items|
    requires Step(items, s, Init(true, true, Some(table), ws)).ret == 0
    ensures Step(items, s, Init(true, true, Some(table), ws)).s.ram[i]
            == Start(items[i], Lookup(table, items[i].key), s.ram[i])
  {
    SyncFromEffect(items, Opening(s, Some(table)), 0, ws, true, 0, i);
    SyncFromReturns(items, Opening(s, Some(table)), 0, ws, true, 0);
  }

  lemma FirstStartInt(items: Items, s: State, table: map<string, Bytes>, ws: seq<Write>, i: nat)
    requires Table(items) && Shape(items, s) && i < |items| && items[i].kind == Int
    requires Lookup(table, items[i].key) == Some(RawDefault(items[i]))
    requires Step(items, s, Init(true, true, Some(table), ws)).ret == 0
    ensures Step(items, s, Init(true, true, Some(table), ws)).s.ram[i] == Image(items[i], items[i].def, s.ram[i])
            <==> !ReadsAsNumber(RawDefault(items[i]))
  {
    FirstStartLeaves(items, s, table, ws, i);
    RawIntDefault(items[i], s.ram[i]);
  }

  // ---------------------------------------------------------------------------------------------
  // Values that do not come back
  // ---------------------------------------------------------------------------------------------

  const SERIAL_NUMBER: Item := Item("SN", Str, StrV("0123"), 32, 0)

  /** A start, then setting the serial number to the empty string with every write done, then power loss
      and a start: the default is back. */
  lemma EmptyStringForgotten(store: map<string, Bytes>)
    ensures var items, z := [SERIAL_NUMBER], Zeros(32);
            && Table(items) && AllLegal(items, [Init(true, true, None, [Done]), Set("SN", StrV(""), Done)])
            && var s := Run(items, Blank(items, store), [Init(true, true, None, [Done]), Set("SN", StrV(""), Done)]);
            && var t := Step(items, Dark(items, s), Init(true, true, None, [Done]));
            && s.last[0] == Some(StrV("")) && s.ram[0] == Image(SERIAL_NUMBER, StrV(""), s.ram[0])
            && t.ret == 0 && t.s.ram[0] == Image(SERIAL_NUMBER, StrV("0123"), z) != Image(SERIAL_NUMBER, StrV(""), z)
  {
    var items := [SERIAL_NUMBER];
    var first, second := Init(true, true, None, [Done]), Call.Set("SN", StrV(""), Done);
    var b := Blank(items, store);
    StartReturns(items, b, true, true, None, [Done]);
    var s1 := Step(items, b, first).s;
    assert Find(items, "SN") == Some(0);
    var s2 := Step(items, s1, second).s;
    assert [first, second][1..] == [second] && [second][1..] == [];
    assert Run(items, b, [first, second]) == s2 by {
      assert Run(items, s1, [second]) == Run(items, s2, []);
    }
    StartReturns(items, Dark(items, s2), true, true, None, [Done]);
    SyncFromEffect(items, Opening(Dark(items, s2), None), 0, [Done], true, 0, 0);
    SyncFromReturns(items, Opening(Dark(items, s2), None), 0, [Done], true, 0);
    assert Image(SERIAL_NUMBER, StrV("0123"), Zeros(32))[0] == '0';
  }
}
