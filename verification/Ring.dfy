/** Circular memory: what a run of bytes leaves behind when it is written one after the other into a
    buffer that wraps around, and what reading it back gives. */
module Ring {
  import opened Basics

  /** The memory after `data` has been written from unwrapped position `base` on. */
  ghost function Put<T>(mem: seq<T>, base: nat, data: seq<T>): (r: seq<T>)
    requires 1 <= |mem|
    ensures |r| == |mem|
  {
    if data == [] then mem
    else
      var last := |data| - 1;
      Put(mem, base, data[..last])[Cell(base, last, |mem|) := data[last]]
  }

  /** The `n` elements found from unwrapped position `base` on. */
  ghost function Get<T>(mem: seq<T>, base: nat, n: nat): (r: seq<T>)
    requires 1 <= |mem|
    ensures |r| == n
  {
    seq(n, k requires 0 <= k < n => mem[Cell(base, k, |mem|)])
  }

  /** The cell that unwrapped position `base + k` falls into. */
  function Cell(base: nat, k: nat, m: nat): (c: nat)
    requires 1 <= m
    ensures c < m
  {
    (base + k) % m
  }

  lemma WholeLaps(d: int, m: nat)
    ensures d >= 1 ==> d * m >= m
    ensures d <= -1 ==> d * m + m <= 0
    ensures d == 0 ==> d * m == 0
  {
  }

  lemma ModShift(a: nat, b: nat, m: nat)
    requires 1 <= m && a % m == b % m && a <= b
    ensures b - a == (b / m - a / m) * m
  {
    assert a == (a / m) * m + a % m;
    assert b == (b / m) * m + b % m;
  }

  /** Positions less than one lap apart are different cells. */
  lemma Apart(a: nat, b: nat, m: nat)
    requires 1 <= m && a < b < a + m
    ensures a % m != b % m
  {
    if a % m == b % m {
      ModShift(a, b, m);
      WholeLaps(b / m - a / m, m);
      assert false;
    }
  }

  lemma Next(a: nat, m: nat)
    requires 1 <= m
    ensures (a + 1) % m == if a % m + 1 == m then 0 else a % m + 1
  {
    assert a == (a / m) * m + a % m;
    if a % m + 1 == m {
      ModOf(a + 1, a / m + 1, 0, m);
    } else {
      ModOf(a + 1, a / m, a % m + 1, m);
    }
  }

  lemma ModOf(a: nat, q: int, r: nat, m: nat)
    requires 1 <= m && a == q * m + r && r < m
    ensures a % m == r && a / m == q
  {
    var d := q - a / m;
    assert d * m == a % m - r;
    WholeLaps(d, m);
  }

  /** The last lap's worth of what was written is what the memory holds; nothing else was touched. */
  lemma {:induction false} PutCell<T>(mem: seq<T>, base: nat, data: seq<T>, k: nat)
    requires 1 <= |mem| && k < |data| <= k + |mem|
    ensures Put(mem, base, data)[Cell(base, k, |mem|)] == data[k]
  {
    var last := |data| - 1;
    if k < last {
      PutCell(mem, base, data[..last], k);
      Apart(base + k, base + last, |mem|);
    }
  }

  lemma {:induction false} PutElsewhere<T>(mem: seq<T>, base: nat, data: seq<T>, c: nat)
    requires c < |mem| && forall k :: 0 <= k < |data| ==> Cell(base, k, |mem|) != c
    ensures Put(mem, base, data)[c] == mem[c]
  {
    if data != [] {
      PutElsewhere(mem, base, data[..|data| - 1], c);
    }
  }

  /** Reading back any stretch of the last lap gives what was written. */
  lemma ReadBack<T>(mem: seq<T>, base: nat, data: seq<T>, from: nat)
    requires 1 <= |mem| && from <= |data| <= from + |mem|
    ensures Get(Put(mem, base, data), base + from, |data| - from) == data[from..]
  {
    var got := Get(Put(mem, base, data), base + from, |data| - from);
    forall k | 0 <= k < |data| - from ensures got[k] == data[from..][k] {
      assert Cell(base + from, k, |mem|) == Cell(base, from + k, |mem|);
      PutCell(mem, base, data, from + k);
    }
  }

  lemma {:induction false} PutConcat<T>(mem: seq<T>, base: nat, a: seq<T>, b: seq<T>)
    requires 1 <= |mem|
    ensures Put(mem, base, a + b) == Put(Put(mem, base, a), base + |a|, b)
  {
    if b == [] {
      assert a + b == a;
    } else {
      var last := |b| - 1;
      PutConcat(mem, base, a, b[..last]);
      assert (a + b)[..|a| + last] == a + b[..last];
      assert Cell(base, |a| + last, |mem|) == Cell(base + |a|, last, |mem|);
    }
  }

  lemma PutOne<T>(mem: seq<T>, base: nat, data: seq<T>, x: T)
    requires 1 <= |mem|
    ensures Put(mem, base, data + [x]) == Put(mem, base, data)[Cell(base, |data|, |mem|) := x]
  {
    assert (data + [x])[..|data|] == data;
  }
}
