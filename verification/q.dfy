/**
 * util/q.go: a fixed-size circular queue.  The slot array has a power-of-two
 * length `mask + 1`; `rd` is the slot last read and `wr` the slot last
 * written, so the queue is empty when `rd == wr`, full when the slot after
 * `wr` is `rd`, and holds at most `mask` elements.  The mutex is not modelled.
 *
 * `nextpow2` is modelled bit for bit on `bv64`.  The queue's indices (Go
 * `uint`, never above `mask`) are integers, and Go's `x & mask` is `BitAnd`,
 * the bitwise AND of two naturals.
 */
module CircularQueue {
  import opened Wrappers

  function Pow2(k: nat): (p: nat)
    ensures p >= 1
  {
    if k == 0 then 1 else 2 * Pow2(k - 1)
  }

  /** The powers of two up to 2^32, spelled out. */
  lemma Pow2Table()
    ensures Pow2(0) == 0x1
    ensures Pow2(1) == 0x2
    ensures Pow2(2) == 0x4
    ensures Pow2(3) == 0x8
    ensures Pow2(4) == 0x10
    ensures Pow2(5) == 0x20
    ensures Pow2(6) == 0x40
    ensures Pow2(7) == 0x80
    ensures Pow2(8) == 0x100
    ensures Pow2(9) == 0x200
    ensures Pow2(10) == 0x400
    ensures Pow2(11) == 0x800
    ensures Pow2(12) == 0x1000
    ensures Pow2(13) == 0x2000
    ensures Pow2(14) == 0x4000
    ensures Pow2(15) == 0x8000
    ensures Pow2(16) == 0x10000
    ensures Pow2(17) == 0x20000
    ensures Pow2(18) == 0x40000
    ensures Pow2(19) == 0x80000
    ensures Pow2(20) == 0x100000
    ensures Pow2(21) == 0x200000
    ensures Pow2(22) == 0x400000
    ensures Pow2(23) == 0x800000
    ensures Pow2(24) == 0x1000000
    ensures Pow2(25) == 0x2000000
    ensures Pow2(26) == 0x4000000
    ensures Pow2(27) == 0x8000000
    ensures Pow2(28) == 0x10000000
    ensures Pow2(29) == 0x20000000
    ensures Pow2(30) == 0x40000000
    ensures Pow2(31) == 0x80000000
    ensures Pow2(32) == 0x100000000
  {
    assert Pow2(1) == 2 * Pow2(0);
    assert Pow2(2) == 2 * Pow2(1);
    assert Pow2(3) == 2 * Pow2(2);
    assert Pow2(4) == 2 * Pow2(3);
    assert Pow2(5) == 2 * Pow2(4);
    assert Pow2(6) == 2 * Pow2(5);
    assert Pow2(7) == 2 * Pow2(6);
    assert Pow2(8) == 2 * Pow2(7);
    assert Pow2(9) == 2 * Pow2(8);
    assert Pow2(10) == 2 * Pow2(9);
    assert Pow2(11) == 2 * Pow2(10);
    assert Pow2(12) == 2 * Pow2(11);
    assert Pow2(13) == 2 * Pow2(12);
    assert Pow2(14) == 2 * Pow2(13);
    assert Pow2(15) == 2 * Pow2(14);
    assert Pow2(16) == 2 * Pow2(15);
    assert Pow2(17) == 2 * Pow2(16);
    assert Pow2(18) == 2 * Pow2(17);
    assert Pow2(19) == 2 * Pow2(18);
    assert Pow2(20) == 2 * Pow2(19);
    assert Pow2(21) == 2 * Pow2(20);
    assert Pow2(22) == 2 * Pow2(21);
    assert Pow2(23) == 2 * Pow2(22);
    assert Pow2(24) == 2 * Pow2(23);
    assert Pow2(25) == 2 * Pow2(24);
    assert Pow2(26) == 2 * Pow2(25);
    assert Pow2(27) == 2 * Pow2(26);
    assert Pow2(28) == 2 * Pow2(27);
    assert Pow2(29) == 2 * Pow2(28);
    assert Pow2(30) == 2 * Pow2(29);
    assert Pow2(31) == 2 * Pow2(30);
    assert Pow2(32) == 2 * Pow2(31);
  }

  /** nextpow2: smear the highest set bit of n - 1 into every lower bit, then
      add one.  The shifts stop at 16, so it is exact for 1 <= n <= 2^32:
      the result is the least power of two that is at least n. */
  function NextPow2(n: bv64): (r: bv64)
    requires 1 <= n <= 0x1_0000_0000
    ensures r != 0 && r & (r - 1) == 0
    ensures n <= r && (r >> 1) < n
  {
    var m := n - 1;
    var m1 := m | (m >> 1);
    var m2 := m1 | (m1 >> 2);
    var m3 := m2 | (m2 >> 4);
    var m4 := m3 | (m3 >> 8);
    var m5 := m4 | (m4 >> 16);
    m5 + 1
  }

  /** A power of two is its own next power of two. */
  lemma NextPow2OfPow2(n: bv64)
    requires 1 <= n <= 0x1_0000_0000 && n & (n - 1) == 0
    ensures NextPow2(n) == n
  {
  }

  /** The powers of two that nextpow2 can return. */
  predicate SmallPow2(r: bv64)
  {
       r == 0x1
    || r == 0x2
    || r == 0x4
    || r == 0x8
    || r == 0x10
    || r == 0x20
    || r == 0x40
    || r == 0x80
    || r == 0x100
    || r == 0x200
    || r == 0x400
    || r == 0x800
    || r == 0x1000
    || r == 0x2000
    || r == 0x4000
    || r == 0x8000
    || r == 0x10000
    || r == 0x20000
    || r == 0x40000
    || r == 0x80000
    || r == 0x100000
    || r == 0x200000
    || r == 0x400000
    || r == 0x800000
    || r == 0x1000000
    || r == 0x2000000
    || r == 0x4000000
    || r == 0x8000000
    || r == 0x10000000
    || r == 0x20000000
    || r == 0x40000000
    || r == 0x80000000
    || r == 0x100000000
  }

  lemma NextPow2Small(n: bv64)
    requires 1 <= n <= 0x1_0000_0000
    ensures SmallPow2(NextPow2(n))
  {
  }

  /** The exponent of a power of two up to 2^32. */
  function Log2(r: bv64): (j: nat)
    requires SmallPow2(r)
    ensures j <= 32 && Pow2(j) == r as int
  {
    Pow2Table();
    if r == 0x1 then 0 else
    if r == 0x2 then 1 else
    if r == 0x4 then 2 else
    if r == 0x8 then 3 else
    if r == 0x10 then 4 else
    if r == 0x20 then 5 else
    if r == 0x40 then 6 else
    if r == 0x80 then 7 else
    if r == 0x100 then 8 else
    if r == 0x200 then 9 else
    if r == 0x400 then 10 else
    if r == 0x800 then 11 else
    if r == 0x1000 then 12 else
    if r == 0x2000 then 13 else
    if r == 0x4000 then 14 else
    if r == 0x8000 then 15 else
    if r == 0x10000 then 16 else
    if r == 0x20000 then 17 else
    if r == 0x40000 then 18 else
    if r == 0x80000 then 19 else
    if r == 0x100000 then 20 else
    if r == 0x200000 then 21 else
    if r == 0x400000 then 22 else
    if r == 0x800000 then 23 else
    if r == 0x1000000 then 24 else
    if r == 0x2000000 then 25 else
    if r == 0x4000000 then 26 else
    if r == 0x8000000 then 27 else
    if r == 0x10000000 then 28 else
    if r == 0x20000000 then 29 else
    if r == 0x40000000 then 30 else
    if r == 0x80000000 then 31 else
    32
  }

  /** The number of slots NewQ allocates is 2^j for some j <= 32. */
  lemma SlotCount(n: bv64) returns (j: nat)
    requires 1 <= n <= 0x1_0000_0000
    ensures j <= 32 && NextPow2(n) as int == Pow2(j)
  {
    NextPow2Small(n);
    j := Log2(NextPow2(n));
  }

  /** Go's `a & b` on unsigned integers, bit by bit from the lowest. */
  function BitAnd(a: nat, b: nat): nat
    decreases a
  {
    if a == 0 || b == 0 then 0
    else 2 * BitAnd(a / 2, b / 2) + (if a % 2 == 1 && b % 2 == 1 then 1 else 0)
  }

  lemma ModUnique(x: int, d: int, t: int, r: int)
    requires 0 < d && x == d * t + r && 0 <= r < d
    ensures x % d == r
  {
    var k := x / d - t;
    assert d * k == r - x % d;
  }

  lemma ModDouble(x: nat, p: nat)
    requires p >= 1
    ensures x % (2 * p) == 2 * ((x / 2) % p) + x % 2
  {
    var q, r0 := x / 2, x % 2;
    var t, r1 := q / p, q % p;
    assert x == 2 * p * t + (2 * r1 + r0);
    ModUnique(x, 2 * p, t, 2 * r1 + r0);
  }

  /** Masking with 2^j - 1 keeps the low j bits: x & (2^j - 1) == x mod 2^j. */
  lemma {:induction false} AndLowMask(x: nat, j: nat)
    ensures BitAnd(x, Pow2(j) - 1) == x % Pow2(j)
  {
    if j == 0 {
      assert Pow2(j) == 1;
    } else if x == 0 {
      ModUnique(0, Pow2(j), 0, 0);
    } else {
      var p := Pow2(j - 1);
      var b := 2 * p - 1;
      assert Pow2(j) == 2 * p;
      assert b / 2 == p - 1 && b % 2 == 1;
      AndLowMask(x / 2, j - 1);
      ModDouble(x, p);
      assert BitAnd(x, b) == 2 * BitAnd(x / 2, b / 2) + x % 2;
    }
  }

  /** Position `i` (less than twice the ring length `m`) taken around the ring. */
  function Wrap(i: int, m: int): (p: int)
    requires 0 < m && 0 <= i < 2 * m
    ensures 0 <= p < m && (p == i || p == i - m)
  {
    if i < m then i else i - m
  }

  /** `(1 + x) & mask` with a power-of-two `mask + 1` steps x one slot around
      the ring: x + 1, or 0 after the last slot. */
  lemma Step(x: nat, mask: nat, j: nat)
    requires mask + 1 == Pow2(j) && x <= mask
    ensures BitAnd(1 + x, mask) == Wrap(x + 1, mask + 1)
    ensures BitAnd(x + 1, mask) == Wrap(x + 1, mask + 1)
  {
    AndLowMask(1 + x, j);
    if x == mask {
      ModUnique(1 + x, mask + 1, 1, 0);
    } else {
      ModUnique(1 + x, mask + 1, 0, 1 + x);
    }
  }

  /** `(1 + x) & mask`: the index one slot after x around the ring. */
  method NextSlot(x: nat, mask: nat, ghost j: nat) returns (r: nat)
    requires mask + 1 == Pow2(j) && x <= mask
    ensures r == Wrap(x + 1, mask + 1)
  {
    Step(x, mask, j);
    r := BitAnd(1 + x, mask);
  }

  /** The number of elements between read index rd and write index wr on a
      ring of m slots. */
  function Count(rd: int, wr: int, m: int): int
  {
    if rd <= wr then wr - rd else m - rd + wr
  }

  /** The slot of the k-th oldest element when `rd` is the slot last read. */
  function Slot(rd: int, k: int, m: int): (p: int)
    requires 0 <= rd < m && 0 <= k < m
    ensures 0 <= p < m
  {
    Wrap(rd + 1 + k, m)
  }

  /** The ring invariant on values: `rd` is the slot last read, `wr` the slot
      last written, and the k-th oldest element sits k + 1 slots after `rd`. */
  ghost predicate Ring<T>(slots: seq<Option<T>>, rd: int, wr: int, c: seq<T>)
  {
    && 0 <= rd < |slots| && 0 <= wr < |slots|
    && |c| == Count(rd, wr, |slots|)
    && forall k {:trigger Slot(rd, k, |slots|)} :: 0 <= k < |c| ==> slots[Slot(rd, k, |slots|)] == Some(c[k])
  }

  /** The ring is empty exactly when the two indices meet. */
  lemma RingEmpty<T>(slots: seq<Option<T>>, rd: int, wr: int, c: seq<T>)
    requires Ring(slots, rd, wr, c)
    ensures rd == wr <==> c == []
  {
  }

  /** The ring is full, holding one fewer than its slots, exactly when the
      slot after `wr` is `rd`. */
  lemma RingFull<T>(slots: seq<Option<T>>, rd: int, wr: int, c: seq<T>)
    requires Ring(slots, rd, wr, c)
    ensures Wrap(wr + 1, |slots|) == rd <==> |c| == |slots| - 1
    ensures |c| <= |slots| - 1
  {
  }

  /** Writing x into the slot after `wr`, when that slot is not `rd`, appends
      x as the newest element. */
  lemma {:induction false} RingWrite<T>(slots: seq<Option<T>>, rd: int, wr: int, c: seq<T>, x: T)
    requires Ring(slots, rd, wr, c) && Wrap(wr + 1, |slots|) != rd
    ensures var w := Wrap(wr + 1, |slots|);
            Ring(slots[w := Some(x)], rd, w, c + [x])
  {
    var m := |slots|;
    var w := Wrap(wr + 1, m);
    var s := slots[w := Some(x)];
    var c' := c + [x];
    assert |c'| == Count(rd, w, m);
    forall k | 0 <= k < |c'|
      ensures s[Slot(rd, k, m)] == Some(c'[k])
    {
      if k < |c| {
        assert Slot(rd, k, m) != w;
        assert slots[Slot(rd, k, m)] == Some(c[k]);
      }
    }
  }

  /** Reading the slot after `rd` of a non-empty ring yields the oldest
      element; clearing it and moving `rd` there leaves the rest. */
  lemma {:induction false} RingRead<T>(slots: seq<Option<T>>, rd: int, wr: int, c: seq<T>)
    requires Ring(slots, rd, wr, c) && rd != wr
    ensures var r := Wrap(rd + 1, |slots|);
            && c != [] && slots[r] == Some(c[0])
            && Ring(slots[r := None], r, wr, c[1..])
  {
    var m := |slots|;
    var r := Wrap(rd + 1, m);
    var s := slots[r := None];
    var c' := c[1..];
    assert slots[Slot(rd, 0, m)] == Some(c[0]);
    assert |c'| == Count(r, wr, m);
    forall k | 0 <= k < |c'|
      ensures s[Slot(r, k, m)] == Some(c'[k])
    {
      assert Slot(r, k, m) == Slot(rd, k + 1, m) != r;
      assert slots[Slot(rd, k + 1, m)] == Some(c[k + 1]);
      assert c'[k] == c[k + 1];
    }
  }

  class Q<T> {
    var q: array<Option<T>>
    var wr: nat
    var rd: nat
    var mask: nat
    /** mask + 1 == 2^log */
    ghost var log: nat
    /** The held elements, oldest first. */
    ghost var Contents: seq<T>

    ghost predicate Valid()
      reads this, q
    {
      && log <= 32 && mask + 1 == Pow2(log)
      && q.Length == mask + 1
      && Ring(q[..], rd, wr, Contents)
    }

    /** NewQ(n), given uint(n): mask + 1 slots, the next power of two of n,
        all nil, and an empty queue. */
    constructor (n: bv64)
      requires 1 <= n <= 0x1_0000_0000
      ensures Valid() && fresh(q) && Contents == []
      ensures mask + 1 == NextPow2(n) as int
      ensures rd == 0 && wr == 0
      ensures forall i :: 0 <= i < q.Length ==> q[i] == None
    {
      ghost var e := SlotCount(n);
      var size := NextPow2(n);
      var slots: int := size as int;
      log := e;
      mask := slots - 1;
      q := new Option<T>[slots](_ => None);
      wr, rd := 0, 0;
      Contents := [];
    }

    /** Flush: both indices back to 0; the queue is empty. */
    method Flush()
      requires Valid()
      modifies this
      ensures Valid() && Contents == []
      ensures wr == 0 && rd == 0 && q == old(q) && mask == old(mask)
    {
      wr, rd := 0, 0;
      Contents := [];
    }

    /** Enq: store x in the slot after wr and advance wr, unless that slot is
        rd (the queue is full); a full queue is left as it was. */
    method Enq(x: T) returns (ok: bool)
      requires Valid()
      modifies this, q
      ensures Valid() && q == old(q) && mask == old(mask) && rd == old(rd)
      ensures ok <==> |old(Contents)| < mask
      ensures ok ==> Contents == old(Contents) + [x] && wr == Wrap(old(wr) + 1, mask + 1) && q[wr] == Some(x)
      ensures !ok ==> Contents == old(Contents) && wr == old(wr) && q[..] == old(q[..])
    {
      RingFull(q[..], rd, wr, Contents);
      var next := NextSlot(wr, mask, log);
      if next == rd {
        return false;
      }
      ghost var s := q[..];
      RingWrite(s, rd, wr, Contents, x);
      q[next] := Some(x);
      assert q[..] == s[next := Some(x)];
      wr := next;
      Contents := Contents + [x];
      ok := true;
    }

    /** Deq: advance rd and return the element in that slot, then clear the
        slot; an empty queue yields nothing and is left as it was. */
    method Deq() returns (item: Option<T>, ok: bool)
      requires Valid()
      modifies this, q
      ensures Valid() && q == old(q) && mask == old(mask) && wr == old(wr)
      ensures ok <==> old(Contents) != []
      ensures ok ==> item == Some(old(Contents)[0]) && Contents == old(Contents)[1..]
      ensures ok ==> rd == Wrap(old(rd) + 1, mask + 1) && q[rd] == None
      ensures !ok ==> item == None && Contents == old(Contents) && rd == old(rd) && q[..] == old(q[..])
    {
      RingEmpty(q[..], rd, wr, Contents);
      if rd == wr {
        return None, false;
      }
      ghost var s := q[..];
      RingRead(s, rd, wr, Contents);
      var next := NextSlot(rd, mask, log);
      rd := next;
      item := q[next];
      q[next] := None;
      assert q[..] == s[next := None];
      Contents := Contents[1..];
      ok := true;
    }

    /** IsEmpty: rd == wr, exactly when nothing is held. */
    method IsEmpty() returns (r: bool)
      requires Valid()
      ensures r <==> rd == wr
      ensures r <==> Contents == []
    {
      RingEmpty(q[..], rd, wr, Contents);
      r := rd == wr;
    }

    /** IsFull: the slot after wr is rd, exactly when mask elements are held. */
    method IsFull() returns (r: bool)
      requires Valid()
      ensures r <==> rd == Wrap(wr + 1, mask + 1)
      ensures r <==> |Contents| == mask
    {
      RingFull(q[..], rd, wr, Contents);
      var next := NextSlot(wr, mask, log);
      r := rd == next;
    }

    /** size: the number of held elements, never more than mask. */
    method Size() returns (r: int)
      requires Valid()
      ensures r == |Contents|
      ensures 0 <= r <= mask
    {
      RingFull(q[..], rd, wr, Contents);
      if wr == rd {
        r := 0;
      } else if rd < wr {
        r := wr - rd;
      } else {
        r := (mask + 1) - rd + wr;
      }
    }
  }

  /** A queue of capacity 4 (mask 3). */
  method NewQ4() returns (w: Q<int>)
    ensures fresh(w) && fresh(w.q) && w.Valid() && w.mask == 3 && w.Contents == []
  {
    NextPow2OfPow2(4);
    w := new Q<int>(4);
  }

  /** Three insertions into an empty queue of capacity 4 are all accepted
      and fill it: it is full and holds 3. */
  method EnqThree(w: Q<int>) returns (accepted: seq<bool>, full: bool, size: int)
    requires w.Valid() && w.mask == 3 && w.Contents == []
    modifies w, w.q
    ensures w.Valid() && w.q == old(w.q) && w.mask == 3 && w.Contents == [10, 20, 30]
    ensures accepted == [true, true, true] && full && size == 3
  {
    var a := w.Enq(10);
    var b := w.Enq(20);
    var c := w.Enq(30);
    accepted := [a, b, c];
    full := w.IsFull();
    size := w.Size();
  }

  /** A queue of capacity 4: empty and not full at first; three elements fit
      and fill it; a fourth is refused; they come out oldest first; then it is
      empty and a further removal fails. */
  method FillAndDrain() returns (emptyAtStart: bool, fullAtStart: bool, accepted: seq<bool>, fullAfterThree: bool,
                                  sizeAtFull: int, fourthAccepted: bool, out: seq<int>, emptyAtEnd: bool, extraDeq: bool)
    ensures emptyAtStart && !fullAtStart
    ensures accepted == [true, true, true] && fullAfterThree && sizeAtFull == 3 && !fourthAccepted
    ensures out == [10, 20, 30] && emptyAtEnd && !extraDeq
  {
    var w := NewQ4();
    emptyAtStart := w.IsEmpty();
    fullAtStart := w.IsFull();
    accepted, fullAfterThree, sizeAtFull := EnqThree(w);
    fourthAccepted := w.Enq(40);
    var a, _ := w.Deq();
    var b, _ := w.Deq();
    var c, _ := w.Deq();
    out := [a.value, b.value, c.value];
    emptyAtEnd := w.IsEmpty();
    var _, more := w.Deq();
    extraDeq := more;
  }

  /** A queue of capacity 4: after two removals, two more insertions wrap the
      write index past the last slot; the queue holds three again, in order. */
  method WrapAround() returns (out: seq<int>, accepted: seq<bool>, size: int, rest: seq<int>)
    ensures out == [10, 20] && accepted == [true, true] && size == 3
    ensures rest == [30, 40, 50]
  {
    var w := NewQ4();
    var _, _, _ := EnqThree(w);
    var a, _ := w.Deq();
    var b, _ := w.Deq();
    assert w.Contents == [30];
    out := [a.value, b.value];
    var ok4 := w.Enq(40);
    var ok5 := w.Enq(50);
    assert w.Contents == [30, 40, 50];
    accepted := [ok4, ok5];
    size := w.Size();
    var c, _ := w.Deq();
    var d, _ := w.Deq();
    var e, _ := w.Deq();
    rest := [c.value, d.value, e.value];
  }
}
