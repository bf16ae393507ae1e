/** The single-producer/single-consumer ring (src/queue_spsc.c), run by one thread:
    an object over a slot array, specified by the FIFO it holds. The interleaved
    runs of the same operations are in SpscSteps. */
module SpscQueue {
  import opened Bits

  // ------------------------------------------------------------ capacity rounding

  /** `c` is the least power of two that is at least `n`. */
  ghost predicate LeastPow2(c: nat, n: nat) {
    IsPow2(c) && c >= n && forall k: nat :: Pow2(k) >= n ==> Pow2(k) >= c
  }

  /** The test the set-up uses: c & (c - 1) vanishes exactly on powers of two. */
  lemma {:induction false} PowerTest(c: nat)
    requires c >= 1
    ensures And(c, c - 1) == 0 <==> IsPow2(c)
  {
    if c == 1 {
      assert Pow2(0) == 1;
    } else if c % 2 == 1 {
      assert And(c / 2, c / 2) == c / 2 by { AndSelf(c / 2); }
      forall k: nat ensures Pow2(k) != c { if k > 0 { assert Pow2(k) == 2 * Pow2(k - 1); } }
    } else {
      PowerTest(c / 2);
      assert (c - 1) / 2 == c / 2 - 1;
      if IsPow2(c / 2) {
        var k: nat :| c / 2 == Pow2(k);
        assert Pow2(k + 1) == c;
      }
      if IsPow2(c) {
        var k: nat :| c == Pow2(k);
        assert Pow2(k - 1) == c / 2;
      }
    }
  }

  lemma {:induction false} AndSelf(a: nat)
    ensures And(a, a) == a
  {
    if a > 0 { AndSelf(a / 2); }
  }

  lemma {:induction false} BitLength(n: nat) returns (p: nat)
    requires n >= 1
    ensures p >= 1 && Pow2(p - 1) <= n < Pow2(p)
  {
    if n == 1 {
      p := 1;
    } else {
      var q := BitLength(n / 2);
      p := q + 1;
    }
  }

  /** Copies the highest set bit into every lower position. */
  function Smear(c0: nat): nat {
    var c1 := Or(c0, Shr(c0, 1));
    var c2 := Or(c1, Shr(c1, 2));
    var c3 := Or(c2, Shr(c2, 4));
    var c4 := Or(c3, Shr(c3, 8));
    var c5 := Or(c4, Shr(c4, 16));
    Or(c5, Shr(c5, 32))
  }

  lemma {:induction false} SmearFills(c0: nat, p: nat)
    requires 1 <= p <= 64 && Pow2(p - 1) <= c0 < Pow2(p)
    ensures Smear(c0) == Pow2(p) - 1
  {
    hide Or, Shr;
    var c1 := Or(c0, Shr(c0, 1));
    var c2 := Or(c1, Shr(c1, 2));
    var c3 := Or(c2, Shr(c2, 4));
    var c4 := Or(c3, Shr(c3, 8));
    var c5 := Or(c4, Shr(c4, 16));
    assert TopOnes(c0, p, 1);
    hide TopOnes, Pow2;
    SmearMore(c0, p, 1, 1);
    SmearMore(c1, p, if 2 <= p then 2 else p, 2);
    SmearMore(c2, p, if 4 <= p then 4 else p, 4);
    SmearMore(c3, p, if 8 <= p then 8 else p, 8);
    SmearMore(c4, p, if 16 <= p then 16 else p, 16);
    SmearMore(c5, p, if 32 <= p then 32 else p, 32);
    AllOnes(Smear(c0), p);
  }

  lemma {:induction false} AllOnes(n: nat, p: nat)
    requires TopOnes(n, p, p)
    ensures n == Pow2(p) - 1
  {
  }

  /** tn_queue_spsc_setup's rounding: the least power of two at or above the request,
      and the wrapped value 0 when none fits in 64 bits. */
  method RoundUpCapacity(capacity: nat) returns (c: nat)
    requires 1 <= capacity < WORD
    ensures LeastPow2(c, capacity) <==> capacity <= TOP_BIT
    ensures capacity > TOP_BIT ==> c == 0
  {
    c := capacity;
    PowerTest(capacity);
    hide And, Or, Shr;
    if And(c, c - 1) != 0 {
      c := c - 1;
      c := Or(c, Shr(c, 1));
      c := Or(c, Shr(c, 2));
      c := Or(c, Shr(c, 4));
      c := Or(c, Shr(c, 8));
      c := Or(c, Shr(c, 16));
      c := Or(c, Shr(c, 32));
      assert c == Smear(capacity - 1);
      c := Add64(c, 1);
      RoundedIsLeast(capacity, c);
    } else {
      PowerBelowWord(capacity);
    }
  }

  lemma {:induction false} PowerBelowWord(c: nat)
    requires IsPow2(c) && c < WORD
    ensures c <= TOP_BIT
  {
    var k: nat :| c == Pow2(k);
    var top := 63;
    WordIsPow2(64);
    WordIsPow2(top);
    Pow2Order(k, 64);
    Pow2Order(top, k);
  }

  /** SmearStep with the run of ones capped at the width `p`. */
  lemma {:induction false} SmearMore(n: nat, p: nat, w: nat, s: nat)
    requires w == (if s <= p then s else p) && TopOnes(n, p, w)
    ensures TopOnes(Or(n, Shr(n, s)), p, if 2 * s <= p then 2 * s else p)
  {
    if s <= p {
      SmearStep(n, p, s);
    } else {
      assert Shr(n, s) == 0 by {
        ShrIsDiv(n, s);
        Pow2Order(p, s);
        DivModUnique(n, Pow2(s), 0, n);
      }
      assert Or(n, 0) == n;
    }
  }

  lemma {:induction false} RoundedIsLeast(capacity: nat, c: nat)
    requires 2 <= capacity < WORD && c == Add64(Smear(capacity - 1), 1)
    ensures LeastPow2(c, capacity) <==> capacity <= TOP_BIT
    ensures capacity > TOP_BIT ==> c == 0
  {
    hide Smear;
    var p := BitLength(capacity - 1);
    var word, top := 64, 63;
    WordIsPow2(word);
    WordIsPow2(top);
    Pow2Order(p - 1, word);
    SmearFills(capacity - 1, p);
    if p == word {
      assert c == 0;
    } else {
      Pow2Order(p, word);
      Pow2Order(top, p);
      assert c == Pow2(p);
      forall k: nat | Pow2(k) >= capacity ensures Pow2(k) >= c {
        Pow2Order(p - 1, k);
        Pow2Order(k, p);
      }
    }
  }

  // ------------------------------------------------------------ the ring object

  /** Slot of the i-th item ever pushed. */
  function Slot(i: nat, cap: nat): (r: nat)
    requires cap >= 1
    ensures r < cap
  {
    if i < cap then i else Slot(i - cap, cap)
  }

  lemma {:induction false} SlotIsModulo(i: nat, cap: nat)
    requires cap >= 1
    ensures Slot(i, cap) == i % cap
  {
    if i >= cap {
      SlotIsModulo(i - cap, cap);
      ModuloOfMultiple(1, i - cap, cap);
    }
  }

  /** `counter & mask` selects that slot even after the 64-bit counters have wrapped. */
  lemma {:induction false} SlotOfCounter(i: nat, cap: nat)
    requires IsPow2(cap) && cap <= TOP_BIT
    ensures And(i % WORD, cap - 1) == Slot(i, cap)
  {
    var k: nat :| cap == Pow2(k);
    var top := 63;
    WordIsPow2(top);
    Pow2Order(top, k);
    MaskIsModulo(i % WORD, k);
    ModuloThroughWrap(i, k);
    SlotIsModulo(i, cap);
  }

  /** Items fewer than `cap` apart live in different slots. */
  lemma {:induction false} SlotsDiffer(i: nat, j: nat, cap: nat)
    requires cap >= 1 && i < j < i + cap
    ensures Slot(i, cap) != Slot(j, cap)
    decreases j
  {
    if i >= cap {
      SlotsDiffer(i - cap, j - cap, cap);
    } else if j >= cap {
      assert Slot(j, cap) == Slot(j - cap, cap) == j - cap;
    }
  }

  /** Free-running counters at most `cap` apart are told apart modulo 2^64. */
  lemma {:induction false} CounterDifference(h: nat, t: nat, cap: nat)
    requires t <= h <= t + cap && cap <= TOP_BIT
    ensures Sub64(h % WORD, t % WORD) == h - t
  {
    assert h - t < WORD;
    assert Sub64(h % WORD, t % WORD) == (h - t) % WORD;
  }

  lemma {:induction false} CountersMeet(h: nat, t: nat, cap: nat)
    requires t <= h <= t + cap && cap <= TOP_BIT
    ensures h % WORD == t % WORD <==> h == t
  {
    CounterDifference(h, t, cap);
  }

  datatype Outcome<T> = Empty | Item(value: T)

  class Ring<T(0)> {
    var buffer: array<T>
    var head: nat
    var tail: nat
    var tailCache: nat
    const capacity: nat
    /** Everything ever pushed, and how many of those were popped. */
    ghost var pushed: seq<T>
    ghost var popped: nat

    ghost predicate Valid()
      reads this, buffer
    {
      && IsPow2(capacity) && capacity <= TOP_BIT
      && buffer.Length == 1 + capacity
      && popped <= |pushed| <= popped + capacity
      && head == |pushed| % WORD && tail == popped % WORD
      && (forall i {:trigger Slot(i, capacity)} :: popped <= i < |pushed| ==> buffer[Slot(i, capacity)] == pushed[i])
    }

    ghost function Contents(): (s: seq<T>)
      requires Valid()
      reads this, buffer
    {
      pushed[popped..]
    }

    /** tail_cache still names the oldest item. */
    ghost predicate Peeked()
      reads this
    {
      popped < |pushed| && tailCache == popped % WORD
    }

    constructor (requested: nat)
      requires 1 <= requested <= TOP_BIT
      ensures Valid() && fresh(buffer) && LeastPow2(capacity, requested) && Contents() == []
    {
      var c := RoundUpCapacity(requested);
      capacity := c;
      buffer := new T[1 + c];
      head, tail, tailCache := 0, 0, 0;
      pushed, popped := [], 0;
      new;
      CapFits(requested, c);
    }

    method Count() returns (n: nat)
      requires Valid()
      ensures n == |Contents()|
    {
      CounterDifference(|pushed|, popped, capacity);
      n := Sub64(head, tail);
    }

    /** The slot of the next item is in range and holds no live item. */
    lemma {:induction false} FreeSlot()
      requires Valid() && |pushed| < popped + capacity
      ensures And(head, capacity - 1) == Slot(|pushed|, capacity) < buffer.Length
      ensures forall i {:trigger Slot(i, capacity)} :: popped <= i < |pushed| ==>
        Slot(i, capacity) != Slot(|pushed|, capacity)
    {
      SlotOfCounter(|pushed|, capacity);
      forall i | popped <= i < |pushed| ensures Slot(i, capacity) != Slot(|pushed|, capacity) {
        SlotsDiffer(i, |pushed|, capacity);
      }
    }

    method Push(x: T) returns (ok: bool)
      requires Valid()
      modifies this`head, this`pushed, buffer
      ensures Valid()
      ensures ok <==> |old(Contents())| < capacity
      ensures Contents() == if ok then old(Contents()) + [x] else old(Contents())
    {
      hide Slot, And;
      CounterDifference(|pushed|, popped, capacity);
      hide Bits.Sub64, Bits.Add64, IsPow2;
      var size := Sub64(head, tail);
      if size == capacity { return false; }
      ghost var n := |pushed|;
      FreeSlot();
      SuccWrap(n);
      buffer[And(head, capacity - 1)] := x;
      head := Add64(head, 1);
      pushed := pushed + [x];
      assert pushed[popped..] == old(pushed[popped..]) + [x];
      ok := true;
    }

    method Peek() returns (r: Outcome<T>)
      requires Valid()
      modifies this`tailCache
      ensures Valid() && Contents() == old(Contents())
      ensures r == if Contents() == [] then Empty else Item(Contents()[0])
      ensures r.Item? ==> Peeked()
    {
      hide Slot, And;
      CountersMeet(|pushed|, popped, capacity);
      if head == tail { return Empty; }
      SlotOfCounter(popped, capacity);
      r := Item(buffer[And(tail, capacity - 1)]);
      tailCache := tail;
    }

    method Pop() returns (ok: bool)
      requires Valid()
      modifies this`tail, this`popped
      ensures Valid()
      ensures ok <==> old(Contents()) != []
      ensures Contents() == if ok then old(Contents())[1..] else []
    {
      hide Slot, And;
      CountersMeet(|pushed|, popped, capacity);
      if head == tail { return false; }
      SuccWrap(popped);
      tail := Add64(tail, 1);
      popped := popped + 1;
      ok := true;
    }

    /** Completes the Peek before it: together they are PopBack. */
    method PopCached()
      requires Valid() && Peeked()
      modifies this`tail, this`popped
      ensures Valid() && Contents() == old(Contents())[1..]
    {
      hide Slot, And;
      SuccWrap(popped);
      tail := Add64(tailCache, 1);
      popped := popped + 1;
    }

    method PopBack() returns (r: Outcome<T>)
      requires Valid()
      modifies this`tail, this`popped
      ensures Valid()
      ensures r == if old(Contents()) == [] then Empty else Item(old(Contents())[0])
      ensures Contents() == if r.Empty? then [] else old(Contents())[1..]
    {
      hide Slot, And;
      CountersMeet(|pushed|, popped, capacity);
      if head == tail { return Empty; }
      SlotOfCounter(popped, capacity);
      r := Item(buffer[And(tail, capacity - 1)]);
      SuccWrap(popped);
      tail := Add64(tail, 1);
      popped := popped + 1;
    }

    lemma {:induction false} ItemAt(off: nat)
      requires Valid() && off < |Contents()|
      ensures var slot := And(Add64(tail, off), capacity - 1);
              slot < buffer.Length && buffer[slot] == Contents()[off]
    {
      SlotOfCounter(popped + off, capacity);
      AddWrap(popped, off);
    }

    /** Removes min(limit, size) items, oldest first. */
    method PopAll(limit: nat) returns (out: seq<T>)
      requires Valid() && limit > 0
      modifies this`tail, this`popped
      ensures Valid()
      ensures out == old(Contents())[..if limit < |old(Contents())| then limit else |old(Contents())|]
      ensures Contents() == old(Contents())[|out|..]
    {
      hide Slot, And;
      CounterDifference(|pushed|, popped, capacity);
      var size := Sub64(head, tail);
      out := [];
      if size == 0 { return; }
      var count := if size < limit then size else limit;
      for off := 0 to count
        invariant Valid() && popped == old(popped) && tail == old(tail)
        invariant out == Contents()[..off]
      {
        ItemAt(off);
        out := out + [buffer[And(Add64(tail, off), capacity - 1)]];
      }
      AddWrap(popped, count);
      tail := Add64(tail, count);
      popped := popped + count;
    }
  }

  lemma {:induction false} CapFits(requested: nat, c: nat)
    requires requested <= TOP_BIT && LeastPow2(c, requested)
    ensures c <= TOP_BIT
  {
    var top := 63;
    WordIsPow2(top);
    assert Pow2(top) >= requested;
  }

  lemma {:induction false} AddWrap(n: nat, d: nat)
    ensures Add64(n % WORD, d) == (n + d) % WORD
  {
    var q := n / WORD;
    assert n + d == q * WORD + (n % WORD + d);
    ModuloOfMultiple(q, n % WORD + d, WORD);
  }

  lemma {:induction false} SuccWrap(n: nat)
    ensures Add64(n % WORD, 1) == (n + 1) % WORD
  {
    AddWrap(n, 1);
  }
}
