/** The coalescing allocator (deps/klib/kalloc.c). Addresses count header units. Free blocks
    form a ring in cyclic address order that always contains the zero-sized base header; the
    size word of a block, free or live, sits at its start. */
module Allocator {
  import opened Sequences

  const MIN_CORE_SIZE: nat := 0x80000

  /** The allocator's memory together with a reading of it: `ring` lists the free blocks in
      address order, `live` the allocated ones, and `own` gives each unit of a core's body the
      block it belongs to. */
  datatype Heap = Heap(base: int, size: map<int, int>, ptr: map<int, int>, cores: map<int, int>,
                       ring: seq<int>, live: set<int>, own: map<int, int>)

  ghost predicate InBody(cores: map<int, int>, x: int) {
    exists c :: c in cores && c < x < c + cores[c]
  }

  ghost predicate IsBlock(h: Heap, b: int) { b in h.live || (b in h.ring && b != h.base) }

  ghost predicate Within(h: Heap, b: int, x: int) { b in h.size && b <= x < b + h.size[b] }

  /** Every core is tiled exactly: each unit of its body lies in exactly one block, live or
      free, and blocks lie in bodies only. */
  ghost predicate Tiled(h: Heap) {
    && (forall x :: x in h.own <==> InBody(h.cores, x))
    && (forall x :: x in h.own ==> IsBlock(h, h.own[x]) && Within(h, h.own[x], x))
    && (forall b :: IsBlock(h, b) ==> b in h.size && h.size[b] >= 1)
    && (forall b, x {:trigger Within(h, b, x)} :: IsBlock(h, b) && Within(h, b, x) ==> x in h.own && h.own[x] == b)
  }

  /** The free blocks are in address order and no two touch; only at place `gap` may one begin
      where the one before it ends. */
  ghost predicate Ordered(ring: seq<int>, size: map<int, int>, gap: int) {
    && (forall i :: 0 <= i < |ring| ==> ring[i] in size && size[ring[i]] >= 0)
    && (forall i, j :: 0 <= i < j < |ring| ==> ring[i] + size[ring[i]] <= ring[j] && ring[i] < ring[j])
    && (forall i, j :: 0 <= i < j < |ring| && j != gap ==> ring[i] + size[ring[i]] < ring[j])
  }

  /** Live blocks are not free, and the base header is in the ring, empty, and neither in a core
      nor just behind one. */
  ghost predicate Based(h: Heap) {
    && (forall b :: b in h.live ==> b !in h.ring)
    && h.base in h.ring && h.base in h.size && h.size[h.base] == 0 && h.base !in h.live
    && (forall c :: c in h.cores ==> h.base < c || c + h.cores[c] < h.base)
  }

  /** Cores do not overlap. */
  ghost predicate CoresApart(cores: map<int, int>) {
    forall c, d :: c in cores && d in cores && c != d ==> c + cores[c] <= d || d + cores[d] <= c
  }

  function Next(ring: seq<int>, i: int): int
    requires 0 <= i < |ring|
  {
    if i + 1 < |ring| then ring[i + 1] else ring[0]
  }

  ghost predicate Linked(ring: seq<int>, ptr: map<int, int>) {
    && (forall i :: 0 <= i < |ring| ==> ring[i] in ptr)
    && (forall i {:trigger Next(ring, i)} :: 0 <= i < |ring| ==> ptr[ring[i]] == Next(ring, i))
  }

  ghost predicate Sound(h: Heap) {
    Tiled(h) && Ordered(h.ring, h.size, -1) && Based(h) && CoresApart(h.cores)
  }

  /** Different blocks never overlap. */
  lemma {:induction false} BlocksDisjoint(h: Heap, a: int, b: int)
    requires Sound(h) && IsBlock(h, a) && IsBlock(h, b) && a < b
    ensures a in h.size && b in h.size && a + h.size[a] <= b
  {
    assert Within(h, b, b);
    if a + h.size[a] > b { assert Within(h, a, b); }
  }

  /** Every block lies inside the body of one core, so no block covers a core's header or reaches
      from one core into another. */
  lemma {:induction false} BlockInOneCore(h: Heap, b: int) returns (c: int)
    requires Sound(h) && IsBlock(h, b)
    ensures b in h.size && c in h.cores && c < b && b + h.size[b] <= c + h.cores[c]
  {
    assert Within(h, b, b);
    assert InBody(h.cores, b);
    c :| c in h.cores && c < b < c + h.cores[c];
    var end := c + h.cores[c];
    if b + h.size[b] > end {
      assert Within(h, b, end);
    }
  }

  // ------------------------------------------------------------ the place of a block

  /** The free blocks before idx lie below p, those from idx on above it. */
  ghost predicate IsPlace(ring: seq<int>, p: int, idx: int) {
    && 0 <= idx <= |ring|
    && (forall i :: 0 <= i < idx ==> ring[i] < p)
    && (forall i :: idx <= i < |ring| ==> p < ring[i])
  }

  lemma {:induction false} PlaceExists(ring: seq<int>, p: int) returns (idx: int)
    requires Increasing(ring) && p !in ring
    ensures IsPlace(ring, p, idx) && 0 <= idx <= |ring|
    decreases |ring|
  {
    if ring == [] || ring[|ring| - 1] < p {
      idx := |ring|;
    } else {
      idx := PlaceExists(ring[..|ring| - 1], p);
    }
  }

  function Before(ring: seq<int>, idx: int): int
    requires ring != [] && 0 <= idx <= |ring|
  {
    if idx > 0 then ring[idx - 1] else ring[|ring| - 1]
  }

  function Behind(ring: seq<int>, idx: int): int
    requires ring != [] && 0 <= idx <= |ring|
  {
    if idx < |ring| then ring[idx] else ring[0]
  }

  // ------------------------------------------------------------ freeing, on values

  /** A live block is clear of every free block: the tests for overlap can never succeed. */
  lemma {:induction false} LiveClear(h: Heap, p: int, f: int)
    requires Sound(h) && p in h.live && f in h.ring
    ensures p in h.size && f in h.size && p != f
    ensures f >= p ==> p + h.size[p] <= f
    ensures p >= f ==> f + h.size[f] <= p
    ensures f == h.base ==> p + h.size[p] != f
  {
    assert IsBlock(h, p);
    assert f in h.size;
    NotInside(h, p, f);
    if f != h.base && f <= p < f + h.size[f] { assert IsBlock(h, f) && Within(h, f, p) && Within(h, p, p); }
    if f == h.base && p + h.size[p] == f {
      assert Within(h, p, f - 1);
      NotBehindCore(h, f - 1);
    }
  }

  lemma {:induction false} NotBehindCore(h: Heap, x: int)
    requires Sound(h) && x in h.own
    ensures x + 1 != h.base && x != h.base
  {
    var c :| c in h.cores && c < x < c + h.cores[c];
  }

  /** No free block begins inside a live one. */
  lemma {:induction false} NotInside(h: Heap, p: int, f: int)
    requires Sound(h) && p in h.live && f in h.ring
    ensures !Within(h, p, f)
  {
    assert IsBlock(h, p) && p != f;
    if f == h.base {
      if f in h.own { NotBehindCore(h, f); }
    } else {
      assert IsBlock(h, f) && Within(h, f, f);
    }
  }

  // The two halves of kfree, each on the reading of the heap.

  /** The block p moves from the live ones into the ring at idx. */
  ghost function Released(h: Heap, p: int, idx: int): Heap
    requires 0 <= idx <= |h.ring|
  {
    h.(ring := InsertAt(h.ring, idx, p), live := h.live - {p})
  }

  /** Free block a takes over the free block at idx, which begins where a ends. */
  ghost function Merged(h: Heap, a: int, idx: int): Heap
    requires 0 <= idx < |h.ring| && a in h.size && h.ring[idx] in h.size
  {
    var b := h.ring[idx];
    h.(ring := RemoveAt(h.ring, idx),
       size := h.size[a := h.size[a] + h.size[b]],
       own := map x | x in h.own :: if h.own[x] == b then a else h.own[x])
  }

  /** A heap in which two neighbouring free blocks may still touch, at place `gap` and the one
      after. */
  ghost predicate Nearly(h: Heap, gap: int, gap': int) {
    && Tiled(h) && Based(h) && CoresApart(h.cores)
    && (forall i :: 0 <= i < |h.ring| ==> h.ring[i] in h.size && h.size[h.ring[i]] >= 0)
    && (forall i, j :: 0 <= i < j < |h.ring| ==> h.ring[i] + h.size[h.ring[i]] <= h.ring[j] && h.ring[i] < h.ring[j])
    && (forall i, j :: 0 <= i < j < |h.ring| && j != gap && j != gap' ==> h.ring[i] + h.size[h.ring[i]] < h.ring[j])
  }

  lemma {:induction false} InsertedAt(ring: seq<int>, idx: int, p: int, i: int)
    requires 0 <= idx <= |ring| && 0 <= i <= |ring|
    ensures InsertAt(ring, idx, p)[i] == if i < idx then ring[i] else if i == idx then p else ring[i - 1]
  {
  }

  lemma {:induction false} InsertedHas(ring: seq<int>, idx: int, p: int)
    requires 0 <= idx <= |ring|
    ensures forall b :: b in InsertAt(ring, idx, p) <==> b == p || b in ring
  {
    assert ring == ring[..idx] + ring[idx..];
  }

  /** Releasing leaves the tiling as it is; p can touch only its neighbours in the ring. */
  lemma {:induction false} ReleasedNearly(h: Heap, p: int, idx: int)
    requires Sound(h) && p in h.live && IsPlace(h.ring, p, idx)
    ensures Nearly(Released(h, p, idx), idx, idx + 1)
  {
    hide Tiled, Based, InsertAt;
    var h', r := Released(h, p, idx), h.ring;
    ReleasedTiled(h, p, idx);
    InsertedLength(r, idx, p);
    LiveSize(h, p);
    forall i | 0 <= i < |h'.ring| ensures h'.ring[i] in h'.size && h'.size[h'.ring[i]] >= 0 {
      InsertedAt(r, idx, p, i);
    }
    forall i, j | 0 <= i < j < |h'.ring|
      ensures h'.ring[i] + h'.size[h'.ring[i]] <= h'.ring[j] && h'.ring[i] < h'.ring[j]
      ensures j != idx && j != idx + 1 ==> h'.ring[i] + h'.size[h'.ring[i]] < h'.ring[j]
    {
      InsertedAt(r, idx, p, i);
      InsertedAt(r, idx, p, j);
      if i == idx {
        LiveClear(h, p, r[j - 1]);
        LiveClear(h, p, r[idx]);
      } else if j == idx {
        LiveClear(h, p, r[i]);
      }
    }
  }

  lemma {:induction false} InsertedLength(ring: seq<int>, idx: int, p: int)
    requires 0 <= idx <= |ring|
    ensures |InsertAt(ring, idx, p)| == |ring| + 1
  {
  }

  lemma {:induction false} ReleasedTiled(h: Heap, p: int, idx: int)
    requires Tiled(h) && Based(h) && p in h.live && 0 <= idx <= |h.ring|
    ensures Tiled(Released(h, p, idx)) && Based(Released(h, p, idx))
  {
    var h' := Released(h, p, idx);
    InsertedHas(h.ring, idx, p);
    assert forall b :: IsBlock(h', b) <==> IsBlock(h, b);
    assert forall b, x {:trigger Within(h', b, x)} :: Within(h', b, x) <==> Within(h, b, x);
  }

  lemma {:induction false} RemovedAt(ring: seq<int>, idx: int, i: int)
    requires 0 <= idx < |ring| && 0 <= i < |ring| - 1
    ensures |RemoveAt(ring, idx)| == |ring| - 1 && RemoveAt(ring, idx)[i] == if i < idx then ring[i] else ring[i + 1]
  {
  }

  lemma {:induction false} RemovedHas(ring: seq<int>, idx: int)
    requires 0 <= idx < |ring| && forall i, j :: 0 <= i < j < |ring| ==> ring[i] < ring[j]
    ensures forall b :: b in RemoveAt(ring, idx) <==> b in ring && b != ring[idx]
  {
    var r := RemoveAt(ring, idx);
    forall b | b in ring && b != ring[idx] ensures b in r {
      var i :| 0 <= i < |ring| && ring[i] == b;
      if i < idx { assert r[i] == b; } else { assert r[i - 1] == b; }
    }
  }

  /** The free block at k begins where the one before it ends; neither is the base. */
  ghost predicate Touching(h: Heap, k: int) {
    && 0 < k < |h.ring| && h.ring[k - 1] in h.size && h.ring[k] in h.size
    && h.ring[k - 1] + h.size[h.ring[k - 1]] == h.ring[k]
    && h.ring[k - 1] != h.base && h.ring[k] != h.base
  }

  lemma {:induction false} MergedTiled(h: Heap, k: int, gap: int)
    requires Nearly(h, k, gap) && Touching(h, k)
    ensures Tiled(Merged(h, h.ring[k - 1], k)) && Based(Merged(h, h.ring[k - 1], k))
  {
    var a, b := h.ring[k - 1], h.ring[k];
    var h' := Merged(h, a, k);
    MergedBlocks(h, k, gap);
    MergedWithin(h, k);
    forall x | x in h'.own ensures IsBlock(h', h'.own[x]) && Within(h', h'.own[x], x) {
      MergedOwner(h, k, gap, x);
    }
    forall c, x {:trigger Within(h', c, x)} | IsBlock(h', c) && Within(h', c, x) ensures x in h'.own && h'.own[x] == c {
      MergedBack(h, k, gap, c, x);
    }
  }

  lemma {:induction false} MergedBlocks(h: Heap, k: int, gap: int)
    requires Nearly(h, k, gap) && Touching(h, k)
    ensures var a, b := h.ring[k - 1], h.ring[k]; var h' := Merged(h, a, k);
      && IsBlock(h, a) && IsBlock(h, b) && a != b && Based(h')
      && forall x :: IsBlock(h', x) <==> IsBlock(h, x) && x != b
  {
    hide Tiled;
    RemovedHas(h.ring, k);
  }

  lemma {:induction false} MergedOwner(h: Heap, k: int, gap: int, x: int)
    requires Nearly(h, k, gap) && Touching(h, k) && x in h.own
    ensures var a, b := h.ring[k - 1], h.ring[k]; var h' := Merged(h, a, k);
      IsBlock(h', h'.own[x]) && Within(h', h'.own[x], x)
  {
    var a, b := h.ring[k - 1], h.ring[k];
    var h' := Merged(h, a, k);
    MergedBlocks(h, k, gap);
    MergedWithin(h, k);
    assert IsBlock(h, h.own[x]) && Within(h, h.own[x], x);
    hide Tiled, Nearly, IsBlock, Within, RemoveAt;
    assert Within(h', a, x) <==> Within(h, a, x) || Within(h, b, x);
    assert h.own[x] != a ==> (Within(h', h.own[x], x) <==> Within(h, h.own[x], x));
  }

  lemma {:induction false} MergedBack(h: Heap, k: int, gap: int, c: int, x: int)
    requires Nearly(h, k, gap) && Touching(h, k)
    requires IsBlock(Merged(h, h.ring[k - 1], k), c) && Within(Merged(h, h.ring[k - 1], k), c, x)
    ensures x in h.own && Merged(h, h.ring[k - 1], k).own[x] == c
  {
    var a, b := h.ring[k - 1], h.ring[k];
    MergedBlocks(h, k, gap);
    MergedWithin(h, k);
    hide RemoveAt;
    if c == a {
      assert Within(h, a, x) || Within(h, b, x);
    } else {
      assert Within(h, c, x);
    }
  }

  lemma {:induction false} MergedWithin(h: Heap, k: int)
    requires Touching(h, k) && h.size[h.ring[k - 1]] >= 0 && h.size[h.ring[k]] >= 0
    ensures var a, b := h.ring[k - 1], h.ring[k]; var h' := Merged(h, a, k);
      && (forall x {:trigger Within(h', a, x)} :: Within(h', a, x) <==> Within(h, a, x) || Within(h, b, x))
      && (forall c, x {:trigger Within(h', c, x)} :: c != a ==> (Within(h', c, x) <==> Within(h, c, x)))
  {
  }

  /** Merging two touching neighbours closes the gap between them. */
  lemma {:induction false} MergedNearly(h: Heap, k: int, gap: int)
    requires Nearly(h, k, gap) && Touching(h, k) && gap < k
    ensures Nearly(Merged(h, h.ring[k - 1], k), gap, gap)
  {
    hide Tiled, Based, RemoveAt;
    var h', r := Merged(h, h.ring[k - 1], k), h.ring;
    MergedTiled(h, k, gap);
    if |r| > 1 { RemovedAt(r, k, 0); }
    forall i | 0 <= i < |h'.ring| ensures h'.ring[i] in h'.size && h'.size[h'.ring[i]] >= 0 {
      RemovedAt(r, k, i);
    }
    forall i, j | 0 <= i < j < |h'.ring|
      ensures h'.ring[i] + h'.size[h'.ring[i]] <= h'.ring[j] && h'.ring[i] < h'.ring[j]
      ensures j != gap ==> h'.ring[i] + h'.size[h'.ring[i]] < h'.ring[j]
    {
      RemovedAt(r, k, i);
      RemovedAt(r, k, j);
      if i == k - 1 { assert r[k] + h.size[r[k]] < r[j + 1]; }
    }
  }

  /** A gap that is not used is no gap. */
  lemma {:induction false} NoGap(h: Heap, k: int, gap: int)
    requires Nearly(h, k, gap) && (0 < k < |h.ring| ==> h.ring[k - 1] + h.size[h.ring[k - 1]] != h.ring[k])
    ensures Nearly(h, gap, gap)
  {
    hide Tiled, Based;
    forall i, j | 0 <= i < j < |h.ring| && j != gap ensures h.ring[i] + h.size[h.ring[i]] < h.ring[j] {
      if j == k && i < k - 1 { assert h.ring[i] + h.size[h.ring[i]] <= h.ring[k - 1] < h.ring[k]; }
    }
  }

  lemma {:induction false} NearlySound(h: Heap)
    requires Nearly(h, -1, -1)
    ensures Sound(h)
  {
    hide Tiled, Based;
  }

  // ------------------------------------------------------------ links

  lemma {:induction false} LinkInsert(ring: seq<int>, ptr: map<int, int>, p: int, idx: int)
    requires Linked(ring, ptr) && Increasing(ring) && IsPlace(ring, p, idx) && ring != []
    ensures Linked(InsertAt(ring, idx, p), ptr[p := Behind(ring, idx)][Before(ring, idx) := p])
  {
    hide InsertAt;
    var r, q := InsertAt(ring, idx, p), Before(ring, idx);
    var ptr' := ptr[p := Behind(ring, idx)][q := p];
    InsertedLength(ring, idx, p);
    InsertedAt(ring, idx, p, 0);
    forall i | 0 <= i < |r| ensures r[i] in ptr' && ptr'[r[i]] == Next(r, i) {
      InsertedAt(ring, idx, p, i);
      if i + 1 < |r| { InsertedAt(ring, idx, p, i + 1); }
      if i < idx { assert ptr[ring[i]] == Next(ring, i); } else if i > idx {
          assert ptr[ring[i - 1]] == Next(ring, i - 1); }
    }
  }

  /** Unlinking the block at k from the ring through the block before it, cyclically. */
  lemma {:induction false} LinkRemove(ring: seq<int>, ptr: map<int, int>, k: int)
    requires Linked(ring, ptr) && Increasing(ring) && 0 <= k < |ring| && |ring| >= 2
    ensures Linked(RemoveAt(ring, k), ptr[Before(ring, k) := ptr[ring[k]]])
  {
    hide RemoveAt;
    var r, ptr' := RemoveAt(ring, k), ptr[Before(ring, k) := ptr[ring[k]]];
    RemovedAt(ring, k, 0);
    assert ptr[ring[k]] == Next(ring, k);
    forall i | 0 <= i < |r| ensures r[i] in ptr' && ptr'[r[i]] == Next(r, i) {
      RemovedAt(ring, k, i);
      if i + 1 < |r| { RemovedAt(ring, k, i + 1); }
      if i >= k { assert ptr[ring[i + 1]] == Next(ring, i + 1); } else { assert ptr[ring[i]] == Next(ring, i); }
    }
  }

  /** What kfree makes of the heap, by whether p ends at the next free block and begins at the
      end of the one before. */
  ghost function Freed(h: Heap, p: int, idx: int): Heap
    requires h.ring != [] && 0 <= idx <= |h.ring| && p in h.size && forall f :: f in h.ring ==> f in h.size
  {
    var q, n := Before(h.ring, idx), Behind(h.ring, idx);
    var h1 := Released(h, p, idx);
    var h2 := if idx < |h.ring| && p + h.size[p] == n then Merged(h1, p, idx + 1) else h1;
    if idx > 0 && q + h.size[q] == p then Merged(h2, q, idx) else h2
  }

  /** Freeing a live block keeps the heap sound. */
  lemma {:induction false} FreedSound(h: Heap, p: int, idx: int)
    requires Sound(h) && p in h.live && IsPlace(h.ring, p, idx) && h.ring != []
    requires p in h.size && forall f :: f in h.ring ==> f in h.size
    ensures Sound(Freed(h, p, idx))
    ensures Freed(h, p, idx).live == h.live - {p} && Freed(h, p, idx).cores == h.cores
      && Freed(h, p, idx).base == h.base
  {
    hide Tiled, Based, InsertAt, RemoveAt, Sound, Nearly;
    var q, n := Before(h.ring, idx), Behind(h.ring, idx);
    var h1 := Released(h, p, idx);
    ReleasedNearly(h, p, idx);
    InsertedLength(h.ring, idx, p);
    InsertedAt(h.ring, idx, p, idx);
    if idx > 0 { InsertedAt(h.ring, idx, p, idx - 1); LiveClear(h, p, q); BaseSize(h); }
    if idx < |h.ring| { InsertedAt(h.ring, idx, p, idx + 1); LiveClear(h, p, n); }
    LiveSize(h, p);
    NearlySwap(h1, idx, idx + 1);
    var h2 := if idx < |h.ring| && p + h.size[p] == n then Merged(h1, p, idx + 1) else h1;
    if idx < |h.ring| && p + h.size[p] == n {
      MergedNearly(h1, idx + 1, idx);
      RemovedAt(h1.ring, idx + 1, idx);
      if idx > 0 { RemovedAt(h1.ring, idx + 1, idx - 1); }
    } else {
      NoGap(h1, idx + 1, idx);
    }
    NearlyOne(h2, idx);
    if idx > 0 && q + h.size[q] == p {
      MergedNearly(h2, idx, -1);
      NearlySound(Merged(h2, q, idx));
    } else {
      NoGap(h2, idx, -1);
      NearlySound(h2);
    }
  }

  lemma {:induction false} NearlySwap(h: Heap, a: int, b: int)
    requires Nearly(h, a, b)
    ensures Nearly(h, b, a)
  {
    hide Tiled, Based;
  }

  lemma {:induction false} NearlyOne(h: Heap, a: int)
    requires Nearly(h, a, a)
    ensures Nearly(h, a, -1)
  {
    hide Tiled, Based;
  }

  lemma {:induction false} BaseSize(h: Heap)
    requires Sound(h)
    ensures h.base in h.size && h.size[h.base] == 0 && h.base in h.ring && h.base !in h.live
  {
  }

  lemma {:induction false} LiveSize(h: Heap, p: int)
    requires Sound(h) && p in h.live
    ensures p in h.size && h.size[p] >= 1 && p !in h.ring && p != h.base
  {
    assert IsBlock(h, p);
  }

  lemma {:induction false} SoundIncreasing(h: Heap)
    requires Sound(h)
    ensures Increasing(h.ring) && h.ring != [] && forall f :: f in h.ring ==> f in h.size && h.size[f] >= 0
  {
  }

  ghost predicate MergesNext(h: Heap, p: int, idx: int)
    requires h.ring != [] && 0 <= idx <= |h.ring| && p in h.size
  {
    p + h.size[p] == Behind(h.ring, idx)
  }

  ghost predicate MergesPrev(h: Heap, p: int, idx: int)
    requires h.ring != [] && 0 <= idx <= |h.ring| && forall f :: f in h.ring ==> f in h.size
  {
    Before(h.ring, idx) + h.size[Before(h.ring, idx)] == p
  }

  /** Merging can happen only with true neighbours, and never with the base. */
  lemma {:induction false} MergeFacts(h: Heap, p: int, idx: int)
    requires Sound(h) && p in h.live && IsPlace(h.ring, p, idx) && h.ring != []
    requires p in h.size && forall f :: f in h.ring ==> f in h.size
    ensures MergesNext(h, p, idx) ==> idx < |h.ring| && |h.ring| >= 2 && Before(h.ring, idx) != Behind(h.ring, idx)
    ensures MergesPrev(h, p, idx) ==> idx > 0
    ensures p !in h.ring && h.size[p] >= 1 && h.size[Before(h.ring, idx)] >= 0
  {
    LiveSize(h, p);
    var q, n := Before(h.ring, idx), Behind(h.ring, idx);
    LiveClear(h, p, q);
    LiveClear(h, p, n);
    SoundIncreasing(h);
    BaseSize(h);
  }

  /** The memory words kfree writes. */
  ghost function FreedSize(h: Heap, p: int, idx: int): map<int, int>
    requires h.ring != [] && 0 <= idx <= |h.ring| && p in h.size && forall f :: f in h.ring ==> f in h.size
  {
    var q, n := Before(h.ring, idx), Behind(h.ring, idx);
    var size := if MergesNext(h, p, idx) then h.size[p := h.size[p] + h.size[n]] else h.size;
    if MergesPrev(h, p, idx) then size[q := size[q] + size[p]] else size
  }

  ghost function FreedPtr(h: Heap, p: int, idx: int): map<int, int>
    requires h.ring != [] && 0 <= idx <= |h.ring| && p in h.size
      && (forall f :: f in h.ring ==> f in h.size && f in h.ptr)
  {
    var q, n := Before(h.ring, idx), Behind(h.ring, idx);
    var to := if MergesNext(h, p, idx) then h.ptr[n] else n;
    h.ptr[p := to][q := if MergesPrev(h, p, idx) then to else p]
  }

  lemma {:induction false} FreedWords(h: Heap, p: int, idx: int)
    requires Sound(h) && p in h.live && IsPlace(h.ring, p, idx) && h.ring != []
    requires p in h.size && forall f :: f in h.ring ==> f in h.size
    ensures Freed(h, p, idx).size == FreedSize(h, p, idx)
  {
    hide Sound, InsertAt, RemoveAt;
    MergeFacts(h, p, idx);
    var h1 := Released(h, p, idx);
    InsertedLength(h.ring, idx, p);
    InsertedAt(h.ring, idx, p, idx);
    if idx < |h.ring| { InsertedAt(h.ring, idx, p, idx + 1); RemovedAt(h1.ring, idx + 1, idx); }
  }

  lemma {:induction false} LinkedHas(ring: seq<int>, ptr: map<int, int>)
    requires Linked(ring, ptr)
    ensures forall f :: f in ring ==> f in ptr
  {
  }

  lemma {:induction false} FreedLinks(h: Heap, p: int, idx: int)
    requires Sound(h) && p in h.live && IsPlace(h.ring, p, idx) && h.ring != [] && Linked(h.ring, h.ptr)
    requires p in h.size && forall f :: f in h.ring ==> f in h.size && f in h.ptr
    ensures Linked(Freed(h, p, idx).ring, FreedPtr(h, p, idx))
    ensures (if MergesPrev(h, p, idx) then Before(h.ring, idx) else p) in Freed(h, p, idx).ring
  {
    hide Sound, InsertAt, RemoveAt, Linked, Increasing;
    MergeFacts(h, p, idx);
    SoundIncreasing(h);
    var q, n := Before(h.ring, idx), Behind(h.ring, idx);
    var h1 := Released(h, p, idx);
    var ptr1 := h.ptr[p := n][q := p];
    LinkInsert(h.ring, h.ptr, p, idx);
    InsertedLength(h.ring, idx, p);
    InsertedAt(h.ring, idx, p, idx);
    InsertedIncreasing(h.ring, p, idx);
    if idx > 0 { InsertedAt(h.ring, idx, p, idx - 1); }
    var ptr2, r2 := ptr1, h1.ring;
    if MergesNext(h, p, idx) {
      InsertedAt(h.ring, idx, p, idx + 1);
      LinkRemove(h1.ring, ptr1, idx + 1);
      RemovedAt(h1.ring, idx + 1, idx);
      RemovedIncreasing(h1.ring, idx + 1);
      if idx > 0 { RemovedAt(h1.ring, idx + 1, idx - 1); }
      ptr2, r2 := ptr1[p := ptr1[n]], RemoveAt(h1.ring, idx + 1);
      assert ptr2 == h.ptr[p := h.ptr[n]][q := p];
    }
    assert r2[idx] == p;
    if MergesPrev(h, p, idx) {
      LinkRemove(r2, ptr2, idx);
      assert Before(r2, idx) == q;
      RemovedAt(r2, idx, idx - 1);
      assert ptr2[q := ptr2[p]] == FreedPtr(h, p, idx);
    } else {
      assert ptr2 == FreedPtr(h, p, idx);
    }
  }

  lemma {:induction false} InsertedIncreasing(ring: seq<int>, p: int, idx: int)
    requires Increasing(ring) && IsPlace(ring, p, idx)
    ensures Increasing(InsertAt(ring, idx, p))
  {
  }

  lemma {:induction false} RemovedIncreasing(ring: seq<int>, k: int)
    requires Increasing(ring) && 0 <= k < |ring|
    ensures Increasing(RemoveAt(ring, k))
  {
  }

  // ------------------------------------------------------------ allocating, on values

  /** The whole free block at k becomes live. */
  ghost function Taken(h: Heap, k: int): Heap
    requires 0 <= k < |h.ring|
  {
    h.(ring := RemoveAt(h.ring, k), live := h.live + {h.ring[k]})
  }

  lemma {:induction false} TakenSound(h: Heap, k: int)
    requires Sound(h) && 0 <= k < |h.ring| && h.ring[k] != h.base
    ensures Sound(Taken(h, k))
  {
    var h' := Taken(h, k);
    SoundIncreasing(h);
    RemovedHas(h.ring, k);
    TakenOrdered(h, k);
    assert forall b :: IsBlock(h', b) <==> IsBlock(h, b);
    assert forall b, x {:trigger Within(h', b, x)} :: Within(h', b, x) <==> Within(h, b, x);
  }

  lemma {:induction false} TakenOrdered(h: Heap, k: int)
    requires Ordered(h.ring, h.size, -1) && 0 <= k < |h.ring|
    ensures Ordered(RemoveAt(h.ring, k), h.size, -1)
  {
    hide RemoveAt;
    var r := RemoveAt(h.ring, k);
    if |h.ring| > 1 { RemovedAt(h.ring, k, 0); } else { RemovedLength(h.ring, k); }
    forall i | 0 <= i < |r| ensures r[i] in h.size && h.size[r[i]] >= 0 { RemovedAt(h.ring, k, i); }
    forall i, j | 0 <= i < j < |r| ensures r[i] + h.size[r[i]] < r[j] && r[i] < r[j] {
      RemovedAt(h.ring, k, i); RemovedAt(h.ring, k, j);
    }
  }

  lemma {:induction false} RemovedLength(ring: seq<int>, k: int)
    requires 0 <= k < |ring|
    ensures |RemoveAt(ring, k)| == |ring| - 1
  {
  }

  /** The last n units of the free block p become a live block. */
  ghost function Carved(h: Heap, p: int, n: int): Heap
    requires p in h.size
  {
    var b := p + h.size[p] - n;
    h.(size := h.size[p := h.size[p] - n][b := n], live := h.live + {b},
       own := map x | x in h.own :: if h.own[x] == p && x >= b then b else h.own[x])
  }

  lemma {:induction false} CarvedSound(h: Heap, p: int, n: int)
    requires Sound(h) && p in h.ring && p != h.base && p in h.size && 0 < n < h.size[p]
    ensures Sound(Carved(h, p, n))
  {
    hide Tiled, Ordered, Based;
    CarvedTiled(h, p, n);
    CarvedFresh(h, p, n);
    CarvedOrdered(h, p, n);
    CarvedBased(h, p, n);
  }

  /** The carved block's start is inside p, so it is no block yet. */
  lemma {:induction false} CarvedFresh(h: Heap, p: int, n: int)
    requires Sound(h) && p in h.ring && p != h.base && p in h.size && 0 < n < h.size[p]
    ensures var b := p + h.size[p] - n; !IsBlock(h, b) && b != h.base && b != p && b !in h.ring
  {
    var b := p + h.size[p] - n;
    assert IsBlock(h, p) && Within(h, p, b);
    if IsBlock(h, b) { assert Within(h, b, b); }
    NotBehindCore(h, b);
  }

  lemma {:induction false} CarvedBased(h: Heap, p: int, n: int)
    requires Sound(h) && p in h.ring && p != h.base && p in h.size && 0 < n < h.size[p]
    ensures Based(Carved(h, p, n))
  {
    CarvedFresh(h, p, n);
  }

  lemma {:induction false} CarvedOrdered(h: Heap, p: int, n: int)
    requires Sound(h) && p in h.ring && p != h.base && p in h.size && 0 < n < h.size[p]
    ensures Ordered(h.ring, Carved(h, p, n).size, -1)
  {
    CarvedFresh(h, p, n);
    hide Tiled, Based;
    var b, h' := p + h.size[p] - n, Carved(h, p, n);
    assert forall f :: f in h.ring ==> f != b && f in h'.size && h'.size[f] <= h.size[f] && h'.size[f] >= 0;
  }

  lemma {:induction false} CarvedTiled(h: Heap, p: int, n: int)
    requires Sound(h) && p in h.ring && p != h.base && p in h.size && 0 < n < h.size[p]
    ensures Tiled(Carved(h, p, n))
  {
    CarvedFresh(h, p, n);
    var b, h' := p + h.size[p] - n, Carved(h, p, n);
    assert IsBlock(h, p);
    assert forall c :: IsBlock(h', c) <==> IsBlock(h, c) || c == b;
    forall x | x in h'.own ensures IsBlock(h', h'.own[x]) && Within(h', h'.own[x], x) {
      assert IsBlock(h, h.own[x]) && Within(h, h.own[x], x);
    }
    forall c, x {:trigger Within(h', c, x)} | IsBlock(h', c) && Within(h', c, x) ensures x in h'.own && h'.own[x] == c {
      if c == b || c == p { assert Within(h, p, x); } else { assert Within(h, c, x); }
    }
  }

  /** A region for a new core: clear of every core and of the base, which is not just behind. */
  ghost predicate Clear(h: Heap, core: int, n: int) {
    && (forall c :: c in h.cores ==> core + n <= c || c + h.cores[c] <= core)
    && (h.base < core || core + n < h.base)
  }

  ghost function Span(a: int, b: int): (s: set<int>)
    ensures forall x :: x in s <==> a <= x < b
    decreases if a < b then b - a else 0
  {
    if a < b then Span(a + 1, b) + {a} else {}
  }

  /** The new core with its whole body a live block, about to be freed. */
  ghost function Grown(h: Heap, core: int, n: int): Heap {
    h.(cores := h.cores[core := n], size := h.size[core + 1 := n - 1], live := h.live + {core + 1},
       own := map x | x in h.own.Keys + Span(core + 1, core + n) :: if core < x < core + n then core + 1 else h.own[x])
  }

  lemma {:induction false} GrownSound(h: Heap, core: int, n: int)
    requires Sound(h) && Clear(h, core, n) && n >= 2 && core !in h.cores
    ensures Sound(Grown(h, core, n)) && core + 1 !in h.live && core + 1 !in h.ring
  {
    hide Tiled, Ordered, Based;
    GrownFresh(h, core, n);
    GrownTiled(h, core, n);
    GrownBased(h, core, n);
  }

  lemma {:induction false} BlockInBody(h: Heap, b: int)
    requires Sound(h) && IsBlock(h, b)
    ensures InBody(h.cores, b) && b in h.own && h.own[b] == b
  {
    assert Within(h, b, b);
  }

  lemma {:induction false} OutOfNew(h: Heap, core: int, n: int, x: int)
    requires Clear(h, core, n) && core < x < core + n
    ensures !InBody(h.cores, x)
  {
  }

  lemma {:induction false} GrownFresh(h: Heap, core: int, n: int)
    requires Sound(h) && Clear(h, core, n) && n >= 2
    ensures !IsBlock(h, core + 1) && core + 1 != h.base && core + 1 !in h.live && core + 1 !in h.ring
    ensures forall x :: x in h.own ==> !(core < x < core + n)
    ensures Ordered(h.ring, h.size[core + 1 := n - 1], -1)
  {
    forall x | x in h.own ensures !(core < x < core + n) {
      if core < x < core + n { OutOfNew(h, core, n, x); }
    }
    if IsBlock(h, core + 1) { BlockInBody(h, core + 1); }
  }

  lemma {:induction false} GrownBased(h: Heap, core: int, n: int)
    requires Sound(h) && Clear(h, core, n) && n >= 2 && core !in h.cores
    ensures Based(Grown(h, core, n))
  {
    GrownFresh(h, core, n);
  }

  lemma {:induction false} GrownTiled(h: Heap, core: int, n: int)
    requires Sound(h) && Clear(h, core, n) && n >= 2 && core !in h.cores
    ensures Tiled(Grown(h, core, n))
  {
    GrownFresh(h, core, n);
    var h', b := Grown(h, core, n), core + 1;
    assert forall c :: IsBlock(h', c) <==> IsBlock(h, c) || c == b;
    forall x ensures x in h'.own <==> InBody(h'.cores, x) {
      GrownBodies(h, core, n, x);
    }
    forall x | x in h'.own ensures IsBlock(h', h'.own[x]) && Within(h', h'.own[x], x) {
      GrownOwner(h, core, n, x);
    }
    forall c, x {:trigger Within(h', c, x)} | IsBlock(h', c) && Within(h', c, x) ensures x in h'.own && h'.own[x] == c {
      GrownBack(h, core, n, c, x);
    }
  }

  lemma {:induction false} GrownOwner(h: Heap, core: int, n: int, x: int)
    requires Sound(h) && Clear(h, core, n) && n >= 2 && x in Grown(h, core, n).own
    ensures var h' := Grown(h, core, n); IsBlock(h', h'.own[x]) && Within(h', h'.own[x], x)
  {
    GrownFresh(h, core, n);
    if !(core < x < core + n) { assert IsBlock(h, h.own[x]) && Within(h, h.own[x], x); }
  }

  lemma {:induction false} GrownBack(h: Heap, core: int, n: int, c: int, x: int)
    requires Sound(h) && Clear(h, core, n) && n >= 2
    requires IsBlock(Grown(h, core, n), c) && Within(Grown(h, core, n), c, x)
    ensures x in Grown(h, core, n).own && Grown(h, core, n).own[x] == c
  {
    GrownFresh(h, core, n);
    if c == core + 1 {
      assert x in Span(core + 1, core + n);
    } else {
      assert IsBlock(h, c) && Within(h, c, x);
      assert x in h.own.Keys;
    }
  }

  lemma {:induction false} GrownBodies(h: Heap, core: int, n: int, x: int)
    requires core !in h.cores
    ensures InBody(h.cores[core := n], x) <==> InBody(h.cores, x) || core < x < core + n
  {
    var cores' := h.cores[core := n];
    if InBody(h.cores, x) {
      var c :| c in h.cores && c < x < c + h.cores[c];
      assert c in cores' && c < x < c + cores'[c];
    }
    if core < x < core + n { assert core in cores' && core < x < core + cores'[core]; }
  }

  // ------------------------------------------------------------ the allocator

  /** Block sizes for a request, in units: the size word, the bytes, rounded up, and one more. */
  function Units(bytes: nat): (n: nat)
    ensures n >= 2 && (n - 2) * 16 < bytes + 8 <= (n - 1) * 16
  {
    (bytes + 8 + 16 - 1) / 16 + 1
  }

  /** Core sizes: a multiple of MIN_CORE_SIZE with room for the core header. */
  function CoreUnits(n: nat): (m: nat)
    ensures n + 1 <= m < n + 1 + MIN_CORE_SIZE && m % MIN_CORE_SIZE == 0
  {
    (n + 1 + (MIN_CORE_SIZE - 1)) / MIN_CORE_SIZE * MIN_CORE_SIZE
  }

  /** Some free block has n units. */
  ghost predicate Fits(ring: seq<int>, size: map<int, int>, n: nat) {
    exists j :: 0 <= j < |ring| && ring[j] in size && size[ring[j]] >= n
  }

  /** Going round the ring from hi to i passes j. */
  predicate Passed(hi: nat, i: nat, j: nat) { if hi <= i then hi < j <= i else hi < j || j <= i }

  /** The blocks passed on the way from hi to i have fewer than n units. */
  ghost predicate TooSmall(ring: seq<int>, size: map<int, int>, hi: nat, i: nat, n: nat) {
    forall j :: 0 <= j < |ring| && Passed(hi, i, j) ==> ring[j] in size && size[ring[j]] < n
  }

  lemma {:induction false} NonePassed(ring: seq<int>, size: map<int, int>, i: nat, n: nat)
    ensures TooSmall(ring, size, i, i, n)
  {
  }

  lemma {:induction false} OneMorePassed(ring: seq<int>, size: map<int, int>, hi: nat, i: nat, n: nat)
    requires hi < |ring| && i < |ring| && TooSmall(ring, size, hi, i, n) && Next(ring, i) != ring[hi]
    requires Next(ring, i) in size && size[Next(ring, i)] < n
    ensures TooSmall(ring, size, hi, if i + 1 < |ring| then i + 1 else 0, n)
  {
  }

  lemma {:induction false} NoneFits(ring: seq<int>, size: map<int, int>, hi: nat, i: nat, head: int, n: nat)
    requires hi < |ring| && i < |ring| && ring[hi] == head && Next(ring, i) == head && Increasing(ring)
    requires head in size && size[head] < n && TooSmall(ring, size, hi, i, n)
    ensures !Fits(ring, size, n)
  {
    forall j | 0 <= j < |ring| && ring[j] in size ensures size[ring[j]] < n {
      if j != hi { assert Passed(hi, i, j); }
    }
  }

  lemma {:induction false} FitsAt(ring: seq<int>, size: map<int, int>, p: int, n: nat)
    requires p in ring && p in size && size[p] >= n
    ensures Fits(ring, size, n)
  {
    var j :| 0 <= j < |ring| && ring[j] == p;
  }

  datatype Pointer = Null | To(addr: int)

  class Kmem {
    const base: int
    var size: map<int, int>
    var ptr: map<int, int>
    var head: int
    var started: bool
    var cores: map<int, int>
    ghost var ring: seq<int>
    ghost var live: set<int>
    ghost var own: map<int, int>

    ghost function Reading(): Heap reads this {
      Heap(base, size, ptr, cores, ring, live, own)
    }

    /** A heap that has not been used yet has no blocks and no cores. */
    ghost predicate Valid() reads this {
      && Sound(Reading())
      && (started ==> Linked(ring, ptr) && head in ring)
      && (!started ==> live == {} && cores == map[] && ring == [base])
    }

    constructor (base: int)
      ensures Valid() && live == {} && cores == map[] && this.base == base
    {
      this.base := base;
      size, ptr, head, started, cores := map[base := 0], map[], 0, false, map[];
      ring, live, own := [base], {}, map[];
    }

    /** The loop that finds the free block before p, going round the ring from the loop head. */
    method FindPlace(p: int, ghost idx: int) returns (q: int)
      requires Valid() && started && IsPlace(ring, p, idx)
      ensures q == Before(ring, idx) && q in ptr && ptr[q] == Behind(ring, idx)
    {
      hide Tiled, Based;
      SoundIncreasing(Reading());
      q := head;
      ghost var n := |ring|;
      ghost var to := if idx == 0 then n - 1 else idx - 1;
      ghost var i :| 0 <= i < n && ring[i] == head;
      assert ptr[ring[i]] == Next(ring, i);
      while !(p > q && p < ptr[q]) && !(q >= ptr[q] && (p > q || p < ptr[q]))
        invariant 0 <= i < n && q == ring[i] && q in ptr && ptr[q] == Next(ring, i)
        decreases if i <= to then to - i else to + n - i
      {
        q := ptr[q];
        i := if i + 1 < n then i + 1 else 0;
        assert ptr[ring[i]] == Next(ring, i);
      }
      assert i == to;
    }

    /** The words kfree writes once the place is found; the two panics are out of reach. */
    method WriteFree(p: int, q: int)
      requires p in size && q in size && q in ptr && ptr[q] in size && ptr[q] in ptr && q != p && ptr[q] != p
      requires ptr[q] >= p ==> p + size[p] <= ptr[q]
      requires p >= q ==> q + size[q] <= p
      modifies this`size, this`ptr, this`head
      ensures var n := old(ptr[q]); var next := p + old(size[p]) == n; var prev := q + old(size[q]) == p;
        var size1 := if next then old(size)[p := old(size[p]) + old(size)[n]] else old(size);
        var to := if next then old(ptr)[n] else n;
        && (q != n || !next ==> size == if prev then size1[q := size1[q] + size1[p]] else size1)
        && (q != n || !next ==> ptr == old(ptr)[p := to][q := if prev then to else p])
        && head == if prev then q else p
    {
      var n := ptr[q];
      if p + size[p] == n {
        size := size[p := size[p] + size[n]];
        ptr := ptr[p := ptr[n]];
      } else {
        assert !(p + size[p] > n && n >= p);
        ptr := ptr[p := n];
      }
      if q + size[q] == p {
        size := size[q := size[q] + size[p]];
        ptr := ptr[q := ptr[p]];
        head := q;
      } else {
        assert !(q + size[q] > p && p >= q);
        head := p;
        ptr := ptr[q := p];
      }
    }

    /** kfree: nothing for a null pointer; a live block becomes free, and other live blocks keep
        their sizes. */
    method Kfree(p: Pointer)
      requires Valid() && (p.To? ==> p.addr in live)
      modifies this
      ensures Valid() && cores == old(cores)
      ensures live == if p.Null? then old(live) else old(live) - {p.addr}
      ensures forall b :: b in live ==> b in size && b in old(size) && size[b] == old(size[b])
    {
      hide Tiled, Based, Ordered, Sound, Linked;
      if p.Null? {
        forall b | b in live ensures b in size { LiveSize(Reading(), b); }
        return;
      }
      FreeBlock(p.addr);
    }

    /** The block becomes free and merges with the free blocks it touches; both overlap tests
        fail, so nothing panics. */
    method FreeBlock(p: int)
      requires Valid() && started && p in live
      modifies this
      ensures Valid() && started
      ensures live == old(live) - {p} && cores == old(cores)
      ensures forall b :: b in live ==> b in size && b in old(size) && size[b] == old(size[b])
      ensures p in old(size) && head in size && size[head] >= old(size[p])
    {
      hide Sound, Linked, IsPlace, Freed, FreedSize, FreedPtr, MergesNext, MergesPrev, Before, Behind;
      ghost var h := Reading();
      ghost var idx := FreeBegins(h, p);
      FreeEnds(h, p, idx);
      ghost var h' := Freed(h, p, idx);
      var q := FindPlace(p, idx);
      WriteFree(p, q);
      FreeWritten(h, p, idx, size, ptr);
      ring, live, own := h'.ring, h'.live, h'.own;
      SoundPtr(h', Reading());
    }

    /** morecore: the new core, given by the system, becomes one free block, merged if it can be;
        the loop head is then a block at least as large as asked for. */
    method MoreCore(n: nat, core: int)
      requires Valid() && started && core !in cores && Clear(Reading(), core, CoreUnits(n)) && n >= 1
      modifies this
      ensures Valid() && started && live == old(live) && cores == old(cores)[core := CoreUnits(n)]
      ensures forall b :: b in live ==> b in size && b in old(size) && size[b] == old(size[b])
      ensures head in size && size[head] >= n
    {
      hide Tiled, Based, Ordered, Sound, Linked, Clear;
      ghost var h := Reading();
      var m := CoreUnits(n);
      GrownSound(h, core, m);
      forall b | b in live ensures b in size && b != core + 1 { LiveSize(h, b); }
      ghost var h' := Grown(h, core, m);
      cores := cores[core := m];
      size := size[core + 1 := m - 1];
      live, own := h'.live, h'.own;
      FreeBlock(core + 1);
      assert live == old(live);
    }

    /** kmalloc: nothing for no bytes; otherwise a live block of the right size that was not one
        before, carved from a free block; other live blocks stay. `core` is where the system
        would put a new core. */
    method Kmalloc(bytes: nat, core: int) returns (p: Pointer)
      requires Valid()
      requires bytes > 0 ==> core !in cores && Clear(Reading(), core, CoreUnits(Units(bytes)))
      modifies this
      ensures Valid() && (p.Null? <==> bytes == 0)
      ensures p.Null? ==> live == old(live) && size == old(size) && cores == old(cores)
      ensures p.To? ==> p.addr !in old(live) && live == old(live) + {p.addr}
      ensures p.To? ==> started && p.addr in size && size[p.addr] == Units(bytes)
      ensures forall b :: b in old(live) ==> b in size && b in old(size) && size[b] == old(size[b])
      ensures p.To? ==>
        cores == if Fits(old(ring), old(size), Units(bytes)) then old(cores)
                 else old(cores)[core := CoreUnits(Units(bytes))]
    {
      hide Tiled, Based, Ordered, Sound, Linked, Fits;
      if bytes == 0 {
        forall b | b in live ensures b in size { LiveSize(Reading(), b); }
        return Null;
      }
      var a := Allocate(bytes, core);
      p := To(a);
    }

    method Allocate(bytes: nat, core: int) returns (p: int)
      requires Valid() && bytes > 0
      requires core !in cores && Clear(Reading(), core, CoreUnits(Units(bytes)))
      modifies this
      ensures Valid() && started
      ensures p !in old(live) && live == old(live) + {p} && p in size && size[p] == Units(bytes)
      ensures forall b :: b in old(live) ==> b in size && b in old(size) && size[b] == old(size[b])
      ensures cores == if Fits(old(ring), old(size), Units(bytes)) then old(cores)
                       else old(cores)[core := CoreUnits(Units(bytes))]
    {
      hide Tiled, Based, Ordered, Sound, Linked, Fits;
      var n := Units(bytes);
      if !started {
        head, started := base, true;
        ptr := ptr[base := base];
        StartSound(old(Reading()), Reading());
      }
      forall b | b in live ensures b in size { LiveSize(Reading(), b); }
      var q;
      q, p := FirstFit(n, core);
      ghost var h := Reading();
      BlockOfSize(h, p);
      if size[p] == n {
        Unlink(q, p);
      } else {
        p := Carve(q, p, n);
      }
    }

    /** A larger free block gives its last n units away. */
    method Carve(q: int, p: int, n: nat) returns (b: int)
      requires Valid() && started && q in ring && p in ring && p != base && p in size && 0 < n < size[p]
      modifies this
      ensures Valid() && started && live == old(live) + {b} && b !in old(live) && cores == old(cores)
      ensures b in size && size[b] == n
      ensures forall c :: c in old(live) ==> c in old(size) && c in size && size[c] == old(size[c])
    {
      hide Tiled, Based, Ordered, Sound, Linked;
      ghost var h := Reading();
      CarvedSound(h, p, n);
      CarvedFresh(h, p, n);
      FreeNotLive(h, p);
      forall c | c in live ensures c in size { LiveSize(h, c); }
      ghost var h' := Carved(h, p, n);
      size := size[p := size[p] - n];
      b := p + size[p];
      size := size[b := n];
      live, own := h'.live, h'.own;
      head := q;
      assert Reading() == h';
    }

    /** The search of kmalloc: round the ring once, and once more after asking for a core. */
    method FirstFit(n: nat, core: int) returns (q: int, p: int)
      requires Valid() && started && n >= 2
      requires core !in cores && Clear(Reading(), core, CoreUnits(n))
      modifies this
      ensures Valid() && started && live == old(live)
      ensures forall b :: b in live ==> b in size && b in old(size) && size[b] == old(size[b])
      ensures q in ring && p in ring && p in size && size[p] >= n && q in ptr && ptr[q] == p
      ensures cores == if Fits(old(ring), old(size), n) then old(cores) else old(cores)[core := CoreUnits(n)]
    {
      hide Tiled, Based, Ordered, Sound, Linked, Clear, Increasing, Fits, TooSmall;
      forall b | b in live ensures b in size { LiveSize(Reading(), b); }
      SoundIncreasing(Reading());
      ghost var i := IndexOf(ring, head);
      NonePassed(ring, size, i, n);
      ghost var hi, asked := i, false;
      q := head;
      LinkAt(ring, ptr, i);
      p := ptr[q];
      while size[p] < n
        invariant Valid() && started && live == old(live)
        invariant forall b :: b in live ==> b in size && b in old(size) && size[b] == old(size[b])
        invariant 0 <= i < |ring| && q == ring[i] && q in ptr && ptr[q] == p == Next(ring, i) && p in size && p in ring
        invariant 0 <= hi < |ring| && ring[hi] == head
        invariant if asked then head in size && size[head] >= n && cores == old(cores)[core := CoreUnits(n)]
                  else Clear(Reading(), core, CoreUnits(n)) && core !in cores && cores == old(cores)
        invariant asked ==> !Fits(old(ring), old(size), n)
        invariant !asked ==> ring == old(ring) && size == old(size)
        invariant !asked ==> TooSmall(ring, size, hi, i, n)
        decreases if asked then 0 else 1, if i < hi then hi - i else hi + |ring| - i
      {
        if p == head {
          if !asked { NoneFits(ring, size, hi, i, head, n); }
          MoreCore(n, core);
          asked := true;
          p := head;
          i := IndexOf(ring, head);
          hi := i;
        } else {
          if !asked { OneMorePassed(ring, size, hi, i, n); }
          i := if i + 1 < |ring| then i + 1 else 0;
        }
        SoundIncreasing(Reading());
        LinkAt(ring, ptr, i);
        q := p;
        p := ptr[p];
      }
      if !asked { FitsAt(ring, size, p, n); }
    }

    /** A free block of exactly the right size leaves the ring. */
    method Unlink(q: int, p: int)
      requires Valid() && started && q in ring && p in ring && p != base && q in ptr && ptr[q] == p
      modifies this
      ensures Valid() && started && live == old(live) + {p} && p !in old(live) && size == old(size)
        && cores == old(cores)
    {
      hide Tiled, Ordered, Sound, Linked, Increasing, RemoveAt;
      ghost var h := Reading();
      SoundIncreasing(h);
      BaseSize(h);
      ghost var i := IndexOf(ring, q);
      LinkAt(ring, ptr, i);
      ghost var k := if i + 1 < |ring| then i + 1 else 0;
      TwoInRing(ring, base, p);
      TakenSound(h, k);
      LinkRemove(ring, ptr, k);
      LinkAt(ring, ptr, k);
      UnlinkedHas(h, k, q);
      FreeNotLive(h, p);
      ptr := ptr[q := ptr[p]];
      head := q;
      ring, live := RemoveAt(ring, k), live + {p};
      SoundPtr(Taken(h, k), Reading());
    }
  }

  lemma {:induction false} FreeNotLive(h: Heap, p: int)
    requires Sound(h) && p in h.ring
    ensures p !in h.live
  {
  }

  lemma {:induction false} TwoInRing(ring: seq<int>, a: int, b: int)
    requires a in ring && b in ring && a != b
    ensures |ring| >= 2
  {
  }

  lemma {:induction false} UnlinkedHas(h: Heap, k: int, q: int)
    requires Sound(h) && 0 <= k < |h.ring| && |h.ring| >= 2 && q == Before(h.ring, k)
    ensures q in RemoveAt(h.ring, k)
  {
    SoundIncreasing(h);
    RemovedHas(h.ring, k);
  }

  lemma {:induction false} IndexOf(ring: seq<int>, b: int) returns (i: int)
    requires b in ring
    ensures 0 <= i < |ring| && ring[i] == b
  {
    i :| 0 <= i < |ring| && ring[i] == b;
  }

  lemma {:induction false} LinkAt(ring: seq<int>, ptr: map<int, int>, i: int)
    requires Linked(ring, ptr) && 0 <= i < |ring|
    ensures ring[i] in ptr && ptr[ring[i]] == Next(ring, i) && Next(ring, i) in ring
  {
  }

  /** A free block that holds something is not the base. */
  lemma {:induction false} BlockOfSize(h: Heap, p: int)
    requires Sound(h) && p in h.ring && p in h.size && h.size[p] >= 1
    ensures p != h.base
  {
  }

  /** The first use of the allocator closes the ring on the base. */
  lemma {:induction false} StartSound(h: Heap, h': Heap)
    requires Sound(h) && h.ring == [h.base] && h' == h.(ptr := h.ptr[h.base := h.base])
    ensures Sound(h') && Linked(h'.ring, h'.ptr)
  {
    SoundPtr(h, h');
  }

  /** Soundness does not look at the links. */
  lemma {:induction false} SoundPtr(h: Heap, h': Heap)
    requires Sound(h) && h' == h.(ptr := h'.ptr)
    ensures Sound(h')
  {
    assert forall b :: IsBlock(h', b) <==> IsBlock(h, b);
    assert forall b, x {:trigger Within(h', b, x)} :: Within(h', b, x) <==> Within(h, b, x);
  }

  lemma {:induction false} FreeBegins(h: Heap, p: int) returns (idx: int)
    requires Sound(h) && p in h.live && Linked(h.ring, h.ptr)
    ensures h.ring != [] && IsPlace(h.ring, p, idx) && 0 <= idx <= |h.ring|
    ensures p in h.size && forall f :: f in h.ring ==> f in h.size && f in h.ptr
    ensures var q, n := Before(h.ring, idx), Behind(h.ring, idx);
      q in h.ring && n in h.ring && q != p && n != p
      && (n >= p ==> p + h.size[p] <= n) && (p >= q ==> q + h.size[q] <= p)
  {
    hide Sound, Linked, Increasing, IsPlace;
    SoundIncreasing(h);
    LiveSize(h, p);
    LinkedHas(h.ring, h.ptr);
    idx := PlaceExists(h.ring, p);
    LiveClear(h, p, Before(h.ring, idx));
    LiveClear(h, p, Behind(h.ring, idx));
  }

  /** What the finished kfree promises, in one place. */
  lemma {:induction false} FreeEnds(h: Heap, p: int, idx: int)
    requires Sound(h) && p in h.live && IsPlace(h.ring, p, idx) && h.ring != [] && Linked(h.ring, h.ptr)
    requires p in h.size && forall f :: f in h.ring ==> f in h.size && f in h.ptr
    ensures var h' := Freed(h, p, idx);
      && Sound(h') && h'.live == h.live - {p} && h'.cores == h.cores && h'.base == h.base
      && h'.size == FreedSize(h, p, idx) && Linked(h'.ring, FreedPtr(h, p, idx)) && h'.ptr == h.ptr
    ensures var t := if MergesPrev(h, p, idx) then Before(h.ring, idx) else p;
      t in Freed(h, p, idx).ring && t in FreedSize(h, p, idx) && FreedSize(h, p, idx)[t] >= h.size[p]
    ensures forall b :: b in h.live && b != p ==>
      b in h.size && b in FreedSize(h, p, idx) && FreedSize(h, p, idx)[b] == h.size[b]
  {
    hide Sound, Linked, IsPlace, FreedSize, FreedPtr, MergesNext, MergesPrev, Before, Behind, InsertAt, RemoveAt;
    FreedSound(h, p, idx);
    FreedWords(h, p, idx);
    FreedLinks(h, p, idx);
    FreedKeeps(h, p, idx);
  }

  /** The words written are the ones the reading needs. */
  lemma {:induction false} FreeWritten(h: Heap, p: int, idx: int, size: map<int, int>, ptr: map<int, int>)
    requires Sound(h) && p in h.live && IsPlace(h.ring, p, idx) && h.ring != []
    requires p in h.size && forall f :: f in h.ring ==> f in h.size && f in h.ptr
    requires var q, n := Before(h.ring, idx), Behind(h.ring, idx);
      var next := p + h.size[p] == n; var prev := q + h.size[q] == p;
      var size1 := if next then h.size[p := h.size[p] + h.size[n]] else h.size;
      var to := if next then h.ptr[n] else n;
      && (q != n || !next ==> size == if prev then size1[q := size1[q] + size1[p]] else size1)
      && (q != n || !next ==> ptr == h.ptr[p := to][q := if prev then to else p])
    ensures size == FreedSize(h, p, idx) && ptr == FreedPtr(h, p, idx)
    ensures MergesPrev(h, p, idx) <==> Before(h.ring, idx) + h.size[Before(h.ring, idx)] == p
  {
    hide Sound, IsPlace;
    MergeFacts(h, p, idx);
  }

  /** Freeing changes the size words of free blocks only. */
  lemma {:induction false} FreedKeeps(h: Heap, p: int, idx: int)
    requires Sound(h) && p in h.live && IsPlace(h.ring, p, idx) && h.ring != []
    requires p in h.size && forall f :: f in h.ring ==> f in h.size
    ensures forall b :: b in h.live && b != p ==>
      b in h.size && b in FreedSize(h, p, idx) && FreedSize(h, p, idx)[b] == h.size[b]
    ensures var q := Before(h.ring, idx); var t := if MergesPrev(h, p, idx) then q else p;
      t in FreedSize(h, p, idx) && FreedSize(h, p, idx)[t] >= h.size[p]
  {
    MergeFacts(h, p, idx);
    forall b | b in h.live ensures b in h.size && b !in h.ring { LiveSize(h, b); }
    hide Sound;
  }
}
