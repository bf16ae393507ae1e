/** The open-addressing hash table (deps/klib/khash.h): triangular probing on a power-of-two
    table, deletion marks, and the in-place kick-out rehash. */
module HashTable {
  import opened Bits

  // ------------------------------------------------------------ triangular probing

  function Tri(s: nat): nat { if s == 0 then 0 else Tri(s - 1) + s }

  /** The bucket of probe s for hash h in a table of n buckets. */
  function Probe(h: nat, s: nat, n: nat): (i: nat)
    requires n > 0
    ensures i < n
  {
    (h + Tri(s)) % n
  }

  /** The source steps the bucket, modulo n at each step. */
  lemma {:induction false} ProbeStep(h: nat, s: nat, n: nat)
    requires n > 0
    ensures (Probe(h, s, n) + (s + 1)) % n == Probe(h, s + 1, n)
  {
    ModAdd(h + Tri(s), s + 1, n);
  }

  lemma {:induction false} ModAdd(a: nat, b: nat, n: nat)
    requires n > 0
    ensures (a % n + b) % n == (a + b) % n
  {
    var q := a / n;
    assert a + b == q * n + (a % n + b);
    ModuloOfMultiple(q, a % n + b, n);
  }

  lemma {:induction false} TriDouble(s: nat)
    ensures 2 * Tri(s) == s * (s + 1)
  {
    if s > 0 { TriDouble(s - 1); }
  }

  /** A power of two that divides a product with one odd factor divides the other factor. */
  lemma {:induction false} OddFactor(k: nat, x: nat, y: nat, c: nat)
    requires y % 2 == 1 && x * y == Pow2(k) * c
    ensures x % Pow2(k) == 0
  {
    if k > 0 {
      var p := Pow2(k - 1);
      MulAssoc(2, p, c);
      assert x * y == 2 * (p * c);
      ParityOfProduct(x, y, p * c);
      var x' := x / 2;
      assert x == 2 * x';
      MulAssoc(2, x', y);
      assert x' * y == p * c;
      OddFactor(k - 1, x', y, c);
      assert x' == (x' / p) * p;
      MulAssoc(2, x' / p, p);
      MulAssoc(x' / p, 2, p);
      assert x == (x' / p) * (2 * p);
      ModuloOfMultiple(x' / p, 0, 2 * p);
    }
  }

  lemma {:induction false} ParityOfProduct(x: nat, y: nat, e: nat)
    requires y % 2 == 1 && x * y == 2 * e
    ensures x % 2 == 0
  {
    var b := y / 2;
    assert x * y == 2 * (x * b) + x by { assert y == 2 * b + 1; MulSplit(x, b); }
  }

  lemma {:induction false} MulSplit(x: nat, b: nat)
    ensures x * (2 * b + 1) == 2 * (x * b) + x
  {
  }

  lemma {:induction false} GapProduct(a: nat, b: nat)
    requires a <= b
    ensures Tri(a) <= Tri(b)
    ensures (b - a) * (a + b + 1) == 2 * (Tri(b) - Tri(a))
  {
    hide Tri;
    TriDouble(a); TriDouble(b);
    TriMono(a, b);
    GapSquares(a, b);
  }

  lemma {:induction false} GapSquares(a: nat, b: nat)
    requires a <= b
    ensures (b - a) * (a + b + 1) == b * (b + 1) - a * (a + 1)
  {
  }

  lemma {:induction false} OddFactorSmall(k: nat, x: nat, y: nat, c: nat)
    requires 0 < x < Pow2(k) && y % 2 == 1
    ensures x * y != Pow2(k) * c
  {
    hide Pow2;
    if x * y == Pow2(k) * c { OddFactor(k, x, y, c); }
  }

  lemma {:induction false} Commutes(x: nat, y: nat)
    ensures x * y == y * x
  {
  }

  /** Numbers below 2n of opposite parity have no product that 2n divides. */
  lemma {:induction false} NoMeet(x: nat, y: nat, n: nat, k: nat, q: nat)
    requires n == Pow2(k) && 0 < x < 2 * n && 0 < y < 2 * n && (x + y) % 2 == 1
    ensures x * y != 2 * (q * n)
  {
    hide Pow2;
    var p := 2 * n;
    NextPower(k);
    assert p * q == 2 * (q * n) by { MulAssoc(2, n, q); }
    if y % 2 == 1 {
      OddFactorSmall(k + 1, x, y, q);
    } else {
      OddFactorSmall(k + 1, y, x, q);
      Commutes(x, y);
    }
  }

  lemma {:induction false} NextPower(k: nat)
    ensures Pow2(k + 1) == 2 * Pow2(k)
  {
  }

  /** Two of the first n probes never meet. */
  lemma {:induction false} ProbesDiffer(h: nat, a: nat, b: nat, n: nat, k: nat)
    requires n == Pow2(k) && a < b < n
    ensures Probe(h, a, n) != Probe(h, b, n)
  {
    hide Pow2, Tri;
    GapProduct(a, b);
    if Probe(h, a, n) == Probe(h, b, n) {
      var q := SameRemainder(h + Tri(a), h + Tri(b), n);
      NoMeet(b - a, a + b + 1, n, k, q);
    }
  }

  lemma {:induction false} TriMono(a: nat, b: nat)
    requires a <= b
    ensures Tri(a) <= Tri(b)
  {
    if a < b { TriMono(a, b - 1); }
  }

  lemma {:induction false} SameRemainder(a: nat, b: nat, n: nat) returns (q: nat)
    requires n > 0 && a <= b && a % n == b % n
    ensures b - a == q * n
  {
    var qa, qb := a / n, b / n;
    assert a == qa * n + a % n && b == qb * n + b % n;
    assert b - a == (qb - qa) * n;
    assert qa <= qb;
    q := qb - qa;
  }

  ghost function Probed(h: nat, s: nat, n: nat): (r: set<nat>)
    requires n > 0
  {
    set t: nat | t < s :: Probe(h, t, n)
  }

  lemma {:induction false} ProbedCount(h: nat, s: nat, n: nat, k: nat)
    requires n == Pow2(k) && s <= n
    ensures |Probed(h, s, n)| == s
  {
    hide Probe;
    if s > 0 {
      ProbedCount(h, s - 1, n, k);
      var b := Probe(h, s - 1, n);
      forall t: nat | t < s - 1 ensures Probe(h, t, n) != b { ProbesDiffer(h, t, s - 1, n, k); }
      assert Probed(h, s, n) == Probed(h, s - 1, n) + {b};
    }
  }

  ghost function Below(n: nat): (r: set<nat>)
    ensures forall i: nat :: i in r <==> i < n
  {
    if n == 0 then {} else Below(n - 1) + {n - 1}
  }

  lemma {:induction false} BelowCount(n: nat)
    ensures |Below(n)| == n
  {
    if n > 0 {
      BelowCount(n - 1);
    }
  }

  lemma {:induction false} SubsetCount<T>(a: set<T>, b: set<T>)
    requires a <= b
    ensures |a| <= |b| && (|a| == |b| ==> a == b)
  {
    assert b == a + (b - a);
  }

  /** The first n probes reach every bucket. */
  lemma {:induction false} ProbesCover(h: nat, n: nat, k: nat, b: nat) returns (s: nat)
    requires n == Pow2(k) && b < n
    ensures s < n && Probe(h, s, n) == b
  {
    ProbedCount(h, n, n, k);
    BelowCount(n);
    SubsetCount(Probed(h, n, n), Below(n));
    assert b in Probed(h, n, n);
    s :| s < n && Probe(h, s, n) == b;
  }

  // ------------------------------------------------------------ tables

  /** The state of a bucket: empty, holding an entry, or marked deleted. */
  datatype Flag = Empty | Live | Dead

  /** Probe s of hash h is bucket b, and every earlier probe is occupied or marked. */
  ghost predicate ReachedBy(flags: seq<Flag>, h: nat, b: nat, s: nat) {
    && s < |flags| && Probe(h, s, |flags|) == b
    && forall t: nat :: t < s ==> flags[Probe(h, t, |flags|)] != Empty
  }

  ghost predicate Reached(flags: seq<Flag>, h: nat, b: nat) {
    exists s :: ReachedBy(flags, h, b, s)
  }

  /** The load limit, 0.77 n + 0.5 rounded down. */
  function Upper(n: nat): (u: nat)
    ensures -50 <= 100 * u - 77 * n <= 50
  {
    (77 * n + 50) / 100
  }

  ghost predicate Sized(n: nat) { n >= 4 && IsPow2(n) }

  ghost function Occupied(flags: seq<Flag>): set<nat> {
    set i: nat | i < |flags| && flags[i] != Empty
  }

  lemma {:induction false} SomeEmpty(flags: seq<Flag>)
    requires |Occupied(flags)| < |flags|
    ensures exists b :: 0 <= b < |flags| && flags[b] == Empty
  {
    hide Occupied;
    if forall b :: 0 <= b < |flags| ==> flags[b] != Empty { FullCount(flags); }
  }

  lemma {:induction false} FullCount(flags: seq<Flag>)
    requires forall b :: 0 <= b < |flags| ==> flags[b] != Empty
    ensures |Occupied(flags)| == |flags|
  {
    BelowCount(|flags|);
    assert Occupied(flags) == Below(|flags|);
  }

  /** Marking a bucket occupied keeps every bucket reached. */
  lemma {:induction false} ReachGrows(flags: seq<Flag>, i: nat, f: Flag, h: nat, b: nat)
    requires i < |flags| && f != Empty && Reached(flags, h, b)
    ensures Reached(flags[i := f], h, b)
  {
    hide Probe;
    var s :| ReachedBy(flags, h, b, s);
    assert ReachedBy(flags[i := f], h, b, s);
  }

  /** The first empty bucket of a probe sequence. */
  method FirstEmpty(flags: seq<Flag>, h: nat) returns (i: nat)
    requires IsPow2(|flags|) && |Occupied(flags)| < |flags|
    ensures i < |flags| && flags[i] == Empty && Reached(flags, h, i)
  {
    hide Probe, Occupied, And, Pow2;
    var n: nat := |flags|;
    SomeEmpty(flags);
    ghost var k: nat :| n == Pow2(k);
    ghost var b :| 0 <= b < n && flags[b] == Empty;
    ghost var e := ProbesCover(h, n, k, b);
    var step := 0;
    i := And(h, n - 1);
    FirstProbe(h, n, k);
    while flags[i] != Empty
      invariant step <= e && i == Probe(h, step, n)
      invariant forall t: nat :: t < step ==> flags[Probe(h, t, n)] != Empty
      decreases e - step
    {
      NextProbe(h, step, n, k);
      step := step + 1;
      i := And(i + step, n - 1);
    }
    assert ReachedBy(flags, h, i, step);
  }

  /** The source masks instead of dividing. */
  lemma {:induction false} FirstProbe(h: nat, n: nat, k: nat)
    requires n == Pow2(k)
    ensures And(h, n - 1) == Probe(h, 0, n)
  {
    MaskIsModulo(h, k);
  }

  lemma {:induction false} NextProbe(h: nat, s: nat, n: nat, k: nat)
    requires n == Pow2(k)
    ensures And(Probe(h, s, n) + (s + 1), n - 1) == Probe(h, s + 1, n)
  {
    hide Probe, And, Pow2;
    MaskIsModulo(Probe(h, s, n) + (s + 1), k);
    ProbeStep(h, s, n);
  }

  lemma {:induction false} ReachIs(flags: seq<Flag>, h: nat, b: nat, s: nat)
    requires ReachedBy(flags, h, b, s)
    ensures Reached(flags, h, b)
  {
  }

  // ------------------------------------------------------------ the table as a map

  /** The buckets hold exactly the keys of `at`, each in the bucket it names and reached by its
      probes. */
  ghost predicate Indexed<K>(hash: K -> nat, flags: seq<Flag>, keys: seq<K>, at: map<K, nat>) {
    && |keys| == |flags|
    && (forall i :: 0 <= i < |flags| && flags[i] == Live ==> keys[i] in at && at[keys[i]] == i)
    && (forall k :: k in at ==> at[k] < |flags| && flags[at[k]] == Live && keys[at[k]] == k)
    && (forall k :: k in at ==> Reached(flags, hash(k), at[k]))
  }

  /** A lookup that has passed probes 0..s without meeting the key, and now sees an empty
      bucket, proves the key absent. */
  lemma {:induction false} AbsentAtEmpty<K>(
      hash: K -> nat, flags: seq<Flag>, keys: seq<K>, at: map<K, nat>, key: K, s: nat)
    requires Indexed(hash, flags, keys, at) && s < |flags|
    requires flags[Probe(hash(key), s, |flags|)] == Empty
    requires forall t: nat :: t < s ==>
      !(flags[Probe(hash(key), t, |flags|)] == Live && keys[Probe(hash(key), t, |flags|)] == key)
    ensures key !in at
  {
    hide Probe;
  }

  lemma {:induction false} IndexedDelete<K>(hash: K -> nat, flags: seq<Flag>, keys: seq<K>, at: map<K, nat>, x: nat)
    requires Indexed(hash, flags, keys, at) && x < |flags| && flags[x] == Live
    ensures Indexed(hash, flags[x := Dead], keys, at - {keys[x]})
  {
    hide Reached;
    forall k | k in at ensures Reached(flags[x := Dead], hash(k), at[k]) { ReachGrows(flags, x, Dead, hash(k), at[k]); }
  }

  lemma {:induction false} IndexedInsert<K>(
      hash: K -> nat, flags: seq<Flag>, keys: seq<K>, at: map<K, nat>, x: nat, key: K)
    requires Indexed(hash, flags, keys, at) && x < |flags| && flags[x] != Live && key !in at
    requires Reached(flags, hash(key), x)
    ensures Indexed(hash, flags[x := Live], keys[x := key], at[key := x])
  {
    hide Reached;
    ReachGrows(flags, x, Live, hash(key), x);
    forall k | k in at ensures Reached(flags[x := Live], hash(k), at[k]) { ReachGrows(flags, x, Live, hash(k), at[k]); }
  }

  ghost function Contents<K, V>(at: map<K, nat>, vals: seq<V>): map<K, V>
    requires forall k :: k in at ==> at[k] < |vals|
  {
    map k | k in at :: vals[at[k]]
  }

  lemma {:induction false} ValuesCount<K>(at: map<K, nat>, keys: seq<K>)
    requires forall k :: k in at ==> at[k] < |keys| && keys[at[k]] == k
    ensures |at.Values| == |at|
  {
    if at.Keys != {} {
      var k :| k in at;
      var rest := at - {k};
      assert at.Keys == rest.Keys + {k};
      assert at.Values == rest.Values + {at[k]};
      assert at[k] !in rest.Values;
      ValuesCount(rest, keys);
    }
  }

  // ------------------------------------------------------------ moving entries to a new size

  /** Where an entry is while the table is rehashed in place. */
  datatype Place = Old(i: nat) | New(i: nat) | Hand

  datatype Held<K, V> = Nothing | Entry(key: K, val: V)

  /** The old and new flags share the key and value arrays; every entry of m is in exactly one
      place. */
  ghost predicate Placed<K, V>(m: map<K, V>, loc: map<K, Place>, flags: seq<Flag>, fresh': seq<Flag>,
                               keys: seq<K>, vals: seq<V>, hand: Held<K, V>) {
    && |keys| == |vals| && |flags| <= |keys| && |fresh'| <= |keys|
    && loc.Keys == m.Keys
    && (forall i :: 0 <= i < |flags| && flags[i] == Live ==>
        keys[i] in m && loc[keys[i]] == Old(i) && vals[i] == m[keys[i]])
    && (forall i :: 0 <= i < |fresh'| && fresh'[i] != Empty ==>
        keys[i] in m && loc[keys[i]] == New(i) && vals[i] == m[keys[i]])
    && (hand.Entry? ==> hand.key in m && loc[hand.key] == Hand && hand.val == m[hand.key])
    && (forall k :: k in m ==> Found(loc[k], k, flags, fresh', keys, hand))
  }

  ghost predicate Found<K, V>(p: Place, k: K, flags: seq<Flag>, fresh': seq<Flag>, keys: seq<K>, hand: Held<K, V>)
    requires |flags| <= |keys| && |fresh'| <= |keys|
  {
    match p
    case Old(i) => i < |flags| && flags[i] == Live && keys[i] == k
    case New(i) => i < |fresh'| && fresh'[i] == Live && keys[i] == k
    case Hand => hand.Entry? && hand.key == k
  }

  ghost predicate AllReached<K>(hash: K -> nat, fresh': seq<Flag>, keys: seq<K>) {
    && |fresh'| <= |keys|
    && forall i :: 0 <= i < |fresh'| && fresh'[i] != Empty ==> Reached(fresh', hash(keys[i]), i)
  }

  /** Taking the entry of old bucket j in hand. */
  lemma {:induction false} PickUp<K, V>(
      m: map<K, V>, loc: map<K, Place>, flags: seq<Flag>, fresh': seq<Flag>, keys: seq<K>, vals: seq<V>, j: nat)
    requires Placed(m, loc, flags, fresh', keys, vals, Nothing) && j < |flags| && flags[j] == Live
    ensures Placed(m, loc[keys[j] := Hand], flags[j := Dead], fresh', keys, vals, Entry(keys[j], vals[j]))
  {
  }

  /** Putting the entry in hand into an empty new bucket that holds no old entry. */
  lemma {:induction false} PutDown<K, V>(
      m: map<K, V>, loc: map<K, Place>, flags: seq<Flag>, fresh': seq<Flag>, keys: seq<K>, vals: seq<V>, key: K,
      val: V, i: nat)
    requires Placed(m, loc, flags, fresh', keys, vals, Entry(key, val)) && i < |fresh'| && fresh'[i] == Empty
    requires i < |flags| ==> flags[i] != Live
    ensures Placed(m, loc[key := New(i)], flags, fresh'[i := Live], keys[i := key], vals[i := val], Held<K, V>.Nothing)
  {
  }

  /** Putting it where an old entry sits and taking that one in hand instead. */
  lemma {:induction false} KickOut<K, V>(
      m: map<K, V>, loc: map<K, Place>, flags: seq<Flag>, fresh': seq<Flag>, keys: seq<K>, vals: seq<V>, key: K,
      val: V, i: nat)
    requires Placed(m, loc, flags, fresh', keys, vals, Entry(key, val)) && i < |fresh'| && fresh'[i] == Empty
    requires i < |flags| && flags[i] == Live
    ensures Placed(m, loc[key := New(i)][keys[i] := Hand], flags[i := Dead], fresh'[i := Live], keys[i := key],
      vals[i := val], Entry(keys[i], vals[i]))
  {
  }

  lemma {:induction false} ReachedStill<K>(hash: K -> nat, fresh': seq<Flag>, keys: seq<K>, key: K, i: nat)
    requires AllReached(hash, fresh', keys) && i < |fresh'| && fresh'[i] == Empty && Reached(fresh', hash(key), i)
    ensures AllReached(hash, fresh'[i := Live], keys[i := key])
  {
    hide Reached;
    ReachGrows(fresh', i, Live, hash(key), i);
    forall x | 0 <= x < |fresh'| && fresh'[x] != Empty ensures Reached(fresh'[i := Live], hash(keys[x]), x) {
      ReachGrows(fresh', i, Live, hash(keys[x]), x);
    }
  }

  /** Occupied new buckets hold different keys of m, so there are at most as many. */
  lemma {:induction false} OccupiedKeys<K>(fresh': seq<Flag>, keys: seq<K>, dom: set<K>)
    requires |fresh'| <= |keys|
    requires forall i :: 0 <= i < |fresh'| && fresh'[i] != Empty ==> keys[i] in dom
    requires forall i, j :: 0 <= i < j < |fresh'| && fresh'[i] != Empty && fresh'[j] != Empty ==> keys[i] != keys[j]
    ensures |Occupied(fresh')| <= |dom|
  {
    if |fresh'| == 0 {
      assert Occupied(fresh') == {};
    } else {
      var n := |fresh'| - 1;
      var init := fresh'[..n];
      if fresh'[n] == Empty {
        assert Occupied(fresh') == Occupied(init);
        OccupiedKeys(init, keys, dom);
      } else {
        assert Occupied(fresh') == Occupied(init) + {n};
        OccupiedKeys(init, keys, dom - {keys[n]});
      }
    }
  }

  lemma {:induction false} RoomLeft<K, V>(
      m: map<K, V>, loc: map<K, Place>, flags: seq<Flag>, fresh': seq<Flag>, keys: seq<K>, vals: seq<V>,
      hand: Held<K, V>)
    requires Placed(m, loc, flags, fresh', keys, vals, hand)
    ensures |Occupied(fresh')| <= |m|
  {
    OccupiedKeys(fresh', keys, m.Keys);
  }

  ghost function LiveSet(flags: seq<Flag>): set<nat> {
    set i: nat | i < |flags| && flags[i] == Live
  }

  lemma {:induction false} LiveShrinks(flags: seq<Flag>, i: nat)
    requires i < |flags| && flags[i] == Live
    ensures |LiveSet(flags[i := Dead])| < |LiveSet(flags)|
  {
    assert LiveSet(flags) == LiveSet(flags[i := Dead]) + {i};
  }

  /** Once nothing is left in the old buckets or in hand, the new flags index the map. */
  lemma {:induction false} Arrived<K, V>(
      hash: K -> nat, m: map<K, V>, loc: map<K, Place>, flags: seq<Flag>, fresh': seq<Flag>, keys: seq<K>,
      vals: seq<V>)
      returns (at: map<K, nat>)
    requires Placed(m, loc, flags, fresh', keys, vals, Held<K, V>.Nothing) && AllReached(hash, fresh', keys)
    requires forall i :: 0 <= i < |flags| ==> flags[i] != Live
    ensures Indexed(hash, fresh', keys[..|fresh'|], at) && at.Keys == m.Keys
    ensures Contents(at, vals[..|fresh'|]) == m
    ensures |Occupied(fresh')| == |at| && Unmarked(fresh')
  {
    hide Reached, Occupied, Placed;
    ArrivedAt(m, loc, flags, fresh', keys, vals);
    at := map k | k in m :: loc[k].i;
    forall k | k in at ensures Reached(fresh', hash(k), at[k]) { assert fresh'[at[k]] != Empty; }
    ArrivedCount(m, loc, fresh', keys, at);
    assert forall k :: k in at ==> vals[..|fresh'|][at[k]] == m[k] && keys[..|fresh'|][at[k]] == k;
  }

  /** With no live old bucket and nothing in hand every entry is in a new bucket. */
  lemma {:induction false} ArrivedAt<K, V>(
      m: map<K, V>, loc: map<K, Place>, flags: seq<Flag>, fresh': seq<Flag>, keys: seq<K>, vals: seq<V>)
    requires Placed(m, loc, flags, fresh', keys, vals, Held<K, V>.Nothing)
    requires forall i :: 0 <= i < |flags| ==> flags[i] != Live
    ensures |fresh'| <= |keys| == |vals| && loc.Keys == m.Keys
    ensures forall k :: k in m ==>
      && loc[k].New? && loc[k].i < |fresh'| && fresh'[loc[k].i] == Live
      && keys[loc[k].i] == k && vals[loc[k].i] == m[k]
    ensures forall i :: 0 <= i < |fresh'| && fresh'[i] != Empty ==>
      fresh'[i] == Live && keys[i] in m && loc[keys[i]] == New(i)
  {
    forall k | k in m ensures loc[k].New? && loc[k].i < |fresh'| && fresh'[loc[k].i] == Live && keys[loc[k].i] == k {
      assert Found(loc[k], k, flags, fresh', keys, Held<K, V>.Nothing);
    }
  }

  /** No bucket is marked deleted. */
  ghost predicate Unmarked(flags: seq<Flag>) { forall i :: 0 <= i < |flags| ==> flags[i] != Dead }

  lemma {:induction false} ArrivedCount<K, V>(
      m: map<K, V>, loc: map<K, Place>, fresh': seq<Flag>, keys: seq<K>, at: map<K, nat>)
    requires |fresh'| <= |keys| && at.Keys == m.Keys
    requires forall k :: k in at ==> at[k] < |fresh'| && fresh'[at[k]] == Live && keys[at[k]] == k
    requires forall i :: 0 <= i < |fresh'| && fresh'[i] != Empty ==> keys[i] in at && at[keys[i]] == i
    ensures |Occupied(fresh')| == |at|
  {
    ValuesCount(at, keys);
    assert Occupied(fresh') == at.Values;
  }

  /** The least power of two that is at least x. */
  function RoundUp(x: nat, p: nat): (r: nat)
    requires p >= 1
    ensures r >= x && r >= p && (r == p || r < 2 * x)
    decreases if x > p then x - p else 0
  {
    if p >= x then p else RoundUp(x, 2 * p)
  }

  lemma {:induction false} RoundUpIsPow2(x: nat, p: nat)
    requires p >= 1 && IsPow2(p)
    ensures IsPow2(RoundUp(x, p))
    decreases if x > p then x - p else 0
  {
    if p < x {
      var k: nat :| p == Pow2(k);
      assert 2 * p == Pow2(k + 1);
      RoundUpIsPow2(x, 2 * p);
    }
  }

  /** Between a power of two and its double there is no other. */
  lemma {:induction false} RoundUpExact(n: nat)
    requires Sized(n)
    ensures RoundUp(n - 1, 1) == n && RoundUp(n + 1, 1) == 2 * n
  {
    var k: nat :| n == Pow2(k);
    RoundUpFrom(n - 1, 0, k);
    RoundUpFrom(n + 1, 0, k + 1);
  }

  lemma {:induction false} RoundUpFrom(x: nat, a: nat, k: nat)
    requires a <= k && x <= Pow2(k) && (k > 0 ==> Pow2(k - 1) < x)
    ensures RoundUp(x, Pow2(a)) == Pow2(k)
    decreases k - a
  {
    if a < k {
      Pow2Order(a, k);
      if a < k - 1 { Pow2Mono(a, k - 1); }
      assert Pow2(a) < x;
      assert Pow2(a + 1) == 2 * Pow2(a);
      RoundUpFrom(x, a + 1, k);
    }
  }

  method Resized<T(0)>(s: seq<T>, n: nat) returns (t: seq<T>)
    ensures |t| == (if n > |s| then n else |s|) && t[..|s|] == s
  {
    t := s;
    if n > |s| {
      var filler: T := *;
      t := s + seq(n - |s|, i => filler);
    }
  }

  class Table<K(0, ==), V(0)> {
    const hash: K -> nat
    var flags: seq<Flag>
    var keys: seq<K>
    var vals: seq<V>
    var size: nat
    var occupied: nat
    var upper: nat
    ghost var at: map<K, nat>

    ghost predicate Valid() reads this {
      && |keys| == |vals| == |flags|
      && Indexed(hash, flags, keys, at)
      && size == |at| && occupied == |Occupied(flags)| && occupied <= upper
      && (if flags == [] then upper == 0 else Sized(|flags|) && upper == Upper(|flags|))
    }

    /** The map the table stands for. */
    ghost function Model(): map<K, V>
      requires Valid()
      reads this
    {
      Contents(at, vals)
    }

    constructor (hash: K -> nat)
      ensures Valid() && Model() == map[] && this.hash == hash
    {
      this.hash := hash;
      flags, keys, vals, size, occupied, upper, at := [], [], [], 0, 0, 0, map[];
    }

    /** kh_get: the bucket of a present key, otherwise the number of buckets. */
    method Get(key: K) returns (x: nat)
      requires Valid()
      ensures x == if key in at then at[key] else |flags|
      ensures key in Model() <==> x < |flags|
      ensures key in Model() ==> keys[x] == key && vals[x] == Model()[key]
    {
      hide Probe, Occupied, Indexed, And, Pow2, Contents;
      IndexedFacts(hash, flags, keys, at);
      ContentsAt(at, vals);
      var n: nat := |flags|;
      if n == 0 { return 0; }
      var h := hash(key);
      SomeEmpty(flags);
      ghost var k: nat :| n == Pow2(k);
      ghost var b :| 0 <= b < n && flags[b] == Empty;
      ghost var e := ProbesCover(h, n, k, b);
      var step := 0;
      var i := And(h, n - 1);
      FirstProbe(h, n, k);
      var last := i;
      while flags[i] != Empty && (flags[i] == Dead || keys[i] != key)
        invariant step <= e && i == Probe(h, step, n)
        invariant forall t: nat :: t < step ==> flags[Probe(h, t, n)] != Empty
        invariant forall t: nat :: t < step ==> !(flags[Probe(h, t, n)] == Live && keys[Probe(h, t, n)] == key)
        decreases e - step
      {
        NextProbe(h, step, n, k);
        step := step + 1;
        i := And(i + step, n - 1);
        ProbesDiffer(h, 0, step, n, k);
        if i == last { assert false; return n; }
      }
      if flags[i] == Empty {
        AbsentAtEmpty(hash, flags, keys, at, key, step);
        return n;
      }
      return i;
    }

    /** kh_del: removes the entry of a live bucket and nothing else. */
    method Del(x: nat)
      requires Valid() && x <= |flags|
      modifies this
      ensures Valid()
      ensures Model() == if x < |old(flags)| && old(flags)[x] == Live then old(Model()) - {old(keys)[x]}
        else old(Model())
      ensures |flags| == |old(flags)|
    {
      if x != |flags| && flags[x] == Live {
        IndexedDelete(hash, flags, keys, at, x);
        IndexedFacts(hash, flags, keys, at);
        OccupiedStays(flags, x);
        ContentsRemove(at, vals, keys[x]);
        hide Indexed, Occupied, Upper, Contents;
        at := at - {keys[x]};
        flags := flags[x := Dead];
        size := size - 1;
      }
    }

    /** The kick-out process for one entry in hand. */
    method MoveEntry(key0: K, val0: V, fresh0: seq<Flag>, ghost m: map<K, V>, ghost loc0: map<K, Place>)
        returns (fresh': seq<Flag>, ghost loc: map<K, Place>)
      requires Placed(m, loc0, flags, fresh0, keys, vals, Entry(key0, val0)) && AllReached(hash, fresh0, keys)
      requires IsPow2(|fresh0|) && |m| < |fresh0|
      modifies this`flags, this`keys, this`vals
      ensures Placed(m, loc, flags, fresh', keys, vals, Held<K, V>.Nothing) && AllReached(hash, fresh', keys)
      ensures |fresh'| == |fresh0| && |flags| == |old(flags)| && |keys| == |old(keys)|
      ensures forall i :: 0 <= i < |flags| && old(flags)[i] != Live ==> flags[i] != Live
    {
      hide Placed, AllReached, Occupied, Reached, IsPow2;
      var key, val := key0, val0;
      fresh', loc := fresh0, loc0;
      while true
        invariant |fresh'| == |fresh0| && |flags| == |old(flags)| && |keys| == |old(keys)|
        invariant Placed(m, loc, flags, fresh', keys, vals, Entry(key, val)) && AllReached(hash, fresh', keys)
        invariant forall i :: 0 <= i < |flags| && old(flags)[i] != Live ==> flags[i] != Live
        decreases |LiveSet(flags)|
      {
        RoomLeft(m, loc, flags, fresh', keys, vals, Entry(key, val));
        PlacedSizes(m, loc, flags, fresh', keys, vals, Entry(key, val));
        var i := FirstEmpty(fresh', hash(key));
        ReachedStill(hash, fresh', keys, key, i);
        if i < |flags| && flags[i] == Live {
          KickOut(m, loc, flags, fresh', keys, vals, key, val, i);
          LiveShrinks(flags, i);
          loc := loc[key := New(i)][keys[i] := Hand];
          var key', val' := keys[i], vals[i];
          keys, vals := keys[i := key], vals[i := val];
          key, val := key', val';
          fresh' := fresh'[i := Live];
          flags := flags[i := Dead];
        } else {
          PutDown(m, loc, flags, fresh', keys, vals, key, val, i);
          loc := loc[key := New(i)];
          keys, vals := keys[i := key], vals[i := val];
          fresh' := fresh'[i := Live];
          return;
        }
      }
    }

    /** The pass over the old buckets: afterwards every entry is in a new one. */
    method MoveAll(fresh0: seq<Flag>, ghost m: map<K, V>, ghost loc0: map<K, Place>)
        returns (fresh': seq<Flag>, ghost loc: map<K, Place>)
      requires Placed(m, loc0, flags, fresh0, keys, vals, Held<K, V>.Nothing) && AllReached(hash, fresh0, keys)
      requires IsPow2(|fresh0|) && |m| < |fresh0|
      modifies this`flags, this`keys, this`vals
      ensures Placed(m, loc, flags, fresh', keys, vals, Held<K, V>.Nothing) && AllReached(hash, fresh', keys)
      ensures |fresh'| == |fresh0| && |keys| == |old(keys)|
      ensures forall i :: 0 <= i < |flags| ==> flags[i] != Live
    {
      hide Placed, AllReached, Reached, IsPow2;
      fresh', loc := fresh0, loc0;
      var n, j := |flags|, 0;
      while j != n
        invariant 0 <= j <= n == |flags| && |fresh'| == |fresh0| && |keys| == |old(keys)|
        invariant Placed(m, loc, flags, fresh', keys, vals, Held<K, V>.Nothing) && AllReached(hash, fresh', keys)
        invariant forall i :: 0 <= i < j ==> flags[i] != Live
      {
        PlacedSizes(m, loc, flags, fresh', keys, vals, Held<K, V>.Nothing);
        if flags[j] == Live {
          PickUp(m, loc, flags, fresh', keys, vals, j);
          loc := loc[keys[j] := Hand];
          flags := flags[j := Dead];
          fresh', loc := MoveEntry(keys[j], vals[j], fresh', m, loc);
        }
        j := j + 1;
      }
    }

    /** Fresh flags for n buckets, and arrays long enough for both sizes. */
    method Spread(n: nat) returns (fresh': seq<Flag>, ghost loc: map<K, Place>)
      requires Valid()
      modifies this`keys, this`vals
      ensures Placed(old(Model()), loc, flags, fresh', keys, vals, Held<K, V>.Nothing) && AllReached(hash, fresh', keys)
      ensures |fresh'| == n && |keys| == (if n > |flags| then n else |flags|) && |old(Model())| == size
    {
      hide Placed, AllReached, Reached, Occupied, Indexed, IsPow2, Upper, Contents;
      IndexedFacts(hash, flags, keys, at);
      loc := StartPlaces(Model(), at, vals);
      fresh' := seq(n, i => Empty);
      var keys' := Resized(keys, n);
      var vals' := Resized(vals, n);
      StartMoving(hash, flags, fresh', keys, vals, keys', vals', at, Model(), loc);
      keys, vals := keys', vals';
    }

    /** Rehashes into n buckets, reusing the arrays: every entry survives. */
    method Rehash(n: nat)
      requires Valid() && Sized(n) && size < Upper(n)
      modifies this
      ensures Valid() && Model() == old(Model())
      ensures |flags| == n && occupied == size == old(size) && Unmarked(flags)
    {
      hide Placed, Unmarked, AllReached, Reached, Occupied, Indexed, IsPow2, Upper, Contents;
      ghost var m := Model();
      UpperBelow(n);
      var fresh', loc := Spread(n);
      fresh', loc := MoveAll(fresh', m, loc);
      PlacedSizes(m, loc, flags, fresh', keys, vals, Held<K, V>.Nothing);
      at := Arrived(hash, m, loc, flags, fresh', keys, vals);
      ModelSize(m, at);
      keys, vals := keys[..n], vals[..n];
      flags := fresh';
      occupied := size;
      upper := Upper(n);
    }

    /** kh_resize: false only when memory runs out. */
    method Resize(request: nat, memory: bool) returns (ok: bool)
      requires Valid()
      modifies this
      ensures Valid() && Model() == old(Model()) && size == old(size)
      ensures var n := RoundedSize(request);
        if old(size) < Upper(n) && memory then ok && |flags| == n && occupied == size && Unmarked(flags)
        else
          && ok == (old(size) >= Upper(n)) && at == old(at) && flags == old(flags) && keys == old(keys)
          && vals == old(vals) && occupied == old(occupied) && upper == old(upper)
    {
      var n := RoundedSize(request);
      if size >= Upper(n) { return true; }
      if !memory { return false; }
      RoundedIsSized(request);
      Rehash(n);
      return true;
    }

    /** The bucket kh_put chooses for the key, given a table with an empty bucket: the key's own
        when it is present, else the last mark passed or the first empty bucket. */
    method PutSite(key: K) returns (x: nat)
      requires Valid() && flags != []
      ensures x < |flags|
      ensures key in at ==> x == at[key]
      ensures key !in at ==> flags[x] != Live && Reached(flags, hash(key), x)
    {
      hide Probe, Occupied, Indexed, And, Pow2, Reached;
      IndexedFacts(hash, flags, keys, at);
      var n: nat := |flags|;
      var h := hash(key);
      SomeEmpty(flags);
      ghost var k: nat :| n == Pow2(k);
      ghost var b :| 0 <= b < n && flags[b] == Empty;
      ghost var e := ProbesCover(h, n, k, b);
      var step := 0;
      var i := And(h, n - 1);
      FirstProbe(h, n, k);
      if flags[i] == Empty {
        AbsentAtEmpty(hash, flags, keys, at, key, 0);
        ReachIs(flags, h, i, 0);
        return i;
      }
      var last: nat, site: nat := i, n;
      while flags[i] != Empty && (flags[i] == Dead || keys[i] != key)
        invariant step <= e && i == Probe(h, step, n)
        invariant forall t: nat :: t < step ==> flags[Probe(h, t, n)] != Empty
        invariant forall t: nat :: t < step ==> !(flags[Probe(h, t, n)] == Live && keys[Probe(h, t, n)] == key)
        invariant site == n || (site < n && flags[site] == Dead && Reached(flags, h, site))
        decreases e - step
      {
        if flags[i] == Dead {
          ReachIs(flags, h, i, step);
          site := i;
        }
        NextProbe(h, step, n, k);
        step := step + 1;
        i := And(i + step, n - 1);
        ProbesDiffer(h, 0, step, n, k);
        if i == last { assert false; return site; }
      }
      if flags[i] == Empty {
        AbsentAtEmpty(hash, flags, keys, at, key, step);
        ReachIs(flags, h, i, step);
        return if site != n then site else i;
      }
      return i;
    }

    /** The first part of kh_put: room for one more entry, or memory ran out. */
    method MakeRoom(memory: bool) returns (ok: bool)
      requires Valid()
      modifies this
      ensures Valid() && Model() == old(Model())
      ensures ok ==> flags != [] && occupied < upper
      ensures !ok ==> !memory
      ensures if old(occupied) < old(upper) then ok && flags == old(flags)
        else ok ==> Unmarked(flags) && |flags| == Grown(|old(flags)|, old(size))
    {
      hide Unmarked, Reached, Occupied, Indexed, Contents, Upper, RoundedSize;
      ok := true;
      if occupied >= upper {
        EntriesFit(hash, flags, keys, at);
        UpperFits(|flags|, size);
        var request: nat := if |flags| > 2 * size then |flags| - 1 else |flags| + 1;
        RoundedIsSized(request);
        GrownIs(|flags|, size);
        ok := Resize(request, memory);
      }
    }

    /** kh_put: afterwards the key is present in the returned bucket, and no other entry has
        changed; 0 for a present key, 1 for an empty bucket, 2 for a marked one, -1 when memory
        runs out. The value of a new key is whatever the bucket held. */
    method Put(key: K, memory: bool) returns (x: nat, ret: int)
      requires Valid()
      modifies this
      ensures Valid()
      ensures ret == -1 ==> !memory && Model() == old(Model()) && x == |flags|
      ensures ret != -1 ==> x < |flags| && flags[x] == Live && keys[x] == key && ret in {0, 1, 2}
      ensures ret != -1 ==> Model() == old(Model())[key := vals[x]]
      ensures ret != -1 ==> (ret == 0 <==> key in old(Model()))
      ensures old(occupied) < old(upper) ==> ret != -1 && x < |old(flags)| && flags == old(flags)[x := Live]
      ensures old(occupied) < old(upper) ==>
        ret == match old(flags)[x] case Live => 0 case Empty => 1 case Dead => 2
      ensures old(occupied) >= old(upper) ==> ret in {-1, 0, 1} && (ret != -1 ==> Unmarked(flags))
      ensures old(occupied) >= old(upper) && ret != -1 ==> |flags| == Grown(|old(flags)|, old(size))
    {
      hide Reached, Occupied, Indexed, Upper, Contents;
      var ok := MakeRoom(memory);
      if !ok { return |flags|, -1; }
      x := PutSite(key);
      IndexedFacts(hash, flags, keys, at);
      ContentsAt(at, vals);
      ghost var m := Model();
      if flags[x] == Live {
        assert m == m[key := vals[x]];
        assert flags == flags[x := Live];
        return x, 0;
      }
      ret := Occupy(key, x);
    }

    /** A new key in a bucket that is not live. */
    method Occupy(key: K, x: nat) returns (ret: int)
      requires Valid() && x < |flags| && flags[x] != Live && key !in at && occupied < upper
      requires Reached(flags, hash(key), x)
      modifies this
      ensures flags == old(flags)[x := Live] && keys == old(keys)[x := key] && vals == old(vals)
      ensures Valid() && Model() == old(Model())[key := old(vals)[x]]
      ensures ret == if old(flags)[x] == Empty then 1 else 2
    {
      hide Reached, Occupied, Indexed, Upper, Contents;
      IndexedFacts(hash, flags, keys, at);
      IndexedInsert(hash, flags, keys, at, x, key);
      OccupiedGrows(flags, x);
      ContentsInsert(at, vals, key, x);
      ret := if flags[x] == Empty then 1 else 2;
      if flags[x] == Empty { occupied := occupied + 1; }
      at := at[key := x];
      keys := keys[x := key];
      flags := flags[x := Live];
      size := size + 1;
    }

    /** Put followed by storing the value, as every map user does. */
    method Store(key: K, val: V) returns (x: nat)
      requires Valid()
      modifies this
      ensures Valid() && Model() == old(Model())[key := val]
    {
      hide Indexed, Occupied, Upper, Unmarked, Contents;
      var ret;
      x, ret := Put(key, true);
      IndexedFacts(hash, flags, keys, at);
      ContentsStore(at, flags, keys, vals, key, x, val);
      vals := vals[x := val];
    }
  }

  function RoundedSize(request: nat): nat {
    var n := RoundUp(request, 1); if n < 4 then 4 else n
  }

  lemma {:induction false} RoundedIsSized(request: nat)
    ensures Sized(RoundedSize(request))
  {
    assert Pow2(0) == 1 && Pow2(1) == 2 && Pow2(2) == 4;
    RoundUpIsPow2(request, 1);
  }

  /** The buckets of a full table after kh_put made room: as many as before if fewer than half hold an
      entry, and otherwise twice as many, but at least four. */
  function Grown(n: nat, size: nat): nat {
    if n == 0 then 4 else if 2 * size < n then n else 2 * n
  }

  lemma {:induction false} GrownIs(n: nat, size: nat)
    requires n == 0 || Sized(n)
    requires n == 0 ==> size == 0
    ensures RoundedSize(if n > 2 * size then n - 1 else n + 1) == Grown(n, size)
  {
    if n > 0 { RoundUpExact(n); }
  }

  lemma {:induction false} UpperBelow(n: nat)
    requires n >= 4
    ensures Upper(n) < n
  {
  }

  /** Whichever way kh_put resizes, the new limit exceeds the number of entries. */
  lemma {:induction false} UpperFits(n: nat, size: nat)
    requires n == 0 || Sized(n)
    requires n == 0 ==> size == 0
    requires n > 0 ==> size <= Upper(n)
    ensures size < Upper(RoundedSize(if n > 2 * size then n - 1 else n + 1))
  {
    if n > 0 { RoundUpExact(n); }
  }

  lemma {:induction false} ModelSize<K, V>(m: map<K, V>, at: map<K, nat>)
    requires m.Keys == at.Keys
    ensures |m| == |at|
  {
    assert |m| == |m.Keys| && |at| == |at.Keys|;
  }

  lemma {:induction false} IndexedFacts<K>(hash: K -> nat, flags: seq<Flag>, keys: seq<K>, at: map<K, nat>)
    requires Indexed(hash, flags, keys, at)
    ensures |keys| == |flags|
    ensures forall k :: k in at ==> at[k] < |flags| && flags[at[k]] == Live && keys[at[k]] == k
    ensures forall i :: 0 <= i < |flags| && flags[i] == Live ==> keys[i] in at && at[keys[i]] == i
  {
    hide Reached;
  }

  lemma {:induction false} ContentsAt<K, V>(at: map<K, nat>, vals: seq<V>)
    requires forall k :: k in at ==> at[k] < |vals|
    ensures var m := Contents(at, vals); m.Keys == at.Keys && forall k :: k in at ==> m[k] == vals[at[k]]
  {
  }

  lemma {:induction false} ContentsInsert<K, V>(at: map<K, nat>, vals: seq<V>, key: K, x: nat)
    requires x < |vals| && key !in at && forall k :: k in at ==> at[k] < |vals|
    ensures Contents(at[key := x], vals) == Contents(at, vals)[key := vals[x]] && |at[key := x]| == |at| + 1
  {
  }

  lemma {:induction false} ContentsStore<K, V>(
      at: map<K, nat>, flags: seq<Flag>, keys: seq<K>, vals: seq<V>, key: K, x: nat, val: V)
    requires |keys| == |flags| == |vals| && x < |flags| && flags[x] == Live && keys[x] == key
    requires forall k :: k in at ==> at[k] < |flags| && flags[at[k]] == Live && keys[at[k]] == k
    requires forall i :: 0 <= i < |flags| && flags[i] == Live ==> keys[i] in at && at[keys[i]] == i
    ensures Contents(at, vals[x := val]) == Contents(at, vals)[key := val]
  {
    assert forall k :: k in at && k != key ==> at[k] != x;
  }

  lemma {:induction false} ContentsRemove<K, V>(at: map<K, nat>, vals: seq<V>, key: K)
    requires key in at && forall k :: k in at ==> at[k] < |vals|
    ensures Contents(at - {key}, vals) == Contents(at, vals) - {key} && |at - {key}| == |at| - 1
  {
    assert at.Keys == (at - {key}).Keys + {key};
  }

  lemma {:induction false} EntriesFit<K>(hash: K -> nat, flags: seq<Flag>, keys: seq<K>, at: map<K, nat>)
    requires Indexed(hash, flags, keys, at)
    ensures |at| <= |Occupied(flags)| <= |flags|
  {
    hide Reached;
    ValuesCount(at, keys);
    SubsetCount(at.Values, Occupied(flags));
    BelowCount(|flags|);
    SubsetCount(Occupied(flags), Below(|flags|));
  }

  lemma {:induction false} StartPlaces<K, V>(m: map<K, V>, at: map<K, nat>, vals: seq<V>) returns (loc: map<K, Place>)
    requires forall k :: k in at ==> at[k] < |vals|
    requires m == Contents(at, vals)
    ensures loc.Keys == m.Keys == at.Keys && |m| == |at| && forall k :: k in loc ==> loc[k] == Old(at[k])
  {
    loc := map k | k in at :: Old(at[k]);
    ModelSize(m, at);
  }

  lemma {:induction false} OccupiedStays(flags: seq<Flag>, x: nat)
    requires x < |flags| && flags[x] == Live
    ensures Occupied(flags[x := Dead]) == Occupied(flags)
  {
  }

  lemma {:induction false} OccupiedGrows(flags: seq<Flag>, x: nat)
    requires x < |flags| && flags[x] != Live
    ensures |Occupied(flags[x := Live])| == |Occupied(flags)| + (if flags[x] == Empty then 1 else 0)
  {
    if flags[x] == Empty {
      assert Occupied(flags[x := Live]) == Occupied(flags) + {x};
    } else {
      assert Occupied(flags[x := Live]) == Occupied(flags);
    }
  }

  /** Before the first move everything is in its old bucket. */
  lemma {:induction false} StartMoving<K, V>(
      hash: K -> nat, flags: seq<Flag>, fresh': seq<Flag>, keys: seq<K>, vals: seq<V>, keys': seq<K>, vals': seq<V>,
      at: map<K, nat>, m: map<K, V>, loc: map<K, Place>)
    requires |keys| == |vals| == |flags| && Indexed(hash, flags, keys, at) && m == Contents(at, vals)
    requires |keys'| == |vals'| >= |keys| && keys'[..|keys|] == keys && vals'[..|vals|] == vals
    requires |fresh'| <= |keys'| && forall i :: 0 <= i < |fresh'| ==> fresh'[i] == Empty
    requires loc.Keys == m.Keys && forall k :: k in loc ==> loc[k] == Old(at[k])
    ensures Placed(m, loc, flags, fresh', keys', vals', Held<K, V>.Nothing) && AllReached(hash, fresh', keys')
  {
    hide Reached;
    assert forall i :: 0 <= i < |keys| ==> keys'[i] == keys[i] && vals'[i] == vals[i];
  }

  lemma {:induction false} PlacedSizes<K, V>(
      m: map<K, V>, loc: map<K, Place>, flags: seq<Flag>, fresh': seq<Flag>, keys: seq<K>, vals: seq<V>,
      hand: Held<K, V>)
    requires Placed(m, loc, flags, fresh', keys, vals, hand)
    ensures |keys| == |vals| && |flags| <= |keys| && |fresh'| <= |keys|
  {
  }
}
