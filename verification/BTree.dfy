/** The B-tree (deps/klib/kbtree.h), on values: a node holds its keys and, unless it is a leaf,
    one child more than keys. Splitting, borrowing and merging only regroup the in-order
    sequence; putting and deleting change it at one place. */
module BTree {
  import opened Sequences

  datatype Node = Node(keys: seq<int>, kids: seq<Node>)

  ghost predicate Branches(x: Node) { |x.kids| == |x.keys| + 1 }

  /** The keys of a subtree in order. */
  ghost function InOrder(x: Node): seq<int>
    decreases x, |x.keys| + 1
  {
    if Branches(x) then Left(x, |x.keys|) + InOrder(x.kids[|x.keys|]) else x.keys
  }

  /** What lies before child i. */
  ghost function Left(x: Node, i: nat): seq<int>
    requires Branches(x) && i <= |x.keys|
    decreases x, i
  {
    if i == 0 then [] else Left(x, i - 1) + InOrder(x.kids[i - 1]) + [x.keys[i - 1]]
  }

  /** What lies behind child i. */
  ghost function Right(x: Node, i: nat): seq<int>
    requires Branches(x) && i <= |x.keys|
    decreases x, |x.keys| - i
  {
    if i == |x.keys| then [] else [x.keys[i]] + InOrder(x.kids[i + 1]) + Right(x, i + 1)
  }

  /** Depth d below, between lo and hi keys here and between t - 1 and 2t - 1 in every node
      underneath; all leaves are at the same depth. */
  ghost predicate Shape(x: Node, t: nat, d: nat, lo: int, hi: int)
    decreases d
  {
    && lo <= |x.keys| <= hi
    && (if d == 0 then x.kids == []
        else Branches(x) && forall i :: 0 <= i < |x.kids| ==> Shape(x.kids[i], t, d - 1, t - 1, 2 * t - 1))
  }

  ghost predicate Sorted(s: seq<int>) { forall i, j :: 0 <= i < j < |s| ==> s[i] <= s[j] }

  // ------------------------------------------------------------ regrouping

  /** The in-order sequence around child i. */
  lemma {:induction false} Focus(x: Node, i: nat)
    requires Branches(x) && i <= |x.keys|
    ensures InOrder(x) == Left(x, i) + InOrder(x.kids[i]) + Right(x, i)
    decreases |x.keys| - i
  {
    if i < |x.keys| {
      Focus(x, i + 1);
    }
  }

  /** The in-order sequence around key i and its two children. */
  lemma {:induction false} FocusPair(x: Node, i: nat)
    requires Branches(x) && i < |x.keys|
    ensures InOrder(x) == Left(x, i) + (InOrder(x.kids[i]) + [x.keys[i]] + InOrder(x.kids[i + 1])) + Right(x, i + 1)
  {
    Focus(x, i);
  }

  lemma {:induction false} LeftSame(x: Node, y: Node, i: nat)
    requires Branches(x) && Branches(y) && i <= |x.keys| && i <= |y.keys|
    requires x.keys[..i] == y.keys[..i] && x.kids[..i] == y.kids[..i]
    ensures Left(x, i) == Left(y, i)
    decreases i
  {
    if i > 0 {
      assert x.keys[..i - 1] == x.keys[..i][..i - 1] && x.kids[..i - 1] == x.kids[..i][..i - 1];
      assert y.keys[..i - 1] == y.keys[..i][..i - 1] && y.kids[..i - 1] == y.kids[..i][..i - 1];
      assert x.keys[i - 1] == x.keys[..i][i - 1] && y.keys[i - 1] == y.keys[..i][i - 1];
      assert x.kids[i - 1] == x.kids[..i][i - 1] && y.kids[i - 1] == y.kids[..i][i - 1];
      LeftSame(x, y, i - 1);
    }
  }

  lemma {:induction false} RightSame(x: Node, i: nat, y: Node, j: nat)
    requires Branches(x) && Branches(y) && i <= |x.keys| && j <= |y.keys|
    requires x.keys[i..] == y.keys[j..] && x.kids[i + 1..] == y.kids[j + 1..]
    ensures Right(x, i) == Right(y, j)
    decreases |x.keys| - i
  {
    assert |x.keys[i..]| == |x.keys| - i && |y.keys[j..]| == |y.keys| - j;
    if i < |x.keys| {
      assert x.keys[i] == x.keys[i..][0] && y.keys[j] == y.keys[j..][0];
      assert x.kids[i + 1] == x.kids[i + 1..][0] && y.kids[j + 1] == y.kids[j + 1..][0];
      assert x.keys[i + 1..] == x.keys[i..][1..] && y.keys[j + 1..] == y.keys[j..][1..];
      assert x.kids[i + 2..] == x.kids[i + 1..][1..] && y.kids[j + 2..] == y.kids[j + 1..][1..];
      RightSame(x, i + 1, y, j + 1);
    }
  }

  /** Two nodes of the same height joined around a key. */
  function Cat(y: Node, m: int, z: Node): Node { Node(y.keys + [m] + z.keys, y.kids + z.kids) }

  ghost predicate Alike(y: Node, z: Node) {
    (y.kids == [] && z.kids == []) || (Branches(y) && Branches(z))
  }

  lemma {:induction false} CatInOrder(y: Node, m: int, z: Node)
    requires Alike(y, z)
    ensures InOrder(Cat(y, m, z)) == InOrder(y) + [m] + InOrder(z)
  {
    if y.kids == [] {
      LeafInOrder(y); LeafInOrder(z); LeafInOrder(Cat(y, m, z));
    } else {
      CatBranches(y, m, z);
    }
  }

  lemma {:induction false} LeafInOrder(x: Node)
    requires x.kids == []
    ensures InOrder(x) == x.keys
  {
  }

  lemma {:induction false} CatBranches(y: Node, m: int, z: Node)
    requires Branches(y) && Branches(z)
    ensures InOrder(Cat(y, m, z)) == InOrder(y) + [m] + InOrder(z)
  {
    hide InOrder, Left, Right;
    var x := Cat(y, m, z);
    var n := |y.keys|;
    FocusPair(x, n);
    assert x.keys[..n] == y.keys[..n] && x.kids[..n] == y.kids[..n];
    LeftSame(x, y, n);
    Focus(z, 0);
    Focus(y, n);
    Ends(y); Ends(z);
    assert x.keys[n + 1..] == z.keys[0..] && x.kids[n + 2..] == z.kids[1..];
    RightSame(x, n + 1, z, 0);
    assert x.kids[n] == y.kids[n] && x.kids[n + 1] == z.kids[0];
  }

  lemma {:induction false} Ends(x: Node)
    requires Branches(x)
    ensures Left(x, 0) == [] && Right(x, |x.keys|) == []
  {
  }

  /** Replaces children i and i + 1 and the key between them. */
  function WithPair(x: Node, i: nat, y: Node, m: int, z: Node): Node
    requires |x.kids| == |x.keys| + 1 && i < |x.keys|
  {
    Node(x.keys[i := m], x.kids[i := y][i + 1 := z])
  }

  lemma {:induction false} WithPairInOrder(x: Node, i: nat, y: Node, m: int, z: Node)
    requires Branches(x) && i < |x.keys|
    ensures InOrder(WithPair(x, i, y, m, z)) == Left(x, i) + (InOrder(y) + [m] + InOrder(z)) + Right(x, i + 1)
  {
    hide InOrder, Left, Right;
    var x' := WithPair(x, i, y, m, z);
    FocusPair(x', i);
    assert x'.keys[..i] == x.keys[..i] && x'.kids[..i] == x.kids[..i];
    assert x'.keys[i + 1..] == x.keys[i + 1..] && x'.kids[i + 2..] == x.kids[i + 2..];
    LeftSame(x', x, i);
    RightSame(x', i + 1, x, i + 1);
  }

  /** Replaces children i and i + 1 and the key between them by one child. */
  function WithOne(x: Node, i: nat, y: Node): Node
    requires |x.kids| == |x.keys| + 1 && i < |x.keys|
  {
    Node(x.keys[..i] + x.keys[i + 1..], x.kids[..i] + [y] + x.kids[i + 2..])
  }

  lemma {:induction false} WithOneInOrder(x: Node, i: nat, y: Node)
    requires Branches(x) && i < |x.keys|
    ensures InOrder(WithOne(x, i, y)) == Left(x, i) + InOrder(y) + Right(x, i + 1)
  {
    hide InOrder, Left, Right;
    var x' := WithOne(x, i, y);
    Focus(x', i);
    assert x'.keys[..i] == x.keys[..i] && x'.kids[..i] == x.kids[..i];
    assert x'.keys[i..] == x.keys[i + 1..] && x'.kids[i + 1..] == x.kids[i + 2..];
    LeftSame(x', x, i);
    RightSame(x', i, x, i + 1);
  }

  /** Replaces child i by two children and a key between them. */
  function WithTwo(x: Node, i: nat, y: Node, m: int, z: Node): Node
    requires |x.kids| == |x.keys| + 1 && i <= |x.keys|
  {
    Node(x.keys[..i] + [m] + x.keys[i..], x.kids[..i] + [y, z] + x.kids[i + 1..])
  }

  lemma {:induction false} WithTwoInOrder(x: Node, i: nat, y: Node, m: int, z: Node)
    requires Branches(x) && i <= |x.keys|
    ensures InOrder(WithTwo(x, i, y, m, z)) == Left(x, i) + (InOrder(y) + [m] + InOrder(z)) + Right(x, i)
  {
    hide InOrder, Left, Right;
    var x' := WithTwo(x, i, y, m, z);
    FocusPair(x', i);
    assert x'.keys[..i] == x.keys[..i] && x'.kids[..i] == x.kids[..i];
    assert x'.keys[i + 1..] == x.keys[i..] && x'.kids[i + 2..] == x.kids[i + 1..];
    LeftSame(x', x, i);
    RightSame(x', i + 1, x, i);
  }

  function WithKid(x: Node, i: nat, y: Node): Node
    requires i < |x.kids|
  {
    Node(x.keys, x.kids[i := y])
  }

  lemma {:induction false} WithKidInOrder(x: Node, i: nat, y: Node)
    requires Branches(x) && i <= |x.keys|
    ensures InOrder(WithKid(x, i, y)) == Left(x, i) + InOrder(y) + Right(x, i)
  {
    hide InOrder, Left, Right;
    var x' := WithKid(x, i, y);
    Focus(x', i);
    assert x'.kids[..i] == x.kids[..i] && x'.kids[i + 1..] == x.kids[i + 1..];
    LeftSame(x', x, i);
    RightSame(x', i, x, i);
  }

  // ------------------------------------------------------------ search within a node

  /** The first position whose key is not below k. */
  function LowerBound(keys: seq<int>, k: int): (b: nat)
    ensures b <= |keys| && (forall i :: 0 <= i < b ==> keys[i] < k) && (b < |keys| ==> keys[b] >= k)
  {
    if keys == [] || keys[0] >= k then 0 else 1 + LowerBound(keys[1..], k)
  }

  predicate Hit(keys: seq<int>, k: int) {
    var b := LowerBound(keys, k); b < |keys| && keys[b] == k
  }

  /** The position of k, or of the last key below it (-1 if there is none). */
  function FindAt(keys: seq<int>, k: int): (i: int)
    ensures -1 <= i < |keys|
    ensures Hit(keys, k) ==> i >= 0 && keys[i] == k
    ensures i >= 0 ==> keys[i] <= k
    ensures i + 1 < |keys| && Sorted(keys) ==> k <= keys[i + 1]
    ensures !Hit(keys, k) ==> (i >= 0 ==> keys[i] < k) && (i + 1 < |keys| ==> k < keys[i + 1])
  {
    var b := LowerBound(keys, k);
    if Hit(keys, k) then b else b - 1
  }

  lemma {:induction false} LowerBoundIs(keys: seq<int>, k: int, b: nat)
    requires b <= |keys|
    requires (forall i :: 0 <= i < b ==> keys[i] < k) && (forall i :: b <= i < |keys| ==> keys[i] >= k)
    ensures b == LowerBound(keys, k)
  {
    if b > 0 { LowerBoundIs(keys[1..], k, b - 1); }
  }

  /** The binary search of __kb_getp_aux: the position, and the sign of the comparison there. */
  method GetpAux(keys: seq<int>, k: int) returns (i: int, r: int)
    requires Sorted(keys)
    ensures i == FindAt(keys, k)
    ensures keys != [] ==> (r == 0 <==> Hit(keys, k))
    ensures i >= 0 && r == 0 <==> k in keys
  {
    if |keys| == 0 { return -1, 0; }
    var begin, end := 0, |keys|;
    while begin < end
      invariant 0 <= begin <= end <= |keys|
      invariant forall j :: 0 <= j < begin ==> keys[j] < k
      invariant forall j :: end <= j < |keys| ==> keys[j] >= k
    {
      var mid := (begin + end) / 2;
      if keys[mid] < k { begin := mid + 1; } else { end := mid; }
    }
    LowerBoundIs(keys, k, begin);
    if begin == |keys| { return |keys| - 1, 1; }
    r := if k < keys[begin] then -1 else if k > keys[begin] then 1 else 0;
    i := if r < 0 then begin - 1 else begin;
  }

  // ------------------------------------------------------------ inserting at a place

  /** k may stand at position p of s. */
  ghost predicate Fits(s: seq<int>, p: int, k: int) {
    && 0 <= p <= |s|
    && (p > 0 ==> s[p - 1] <= k)
    && (p < |s| ==> k <= s[p])
  }

  lemma {:induction false} FitsSorted(s: seq<int>, p: nat, k: int)
    requires Sorted(s) && Fits(s, p, k)
    ensures Sorted(InsertAt(s, p, k))
  {
  }

  lemma {:induction false} FitsMiddle(l: seq<int>, c: seq<int>, r: seq<int>, p: nat, k: int)
    requires Fits(c, p, k) && (l != [] ==> l[|l| - 1] <= k) && (r != [] ==> k <= r[0])
    ensures Fits(l + c + r, |l| + p, k)
  {
    var s := l + c + r;
    if p > 0 { assert s[|l| + p - 1] == c[p - 1]; }
    if p < |c| { assert s[|l| + p] == c[p]; }
  }

  lemma {:induction false} InsertMiddle(l: seq<int>, c: seq<int>, r: seq<int>, p: nat, k: int)
    requires p <= |c|
    ensures InsertAt(l + c + r, |l| + p, k) == l + InsertAt(c, p, k) + r
  {
    var s := l + c + r;
    assert s[..|l| + p] == l + c[..p];
    assert s[|l| + p..] == c[p..] + r;
  }

  /** The parts of a sorted sequence are sorted. */
  lemma {:induction false} SortedParts(l: seq<int>, c: seq<int>, r: seq<int>)
    requires Sorted(l + c + r)
    ensures Sorted(l) && Sorted(c) && Sorted(r)
    ensures forall i, j :: 0 <= i < |l| && 0 <= j < |c| ==> l[i] <= c[j]
    ensures forall i, j :: 0 <= i < |c| && 0 <= j < |r| ==> c[i] <= r[j]
  {
    hide Sorted;
    SortedHalves(l + c, r);
    SortedHalves(l, c);
    assert forall i :: 0 <= i < |c| ==> c[i] == (l + c)[|l| + i];
  }

  lemma {:induction false} SortedHalves(a: seq<int>, b: seq<int>)
    requires Sorted(a + b)
    ensures Sorted(a) && Sorted(b) && forall i, j :: 0 <= i < |a| && 0 <= j < |b| ==> a[i] <= b[j]
  {
    var s := a + b;
    assert forall i :: 0 <= i < |a| ==> a[i] == s[i];
    assert forall i :: 0 <= i < |b| ==> b[i] == s[|a| + i];
  }

  /** The neighbours of child i are the keys beside it. */
  lemma {:induction false} Beside(x: Node, i: nat)
    requires Branches(x) && i <= |x.keys|
    ensures i > 0 ==> Left(x, i) != [] && Left(x, i)[|Left(x, i)| - 1] == x.keys[i - 1]
    ensures i == 0 ==> Left(x, i) == []
    ensures i < |x.keys| ==> Right(x, i) != [] && Right(x, i)[0] == x.keys[i]
    ensures i == |x.keys| ==> Right(x, i) == []
  {
  }

  /** In a sorted tree the keys of a node are sorted. */
  lemma {:induction false} KeysSorted(x: Node)
    requires Sorted(InOrder(x)) && (x.kids == [] || Branches(x))
    ensures Sorted(x.keys)
  {
    if Branches(x) {
      forall i, j | 0 <= i < j < |x.keys| ensures x.keys[i] <= x.keys[j] { KeysOrdered(x, i, j); }
    }
  }

  lemma {:induction false} KeysOrdered(x: Node, i: nat, j: nat)
    requires Branches(x) && i < j < |x.keys| && Sorted(InOrder(x))
    ensures x.keys[i] <= x.keys[j]
  {
    hide InOrder, Left, Right;
    Focus(x, j);
    Beside(x, j);
    KeyInLeft(x, i, j);
    var l, c, r := Left(x, j), InOrder(x.kids[j]), Right(x, j);
    var a :| 0 <= a < |l| && l[a] == x.keys[i];
    assert (l + c + r)[a] == x.keys[i] && (l + c + r)[|l| + |c|] == x.keys[j];
  }

  lemma {:induction false} KeyInLeft(x: Node, i: nat, j: nat)
    requires Branches(x) && i < j <= |x.keys|
    ensures x.keys[i] in Left(x, j)
    decreases j
  {
    if i < j - 1 { KeyInLeft(x, i, j - 1); }
  }

  // ------------------------------------------------------------ put

  function LeftHalf(y: Node, t: nat): Node
    requires t >= 1 && |y.keys| == 2 * t - 1 && (y.kids == [] || |y.kids| == 2 * t)
  {
    Node(y.keys[..t - 1], if y.kids == [] then [] else y.kids[..t])
  }

  function RightHalf(y: Node, t: nat): Node
    requires t >= 1 && |y.keys| == 2 * t - 1 && (y.kids == [] || |y.kids| == 2 * t)
  {
    Node(y.keys[t..], if y.kids == [] then [] else y.kids[t..])
  }

  /** __kb_split: the full child i becomes two children around its middle key. */
  function Split(x: Node, i: nat, t: nat): Node
    requires t >= 1 && |x.kids| == |x.keys| + 1 && i <= |x.keys|
    requires var y := x.kids[i]; |y.keys| == 2 * t - 1 && (y.kids == [] || |y.kids| == 2 * t)
  {
    var y := x.kids[i];
    WithTwo(x, i, LeftHalf(y, t), y.keys[t - 1], RightHalf(y, t))
  }

  lemma {:induction false} SplitKeeps(x: Node, i: nat, t: nat, d: nat)
    requires t >= 2 && d > 0 && Shape(x, t, d, 0, 2 * t - 2) && i <= |x.keys| && |x.kids[i].keys| == 2 * t - 1
    ensures x.kids[i].kids == [] || |x.kids[i].kids| == 2 * t
    ensures var x' := Split(x, i, t);
      && Shape(x', t, d, |x.keys| + 1, |x.keys| + 1) && InOrder(x') == InOrder(x)
      && Shape(x'.kids[i], t, d - 1, t - 1, t - 1) && Shape(x'.kids[i + 1], t, d - 1, t - 1, t - 1)
  {
    hide InOrder, Left, Right;
    var y := x.kids[i];
    assert Shape(y, t, d - 1, t - 1, 2 * t - 1);
    var a, m, b := LeftHalf(y, t), y.keys[t - 1], RightHalf(y, t);
    assert y == Cat(a, m, b);
    CatInOrder(a, m, b);
    WithTwoInOrder(x, i, a, m, b);
    Focus(x, i);
    HalvesShape(y, t, d - 1);
  }

  lemma {:induction false} HalvesShape(y: Node, t: nat, d: nat)
    requires t >= 2 && Shape(y, t, d, 2 * t - 1, 2 * t - 1)
    ensures Shape(LeftHalf(y, t), t, d, t - 1, t - 1) && Shape(RightHalf(y, t), t, d, t - 1, t - 1)
  {
  }

  /** Before descending, a full child is split and the half that takes k chosen. */
  function Descend(x: Node, k: int, t: nat): (Node, nat)
    requires t >= 1 && |x.kids| == |x.keys| + 1
    requires forall c :: 0 <= c < |x.kids| && |x.kids[c].keys| == 2 * t - 1 ==>
      x.kids[c].kids == [] || |x.kids[c].kids| == 2 * t
  {
    var i := FindAt(x.keys, k) + 1;
    if |x.kids[i].keys| == 2 * t - 1 then
      var x' := Split(x, i, t);
      (x', if k > x'.keys[i] then i + 1 else i)
    else (x, i)
  }

  lemma {:induction false} KidsFull(x: Node, t: nat, d: nat)
    requires t >= 2 && d > 0 && Shape(x, t, d, 0, 2 * t - 1)
    ensures forall c :: 0 <= c < |x.kids| && |x.kids[c].keys| == 2 * t - 1 ==>
      x.kids[c].kids == [] || |x.kids[c].kids| == 2 * t
  {
    forall c | 0 <= c < |x.kids| && |x.kids[c].keys| == 2 * t - 1
        ensures x.kids[c].kids == [] || |x.kids[c].kids| == 2 * t {
      assert Shape(x.kids[c], t, d - 1, t - 1, 2 * t - 1);
    }
  }

  /** Descending changes nothing in order and finds room. */
  lemma {:induction false} DescendKeeps(x: Node, k: int, t: nat, d: nat)
    requires t >= 2 && d > 0 && Shape(x, t, d, 0, 2 * t - 2)
    ensures forall c :: 0 <= c < |x.kids| && |x.kids[c].keys| == 2 * t - 1 ==>
      x.kids[c].kids == [] || |x.kids[c].kids| == 2 * t
    ensures var (x', j) := Descend(x, k, t);
      && Shape(x', t, d, |x.keys|, 2 * t - 1) && InOrder(x') == InOrder(x)
      && j <= |x'.keys| && Shape(x'.kids[j], t, d - 1, t - 1, 2 * t - 2)
  {
    hide InOrder, LowerBound, Hit, Split;
    KidsFull(x, t, d);
    var i := FindAt(x.keys, k) + 1;
    KidShape(x, t, d, 0, 2 * t - 2, i);
    if |x.kids[i].keys| == 2 * t - 1 {
      SplitKeeps(x, i, t, d);
      var x' := Split(x, i, t);
      ShapeWider(x', t, d, |x.keys| + 1, |x.keys| + 1, |x.keys|, 2 * t - 1);
      ShapeWider(x'.kids[i], t, d - 1, t - 1, t - 1, t - 1, 2 * t - 2);
      ShapeWider(x'.kids[i + 1], t, d - 1, t - 1, t - 1, t - 1, 2 * t - 2);
    } else {
      ShapeWider(x, t, d, |x.keys|, |x.keys|, |x.keys|, 2 * t - 1);
    }
  }

  lemma {:induction false} KidShape(x: Node, t: nat, d: nat, lo: int, hi: int, i: nat)
    requires d > 0 && Shape(x, t, d, lo, hi) && i < |x.kids|
    ensures Branches(x) && Shape(x.kids[i], t, d - 1, t - 1, 2 * t - 1)
  {
  }

  /** Only the count at the top depends on the bounds. */
  lemma {:induction false} ShapeWider(x: Node, t: nat, d: nat, lo: int, hi: int, lo': int, hi': int)
    requires Shape(x, t, d, lo, hi) && lo' <= |x.keys| <= hi'
    ensures Shape(x, t, d, lo', hi')
  {
  }

  lemma {:induction false} ShapeCases(x: Node, t: nat, d: nat, lo: int, hi: int)
    requires Shape(x, t, d, lo, hi)
    ensures (x.kids == [] <==> d == 0) && (d > 0 ==> Branches(x)) && lo <= |x.keys| <= hi
  {
  }

  /** The chosen child lies between keys that bracket k. */
  lemma {:induction false} DescendBrackets(x: Node, k: int, t: nat)
    requires t >= 1 && Branches(x) && Sorted(x.keys)
    requires forall c :: 0 <= c < |x.kids| && |x.kids[c].keys| == 2 * t - 1 ==>
      x.kids[c].kids == [] || |x.kids[c].kids| == 2 * t
    ensures var (x', j) := Descend(x, k, t);
      && Branches(x') && j <= |x'.keys|
      && (j > 0 ==> x'.keys[j - 1] <= k) && (j < |x'.keys| ==> k <= x'.keys[j])
  {
    hide LowerBound, Hit, LeftHalf, RightHalf, Split;
    var i := FindAt(x.keys, k) + 1;
    if |x.kids[i].keys| == 2 * t - 1 { SplitKeys(x, i, t); }
  }

  lemma {:induction false} SplitKeys(x: Node, i: nat, t: nat)
    requires t >= 1 && Branches(x) && i <= |x.keys|
    requires var y := x.kids[i]; |y.keys| == 2 * t - 1 && (y.kids == [] || |y.kids| == 2 * t)
    ensures var x' := Split(x, i, t);
      && Branches(x') && |x'.keys| == |x.keys| + 1
      && (i > 0 ==> x'.keys[i - 1] == x.keys[i - 1]) && (i < |x.keys| ==> x'.keys[i + 1] == x.keys[i])
  {
  }

  /** __kb_putp_aux, into a node that is not full. */
  function PutAux(x: Node, k: int, t: nat, ghost d: nat): (r: Node)
    requires t >= 2 && Shape(x, t, d, 0, 2 * t - 2)
    ensures Shape(r, t, d, |x.keys|, 2 * t - 1)
    decreases d
  {
    hide Shape, Descend, InOrder, LowerBound, Hit;
    ShapeCases(x, t, d, 0, 2 * t - 2);
    if x.kids == [] then
      var i := FindAt(x.keys, k) + 1;
      LeafShape(x, i, k, t);
      Node(InsertAt(x.keys, i, k), [])
    else
      DescendKeeps(x, k, t, d);
      var (x', j) := Descend(x, k, t);
      ShapeCases(x', t, d, |x.keys|, 2 * t - 1);
      ShapeCases(x'.kids[j], t, d - 1, t - 1, 2 * t - 2);
      ShapeWider(x'.kids[j], t, d - 1, t - 1, 2 * t - 2, 0, 2 * t - 2);
      var y := PutAux(x'.kids[j], k, t, d - 1);
      DescentShape(|x.keys|, x', j, y, t, d);
      WithKid(x', j, y)
  }

  lemma {:induction false} DescentShape(lo: nat, x: Node, j: nat, y: Node, t: nat, d: nat)
    requires t >= 2 && d > 0 && j < |x.kids| && Shape(x, t, d, lo, 2 * t - 1)
    requires Shape(x.kids[j], t, d - 1, t - 1, 2 * t - 2) && Shape(y, t, d - 1, |x.kids[j].keys|, 2 * t - 1)
    ensures Shape(WithKid(x, j, y), t, d, lo, 2 * t - 1)
  {
    hide Shape;
    ShapeCases(x, t, d, lo, 2 * t - 1);
    ShapeCases(x.kids[j], t, d - 1, t - 1, 2 * t - 2);
    ShapeCases(y, t, d - 1, |x.kids[j].keys|, 2 * t - 1);
    ShapeWider(x, t, d, lo, 2 * t - 1, 0, 2 * t - 1);
    ShapeWider(y, t, d - 1, |x.kids[j].keys|, 2 * t - 1, t - 1, 2 * t - 1);
    WithKidShape(x, j, y, t, d);
    ShapeWider(WithKid(x, j, y), t, d, |x.keys|, 2 * t - 1, lo, 2 * t - 1);
  }

  lemma {:induction false} LeafShape(x: Node, i: nat, k: int, t: nat)
    requires t >= 2 && x.kids == [] && |x.keys| <= 2 * t - 2 && i <= |x.keys|
    ensures Shape(Node(InsertAt(x.keys, i, k), []), t, 0, |x.keys|, 2 * t - 1)
  {
  }

  lemma {:induction false} WithKidShape(x: Node, i: nat, y: Node, t: nat, d: nat)
    requires d > 0 && i < |x.kids| && Shape(x, t, d, 0, 2 * t - 1) && Shape(y, t, d - 1, t - 1, 2 * t - 1)
    ensures Shape(WithKid(x, i, y), t, d, |x.keys|, 2 * t - 1)
  {
  }

  /** Putting k adds it, at a place where it fits, and changes nothing else. */
  lemma {:induction false} PutAuxAdds(x: Node, k: int, t: nat, d: nat) returns (p: nat)
    requires t >= 2 && Shape(x, t, d, 0, 2 * t - 2) && Sorted(InOrder(x))
    ensures Fits(InOrder(x), p, k) && InOrder(PutAux(x, k, t, d)) == InsertAt(InOrder(x), p, k)
    decreases d
  {
    hide InOrder, Left, Right, Fits, InsertAt, Shape, Descend, FindAt;
    ShapeCases(x, t, d, 0, 2 * t - 2);
    KeysSorted(x);
    if x.kids == [] {
      p := LeafPut(x, k, t, d);
    } else {
      DescendKeeps(x, k, t, d);
      DescendBrackets(x, k, t);
      var (x', j) := Descend(x, k, t);
      ShapeCases(x'.kids[j], t, d - 1, t - 1, 2 * t - 2);
      ShapeWider(x'.kids[j], t, d - 1, t - 1, 2 * t - 2, 0, 2 * t - 2);
      var y := PutAux(x'.kids[j], k, t, d - 1);
      Focus(x', j);
      SortedParts(Left(x', j), InOrder(x'.kids[j]), Right(x', j));
      var q := PutAuxAdds(x'.kids[j], k, t, d - 1);
      p := PutUp(x', j, y, k, q);
    }
  }

  lemma {:induction false} PutAuxLeaf(x: Node, k: int, t: nat, d: nat)
    requires t >= 2 && Shape(x, t, d, 0, 2 * t - 2) && x.kids == []
    ensures PutAux(x, k, t, d) == Node(InsertAt(x.keys, FindAt(x.keys, k) + 1, k), [])
  {
    hide FindAt, InsertAt, Shape, Descend;
  }

  lemma {:induction false} LeafPut(x: Node, k: int, t: nat, d: nat) returns (p: nat)
    requires t >= 2 && Shape(x, t, d, 0, 2 * t - 2) && x.kids == [] && Sorted(x.keys)
    ensures Fits(InOrder(x), p, k) && InOrder(PutAux(x, k, t, d)) == InsertAt(InOrder(x), p, k)
  {
    hide InOrder, LowerBound, Hit, PutAux, InsertAt, Shape;
    p := FindAt(x.keys, k) + 1;
    PutAuxLeaf(x, k, t, d);
    LeafInOrder(x);
    LeafInOrder(Node(InsertAt(x.keys, p, k), []));
  }

  lemma {:induction false} PutUp(x: Node, j: nat, y: Node, k: int, q: nat) returns (p: nat)
    requires Branches(x) && j <= |x.keys|
    requires (j > 0 ==> x.keys[j - 1] <= k) && (j < |x.keys| ==> k <= x.keys[j])
    requires Fits(InOrder(x.kids[j]), q, k) && InOrder(y) == InsertAt(InOrder(x.kids[j]), q, k)
    ensures Fits(InOrder(x), p, k) && InOrder(WithKid(x, j, y)) == InsertAt(InOrder(x), p, k)
  {
    hide InOrder, Left, Right, Fits, InsertAt;
    var l, c, r := Left(x, j), InOrder(x.kids[j]), Right(x, j);
    Focus(x, j);
    Beside(x, j);
    FitsMiddle(l, c, r, q, k);
    FitsBound(c, q, k);
    InsertMiddle(l, c, r, q, k);
    WithKidInOrder(x, j, y);
    p := |l| + q;
  }

  lemma {:induction false} FitsBound(s: seq<int>, p: int, k: int)
    requires Fits(s, p, k)
    ensures 0 <= p <= |s|
  {
  }

  /** kb_putp: a full root is split under a new one first. */
  function Put(root: Node, k: int, t: nat, ghost d: nat): Node
    requires t >= 2 && Shape(root, t, d, 0, 2 * t - 1)
  {
    if |root.keys| == 2 * t - 1 then
      NewRoot(root, t, d);
      PutAux(Split(Node([], [root]), 0, t), k, t, d + 1)
    else PutAux(root, k, t, d)
  }

  lemma {:induction false} NewRoot(root: Node, t: nat, d: nat)
    requires t >= 2 && Shape(root, t, d, 2 * t - 1, 2 * t - 1)
    ensures root.kids == [] || |root.kids| == 2 * t
    ensures var r := Split(Node([], [root]), 0, t);
      Shape(r, t, d + 1, 1, 1) && Shape(r, t, d + 1, 0, 2 * t - 2) && InOrder(r) == InOrder(root)
  {
    hide InOrder, Left, Right, Split;
    var x := Node([], [root]);
    ShapeWider(root, t, d, 2 * t - 1, 2 * t - 1, t - 1, 2 * t - 1);
    assert Shape(x, t, d + 1, 0, 2 * t - 2);
    SplitKeeps(x, 0, t, d + 1);
    ShapeWider(Split(x, 0, t), t, d + 1, 1, 1, 0, 2 * t - 2);
    Focus(x, 0);
    Ends(x);
  }

  /** A whole tree: the root may have as little as one key, or none if it is a leaf. */
  ghost predicate TreeOk(root: Node, t: nat, d: nat) {
    t >= 2 && Shape(root, t, d, if d == 0 then 0 else 1, 2 * t - 1) && Sorted(InOrder(root))
  }

  /** Putting a key into any tree adds exactly that key in its place and keeps the tree. */
  lemma {:induction false} PutAdds(root: Node, k: int, t: nat, d: nat) returns (p: nat, d': nat)
    requires TreeOk(root, t, d)
    ensures Shape(root, t, d, 0, 2 * t - 1)
    ensures TreeOk(Put(root, k, t, d), t, d') && d <= d' <= d + 1
    ensures Fits(InOrder(root), p, k) && InOrder(Put(root, k, t, d)) == InsertAt(InOrder(root), p, k)
  {
    hide InOrder, Shape, Split, Fits, Sorted;
    ShapeCases(root, t, d, if d == 0 then 0 else 1, 2 * t - 1);
    ShapeWider(root, t, d, if d == 0 then 0 else 1, 2 * t - 1, 0, 2 * t - 1);
    var x, d1 := root, d;
    if |root.keys| == 2 * t - 1 {
      ShapeWider(root, t, d, if d == 0 then 0 else 1, 2 * t - 1, 2 * t - 1, 2 * t - 1);
      NewRoot(root, t, d);
      x, d1 := Split(Node([], [root]), 0, t), d + 1;
      ShapeCases(x, t, d1, 1, 1);
    } else {
      ShapeWider(root, t, d, if d == 0 then 0 else 1, 2 * t - 1, 0, 2 * t - 2);
    }
    d' := d1;
    p := PutAuxAdds(x, k, t, d1);
    FitsBound(InOrder(root), p, k);
    FitsSorted(InOrder(root), p, k);
    var r := PutAux(x, k, t, d1);
    ShapeCases(r, t, d1, |x.keys|, 2 * t - 1);
    ShapeWider(r, t, d1, |x.keys|, 2 * t - 1, if d1 == 0 then 0 else 1, 2 * t - 1);
  }

  // ------------------------------------------------------------ filling a child before descending

  /** Takes the last key and child off y, or puts one in front of x. */
  function Chop(y: Node): Node
    requires y.keys != []
  {
    Node(y.keys[..|y.keys| - 1], if y.kids == [] then [] else y.kids[..|y.kids| - 1])
  }

  function Behead(y: Node): Node
    requires y.keys != []
  {
    Node(y.keys[1..], if y.kids == [] then [] else y.kids[1..])
  }

  /** A node without keys that carries one child, or none in a leaf. */
  function Stub(kids: seq<Node>): Node { Node([], kids) }

  function LastKid(y: Node): Node { Stub(if y.kids == [] then [] else [y.kids[|y.kids| - 1]]) }
  function FirstKid(y: Node): Node { Stub(if y.kids == [] then [] else [y.kids[0]]) }

  /** The part of __kb_delp_aux that makes child i big enough to lose a key: borrow from the left
      or the right neighbour, or merge with one; gives the node and the child's new place. */
  function Fill(x: Node, i: nat, t: nat): (Node, nat)
    requires t >= 2 && |x.kids| == |x.keys| + 1 && i <= |x.keys|
  {
    var xp := x.kids[i];
    if |xp.keys| != t - 1 then (x, i)
    else if i > 0 && |x.kids[i - 1].keys| >= t then
      var y := x.kids[i - 1];
      (WithPair(x, i - 1, Chop(y), y.keys[|y.keys| - 1], Cat(LastKid(y), x.keys[i - 1], xp)), i)
    else if i < |x.keys| && |x.kids[i + 1].keys| >= t then
      var y := x.kids[i + 1];
      (WithPair(x, i, Cat(xp, x.keys[i], FirstKid(y)), y.keys[0], Behead(y)), i)
    else if i > 0 && |x.kids[i - 1].keys| == t - 1 then
      (WithOne(x, i - 1, Cat(x.kids[i - 1], x.keys[i - 1], xp)), i - 1)
    else if i < |x.keys| && |x.kids[i + 1].keys| == t - 1 then
      (WithOne(x, i, Cat(xp, x.keys[i], x.kids[i + 1])), i)
    else (x, i)
  }

  lemma {:induction false} ChopInOrder(y: Node)
    requires y.keys != [] && (y.kids == [] || Branches(y))
    ensures Alike(Chop(y), LastKid(y)) && y == Cat(Chop(y), y.keys[|y.keys| - 1], LastKid(y))
    ensures InOrder(y) == InOrder(Chop(y)) + [y.keys[|y.keys| - 1]] + InOrder(LastKid(y))
  {
    hide InOrder;
    CatInOrder(Chop(y), y.keys[|y.keys| - 1], LastKid(y));
  }

  lemma {:induction false} BeheadInOrder(y: Node)
    requires y.keys != [] && (y.kids == [] || Branches(y))
    ensures Alike(FirstKid(y), Behead(y)) && y == Cat(FirstKid(y), y.keys[0], Behead(y))
    ensures InOrder(y) == InOrder(FirstKid(y)) + [y.keys[0]] + InOrder(Behead(y))
  {
    hide InOrder;
    CatInOrder(FirstKid(y), y.keys[0], Behead(y));
  }

  lemma {:induction false} CatShape(y: Node, m: int, z: Node, t: nat, d: nat)
    requires Shape(y, t, d, 0, 2 * t) && Shape(z, t, d, 0, 2 * t)
    ensures Shape(Cat(y, m, z), t, d, |y.keys| + |z.keys| + 1, |y.keys| + |z.keys| + 1)
  {
  }

  lemma {:induction false} PiecesShape(y: Node, t: nat, d: nat)
    requires y.keys != [] && Shape(y, t, d, 0, 2 * t)
    ensures Shape(Chop(y), t, d, |y.keys| - 1, |y.keys| - 1) && Shape(LastKid(y), t, d, 0, 0)
    ensures Shape(Behead(y), t, d, |y.keys| - 1, |y.keys| - 1) && Shape(FirstKid(y), t, d, 0, 0)
  {
  }

  lemma {:induction false} WithPairShape(x: Node, i: nat, y: Node, m: int, z: Node, t: nat, d: nat)
    requires d > 0 && Shape(x, t, d, 0, 2 * t) && i < |x.keys|
    requires Shape(y, t, d - 1, t - 1, 2 * t - 1) && Shape(z, t, d - 1, t - 1, 2 * t - 1)
    ensures Shape(WithPair(x, i, y, m, z), t, d, |x.keys|, |x.keys|)
  {
  }

  lemma {:induction false} WithOneShape(x: Node, i: nat, y: Node, t: nat, d: nat)
    requires d > 0 && Shape(x, t, d, 0, 2 * t) && i < |x.keys|
    requires Shape(y, t, d - 1, t - 1, 2 * t - 1)
    ensures Shape(WithOne(x, i, y), t, d, |x.keys| - 1, |x.keys| - 1)
  {
  }

  /** Every key of s occurs in s'. */
  ghost predicate Within(s: seq<int>, s': seq<int>) { forall k :: k in s ==> k in s' }

  /** What Fill promises: nothing changes in order, the child has keys to spare and still holds
      what it held, and an outermost child stays outermost. */
  ghost predicate Filled(x: Node, i: nat, x': Node, j: nat, t: nat, d: nat)
    requires d > 0 && Branches(x) && i <= |x.keys|
  {
    && Shape(x', t, d, |x.keys| - 1, |x.keys|) && InOrder(x') == InOrder(x)
    && j <= |x'.keys| && Branches(x') && Shape(x'.kids[j], t, d - 1, t, 2 * t - 1)
    && Within(InOrder(x.kids[i]), InOrder(x'.kids[j]))
    && (i == |x.keys| ==> j == |x'.keys|) && (i == 0 ==> j == 0)
  }

  /** The shapes of a neighbour that gives up an end key and of the child that takes one. */
  lemma {:induction false} BorrowShapes(y: Node, xp: Node, sep: int, t: nat, d: nat)
    requires t >= 2 && Shape(y, t, d, t - 1, 2 * t - 1) && Shape(xp, t, d, t - 1, 2 * t - 1)
    requires |xp.keys| == t - 1 && |y.keys| >= t
    ensures Shape(Chop(y), t, d, t - 1, 2 * t - 1) && Shape(Behead(y), t, d, t - 1, 2 * t - 1)
    ensures Shape(Cat(LastKid(y), sep, xp), t, d, t, t) && Shape(Cat(xp, sep, FirstKid(y)), t, d, t, t)
  {
    hide Shape, Chop, Behead, LastKid, FirstKid, Cat;
    ShapeCases(y, t, d, t - 1, 2 * t - 1);
    ShapeWider(y, t, d, t - 1, 2 * t - 1, 0, 2 * t);
    ShapeWider(xp, t, d, t - 1, 2 * t - 1, 0, 2 * t);
    PiecesShape(y, t, d);
    ShapeCases(LastKid(y), t, d, 0, 0);
    ShapeWider(LastKid(y), t, d, 0, 0, 0, 2 * t);
    ShapeCases(FirstKid(y), t, d, 0, 0);
    ShapeWider(FirstKid(y), t, d, 0, 0, 0, 2 * t);
    CatShape(LastKid(y), sep, xp, t, d);
    CatShape(xp, sep, FirstKid(y), t, d);
    ShapeCases(Chop(y), t, d, |y.keys| - 1, |y.keys| - 1);
    ShapeWider(Chop(y), t, d, |y.keys| - 1, |y.keys| - 1, t - 1, 2 * t - 1);
    ShapeCases(Behead(y), t, d, |y.keys| - 1, |y.keys| - 1);
    ShapeWider(Behead(y), t, d, |y.keys| - 1, |y.keys| - 1, t - 1, 2 * t - 1);
  }

  /** Replacing two neighbours and their key by others with the same keys in order. */
  lemma {:induction false} PairFilled(x: Node, i: nat, a: Node, m: int, b: Node, t: nat, d: nat)
    requires t >= 2 && d > 0 && Shape(x, t, d, 1, 2 * t - 1) && i < |x.keys| && Branches(x)
    requires Shape(a, t, d - 1, t - 1, 2 * t - 1) && Shape(b, t, d - 1, t - 1, 2 * t - 1)
    requires InOrder(a) + [m] + InOrder(b) == InOrder(x.kids[i]) + [x.keys[i]] + InOrder(x.kids[i + 1])
    ensures var x' := WithPair(x, i, a, m, b);
      Shape(x', t, d, |x.keys| - 1, |x.keys|) && InOrder(x') == InOrder(x)
  {
    hide InOrder, Left, Right, Shape;
    ShapeCases(x, t, d, 1, 2 * t - 1);
    ShapeWider(x, t, d, 1, 2 * t - 1, 0, 2 * t);
    WithPairShape(x, i, a, m, b, t, d);
    ShapeWider(WithPair(x, i, a, m, b), t, d, |x.keys|, |x.keys|, |x.keys| - 1, |x.keys|);
    WithPairInOrder(x, i, a, m, b);
    FocusPair(x, i);
  }

  lemma {:induction false} BorrowLeft(x: Node, i: nat, t: nat, d: nat)
    requires t >= 2 && d > 0 && Shape(x, t, d, 1, 2 * t - 1) && Branches(x) && 0 < i <= |x.keys|
    requires |x.kids[i].keys| == t - 1 && |x.kids[i - 1].keys| >= t
    ensures var y := x.kids[i - 1];
      Filled(x, i, WithPair(x, i - 1, Chop(y), y.keys[|y.keys| - 1], Cat(LastKid(y), x.keys[i - 1], x.kids[i])), i,
          t, d)
  {
    hide InOrder, Left, Right, Shape, Chop, LastKid, Cat;
    var y, xp, sep := x.kids[i - 1], x.kids[i], x.keys[i - 1];
    KidShape(x, t, d, 1, 2 * t - 1, i); KidShape(x, t, d, 1, 2 * t - 1, i - 1);
    var m, y', xp' := y.keys[|y.keys| - 1], Chop(y), Cat(LastKid(y), sep, xp);
    BorrowShapes(y, xp, sep, t, d - 1);
    ShapeCases(xp', t, d - 1, t, t);
    ShapeWider(xp', t, d - 1, t, t, t - 1, 2 * t - 1); ShapeWider(xp', t, d - 1, t, t, t, 2 * t - 1);
    BorrowedLeft(y, sep, xp, t, d - 1);
    PairFilled(x, i - 1, y', m, xp', t, d);
  }

  lemma {:induction false} BorrowedLeft(y: Node, sep: int, xp: Node, t: nat, d: nat)
    requires t >= 2 && Shape(y, t, d, t - 1, 2 * t - 1) && Shape(xp, t, d, t - 1, 2 * t - 1)
    ensures var xp' := Cat(LastKid(y), sep, xp);
      && InOrder(Chop(y)) + [y.keys[|y.keys| - 1]] + InOrder(xp') == InOrder(y) + [sep] + InOrder(xp)
      && Within(InOrder(xp), InOrder(xp'))
  {
    hide InOrder, Shape, Cat;
    ShapeCases(y, t, d, t - 1, 2 * t - 1); ShapeCases(xp, t, d, t - 1, 2 * t - 1);
    ChopInOrder(y);
    CatInOrder(LastKid(y), sep, xp);
    Regroup(InOrder(Chop(y)), y.keys[|y.keys| - 1], InOrder(LastKid(y)), sep, InOrder(xp));
  }

  lemma {:induction false} Regroup(a: seq<int>, m: int, b: seq<int>, n: int, c: seq<int>)
    ensures (a + [m] + b) + [n] + c == a + [m] + (b + [n] + c)
  {
  }

  lemma {:induction false} BorrowRight(x: Node, i: nat, t: nat, d: nat)
    requires t >= 2 && d > 0 && Shape(x, t, d, 1, 2 * t - 1) && Branches(x) && i < |x.keys|
    requires |x.kids[i].keys| == t - 1 && |x.kids[i + 1].keys| >= t
    ensures var y := x.kids[i + 1];
      Filled(x, i, WithPair(x, i, Cat(x.kids[i], x.keys[i], FirstKid(y)), y.keys[0], Behead(y)), i, t, d)
  {
    hide InOrder, Left, Right, Shape, Behead, FirstKid, Cat;
    var y, xp, sep := x.kids[i + 1], x.kids[i], x.keys[i];
    KidShape(x, t, d, 1, 2 * t - 1, i); KidShape(x, t, d, 1, 2 * t - 1, i + 1);
    var m, y', xp' := y.keys[0], Behead(y), Cat(xp, sep, FirstKid(y));
    BorrowShapes(y, xp, sep, t, d - 1);
    ShapeCases(xp', t, d - 1, t, t);
    ShapeWider(xp', t, d - 1, t, t, t - 1, 2 * t - 1); ShapeWider(xp', t, d - 1, t, t, t, 2 * t - 1);
    BorrowedRight(xp, sep, y, t, d - 1);
    PairFilled(x, i, xp', m, y', t, d);
  }

  lemma {:induction false} BorrowedRight(xp: Node, sep: int, y: Node, t: nat, d: nat)
    requires t >= 2 && Shape(y, t, d, t - 1, 2 * t - 1) && Shape(xp, t, d, t - 1, 2 * t - 1)
    ensures var xp' := Cat(xp, sep, FirstKid(y));
      && InOrder(xp') + [y.keys[0]] + InOrder(Behead(y)) == InOrder(xp) + [sep] + InOrder(y)
      && Within(InOrder(xp), InOrder(xp'))
  {
    hide InOrder, Shape, Cat;
    ShapeCases(y, t, d, t - 1, 2 * t - 1); ShapeCases(xp, t, d, t - 1, 2 * t - 1);
    BeheadInOrder(y);
    CatInOrder(xp, sep, FirstKid(y));
    Regroup(InOrder(xp), sep, InOrder(FirstKid(y)), y.keys[0], InOrder(Behead(y)));
  }

  /** Merging children i and i + 1, both minimal, around key i. */
  lemma {:induction false} MergePair(x: Node, i: nat, t: nat, d: nat)
    requires t >= 2 && d > 0 && Shape(x, t, d, 1, 2 * t - 1) && Branches(x) && i < |x.keys|
    requires |x.kids[i].keys| == t - 1 && |x.kids[i + 1].keys| == t - 1
    ensures var y := Cat(x.kids[i], x.keys[i], x.kids[i + 1]);
      var x' := WithOne(x, i, y);
      && Shape(x', t, d, |x.keys| - 1, |x.keys| - 1) && InOrder(x') == InOrder(x)
      && Branches(x') && x'.kids[i] == y && Shape(y, t, d - 1, 2 * t - 1, 2 * t - 1)
      && InOrder(y) == InOrder(x.kids[i]) + [x.keys[i]] + InOrder(x.kids[i + 1])
  {
    hide InOrder, Left, Right, Shape;
    var a, m, b := x.kids[i], x.keys[i], x.kids[i + 1];
    KidShape(x, t, d, 1, 2 * t - 1, i); KidShape(x, t, d, 1, 2 * t - 1, i + 1);
    ShapeCases(a, t, d - 1, t - 1, 2 * t - 1); ShapeCases(b, t, d - 1, t - 1, 2 * t - 1);
    ShapeWider(a, t, d - 1, t - 1, 2 * t - 1, 0, 2 * t); ShapeWider(b, t, d - 1, t - 1, 2 * t - 1, 0, 2 * t);
    CatShape(a, m, b, t, d - 1);
    CatInOrder(a, m, b);
    var y := Cat(a, m, b);
    ShapeWider(y, t, d - 1, 2 * t - 1, 2 * t - 1, t - 1, 2 * t - 1);
    ShapeCases(x, t, d, 1, 2 * t - 1);
    ShapeWider(x, t, d, 1, 2 * t - 1, 0, 2 * t);
    WithOneShape(x, i, y, t, d);
    WithOneInOrder(x, i, y);
    FocusPair(x, i);
  }

  lemma {:induction false} FillKeeps(x: Node, i: nat, t: nat, d: nat)
    requires t >= 2 && d > 0 && Shape(x, t, d, 1, 2 * t - 1) && i <= |x.keys|
    ensures Branches(x)
    ensures var (x', j) := Fill(x, i, t); Filled(x, i, x', j, t, d)
  {
    hide InOrder, Shape, WithPair, WithOne, Cat, Chop, Behead;
    ShapeCases(x, t, d, 1, 2 * t - 1);
    KidShape(x, t, d, 1, 2 * t - 1, i);
    var xp := x.kids[i];
    ShapeCases(xp, t, d - 1, t - 1, 2 * t - 1);
    if |xp.keys| != t - 1 {
      ShapeWider(xp, t, d - 1, t - 1, 2 * t - 1, t, 2 * t - 1);
      ShapeWider(x, t, d, 1, 2 * t - 1, |x.keys| - 1, |x.keys|);
    } else if i > 0 && |x.kids[i - 1].keys| >= t {
      BorrowLeft(x, i, t, d);
    } else if i < |x.keys| && |x.kids[i + 1].keys| >= t {
      BorrowRight(x, i, t, d);
    } else if i > 0 {
      KidShape(x, t, d, 1, 2 * t - 1, i - 1);
      ShapeCases(x.kids[i - 1], t, d - 1, t - 1, 2 * t - 1);
      FillMerges(x, i - 1, t, d);
    } else {
      KidShape(x, t, d, 1, 2 * t - 1, i + 1);
      ShapeCases(x.kids[i + 1], t, d - 1, t - 1, 2 * t - 1);
      FillMerges(x, i, t, d);
    }
  }

  lemma {:induction false} FillMerges(x: Node, i: nat, t: nat, d: nat)
    requires t >= 2 && d > 0 && Shape(x, t, d, 1, 2 * t - 1) && i < |x.keys| && Branches(x)
    requires |x.kids[i].keys| == t - 1 && |x.kids[i + 1].keys| == t - 1
    ensures var x' := WithOne(x, i, Cat(x.kids[i], x.keys[i], x.kids[i + 1]));
      Filled(x, i + 1, x', i, t, d) && (i == 0 ==> Filled(x, i, x', i, t, d))
  {
    hide InOrder, Shape;
    MergePair(x, i, t, d);
    var y := Cat(x.kids[i], x.keys[i], x.kids[i + 1]);
    var x' := WithOne(x, i, y);
    ShapeWider(y, t, d - 1, 2 * t - 1, 2 * t - 1, t, 2 * t - 1);
    ShapeWider(x', t, d, |x.keys| - 1, |x.keys| - 1, |x.keys| - 1, |x.keys|);
  }

  // ------------------------------------------------------------ delete

  /** Delete a given key, the largest or the smallest. */
  datatype Which = Key(k: int) | Largest | Smallest

  /** The place in a leaf; -1 when every key is larger than the one to delete. */
  function LeafPlace(keys: seq<int>, w: Which): int {
    match w case Largest => |keys| - 1 case Smallest => 0 case Key(k) => FindAt(keys, k)
  }

  function ChildPlace(keys: seq<int>, w: Which): (i: nat)
    ensures i <= |keys|
  {
    match w case Largest => |keys| case Smallest => 0 case Key(k) => FindAt(keys, k) + 1
  }

  /** __kb_delp_aux: the remaining node and the key taken out. */
  function Del(x: Node, w: Which, t: nat, ghost d: nat): (r: (Node, int))
    requires t >= 2 && Shape(x, t, d, 1, 2 * t - 1)
    ensures Shape(r.0, t, d, |x.keys| - 1, 2 * t - 1)
    decreases d, 1
  {
    if x.kids == [] then
      var i := LeafPlace(x.keys, w);
      if i < 0 then (x, 0) else (Node(RemoveAt(x.keys, i), []), x.keys[i])
    else if w.Key? && Hit(x.keys, w.k) then DelHit(x, FindAt(x.keys, w.k), w.k, t, d)
    else DelBelow(x, ChildPlace(x.keys, w), w, t, d)
  }

  /** The key is in this node, which is not a leaf. */
  function DelHit(x: Node, i: nat, k: int, t: nat, ghost d: nat): (r: (Node, int))
    requires t >= 2 && d > 0 && Shape(x, t, d, 1, 2 * t - 1) && i < |x.keys|
    ensures Shape(r.0, t, d, |x.keys| - 1, 2 * t - 1)
    decreases d, 0
  {
    DelHitReady(x, i, k, t, d);
    if |x.kids[i].keys| >= t then
      var (c, kp) := Del(x.kids[i], Largest, t, d - 1);
      WithPairShape(x, i, c, kp, x.kids[i + 1], t, d);
      (WithPair(x, i, c, kp, x.kids[i + 1]), x.keys[i])
    else if |x.kids[i + 1].keys| >= t then
      var (c, kp) := Del(x.kids[i + 1], Smallest, t, d - 1);
      WithPairShape(x, i, x.kids[i], kp, c, t, d);
      (WithPair(x, i, x.kids[i], kp, c), x.keys[i])
    else
      var (c, kp) := Del(Cat(x.kids[i], k, x.kids[i + 1]), Key(k), t, d - 1);
      WithOneShape(x, i, c, t, d);
      (WithOne(x, i, c), kp)
  }

  /** The key is further down, in child i or in what that child is merged with. */
  function DelBelow(x: Node, i: nat, w: Which, t: nat, ghost d: nat): (r: (Node, int))
    requires t >= 2 && d > 0 && Shape(x, t, d, 1, 2 * t - 1) && i <= |x.keys|
    ensures Shape(r.0, t, d, |x.keys| - 1, 2 * t - 1)
    decreases d, 0
  {
    DelFillReady(x, i, t, d);
    var (x', j) := Fill(x, i, t);
    var (c, kp) := Del(x'.kids[j], w, t, d - 1);
    DelKidShape(x, x', j, c, t, d);
    (WithKid(x', j, c), kp)
  }

  /** At a hit, the children on both sides are big enough to delete from, or can be merged. */
  lemma {:induction false} DelHitReady(x: Node, i: nat, m: int, t: nat, d: nat)
    requires t >= 2 && d > 0 && Shape(x, t, d, 1, 2 * t - 1) && i < |x.keys|
    ensures Branches(x) && Shape(x, t, d, 0, 2 * t)
    ensures Shape(x.kids[i], t, d - 1, t - 1, 2 * t - 1) && Shape(x.kids[i + 1], t, d - 1, t - 1, 2 * t - 1)
    ensures Shape(x.kids[i], t, d - 1, 1, 2 * t - 1) && Shape(x.kids[i + 1], t, d - 1, 1, 2 * t - 1)
    ensures |x.kids[i].keys| < t && |x.kids[i + 1].keys| < t ==>
      Shape(Cat(x.kids[i], m, x.kids[i + 1]), t, d - 1, 2 * t - 1, 2 * t - 1)
          && Shape(Cat(x.kids[i], m, x.kids[i + 1]), t, d - 1, 1, 2 * t - 1)
  {
    hide Shape, Cat;
    ShapeCases(x, t, d, 1, 2 * t - 1);
    ShapeWider(x, t, d, 1, 2 * t - 1, 0, 2 * t);
    KidShape(x, t, d, 1, 2 * t - 1, i); KidShape(x, t, d, 1, 2 * t - 1, i + 1);
    var a, b := x.kids[i], x.kids[i + 1];
    ShapeCases(a, t, d - 1, t - 1, 2 * t - 1); ShapeCases(b, t, d - 1, t - 1, 2 * t - 1);
    ShapeWider(a, t, d - 1, t - 1, 2 * t - 1, 1, 2 * t - 1); ShapeWider(b, t, d - 1, t - 1, 2 * t - 1, 1, 2 * t - 1);
    ShapeWider(a, t, d - 1, t - 1, 2 * t - 1, 0, 2 * t); ShapeWider(b, t, d - 1, t - 1, 2 * t - 1, 0, 2 * t);
    if |a.keys| < t && |b.keys| < t {
      CatShape(a, m, b, t, d - 1);
      ShapeCases(Cat(a, m, b), t, d - 1, 2 * t - 1, 2 * t - 1);
      ShapeWider(Cat(a, m, b), t, d - 1, 2 * t - 1, 2 * t - 1, 1, 2 * t - 1);
    }
  }

  lemma {:induction false} DelFillReady(x: Node, i: nat, t: nat, d: nat)
    requires t >= 2 && d > 0 && Shape(x, t, d, 1, 2 * t - 1) && i <= |x.keys|
    ensures Branches(x)
    ensures var (x', j) := Fill(x, i, t);
      && Filled(x, i, x', j, t, d) && j < |x'.kids|
      && Shape(x'.kids[j], t, d - 1, 1, 2 * t - 1) && |x'.kids[j].keys| >= t
  {
    hide InOrder, Shape, Fill;
    FillKeeps(x, i, t, d);
    var (x', j) := Fill(x, i, t);
    ShapeCases(x'.kids[j], t, d - 1, t, 2 * t - 1);
    ShapeWider(x'.kids[j], t, d - 1, t, 2 * t - 1, 1, 2 * t - 1);
  }

  lemma {:induction false} DelKidShape(x: Node, x': Node, j: nat, c: Node, t: nat, d: nat)
    requires t >= 2 && d > 0 && 1 <= |x.keys| <= 2 * t - 1 && Shape(x', t, d, |x.keys| - 1, |x.keys|) && j < |x'.kids|
    requires Shape(c, t, d - 1, |x'.kids[j].keys| - 1, 2 * t - 1) && |x'.kids[j].keys| >= t
    ensures Shape(WithKid(x', j, c), t, d, |x.keys| - 1, 2 * t - 1)
  {
  }

  lemma {:induction false} HitIff(keys: seq<int>, k: int)
    requires Sorted(keys)
    ensures Hit(keys, k) <==> k in keys
  {
    var b := LowerBound(keys, k);
    if k in keys {
      var i :| 0 <= i < |keys| && keys[i] == k;
      assert b <= i;
    }
  }

  lemma {:induction false} RemoveMiddle(l: seq<int>, c: seq<int>, r: seq<int>, p: nat)
    requires p < |c|
    ensures RemoveAt(l + c + r, |l| + p) == l + RemoveAt(c, p) + r && (l + c + r)[|l| + p] == c[p]
  {
    var s := l + c + r;
    assert s[..|l| + p] == l + c[..p];
    assert s[|l| + p + 1..] == c[p + 1..] + r;
  }

  /** A key that is in the tree but not in this node is in the child between its neighbours. */
  lemma {:induction false} InChosenKid(x: Node, k: int)
    requires Branches(x) && Sorted(InOrder(x)) && Sorted(x.keys) && k in InOrder(x) && !Hit(x.keys, k)
    ensures k in InOrder(x.kids[FindAt(x.keys, k) + 1])
  {
    hide InOrder, Left, Right, Hit, LowerBound;
    var i := FindAt(x.keys, k) + 1;
    Focus(x, i);
    Beside(x, i);
    var l, c, r := Left(x, i), InOrder(x.kids[i]), Right(x, i);
    SortedParts(l, c, r);
    assert k !in l;
    assert k !in r;
  }

  /** What deleting means for the in-order sequence. */
  ghost predicate Takes(s: seq<int>, w: Which, s': seq<int>, out: int, p: int) {
    && 0 <= p < |s| && s' == RemoveAt(s, p) && out == s[p]
    && (match w case Key(k) => out == k case Largest => p == |s| - 1 case Smallest => p == 0)
  }

  lemma {:induction false} LeafDel(x: Node, w: Which, t: nat, d: nat) returns (p: int)
    requires t >= 2 && Shape(x, t, d, 1, 2 * t - 1) && x.kids == [] && Sorted(x.keys)
    requires w.Key? ==> w.k in x.keys
    ensures var (c, out) := Del(x, w, t, d); Takes(InOrder(x), w, InOrder(c), out, p)
  {
    hide InOrder, LowerBound, Hit;
    p := LeafPlace(x.keys, w);
    if w.Key? { HitIff(x.keys, w.k); }
    LeafInOrder(x);
    LeafInOrder(Node(RemoveAt(x.keys, p), []));
  }

  /** Deleting in child j of a regrouped node. */
  lemma {:induction false} DelUp(x: Node, j: nat, c: Node, w: Which, out: int, q: int) returns (p: int)
    requires Branches(x) && j <= |x.keys| && Takes(InOrder(x.kids[j]), w, InOrder(c), out, q)
    requires (w == Largest ==> j == |x.keys|) && (w == Smallest ==> j == 0)
    ensures Takes(InOrder(x), w, InOrder(WithKid(x, j, c)), out, p)
  {
    hide InOrder, Left, Right, RemoveAt;
    Focus(x, j);
    Ends(x);
    var l, m, r := Left(x, j), InOrder(x.kids[j]), Right(x, j);
    RemoveMiddle(l, m, r, q);
    WithKidInOrder(x, j, c);
    p := |l| + q;
  }

  /** Taking out the key between two runs joins them. */
  lemma {:induction false} RemoveBetween(l: seq<int>, a: seq<int>, k: int, b: seq<int>, r: seq<int>)
    ensures var s := l + (a + [k] + b) + r;
      RemoveAt(s, |l| + |a|) == l + (a + b) + r && s[|l| + |a|] == k
  {
    var c := a + [k] + b;
    assert c[..|a|] == a && c[|a| + 1..] == b;
    RemoveMiddle(l, c, r, |a|);
  }

  /** The key at i replaced by its predecessor, taken from the child before it. */
  lemma {:induction false} DelPredecessor(x: Node, i: nat, c: Node, kp: int, q: int) returns (p: int)
    requires Branches(x) && i < |x.keys| && Takes(InOrder(x.kids[i]), Largest, InOrder(c), kp, q)
    ensures Takes(InOrder(x), Key(x.keys[i]), InOrder(WithPair(x, i, c, kp, x.kids[i + 1])), x.keys[i], p)
  {
    hide InOrder, Left, Right, WithPair, RemoveAt;
    var l, m, n, r := Left(x, i), InOrder(x.kids[i]), InOrder(x.kids[i + 1]), Right(x, i + 1);
    LargestLast(m, InOrder(c), kp, q);
    FocusPair(x, i);
    WithPairInOrder(x, i, c, kp, x.kids[i + 1]);
    RemoveBetween(l, m, x.keys[i], n, r);
    p := |l| + |m|;
  }

  /** The key at i replaced by its successor, taken from the child behind it. */
  lemma {:induction false} DelSuccessor(x: Node, i: nat, c: Node, kp: int, q: int) returns (p: int)
    requires Branches(x) && i < |x.keys| && Takes(InOrder(x.kids[i + 1]), Smallest, InOrder(c), kp, q)
    ensures Takes(InOrder(x), Key(x.keys[i]), InOrder(WithPair(x, i, x.kids[i], kp, c)), x.keys[i], p)
  {
    hide InOrder, Left, Right, WithPair, RemoveAt;
    var l, m, n, r := Left(x, i), InOrder(x.kids[i]), InOrder(x.kids[i + 1]), Right(x, i + 1);
    SmallestFirst(m, n, InOrder(c), kp, q);
    FocusPair(x, i);
    WithPairInOrder(x, i, x.kids[i], kp, c);
    RemoveBetween(l, m, x.keys[i], n, r);
    p := |l| + |m|;
  }

  lemma {:induction false} SmallestFirst(m: seq<int>, n: seq<int>, c: seq<int>, kp: int, q: int)
    requires Takes(n, Smallest, c, kp, q)
    ensures m + n == m + [kp] + c
  {
    assert n == [kp] + c;
  }

  lemma {:induction false} LargestLast(m: seq<int>, c: seq<int>, kp: int, q: int)
    requires Takes(m, Largest, c, kp, q)
    ensures m == c + [kp]
  {
  }

  /** Both neighbours merged around the key, which is then deleted below. */
  lemma {:induction false} DelMerged(x: Node, i: nat, c: Node, out: int, q: int) returns (p: int)
    requires Branches(x) && i < |x.keys| && Alike(x.kids[i], x.kids[i + 1])
    requires Takes(InOrder(Cat(x.kids[i], x.keys[i], x.kids[i + 1])), Key(x.keys[i]), InOrder(c), out, q)
    ensures Takes(InOrder(x), Key(x.keys[i]), InOrder(WithOne(x, i, c)), out, p)
  {
    hide InOrder, Left, Right, RemoveAt;
    FocusPair(x, i);
    CatInOrder(x.kids[i], x.keys[i], x.kids[i + 1]);
    WithOneInOrder(x, i, c);
    var l, m, r := Left(x, i), InOrder(Cat(x.kids[i], x.keys[i], x.kids[i + 1])), Right(x, i + 1);
    RemoveMiddle(l, m, r, q);
    p := |l| + q;
  }

  lemma {:induction false} DelHitTakes(x: Node, i: nat, t: nat, d: nat) returns (p: int)
    requires t >= 2 && d > 0 && Shape(x, t, d, 1, 2 * t - 1) && i < |x.keys| && Sorted(InOrder(x))
    ensures var (c, out) := DelHit(x, i, x.keys[i], t, d); Takes(InOrder(x), Key(x.keys[i]), InOrder(c), out, p)
    decreases d, 0
  {
    hide InOrder, Left, Right, Shape, Takes, WithPair, WithOne, Cat;
    var k := x.keys[i];
    DelHitReady(x, i, k, t, d);
    FocusPair(x, i);
    PairSorted(Left(x, i), InOrder(x.kids[i]), k, InOrder(x.kids[i + 1]), Right(x, i + 1));
    if |x.kids[i].keys| >= t {
      var q := DelTakes(x.kids[i], Largest, t, d - 1);
      var (c, kp) := Del(x.kids[i], Largest, t, d - 1);
      p := DelPredecessor(x, i, c, kp, q);
    } else if |x.kids[i + 1].keys| >= t {
      var q := DelTakes(x.kids[i + 1], Smallest, t, d - 1);
      var (c, kp) := Del(x.kids[i + 1], Smallest, t, d - 1);
      p := DelSuccessor(x, i, c, kp, q);
    } else {
      ShapeCases(x.kids[i], t, d - 1, t - 1, 2 * t - 1); ShapeCases(x.kids[i + 1], t, d - 1, t - 1, 2 * t - 1);
      CatInOrder(x.kids[i], k, x.kids[i + 1]);
      var y := Cat(x.kids[i], k, x.kids[i + 1]);
      assert InOrder(y)[|InOrder(x.kids[i])|] == k;
      var q := DelTakes(y, Key(k), t, d - 1);
      var (c, kp) := Del(y, Key(k), t, d - 1);
      p := DelMerged(x, i, c, kp, q);
    }
  }

  lemma {:induction false} PairSorted(l: seq<int>, a: seq<int>, k: int, b: seq<int>, r: seq<int>)
    requires Sorted(l + (a + [k] + b) + r)
    ensures Sorted(a) && Sorted(b) && Sorted(a + [k] + b)
  {
    SortedParts(l, a + [k] + b, r);
    SortedParts(a, [k], b);
  }

  lemma {:induction false} DelBelowTakes(x: Node, i: nat, w: Which, t: nat, d: nat) returns (p: int)
    requires t >= 2 && d > 0 && Shape(x, t, d, 1, 2 * t - 1) && Sorted(InOrder(x)) && i <= |x.keys| && Branches(x)
    requires match w case Largest => i == |x.keys| case Smallest => i == 0 case Key(k) => k in InOrder(x.kids[i])
    ensures var (c, out) := DelBelow(x, i, w, t, d); Takes(InOrder(x), w, InOrder(c), out, p)
    decreases d, 0
  {
    hide InOrder, Left, Right, Shape, Takes, Fill;
    DelFillReady(x, i, t, d);
    var (x', j) := Fill(x, i, t);
    Focus(x', j);
    SortedParts(Left(x', j), InOrder(x'.kids[j]), Right(x', j));
    var q := DelTakes(x'.kids[j], w, t, d - 1);
    var (c, kp) := Del(x'.kids[j], w, t, d - 1);
    p := DelUp(x', j, c, w, kp, q);
  }

  /** Deleting takes out exactly the key asked for, and nothing else. */
  lemma {:induction false} DelTakes(x: Node, w: Which, t: nat, d: nat) returns (p: int)
    requires t >= 2 && Shape(x, t, d, 1, 2 * t - 1) && Sorted(InOrder(x))
    requires w.Key? ==> w.k in InOrder(x)
    ensures var (c, out) := Del(x, w, t, d); Takes(InOrder(x), w, InOrder(c), out, p)
    decreases d, 1
  {
    hide InOrder, Left, Right, Shape, Takes, DelHit, DelBelow, LowerBound;
    ShapeCases(x, t, d, 1, 2 * t - 1);
    KeysSorted(x);
    if x.kids == [] {
      LeafInOrder(x);
      p := LeafDel(x, w, t, d);
    } else if w.Key? && Hit(x.keys, w.k) {
      p := DelHitTakes(x, FindAt(x.keys, w.k), t, d);
    } else {
      if w.Key? { InChosenKid(x, w.k); }
      p := DelBelowTakes(x, ChildPlace(x.keys, w), w, t, d);
    }
  }

  /** kb_delp: an inner root left without keys gives way to its only child. */
  function Delete(root: Node, k: int, t: nat, ghost d: nat): (Node, int)
    requires t >= 2 && Shape(root, t, d, 1, 2 * t - 1)
  {
    var (r, out) := Del(root, Key(k), t, d);
    if |r.keys| == 0 && r.kids != [] then (r.kids[0], out) else (r, out)
  }

  /** Deleting a present key from any tree removes exactly that key and keeps the tree. */
  lemma {:induction false} DeleteRemoves(root: Node, k: int, t: nat, d: nat) returns (p: int, d': nat)
    requires TreeOk(root, t, d) && k in InOrder(root)
    ensures Shape(root, t, d, 1, 2 * t - 1)
    ensures var (r, out) := Delete(root, k, t, d);
      TreeOk(r, t, d') && d - 1 <= d' <= d && out == k && Takes(InOrder(root), Key(k), InOrder(r), out, p)
  {
    hide InOrder, Left, Right, Shape, Sorted, RemoveAt;
    ShapeCases(root, t, d, if d == 0 then 0 else 1, 2 * t - 1);
    if d == 0 { LeafInOrder(root); }
    ShapeWider(root, t, d, if d == 0 then 0 else 1, 2 * t - 1, 1, 2 * t - 1);
    p := DelTakes(root, Key(k), t, d);
    var (r, out) := Del(root, Key(k), t, d);
    RemoveSorted(InOrder(root), p);
    d' := Collapses(r, t, d, |root.keys| - 1);
  }

  lemma {:induction false} Collapses(r: Node, t: nat, d: nat, lo: int) returns (d': nat)
    requires t >= 2 && Shape(r, t, d, lo, 2 * t - 1) && Sorted(InOrder(r))
    ensures var r' := if |r.keys| == 0 && r.kids != [] then r.kids[0] else r;
      TreeOk(r', t, d') && d - 1 <= d' <= d && InOrder(r') == InOrder(r)
  {
    hide InOrder, Left, Right, Shape, Sorted;
    ShapeCases(r, t, d, lo, 2 * t - 1);
    if |r.keys| == 0 && r.kids != [] {
      d' := d - 1;
      Focus(r, 0);
      Ends(r);
      assert InOrder(r) == InOrder(r.kids[0]);
      KidShape(r, t, d, lo, 2 * t - 1, 0);
      ShapeCases(r.kids[0], t, d - 1, t - 1, 2 * t - 1);
      ShapeWider(r.kids[0], t, d - 1, t - 1, 2 * t - 1, if d' == 0 then 0 else 1, 2 * t - 1);
    } else {
      d' := d;
      ShapeWider(r, t, d, lo, 2 * t - 1, if d' == 0 then 0 else 1, 2 * t - 1);
    }
  }

  lemma {:induction false} RemoveSorted(s: seq<int>, p: nat)
    requires Sorted(s) && p < |s|
    ensures Sorted(RemoveAt(s, p))
  {
  }

  // ------------------------------------------------------------ the number of keys

  /** The tree with its key count, which kb_putp and kb_delp keep. */
  datatype Tree = Tree(root: Node, nKeys: int)

  function PutKey(b: Tree, k: int, t: nat, ghost d: nat): Tree
    requires t >= 2 && Shape(b.root, t, d, 0, 2 * t - 1)
  {
    Tree(Put(b.root, k, t, d), b.nKeys + 1)
  }

  function DeleteKey(b: Tree, k: int, t: nat, ghost d: nat): (Tree, int)
    requires t >= 2 && Shape(b.root, t, d, 1, 2 * t - 1)
  {
    var (r, out) := Delete(b.root, k, t, d);
    (Tree(r, b.nKeys - 1), out)
  }

  /** A whole tree whose count is right. */
  ghost predicate Counted(b: Tree, t: nat, d: nat) { TreeOk(b.root, t, d) && b.nKeys == |InOrder(b.root)| }

  /** Putting a key and deleting a present one keep the tree and its count. */
  lemma {:induction false} CountKept(b: Tree, k: int, t: nat, d: nat)
    requires Counted(b, t, d)
    ensures Shape(b.root, t, d, 0, 2 * t - 1) && exists d' :: Counted(PutKey(b, k, t, d), t, d')
    ensures k in InOrder(b.root) ==>
      Shape(b.root, t, d, 1, 2 * t - 1) && exists d' :: Counted(DeleteKey(b, k, t, d).0, t, d')
  {
    hide InOrder, Shape, Put, Delete, Fits, Sorted;
    var p, d1 := PutAdds(b.root, k, t, d);
    FitsBound(InOrder(b.root), p, k);
    assert Counted(PutKey(b, k, t, d), t, d1);
    if k in InOrder(b.root) {
      var q, d2 := DeleteRemoves(b.root, k, t, d);
      assert Counted(DeleteKey(b, k, t, d).0, t, d2);
    }
  }

  // ------------------------------------------------------------ lookup

  /** kb_getp: walks down; finds the key exactly when the tree holds it. */
  method Get(root: Node, k: int, t: nat, ghost d: nat) returns (found: bool)
    requires TreeOk(root, t, d)
    ensures found <==> k in InOrder(root)
  {
    hide InOrder, Left, Right, Shape;
    var x := root;
    ghost var e := d;
    ShapeCases(x, t, e, if d == 0 then 0 else 1, 2 * t - 1);
    ShapeWider(x, t, e, if d == 0 then 0 else 1, 2 * t - 1, 0, 2 * t - 1);
    while true
      invariant Shape(x, t, e, 0, 2 * t - 1) && Sorted(InOrder(x))
      invariant k in InOrder(root) <==> k in InOrder(x)
      decreases e
    {
      ShapeCases(x, t, e, 0, 2 * t - 1);
      KeysSorted(x);
      var i, r := GetpAux(x.keys, k);
      if i >= 0 && r == 0 {
        KeyOfNode(x, i);
        return true;
      }
      HitIff(x.keys, k);
      if x.kids == [] {
        LeafInOrder(x);
        return false;
      }
      Focus(x, i + 1);
      if k in InOrder(x) { InChosenKid(x, k); }
      SortedParts(Left(x, i + 1), InOrder(x.kids[i + 1]), Right(x, i + 1));
      KidShape(x, t, e, 0, 2 * t - 1, i + 1);
      ShapeCases(x.kids[i + 1], t, e - 1, t - 1, 2 * t - 1);
      ShapeWider(x.kids[i + 1], t, e - 1, t - 1, 2 * t - 1, 0, 2 * t - 1);
      x := x.kids[i + 1];
      e := e - 1;
    }
  }

  lemma {:induction false} KeyOfNode(x: Node, i: nat)
    requires i < |x.keys| && (x.kids == [] || Branches(x))
    ensures x.keys[i] in InOrder(x)
  {
    hide Left, Right;
    if Branches(x) { FocusPair(x, i); } else { LeafInOrder(x); }
  }
}
