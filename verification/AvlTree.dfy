/** The AVL tree with subtree sizes (deps/klib/kavl.h), on values. Insertion touches balance
    factors only from the last tilted node of the search path down; erasure walks back up until
    a subtree keeps its height. */
module AvlTree {
  import opened Bits
  import opened Sequences

  datatype Tree = Nil | Node(left: Tree, key: int, right: Tree, balance: int, size: int)

  function Child(t: Tree, right: bool): Tree
    requires t.Node?
  {
    if right then t.right else t.left
  }

  function WithChild(t: Tree, right: bool, c: Tree): (r: Tree)
    requires t.Node?
    ensures r.Node? && Child(r, right) == c && Child(r, !right) == Child(t, !right)
  {
    if right then t.(right := c) else t.(left := c)
  }

  /** The node with another child, balance and size. */
  function Rebuilt(t: Tree, right: bool, c: Tree, balance: int, size: int): (r: Tree)
    requires t.Node?
    ensures r.Node?
  {
    if right then Node(t.left, t.key, c, balance, size) else Node(c, t.key, t.right, balance, size)
  }

  function SizeOf(t: Tree): int { if t.Nil? then 0 else t.size }

  ghost function Height(t: Tree): nat {
    if t.Nil? then 0 else 1 + if Height(t.left) > Height(t.right) then Height(t.left) else Height(t.right)
  }

  ghost function InOrder(t: Tree): seq<int> {
    if t.Nil? then [] else InOrder(t.left) + [t.key] + InOrder(t.right)
  }

  /** Sizes are exact and balance factors are the true height differences, below t included. */
  ghost predicate Sound(t: Tree) {
    t.Node? ==>
      && Sound(t.left) && Sound(t.right)
      && t.balance == Height(t.right) - Height(t.left) && -1 <= t.balance <= 1
      && t.size == SizeOf(t.left) + 1 + SizeOf(t.right)
  }

  ghost predicate Ok(t: Tree) { Sound(t) && Increasing(InOrder(t)) }

  lemma {:induction false} SizeIsCount(t: Tree)
    requires Sound(t)
    ensures SizeOf(t) == |InOrder(t)|
  {
    if t.Node? { SizeIsCount(t.left); SizeIsCount(t.right); }
  }

  // ------------------------------------------------------------ rotations

  /** One rotation, to the left for dir == false. */
  function Rotate1(p: Tree, dir: bool): Tree
    requires p.Node? && Child(p, !dir).Node?
  {
    var q := Child(p, !dir);
    var p' := WithChild(p, !dir, Child(q, dir)).(size := p.size - (q.size - SizeOf(Child(q, dir))));
    WithChild(q, dir, p').(size := p.size)
  }

  /** Two rotations; the three balance factors follow from the middle node's. */
  function Rotate2(p: Tree, dir: bool): Tree
    requires p.Node? && Child(p, !dir).Node? && Child(Child(p, !dir), dir).Node?
  {
    var q := Child(p, !dir);
    var r := Child(q, dir);
    var inner := SizeOf(Child(r, dir));
    var b1 := if dir then -1 else 1;
    var p' := WithChild(p, !dir, Child(r, dir)).(size := p.size - (q.size - inner),
                                                balance := if r.balance == b1 then -b1 else 0);
    var q' := WithChild(q, dir, Child(r, !dir)).(size := q.size - (inner + 1),
                                                balance := if r.balance == b1 || r.balance == 0 then 0 else b1);
    WithChild(WithChild(r, dir, p'), !dir, q').(size := p.size, balance := 0)
  }

  /** A node two levels too heavy away from dir, everything else in order. */
  ghost predicate Leaning(p: Tree, dir: bool) {
    && p.Node? && Sound(p.left) && Sound(p.right)
    && p.size == SizeOf(p.left) + 1 + SizeOf(p.right)
    && Height(Child(p, !dir)) == Height(Child(p, dir)) + 2
  }

  function Sign(dir: bool): int { if dir then -1 else 1 }

  function WithBalance(t: Tree, b: int): Tree
    requires t.Node?
  {
    t.(balance := b)
  }

  /** Setting the balances of the two nodes a single rotation moved. */
  function Rebalanced1(p: Tree, dir: bool, top: int, low: int): Tree
    requires p.Node? && Child(p, !dir).Node?
  {
    var q := Rotate1(p, dir);
    WithChild(q, dir, WithBalance(Child(q, dir), low)).(balance := top)
  }

  /** A single rotation rights a node whose heavy child leans the same way or not at all. */
  lemma {:induction false} SingleRights(p: Tree, dir: bool)
    requires Leaning(p, dir) && Child(p, !dir).Node? && Child(p, !dir).balance != -Sign(dir)
    ensures var q := Child(p, !dir);
      var r := if q.balance == 0 then Rebalanced1(p, dir, -Sign(dir), Sign(dir)) else Rebalanced1(p, dir, 0, 0);
      && Sound(r) && InOrder(r) == InOrder(p)
      && Height(r) == Height(p) - (if q.balance == 0 then 0 else 1)
  {
    if Child(p, !dir).balance == 0 {
      SingleOrder(p, dir, -Sign(dir), Sign(dir));
    } else {
      SingleOrder(p, dir, 0, 0);
    }
    hide InOrder;
  }

  lemma {:induction false} SingleOrder(p: Tree, dir: bool, top: int, low: int)
    requires p.Node? && Child(p, !dir).Node?
    ensures InOrder(Rebalanced1(p, dir, top, low)) == InOrder(p)
  {
    var q := Child(p, !dir);
    if dir {
      assert InOrder(p) == InOrder(q.left) + [q.key] + (InOrder(q.right) + [p.key] + InOrder(p.right));
    } else {
      assert InOrder(p) == (InOrder(p.left) + [p.key] + InOrder(q.left)) + [q.key] + InOrder(q.right);
    }
  }

  /** A double rotation rights a node whose heavy child leans the other way. */
  lemma {:induction false} DoubleRights(p: Tree, dir: bool)
    requires Leaning(p, dir) && Child(p, !dir).Node? && Child(p, !dir).balance == -Sign(dir)
    ensures Child(Child(p, !dir), dir).Node?
    ensures var r := Rotate2(p, dir);
      Sound(r) && InOrder(r) == InOrder(p) && Height(r) == Height(p) - 1
  {
    var q := Child(p, !dir);
    var r := Child(q, dir);
    assert Sound(q) && Sound(r) && r.Node?;
    DoubleOrder(p, dir);
    DoubleHeights(p, dir);
  }

  lemma {:induction false} DoubleOrder(p: Tree, dir: bool)
    requires p.Node? && Child(p, !dir).Node? && Child(Child(p, !dir), dir).Node?
    ensures InOrder(Rotate2(p, dir)) == InOrder(p)
  {
    var q := Child(p, !dir);
    var r := Child(q, dir);
    if dir {
      Regroup(InOrder(q.left), q.key, InOrder(r.left), r.key, InOrder(r.right), p.key, InOrder(p.right));
      assert InOrder(q) == InOrder(q.left) + [q.key] + InOrder(r);
    } else {
      Regroup(InOrder(p.left), p.key, InOrder(r.left), r.key, InOrder(r.right), q.key, InOrder(q.right));
      assert InOrder(q) == InOrder(r) + [q.key] + InOrder(q.right);
    }
  }

  lemma {:induction false} Regroup(a: seq<int>, x: int, b: seq<int>, y: int, c: seq<int>, z: int, d: seq<int>)
    ensures (a + [x] + b) + [y] + (c + [z] + d) == (a + [x] + (b + [y] + c)) + [z] + d
    ensures (a + [x] + b) + [y] + (c + [z] + d) == a + [x] + ((b + [y] + c) + [z] + d)
  {
  }

  lemma {:induction false} DoubleHeights(p: Tree, dir: bool)
    requires Leaning(p, dir) && Child(p, !dir).Node? && Child(p, !dir).balance == -Sign(dir)
    requires var q := Child(p, !dir); var r := Child(q, dir); Sound(q) && Sound(r) && r.Node?
    ensures var t := Rotate2(p, dir); Sound(t) && Height(t) == Height(p) - 1
  {
    var q := Child(p, !dir);
    var r := Child(q, dir);
    var t := Rotate2(p, dir);
    var h := Height(Child(p, dir));
    assert Sound(r.left) && Sound(r.right) && Sound(q.left) && Sound(q.right);
    assert Height(q) == h + 2 && Height(r) == h + 1 && Height(Child(q, !dir)) == h;
    assert Height(r.left) <= h && Height(r.right) <= h;
    assert t.left.Node? && t.right.Node?;
    assert Height(t.left) == h + 1 && Height(t.right) == h + 1;
    assert Sound(t.left);
    assert Sound(t.right);
  }

  // ------------------------------------------------------------ insertion

  /** Some node on the search path for x below t, t included, is tilted. */
  predicate Tilted(t: Tree, x: int) {
    t.Node? && x != t.key && (t.balance != 0 || Tilted(Child(t, x > t.key), x))
  }

  /** The search meets x. */
  predicate Holds(t: Tree, x: int) {
    t.Node? && (x == t.key || Holds(Child(t, x > t.key), x))
  }

  /** The node below which the factors change is righted when it tips over. */
  function RightAfterInsert(p: Tree): (r: Tree)
    requires p.Node?
    ensures r.Node?
  {
    if -2 < p.balance < 2 then p
    else
      var dir := p.balance < 0;
      var q := Child(p, !dir);
      if q.Nil? then p
      else if q.balance == Sign(dir) then Rebalanced1(p, dir, 0, 0)
      else if Child(q, dir).Nil? then p
      else Rotate2(p, dir)
  }

  /** Linking in an absent key: sizes grow along the whole path, balance factors change from the
      last tilted node on (from the root if there is none). */
  function Link(t: Tree, x: int): (r: Tree)
    ensures r.Node?
  {
    if t.Nil? then Node(Nil, x, Nil, 0, 1)
    else
      var dir := x > t.key;
      var c := Link(Child(t, dir), x);
      if Tilted(Child(t, dir), x) then Rebuilt(t, dir, c, t.balance, t.size + 1)
      else RightAfterInsert(Rebuilt(t, dir, c, t.balance + (if dir then 1 else -1), t.size + 1))
  }

  /** kavl_insert: a present key leaves the tree alone. */
  function Insert(t: Tree, x: int): Tree {
    if Holds(t, x) then t else Link(t, x)
  }

  /** How many elements are at most x. */
  ghost function AtMost(s: seq<int>, x: int): (n: nat)
    ensures n <= |s|
  {
    if s == [] then 0 else (if s[0] <= x then 1 else 0) + AtMost(s[1..], x)
  }

  lemma {:induction false} AtMostAll(s: seq<int>, x: int)
    ensures (forall i :: 0 <= i < |s| ==> s[i] <= x) ==> AtMost(s, x) == |s|
    ensures (forall i :: 0 <= i < |s| ==> s[i] > x) ==> AtMost(s, x) == 0
  {
    if s != [] { AtMostAll(s[1..], x); }
  }

  lemma {:induction false} AtMostAppend(a: seq<int>, b: seq<int>, x: int)
    ensures AtMost(a + b, x) == AtMost(a, x) + AtMost(b, x)
  {
    if a == [] {
      assert a + b == b;
    } else {
      assert (a + b)[1..] == a[1..] + b;
      AtMostAppend(a[1..], b, x);
    }
  }

  lemma {:induction false} IncreasingParts(l: seq<int>, k: int, r: seq<int>)
    requires Increasing(l + [k] + r)
    ensures Increasing(l) && Increasing(r)
    ensures (forall i :: 0 <= i < |l| ==> l[i] < k) && (forall i :: 0 <= i < |r| ==> k < r[i])
  {
    var s := l + [k] + r;
    assert forall i :: 0 <= i < |l| ==> l[i] == s[i];
    assert s[|l|] == k;
    assert forall i :: 0 <= i < |r| ==> r[i] == s[|l| + 1 + i];
  }

  /** The rank splits at a node: left of it, or past it. */
  lemma {:induction false} RankSplits(l: seq<int>, k: int, r: seq<int>, x: int)
    requires Increasing(l + [k] + r)
    ensures AtMost(l + [k] + r, x) == if x < k then AtMost(l, x) else |l| + 1 + AtMost(r, x)
    ensures x < k ==> (x in l + [k] + r <==> x in l)
    ensures x > k ==> (x in l + [k] + r <==> x in r)
  {
    IncreasingParts(l, k, r);
    AtMostAppend(l + [k], r, x);
    AtMostAppend(l, [k], x);
    AtMostAll(l, x); AtMostAll(r, x); AtMostAll([k], x);
  }

  lemma {:induction false} HoldsIff(t: Tree, x: int)
    requires Increasing(InOrder(t))
    ensures Holds(t, x) <==> x in InOrder(t)
  {
    if t.Node? {
      IncreasingParts(InOrder(t.left), t.key, InOrder(t.right));
      RankSplits(InOrder(t.left), t.key, InOrder(t.right), x);
      HoldsIff(t.left, x);
      HoldsIff(t.right, x);
    }
  }

  /** Righting after the child in direction dir grew by one level. */
  lemma {:induction false} GrowthRights(t: Tree, dir: bool, c: Tree)
    requires Sound(t) && t.Node? && Sound(c) && c.Node? && SizeOf(c) == SizeOf(Child(t, dir)) + 1
    requires Height(c) == Height(Child(t, dir)) + 1 && (Child(t, dir).Node? ==> c.balance != 0)
    ensures var p := Rebuilt(t, dir, c, t.balance + (if dir then 1 else -1), t.size + 1); var r := RightAfterInsert(p);
      && Sound(r) && InOrder(r) == InOrder(p)
      && Height(r) == Height(t) + (if t.balance != 0 then 0 else 1)
      && (t.balance == 0 ==> r.Node? && r.balance != 0)
  {
    hide InOrder;
    var p := Rebuilt(t, dir, c, t.balance + (if dir then 1 else -1), t.size + 1);
    if p.balance == 2 || p.balance == -2 {
      assert dir == (p.balance == 2);
      assert Leaning(p, !dir);
      if c.balance == -Sign(!dir) { DoubleRights(p, !dir); } else { SingleRights(p, !dir); }
    }
  }

  /** Linking in an absent key: the tree stays sound, the key goes to its place, and the height
      grows exactly when no node on the path was tilted. */
  lemma {:induction false} LinkOk(t: Tree, x: int)
    requires Ok(t) && x !in InOrder(t)
    ensures var r := Link(t, x);
      && Sound(r) && InOrder(r) == InsertAt(InOrder(t), AtMost(InOrder(t), x), x)
      && Height(r) == Height(t) + (if Tilted(t, x) then 0 else 1)
      && (t.Node? && !Tilted(t, x) ==> r.balance != 0)
    decreases t
  {
    hide AtMost, InsertAt, Rebuilt, Increasing, RightAfterInsert, InOrder, Sound, Height;
    if t.Nil? {
      LinkNil(x);
    } else {
      LinkDescends(t, x);
      var dir := x > t.key;
      var c := Child(t, dir);
      LinkOk(c, x);
      var c' := Link(c, x);
      SizeIsCount(c); SizeIsCount(c');
      InsertLength(InOrder(c), AtMost(InOrder(c), x), x);
      LinkOrder(t, x, t.balance, t.size + 1);
      LinkOrder(t, x, t.balance + (if dir then 1 else -1), t.size + 1);
      if Tilted(c, x) {
        LinkSteady(t, dir, c');
      } else {
        GrowthRights(t, dir, c');
      }
    }
  }

  lemma {:induction false} LinkNil(x: int)
    ensures var r := Node(Nil, x, Nil, 0, 1);
      Sound(r) && InOrder(r) == InsertAt(InOrder(Nil), AtMost(InOrder(Nil), x), x) && Height(r) == Height(Nil) + 1
  {
  }

  lemma {:induction false} LinkDescends(t: Tree, x: int)
    requires Ok(t) && t.Node? && x !in InOrder(t)
    ensures x != t.key && Ok(Child(t, x > t.key)) && x !in InOrder(Child(t, x > t.key))
  {
    var l, k, r := InOrder(t.left), t.key, InOrder(t.right);
    assert (l + [k] + r)[|l|] == k;
    IncreasingParts(l, k, r);
  }

  lemma {:induction false} InsertLength(s: seq<int>, p: nat, x: int)
    requires p <= |s|
    ensures |InsertAt(s, p, x)| == |s| + 1
  {
  }

  /** Above the last tilted node nothing but the size changes. */
  lemma {:induction false} LinkSteady(t: Tree, dir: bool, c: Tree)
    requires Sound(t) && t.Node? && Sound(c) && SizeOf(c) == SizeOf(Child(t, dir)) + 1
      && Height(c) == Height(Child(t, dir))
    ensures var p := Rebuilt(t, dir, c, t.balance, t.size + 1); Sound(p) && Height(p) == Height(t)
  {
  }

  lemma {:induction false} LinkOrder(t: Tree, x: int, b: int, n: int)
    requires t.Node? && Increasing(InOrder(t)) && x != t.key
    requires var c := Child(t, x > t.key); InOrder(Link(c, x)) == InsertAt(InOrder(c), AtMost(InOrder(c), x), x)
    ensures InOrder(Rebuilt(t, x > t.key, Link(Child(t, x > t.key), x), b, n))
      == InsertAt(InOrder(t), AtMost(InOrder(t), x), x)
  {
    var l, k, r := InOrder(t.left), t.key, InOrder(t.right);
    RankSplits(l, k, r, x);
    InsertInParts(l, k, r, AtMost(InOrder(t), x), x);
  }

  lemma {:induction false} InsertInParts(l: seq<int>, k: int, r: seq<int>, p: nat, x: int)
    requires p <= |l| + 1 + |r|
    ensures p <= |l| ==> InsertAt(l + [k] + r, p, x) == InsertAt(l, p, x) + [k] + r
    ensures p > |l| ==> InsertAt(l + [k] + r, p, x) == l + [k] + InsertAt(r, p - |l| - 1, x)
  {
    var s := l + [k] + r;
    if p <= |l| {
      assert s[..p] == l[..p] && s[p..] == l[p..] + [k] + r;
    } else {
      var q := p - |l| - 1;
      assert s[..p] == l + [k] + r[..q] && s[p..] == r[q..];
    }
  }

  lemma {:induction false} InsertIncreasing(s: seq<int>, x: int)
    requires Increasing(s) && x !in s
    ensures Increasing(InsertAt(s, AtMost(s, x), x))
  {
    AtMostPlace(s, x);
  }

  /** In a sorted sequence the elements at most x come first. */
  lemma {:induction false} AtMostPlace(s: seq<int>, x: int)
    requires Increasing(s)
    ensures forall i :: 0 <= i < AtMost(s, x) ==> s[i] <= x
    ensures forall i :: AtMost(s, x) <= i < |s| ==> s[i] > x
  {
    if s != [] {
      if s[0] <= x {
        AtMostPlace(s[1..], x);
      } else {
        AtMostAll(s, x);
      }
    }
  }

  /** Inserting keeps the tree and adds exactly the new key; a present key changes nothing. */
  lemma {:induction false} InsertOk(t: Tree, x: int)
    requires Ok(t)
    ensures Ok(Insert(t, x))
    ensures InOrder(Insert(t, x)) == if x in InOrder(t) then InOrder(t)
      else InsertAt(InOrder(t), AtMost(InOrder(t), x), x)
    ensures Height(t) <= Height(Insert(t, x)) <= Height(t) + 1
  {
    hide InOrder, Sound, Height, Link, InsertAt;
    HoldsIff(t, x);
    if x !in InOrder(t) {
      LinkOk(t, x);
      InsertIncreasing(InOrder(t), x);
    }
  }

  // ------------------------------------------------------------ lookup and rank

  /** kavl_find: whether x is there, and how many keys are at most x. */
  method Find(root: Tree, x: int) returns (found: bool, cnt: int)
    requires Ok(root)
    ensures found <==> x in InOrder(root)
    ensures cnt == AtMost(InOrder(root), x)
  {
    hide InOrder, AtMost, Increasing;
    var p := root;
    cnt := 0;
    while p.Node?
      invariant Ok(p)
      invariant x in InOrder(root) <==> x in InOrder(p)
      invariant cnt + AtMost(InOrder(p), x) == AtMost(InOrder(root), x)
      decreases p
    {
      RankStep(p, x);
      if x >= p.key { cnt := cnt + SizeOf(p.left) + 1; }
      if x < p.key { p := p.left; } else if x > p.key { p := p.right; } else { return true, cnt; }
    }
    NoneInNil(x);
    return false, cnt;
  }

  lemma {:induction false} NoneInNil(x: int)
    ensures InOrder(Nil) == [] && AtMost(InOrder(Nil), x) == 0
  {
  }

  lemma {:induction false} RankStep(p: Tree, x: int)
    requires Ok(p) && p.Node?
    ensures Ok(p.left) && Ok(p.right)
    ensures x < p.key ==>
      AtMost(InOrder(p), x) == AtMost(InOrder(p.left), x) && (x in InOrder(p) <==> x in InOrder(p.left))
    ensures x > p.key ==>
      AtMost(InOrder(p), x) == SizeOf(p.left) + 1 + AtMost(InOrder(p.right), x)
          && (x in InOrder(p) <==> x in InOrder(p.right))
    ensures x == p.key ==> AtMost(InOrder(p), x) == SizeOf(p.left) + 1 && x in InOrder(p)
  {
    var l, k, r := InOrder(p.left), p.key, InOrder(p.right);
    IncreasingParts(l, k, r);
    RankSplits(l, k, r, x);
    SizeIsCount(p.left);
    AtMostAll(r, x);
    assert (l + [k] + r)[|l|] == k;
  }

  // ------------------------------------------------------------ erasure

  /** One step of the walk back up: child `which` of q has become one level lower. Gives the
      subtree and whether it is lower too. */
  function RightAfterShrink(q: Tree, which: bool): (Tree, bool)
    requires q.Node?
  {
    var b1 := Sign(which);
    var q' := q.(balance := q.balance + b1);
    var r := Child(q', !which);
    if q'.balance == b1 then (q', false)
    else if q'.balance == 2 * b1 && r.Node? then
      if r.balance == -b1 then (if Child(r, which).Nil? then (q', false) else (Rotate2(q', which), true))
      else if r.balance == 0 then (Rebalanced1(q', which, -b1, b1), false)
      else (Rebalanced1(q', which, 0, 0), true)
    else (q', true)
  }

  function AfterChild(q: Tree, which: bool, lower: bool): (Tree, bool)
    requires q.Node?
  {
    if lower then RightAfterShrink(q, which) else (q, false)
  }

  /** Unlinks the leftmost node: its key, the rest, and whether the rest is lower. */
  function UnlinkMin(t: Tree): (int, Tree, bool)
    requires t.Node?
  {
    if t.left.Nil? then (t.key, t.right, true)
    else
      var (m, l, lower) := UnlinkMin(t.left);
      var (r, lower') := AfterChild(Rebuilt(t, false, l, t.balance, t.size - 1), false, lower);
      (m, r, lower')
  }

  /** Unlinks the root of p: its left subtree takes its place, or the leftmost node of the right
      one with p's balance. */
  function UnlinkRoot(p: Tree): (Tree, bool)
    requires p.Node?
  {
    if p.right.Nil? then (p.left, true)
    else
      var (m, r, lower) := UnlinkMin(p.right);
      AfterChild(Node(p.left, m, r, p.balance, p.size - 1), true, lower)
  }

  function Unlink(t: Tree, x: int): (Tree, bool) {
    if t.Nil? then (t, false)
    else if x == t.key then UnlinkRoot(t)
    else
      var dir := x > t.key;
      var (c, lower) := Unlink(Child(t, dir), x);
      AfterChild(Rebuilt(t, dir, c, t.balance, t.size - 1), dir, lower)
  }

  /** kavl_erase: an absent key leaves the tree alone. */
  function Erase(t: Tree, x: int): Tree {
    if Holds(t, x) then Unlink(t, x).0 else t
  }

  /** The step back up rights the node, whatever its balance was. */
  lemma {:induction false} ShrinkRights(t: Tree, which: bool, c: Tree, lower: bool)
    requires Sound(t) && t.Node? && Sound(c) && SizeOf(c) == SizeOf(Child(t, which)) - 1
    requires Height(c) == Height(Child(t, which)) - (if lower then 1 else 0)
    ensures var q := Rebuilt(t, which, c, t.balance, t.size - 1); var (r, lower') := AfterChild(q, which, lower);
      Sound(r) && InOrder(r) == InOrder(q) && Height(r) == Height(t) - (if lower' then 1 else 0)
  {
    hide InOrder, Rotate2, Rebalanced1;
    if !lower {
    } else if t.balance == Sign(which) {
      ShrinkLeaning(t, which, c);
    } else {
      ShrinkStraight(t, which, c);
    }
  }

  lemma {:induction false} ShrinkStraight(t: Tree, which: bool, c: Tree)
    requires Sound(t) && t.Node? && Sound(c) && SizeOf(c) == SizeOf(Child(t, which)) - 1
    requires Height(c) == Height(Child(t, which)) - 1 && t.balance != Sign(which)
    ensures var q := Rebuilt(t, which, c, t.balance, t.size - 1); var (r, lower) := RightAfterShrink(q, which);
      Sound(r) && InOrder(r) == InOrder(q) && Height(r) == Height(t) - (if lower then 1 else 0)
  {
    hide InOrder, Sound, Height, Rotate2, Rebalanced1;
    StraightSound(t, which, c);
    var q := Rebuilt(t, which, c, t.balance, t.size - 1);
    var q' := Rebuilt(t, which, c, t.balance + Sign(which), t.size - 1);
    assert q' == q.(balance := q.balance + Sign(which));
    SameOrder(q, q');
  }

  lemma {:induction false} StraightSound(t: Tree, which: bool, c: Tree)
    requires Sound(t) && t.Node? && Sound(c) && SizeOf(c) == SizeOf(Child(t, which)) - 1
    requires Height(c) == Height(Child(t, which)) - 1 && t.balance != Sign(which)
    ensures -1 <= t.balance <= 1
    ensures var q := Rebuilt(t, which, c, t.balance + Sign(which), t.size - 1);
      Sound(q) && Height(q) == Height(t) - (if q.balance == 0 then 1 else 0)
  {
  }

  lemma {:induction false} ShrinkLeaning(t: Tree, which: bool, c: Tree)
    requires Sound(t) && t.Node? && Sound(c) && SizeOf(c) == SizeOf(Child(t, which)) - 1
    requires Height(c) == Height(Child(t, which)) - 1 && t.balance == Sign(which)
    ensures var q := Rebuilt(t, which, c, t.balance, t.size - 1); var (r, lower) := RightAfterShrink(q, which);
      Sound(r) && InOrder(r) == InOrder(q) && Height(r) == Height(t) - (if lower then 1 else 0)
  {
    hide InOrder, Sound, Height, Leaning, Rotate2, Rebalanced1;
    var q := Rebuilt(t, which, c, t.balance, t.size - 1);
    var q' := Rebuilt(t, which, c, t.balance + Sign(which), t.size - 1);
    assert q' == q.(balance := q.balance + Sign(which));
    SameOrder(q, q');
    NowLeaning(t, which, c);
    var r := Child(q', !which);
    if r.balance == -Sign(which) { DoubleRights(q', which); } else { SingleRights(q', which); }
  }

  lemma {:induction false} NowLeaning(t: Tree, which: bool, c: Tree)
    requires Sound(t) && t.Node? && Sound(c) && SizeOf(c) == SizeOf(Child(t, which)) - 1
    requires Height(c) == Height(Child(t, which)) - 1 && t.balance == Sign(which)
    ensures var q := Rebuilt(t, which, c, t.balance + Sign(which), t.size - 1);
      Leaning(q, which) && Height(q) == Height(t) && Child(q, !which).Node? && Child(q, !which) == Child(t, !which)
  {
  }

  lemma {:induction false} SameOrder(p: Tree, q: Tree)
    requires p.Node? && q.Node? && p.left == q.left && p.right == q.right && p.key == q.key
    ensures InOrder(p) == InOrder(q)
  {
  }

  lemma {:induction false} UnlinkMinOk(t: Tree)
    requires Sound(t) && t.Node?
    ensures InOrder(t) != []
    ensures var (m, r, lower) := UnlinkMin(t);
      && Sound(r) && [m] + InOrder(r) == InOrder(t) && SizeOf(r) == SizeOf(t) - 1
      && Height(r) == Height(t) - (if lower then 1 else 0)
    decreases t
  {
    hide Sound, Height, AfterChild;
    SoundParts(t);
    if t.left.Nil? {
      HeightAt(t);
      NoneInNil(0);
      SizeIsCount(t); SizeIsCount(t.right);
    } else {
      UnlinkMinOk(t.left);
      var (m, l, lower) := UnlinkMin(t.left);
      ShrinkRights(t, false, l, lower);
      var (r, lower') := AfterChild(Rebuilt(t, false, l, t.balance, t.size - 1), false, lower);
      assert [m] + InOrder(r) == InOrder(t);
      SizeIsCount(t); SizeIsCount(r);
    }
  }

  lemma {:induction false} SoundParts(t: Tree)
    requires Sound(t) && t.Node?
    ensures Sound(t.left) && Sound(t.right) && t.size == SizeOf(t.left) + 1 + SizeOf(t.right)
  {
  }

  lemma {:induction false} HeightAt(t: Tree)
    requires Sound(t) && t.Node?
    ensures t.left.Nil? ==> Height(t) == 1 + Height(t.right)
    ensures t.right.Nil? ==> Height(t) == 1 + Height(t.left)
  {
  }

  lemma {:induction false} UnlinkRootOk(p: Tree)
    requires Sound(p) && p.Node?
    ensures var (r, lower) := UnlinkRoot(p);
      && Sound(r) && InOrder(r) == InOrder(p.left) + InOrder(p.right)
      && Height(r) == Height(p) - (if lower then 1 else 0)
  {
    hide Sound, Height, AfterChild, InOrder, UnlinkMin;
    SoundParts(p);
    if p.right.Nil? {
      HeightAt(p);
      NoneInNil(0);
      assert InOrder(p.left) + [] == InOrder(p.left);
    } else {
      UnlinkMinOk(p.right);
      var (m, r, lower) := UnlinkMin(p.right);
      var t := Node(p.left, m, p.right, p.balance, p.size);
      Rekey(p, m);
      ShrinkRights(t, true, r, lower);
      var q := Node(p.left, m, r, p.balance, p.size - 1);
      assert Rebuilt(t, true, r, t.balance, t.size - 1) == q;
      OrderAt(q);
      Reassociate(InOrder(p.left), m, InOrder(r));
    }
  }

  lemma {:induction false} OrderAt(t: Tree)
    requires t.Node?
    ensures InOrder(t) == InOrder(t.left) + [t.key] + InOrder(t.right)
  {
  }

  lemma {:induction false} Reassociate(a: seq<int>, m: int, b: seq<int>)
    ensures a + [m] + b == a + ([m] + b)
  {
  }

  /** Shape and sizes do not depend on keys. */
  lemma {:induction false} Rekey(p: Tree, m: int)
    requires Sound(p) && p.Node?
    ensures var t := Node(p.left, m, p.right, p.balance, p.size); Sound(t) && Height(t) == Height(p)
  {
  }

  lemma {:induction false} RemoveInParts(l: seq<int>, k: int, r: seq<int>, p: nat)
    requires p < |l| + 1 + |r|
    ensures p < |l| ==> RemoveAt(l + [k] + r, p) == RemoveAt(l, p) + [k] + r && (l + [k] + r)[p] == l[p]
    ensures p == |l| ==> RemoveAt(l + [k] + r, p) == l + r && (l + [k] + r)[p] == k
    ensures p > |l| ==> RemoveAt(l + [k] + r, p) == l + [k] + RemoveAt(r, p - |l| - 1)
    ensures p > |l| ==> (l + [k] + r)[p] == r[p - |l| - 1]
  {
    var s := l + [k] + r;
    if p < |l| {
      assert s[..p] == l[..p] && s[p + 1..] == l[p + 1..] + [k] + r;
    } else if p == |l| {
      assert s[..p] == l && s[p + 1..] == r;
    } else {
      var q := p - |l| - 1;
      assert s[..p] == l + [k] + r[..q] && s[p + 1..] == r[q + 1..];
    }
  }

  /** The step down: where x is, and what removing it there means here. */
  lemma {:induction false} UnlinkOrder(t: Tree, x: int, c: Tree, b: int, n: int)
    requires Ok(t) && t.Node? && x != t.key && x in InOrder(t)
    requires var d := InOrder(Child(t, x > t.key)); var a := AtMost(d, x);
      0 < a <= |d| && d[a - 1] == x && InOrder(c) == RemoveAt(d, a - 1)
    ensures var s := InOrder(t); var a := AtMost(s, x);
      0 < a <= |s| && s[a - 1] == x && InOrder(Rebuilt(t, x > t.key, c, b, n)) == RemoveAt(s, a - 1)
  {
    hide RemoveAt, Sound;
    RankStep(t, x);
    SoundSize(t);
    var l, k, r := InOrder(t.left), t.key, InOrder(t.right);
    RemoveInParts(l, k, r, AtMost(InOrder(t), x) - 1);
  }

  lemma {:induction false} SoundSize(t: Tree)
    requires Sound(t) && t.Node?
    ensures SizeOf(t.left) == |InOrder(t.left)|
  {
    SizeIsCount(t.left);
  }

  /** Erasing a present key takes out exactly that key; the walk up keeps the tree sound and
      knows whether it became lower. */
  lemma {:induction false} UnlinkOk(t: Tree, x: int)
    requires Ok(t) && x in InOrder(t)
    ensures var (r, lower) := Unlink(t, x); var s := InOrder(t); var a := AtMost(s, x);
      && Sound(r) && 0 < a <= |s| && s[a - 1] == x && InOrder(r) == RemoveAt(s, a - 1)
      && Height(r) == Height(t) - (if lower then 1 else 0)
    decreases t
  {
    hide Sound, Height, AfterChild, RemoveAt, Increasing, AtMost;
    NoneInNil(x);
    RankStep(t, x);
    SoundParts(t);
    if x == t.key {
      UnlinkRootOk(t);
      SoundSize(t);
      RemoveInParts(InOrder(t.left), t.key, InOrder(t.right), AtMost(InOrder(t), x) - 1);
    } else {
      var dir := x > t.key;
      UnlinkOk(Child(t, dir), x);
      var (c, lower) := Unlink(Child(t, dir), x);
      UnlinkSize(Child(t, dir), c, AtMost(InOrder(Child(t, dir)), x) - 1);
      ShrinkRights(t, dir, c, lower);
      UnlinkOrder(t, x, c, t.balance, t.size - 1);
    }
  }

  lemma {:induction false} UnlinkSize(t: Tree, c: Tree, p: nat)
    requires Sound(t) && Sound(c) && p < |InOrder(t)| && InOrder(c) == RemoveAt(InOrder(t), p)
    ensures SizeOf(c) == SizeOf(t) - 1
  {
    SizeIsCount(t); SizeIsCount(c);
  }

  /** Erasing keeps the tree and removes exactly the key; an absent key changes nothing. */
  lemma {:induction false} EraseOk(t: Tree, x: int)
    requires Ok(t)
    ensures Ok(Erase(t, x))
    ensures x !in InOrder(t) ==> Erase(t, x) == t
    ensures x in InOrder(t) ==> 0 < AtMost(InOrder(t), x) && InOrder(t)[AtMost(InOrder(t), x) - 1] == x
    ensures x in InOrder(t) ==> InOrder(Erase(t, x)) == RemoveAt(InOrder(t), AtMost(InOrder(t), x) - 1)
  {
    hide Sound, Height, InOrder, Unlink;
    HoldsIff(t, x);
    if x in InOrder(t) {
      UnlinkOk(t, x);
      RemoveIncreasing(InOrder(t), AtMost(InOrder(t), x) - 1);
    }
  }

  lemma {:induction false} RemoveIncreasing(s: seq<int>, p: nat)
    requires Increasing(s) && p < |s|
    ensures Increasing(RemoveAt(s, p))
  {
  }

  // ------------------------------------------------------------ depth

  /** The least number of nodes, plus one, of a sound tree of height h. */
  ghost function Least(h: nat): nat {
    if h == 0 then 1 else if h == 1 then 2 else Least(h - 1) + Least(h - 2)
  }

  lemma {:induction false} LeastGrows(h: nat)
    ensures Least(h) <= Least(h + 1)
  {
    if h > 1 { LeastGrows(h - 1); LeastGrows(h - 2); }
  }

  lemma {:induction false} SoundHasLeast(t: Tree)
    requires Sound(t)
    ensures SizeOf(t) + 1 >= Least(Height(t))
    decreases t
  {
    if t.Node? {
      SoundHasLeast(t.left);
      SoundHasLeast(t.right);
      var h := Height(t);
      if h > 1 { LeastGrows(h - 2); }
    }
  }

  lemma {:induction false} LeastDoubles(j: nat)
    ensures Least(8 + 2 * j) >= 32 * Pow2(j)
  {
    if j == 0 {
      assert Least(2) == 3 && Least(3) == 5 && Least(4) == 8;
      assert Least(5) == 13 && Least(6) == 21 && Least(7) == 34 && Least(8) == 55;
    } else {
      LeastDoubles(j - 1);
      var h := 8 + 2 * j;
      assert Least(h) == Least(h - 1) + Least(h - 2);
      LeastGrows(h - 2);
    }
  }

  lemma {:induction false} LeastMono(a: nat, b: nat)
    requires a <= b
    ensures Least(a) <= Least(b)
  {
    if a < b { LeastMono(a, b - 1); LeastGrows(b - 1); }
  }

  lemma {:induction false} Power27(k: nat)
    ensures k == 27 ==> Pow2(k) == 0x800_0000
  {
    if k == 27 {
      assert Pow2(5) == 32;
      Pow2Add(5, 5); Pow2Add(10, 10); Pow2Add(20, 5);
      assert Pow2(10) == 1024 && Pow2(20) == 0x10_0000 && Pow2(25) == 0x200_0000;
      assert Pow2(26) == 2 * Pow2(25) && Pow2(27) == 2 * Pow2(26);
    }
  }

  /** A tree whose size fits in 32 bits has height at most 62, so a path with one entry for each
      level and one for the pointer to the root stays within 64 entries. */
  lemma {:induction false} PathsFit(t: Tree)
    requires Sound(t) && SizeOf(t) < 0x1_0000_0000
    ensures Height(t) + 1 < 64
  {
    hide Sound, Height, Least, Pow2;
    var h := Height(t);
    SoundHasLeast(t);
    if h >= 63 {
      var j := 27;
      LeastDoubles(j);
      Power27(j);
      LeastStrict(8 + 2 * j);
      LeastMono(9 + 2 * j, h);
    }
  }

  lemma {:induction false} LeastStrict(h: nat)
    ensures Least(h) < Least(h + 1)
  {
    if h > 1 { LeastStrict(h - 1); LeastStrict(h - 2); }
  }

  /** The descent of kavl_insert: the path, the place bp on it below which the balance factors
      will change, and the count. The path fits the arrays, and bp is where Link starts to
      change factors: the nodes before it, and only they, have a tilted node further down. */
  method InsertPath(root: Tree, x: int) returns (found: bool, path: seq<Tree>, bp: nat, cnt: int)
    requires Ok(root) && SizeOf(root) < 0x1_0000_0000
    ensures found <==> x in InOrder(root)
    ensures cnt == AtMost(InOrder(root), x)
    ensures |path| < 64
    ensures !found ==> forall i :: 0 <= i < |path| ==>
              path[i].Node? && (Tilted(Child(path[i], x > path[i].key), x) <==> i < bp)
  {
    hide InOrder, AtMost, Increasing, Sound, Height;
    PathsFit(root);
    var p := root;
    found, path, bp, cnt := false, [], 0, 0;
    while p.Node?
      invariant Ok(p) && |path| + Height(p) <= Height(root) && bp <= |path|
      invariant x in InOrder(root) <==> x in InOrder(p)
      invariant cnt + AtMost(InOrder(p), x) == AtMost(InOrder(root), x)
      invariant forall i :: 0 <= i < |path| ==>
              path[i].Node? && (Tilted(Child(path[i], x > path[i].key), x) <==> i < bp || Tilted(p, x))
      decreases p
    {
      RankStep(p, x);
      Lower(p);
      if x >= p.key { cnt := cnt + SizeOf(p.left) + 1; }
      if x == p.key { return true, path, bp, cnt; }
      if p.balance != 0 { bp := |path|; }
      path := path + [p];
      p := Child(p, x > p.key);
    }
    NoneInNil(x);
  }

  lemma {:induction false} Lower(t: Tree)
    requires t.Node?
    ensures Height(t.left) < Height(t) && Height(t.right) < Height(t)
  {
  }

  /** The descent of kavl_erase. The path starts with the fake root above the tree (here Nil) and
      goes down to the node's parent; if the node has a right subtree, a place for its successor
      and the nodes down to the successor's parent follow. The count is the rank of the erased key,
      0 if it is absent, and the path fits its 64 entries. */
  method ErasePath(root: Tree, x: int) returns (found: bool, path: seq<Tree>, cnt: int)
    requires Ok(root) && SizeOf(root) < 0x1_0000_0000
    ensures found <==> x in InOrder(root)
    ensures cnt == if found then AtMost(InOrder(root), x) else 0
    ensures |path| < 64
  {
    hide InOrder, AtMost, Increasing, Sound, Height;
    PathsFit(root);
    NoneInNil(x);
    path, cnt := [Nil], 0;
    var p := root;
    if p.Nil? { return false, path, 0; }
    while x != p.key
      invariant p.Node? && Ok(p) && |path| + Height(p) <= 1 + Height(root)
      invariant x in InOrder(root) <==> x in InOrder(p)
      invariant cnt + AtMost(InOrder(p), x) == AtMost(InOrder(root), x)
      decreases p
    {
      RankStep(p, x);
      Lower(p);
      if x > p.key { cnt := cnt + SizeOf(p.left) + 1; }
      path := path + [p];
      p := Child(p, x > p.key);
      if p.Nil? { return false, path, 0; }
    }
    RankStep(p, x);
    cnt := cnt + SizeOf(p.left) + 1;
    var below := SuccessorPath(p);
    path := path + below;
    found := true;
  }

  /** What is added to the path below the erased node: the successor's place and the nodes from
      the right child down to the successor's parent. */
  method SuccessorPath(p: Tree) returns (path: seq<Tree>)
    requires p.Node?
    ensures |path| < Height(p)
    ensures p.right.Nil? ==> path == []
    ensures p.right.Node? ==> path != [] && path[0].Node? && path[0].left.Nil? && path[0].key == UnlinkMin(p.right).0
  {
    hide Height;
    Lower(p);
    if p.right.Nil? {
      HeightPositive(p);
      return [];
    }
    var q := p.right;
    HeightPositive(q);
    if q.left.Nil? { return [q]; }
    var chain := [q];
    var r := q.left;
    Lower(q);
    HeightPositive(r);
    while r.left.Node?
      invariant r.Node? && 1 <= Height(r) <= Height(p.right) - |chain|
      invariant UnlinkMin(r).0 == UnlinkMin(p.right).0
      decreases r
    {
      Lower(r);
      q := r;
      chain := chain + [q];
      r := q.left;
      HeightPositive(r);
    }
    return [r] + chain;
  }

  lemma {:induction false} HeightPositive(t: Tree)
    requires t.Node?
    ensures Height(t) > 0
  {
  }
}
