/** Reading and writing trees in the New Hampshire format (deps/klib/knhx.c), without distances
    and comments. The parser keeps a stack of pending nodes, with -1 for an open parenthesis, and
    appends nodes in post-order. */
module Newick {

  /** A node of the array: its parent (-1 for none), its children and its name. */
  datatype Node = Node(parent: int, child: seq<int>, name: string)

  datatype State = State(p: nat, stack: seq<int>, nodes: seq<Node>, bad: bool)

  /** A visible character in the C locale. */
  predicate IsGraph(c: char) { '!' <= c <= '~' }

  predicate Stops(c: char) { c == ',' || c == ')' }

  // ------------------------------------------------------------ the parser's steps

  /** Where the scan of add_node ends. */
  function ScanEnd(s: string, p: nat): (e: nat)
    requires p <= |s|
    ensures p <= e <= |s| && (e < |s| ==> Stops(s[e])) && (forall i :: p <= i < e ==> !Stops(s[i]))
    decreases |s| - p
  {
    if p == |s| || Stops(s[p]) then p else ScanEnd(s, p + 1)
  }

  /** Where the name ends: at the first invisible character, if there is one. */
  function NameEnd(s: string, p: nat, e: nat): (n: nat)
    requires p <= e <= |s|
    ensures p <= n <= e && (n < e ==> !IsGraph(s[n])) && (forall i :: p <= i < n ==> IsGraph(s[i]))
    decreases e - p
  {
    if p == e || !IsGraph(s[p]) then p else NameEnd(s, p + 1, e)
  }

  /** Skipping invisible characters. */
  function SkipBlank(s: string, p: nat): (q: nat)
    requires p <= |s|
    ensures p <= q <= |s| && (q < |s| ==> IsGraph(s[q]))
    decreases |s| - p
  {
    if p == |s| || IsGraph(s[p]) then p else SkipBlank(s, p + 1)
  }

  /** The position of the last open parenthesis on the stack, or -1. */
  function LastOpen(stack: seq<int>): (i: int)
    ensures -1 <= i < |stack| && (i >= 0 ==> stack[i] < 0) && (forall j :: i < j < |stack| ==> stack[j] >= 0)
  {
    if stack == [] then -1
    else if stack[|stack| - 1] < 0 then |stack| - 1
    else LastOpen(stack[..|stack| - 1])
  }

  /** The nodes with x as parent of every node in kids. */
  function Adopted(nodes: seq<Node>, kids: seq<int>, x: int): (r: seq<Node>)
    ensures |r| == |nodes|
  {
    seq(|nodes|, i requires 0 <= i < |nodes| => if i in kids then nodes[i].(parent := x) else nodes[i])
  }

  lemma {:induction false} AdoptedAt(nodes: seq<Node>, kids: seq<int>, x: int, i: int)
    requires 0 <= i < |nodes|
    ensures Adopted(nodes, kids, x)[i] == if i in kids then nodes[i].(parent := x) else nodes[i]
  {
  }

  /** One round of kn_parse's loop. A closing parenthesis without an open one makes the source
      leave its stack; here it ends the run. */
  function Step(s: string, st: State): (r: State)
    requires st.p < |s|
    ensures st.p < r.p <= |s|
  {
    var q := SkipBlank(s, st.p);
    if q == |s| then st.(p := q)
    else if s[q] == ',' then st.(p := q + 1)
    else if s[q] == '(' then State(q + 1, st.stack + [-1], st.nodes, st.bad)
    else if s[q] == ')' then
      var i := LastOpen(st.stack);
      var kids := st.stack[i + 1..];
      var x := |st.nodes|;
      var e := ScanEnd(s, q + 1);
      var name := s[q + 1..NameEnd(s, q + 1, e)];
      if i < 0 then State(|s|, [], st.nodes, true)
      else State(e, st.stack[..i] + [x], Adopted(st.nodes + [Node(-1, kids, name)], kids, x), st.bad)
    else
      var e := ScanEnd(s, q);
      State(e, st.stack + [|st.nodes|], st.nodes + [Node(-1, [], s[q..NameEnd(s, q, e)])], st.bad)
  }

  function Run(s: string, st: State): State
    requires st.p <= |s|
    decreases |s| - st.p
  {
    if st.p == |s| then st else Run(s, Step(s, st))
  }

  const START := State(0, [], [], false)

  // ------------------------------------------------------------ trees

  datatype Tree = Tree(name: string, kids: seq<Tree>)

  function Count(t: Tree): (n: nat)
    ensures n >= 1
    decreases t, |t.kids| + 1
  {
    CountKids(t, |t.kids|) + 1
  }

  /** Nodes in the first i children. */
  function CountKids(t: Tree, i: nat): nat
    requires i <= |t.kids|
    decreases t, i
  {
    if i == 0 then 0 else CountKids(t, i - 1) + Count(t.kids[i - 1])
  }

  /** The tree's nodes in post-order, numbered from base, the root's parent given. */
  function Post(t: Tree, base: nat, parent: int): seq<Node>
    decreases t, |t.kids| + 1
  {
    PostKids(t, |t.kids|, base, base + Count(t) - 1)
    + [Node(parent, Roots(t, |t.kids|, base), t.name)]
  }

  function PostKids(t: Tree, i: nat, base: nat, parent: int): seq<Node>
    requires i <= |t.kids|
    decreases t, i
  {
    if i == 0 then []
    else PostKids(t, i - 1, base, parent) + Post(t.kids[i - 1], base + CountKids(t, i - 1), parent)
  }

  /** The numbers of the first i children. */
  function Roots(t: Tree, i: nat, base: nat): seq<int>
    requires i <= |t.kids|
  {
    if i == 0 then [] else Roots(t, i - 1, base) + [base + CountKids(t, i) - 1]
  }

  function Format(t: Tree): string
    decreases t, |t.kids| + 1
  {
    if t.kids == [] then t.name else "(" + FormatKids(t, |t.kids|) + ")" + t.name
  }

  function FormatKids(t: Tree, i: nat): string
    requires i <= |t.kids|
    decreases t, i
  {
    if i == 0 then "" else FormatKids(t, i - 1) + (if i > 1 then "," else "") + Format(t.kids[i - 1])
  }

  /** Visible characters other than , ) : and [. */
  predicate NameChar(c: char) { IsGraph(c) && c != ',' && c != ')' && c != ':' && c != '[' }

  ghost predicate Names(t: Tree) {
    && (forall i :: 0 <= i < |t.name| ==> NameChar(t.name[i]))
    && (t.kids == [] ==> t.name != "" && t.name[0] != '(')
    && (forall i :: 0 <= i < |t.kids| ==> Names(t.kids[i]))
  }

  // ------------------------------------------------------------ counting

  lemma {:induction false} PostLength(t: Tree, base: nat, parent: int)
    ensures |Post(t, base, parent)| == Count(t)
    decreases t, |t.kids| + 1
  {
    PostKidsLength(t, |t.kids|, base, base + Count(t) - 1);
  }

  lemma {:induction false} PostKidsLength(t: Tree, i: nat, base: nat, parent: int)
    requires i <= |t.kids|
    ensures |PostKids(t, i, base, parent)| == CountKids(t, i)
    decreases t, i
  {
    if i > 0 {
      PostKidsLength(t, i - 1, base, parent);
      PostLength(t.kids[i - 1], base + CountKids(t, i - 1), parent);
    }
  }

  lemma {:induction false} RootsFacts(t: Tree, i: nat, base: nat)
    requires i <= |t.kids|
    ensures |Roots(t, i, base)| == i
    ensures forall j :: 0 <= j < i ==> base <= Roots(t, i, base)[j] < base + CountKids(t, i)
  {
    if i > 0 { RootsFacts(t, i - 1, base); }
  }

  /** Changing the parent of the last node of a subtree changes the subtree's parent. */
  lemma {:induction false} PostParent(t: Tree, base: nat, a: int, b: int)
    ensures |Post(t, base, a)| == |Post(t, base, b)| == Count(t)
    ensures Post(t, base, b) == Post(t, base, a)[Count(t) - 1 := Post(t, base, a)[Count(t) - 1].(parent := b)]
  {
    PostLength(t, base, a); PostLength(t, base, b);
    var n := Count(t) - 1;
    PostKidsLength(t, |t.kids|, base, base + n);
  }

  /** Adopting the children of t turns their pending subtrees into t's. */
  lemma {:induction false} AdoptKids(t: Tree, i: nat, base: nat, x: int, j: nat)
    requires i <= |t.kids| && j < CountKids(t, i)
    ensures |PostKids(t, i, base, -1)| == |PostKids(t, i, base, x)| == CountKids(t, i)
    ensures PostKids(t, i, base, x)[j]
         == if base + j in Roots(t, i, base) then PostKids(t, i, base, -1)[j].(parent := x)
             else PostKids(t, i, base, -1)[j]
    decreases i
  {
    PostKidsLength(t, i, base, -1); PostKidsLength(t, i, base, x);
    PostKidsLength(t, i - 1, base, -1); PostKidsLength(t, i - 1, base, x);
    RootsFacts(t, i - 1, base);
    var n := CountKids(t, i - 1);
    PostParent(t.kids[i - 1], base + n, -1, x);
    if j < n { AdoptKids(t, i - 1, base, x, j); }
  }

  lemma {:induction false} PostIs(t: Tree, base: nat, parent: int)
    ensures Post(t, base, parent)
         == PostKids(t, |t.kids|, base, base + Count(t) - 1) + [Node(parent, Roots(t, |t.kids|, base), t.name)]
  {
  }

  /** b is a with x as parent of the entries that kids names, numbered from base. */
  ghost predicate AdoptedAs(a: seq<Node>, b: seq<Node>, base: nat, kids: seq<int>, x: int) {
    && |a| == |b|
    && forall j :: 0 <= j < |a| ==> b[j] == if base + j in kids then a[j].(parent := x) else a[j]
  }

  /** Adoption, entry by entry. */
  lemma {:induction false} AdoptSeq(ns: seq<Node>, a: seq<Node>, b: seq<Node>, last: Node, kids: seq<int>, x: int)
    requires AdoptedAs(a, b, |ns|, kids, x)
    requires forall i :: 0 <= i < |kids| ==> |ns| <= kids[i] < |ns| + |a|
    ensures Adopted(ns + a + [last], kids, x) == ns + (b + [last])
  {
    var all, want := ns + a + [last], ns + (b + [last]);
    var r := Adopted(all, kids, x);
    forall k | 0 <= k < |all| ensures r[k] == want[k] {
      AdoptedAt(all, kids, x, k);
      if |ns| <= k < |ns| + |a| { assert b[k - |ns|] == want[k] && a[k - |ns|] == all[k]; }
    }
  }

  lemma {:induction false} AdoptAll(t: Tree, i: nat, base: nat, x: int)
    requires i <= |t.kids|
    ensures AdoptedAs(PostKids(t, i, base, -1), PostKids(t, i, base, x), base, Roots(t, i, base), x)
  {
    hide PostKids, Roots, CountKids;
    PostKidsLength(t, i, base, -1); PostKidsLength(t, i, base, x);
    var a, b, kids := PostKids(t, i, base, -1), PostKids(t, i, base, x), Roots(t, i, base);
    forall j | 0 <= j < |a| ensures b[j] == if base + j in kids then a[j].(parent := x) else a[j] {
      AdoptKids(t, i, base, x, j);
    }
  }

  lemma {:induction false} AdoptTree(t: Tree, ns: seq<Node>, x: nat)
    requires x == |ns| + Count(t) - 1
    ensures var kids := Roots(t, |t.kids|, |ns|);
      Adopted(ns + PostKids(t, |t.kids|, |ns|, -1) + [Node(-1, kids, t.name)], kids, x) == ns + Post(t, |ns|, -1)
  {
    hide Post, PostKids, Roots, Count, CountKids, Adopted, AdoptedAs;
    var i, base := |t.kids|, |ns|;
    PostKidsLength(t, i, base, -1);
    RootsFacts(t, i, base);
    PostIs(t, base, -1);
    AdoptAll(t, i, base, x);
    AdoptSeq(ns, PostKids(t, i, base, -1), PostKids(t, i, base, x), Node(-1, Roots(t, i, base), t.name),
        Roots(t, i, base), x);
  }

  // ------------------------------------------------------------ parsing what was written

  ghost predicate At(s: string, p: nat, f: string) { p + |f| <= |s| && s[p..p + |f|] == f }

  lemma {:induction false} AtSplit(s: string, p: nat, a: string, b: string)
    requires At(s, p, a + b)
    ensures At(s, p, a) && At(s, p + |a|, b)
  {
    var f := a + b;
    assert s[p..p + |a|] == s[p..p + |f|][..|a|];
    assert s[p + |a|..p + |a| + |b|] == s[p..p + |f|][|a|..];
  }

  lemma {:induction false} AtChar(s: string, p: nat, f: string, i: nat)
    requires At(s, p, f) && i < |f|
    ensures s[p + i] == f[i]
  {
    assert s[p + i] == s[p..p + |f|][i];
  }

  ghost predicate Follows(s: string, e: nat) { e == |s| || (e < |s| && Stops(s[e])) }

  /** A name is read to its end and no further. */
  lemma {:induction false} NameRead(s: string, p: nat, e: nat)
    requires p <= e <= |s| && Follows(s, e) && forall i :: p <= i < e ==> NameChar(s[i])
    ensures ScanEnd(s, p) == e && NameEnd(s, p, e) == e
    decreases e - p
  {
    if p < e { NameRead(s, p + 1, e); }
  }

  /** The state after a subtree has been read. */
  ghost function AfterTree(st: State, t: Tree): State {
    State(st.p + |Format(t)|, st.stack + [|st.nodes| + Count(t) - 1], st.nodes + Post(t, |st.nodes|, -1), st.bad)
  }

  ghost function AfterKids(st: State, t: Tree, i: nat): State
    requires i <= |t.kids|
  {
    State(st.p + |FormatKids(t, i)|, st.stack + Roots(t, i, |st.nodes|), st.nodes + PostKids(t, i, |st.nodes|, -1),
        st.bad)
  }

  lemma {:induction false} ReadLeaf(s: string, st: State, t: Tree)
    requires Names(t) && t.kids == [] && At(s, st.p, Format(t)) && Follows(s, st.p + |Format(t)|)
    ensures Run(s, st) == Run(s, AfterTree(st, t))
  {
    hide Run, Post, Count;
    LeafPost(t, |st.nodes|);
    var p, e := st.p, st.p + |t.name|;
    forall i | p <= i < e ensures NameChar(s[i]) { AtChar(s, p, t.name, i - p); }
    NameRead(s, p, e);
    AtChar(s, p, t.name, 0);
    assert Step(s, st) == AfterTree(st, t);
    RunStep(s, st);
  }

  lemma {:induction false} LeafPost(t: Tree, base: nat)
    requires t.kids == []
    ensures Count(t) == 1 && Post(t, base, -1) == [Node(-1, [], t.name)]
  {
  }

  lemma {:induction false} RunStep(s: string, st: State)
    requires st.p < |s|
    ensures Run(s, st) == Run(s, Step(s, st))
  {
  }

  /** Reading a formatted subtree from any state. */
  lemma {:induction false} ReadTree(s: string, st: State, t: Tree)
    requires Names(t) && At(s, st.p, Format(t)) && Follows(s, st.p + |Format(t)|)
    ensures Run(s, st) == Run(s, AfterTree(st, t))
    decreases t, |t.kids| + 1
  {
    hide Run, Post, PostKids, Roots, Count, CountKids, Format, FormatKids, At, Follows;
    if t.kids == [] {
      ReadLeaf(s, st, t);
    } else {
      var n := |t.kids|;
      var body := FormatKids(t, n);
      InnerParts(s, st.p, t);
      var st1 := State(st.p + 1, st.stack + [-1], st.nodes, st.bad);
      ReadOpen(s, st);
      ReadKids(s, st1, t, n);
      ReadClose(s, st, t);
    }
  }

  lemma {:induction false} FormatInner(t: Tree)
    requires t.kids != []
    ensures Format(t) == "(" + (FormatKids(t, |t.kids|) + (")" + t.name))
  {
  }

  /** Where the parts of a written inner node are. */
  lemma {:induction false} InnerParts(s: string, p: nat, t: Tree)
    requires t.kids != [] && At(s, p, Format(t))
    ensures var body := FormatKids(t, |t.kids|); var q := p + 1 + |body|;
            && At(s, p, "(") && At(s, p + 1, body) && At(s, q, ")") && At(s, q + 1, t.name)
            && Follows(s, q) && q < |s| && p + |Format(t)| == q + 1 + |t.name|
  {
    hide FormatKids, At, Follows;
    var body := FormatKids(t, |t.kids|);
    FormatInner(t);
    hide Format;
    AtSplit(s, p, "(", body + (")" + t.name));
    AtSplit(s, p + 1, body, ")" + t.name);
    AtSplit(s, p + 1 + |body|, ")", t.name);
    AtStop(s, p + 1 + |body|, ")");
  }

  lemma {:induction false} AtStop(s: string, p: nat, f: string)
    requires At(s, p, f) && f != "" && Stops(f[0])
    ensures Follows(s, p) && p < |s|
  {
    AtChar(s, p, f, 0);
  }

  lemma {:induction false} AtLength(s: string, p: nat, f: string)
    requires At(s, p, f)
    ensures p + |f| <= |s|
  {
  }

  /** One more child: the text, the number and the nodes it adds. */
  lemma {:induction false} KidsUnfold(t: Tree, i: nat, base: nat)
    requires 0 < i <= |t.kids|
    ensures FormatKids(t, i) == FormatKids(t, i - 1) + ((if i > 1 then "," else "") + Format(t.kids[i - 1]))
    ensures Roots(t, i, base) == Roots(t, i - 1, base) + [base + CountKids(t, i - 1) + Count(t.kids[i - 1]) - 1]
    ensures PostKids(t, i, base, -1)
      == PostKids(t, i - 1, base, -1) + Post(t.kids[i - 1], base + CountKids(t, i - 1), -1)
  {
  }

  lemma {:induction false} ReadOpen(s: string, st: State)
    requires At(s, st.p, "(")
    ensures Run(s, st) == Run(s, State(st.p + 1, st.stack + [-1], st.nodes, st.bad))
  {
    hide Run;
    AtChar(s, st.p, "(", 0);
    RunStep(s, st);
  }

  lemma {:induction false} ReadComma(s: string, st: State)
    requires At(s, st.p, ",")
    ensures Run(s, st) == Run(s, st.(p := st.p + 1))
  {
    hide Run;
    AtChar(s, st.p, ",", 0);
    RunStep(s, st);
  }

  lemma {:induction false} ReadKids(s: string, st: State, t: Tree, i: nat)
    requires Names(t) && i <= |t.kids| && At(s, st.p, FormatKids(t, i))
    requires Follows(s, st.p + |FormatKids(t, i)|)
    ensures Run(s, st) == Run(s, AfterKids(st, t, i))
    decreases t, i
  {
    hide Run, Post, PostKids, Roots, Count, CountKids, Format, FormatKids, At, Follows;
    NoKids(t, |st.nodes|);
    if i == 0 {
      assert AfterKids(st, t, 0) == st;
    } else {
      var before, comma, kid := FormatKids(t, i - 1), if i > 1 then "," else "", t.kids[i - 1];
      KidsUnfold(t, i, |st.nodes|);
      AtSplit(s, st.p, before, comma + Format(kid));
      AtSplit(s, st.p + |before|, comma, Format(kid));
      AtLength(s, st.p + |before|, comma);
      AtLength(s, st.p + |before| + |comma|, Format(kid));
      var st1 := AfterKids(st, t, i - 1);
      if i > 1 {
        AtStop(s, st.p + |before|, ",");
        ReadKids(s, st, t, i - 1);
        ReadComma(s, st1);
      } else {
        assert st1 == st;
      }
      var st2 := st1.(p := st1.p + |comma|);
      ReadTree(s, st2, kid);
      PostKidsLength(t, i - 1, |st.nodes|, -1);
      AfterOneMore(st, t, i, |comma|);
    }
  }

  lemma {:induction false} NoKids(t: Tree, base: nat)
    ensures FormatKids(t, 0) == "" && Roots(t, 0, base) == [] && PostKids(t, 0, base, -1) == []
  {
  }

  lemma {:induction false} AfterOneMore(st: State, t: Tree, i: nat, comma: nat)
    requires 0 < i <= |t.kids| && comma == if i > 1 then 1 else 0
    ensures var st1 := AfterKids(st, t, i - 1);
      AfterTree(st1.(p := st1.p + comma), t.kids[i - 1]) == AfterKids(st, t, i)
  {
    hide Post, PostKids, Roots, Count, CountKids, Format, FormatKids;
    KidsUnfold(t, i, |st.nodes|);
    PostKidsLength(t, i - 1, |st.nodes|, -1);
  }

  /** The closing parenthesis gathers the children and names their parent. */
  lemma {:induction false} ReadClose(s: string, st: State, t: Tree)
    requires Names(t) && t.kids != []
    requires var st2 := AfterKids(State(st.p + 1, st.stack + [-1], st.nodes, st.bad), t, |t.kids|);
      At(s, st2.p, ")") && At(s, st2.p + 1, t.name) && Follows(s, st2.p + 1 + |t.name|)
    ensures var st2 := AfterKids(State(st.p + 1, st.stack + [-1], st.nodes, st.bad), t, |t.kids|);
      Run(s, st2) == Run(s, AfterTree(st, t))
  {
    hide Run, Post, PostKids, Roots, Count, CountKids, Format, FormatKids, Adopted, ScanEnd, NameEnd, LastOpen;
    var n := |t.kids|;
    var st2 := AfterKids(State(st.p + 1, st.stack + [-1], st.nodes, st.bad), t, n);
    var q, kids := st2.p, Roots(t, n, |st.nodes|);
    AtChar(s, q, ")", 0);
    var e := q + 1 + |t.name|;
    forall i | q + 1 <= i < e ensures NameChar(s[i]) { AtChar(s, q + 1, t.name, i - q - 1); }
    NameRead(s, q + 1, e);
    RootsFacts(t, n, |st.nodes|);
    OpenFound(st.stack, kids);
    PostKidsLength(t, n, |st.nodes|, -1);
    CountIs(t);
    AdoptTree(t, st.nodes, |st.nodes| + Count(t) - 1);
    FormatInner(t);
    assert s[q + 1..e] == t.name;
    assert Step(s, st2) == AfterTree(st, t);
    RunStep(s, st2);
  }

  lemma {:induction false} CountIs(t: Tree)
    ensures Count(t) == CountKids(t, |t.kids|) + 1
  {
  }

  lemma {:induction false} LastOpenIs(s: seq<int>, k: nat)
    requires k < |s| && s[k] < 0 && forall j :: k < j < |s| ==> s[j] >= 0
    ensures LastOpen(s) == k
  {
    hide LastOpen;
  }

  lemma {:induction false} OpenSlices(stack: seq<int>, kids: seq<int>)
    ensures (stack + [-1] + kids)[..|stack|] == stack && (stack + [-1] + kids)[|stack| + 1..] == kids
    ensures (stack + [-1] + kids)[|stack|] == -1
  {
  }

  lemma {:induction false} NoOpenAbove(stack: seq<int>, kids: seq<int>, j: int)
    requires |stack| < j < |stack| + 1 + |kids| && kids[j - |stack| - 1] >= 0
    ensures (stack + [-1] + kids)[j] >= 0
  {
  }

  lemma {:induction false} OpenFound(stack: seq<int>, kids: seq<int>)
    requires forall i :: 0 <= i < |kids| ==> kids[i] >= 0
    ensures LastOpen(stack + [-1] + kids) == |stack|
    ensures (stack + [-1] + kids)[..|stack|] == stack && (stack + [-1] + kids)[|stack| + 1..] == kids
  {
    hide LastOpen;
    var s := stack + [-1] + kids;
    OpenSlices(stack, kids);
    forall j | |stack| < j < |s| ensures s[j] >= 0 { NoOpenAbove(stack, kids, j); }
    LastOpenIs(s, |stack|);
  }

  /** Parsing a written tree gives its nodes in post-order, with the same names, parents and
      child lists, and one entry on the stack. */
  lemma {:induction false} ParseFormat(t: Tree)
    requires Names(t)
    ensures Run(Format(t), START) == State(|Format(t)|, [Count(t) - 1], Post(t, 0, -1), false)
  {
    hide Post, Format;
    var s := Format(t);
    assert s[0..0 + |s|] == s;
    ReadTree(s, START, t);
    assert [] + Post(t, 0, -1) == Post(t, 0, -1);
    assert AfterTree(START, t) == State(|s|, [Count(t) - 1], Post(t, 0, -1), false);
  }

  /** Leaf names must not be empty: two unnamed leaves under r are written as text that reads
      back as r alone. */
  lemma {:induction false} EmptyLeavesAreLost()
    ensures var t := Tree("r", [Tree("", []), Tree("", [])]);
      Format(t) == "(,)r" && Count(t) == 3 && Run("(,)r", START).nodes == [Node(-1, [], "r")]
  {
    var t := Tree("r", [Tree("", []), Tree("", [])]);
    assert FormatKids(t, 1) == "" && FormatKids(t, 2) == ",";
    assert CountKids(t, 1) == 1 && CountKids(t, 2) == 2;
    EmptyPairRun("(,)r");
  }

  lemma {:induction false} EmptyPairRun(s: string)
    requires s == "(,)r"
    ensures Run(s, START).nodes == [Node(-1, [], "r")]
  {
    hide Run, ScanEnd, NameEnd, LastOpen, Adopted;
    ReadOpen(s, START);
    var st1 := State(1, [] + [-1], [], false);
    assert st1 == State(START.p + 1, START.stack + [-1], START.nodes, START.bad);
    assert Run(s, START) == Run(s, st1);
    ReadComma(s, st1);
    var st2 := State(2, [] + [-1] + [], [], false);
    assert st2 == st1.(p := st1.p + 1);
    assert Run(s, START) == Run(s, st2);
    NameRead(s, 3, 4);
    OpenFound([], []);
    var r := [] + [Node(-1, [], "r")];
    AdoptedAt(r, [], 0, 0);
    assert Adopted(r, [], 0) == r;
    assert s[3..4] == "r";
    assert Step(s, st2) == State(4, [] + [0], r, false);
    RunStep(s, st2);
    RunEnds(s, State(4, [] + [0], r, false));
  }

  // ------------------------------------------------------------ writing from the node array

  /** Children come before their parents. */
  ghost predicate Ordered(nodes: seq<Node>) {
    forall i, k :: 0 <= i < |nodes| && 0 <= k < |nodes[i].child| ==> 0 <= nodes[i].child[k] < i
  }

  /** format_node_recur: writes node i. */
  function FormatNode(nodes: seq<Node>, i: nat): string
    requires Ordered(nodes) && i < |nodes|
    decreases i, |nodes[i].child| + 1
  {
    var c := nodes[i].child;
    if c == [] then nodes[i].name else "(" + FormatChildren(nodes, i, |c|) + ")" + nodes[i].name
  }

  function FormatChildren(nodes: seq<Node>, i: nat, k: nat): string
    requires Ordered(nodes) && i < |nodes| && k <= |nodes[i].child|
    decreases i, k
  {
    if k == 0 then ""
    else FormatChildren(nodes, i, k - 1) + (if k > 1 then "," else "") + FormatNode(nodes, nodes[i].child[k - 1])
  }

  ghost predicate Holds(nodes: seq<Node>, base: nat, part: seq<Node>) {
    base + |part| <= |nodes| && nodes[base..base + |part|] == part
  }

  lemma {:induction false} HoldsSplit(nodes: seq<Node>, base: nat, a: seq<Node>, b: seq<Node>)
    requires Holds(nodes, base, a + b)
    ensures Holds(nodes, base, a) && Holds(nodes, base + |a|, b)
  {
    var f := a + b;
    assert nodes[base..base + |a|] == nodes[base..base + |f|][..|a|];
    assert nodes[base + |a|..base + |a| + |b|] == nodes[base..base + |f|][|a|..];
  }

  /** Writing the array of a tree writes the tree. */
  lemma {:induction false} FormatTree(nodes: seq<Node>, t: Tree, base: nat, parent: int)
    requires Ordered(nodes) && Holds(nodes, base, Post(t, base, parent))
    ensures base + Count(t) - 1 < |nodes| && FormatNode(nodes, base + Count(t) - 1) == Format(t)
    decreases t, |t.kids| + 1
  {
    hide Post, PostKids, Roots, CountKids, Ordered;
    var n, x := |t.kids|, base + Count(t) - 1;
    PostLength(t, base, parent);
    PostIs(t, base, parent);
    PostKidsLength(t, n, base, x);
    CountIs(t);
    HoldsSplit(nodes, base, PostKids(t, n, base, x), [Node(parent, Roots(t, n, base), t.name)]);
    assert nodes[x] == nodes[x..x + 1][0];
    assert nodes[x] == Node(parent, Roots(t, n, base), t.name);
    RootsFacts(t, n, base);
    FormatFirst(nodes, t, base, x, n);
  }

  lemma {:induction false} FormatFirst(nodes: seq<Node>, t: Tree, base: nat, x: nat, i: nat)
    requires Ordered(nodes) && x < |nodes| && i <= |t.kids| == |nodes[x].child|
      && nodes[x].child == Roots(t, |t.kids|, base)
    requires Holds(nodes, base, PostKids(t, i, base, x))
    ensures FormatChildren(nodes, x, i) == FormatKids(t, i)
    decreases t, i
  {
    hide Post, PostKids, Roots, CountKids, Ordered, FormatNode, Format;
    if i > 0 {
      var n, kid := CountKids(t, i - 1), t.kids[i - 1];
      PostKidsStep(t, i, base, x);
      PostKidsLength(t, i - 1, base, x);
      HoldsSplit(nodes, base, PostKids(t, i - 1, base, x), Post(kid, base + n, x));
      FormatFirst(nodes, t, base, x, i - 1);
      FormatTree(nodes, kid, base + n, x);
      RootAt(t, |t.kids|, base, i - 1);
    }
  }

  lemma {:induction false} PostKidsStep(t: Tree, i: nat, base: nat, x: int)
    requires 0 < i <= |t.kids|
    ensures PostKids(t, i, base, x) == PostKids(t, i - 1, base, x) + Post(t.kids[i - 1], base + CountKids(t, i - 1), x)
  {
  }

  lemma {:induction false} RootAt(t: Tree, i: nat, base: nat, k: nat)
    requires k < i <= |t.kids|
    ensures |Roots(t, i, base)| == i && Roots(t, i, base)[k] == base + CountKids(t, k) + Count(t.kids[k]) - 1
    decreases i
  {
    RootsFacts(t, i - 1, base);
    if k < i - 1 { RootAt(t, i - 1, base, k); }
  }

  /** In a post-order array children come first. */
  lemma {:induction false} PostOrdered(t: Tree, base: nat, parent: int, j: nat, k: nat)
    requires j < |Post(t, base, parent)| && k < |Post(t, base, parent)[j].child|
    ensures base <= Post(t, base, parent)[j].child[k] < base + j
    decreases t, |t.kids| + 1
  {
    var n := |t.kids|;
    PostKidsLength(t, n, base, base + Count(t) - 1);
    RootsFacts(t, n, base);
    if j < CountKids(t, n) { PostKidsOrdered(t, n, base, base + Count(t) - 1, j, k); }
  }

  lemma {:induction false} PostKidsOrdered(t: Tree, i: nat, base: nat, x: int, j: nat, k: nat)
    requires i <= |t.kids| && j < |PostKids(t, i, base, x)| && k < |PostKids(t, i, base, x)[j].child|
    ensures base <= PostKids(t, i, base, x)[j].child[k] < base + j
    decreases t, i
  {
    PostKidsLength(t, i - 1, base, x);
    var n := CountKids(t, i - 1);
    if j < n { PostKidsOrdered(t, i - 1, base, x, j, k); } else { PostOrdered(t.kids[i - 1], base + n, x, j - n, k); }
  }

  /** Every tree with admissible names, written from its node array, is read back as the same
      array. */
  lemma {:induction false} RoundTrip(t: Tree)
    requires Names(t)
    ensures Ordered(Post(t, 0, -1)) && |Post(t, 0, -1)| == Count(t)
    ensures Run(FormatNode(Post(t, 0, -1), Count(t) - 1), START).nodes == Post(t, 0, -1)
  {
    hide Post, Format, FormatNode, Run, Names;
    WrittenFrom(t);
    ParseFormat(t);
  }

  // ------------------------------------------------------------ which trees come back

  /** Names without the characters that begin a distance or a comment. */
  ghost predicate Unmarked(t: Tree) {
    && (forall i :: 0 <= i < |t.name| ==> t.name[i] != ':' && t.name[i] != '[')
    && (forall i :: 0 <= i < |t.kids| ==> Unmarked(t.kids[i]))
  }

  /** Names of the right characters, whatever their first one. */
  ghost predicate Spelled(t: Tree) {
    && (forall i :: 0 <= i < |t.name| ==> NameChar(t.name[i]))
    && (forall i :: 0 <= i < |t.kids| ==> Spelled(t.kids[i]))
  }

  /** Leaf names are not empty and do not start with a parenthesis. */
  ghost predicate GoodLeaves(t: Tree) {
    && (t.kids == [] ==> t.name != "" && t.name[0] != '(')
    && (forall i :: 0 <= i < |t.kids| ==> GoodLeaves(t.kids[i]))
  }

  lemma {:induction false} NamesParts(t: Tree)
    requires Spelled(t) && GoodLeaves(t)
    ensures Names(t)
    decreases t
  {
    forall i | 0 <= i < |t.kids| ensures Names(t.kids[i]) { NamesParts(t.kids[i]); }
  }

  // The parser never makes a name with a stop or an invisible character.

  ghost predicate Clean(name: string) { forall i :: 0 <= i < |name| ==> IsGraph(name[i]) && !Stops(name[i]) }

  ghost predicate AllClean(nodes: seq<Node>) { forall i :: 0 <= i < |nodes| ==> Clean(nodes[i].name) }

  lemma {:induction false} ScannedClean(s: string, p: nat)
    requires p <= |s|
    ensures Clean(s[p..NameEnd(s, p, ScanEnd(s, p))])
  {
    hide ScanEnd, NameEnd;
    var e := ScanEnd(s, p);
    var n := NameEnd(s, p, e);
    forall i | 0 <= i < n - p ensures IsGraph(s[p..n][i]) && !Stops(s[p..n][i]) { assert s[p..n][i] == s[p + i]; }
  }

  lemma {:induction false} StepClean(s: string, st: State)
    requires st.p < |s| && AllClean(st.nodes)
    ensures AllClean(Step(s, st).nodes)
  {
    hide ScanEnd, NameEnd, SkipBlank, LastOpen, Adopted, Clean;
    var q := SkipBlank(s, st.p);
    if q < |s| {
      if s[q] == ')' {
        ScannedClean(s, q + 1);
        var kids := st.stack[LastOpen(st.stack) + 1..];
        var all := st.nodes + [Node(-1, kids, s[q + 1..NameEnd(s, q + 1, ScanEnd(s, q + 1))])];
        forall i | 0 <= i < |all| ensures Clean(Adopted(all, kids, |st.nodes|)[i].name) {
          AdoptedAt(all, kids, |st.nodes|, i);
        }
      } else {
        ScannedClean(s, q);
      }
    }
  }

  lemma {:induction false} RunClean(s: string, st: State)
    requires st.p <= |s| && AllClean(st.nodes)
    ensures AllClean(Run(s, st).nodes)
    decreases |s| - st.p
  {
    hide Step, AllClean;
    if st.p < |s| {
      StepClean(s, st);
      RunClean(s, Step(s, st));
    }
  }

  /** The names of a post-order array are the tree's names. */
  lemma {:induction false} CleanSpelled(t: Tree, base: nat, parent: int)
    requires Unmarked(t) && AllClean(Post(t, base, parent))
    ensures Spelled(t)
    decreases t, |t.kids| + 1
  {
    hide Post, PostKids, Roots, Count, CountKids;
    var n, x := |t.kids|, base + Count(t) - 1;
    PostIs(t, base, parent);
    var a, b := PostKids(t, n, base, x), [Node(parent, Roots(t, n, base), t.name)];
    assert Post(t, base, parent) == a + b;
    assert (a + b)[|a|] == b[0];
    forall i | 0 <= i < |a| ensures Clean(a[i].name) { assert (a + b)[i] == a[i]; }
    KidsSpelled(t, n, base, x);
  }

  lemma {:induction false} KidsSpelled(t: Tree, i: nat, base: nat, x: int)
    requires Unmarked(t) && i <= |t.kids| && AllClean(PostKids(t, i, base, x))
    ensures forall j :: 0 <= j < i ==> Spelled(t.kids[j])
    decreases t, i
  {
    hide Post, PostKids, Roots, Count, CountKids, Spelled;
    if i > 0 {
      PostKidsStep(t, i, base, x);
      var a, b := PostKids(t, i - 1, base, x), Post(t.kids[i - 1], base + CountKids(t, i - 1), x);
      forall j | 0 <= j < |a| ensures Clean(a[j].name) { assert (a + b)[j] == a[j]; }
      forall j | 0 <= j < |b| ensures Clean(b[j].name) { assert (a + b)[|a| + j] == b[j]; }
      KidsSpelled(t, i - 1, base, x);
      CleanSpelled(t.kids[i - 1], base + CountKids(t, i - 1), x);
    }
  }

  // What the parser makes of any tree whose names are spelled right: parentheses at the start of a
  // leaf name open groups, and a leaf with nothing else in its name makes no node.

  function NamesOf(nodes: seq<Node>): seq<string> {
    seq(|nodes|, i requires 0 <= i < |nodes| => nodes[i].name)
  }

  function Stripped(name: string): string {
    if name != "" && name[0] == '(' then Stripped(name[1..]) else name
  }

  function LeafNames(name: string): seq<string> {
    if Stripped(name) == "" then [] else [Stripped(name)]
  }

  /** The names of the nodes read, in order. */
  function ReadNames(t: Tree): seq<string>
    decreases t, |t.kids| + 1
  {
    if t.kids == [] then LeafNames(t.name) else ReadKidNames(t, |t.kids|) + [t.name]
  }

  function ReadKidNames(t: Tree, i: nat): seq<string>
    requires i <= |t.kids|
    decreases t, i
  {
    if i == 0 then [] else ReadKidNames(t, i - 1) + ReadNames(t.kids[i - 1])
  }

  /** The tree's names in post-order. */
  function TreeNames(t: Tree): seq<string>
    decreases t, |t.kids| + 1
  {
    TreeKidNames(t, |t.kids|) + [t.name]
  }

  function TreeKidNames(t: Tree, i: nat): seq<string>
    requires i <= |t.kids|
    decreases t, i
  {
    if i == 0 then [] else TreeKidNames(t, i - 1) + TreeNames(t.kids[i - 1])
  }

  lemma {:induction false} NamesOfAppend(a: seq<Node>, b: seq<Node>)
    ensures NamesOf(a + b) == NamesOf(a) + NamesOf(b)
  {
  }

  lemma {:induction false} PostNames(t: Tree, base: nat, parent: int)
    ensures NamesOf(Post(t, base, parent)) == TreeNames(t)
    decreases t, |t.kids| + 1
  {
    hide Post, PostKids, Roots, Count, CountKids, NamesOf;
    var n, x := |t.kids|, base + Count(t) - 1;
    PostIs(t, base, parent);
    PostKidNames(t, n, base, x);
    NamesOfAppend(PostKids(t, n, base, x), [Node(parent, Roots(t, n, base), t.name)]);
    NamesOfOne(Node(parent, Roots(t, n, base), t.name));
  }

  lemma {:induction false} NamesOfOne(v: Node)
    ensures NamesOf([v]) == [v.name] && NamesOf([]) == []
  {
  }

  lemma {:induction false} PostKidNames(t: Tree, i: nat, base: nat, x: int)
    requires i <= |t.kids|
    ensures NamesOf(PostKids(t, i, base, x)) == TreeKidNames(t, i)
    decreases t, i
  {
    hide Post, Roots, Count, CountKids, NamesOf, TreeNames;
    if i == 0 {
      NamesOfOne(Node(0, [], ""));
    } else {
      var a, b := PostKids(t, i - 1, base, x), Post(t.kids[i - 1], base + CountKids(t, i - 1), x);
      PostKidsStep(t, i, base, x);
      NamesOfAppend(a, b);
      PostKidNames(t, i - 1, base, x);
      PostNames(t.kids[i - 1], base + CountKids(t, i - 1), x);
    }
  }

  /** How many groups are open. */
  function Opens(stack: seq<int>): nat {
    if stack == [] then 0 else Opens(stack[..|stack| - 1]) + (if stack[|stack| - 1] < 0 then 1 else 0)
  }

  lemma {:induction false} OpensPush(stack: seq<int>, x: int)
    ensures Opens(stack + [x]) == Opens(stack) + (if x < 0 then 1 else 0)
  {
    assert (stack + [x])[..|stack|] == stack;
  }

  /** Closing a group closes exactly one. */
  lemma {:induction false} OpensClose(stack: seq<int>)
    ensures LastOpen(stack) < 0 <==> Opens(stack) == 0
    ensures LastOpen(stack) >= 0 ==> Opens(stack[..LastOpen(stack)]) == Opens(stack) - 1
  {
    if stack != [] && stack[|stack| - 1] >= 0 {
      var r := stack[..|stack| - 1];
      OpensClose(r);
      var i := LastOpen(stack);
      if i >= 0 { assert r[..i] == stack[..i]; }
    }
  }

  /** After reading a piece of text: further on, no fewer groups open, and these names more. */
  ghost predicate Advanced(st: State, st': State, p: nat, names: seq<string>) {
    st'.p == p && Opens(st'.stack) >= Opens(st.stack) && st'.bad == st.bad
        && NamesOf(st'.nodes) == NamesOf(st.nodes) + names
  }

  /** A leaf's text: its leading parentheses open groups, the rest is a node. */
  lemma {:induction false} AtOne(s: string, p: nat)
    requires p < |s|
    ensures At(s, p, [s[p]])
  {
    assert s[p..p + 1] == [s[p]];
  }

  lemma {:induction false} ReadAnyLeaf(s: string, st: State, e: nat) returns (st': State)
    requires st.p <= e <= |s| && Follows(s, e) && forall i :: st.p <= i < e ==> NameChar(s[i])
    ensures Advanced(st, st', e, LeafNames(s[st.p..e])) && Run(s, st) == Run(s, st')
    decreases e - st.p
  {
    hide Run, Opens, NamesOf;
    var p := st.p;
    if p == e {
      st' := st;
      assert s[p..e] == "";
    } else if s[p] == '(' {
      var st1 := State(p + 1, st.stack + [-1], st.nodes, st.bad);
      AtOne(s, p);
      ReadOpen(s, st);
      OpensPush(st.stack, -1);
      st' := ReadAnyLeaf(s, st1, e);
      assert s[p..e][0] == '(' && s[p..e][1..] == s[p + 1..e];
    } else {
      var v := Node(-1, [], s[p..e]);
      st' := State(e, st.stack + [|st.nodes|], st.nodes + [v], st.bad);
      NameRead(s, p, e);
      assert Step(s, st) == st';
      RunStep(s, st);
      OpensPush(st.stack, |st.nodes|);
      NamesOfAppend(st.nodes, [v]);
      NamesOfOne(v);
      assert s[p..e][0] == s[p];
    }
  }

  lemma {:induction false} ReadAnyTree(s: string, st: State, t: Tree) returns (st': State)
    requires Spelled(t) && At(s, st.p, Format(t)) && Follows(s, st.p + |Format(t)|)
    ensures Advanced(st, st', st.p + |Format(t)|, ReadNames(t)) && Run(s, st) == Run(s, st')
    decreases t, |t.kids| + 2
  {
    hide Run, FormatKids, Opens, NamesOf, LeafNames, ReadKidNames, Follows;
    if t.kids == [] {
      var e := st.p + |t.name|;
      forall i | st.p <= i < e ensures NameChar(s[i]) { AtChar(s, st.p, t.name, i - st.p); }
      st' := ReadAnyLeaf(s, st, e);
    } else {
      hide Format, At, Advanced;
      st' := ReadAnyInner(s, st, t);
    }
  }

  lemma {:induction false} ReadAnyInner(s: string, st: State, t: Tree) returns (st': State)
    requires Spelled(t) && t.kids != [] && At(s, st.p, Format(t)) && Follows(s, st.p + |Format(t)|)
    ensures Advanced(st, st', st.p + |Format(t)|, ReadNames(t)) && Run(s, st) == Run(s, st')
    decreases t, |t.kids| + 1
  {
    hide Run, Format, FormatKids, Opens, NamesOf, LeafNames, ReadKidNames, Follows, At;
    var n := |t.kids|;
    InnerParts(s, st.p, t);
    ReadOpen(s, st);
    OpensPush(st.stack, -1);
    var st1 := State(st.p + 1, st.stack + [-1], st.nodes, st.bad);
    var st2 := ReadAnyKids(s, st1, t, n);
    st' := ReadAnyClose(s, st2, t.name);
    assert NamesOf(st'.nodes) == NamesOf(st.nodes) + (ReadKidNames(t, n) + [t.name]);
  }

  /** The closing parenthesis and the name behind it make one node and close one group. */
  lemma {:induction false} ReadAnyClose(s: string, st: State, name: string) returns (st': State)
    requires Opens(st.stack) >= 1 && (forall i :: 0 <= i < |name| ==> NameChar(name[i]))
    requires At(s, st.p, ")") && At(s, st.p + 1, name) && Follows(s, st.p + 1 + |name|)
    ensures st'.p == st.p + 1 + |name| && st'.bad == st.bad && Run(s, st) == Run(s, st')
    ensures Opens(st'.stack) == Opens(st.stack) - 1 && NamesOf(st'.nodes) == NamesOf(st.nodes) + [name]
  {
    hide Run, Opens, NamesOf, ScanEnd, NameEnd, LastOpen, Adopted;
    var q, e, i := st.p, st.p + 1 + |name|, LastOpen(st.stack);
    AtChar(s, q, ")", 0);
    forall j | q + 1 <= j < e ensures NameChar(s[j]) { AtChar(s, q + 1, name, j - q - 1); }
    NameRead(s, q + 1, e);
    OpensClose(st.stack);
    var kids, x := st.stack[i + 1..], |st.nodes|;
    var all := st.nodes + [Node(-1, kids, name)];
    assert s[q + 1..e] == name;
    st' := State(e, st.stack[..i] + [x], Adopted(all, kids, x), st.bad);
    assert Step(s, st) == st';
    RunStep(s, st);
    OpensPush(st.stack[..i], x);
    AdoptedNames(all, kids, x);
    NamesOfAppend(st.nodes, [Node(-1, kids, name)]);
    NamesOfOne(Node(-1, kids, name));
  }

  lemma {:induction false} AdoptedNames(nodes: seq<Node>, kids: seq<int>, x: int)
    ensures NamesOf(Adopted(nodes, kids, x)) == NamesOf(nodes)
  {
    hide Adopted;
    forall i | 0 <= i < |nodes| ensures Adopted(nodes, kids, x)[i].name == nodes[i].name {
      AdoptedAt(nodes, kids, x, i);
    }
  }

  lemma {:induction false} ReadAnyKids(s: string, st: State, t: Tree, i: nat) returns (st': State)
    requires Spelled(t) && i <= |t.kids| && At(s, st.p, FormatKids(t, i)) && Follows(s, st.p + |FormatKids(t, i)|)
    ensures Advanced(st, st', st.p + |FormatKids(t, i)|, ReadKidNames(t, i)) && Run(s, st) == Run(s, st')
    decreases t, i
  {
    hide Run, Format, Opens, NamesOf, ReadNames, At, Follows;
    if i == 0 {
      st' := st;
    } else {
      var before, comma, kid := FormatKids(t, i - 1), if i > 1 then "," else "", t.kids[i - 1];
      assert FormatKids(t, i) == before + (comma + Format(kid));
      AtSplit(s, st.p, before, comma + Format(kid));
      AtSplit(s, st.p + |before|, comma, Format(kid));
      var st1 := st;
      if i > 1 {
        AtStop(s, st.p + |before|, ",");
        st1 := ReadAnyKids(s, st, t, i - 1);
        ReadComma(s, st1);
        st1 := st1.(p := st1.p + 1);
      } else {
        assert before == "" && ReadKidNames(t, 0) == [];
      }
      st' := ReadAnyTree(s, st1, kid);
      assert NamesOf(st'.nodes) == NamesOf(st.nodes) + (ReadKidNames(t, i - 1) + ReadNames(kid));
    }
  }

  // Counting names and their characters tells the two apart.

  function Weight(names: seq<string>): nat {
    if names == [] then 0 else Weight(names[..|names| - 1]) + 1 + |names[|names| - 1]|
  }

  lemma {:induction false} WeightAppend(a: seq<string>, b: seq<string>)
    ensures Weight(a + b) == Weight(a) + Weight(b)
  {
    if b == [] {
      assert a + b == a;
    } else {
      var m := |b| - 1;
      assert (a + b)[..|a| + m] == a + b[..m];
      WeightAppend(a, b[..m]);
    }
  }

  lemma {:induction false} WeightOne(name: string)
    ensures Weight([name]) == 1 + |name|
  {
    assert [name][..0] == [];
  }

  lemma {:induction false} StrippedShorter(name: string)
    ensures |Stripped(name)| <= |name|
    ensures |Stripped(name)| == |name| && name != "" ==> name[0] != '('
  {
    if name != "" && name[0] == '(' { StrippedShorter(name[1..]); }
  }

  /** What is read never weighs more than the tree, and as much only if the leaves are good. */
  lemma {:induction false} ReadWeighsLess(t: Tree)
    ensures Weight(ReadNames(t)) <= Weight(TreeNames(t))
    ensures Weight(ReadNames(t)) == Weight(TreeNames(t)) ==> GoodLeaves(t)
    decreases t, |t.kids| + 1
  {
    hide Weight, GoodLeaves;
    var n := |t.kids|;
    WeightOne(t.name);
    WeightAppend(TreeKidNames(t, n), [t.name]);
    if n == 0 {
      LeafWeighsLess(t);
    } else {
      WeightAppend(ReadKidNames(t, n), [t.name]);
      KidsWeighLess(t, n);
      if Weight(ReadNames(t)) == Weight(TreeNames(t)) { LeavesOfKids(t); }
    }
  }

  lemma {:induction false} LeavesOfKids(t: Tree)
    requires t.kids != [] && forall i :: 0 <= i < |t.kids| ==> GoodLeaves(t.kids[i])
    ensures GoodLeaves(t)
  {
  }

  lemma {:induction false} LeafWeighsLess(t: Tree)
    requires t.kids == []
    ensures Weight(LeafNames(t.name)) <= Weight(TreeNames(t))
    ensures Weight(LeafNames(t.name)) == Weight(TreeNames(t)) ==> GoodLeaves(t)
  {
    StrippedShorter(t.name);
    WeightOne(t.name);
    WeightOne(Stripped(t.name));
    assert TreeNames(t) == [] + [t.name] == [t.name];
  }

  lemma {:induction false} KidsWeighLess(t: Tree, i: nat)
    requires i <= |t.kids|
    ensures Weight(ReadKidNames(t, i)) <= Weight(TreeKidNames(t, i))
    ensures Weight(ReadKidNames(t, i)) == Weight(TreeKidNames(t, i)) ==> forall j :: 0 <= j < i ==>
      GoodLeaves(t.kids[j])
    decreases t, i
  {
    hide Weight, GoodLeaves, ReadNames, TreeNames;
    if i > 0 {
      KidsWeighLess(t, i - 1);
      ReadWeighsLess(t.kids[i - 1]);
      WeightAppend(ReadKidNames(t, i - 1), ReadNames(t.kids[i - 1]));
      WeightAppend(TreeKidNames(t, i - 1), TreeNames(t.kids[i - 1]));
    }
  }

  /** Exactly which trees survive: a tree without distances and comments is read back as the same
      array if and only if its names consist of visible characters other than , and ), and its
      leaf names are not empty and do not start with a parenthesis. */
  lemma {:induction false} RoundTripIffNames(t: Tree)
    requires Unmarked(t)
    ensures Ordered(Post(t, 0, -1)) && |Post(t, 0, -1)| == Count(t)
    ensures Run(FormatNode(Post(t, 0, -1), Count(t) - 1), START).nodes == Post(t, 0, -1) <==> Names(t)
  {
    hide Post, Format, FormatNode, Run, Names, Spelled, GoodLeaves, Weight, ReadNames, TreeNames, NamesOf,
        AllClean, Unmarked;
    var nodes, s := Post(t, 0, -1), Format(t);
    WrittenFrom(t);
    if Names(t) { RoundTrip(t); }
    if Run(s, START).nodes == nodes {
      NothingYet();
      RunClean(s, START);
      CleanSpelled(t, 0, -1);
      WholeText(s);
      var st := ReadAnyTree(s, START, t);
      RunEnds(s, st);
      PostNames(t, 0, -1);
      assert [] + ReadNames(t) == ReadNames(t);
      assert TreeNames(t) == ReadNames(t);
      ReadWeighsLess(t);
      NamesParts(t);
    }
  }

  lemma {:induction false} NothingYet()
    ensures AllClean(START.nodes) && NamesOf(START.nodes) == []
  {
  }

  lemma {:induction false} WholeText(s: string)
    ensures At(s, 0, s) && Follows(s, |s|)
  {
    assert s[0..0 + |s|] == s;
  }

  /** The array of any tree is in order, and writing it writes the tree. */
  lemma {:induction false} WrittenFrom(t: Tree)
    ensures Ordered(Post(t, 0, -1)) && |Post(t, 0, -1)| == Count(t)
    ensures FormatNode(Post(t, 0, -1), Count(t) - 1) == Format(t)
  {
    hide Post, Format, FormatNode;
    var nodes := Post(t, 0, -1);
    PostLength(t, 0, -1);
    forall i, k | 0 <= i < |nodes| && 0 <= k < |nodes[i].child| ensures 0 <= nodes[i].child[k] < i {
      PostOrdered(t, 0, -1, i, k);
    }
    assert nodes[0..0 + |nodes|] == nodes;
    FormatTree(nodes, t, 0, -1);
  }

  // ------------------------------------------------------------ the parser

  /** add_node's scan: where the text ends and where the name does. */
  method Scan(s: string, p: nat) returns (e: nat, nend: nat)
    requires p <= |s|
    ensures e == ScanEnd(s, p) && nend == NameEnd(s, p, e)
  {
    e := p;
    var found := false;
    nend := p;
    while e < |s| && !Stops(s[e])
      invariant p <= e <= |s| && p <= nend <= e
      invariant ScanEnd(s, p) == ScanEnd(s, e)
      invariant forall i :: p <= i < e ==> !Stops(s[i])
      invariant if found then nend < e && !IsGraph(s[nend]) && (forall i :: p <= i < nend ==> IsGraph(s[i]))
                else forall i :: p <= i < e ==> IsGraph(s[i])
    {
      if !IsGraph(s[e]) && !found { nend := e; found := true; }
      e := e + 1;
    }
    if !found { nend := e; }
    NameEndIs(s, p, e, nend);
  }

  lemma {:induction false} NameEndIs(s: string, p: nat, e: nat, n: nat)
    requires p <= n <= e <= |s| && (n < e ==> !IsGraph(s[n])) && (forall i :: p <= i < n ==> IsGraph(s[i]))
    ensures NameEnd(s, p, e) == n
    decreases n - p
  {
    if p < n { NameEndIs(s, p + 1, e, n); }
  }

  method Skip(s: string, p: nat) returns (q: nat)
    requires p <= |s|
    ensures q == SkipBlank(s, p)
  {
    q := p;
    while q < |s| && !IsGraph(s[q])
      invariant p <= q <= |s| && SkipBlank(s, p) == SkipBlank(s, q)
    {
      q := q + 1;
    }
  }

  method FindOpen(stack: seq<int>) returns (i: int)
    ensures i == LastOpen(stack)
  {
    hide LastOpen;
    i := |stack| - 1;
    while i >= 0 && stack[i] >= 0
      invariant -1 <= i < |stack| && forall j :: i < j < |stack| ==> stack[j] >= 0
    {
      i := i - 1;
    }
    LastOpenFound(stack, i);
  }

  /** kn_parse: the nodes in the order they were completed. */
  method Parse(s: string) returns (nodes: seq<Node>, bad: bool)
    ensures var st := Run(s, START); nodes == st.nodes && bad == st.bad
  {
    hide Run, ScanEnd, NameEnd, SkipBlank, LastOpen, Adopted;
    var p, stack := 0, [];
    nodes, bad := [], false;
    while p < |s|
      invariant 0 <= p <= |s|
      invariant Run(s, START) == Run(s, State(p, stack, nodes, bad))
      decreases |s| - p
    {
      ghost var st := State(p, stack, nodes, bad);
      RunStep(s, st);
      var q := Skip(s, p);
      if q == |s| {
        p := q;
      } else if s[q] == ',' {
        p := q + 1;
      } else if s[q] == '(' {
        p, stack := q + 1, stack + [-1];
      } else if s[q] == ')' {
        var x := |nodes|;
        var i := FindOpen(stack);
        var e, nend := Scan(s, q + 1);
        if i < 0 {
          p, stack, bad := |s|, [], true;
        } else {
          var kids := stack[i + 1..];
          nodes := Adopted(nodes + [Node(-1, kids, s[q + 1..nend])], kids, x);
          p, stack := e, stack[..i] + [x];
        }
      } else {
        var e, nend := Scan(s, q);
        stack := stack + [|nodes|];
        nodes := nodes + [Node(-1, [], s[q..nend])];
        p := e;
      }
      assert State(p, stack, nodes, bad) == Step(s, st);
    }
    RunEnds(s, State(p, stack, nodes, bad));
  }

  lemma {:induction false} RunEnds(s: string, st: State)
    requires st.p == |s|
    ensures Run(s, st) == st
  {
  }

  lemma {:induction false} LastOpenFound(s: seq<int>, i: int)
    requires -1 <= i < |s| && (i >= 0 ==> s[i] < 0) && forall j :: i < j < |s| ==> s[j] >= 0
    ensures LastOpen(s) == i
  {
    if i >= 0 { LastOpenIs(s, i); }
  }
}
