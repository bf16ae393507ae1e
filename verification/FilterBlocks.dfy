/** The Boolean part of the packet-filter compiler (deps/libpcap/gencode.c): blocks whose
    unresolved exits are threaded through their own branch fields, and backpatch, merge,
    gen_and, gen_or, gen_not and the end of finish_parse that resolve them. */
module FilterBlocks {

  /** What a test gives on a packet: a branch, or an out-of-range load that rejects it. */
  datatype Verdict = True | False | Reject

  type Env = nat -> Verdict

  datatype Expr = Atom(test: nat) | And(l: Expr, r: Expr) | Or(l: Expr, r: Expr) | Not(e: Expr)

  /** Short-circuit evaluation; a rejecting test that is reached rejects everything. */
  function Eval(e: Expr, env: Env): Verdict {
    match e
    case Atom(t) => env(t)
    case And(l, r) => (match Eval(l, env) case True => Eval(r, env) case False => False case Reject => Reject)
    case Or(l, r) => (match Eval(l, env) case True => True case False => Eval(r, env) case Reject => Reject)
    case Not(x) => (match Eval(x, env) case True => False case False => True case Reject => Reject)
  }

  /** The number of tests, which bounds the blocks any run visits. */
  function Size(e: Expr): (n: nat)
    ensures n >= 1
  {
    match e
    case Atom(t) => 1
    case And(l, r) => Size(l) + Size(r)
    case Or(l, r) => Size(l) + Size(r)
    case Not(x) => Size(x)
  }

  // ------------------------------------------------------------ block graphs

  datatype Code = Cond(test: nat) | Ret(k: nat)

  /** A block; jt and jf are successors or, while unresolved, links to the next block with
      an unresolved exit of the same kind. */
  datatype Block = Block(code: Code, jt: int, jf: int, sense: bool, head: int)

  type Blocks = seq<Block>

  const NULL: int := -1

  /** One branch of one block. */
  datatype Exit = Exit(block: int, onTrue: bool)

  ghost predicate Has(g: Blocks, x: int) { 0 <= x < |g| }

  function Field(g: Blocks, x: Exit): int {
    if 0 <= x.block < |g| then (if x.onTrue then g[x.block].jt else g[x.block].jf) else NULL
  }

  function WithField(g: Blocks, x: Exit, v: int): Blocks {
    if 0 <= x.block < |g| then
      g[x.block := if x.onTrue then g[x.block].(jt := v) else g[x.block].(jf := v)]
    else g
  }

  datatype Outcome = Out(exit: Exit) | Rejected | Returned(k: nat) | Lost | Unfinished

  /** Runs from block x until a branch in `holes` is taken, a block returns, or a test
      rejects. */
  function Run(g: Blocks, holes: seq<Exit>, env: Env, x: int, fuel: nat): Outcome
    decreases fuel
  {
    if !(0 <= x < |g|) then Lost
    else match g[x].code
      case Ret(k) => Returned(k)
      case Cond(t) =>
        var v := env(t);
        if v.Reject? then Rejected
        else
          var exit := Exit(x, v.True?);
          if exit in holes then Out(exit)
          else if fuel == 0 then Unfinished
          else Run(g, holes, env, Field(g, exit), fuel - 1)
  }

  // ------------------------------------------------------------ exit lists

  ghost function Next(exits: seq<Exit>, i: nat): int {
    if i + 1 < |exits| then exits[i + 1].block else NULL
  }

  /** The list of unresolved exits that starts with exits[0]: each field names the block of
      the next exit, and from the second on the block's sense says which field that is. */
  ghost predicate Linked(g: Blocks, exits: seq<Exit>) {
    && (forall i :: 0 <= i < |exits| ==> Has(g, exits[i].block))
    && (forall i :: 0 <= i < |exits| ==> Field(g, exits[i]) == Next(exits, i))
    && (forall i :: 1 <= i < |exits| ==> exits[i].onTrue == !g[exits[i].block].sense)
    && (forall i, j :: 0 <= i < j < |exits| ==> exits[i].block != exits[j].block)
  }

  /** The list a C pointer `list` denotes: `sense` picks the link of the first block too. */
  ghost predicate Chain(g: Blocks, list: int, exits: seq<Exit>) {
    && Linked(g, exits)
    && (if exits == [] then list == NULL
        else list == exits[0].block && exits[0].onTrue == !g[list].sense)
  }

  /** Tests, senses, heads and all fields but those in `exits` agree. */
  ghost predicate SameBut(g: Blocks, g': Blocks, exits: seq<Exit>) {
    && |g'| == |g|
    && (forall x :: 0 <= x < |g| ==> g'[x].code == g[x].code && g'[x].sense == g[x].sense && g'[x].head == g[x].head)
    && (forall x: Exit {:trigger Field(g', x)} :: x !in exits ==> Field(g', x) == Field(g, x))
  }

  /** A compiled piece: its expression, its true and false exits (both start at the last
      block), and the blocks it owns. */
  datatype Piece = Piece(e: Expr, t: seq<Exit>, f: seq<Exit>, own: set<int>)

  ghost predicate Shares(p: Piece, i: int, j: int)
    requires 0 <= i < |p.t| && 0 <= j < |p.f|
  {
    p.t[i].block == p.f[j].block
  }

  /** The exit lists: acyclic, both starting at the last block, sharing nothing else. */
  ghost predicate ExitsOk(g: Blocks, b: int, p: Piece) {
    && p.t != [] && p.f != [] && b in p.own && Has(g, b)
    && p.t[0] == Exit(b, !g[b].sense) && p.f[0] == Exit(b, g[b].sense)
    && Linked(g, p.t) && Linked(g, p.f)
    && (forall i :: 0 <= i < |p.t| ==> p.t[i].block in p.own)
    && (forall j :: 0 <= j < |p.f| ==> p.f[j].block in p.own)
    && (forall i, j {:trigger Shares(p, i, j)} :: 0 <= i < |p.t| && 0 <= j < |p.f| && Shares(p, i, j) ==>
        i == 0 && j == 0)
  }

  /** The owned blocks: tests only, closed under every branch that is not an exit. */
  ghost predicate Closed(g: Blocks, p: Piece) {
    && (forall x :: x in p.own ==> Has(g, x) && g[x].code.Cond?)
    && (forall x: Exit {:trigger Field(g, x)} :: x.block in p.own && x !in p.t + p.f ==> Field(g, x) in p.own)
  }

  /** Run from its head, the piece leaves through a true exit, a false exit or a rejection as
      its expression evaluates. */
  ghost predicate Behaves(g: Blocks, head: int, p: Piece, env: Env) {
    var o := Run(g, p.t + p.f, env, head, Size(p.e) - 1);
    match Eval(p.e, env)
    case True => o.Out? && o.exit in p.t
    case False => o.Out? && o.exit in p.f
    case Reject => o == Rejected
  }

  ghost predicate PieceOk(g: Blocks, b: int, p: Piece) {
    && ExitsOk(g, b, p) && Closed(g, p) && g[b].head in p.own
    && (forall env :: Behaves(g, g[b].head, p, env))
  }

  // ------------------------------------------------------------ running joined pieces

  /** Patching some of a piece's exits to `target` and leaving the others open. */
  ghost predicate Patched(
      g: Blocks, own: set<int>, patched: seq<Exit>, kept: seq<Exit>, target: int, holes: seq<Exit>) {
    && (forall x :: x in own ==> Has(g, x) && g[x].code.Cond?)
    && (forall x: Exit {:trigger Field(g, x)} :: x.block in own && x !in patched && x !in kept ==> Field(g, x) in own)
    && (forall x: Exit {:trigger Field(g, x)} :: x in patched ==> Field(g, x) == target)
    && (forall x: Exit :: x.block in own ==> (x in holes <==> x in kept))
  }

  /** A run of the joined graph is a run of the first piece, continued at the target when it
      leaves through a patched exit. */
  lemma {:induction false} RunThrough(g: Blocks, own: set<int>, patched: seq<Exit>, kept: seq<Exit>, target: int,
                                      holes: seq<Exit>, env: Env, x: int, f0: nat, f1: nat)
    requires Patched(g, own, patched, kept, target, holes) && x in own
    requires forall e :: e in patched ==> e !in kept
    ensures match Run(g, patched + kept, env, x, f0)
            case Out(exit) =>
              if exit in patched
              then Run(g, holes, env, target, f1) != Unfinished ==>
                  Run(g, holes, env, x, f0 + 1 + f1) == Run(g, holes, env, target, f1)
              else Run(g, holes, env, x, f0 + 1 + f1) == Out(exit)
            case Rejected => Run(g, holes, env, x, f0 + 1 + f1) == Rejected
            case _ => true
    decreases f0
  {
    var v := env(g[x].code.test);
    if !v.Reject? {
      var exit := Exit(x, v.True?);
      if exit in patched + kept {
        if exit in patched {
          assert Field(g, exit) == target;
          assert exit !in holes;
          if Run(g, holes, env, target, f1) != Unfinished {
            MoreFuel(g, holes, env, target, f1, f0);
          }
        }
      } else if f0 > 0 {
        assert Field(g, exit) in own;
        assert exit !in holes;
        RunThrough(g, own, patched, kept, target, holes, env, Field(g, exit), f0 - 1, f1);
      }
    }
  }

  lemma {:induction false} MoreFuel(g: Blocks, holes: seq<Exit>, env: Env, x: int, fuel: nat, more: nat)
    requires Run(g, holes, env, x, fuel) != Unfinished
    ensures Run(g, holes, env, x, fuel + more) == Run(g, holes, env, x, fuel)
    decreases fuel
  {
    if 0 <= x < |g| && g[x].code.Cond? && !env(g[x].code.test).Reject? {
      var exit := Exit(x, env(g[x].code.test).True?);
      if exit !in holes { MoreFuel(g, holes, env, Field(g, exit), fuel - 1, more); }
    }
  }

  /** Inside a closed piece a run sees only the piece's tests and resolved branches. */
  lemma {:induction false} RunFrame(
      g: Blocks, g': Blocks, own: set<int>, holes: seq<Exit>, holes': seq<Exit>, env: Env, x: int, fuel: nat)
    requires x in own
    requires forall y :: y in own ==> Has(g, y) && Has(g', y) && g'[y].code == g[y].code && g[y].code.Cond?
    requires forall e: Exit {:trigger Field(g, e)} :: e.block in own && e !in holes ==>
      Field(g, e) in own && Field(g', e) == Field(g, e)
    requires forall e: Exit :: e.block in own ==> (e in holes <==> e in holes')
    ensures Run(g', holes', env, x, fuel) == Run(g, holes, env, x, fuel)
    decreases fuel
  {
    if !env(g[x].code.test).Reject? {
      var exit := Exit(x, env(g[x].code.test).True?);
      if exit !in holes && fuel > 0 {
        assert Field(g, exit) in own;
        RunFrame(g, g', own, holes, holes', env, Field(g, exit), fuel - 1);
      }
    }
  }

  // ------------------------------------------------------------ joining two pieces

  /** gen_and (conj) resolves the first piece's true exits and merges the false lists; gen_or
      resolves its false exits and merges the true lists. */
  function Resolved(p: Piece, conj: bool): seq<Exit> { if conj then p.t else p.f }

  function Merged(p: Piece, conj: bool): seq<Exit> { if conj then p.f else p.t }

  function JoinOf(p0: Piece, p1: Piece, conj: bool): Piece {
    if conj then Piece(And(p0.e, p1.e), p1.t, p1.f + p0.f, p0.own + p1.own)
    else Piece(Or(p0.e, p1.e), p1.t + p0.t, p1.f, p0.own + p1.own)
  }

  /** How the graph looks after gen_and or gen_or of b0 and b1. */
  ghost predicate Joined(g: Blocks, g': Blocks, b0: int, b1: int, p0: Piece, p1: Piece, conj: bool)
    requires ExitsOk(g, b0, p0) && ExitsOk(g, b1, p1)
  {
    var last := Merged(p1, conj)[|Merged(p1, conj)| - 1];
    && |g'| == |g|
    && (forall x :: 0 <= x < |g| ==> g'[x].code == g[x].code)
    && (forall x :: 0 <= x < |g| && x != b0 ==> g'[x].sense == g[x].sense)
    && (forall x :: 0 <= x < |g| && x != b1 ==> g'[x].head == g[x].head)
    && g'[b1].head == g[b0].head
    && Merged(p0, conj)[0] == Exit(b0, !g'[b0].sense)
    && (forall x: Exit {:trigger Field(g', x)} ::
          Field(g', x) == if x in Resolved(p0, conj) then g[b1].head else if x == last then b0 else Field(g, x))
  }

  lemma {:induction false} ExitsDisjoint(g: Blocks, b: int, p: Piece)
    requires ExitsOk(g, b, p)
    ensures forall x :: x in p.t ==> x !in p.f
  {
    forall x | x in p.t ensures x !in p.f {
      if x in p.f {
        var i :| 0 <= i < |p.t| && p.t[i] == x;
        var j :| 0 <= j < |p.f| && p.f[j] == x;
        assert Shares(p, i, j);
      }
    }
  }

  /** Appending the second list's head block to the end of the first links the two lists. */
  lemma {:induction false} LinkedAppend(g: Blocks, g': Blocks, xs: seq<Exit>, ys: seq<Exit>)
    requires Linked(g, xs) && Linked(g, ys) && xs != [] && ys != [] && |g'| == |g|
    requires forall i, j :: 0 <= i < |xs| && 0 <= j < |ys| ==> xs[i].block != ys[j].block
    requires forall i :: 0 <= i < |xs| - 1 ==> Field(g', xs[i]) == Field(g, xs[i])
    requires forall j :: 0 <= j < |ys| ==> Field(g', ys[j]) == Field(g, ys[j])
    requires Field(g', xs[|xs| - 1]) == ys[0].block && ys[0].onTrue == !g'[ys[0].block].sense
    requires forall i :: 0 <= i < |xs| ==> g'[xs[i].block].sense == g[xs[i].block].sense
    requires forall j :: 1 <= j < |ys| ==> g'[ys[j].block].sense == g[ys[j].block].sense
    ensures Linked(g', xs + ys)
  {
    AppendFields(g, g', xs, ys);
    AppendBlocks(g, xs, ys);
    AppendSenses(g, g', xs, ys);
    hide Field, Next;
  }

  lemma {:induction false} AppendFields(g: Blocks, g': Blocks, xs: seq<Exit>, ys: seq<Exit>)
    requires xs != [] && ys != [] && Field(g', xs[|xs| - 1]) == ys[0].block
    requires forall i :: 0 <= i < |xs| ==> Field(g, xs[i]) == Next(xs, i)
    requires forall j :: 0 <= j < |ys| ==> Field(g, ys[j]) == Next(ys, j)
    requires forall i :: 0 <= i < |xs| - 1 ==> Field(g', xs[i]) == Field(g, xs[i])
    requires forall j :: 0 <= j < |ys| ==> Field(g', ys[j]) == Field(g, ys[j])
    ensures forall i :: 0 <= i < |xs + ys| ==> Field(g', (xs + ys)[i]) == Next(xs + ys, i)
  {
    hide Field;
    var zs := xs + ys;
    forall i | 0 <= i < |zs| ensures Field(g', zs[i]) == Next(zs, i) {
      if i < |xs| {
        assert zs[i] == xs[i];
        if i + 1 < |xs| { assert Field(g, xs[i]) == Next(xs, i); }
      } else {
        var j := i - |xs|;
        assert zs[i] == ys[j];
        assert Field(g, ys[j]) == Next(ys, j);
      }
    }
  }

  lemma {:induction false} AppendBlocks(g: Blocks, xs: seq<Exit>, ys: seq<Exit>)
    requires Linked(g, xs) && Linked(g, ys)
    requires forall i, j :: 0 <= i < |xs| && 0 <= j < |ys| ==> xs[i].block != ys[j].block
    ensures var zs := xs + ys;
            && (forall i :: 0 <= i < |zs| ==> Has(g, zs[i].block))
            && (forall i, j :: 0 <= i < j < |zs| ==> zs[i].block != zs[j].block)
  {
    hide Field, Next;
    var zs := xs + ys;
    forall i, j | 0 <= i < j < |zs| ensures zs[i].block != zs[j].block {
      if i >= |xs| { assert ys[i - |xs|].block != ys[j - |xs|].block; }
    }
  }

  lemma {:induction false} AppendSenses(g: Blocks, g': Blocks, xs: seq<Exit>, ys: seq<Exit>)
    requires Linked(g, xs) && Linked(g, ys) && xs != [] && ys != [] && |g'| == |g|
    requires ys[0].onTrue == !g'[ys[0].block].sense
    requires forall i :: 0 <= i < |xs| ==> g'[xs[i].block].sense == g[xs[i].block].sense
    requires forall j :: 1 <= j < |ys| ==> g'[ys[j].block].sense == g[ys[j].block].sense
    ensures var zs := xs + ys;
            forall i :: 1 <= i < |zs| ==> Has(g', zs[i].block) && zs[i].onTrue == !g'[zs[i].block].sense
  {
    hide Field, Next;
    var zs := xs + ys;
    forall i | 1 <= i < |zs| ensures Has(g', zs[i].block) && zs[i].onTrue == !g'[zs[i].block].sense {
      if i < |xs| {
        assert zs[i] == xs[i] && Has(g, xs[i].block);
      } else {
        var j := i - |xs|;
        assert zs[i] == ys[j] && Has(g, ys[j].block);
      }
    }
  }

  lemma {:induction false} LinkedKeeps(g: Blocks, g': Blocks, xs: seq<Exit>)
    requires Linked(g, xs) && |g'| == |g|
    requires forall i :: 0 <= i < |xs| ==> Field(g', xs[i]) == Field(g, xs[i])
    requires forall i :: 1 <= i < |xs| ==> g'[xs[i].block].sense == g[xs[i].block].sense
    ensures Linked(g', xs)
  {
  }

  /** Exits of one piece belong to it, so they are not exits of a piece with other blocks. */
  lemma {:induction false} ExitsApart(g: Blocks, b0: int, b1: int, p0: Piece, p1: Piece)
    requires ExitsOk(g, b0, p0) && ExitsOk(g, b1, p1) && p0.own !! p1.own
    ensures forall x :: x in p0.t || x in p0.f ==> x.block in p0.own && x.block !in p1.own
    ensures forall x :: x in p1.t || x in p1.f ==> x.block in p1.own && x.block !in p0.own
  {
  }

  /** Joining changes no field of the lists but the end of the second piece's merged one. */
  lemma {:induction false} JoinFields(g: Blocks, g': Blocks, b0: int, b1: int, p0: Piece, p1: Piece, conj: bool)
    requires ExitsOk(g, b0, p0) && ExitsOk(g, b1, p1) && p0.own !! p1.own
    requires Joined(g, g', b0, b1, p0, p1, conj)
    ensures var xs := Merged(p1, conj); forall i :: 0 <= i < |xs| - 1 ==> Field(g', xs[i]) == Field(g, xs[i])
    ensures var xs := Merged(p1, conj); Field(g', xs[|xs| - 1]) == b0
    ensures var ys := Merged(p0, conj); forall i :: 0 <= i < |ys| ==> Field(g', ys[i]) == Field(g, ys[i])
    ensures var zs := Resolved(p1, conj); forall i :: 0 <= i < |zs| ==> Field(g', zs[i]) == Field(g, zs[i])
  {
    hide Linked;
    ExitsDisjoint(g, b0, p0); ExitsDisjoint(g, b1, p1); ExitsApart(g, b0, b1, p0, p1);
    var xs := Merged(p1, conj);
    LastIsAlone(g, xs);
    assert xs[|xs| - 1] in xs;
    forall i | 0 <= i < |xs| - 1 ensures Field(g', xs[i]) == Field(g, xs[i]) {
      assert xs[i] in xs;
    }
  }

  lemma {:induction false} LastIsAlone(g: Blocks, xs: seq<Exit>)
    requires Linked(g, xs) && xs != []
    ensures Has(g, xs[|xs| - 1].block) && forall i :: 0 <= i < |xs| - 1 ==> xs[i] != xs[|xs| - 1]
  {
  }

  /** The exit lists after gen_and or gen_or. */
  lemma {:induction false} JoinExits(g: Blocks, g': Blocks, b0: int, b1: int, p0: Piece, p1: Piece, conj: bool)
    requires ExitsOk(g, b0, p0) && ExitsOk(g, b1, p1) && p0.own !! p1.own
    requires Joined(g, g', b0, b1, p0, p1, conj)
    ensures ExitsOk(g', b1, JoinOf(p0, p1, conj))
  {
    hide Linked;
    ExitsApart(g, b0, b1, p0, p1);
    JoinFields(g, g', b0, b1, p0, p1, conj);
    JoinSenses(g, g', b0, b1, p0, p1, conj);
    LinkedAppend(g, g', Merged(p1, conj), Merged(p0, conj));
    LinkedKeeps(g, g', Resolved(p1, conj));
    JoinShares(g, b0, b1, p0, p1, conj);
  }

  lemma {:induction false} JoinSenses(g: Blocks, g': Blocks, b0: int, b1: int, p0: Piece, p1: Piece, conj: bool)
    requires ExitsOk(g, b0, p0) && ExitsOk(g, b1, p1) && p0.own !! p1.own
    requires Joined(g, g', b0, b1, p0, p1, conj)
    ensures g'[b1].sense == g[b1].sense
    ensures forall i :: 0 <= i < |p1.t| ==> g'[p1.t[i].block].sense == g[p1.t[i].block].sense
    ensures forall i :: 0 <= i < |p1.f| ==> g'[p1.f[i].block].sense == g[p1.f[i].block].sense
    ensures forall i :: 1 <= i < |p0.t| ==> g'[p0.t[i].block].sense == g[p0.t[i].block].sense
    ensures forall i :: 1 <= i < |p0.f| ==> g'[p0.f[i].block].sense == g[p0.f[i].block].sense
  {
  }

  lemma {:induction false} JoinShares(g: Blocks, b0: int, b1: int, p0: Piece, p1: Piece, conj: bool)
    requires ExitsOk(g, b0, p0) && ExitsOk(g, b1, p1) && p0.own !! p1.own
    ensures var p := JoinOf(p0, p1, conj);
      forall i, j {:trigger Shares(p, i, j)} :: 0 <= i < |p.t| && 0 <= j < |p.f| && Shares(p, i, j) ==> i == 0 && j == 0
  {
    var p := JoinOf(p0, p1, conj);
    forall i, j {:trigger Shares(p, i, j)} | 0 <= i < |p.t| && 0 <= j < |p.f| && Shares(p, i, j)
        ensures i == 0 && j == 0 {
      if i < |p1.t| && j < |p1.f| { assert Shares(p1, i, j); }
    }
  }

  lemma {:induction false} JoinClosed(g: Blocks, g': Blocks, b0: int, b1: int, p0: Piece, p1: Piece, conj: bool)
    requires ExitsOk(g, b0, p0) && ExitsOk(g, b1, p1) && p0.own !! p1.own
    requires Closed(g, p0) && Closed(g, p1) && g[b0].head in p0.own && g[b1].head in p1.own
    requires Joined(g, g', b0, b1, p0, p1, conj)
    ensures Closed(g', JoinOf(p0, p1, conj)) && g'[b1].head in p0.own
  {
    hide Linked;
    ExitsDisjoint(g, b0, p0); ExitsDisjoint(g, b1, p1); ExitsApart(g, b0, b1, p0, p1);
    var p := JoinOf(p0, p1, conj);
    var xs := Merged(p1, conj);
    assert xs[|xs| - 1] in xs;
    forall x: Exit {:trigger Field(g', x)} | x.block in p.own && x !in p.t + p.f ensures Field(g', x) in p.own {
      if x in Resolved(p0, conj) {
      } else {
        assert x !in p0.t + p0.f && x !in p1.t + p1.f;
        assert Field(g', x) == Field(g, x);
      }
    }
  }

  /** The second piece runs in the joined graph as it did alone. */
  lemma {:induction false} JoinSecond(
      g: Blocks, g': Blocks, b0: int, b1: int, p0: Piece, p1: Piece, conj: bool, env: Env)
    requires ExitsOk(g, b0, p0) && ExitsOk(g, b1, p1) && p0.own !! p1.own
    requires Closed(g, p1) && g[b1].head in p1.own
    requires Joined(g, g', b0, b1, p0, p1, conj)
    ensures var p := JoinOf(p0, p1, conj);
      Run(g', p.t + p.f, env, g[b1].head, Size(p1.e) - 1) == Run(g, p1.t + p1.f, env, g[b1].head, Size(p1.e) - 1)
  {
    hide Linked, Run;
    ExitsApart(g, b0, b1, p0, p1);
    var p := JoinOf(p0, p1, conj);
    var xs := Merged(p1, conj);
    assert xs[|xs| - 1] in xs;
    RunFrame(g, g', p1.own, p1.t + p1.f, p.t + p.f, env, g[b1].head, Size(p1.e) - 1);
  }

  /** The first piece's resolved exits now lead to the second piece; its others stay open. */
  lemma {:induction false} JoinPatched(g: Blocks, g': Blocks, b0: int, b1: int, p0: Piece, p1: Piece, conj: bool)
    requires ExitsOk(g, b0, p0) && ExitsOk(g, b1, p1) && p0.own !! p1.own
    requires Closed(g, p0)
    requires Joined(g, g', b0, b1, p0, p1, conj)
    ensures var p := JoinOf(p0, p1, conj);
      Patched(g', p0.own, Resolved(p0, conj), Merged(p0, conj), g[b1].head, p.t + p.f)
  {
    hide Linked;
    ExitsApart(g, b0, b1, p0, p1); ExitsDisjoint(g, b0, p0);
    var xs := Merged(p1, conj);
    assert xs[|xs| - 1] in xs;
  }

  /** The first piece runs in the joined graph as it did alone, up to its own exits. */
  lemma {:induction false} JoinFirst(
      g: Blocks, g': Blocks, b0: int, b1: int, p0: Piece, p1: Piece, conj: bool, env: Env)
    requires ExitsOk(g, b0, p0) && ExitsOk(g, b1, p1) && p0.own !! p1.own
    requires Closed(g, p0) && g[b0].head in p0.own
    requires Joined(g, g', b0, b1, p0, p1, conj)
    ensures Run(g', Resolved(p0, conj) + Merged(p0, conj), env, g[b0].head, Size(p0.e) - 1)
            == Run(g, p0.t + p0.f, env, g[b0].head, Size(p0.e) - 1)
  {
    hide Linked, Run;
    ExitsApart(g, b0, b1, p0, p1);
    var xs := Merged(p1, conj);
    assert xs[|xs| - 1] in xs;
    assert forall x :: x in Resolved(p0, conj) + Merged(p0, conj) <==> x in p0.t + p0.f;
    RunFrame(g, g', p0.own, p0.t + p0.f, Resolved(p0, conj) + Merged(p0, conj), env, g[b0].head, Size(p0.e) - 1);
  }

  lemma {:induction false} JoinBehaves(
      g: Blocks, g': Blocks, b0: int, b1: int, p0: Piece, p1: Piece, conj: bool, env: Env)
    requires PieceOk(g, b0, p0) && PieceOk(g, b1, p1) && p0.own !! p1.own
    requires Joined(g, g', b0, b1, p0, p1, conj)
    ensures Behaves(g', g[b0].head, JoinOf(p0, p1, conj), env)
  {
    JoinPatched(g, g', b0, b1, p0, p1, conj);
    JoinFirst(g, g', b0, b1, p0, p1, conj, env);
    JoinSecond(g, g', b0, b1, p0, p1, conj, env);
    ExitsDisjoint(g, b0, p0);
    var p := JoinOf(p0, p1, conj);
    JoinRuns(g, g', b0, b1, p0, p1, conj, env, p.t + p.f);
  }

  /** The two runs put together. */
  lemma {:induction false} JoinRuns(
      g: Blocks, g': Blocks, b0: int, b1: int, p0: Piece, p1: Piece, conj: bool, env: Env, holes: seq<Exit>)
    requires 0 <= b0 < |g| && 0 <= b1 < |g|
    requires g[b0].head in p0.own
    requires Behaves(g, g[b0].head, p0, env) && Behaves(g, g[b1].head, p1, env)
    requires forall x :: x in p0.t ==> x !in p0.f
    requires holes == JoinOf(p0, p1, conj).t + JoinOf(p0, p1, conj).f
    requires Run(g', Resolved(p0, conj) + Merged(p0, conj), env, g[b0].head, Size(p0.e) - 1)
             == Run(g, p0.t + p0.f, env, g[b0].head, Size(p0.e) - 1)
    requires Patched(g', p0.own, Resolved(p0, conj), Merged(p0, conj), g[b1].head, holes)
    requires Run(g', holes, env, g[b1].head, Size(p1.e) - 1) == Run(g, p1.t + p1.f, env, g[b1].head, Size(p1.e) - 1)
    ensures Behaves(g', g[b0].head, JoinOf(p0, p1, conj), env)
  {
    var p := JoinOf(p0, p1, conj);
    hide Run, Patched;
    RunThrough(g', p0.own, Resolved(p0, conj), Merged(p0, conj), g[b1].head, holes, env, g[b0].head,
               Size(p0.e) - 1, Size(p1.e) - 1);
    assert Size(p.e) - 1 == Size(p0.e) - 1 + 1 + (Size(p1.e) - 1);
  }

  /** gen_and and gen_or build a piece for the conjunction or disjunction. */
  lemma {:induction false} JoinPiece(g: Blocks, g': Blocks, b0: int, b1: int, p0: Piece, p1: Piece, conj: bool)
    requires PieceOk(g, b0, p0) && PieceOk(g, b1, p1) && p0.own !! p1.own
    requires Joined(g, g', b0, b1, p0, p1, conj)
    ensures PieceOk(g', b1, JoinOf(p0, p1, conj))
  {
    hide Linked, Behaves, Closed;
    JoinExits(g, g', b0, b1, p0, p1, conj);
    JoinClosed(g, g', b0, b1, p0, p1, conj);
    forall env ensures Behaves(g', g[b0].head, JoinOf(p0, p1, conj), env) {
      JoinBehaves(g, g', b0, b1, p0, p1, conj, env);
    }
  }

  // ------------------------------------------------------------ other steps

  function NotOf(p: Piece): Piece { Piece(Not(p.e), p.f, p.t, p.own) }

  /** gen_not exchanges the two exit lists by flipping the last block's sense alone. */
  lemma {:induction false} NotPiece(g: Blocks, b: int, p: Piece)
    requires PieceOk(g, b, p)
    ensures PieceOk(g[b := g[b].(sense := !g[b].sense)], b, NotOf(p))
  {
    hide Run, Linked;
    var g' := g[b := g[b].(sense := !g[b].sense)];
    NotExits(g, b, p);
    assert forall x :: x in p.t + p.f <==> x in p.f + p.t;
    assert forall x: Exit {:trigger Field(g', x)} :: Field(g', x) == Field(g, x);
    assert Closed(g', NotOf(p));
    forall env ensures Behaves(g', g[b].head, NotOf(p), env) {
      assert Behaves(g, g[b].head, p, env);
      RunFrame(g, g', p.own, p.t + p.f, p.f + p.t, env, g[b].head, Size(p.e) - 1);
    }
  }

  lemma {:induction false} NotExits(g: Blocks, b: int, p: Piece)
    requires ExitsOk(g, b, p)
    ensures ExitsOk(g[b := g[b].(sense := !g[b].sense)], b, NotOf(p))
  {
    var g' := g[b := g[b].(sense := !g[b].sense)];
    LinkedKeeps(g, g', p.t);
    LinkedKeeps(g, g', p.f);
    forall i, j {:trigger Shares(NotOf(p), i, j)} | 0 <= i < |p.f| && 0 <= j < |p.t| && Shares(NotOf(p), i, j)
      ensures i == 0 && j == 0
    {
      assert Shares(p, j, i);
    }
  }

  /** A piece depends on its own blocks only. */
  lemma {:induction false} PieceFrame(g: Blocks, g': Blocks, b: int, p: Piece)
    requires PieceOk(g, b, p)
    requires forall x :: x in p.own ==> Has(g', x) && g'[x] == g[x]
    ensures PieceOk(g', b, p)
  {
    hide Run, Linked;
    LinkedFrame(g, g', p.t, p.own);
    LinkedFrame(g, g', p.f, p.own);
    assert forall x: Exit {:trigger Field(g', x)} :: x.block in p.own ==> Field(g', x) == Field(g, x);
    assert Closed(g', p);
    forall env ensures Behaves(g', g'[b].head, p, env) {
      assert Behaves(g, g[b].head, p, env);
      RunFrame(g, g', p.own, p.t + p.f, p.t + p.f, env, g[b].head, Size(p.e) - 1);
    }
  }

  lemma {:induction false} LinkedFrame(g: Blocks, g': Blocks, xs: seq<Exit>, own: set<int>)
    requires Linked(g, xs) && forall i :: 0 <= i < |xs| ==> xs[i].block in own
    requires forall x :: x in own ==> Has(g', x) && Has(g, x) && g'[x] == g[x]
    ensures Linked(g', xs)
  {
    forall i | 0 <= i < |xs| ensures Field(g', xs[i]) == Field(g, xs[i]) {}
  }

  function AtomOf(x: int, test: nat): Piece { Piece(Atom(test), [Exit(x, true)], [Exit(x, false)], {x}) }

  lemma {:induction false} AtomPiece(g: Blocks, x: int, test: nat)
    requires Has(g, x) && g[x] == Block(Cond(test), NULL, NULL, false, x)
    ensures PieceOk(g, x, AtomOf(x, test))
  {
    var p := AtomOf(x, test);
    assert ExitsOk(g, x, p);
    forall e: Exit {:trigger Field(g, e)} | e.block in p.own ensures e in p.t + p.f {
      assert e == Exit(x, true) || e == Exit(x, false);
    }
    forall env ensures Behaves(g, x, p, env) {}
  }

  // ------------------------------------------------------------ closing the graph

  /** With every exit resolved to a return block, a run ends there. */
  lemma {:induction false} RunClosed(
      g: Blocks, own: set<int>, ts: seq<Exit>, fs: seq<Exit>, yes: int, no: int, env: Env, x: int, fuel: nat)
    requires x in own && Has(g, yes) && Has(g, no) && g[yes].code.Ret? && g[no].code.Ret?
    requires forall y :: y in own ==> Has(g, y) && g[y].code.Cond?
    requires forall e: Exit {:trigger Field(g, e)} :: e.block in own && e !in ts && e !in fs ==> Field(g, e) in own
    requires forall e :: e in ts ==> e !in fs
    requires forall e: Exit {:trigger Field(g, e)} :: e in ts ==> Field(g, e) == yes
    requires forall e: Exit {:trigger Field(g, e)} :: e in fs ==> Field(g, e) == no
    ensures match Run(g, ts + fs, env, x, fuel)
            case Out(exit) => Run(g, [], env, x, fuel + 1)
                == Returned(if exit in ts then g[yes].code.k else g[no].code.k)
            case Rejected => Run(g, [], env, x, fuel + 1) == Rejected
            case _ => true
    decreases fuel
  {
    if !env(g[x].code.test).Reject? {
      var exit := Exit(x, env(g[x].code.test).True?);
      if exit !in ts + fs && fuel > 0 {
        assert Field(g, exit) in own;
        RunClosed(g, own, ts, fs, yes, no, env, Field(g, exit), fuel - 1);
      }
    }
  }

  /** A finished filter: from the root, every run returns snaplen when the expression is true,
      0 when it is false, and is rejected when a rejecting test is reached. */
  ghost predicate Decides(g: Blocks, root: int, e: Expr, snaplen: nat) {
    forall env: Env, fuel: nat {:trigger Run(g, [], env, root, fuel)} :: fuel >= Size(e) ==>
      Run(g, [], env, root, fuel) == match Eval(e, env)
                                     case True => Returned(snaplen)
                                     case False => Returned(0)
                                     case Reject => Rejected
  }

  /** How the graph looks after finish_parse has patched both lists. */
  ghost predicate Finished(g: Blocks, g': Blocks, p: Piece, yes: int, no: int, snaplen: nat) {
    && Has(g', yes) && Has(g', no) && g'[yes].code == Ret(snaplen) && g'[no].code == Ret(0)
    && (forall x :: x in p.own ==> Has(g', x) && Has(g, x) && g'[x].code == g[x].code)
    && (forall x: Exit {:trigger Field(g', x)} :: x.block in p.own ==>
          Field(g', x) == if x in p.t then yes else if x in p.f then no else Field(g, x))
  }

  lemma {:induction false} FinishedDecides(g: Blocks, g': Blocks, b: int, p: Piece, yes: int, no: int, snaplen: nat)
    requires PieceOk(g, b, p) && Finished(g, g', p, yes, no, snaplen)
    ensures Decides(g', g[b].head, p.e, snaplen)
  {
    hide Run, Linked;
    ExitsDisjoint(g, b, p);
    var root := g[b].head;
    forall env: Env, fuel: nat {:trigger Run(g', [], env, root, fuel)} | fuel >= Size(p.e)
      ensures Run(g', [], env, root, fuel) == match Eval(p.e, env)
                                              case True => Returned(snaplen)
                                              case False => Returned(0)
                                              case Reject => Rejected
    {
      assert Behaves(g, root, p, env);
      RunFrame(g, g', p.own, p.t + p.f, p.t + p.f, env, root, Size(p.e) - 1);
      RunClosed(g', p.own, p.t, p.f, yes, no, env, root, Size(p.e) - 1);
      MoreFuel(g', [], env, root, Size(p.e), fuel - Size(p.e));
    }
  }

  // ------------------------------------------------------------ the compiler's steps

  datatype Check = NoCheck | Check(test: nat)

  function Checked(check: Check, e: Expr): Expr { if check.NoCheck? then e else And(Atom(check.test), e) }

  class Graph {
    var blocks: Blocks

    constructor ()
      ensures blocks == []
    {
      blocks := [];
    }

    /** backpatch: every exit of the list, and nothing else, now leads to the target. */
    method Backpatch(list: int, target: int, ghost exits: seq<Exit>)
      requires Chain(blocks, list, exits)
      modifies this
      ensures SameBut(old(blocks), blocks, exits)
      ensures forall x: Exit {:trigger Field(blocks, x)} :: x in exits ==> Field(blocks, x) == target
    {
      hide SameBut, Chain, Field, WithField, Next;
      var list := list;
      ghost var k := 0;
      assert exits[0..] == exits && exits[..0] == [];
      PatchNone(blocks, target);
      while list != NULL
        invariant 0 <= k <= |exits|
        invariant Chain(blocks, list, exits[k..])
        invariant SameBut(old(blocks), blocks, exits[..k])
        invariant AllLeadTo(blocks, exits[..k], target)
        decreases |exits| - k
      {
        hide AllLeadTo;
        ghost var was := blocks;
        ChainStarts(blocks, list, exits[k..]);
        ghost var x := exits[k..][0];
        assert exits[..k + 1] == exits[..k] + [x];
        assert exits[k..][1..] == exits[k + 1..];
        PatchOne(was, list, exits[k..], target);
        list := SetLink(list, target);
        PatchMore(old(blocks), was, blocks, exits[..k], x, target);
        k := k + 1;
      }
      ChainEnds(blocks, exits[k..]);
      assert exits[..k] == exits;
    }

    /** The field the block's sense picks is set; its old value is the next block of the list. */
    method SetLink(list: int, target: int) returns (next: int)
      requires Has(blocks, list)
      modifies this
      ensures var x := Exit(list, !old(blocks)[list].sense);
              next == Field(old(blocks), x) && blocks == WithField(old(blocks), x, target)
    {
      if !blocks[list].sense {
        next := blocks[list].jt;
        blocks := blocks[list := blocks[list].(jt := target)];
      } else {
        next := blocks[list].jf;
        blocks := blocks[list := blocks[list].(jf := target)];
      }
    }

    /** merge: the last link of the first list, and nothing else, now leads to the second. */
    method Merge(b0: int, b1: int, ghost exits: seq<Exit>)
      requires Chain(blocks, b0, exits)
      modifies this
      ensures blocks == if exits == [] then old(blocks) else WithField(old(blocks), exits[|exits| - 1], b1)
    {
      var at := Exit(NULL, false);
      var p := b0;
      ghost var k := 0;
      while p != NULL
        invariant 0 <= k <= |exits|
        invariant p == if k < |exits| then exits[k].block else NULL
        invariant at == if k == 0 then Exit(NULL, false) else exits[k - 1]
        decreases |exits| - k
      {
        at := Exit(p, !blocks[p].sense);
        assert at == exits[k] && Field(blocks, exits[k]) == Next(exits, k);
        p := if !blocks[p].sense then blocks[p].jt else blocks[p].jf;
        k := k + 1;
      }
      assert exits != [] ==> at == exits[|exits| - 1] && Has(blocks, at.block);
      if at.block != NULL { blocks := WithField(blocks, at, b1); }
    }

    method FlipSense(b: int)
      requires Has(blocks, b)
      modifies this
      ensures blocks == Flip(old(blocks), b)
      ensures forall x: Exit {:trigger Field(blocks, x)} :: Field(blocks, x) == Field(old(blocks), x)
    {
      blocks := blocks[b := blocks[b].(sense := !blocks[b].sense)];
    }

    /** gen_and: b1 now stands for the conjunction; no other block is touched. */
    method GenAnd(b0: int, b1: int, ghost p0: Piece, ghost p1: Piece)
      requires PieceOk(blocks, b0, p0) && PieceOk(blocks, b1, p1) && p0.own !! p1.own
      modifies this
      ensures PieceOk(blocks, b1, JoinOf(p0, p1, true))
      ensures Untouched(old(blocks), blocks, p0.own + p1.own)
      ensures Joined(old(blocks), blocks, b0, b1, p0, p1, true)
    {
      hide Linked, Run, Closed, Behaves;
      ghost var g := blocks;
      ChainTrue(g, b0, p0);
      Backpatch(b0, blocks[b1].head, p0.t);
      FlipSense(b0);
      FlipSense(b1);
      ghost var ready := blocks;
      assert ReadyToMerge(g, ready, b0, b1, p0, p1, true);
      ReadyChain(g, ready, b0, b1, p0, p1, true);
      Merge(b1, b0, p1.f);
      FlipSense(b1);
      blocks := blocks[b1 := blocks[b1].(head := blocks[b0].head)];
      MergedJoins(g, ready, blocks, b0, b1, p0, p1, true);
      JoinPiece(g, blocks, b0, b1, p0, p1, true);
    }

    /** gen_or: b1 now stands for the disjunction; no other block is touched. */
    method GenOr(b0: int, b1: int, ghost p0: Piece, ghost p1: Piece)
      requires PieceOk(blocks, b0, p0) && PieceOk(blocks, b1, p1) && p0.own !! p1.own
      modifies this
      ensures PieceOk(blocks, b1, JoinOf(p0, p1, false))
      ensures Untouched(old(blocks), blocks, p0.own + p1.own)
      ensures Joined(old(blocks), blocks, b0, b1, p0, p1, false)
    {
      hide Linked, Run, Closed, Behaves;
      ghost var g := blocks;
      FlipSense(b0);
      ChainFalse(g, b0, p0);
      Backpatch(b0, blocks[b1].head, p0.f);
      FlipSense(b0);
      ghost var ready := blocks;
      assert ReadyToMerge(g, ready, b0, b1, p0, p1, false);
      ReadyChain(g, ready, b0, b1, p0, p1, false);
      Merge(b1, b0, p1.t);
      blocks := blocks[b1 := blocks[b1].(head := blocks[b0].head)];
      MergedJoins(g, ready, blocks, b0, b1, p0, p1, false);
      JoinPiece(g, blocks, b0, b1, p0, p1, false);
    }

    /** gen_not: flipping one sense negates the whole piece. */
    method GenNot(b: int, ghost p: Piece)
      requires PieceOk(blocks, b, p)
      modifies this
      ensures PieceOk(blocks, b, NotOf(p))
      ensures Untouched(old(blocks), blocks, p.own) && blocks == Flip(old(blocks), b)
    {
      NotPiece(blocks, b, p);
      FlipSense(b);
    }

    method NewBlock(code: Code) returns (x: int)
      modifies this
      ensures x == |old(blocks)|
      ensures blocks == old(blocks) + [Block(code, NULL, NULL, false, x)]
    {
      x := |blocks|;
      blocks := blocks + [Block(code, NULL, NULL, false, x)];
    }

    /** The grammar's actions, operand by operand: the block returned stands for the
        expression, on new blocks only. */
    method Compile(e: Expr) returns (b: int, ghost p: Piece)
      modifies this
      ensures PieceOk(blocks, b, p) && p.e == e
      ensures |old(blocks)| <= |blocks| && blocks[..|old(blocks)|] == old(blocks)
      ensures forall x :: x in p.own ==> |old(blocks)| <= x < |blocks|
      decreases e
    {
      hide PieceOk;
      match e
      case Atom(test) =>
        b := NewBlock(Cond(test));
        p := AtomOf(b, test);
        AtomPiece(blocks, b, test);
      case And(l, r) =>
        var b0, p0 := Compile(l);
        ghost var g := blocks;
        var b1, p1 := Compile(r);
        PieceWithin(g, b0, p0);
        PieceFrame(g, blocks, b0, p0);
        assert forall x :: x in p0.own ==> x !in p1.own;
        GenAnd(b0, b1, p0, p1);
        b, p := b1, JoinOf(p0, p1, true);
      case Or(l, r) =>
        var b0, p0 := Compile(l);
        ghost var g := blocks;
        var b1, p1 := Compile(r);
        PieceWithin(g, b0, p0);
        PieceFrame(g, blocks, b0, p0);
        assert forall x :: x in p0.own ==> x !in p1.own;
        GenOr(b0, b1, p0, p1);
        b, p := b1, JoinOf(p0, p1, false);
      case Not(x) =>
        var b0, p0 := Compile(x);
        GenNot(b0, p0);
        b, p := b0, NotOf(p0);
    }

    /** The check of the per-packet link type that finish_parse puts in front of the filter. */
    method AddCheck(b: int, check: Check, ghost p: Piece) returns (ghost p': Piece)
      requires PieceOk(blocks, b, p)
      modifies this
      ensures PieceOk(blocks, b, p') && p'.e == Checked(check, p.e)
      ensures check.NoCheck? ==> p' == p && blocks == old(blocks)
    {
      hide PieceOk;
      p' := p;
      if check.Check? {
        ghost var g := blocks;
        PieceWithin(g, b, p);
        var b0 := NewBlock(Cond(check.test));
        AtomPiece(blocks, b0, check.test);
        PieceFrame(g, blocks, b, p);
        GenAnd(b0, b, AtomOf(b0, check.test), p);
        p' := JoinOf(AtomOf(b0, check.test), p, true);
      }
    }

    /** The end of finish_parse: the closed graph decides the expression. */
    method Finish(b: int, snaplen: nat, ghost p: Piece) returns (root: int, ghost yes: int, ghost no: int)
      requires PieceOk(blocks, b, p)
      modifies this
      ensures Decides(blocks, root, p.e, snaplen) && root in p.own
      ensures Finished(old(blocks), blocks, p, yes, no, snaplen) && yes >= |old(blocks)| && no >= |old(blocks)|
    {
      hide Linked, Run, Closed, Behaves;
      ghost var g := blocks;
      PieceWithin(g, b, p);
      var accept := NewBlock(Ret(snaplen));
      yes := accept;
      ghost var g1 := blocks;
      PieceFrame(g, g1, b, p);
      ChainTrue(g1, b, p);
      Backpatch(b, accept, p.t);
      FlipSense(b);
      ghost var g2 := blocks;
      var reject := NewBlock(Ret(0));
      no := reject;
      ghost var g3 := blocks;
      assert forall x: Exit {:trigger Field(g2, x)} :: Field(g2, x) == if x in p.t then yes else Field(g1, x);
      FalseAfterTrue(g1, g2, g3, b, p);
      Backpatch(b, reject, p.f);
      root := blocks[b].head;
      assert blocks[yes].code == g2[yes].code == Ret(snaplen);
      FinishedSteps(g, g1, g2, g3, blocks, b, p, yes, no, snaplen);
      FinishedDecides(g, blocks, b, p, yes, no, snaplen);
    }

    /** finish_parse: the link-type check if there is one, then both exit lists closed. */
    method FinishParse(b: int, snaplen: nat, check: Check, ghost p: Piece)
        returns (root: int, ghost yes: int, ghost no: int)
      requires PieceOk(blocks, b, p)
      modifies this
      ensures Decides(blocks, root, Checked(check, p.e), snaplen)
      ensures check.NoCheck? ==>
        && root in p.own && yes >= |old(blocks)| && no >= |old(blocks)|
        && Finished(old(blocks), blocks, p, yes, no, snaplen)
    {
      hide PieceOk, Finished;
      ghost var p' := AddCheck(b, check, p);
      root, yes, no := Finish(b, snaplen, p');
    }

    /** Compiling and closing any expression yields a filter that decides it, after the link-type
        check if there is one. */
    method CompileFilter(e: Expr, snaplen: nat, check: Check) returns (root: int)
      modifies this
      ensures Decides(blocks, root, Checked(check, e), snaplen)
    {
      hide PieceOk;
      var b, p := Compile(e);
      ghost var yes, no;
      root, yes, no := FinishParse(b, snaplen, check, p);
    }
  }

  function Flip(g: Blocks, b: int): Blocks
    requires 0 <= b < |g|
  {
    g[b := g[b].(sense := !g[b].sense)]
  }

  ghost predicate Untouched(g: Blocks, g': Blocks, own: set<int>) {
    && |g'| == |g|
    && forall x :: 0 <= x < |g| && x !in own ==> g'[x] == g[x]
  }

  lemma {:induction false} PieceWithin(g: Blocks, b: int, p: Piece)
    requires PieceOk(g, b, p)
    ensures Has(g, b) && forall x :: x in p.own ==> Has(g, x)
  {
  }

  lemma {:induction false} ChainTrue(g: Blocks, b: int, p: Piece)
    requires ExitsOk(g, b, p)
    ensures Chain(g, b, p.t)
  {
  }

  lemma {:induction false} ChainFalse(g: Blocks, b: int, p: Piece)
    requires ExitsOk(g, b, p)
    ensures Chain(Flip(g, b), b, p.f)
  {
    NotExits(g, b, p);
  }

  /** The graph when the first piece's exits are patched and the merge can start. */
  ghost predicate ReadyToMerge(g: Blocks, g': Blocks, b0: int, b1: int, p0: Piece, p1: Piece, conj: bool)
    requires ExitsOk(g, b0, p0) && ExitsOk(g, b1, p1)
  {
    && |g'| == |g|
    && (forall x :: 0 <= x < |g| ==> g'[x].code == g[x].code && g'[x].head == g[x].head)
    && (forall x :: 0 <= x < |g| && x != b0 && x != b1 ==> g'[x].sense == g[x].sense)
    && Merged(p0, conj)[0] == Exit(b0, !g'[b0].sense)
    && Merged(p1, conj)[0] == Exit(b1, !g'[b1].sense)
    && (forall x: Exit {:trigger Field(g', x)} ::
          Field(g', x) == if x in Resolved(p0, conj) then g[b1].head else Field(g, x))
  }

  lemma {:induction false} ReadyChain(g: Blocks, g': Blocks, b0: int, b1: int, p0: Piece, p1: Piece, conj: bool)
    requires ExitsOk(g, b0, p0) && ExitsOk(g, b1, p1) && p0.own !! p1.own
    requires ReadyToMerge(g, g', b0, b1, p0, p1, conj)
    ensures Chain(g', b1, Merged(p1, conj))
  {
    ExitsApart(g, b0, b1, p0, p1);
    LinkedKeeps(g, g', Merged(p1, conj));
  }

  lemma {:induction false} MergedJoins(
      g: Blocks, ready: Blocks, g': Blocks, b0: int, b1: int, p0: Piece, p1: Piece, conj: bool)
    requires ExitsOk(g, b0, p0) && ExitsOk(g, b1, p1) && p0.own !! p1.own
    requires ReadyToMerge(g, ready, b0, b1, p0, p1, conj)
    requires var xs := Merged(p1, conj); var m := WithField(ready, xs[|xs| - 1], b0);
      g' == m[b1 := m[b1].(sense := g[b1].sense, head := g[b0].head)]
    ensures Joined(g, g', b0, b1, p0, p1, conj)
    ensures Untouched(g, g', p0.own + p1.own)
  {
    hide Linked;
    ExitsApart(g, b0, b1, p0, p1);
    var xs := Merged(p1, conj);
    var last := xs[|xs| - 1];
    LastIsAlone(g, xs);
    assert last in xs;
    var m := WithField(ready, last, b0);
    forall x: Exit {:trigger Field(g', x)} | true
      ensures Field(g', x) == if x in Resolved(p0, conj) then g[b1].head else if x == last then b0 else Field(g, x)
    {
      assert Field(g', x) == Field(m, x);
      assert Field(m, x) == if x == last then b0 else Field(ready, x);
    }
    forall x | 0 <= x < |g| && x !in p0.own + p1.own ensures g'[x] == g[x] {
      assert Field(g', Exit(x, true)) == Field(g, Exit(x, true));
      assert Field(g', Exit(x, false)) == Field(g, Exit(x, false));
    }
  }

  lemma {:induction false} FinishedSteps(
      g: Blocks, g1: Blocks, g2: Blocks, g3: Blocks, g4: Blocks, b: int, p: Piece, yes: int, no: int, snaplen: nat)
    requires ExitsOk(g, b, p) && forall x :: x in p.own ==> Has(g, x)
    requires |g| <= |g1| == |g2| <= |g3| == |g4| && g1[..|g|] == g && g3[..|g2|] == g2
    requires Has(g4, yes) && Has(g4, no) && g4[yes].code == Ret(snaplen) && g4[no].code == Ret(0)
    requires forall x :: Has(g1, x) ==> g2[x].code == g1[x].code
    requires SameBut(g3, g4, p.f)
    requires forall x: Exit {:trigger Field(g2, x)} :: Field(g2, x) == if x in p.t then yes else Field(g1, x)
    requires forall x: Exit {:trigger Field(g4, x)} :: x in p.f ==> Field(g4, x) == no
    ensures Finished(g, g4, p, yes, no, snaplen)
  {
    hide Linked;
    ExitsDisjoint(g, b, p);
    forall x: Exit {:trigger Field(g4, x)} | x.block in p.own
      ensures Field(g4, x) == if x in p.t then yes else if x in p.f then no else Field(g, x)
    {
      assert Field(g3, x) == Field(g2, x);
      assert Field(g1, x) == Field(g, x);
    }
  }

  /** Patching the true exits, flipping the sense and adding a block leaves the false list. */
  lemma {:induction false} FalseAfterTrue(g1: Blocks, g2: Blocks, g3: Blocks, b: int, p: Piece)
    requires ExitsOk(g1, b, p)
    requires |g2| == |g1| <= |g3| && g3[..|g2|] == g2
    requires forall x :: 0 <= x < |g1| ==> g2[x].sense == if x == b then !g1[x].sense else g1[x].sense
    requires forall x: Exit {:trigger Field(g2, x)} :: x !in p.t ==> Field(g2, x) == Field(g1, x)
    ensures Chain(g3, b, p.f)
  {
    ExitsDisjoint(g1, b, p);
    forall i | 0 <= i < |p.f| ensures Field(g3, p.f[i]) == Next(p.f, i) {
      assert p.f[i] in p.f;
      assert Field(g1, p.f[i]) == Next(p.f, i);
      assert Field(g3, p.f[i]) == Field(g2, p.f[i]);
    }
    assert Linked(g3, p.f);
  }

  ghost predicate AllLeadTo(g: Blocks, exits: seq<Exit>, target: int) {
    forall x: Exit {:trigger Field(g, x)} :: x in exits ==> Field(g, x) == target
  }

  /** A list that is not empty starts at a block, whose sense picks the field to follow. */
  lemma {:induction false} ChainStarts(g: Blocks, list: int, exits: seq<Exit>)
    requires Chain(g, list, exits) && list != NULL
    ensures exits != [] && Has(g, list) && exits[0] == Exit(list, !g[list].sense)
  {
  }

  lemma {:induction false} ChainEnds(g: Blocks, exits: seq<Exit>)
    requires Chain(g, NULL, exits)
    ensures exits == []
  {
  }

  lemma {:induction false} PatchNone(g: Blocks, target: int)
    ensures SameBut(g, g, []) && AllLeadTo(g, [], target)
  {
  }

  lemma {:induction false} PatchMore(g0: Blocks, g1: Blocks, g2: Blocks, xs: seq<Exit>, x: Exit, target: int)
    requires SameBut(g0, g1, xs) && SameBut(g1, g2, [x]) && AllLeadTo(g1, xs, target) && Field(g2, x) == target
    ensures SameBut(g0, g2, xs + [x]) && AllLeadTo(g2, xs + [x], target)
  {
    forall y: Exit
      ensures y !in xs + [x] ==> Field(g2, y) == Field(g0, y)
      ensures y in xs + [x] ==> Field(g2, y) == target
    {
      if y != x { assert Field(g2, y) == Field(g1, y); }
    }
  }

  lemma {:induction false} PatchOne(g: Blocks, list: int, exits: seq<Exit>, target: int)
    requires Chain(g, list, exits) && exits != []
    ensures var g' := WithField(g, exits[0], target);
      && Chain(g', Field(g, exits[0]), exits[1..]) && SameBut(g, g', [exits[0]]) && Field(g', exits[0]) == target
  {
    var g' := WithField(g, exits[0], target);
    var rest := exits[1..];
    forall i | 0 <= i < |rest| ensures Field(g', rest[i]) == Next(rest, i) {
      assert rest[i] == exits[i + 1];
      assert Field(g, exits[i + 1]) == Next(exits, i + 1);
    }
    assert Field(g, exits[0]) == Next(exits, 0);
    assert Linked(g', rest);
  }

  // ------------------------------------------------------------ which way control flows

  /** The piece tests only numbers below `tests`, and a branch that is not an exit goes to a block
      made later. */
  ghost predicate Upward(g: Blocks, p: Piece, tests: nat) {
    && (forall x :: x in p.own ==> Has(g, x) && g[x].code.Cond? && g[x].code.test < tests)
    && (forall x: Exit {:trigger Field(g, x)} :: x.block in p.own && x !in p.t && x !in p.f ==> x.block < Field(g, x))
  }

  /** A closed graph whose branches all go to later blocks: owned tests or one of the returns. */
  ghost predicate Layable(g: Blocks, own: set<int>, snaplen: nat, tests: nat) {
    && (forall x :: x in own ==> Has(g, x) && g[x].code.Cond? && g[x].code.test < tests)
    && (forall x: Exit {:trigger Field(g, x)} :: x.block in own ==>
          && x.block < Field(g, x) && Has(g, Field(g, x))
          && (Field(g, x) in own || g[Field(g, x)].code in {Ret(snaplen), Ret(0)}))
  }

  lemma {:induction false} UpwardAtom(g: Blocks, x: int, test: nat, tests: nat)
    requires Has(g, x) && g[x].code == Cond(test) && test < tests
    ensures Upward(g, AtomOf(x, test), tests) && Upward(g, NotOf(AtomOf(x, test)), tests)
  {
    forall e: Exit | e.block == x ensures e in [Exit(x, true)] || e in [Exit(x, false)] {}
  }

  lemma {:induction false} UpwardNot(g: Blocks, b: int, p: Piece, tests: nat)
    requires Upward(g, p, tests) && Has(g, b)
    ensures Upward(Flip(g, b), NotOf(p), tests)
  {
    var g' := Flip(g, b);
    assert forall x: Exit {:trigger Field(g', x)} :: Field(g', x) == Field(g, x);
  }

  /** Blocks added later, and more tests, change nothing. */
  lemma {:induction false} UpwardFrame(g: Blocks, g': Blocks, p: Piece, tests: nat, more: nat)
    requires Upward(g, p, tests) && tests <= more && |g| <= |g'| && g'[..|g|] == g
    ensures Upward(g', p, more)
  {
    assert forall x :: Has(g, x) ==> g'[x] == g[x];
    assert forall x: Exit {:trigger Field(g', x)} :: Has(g, x.block) ==> Field(g', x) == Field(g, x);
  }

  lemma {:induction false} UpwardJoin(
      g: Blocks, g': Blocks, b0: int, b1: int, p0: Piece, p1: Piece, conj: bool, tests: nat)
    requires PieceOk(g, b0, p0) && PieceOk(g, b1, p1) && p0.own !! p1.own
    requires Joined(g, g', b0, b1, p0, p1, conj) && Upward(g, p0, tests) && Upward(g, p1, tests)
    requires forall x, y :: x in p0.own && y in p1.own ==> x < y
    ensures Upward(g', JoinOf(p0, p1, conj), tests)
  {
    hide Linked, Behaves, Closed;
    ExitsApart(g, b0, b1, p0, p1);
    var p := JoinOf(p0, p1, conj);
    var xs := Merged(p1, conj);
    var last := xs[|xs| - 1];
    assert last in xs;
    forall x: Exit {:trigger Field(g', x)} | x.block in p.own && x !in p.t && x !in p.f
      ensures x.block < Field(g', x)
    {
      assert x !in p1.t && x !in p1.f && x !in Merged(p0, conj);
      if x in Resolved(p0, conj) {
        assert x.block in p0.own && g[b1].head in p1.own;
      } else {
        assert Field(g', x) == Field(g, x);
        assert x !in p0.t && x !in p0.f;
      }
    }
  }

  lemma {:induction false} UpwardFinished(g: Blocks, g': Blocks, b: int, p: Piece, yes: int, no: int, snaplen: nat,
                                          tests: nat)
    requires PieceOk(g, b, p) && Upward(g, p, tests) && Finished(g, g', p, yes, no, snaplen)
    requires yes >= |g| && no >= |g|
    ensures Layable(g', p.own, snaplen, tests)
  {
    hide Linked, Behaves;
  }
}
