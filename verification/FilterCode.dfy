/** From the block graph to the array of instructions the machine runs (deps/libpcap/optimize.c):
    blocks are written from the end of the array towards its start, successors first, and a branch
    whose target is 256 or more instructions away goes through an extra jump. */
module FilterCode {
  import opened FilterMachine
  import FB = FilterBlocks
  import FA = FilterArith

  // ------------------------------------------------------------ running parts of a program

  lemma {:induction false} RunLonger(prog: seq<Insn>, input: Input, pc: int, r: Regs, n: nat, m: nat)
    requires Sane(input, r) && n <= m && Run(prog, input, pc, r, n).Stopped?
    ensures Run(prog, input, pc, r, m) == Run(prog, input, pc, r, n)
    decreases n
  {
    hide Step;
    if n == 0 {
      RunNone(prog, input, pc, r);
    } else {
      RunUnfolds(prog, input, pc, r, n);
      RunUnfolds(prog, input, pc, r, m);
      var s := Step(prog, input, pc, r);
      if s.Running? { RunLonger(prog, input, s.pc, s.regs, n - 1, m - 1); }
    }
  }

  /** Outside the program nothing is returned. */
  lemma {:induction false} OutsideNeverStops(prog: seq<Insn>, input: Input, pc: int, r: Regs, n: nat)
    requires Sane(input, r) && !(0 <= pc < |prog|)
    ensures !Run(prog, input, pc, r, n).Stopped?
  {
    if n > 0 { RunUnfolds(prog, input, pc, r, n); }
  }

  lemma {:induction false} StepBehind(front: seq<Insn>, prog: seq<Insn>, input: Input, pc: nat, r: Regs)
    requires Sane(input, r) && pc < |prog|
    ensures var s := Step(prog, input, pc, r);
      Step(front + prog, input, |front| + pc, r) == if s.Running? then Running(|front| + s.pc, s.regs) else s
  {
    hide Decode, Apply, Holds;
    assert (front + prog)[|front| + pc] == prog[pc];
  }

  /** A run that returns never leaves its program, so code in front of it changes nothing. */
  lemma {:induction false} RunBehind(front: seq<Insn>, prog: seq<Insn>, input: Input, pc: int, r: Regs, n: nat)
    requires Sane(input, r) && Run(prog, input, pc, r, n).Stopped?
    ensures Run(front + prog, input, |front| + pc, r, n) == Run(prog, input, pc, r, n)
    decreases n
  {
    hide Step;
    if n == 0 {
      RunNone(prog, input, pc, r);
    } else if !(0 <= pc < |prog|) {
      OutsideNeverStops(prog, input, pc, r, n);
    } else {
      StepBehind(front, prog, input, pc, r);
      RunUnfolds(prog, input, pc, r, n);
      RunUnfolds(front + prog, input, |front| + pc, r, n);
      var s := Step(prog, input, pc, r);
      if s.Running? { RunBehind(front, prog, input, s.pc, s.regs, n - 1); }
    }
  }

  function InsnOf(c: FA.Stmt): Insn { Insn(c.code, 0, 0, c.k) }

  function Body(s: seq<FA.Stmt>): seq<Insn> { seq(|s|, i requires 0 <= i < |s| => InsnOf(s[i])) }

  /** The instructions pc.. of a program are `part`. */
  ghost predicate Holding(prog: seq<Insn>, pc: nat, part: seq<Insn>) {
    pc + |part| <= |prog| && prog[pc..pc + |part|] == part
  }

  /** Straight-line code in any program does what its statements do. */
  lemma {:induction false} RunBody(prog: seq<Insn>, pc: nat, s: seq<FA.Stmt>, input: Input, r: Regs, n: nat)
    requires Sane(input, r) && n >= |s| && Holding(prog, pc, Body(s))
    ensures match FA.Exec(s, input, r)
            case Go(r') => |r'.mem| == MEMWORDS && Run(prog, input, pc, r, n) == Run(prog, input, pc + |s|, r', n - |s|)
            case Stop(v) => Run(prog, input, pc, r, n) == Stopped(v)
            case Fault(_) => true
    decreases |s|
  {
    hide Run, Apply, Decode;
    if s != [] {
      var op := Decode(s[0].code);
      assert prog[pc] == prog[pc..pc + |s|][0] == InsnOf(s[0]);
      if op.Ja? || op.Branch? {
        JumpsAreNoStatements(op, s[0].k, input, r);
      } else {
        OneMore(prog, input, pc, r, n, op);
        var e := Apply(op, s[0].k, input.pkt, input.wirelen, r);
        if e.Go? {
          HoldingRest(prog, pc, s);
          RunBody(prog, pc + 1, s[1..], input, e.regs, n - 1);
        }
      }
    }
  }

  lemma {:induction false} JumpsAreNoStatements(op: Op, k: u32, input: Input, r: Regs)
    requires Sane(input, r) && (op.Ja? || op.Branch?)
    ensures Apply(op, k, input.pkt, input.wirelen, r) == Fault(Abort)
  {
  }

  lemma {:induction false} HoldingRest(prog: seq<Insn>, pc: nat, s: seq<FA.Stmt>)
    requires s != [] && Holding(prog, pc, Body(s))
    ensures Holding(prog, pc + 1, Body(s[1..]))
  {
    assert Body(s[1..]) == Body(s)[1..];
    assert prog[pc + 1..pc + |s|] == prog[pc..pc + |s|][1..];
  }

  // ------------------------------------------------------------ branches near and far

  function Skip(off: nat): Insn { Insn(JMP + OP_JA, 0, 0, off % U32) }

  /** Extra jumps a branch with these offsets needs. */
  function Far(off: nat): nat { if off >= 256 then 1 else 0 }

  /** The branch instruction and the slots behind it; offsets count from the first slot. A slot
      that is not needed after all stays zero. */
  function BranchCode(jump: FA.Stmt, offT: nat, offF: nat, slots: nat): (s: seq<Insn>)
    requires Far(offT) + Far(offF) <= slots
    ensures |s| == 1 + slots
  {
    var first := if offT >= 256 then [Skip(offT - 1)] else [];
    var both := first + if offF >= 256 then [Skip(offF - |first| - 1)] else [];
    [Insn(jump.code, if offT >= 256 then 0 else offT, if offF >= 256 then |first| else offF, jump.k)]
    + both + seq(slots - |both|, i => Insn(0, 0, 0, 0))
  }

  /** A branch reaches its target, directly or through its extra jump. */
  lemma {:induction false} BranchGoes(
      prog: seq<Insn>, pc: nat, jump: FA.Stmt, offT: nat, offF: nat, slots: nat, input: Input, r: Regs, n: nat)
      returns (m: nat)
    requires Sane(input, r) && Far(offT) + Far(offF) <= slots && offT < HALF && offF < HALF && n >= 1 + slots
    requires Holding(prog, pc, BranchCode(jump, offT, offF, slots)) && Decode(jump.code).Branch?
    ensures m >= n - (if slots == 0 then 1 else 2)
    ensures var op := Decode(jump.code);
            var off := if Holds(op.cmp, r.a, if op.withX then r.x else jump.k) then offT else offF;
            Run(prog, input, pc, r, n) == Run(prog, input, pc + 1 + off, r, m)
  {
    hide Run, Decode, Holds;
    var code := BranchCode(jump, offT, offF, slots);
    assert prog[pc] == prog[pc..pc + |code|][0] == code[0];
    var op := Decode(jump.code);
    RunUnfolds(prog, input, pc, r, n);
    m := n - 1;
    if Holds(op.cmp, r.a, if op.withX then r.x else jump.k) {
      if offT >= 256 {
        assert prog[pc + 1] == prog[pc..pc + |code|][1] == Skip(offT - 1);
        SkipGoes(prog, pc + 1, offT - 1, input, r, m);
        m := m - 1;
      }
    } else if offF >= 256 {
      var e := Far(offT);
      assert prog[pc + 1 + e] == prog[pc..pc + |code|][1 + e] == Skip(offF - e - 1);
      SkipGoes(prog, pc + 1 + e, offF - e - 1, input, r, m);
      m := m - 1;
    }
  }

  lemma {:induction false} SkipGoes(prog: seq<Insn>, pc: nat, off: nat, input: Input, r: Regs, n: nat)
    requires Sane(input, r) && pc < |prog| && prog[pc] == Skip(off) && off < HALF && n > 0
    ensures Run(prog, input, pc, r, n) == Run(prog, input, pc + 1 + off, r, n - 1)
  {
    hide Run;
    Small(off);
    RunUnfolds(prog, input, pc, r, n);
  }

  // ------------------------------------------------------------ blocks in the array

  /** Run from its first instruction on any packet and register state, the code returns what the
      graph returns from block b. */
  ghost predicate Does(code: seq<Insn>, g: FB.Blocks, rels: seq<FA.Relation>, b: int) {
    forall input: Input, r: Regs, fuel: nat {:trigger FA.RunCode(g, rels, input, r, b, fuel)} ::
      Sane(input, r) ==> DoesAt(code, g, rels, b, input, r, fuel)
  }

  ghost predicate DoesAt(
      code: seq<Insn>, g: FB.Blocks, rels: seq<FA.Relation>, b: int, input: Input, r: Regs, fuel: nat)
    requires Sane(input, r)
  {
    var o := FA.RunCode(g, rels, input, r, b, fuel);
    o.Returned? ==> o.k < U32 && Run(code, input, 0, r, |code|) == Stopped(o.k)
  }

  lemma {:induction false} ReturnDoes(g: FB.Blocks, rels: seq<FA.Relation>, b: int, k: u32, rest: seq<Insn>)
    requires FB.Has(g, b) && g[b].code == FB.Ret(k)
    ensures Does([Insn(RET + K, 0, 0, k)] + rest, g, rels, b)
  {
    var code := [Insn(RET + K, 0, 0, k)] + rest;
    forall input: Input, r: Regs, fuel: nat | Sane(input, r)
      ensures DoesAt(code, g, rels, b, input, r, fuel)
    {
      hide Run;
      OneMore(code, input, 0, r, |code|, RetK);
    }
    DoesIntro(code, g, rels, b);
  }

  function Suffix(code: seq<Insn>, n: nat): seq<Insn>
    requires n <= |code|
  {
    code[|code| - n..]
  }

  /** The code of a block: its statements, its branch, and the code written before. */
  function BlockCode(rel: FA.Relation, offT: nat, offF: nat, slots: nat, rest: seq<Insn>): seq<Insn>
    requires Far(offT) + Far(offF) <= slots
  {
    Body(rel.stmts) + BranchCode(rel.jump, offT, offF, slots) + rest
  }

  /** Where a block's successors stand in the code behind it: o instructions from the end. */
  ghost predicate Successors(g: FB.Blocks, rels: seq<FA.Relation>, b: int, rest: seq<Insn>, oT: nat, oF: nat) {
    && FB.Has(g, b) && g[b].code.Cond? && g[b].code.test < |rels| && Decode(rels[g[b].code.test].jump.code).Branch?
    && 0 < oT <= |rest| && 0 < oF <= |rest|
    && Does(Suffix(rest, oT), g, rels, g[b].jt) && Does(Suffix(rest, oF), g, rels, g[b].jf)
  }

  lemma {:induction false} BlockDoes(
      g: FB.Blocks, rels: seq<FA.Relation>, b: int, rest: seq<Insn>, oT: nat, oF: nat, slots: nat)
    requires Successors(g, rels, b, rest, oT, oF)
    requires var offT, offF := slots + |rest| - oT, slots + |rest| - oF;
      Far(offT) + Far(offF) <= slots && offT < HALF && offF < HALF
    ensures Does(BlockCode(rels[g[b].code.test], slots + |rest| - oT, slots + |rest| - oF, slots, rest), g, rels, b)
  {
    hide FA.RunCode, Does;
    var offT, offF := slots + |rest| - oT, slots + |rest| - oF;
    var code := BlockCode(rels[g[b].code.test], offT, offF, slots, rest);
    forall input: Input, r: Regs, fuel: nat | Sane(input, r)
      ensures DoesAt(code, g, rels, b, input, r, fuel)
    {
      BlockRuns(g, rels, b, rest, oT, oF, slots, input, r, fuel);
    }
    DoesIntro(code, g, rels, b);
  }

  lemma {:induction false} DoesIntro(code: seq<Insn>, g: FB.Blocks, rels: seq<FA.Relation>, b: int)
    requires forall input: Input, r: Regs, fuel: nat :: Sane(input, r) ==> DoesAt(code, g, rels, b, input, r, fuel)
    ensures Does(code, g, rels, b)
  {
  }

  lemma {:induction false} DoesElim(
      code: seq<Insn>, g: FB.Blocks, rels: seq<FA.Relation>, b: int, input: Input, r: Regs, fuel: nat)
    requires Does(code, g, rels, b) && Sane(input, r)
    ensures DoesAt(code, g, rels, b, input, r, fuel)
  {
  }

  /** One block of the graph's run, case by case. */
  lemma {:induction false} RunCodeBlock(
      g: FB.Blocks, rels: seq<FA.Relation>, input: Input, r: Regs, b: int, fuel: nat)
    requires Sane(input, r) && FB.Has(g, b) && g[b].code.Cond? && g[b].code.test < |rels|
    requires Decode(rels[g[b].code.test].jump.code).Branch?
    ensures var rel := rels[g[b].code.test]; var op := Decode(rel.jump.code);
            var o := FA.RunCode(g, rels, input, r, b, fuel);
            match FA.Exec(rel.stmts, input, r)
            case Stop(v) => o == FB.Returned(v)
            case Fault(_) => o == FB.Lost
            case Go(r') =>
              && |r'.mem| == MEMWORDS
              && (fuel == 0 ==> o == FB.Unfinished)
              && (fuel > 0 ==>
                    var taken := Holds(op.cmp, r'.a, if op.withX then r'.x else rel.jump.k);
                    o == FA.RunCode(g, rels, input, r', if taken then g[b].jt else g[b].jf, fuel - 1))
  {
    hide FA.Exec, Decode, Holds;
    FA.ExecKeepsSize(rels[g[b].code.test].stmts, input, r);
  }

  lemma {:induction false} BlockRuns(
      g: FB.Blocks, rels: seq<FA.Relation>, b: int, rest: seq<Insn>, oT: nat, oF: nat, slots: nat, input: Input,
      r: Regs, fuel: nat)
    requires Successors(g, rels, b, rest, oT, oF) && Sane(input, r)
    requires var offT, offF := slots + |rest| - oT, slots + |rest| - oF;
      Far(offT) + Far(offF) <= slots && offT < HALF && offF < HALF
    ensures DoesAt(BlockCode(rels[g[b].code.test], slots + |rest| - oT, slots + |rest| - oF, slots, rest),
      g, rels, b, input, r, fuel)
  {
    hide FA.RunCode, FA.Exec, Does, Run, Holds, Decode, Body, BranchCode;
    var rel := rels[g[b].code.test];
    var offT, offF := slots + |rest| - oT, slots + |rest| - oF;
    var code := BlockCode(rel, offT, offF, slots, rest);
    BlockParts(rel, offT, offF, slots, rest);
    RunCodeBlock(g, rels, input, r, b, fuel);
    RunBody(code, 0, rel.stmts, input, r, |code|);
    var e := FA.Exec(rel.stmts, input, r);
    if e.Go? && fuel > 0 {
      var r', op := e.regs, Decode(rel.jump.code);
      var m := BranchGoes(code, |rel.stmts|, rel.jump, offT, offF, slots, input, r', |code| - |rel.stmts|);
      var taken := Holds(op.cmp, r'.a, if op.withX then r'.x else rel.jump.k);
      var o, next := if taken then oT else oF, if taken then g[b].jt else g[b].jf;
      DoesElim(Suffix(rest, o), g, rels, next, input, r', fuel - 1);
      if FA.RunCode(g, rels, input, r', next, fuel - 1).Returned? {
        TailRuns(code, rest, o, input, r', m);
      }
    }
  }

  lemma {:induction false} BlockParts(rel: FA.Relation, offT: nat, offF: nat, slots: nat, rest: seq<Insn>)
    requires Far(offT) + Far(offF) <= slots
    ensures var code := BlockCode(rel, offT, offF, slots, rest);
            && |code| == |rel.stmts| + 1 + slots + |rest| && Suffix(code, |rest|) == rest
            && Holding(code, 0, Body(rel.stmts)) && |Body(rel.stmts)| == |rel.stmts|
            && Holding(code, |rel.stmts|, BranchCode(rel.jump, offT, offF, slots))
  {
    hide BranchCode;
    var a, b := Body(rel.stmts), BranchCode(rel.jump, offT, offF, slots);
    var code := a + b + rest;
    assert code[0..|a|] == a && code[|a|..|a| + |b|] == b && code[|a| + |b|..] == rest;
  }

  lemma {:induction false} TailRuns(code: seq<Insn>, rest: seq<Insn>, o: nat, input: Input, r: Regs, m: nat)
    requires Sane(input, r) && 0 < o <= |rest| <= |code| && m >= o && Suffix(code, |rest|) == rest
    requires Run(Suffix(rest, o), input, 0, r, o).Stopped?
    ensures Run(code, input, |code| - o, r, m) == Run(Suffix(rest, o), input, 0, r, o)
  {
    hide Run;
    var front, tail := code[..|code| - o], Suffix(rest, o);
    assert tail == Suffix(code, o);
    assert code == front + tail;
    RunBehind(front, tail, input, 0, r, o);
    RunLonger(code, input, |code| - o, r, o, m);
  }

  // ------------------------------------------------------------ what the validator says

  /** Acceptance of an instruction depends on what is behind it, not on what is in front. */
  lemma {:induction false} AcceptedBehind(p: Insn, i: nat, len: nat, d: nat)
    requires i < len && len + d < HALF && InsnAccepted(p, i, len)
    ensures InsnAccepted(p, i + d, len + d)
  {
    JumpTestIsExact(i, p.k, len);
    JumpTestIsExact(i + d, p.k, len + d);
    Small(i + 1); Small(i + 1 + d);
    Small(i + 1 + p.jt); Small(i + 1 + d + p.jt); Small(i + 1 + p.jf); Small(i + 1 + d + p.jf);
    hide Signed, ModeOf, OpOf, SrcOf, ClassOf;
  }

  /** Code in front of an accepted program, accepted where it stands. */
  lemma {:induction false} AcceptsMore(front: seq<Insn>, rest: seq<Insn>)
    requires Accepts(rest) && |front| + |rest| < HALF
    requires forall i :: 0 <= i < |front| ==> InsnAccepted(front[i], i, |front| + |rest|)
    ensures Accepts(front + rest)
  {
    hide InsnAccepted, ClassOf;
    var code, d := front + rest, |front|;
    forall i | 0 <= i < |code| ensures InsnAccepted(code[i], i, |code|) {
      if i >= d {
        assert InsnAccepted(rest[i - d], i - d, |rest|);
        AcceptedBehind(rest[i - d], i - d, |rest|, d);
      }
    }
  }

  lemma {:induction false} ReturnAccepted(k: u32, rest: seq<Insn>)
    requires |rest| + 1 < HALF && (rest == [] || Accepts(rest))
    ensures Accepts([Insn(RET + K, 0, 0, k)] + rest)
  {
    var front := [Insn(RET + K, 0, 0, k)];
    if rest == [] {
      assert front + rest == front;
    } else {
      AcceptsMore(front, rest);
    }
  }

  lemma {:induction false} FineAccepted(c: FA.Stmt, i: nat, len: nat)
    requires FA.Fine(c)
    ensures InsnAccepted(InsnOf(c), i, len)
  {
    hide ModeOf, OpOf, SrcOf;
  }

  lemma {:induction false} SkipAccepted(off: nat, i: nat, len: nat)
    requires i + 1 + off < len < HALF
    ensures InsnAccepted(Skip(off), i, len)
  {
    Small(off);
    JumpTestIsExact(i, off, len);
    assert ClassOf(JMP + OP_JA) == JMP && OpOf(JMP + OP_JA) == OP_JA;
    hide ModeOf, OpOf, SrcOf, ClassOf;
  }

  lemma {:induction false} BranchAccepted(code: nat, jt: byte, jf: byte, k: u32, i: nat, len: nat)
    requires Decode(code).Branch? && i + 1 + jt < len < HALF && i + 1 + jf < len
    ensures InsnAccepted(Insn(code, jt, jf, k), i, len)
  {
    hide Decode;
    DecodeClass(code);
    Small(i + 1); Small(i + 1 + jt); Small(i + 1 + jf);
    hide ModeOf, OpOf, SrcOf, ClassOf;
  }

  /** A branch and its slots, `at` instructions from the start, are accepted if both targets lie
      inside the program. */
  lemma {:induction false} BranchCodeAccepted(
      jump: FA.Stmt, offT: nat, offF: nat, slots: nat, at: nat, len: nat, j: nat)
    requires Far(offT) + Far(offF) <= slots && Decode(jump.code).Branch? && j < 1 + slots
    requires slots <= offT && slots <= offF && at + 1 + offT < len < HALF && at + 1 + offF < len
    ensures InsnAccepted(BranchCode(jump, offT, offF, slots)[j], at + j, len)
  {
    hide Decode, InsnAccepted;
    var p := BranchCode(jump, offT, offF, slots)[j];
    if j == 0 {
      BranchAccepted(jump.code, p.jt, p.jf, jump.k, at, len);
    } else if j == 1 && offT >= 256 {
      assert p == Skip(offT - 1);
      SkipAccepted(offT - 1, at + j, len);
    } else if j == 1 + Far(offT) && offF >= 256 {
      assert p == Skip(offF - Far(offT) - 1);
      SkipAccepted(offF - Far(offT) - 1, at + j, len);
    } else {
      assert p == Insn(0, 0, 0, 0);
      ZeroAccepted(at + j, len);
    }
  }

  lemma {:induction false} ZeroAccepted(i: nat, len: nat)
    ensures InsnAccepted(Insn(0, 0, 0, 0), i, len)
  {
  }

  lemma {:induction false} BlockAccepted(
      rel: FA.Relation, offT: nat, offF: nat, slots: nat, rest: seq<Insn>)
    requires Far(offT) + Far(offF) <= slots && FA.AllFine(rel.stmts) && Decode(rel.jump.code).Branch?
    requires slots <= offT < slots + |rest| && slots <= offF < slots + |rest| && Accepts(rest)
    requires |rel.stmts| + 1 + slots + |rest| < HALF
    ensures Accepts(BlockCode(rel, offT, offF, slots, rest))
  {
    hide InsnAccepted, BranchCode, Decode, Accepts, FA.Fine;
    var a, b := Body(rel.stmts), BranchCode(rel.jump, offT, offF, slots);
    var front := a + b;
    forall i | 0 <= i < |front| ensures InsnAccepted(front[i], i, |front| + |rest|) {
      if i < |a| {
        FineAccepted(rel.stmts[i], i, |front| + |rest|);
      } else {
        BranchCodeAccepted(rel.jump, offT, offF, slots, |a|, |front| + |rest|, i - |a|);
      }
    }
    AcceptsMore(front, rest);
  }

  // ------------------------------------------------------------ writing the array

  /** The code grew at its front only. */
  ghost predicate Extends(was: seq<Insn>, code: seq<Insn>) {
    |was| <= |code| && Suffix(code, |was|) == was
  }

  lemma {:induction false} ExtendsSuffix(was: seq<Insn>, code: seq<Insn>, n: nat)
    requires Extends(was, code) && n <= |was|
    ensures Suffix(code, n) == Suffix(was, n)
  {
    assert code[|code| - n..] == code[|code| - |was|..][|was| - n..];
  }

  lemma {:induction false} ExtendsTwice(a: seq<Insn>, b: seq<Insn>, c: seq<Insn>)
    requires Extends(a, b) && Extends(b, c)
    ensures Extends(a, c)
  {
    ExtendsSuffix(b, c, |a|);
  }

  /** What is written is accepted, and every placed block, `offset` instructions from the end, does
      its work. */
  ghost predicate Placed(code: seq<Insn>, offset: map<int, nat>, g: FB.Blocks, rels: seq<FA.Relation>) {
    && (code == [] || |code| >= HALF || Accepts(code))
    && forall b :: b in offset ==>
         && 0 < offset[b] <= |code|
         && (offset[b] < HALF ==> Does(Suffix(code, offset[b]), g, rels, b))
  }

  lemma {:induction false} PlacedMore(
      was: seq<Insn>, code: seq<Insn>, offset: map<int, nat>, g: FB.Blocks, rels: seq<FA.Relation>, b: int)
    requires Placed(was, offset, g, rels) && Extends(was, code) && code != []
    requires |code| < HALF ==> Accepts(code) && Does(code, g, rels, b)
    ensures Placed(code, offset[b := |code|], g, rels)
  {
    hide Does, Accepts;
    assert Suffix(code, |code|) == code;
    forall x | x in offset ensures Suffix(code, offset[x]) == Suffix(was, offset[x]) {
      ExtendsSuffix(was, code, offset[x]);
    }
  }

  /** One more branch is marked. */
  ghost predicate Marked(own: set<int>, t: set<int>, f: set<int>, t': set<int>, f': set<int>) {
    || (exists x :: x in own && x !in t && t' == t + {x} && f' == f)
    || (exists x :: x in own && x !in f && f' == f + {x} && t' == t)
  }

  class Converter {
    const g: FB.Blocks
    const rels: seq<FA.Relation>
    var code: seq<Insn>
    var offset: map<int, nat>
    var longT: set<int>
    var longF: set<int>

    constructor (g: FB.Blocks, rels: seq<FA.Relation>, longT: set<int>, longF: set<int>)
      ensures this.g == g && this.rels == rels && this.longT == longT && this.longF == longF
      ensures code == [] && offset == map[]
    {
      this.g, this.rels, this.longT, this.longF := g, rels, longT, longF;
      code, offset := [], map[];
    }

    /** convert_code_r: the successors, then the block in front of them. It fails when a branch turns
        out to be too far that was not marked so, and then marks it. */
    method Convert(b: int, ghost own: set<int>, ghost snaplen: u32) returns (ok: bool)
      requires Placed(code, offset, g, rels) && FA.Branching(rels) && FB.Layable(g, own, snaplen, |rels|)
      requires b in own || (FB.Has(g, b) && g[b].code in {FB.Ret(snaplen), FB.Ret(0)})
      modifies this
      ensures ok ==> Placed(code, offset, g, rels) && Extends(old(code), code) && b in offset
      ensures ok ==> forall x :: x in old(offset) ==> x in offset && offset[x] == old(offset)[x]
      ensures ok ==> longT == old(longT) && longF == old(longF)
      ensures ok && b !in old(offset) ==> offset[b] == |code|
      ensures !ok ==> Marked(own, old(longT), old(longF), longT, longF)
      decreases |g| - b
    {
      hide Placed, Does, FA.Branching, BlockCode, Accepts;
      if b in offset { return true; }
      ghost var was := code;
      match g[b].code
      case Ret(k) =>
        code := [Insn(RET + K, 0, 0, k)] + code;
        ReturnDoes(g, rels, b, k, was);
        PlacedAccepted(was, offset, g, rels);
        if |code| < HALF { ReturnAccepted(k, was); }
        PlacedMore(was, code, offset, g, rels, b);
        offset := offset[b := |code|];
        return true;
      case Cond(t) =>
        SuccessorsLater(g, own, snaplen, |rels|, b);
        ok := Convert(g[b].jf, own, snaplen);
        if !ok { return; }
        ghost var mid := code;
        ok := Convert(g[b].jt, own, snaplen);
        if !ok { return; }
        ExtendsTwice(was, mid, code);
        ok := Emit(b, t);
    }

    /** The block itself, once both successors are placed. */
    method Emit(b: int, t: nat) returns (ok: bool)
      requires Placed(code, offset, g, rels) && FA.Branching(rels)
      requires FB.Has(g, b) && g[b].code == FB.Cond(t) && t < |rels| && g[b].jt in offset && g[b].jf in offset
      modifies this
      ensures ok ==> Placed(code, offset, g, rels) && Extends(old(code), code) && offset == old(offset)[b := |code|]
      ensures ok ==> longT == old(longT) && longF == old(longF)
      ensures !ok ==> Marked({b}, old(longT), old(longF), longT, longF)
    {
      hide Does, Decode, Accepts, FA.AllFine;
      var slots := (if b in longT then 1 else 0) + (if b in longF then 1 else 0);
      var oT, oF := offset[g[b].jt], offset[g[b].jf];
      var offT, offF := slots + |code| - oT, slots + |code| - oF;
      if offT >= 256 && b !in longT {
        longT := longT + {b};
        return false;
      }
      if offF >= 256 && b !in longF {
        longF := longF + {b};
        return false;
      }
      ghost var was := code;
      BlockParts(rels[t], offT, offF, slots, was);
      code := BlockCode(rels[t], offT, offF, slots, code);
      if |code| < HALF {
        BlockDoes(g, rels, b, was, oT, oF, slots);
        BlockAccepted(rels[t], offT, offF, slots, was);
      }
      hide Placed, BlockCode;
      PlacedMore(was, code, offset, g, rels, b);
      offset := offset[b := |code|];
      ok := true;
    }
  }

  lemma {:induction false} PlacedAccepted(
      code: seq<Insn>, offset: map<int, nat>, g: FB.Blocks, rels: seq<FA.Relation>)
    requires Placed(code, offset, g, rels)
    ensures code == [] || |code| >= HALF || Accepts(code)
  {
  }

  lemma {:induction false} SuccessorsLater(g: FB.Blocks, own: set<int>, snaplen: nat, tests: nat, b: int)
    requires FB.Layable(g, own, snaplen, tests) && b in own
    ensures FB.Has(g, b) && g[b].code.Cond? && g[b].code.test < tests
    ensures var v := g[b].jt;
            b < v && FB.Has(g, v) && (v in own || g[v].code in {FB.Ret(snaplen), FB.Ret(0)})
    ensures var v := g[b].jf;
            b < v && FB.Has(g, v) && (v in own || g[v].code in {FB.Ret(snaplen), FB.Ret(0)})
  {
    assert FB.Field(g, FB.Exit(b, true)) == g[b].jt && FB.Field(g, FB.Exit(b, false)) == g[b].jf;
  }

  /** icode_to_fcode: again and again until no unmarked branch is too far. */
  method IcodeToFcode(p: FA.Program, ghost own: set<int>, ghost snaplen: u32) returns (prog: seq<Insn>)
    requires FA.Branching(p.rels) && FB.Layable(p.blocks, own, snaplen, |p.rels|) && p.root in own
    ensures |prog| < HALF ==> Accepts(prog) && Does(prog, p.blocks, p.rels, p.root)
  {
    hide Does, Accepts, FB.Layable, FA.Branching;
    var longT, longF := {}, {};
    while true
      invariant longT <= own && longF <= own
      decreases 2 * |own| - |longT| - |longF|
    {
      var c := new Converter(p.blocks, p.rels, longT, longF);
      var ok := c.Convert(p.root, own, snaplen);
      if ok {
        assert Suffix(c.code, |c.code|) == c.code;
        return c.code;
      }
      MarkedMore(own, longT, longF, c.longT, c.longF);
      longT, longF := c.longT, c.longF;
    }
  }

  lemma {:induction false} MarkedMore(own: set<int>, t: set<int>, f: set<int>, t': set<int>, f': set<int>)
    requires t <= own && f <= own
    requires Marked(own, t, f, t', f')
    ensures t' <= own && f' <= own && |t'| + |f'| == |t| + |f| + 1 && |t'| + |f'| <= 2 * |own|
  {
    assert |own| == |t'| + |own - t'| by { assert own == t' + (own - t'); }
    assert |own| == |f'| + |own - f'| by { assert own == f' + (own - f'); }
  }

  // ------------------------------------------------------------ whole filters

  /** The program, run on any packet from any registers, takes exactly the packets that satisfy the
      filter. */
  ghost predicate Takes(prog: seq<Insn>, f: FA.Filter, snaplen: u32) {
    forall input: Input, r: Regs :: Sane(input, r) ==>
      Run(prog, input, 0, r, |prog|) == Stopped(if FA.Satisfied(f, input).True? then snaplen else 0)
  }

  lemma {:induction false} DoesTakes(prog: seq<Insn>, p: FA.Program, f: FA.Filter, snaplen: u32)
    requires Does(prog, p.blocks, p.rels, p.root) && FA.Correct(p, f, snaplen)
    ensures Takes(prog, f, snaplen)
  {
    hide Run, FA.RunCode, FA.Satisfied;
    var fuel := FB.Size(FA.Skeleton(f, 0));
    forall input: Input, r: Regs | Sane(input, r)
      ensures Run(prog, input, 0, r, |prog|) == Stopped(if FA.Satisfied(f, input).True? then snaplen else 0)
    {
      assert FA.RunCode(p.blocks, p.rels, input, r, p.root, fuel).Returned?;
      DoesElim(prog, p.blocks, p.rels, p.root, input, r, fuel);
    }
  }

  /** pcap_compile without the optimiser: it succeeds exactly when every relation can be compiled;
      the validator then accepts the instructions, and run by the machine on any packet they return
      the snapshot length if it satisfies the filter and 0 if it does not. */
  method Compile(f: FA.Filter, snaplen: u32) returns (prog: FA.Option<seq<Insn>>)
    ensures prog.Some? <==> FA.AllCompilable(FA.AtomsOf(f))
    ensures prog.Some? && |prog.value| < HALF ==> Accepts(prog.value) && Takes(prog.value, f, snaplen)
  {
    hide Takes, Accepts, Does, FA.Correct, FB.Layable;
    var p, own := FA.CompileProgram(f, snaplen);
    if p.None? { return FA.None; }
    var code := IcodeToFcode(p.value, own, snaplen);
    if |code| < HALF { DoesTakes(code, p.value, f, snaplen); }
    prog := FA.Some(code);
  }
}
