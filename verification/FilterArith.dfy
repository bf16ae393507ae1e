/** Arithmetic in packet filters (deps/libpcap/gencode.c): expressions are compiled to
    statements that leave their value in a scratch register, and relations to a block that
    branches on two such values. */
module FilterArith {
  import opened FilterMachine
  import FB = FilterBlocks

  datatype Option<T> = None | Some(value: T)

  /** Arithmetic expressions. A load takes `size` bytes at a fixed base plus an index, as for
      the radio header and for a link header of fixed length. */
  datatype Expr =
    | Const(v: u32)
    | Length
    | Load(base: u32, size: nat, index: Expr)
    | Negate(e: Expr)
    | Bin(op: Arith, l: Expr, r: Expr)

  function WordAt(pkt: Packet, k: nat, size: nat): u32
    requires size in {1, 2, 4} && k + size <= |pkt|
  {
    BytesFit(pkt, k, size);
    BytesAt(pkt, k, size)
  }

  /** What the expression means on a packet: a 32-bit value, or none when a load leaves the
      packet or a divisor is zero. */
  function Value(e: Expr, input: Input): Option<u32> {
    match e
    case Const(v) => Some(v)
    case Length => Some(input.wirelen)
    case Load(base, size, index) =>
      (match Value(index, input)
       case None => None
       case Some(i) =>
         if size in {1, 2, 4} && i + base + size <= |input.pkt| then Some(WordAt(input.pkt, i + base, size)) else None)
    case Negate(x) =>
      (match Value(x, input) case None => None case Some(v) => Some(if v == 0 then 0 else 0x1_0000_0000 - v))
    case Bin(op, l, r) =>
      (match Value(l, input)
       case None => None
       case Some(a) =>
         match Value(r, input)
         case None => None
         case Some(b) => if op in {Div, Mod} && b == 0 then None else Some(Calculate(op, a, b)))
  }

  // ------------------------------------------------------------ statement lists

  datatype Stmt = Stmt(code: nat, k: u32)

  /** Straight-line execution by the filter machine. */
  function Exec(s: seq<Stmt>, input: Input, r: Regs): Effect
    requires |input.pkt| < U32 && |r.mem| == MEMWORDS
  {
    if s == [] then Go(r)
    else
      match Apply(Decode(s[0].code), s[0].k, input.pkt, input.wirelen, r)
      case Go(r') => (if |r'.mem| == MEMWORDS then Exec(s[1..], input, r') else Fault(BadScratch))
      case e => e
  }

  lemma {:induction false} ExecKeepsSize(s: seq<Stmt>, input: Input, r: Regs)
    requires Sane(input, r)
    ensures var e := Exec(s, input, r); e.Go? ==> |e.regs.mem| == MEMWORDS
  {
    hide Apply, Decode;
    if s != [] {
      var e := Apply(Decode(s[0].code), s[0].k, input.pkt, input.wirelen, r);
      if e.Go? && |e.regs.mem| == MEMWORDS { ExecKeepsSize(s[1..], input, e.regs); }
    }
  }

  lemma {:induction false} ExecAppend(s: seq<Stmt>, t: seq<Stmt>, input: Input, r: Regs)
    requires Sane(input, r)
    ensures match Exec(s, input, r)
            case Go(r') => |r'.mem| == MEMWORDS && Exec(s + t, input, r) == Exec(t, input, r')
            case e => Exec(s + t, input, r) == e
  {
    hide Apply, Decode;
    if s == [] {
      assert s + t == t;
    } else {
      assert (s + t)[0] == s[0] && (s + t)[1..] == s[1..] + t;
      var e := Apply(Decode(s[0].code), s[0].k, input.pkt, input.wirelen, r);
      if e.Go? && |e.regs.mem| == MEMWORDS { ExecAppend(s[1..], t, input, e.regs); }
    }
  }

  lemma {:induction false} ExecOne(c: Stmt, input: Input, r: Regs)
    requires Sane(input, r)
    ensures var e := Apply(Decode(c.code), c.k, input.pkt, input.wirelen, r);
      (e.Go? ==> |e.regs.mem| == MEMWORDS) ==> Exec([c], input, r) == e
  {
    hide Apply, Decode;
    var s := [c];
    var e := Apply(Decode(s[0].code), s[0].k, input.pkt, input.wirelen, r);
    if e.Go? && |e.regs.mem| == MEMWORDS { assert Exec(s[1..], input, e.regs) == Go(e.regs); }
  }

  function ToX(reg: nat): Stmt requires reg < MEMWORDS { Stmt(LDX + MEM, reg) }
  function ToA(reg: nat): Stmt requires reg < MEMWORDS { Stmt(LD + MEM, reg) }
  function Store(reg: nat): Stmt requires reg < MEMWORDS { Stmt(ST, reg) }
  function CalcX(op: Arith): Stmt { Stmt(ALU + X + ArithCode(op), 0) }

  lemma {:induction false} DecodeCalcX(op: Arith)
    ensures Decode(CalcX(op).code) == Calc(op, true)
  {
  }

  // ------------------------------------------------------------ what compiled code does

  /** The statements compute e into register reg, from any machine state, and change no
      register marked reserved. */
  ghost predicate Computes(s: seq<Stmt>, reg: nat, e: Expr, reserved: seq<bool>) {
    forall input: Input, r: Regs :: Result(s, reg, e, reserved, input, r)
  }

  ghost predicate Result(s: seq<Stmt>, reg: nat, e: Expr, reserved: seq<bool>, input: Input, r: Regs) {
    Sane(input, r) ==>
    var o := Exec(s, input, r);
    match Value(e, input)
    case None => o == Stop(0)
    case Some(v) =>
      && o.Go? && |o.regs.mem| == MEMWORDS && reg < MEMWORDS && o.regs.mem[reg] == v
      && Kept(r.mem, o.regs.mem, reserved)
  }

  ghost predicate Kept(mem: seq<u32>, mem': seq<u32>, reserved: seq<bool>) {
    && |mem| == |mem'| == |reserved| == MEMWORDS
    && forall i :: 0 <= i < MEMWORDS && reserved[i] ==> mem'[i] == mem[i]
  }

  lemma {:induction false} TailStore(pre: Stmt, reg: nat, input: Input, r: Regs)
    requires Sane(input, r) && reg < MEMWORDS
    requires var e := Apply(Decode(pre.code), pre.k, input.pkt, input.wirelen, r);
      e.Stop? || (e.Go? && e.regs.mem == r.mem)
    ensures var e := Apply(Decode(pre.code), pre.k, input.pkt, input.wirelen, r);
      Exec([pre, Store(reg)], input, r) == if e.Go? then Go(e.regs.(mem := r.mem[reg := e.regs.a])) else e
  {
    var e := Apply(Decode(pre.code), pre.k, input.pkt, input.wirelen, r);
    ExecOne(pre, input, r);
    ExecAppend([pre], [Store(reg)], input, r);
    assert [pre] + [Store(reg)] == [pre, Store(reg)];
    if e.Go? { ExecOne(Store(reg), input, e.regs); }
  }

  lemma {:induction false} LoadOne(c: Stmt, reg: nat, rest: seq<Stmt>, input: Input, r: Regs)
    requires Sane(input, r) && reg < MEMWORDS && c in {ToX(reg), ToA(reg)}
    ensures Exec([c] + rest, input, r)
         == Exec(rest, input, if c == ToX(reg) then r.(x := r.mem[reg]) else r.(a := r.mem[reg]))
  {
    hide Exec;
    ExecOne(c, input, r);
    ExecAppend([c], rest, input, r);
  }

  /** Loads of two registers followed by anything: X and A hold what the registers held. */
  lemma {:induction false} LoadPair(rx: nat, ra: nat, rest: seq<Stmt>, input: Input, r: Regs)
    requires Sane(input, r) && rx < MEMWORDS && ra < MEMWORDS
    ensures Exec([ToX(rx), ToA(ra)] + rest, input, r) == Exec(rest, input, r.(x := r.mem[rx], a := r.mem[ra]))
  {
    hide Exec;
    assert [ToX(rx), ToA(ra)] + rest == [ToX(rx)] + ([ToA(ra)] + rest);
    LoadOne(ToX(rx), rx, [ToA(ra)] + rest, input, r);
    LoadOne(ToA(ra), ra, rest, input, r.(x := r.mem[rx]));
  }

  ghost predicate Target(reg: nat, reserved: seq<bool>) { |reserved| == MEMWORDS && reg < MEMWORDS && !reserved[reg] }

  lemma {:induction false} ImmediateComputes(c: Stmt, e: Expr, reg: nat, reserved: seq<bool>)
    requires Target(reg, reserved)
    requires match e case Const(v) => c == Stmt(LD + IMM, v) case Length => c == Stmt(LD + LEN, 0) case _ => false
    ensures Computes([c, Store(reg)], reg, e, reserved)
  {
    forall input: Input, r: Regs | Sane(input, r)
      ensures Result([c, Store(reg)], reg, e, reserved, input, r)
    {
      TailStore(c, reg, input, r);
    }
  }

  lemma {:induction false} NegateComputes(s: seq<Stmt>, e: Expr, reg: nat, reserved: seq<bool>)
    requires Target(reg, reserved) && Computes(s, reg, e, reserved)
    ensures Computes(s + [ToA(reg), Stmt(ALU + OP_NEG, 0), Store(reg)], reg, Negate(e), reserved)
  {
    var tail := [Stmt(ALU + OP_NEG, 0), Store(reg)];
    assert [ToA(reg), Stmt(ALU + OP_NEG, 0), Store(reg)] == [ToA(reg)] + tail;
    var all := s + ([ToA(reg)] + tail);
    forall input: Input, r: Regs | Sane(input, r)
      ensures Result(all, reg, Negate(e), reserved, input, r)
    {
      NegateResult(s, e, reg, reserved, input, r);
    }
  }

  lemma {:induction false} NegateResult(s: seq<Stmt>, e: Expr, reg: nat, reserved: seq<bool>, input: Input, r: Regs)
    requires Target(reg, reserved) && Sane(input, r) && Result(s, reg, e, reserved, input, r)
    ensures Result(s + ([ToA(reg)] + [Stmt(ALU + OP_NEG, 0), Store(reg)]), reg, Negate(e), reserved, input, r)
  {
    hide Exec, Apply, Decode;
    var tail := [Stmt(ALU + OP_NEG, 0), Store(reg)];
    ExecAppend(s, [ToA(reg)] + tail, input, r);
    var o := Exec(s, input, r);
    if o.Go? {
      LoadOne(ToA(reg), reg, tail, input, o.regs);
      NegApplies(input, o.regs.(a := o.regs.mem[reg]));
      TailStore(Stmt(ALU + OP_NEG, 0), reg, input, o.regs.(a := o.regs.mem[reg]));
    }
  }

  lemma {:induction false} NegApplies(input: Input, r: Regs)
    requires Sane(input, r)
    ensures Apply(Decode(ALU + OP_NEG), 0, input.pkt, input.wirelen, r)
         == Go(r.(a := if r.a == 0 then 0 else 0x1_0000_0000 - r.a))
  {
  }

  lemma {:induction false} CalcApplies(op: Arith, input: Input, r: Regs)
    requires Sane(input, r)
    ensures Apply(Decode(CalcX(op).code), CalcX(op).k, input.pkt, input.wirelen, r)
         == if op in {Div, Mod} && r.x == 0 then Stop(0) else Go(r.(a := Calculate(op, r.a, r.x)))
  {
    hide Decode, Calculate;
    DecodeCalcX(op);
  }

  lemma {:induction false} LoadComputes(
      s: seq<Stmt>, base: u32, size: nat, index: Expr, reg: nat, new': nat, reserved: seq<bool>)
    requires size in {1, 2, 4} && Target(reg, reserved) && Target(new', reserved) && Computes(s, reg, index, reserved)
    ensures Computes(s + [ToX(reg), Stmt(LD + IND + SizeCode(size), base), Store(new')], new',
      Load(base, size, index), reserved)
  {
    var load := Stmt(LD + IND + SizeCode(size), base);
    assert [ToX(reg), load, Store(new')] == [ToX(reg)] + [load, Store(new')];
    var all := s + ([ToX(reg)] + [load, Store(new')]);
    forall input: Input, r: Regs | Sane(input, r)
      ensures Result(all, new', Load(base, size, index), reserved, input, r)
    {
      LoadResult(s, base, size, index, reg, new', reserved, input, r);
    }
  }

  lemma {:induction false} LoadResult(
      s: seq<Stmt>, base: u32, size: nat, index: Expr, reg: nat, new': nat, reserved: seq<bool>, input: Input,
      r: Regs)
    requires size in {1, 2, 4} && Target(reg, reserved) && Target(new', reserved)
    requires Sane(input, r) && Result(s, reg, index, reserved, input, r)
    ensures Result(s + ([ToX(reg)] + [Stmt(LD + IND + SizeCode(size), base), Store(new')]), new',
      Load(base, size, index), reserved, input, r)
  {
    hide Exec, Apply;
    var load := Stmt(LD + IND + SizeCode(size), base);
    ExecAppend(s, [ToX(reg)] + [load, Store(new')], input, r);
    var o := Exec(s, input, r);
    if o.Go? {
      LoadOne(ToX(reg), reg, [load, Store(new')], input, o.regs);
      var r1 := o.regs.(x := o.regs.mem[reg]);
      IndirectLoad(base, size, input, r1);
      TailStore(load, new', input, r1);
    }
  }

  lemma {:induction false} IndirectLoad(base: u32, size: nat, input: Input, r: Regs)
    requires Sane(input, r) && size in {1, 2, 4}
    ensures Decode(LD + IND + SizeCode(size)) == LdInd(size)
    ensures Apply(LdInd(size), base, input.pkt, input.wirelen, r)
         == if r.x + base + size <= |input.pkt| then Go(r.(a := WordAt(input.pkt, r.x + base, size))) else Stop(0)
  {
    hide Apply, BytesAt;
    ApplyIndirect(size, base, input, r);
    if r.x + base + size <= |input.pkt| { BytesFit(input.pkt, r.x + base, size); }
  }

  // the statements gen_arth and gen_relation put after their operands

  function BinTail(op: Arith, ra: nat, rx: nat, new': nat): seq<Stmt>
    requires ra < MEMWORDS && rx < MEMWORDS && new' < MEMWORDS
  {
    [ToX(rx), ToA(ra)] + [CalcX(op), Store(new')]
  }

  lemma {:induction false} BinComputes(
      op: Arith, sl: seq<Stmt>, sr: seq<Stmt>, l: Expr, r: Expr, rl: nat, rr: nat, new': nat, reserved: seq<bool>)
    requires Target(rl, reserved) && Target(rr, reserved[rl := true]) && Target(new', reserved)
    requires Computes(sl, rl, l, reserved) && Computes(sr, rr, r, reserved[rl := true])
    ensures Computes(sl + (sr + BinTail(op, rl, rr, new')), new', Bin(op, l, r), reserved)
  {
    var all := sl + (sr + BinTail(op, rl, rr, new'));
    forall input: Input, m: Regs | Sane(input, m)
      ensures Result(all, new', Bin(op, l, r), reserved, input, m)
    {
      assert Result(sl, rl, l, reserved, input, m);
      ExecKeepsSize(sl, input, m);
      var o := Exec(sl, input, m);
      if o.Go? {
        ExecKeepsSize(sr, input, o.regs);
        assert Result(sr, rr, r, reserved[rl := true], input, o.regs);
      }
      BinResult(op, sl, sr, l, r, rl, rr, new', reserved, input, m);
    }
  }

  /** Both operands computed in turn: the second does not disturb the first's register. */
  lemma {:induction false} OperandsResult(
      sl: seq<Stmt>, sr: seq<Stmt>, rest: seq<Stmt>, l: Expr, r: Expr, rl: nat, rr: nat, reserved: seq<bool>,
      input: Input, m: Regs)
    requires Target(rl, reserved) && Target(rr, reserved[rl := true]) && Sane(input, m)
    requires Result(sl, rl, l, reserved, input, m)
    requires var o := Exec(sl, input, m); o.Go? ==>
      |o.regs.mem| == MEMWORDS && Result(sr, rr, r, reserved[rl := true], input, o.regs)
    ensures match Value(l, input)
            case None => Exec(sl + (sr + rest), input, m) == Stop(0)
            case Some(a) =>
              match Value(r, input)
              case None => Exec(sl + (sr + rest), input, m) == Stop(0)
              case Some(b) =>
                exists m' ::
                  && After(sl + (sr + rest), rest, input, m, m') && m'.mem[rl] == a && m'.mem[rr] == b
                  && Kept(m.mem, m'.mem, reserved)
  {
    hide Exec, Value;
    ExecAppend(sl, sr + rest, input, m);
    var o := Exec(sl, input, m);
    if o.Go? {
      ExecAppend(sr, rest, input, o.regs);
      var o2 := Exec(sr, input, o.regs);
      if o2.Go? {
        assert After(sl + (sr + rest), rest, input, m, o2.regs);
      }
    }
  }

  /** Running `all` from m comes down to running `rest` from m'. */
  ghost predicate After(all: seq<Stmt>, rest: seq<Stmt>, input: Input, m: Regs, m': Regs) {
    Sane(input, m) && Sane(input, m') && Exec(all, input, m) == Exec(rest, input, m')
  }

  lemma {:induction false} BinResult(
      op: Arith, sl: seq<Stmt>, sr: seq<Stmt>, l: Expr, r: Expr, rl: nat, rr: nat, new': nat, reserved: seq<bool>,
      input: Input, m: Regs)
    requires Target(rl, reserved) && Target(rr, reserved[rl := true]) && Target(new', reserved) && Sane(input, m)
    requires Result(sl, rl, l, reserved, input, m)
    requires var o := Exec(sl, input, m); o.Go? ==>
      |o.regs.mem| == MEMWORDS && Result(sr, rr, r, reserved[rl := true], input, o.regs)
    ensures Result(sl + (sr + BinTail(op, rl, rr, new')), new', Bin(op, l, r), reserved, input, m)
  {
    hide Exec, Calculate, Decode, Apply;
    var rest := BinTail(op, rl, rr, new');
    var all := sl + (sr + rest);
    OperandsResult(sl, sr, rest, l, r, rl, rr, reserved, input, m);
    if Value(l, input).Some? && Value(r, input).Some? {
      var m' :| After(all, rest, input, m, m') && m'.mem[rl] == Value(l, input).value
          && m'.mem[rr] == Value(r, input).value && Kept(m.mem, m'.mem, reserved);
      LoadPair(rr, rl, [CalcX(op), Store(new')], input, m');
      CalcApplies(op, input, m'.(x := m'.mem[rr], a := m'.mem[rl]));
      TailStore(CalcX(op), new', input, m'.(x := m'.mem[rr], a := m'.mem[rl]));
    }
  }

  // ------------------------------------------------------------ which expressions compile

  /** The constant that the code for e starts by loading, if it starts with one. */
  function Leading(e: Expr): Option<u32> {
    match e
    case Const(v) => Some(v)
    case Length => None
    case Load(_, _, index) => Leading(index)
    case Negate(x) => Leading(x)
    case Bin(_, l, _) => Leading(l)
  }

  /** gen_arth looks only at the first statement of its right operand. */
  predicate OperandRefused(op: Arith, lead: Option<u32>) {
    lead.Some? && ((op in {Div, Mod} && lead.value == 0) || (op in {Lsh, Rsh} && lead.value > 31))
  }

  /** No load has a size other than 1, 2 or 4, and no right operand is refused. */
  predicate WellFormed(e: Expr) {
    match e
    case Load(_, size, index) => size in {1, 2, 4} && WellFormed(index)
    case Negate(x) => WellFormed(x)
    case Bin(op, l, r) => WellFormed(l) && WellFormed(r) && !OperandRefused(op, Leading(r))
    case _ => true
  }

  /** Registers needed at once. */
  function Need(e: Expr): (n: nat)
    ensures n >= 1
  {
    match e
    case Load(_, _, index) => if Need(index) > 2 then Need(index) else 2
    case Negate(x) => Need(x)
    case Bin(_, l, r) => if Need(l) > 1 + Need(r) then Need(l) else 1 + Need(r)
    case _ => 1
  }

  ghost function Free(used: seq<bool>): nat { multiset(used)[false] }

  lemma {:induction false} FreeOnes(used: seq<bool>)
    ensures Free(used) > 0 <==> exists i :: 0 <= i < |used| && !used[i]
  {
    assert Free(used) > 0 <==> false in used;
  }

  lemma {:induction false} Reserve(used: seq<bool>, r: nat)
    requires r < |used| && !used[r]
    ensures Free(used[r := true]) == Free(used) - 1
  {
  }

  /** The code starts with a constant load exactly when the expression does. */
  ghost predicate Starts(s: seq<Stmt>, e: Expr) {
    && s != []
    && (Leading(e).Some? <==> s[0].code == LD + IMM)
    && (Leading(e).Some? ==> s[0].k == Leading(e).value)
  }

  /** A statement the validator accepts wherever it stands. */
  predicate Fine(c: Stmt) { ClassOf(c.code) != JMP && InsnAccepted(Insn(c.code, 0, 0, c.k), 0, 1) }

  ghost predicate AllFine(s: seq<Stmt>) { forall i :: 0 <= i < |s| ==> Fine(s[i]) }

  lemma {:induction false} FineAppend(s: seq<Stmt>, t: seq<Stmt>)
    requires AllFine(s) && AllFine(t)
    ensures AllFine(s + t)
  {
    hide Fine;
  }

  /** Everything the generators emit is fine. */
  lemma {:induction false} EmittedFine(v: u32, base: u32, reg: nat, reg': nat, size: nat)
    requires reg < MEMWORDS && reg' < MEMWORDS && size in {1, 2, 4}
    ensures AllFine([Stmt(LD + IMM, v), Store(reg)]) && AllFine([Stmt(LD + LEN, 0), Store(reg)])
    ensures AllFine([ToX(reg), Stmt(LD + IND + SizeCode(size), base), Store(reg')])
    ensures AllFine([ToA(reg), Stmt(ALU + OP_NEG, 0), Store(reg)]) && AllFine([ToX(reg), ToA(reg')])
    ensures Fine(Store(reg))
  {
    hide Fine;
    RegisterFine(reg);
    RegisterFine(reg');
    LoadFine(v, base, size);
  }

  lemma {:induction false} RegisterFine(reg: nat)
    requires reg < MEMWORDS
    ensures Fine(Store(reg)) && Fine(ToX(reg)) && Fine(ToA(reg))
  {
  }

  lemma {:induction false} LoadFine(v: u32, base: u32, size: nat)
    requires size in {1, 2, 4}
    ensures Fine(Stmt(LD + IMM, v)) && Fine(Stmt(LD + LEN, 0)) && Fine(Stmt(LD + IND + SizeCode(size), base))
    ensures Fine(Stmt(ALU + OP_NEG, 0))
  {
  }

  lemma {:induction false} CalcFine(op: Arith)
    ensures Fine(CalcX(op))
  {
  }

  lemma {:induction false} BinTailFine(op: Arith, ra: nat, rx: nat, new': nat)
    requires ra < MEMWORDS && rx < MEMWORDS && new' < MEMWORDS
    ensures AllFine(BinTail(op, ra, rx, new'))
  {
    hide Fine;
    EmittedFine(0, 0, rx, ra, 1);
    EmittedFine(0, 0, new', ra, 1);
    CalcFine(op);
    FineAppend([ToX(rx), ToA(ra)], [CalcX(op), Store(new')]);
  }

  lemma {:induction false} RelationTailFine(cmp: Compare, ra: nat, rx: nat)
    requires ra < MEMWORDS && rx < MEMWORDS
    ensures AllFine(RelationTail(cmp, ra, rx))
  {
    hide Fine;
    EmittedFine(0, 0, rx, ra, 1);
    CalcFine(Sub);
    FineAppend([ToX(rx), ToA(ra)], if cmp == Eq then [CalcX(Sub)] else []);
  }

  datatype Code = Code(stmts: seq<Stmt>, reg: nat)

  /** The block of a compiled relation: statements, then a comparison of the accumulator. */
  datatype Relation = Relation(stmts: seq<Stmt>, jump: Stmt)

  function JumpOf(cmp: Compare): Stmt {
    if cmp == Eq then Stmt(JMP + CompareCode(Eq) + K, 0) else Stmt(JMP + CompareCode(cmp) + X, 0)
  }

  function RelationTail(cmp: Compare, ra: nat, rx: nat): seq<Stmt>
    requires ra < MEMWORDS && rx < MEMWORDS
  {
    [ToX(rx), ToA(ra)] + if cmp == Eq then [CalcX(Sub)] else []
  }

  /** Register i is among the t registers from start on, cyclically. */
  predicate Passed(start: nat, t: nat, i: nat) { start <= i < start + t || i + 16 < start + t }

  class Compiler {
    const used: array<bool>
    var cur: nat

    ghost predicate Valid() reads this { used.Length == MEMWORDS && cur < MEMWORDS }

    constructor ()
      ensures Valid() && fresh(used) && Free(used[..]) == MEMWORDS
    {
      var u := new bool[16](i => false);
      used := u;
      cur := 0;
      new;
      assert u[..] == seq(16, i => false);
      assert multiset(seq(16, i => false))[false] == 16 by { AllFree(16); }
    }

    /** The next free register, or none when all are taken. */
    method AllocReg() returns (r: Option<nat>)
      requires Valid()
      modifies this, used
      ensures Valid()
      ensures r.Some? <==> Free(old(used[..])) > 0
      ensures r.Some? ==> r.value < MEMWORDS && !old(used[..])[r.value] && used[..] == old(used[..])[r.value := true]
    {
      FreeOnes(used[..]);
      var n := 16;
      ghost var start := cur;
      while n > 0
        invariant 0 <= n <= 16 && cur < 16 && cur == (start + 16 - n) % 16
        invariant used[..] == old(used[..])
        invariant forall i :: 0 <= i < 16 && Passed(start, 16 - n, i) ==> used[i]
      {
        n := n - 1;
        if used[cur] {
          cur := (cur + 1) % 16;
        } else {
          used[cur] := true;
          return Some(cur);
        }
      }
      assert forall i :: 0 <= i < 16 ==> Passed(start, 16, i);
      return None;
    }

    method FreeReg(n: nat)
      requires Valid() && n < MEMWORDS
      modifies used
      ensures used[..] == old(used[..])[n := false]
    {
      used[n] := false;
    }

    /** gen_loadi, gen_loadlen, gen_load, gen_neg and gen_arth, operand by operand. It succeeds
        exactly when the expression is well formed and enough registers are free; the code
        then computes the value into a fresh register, the only one newly taken. */
    method Gen(e: Expr) returns (r: Option<Code>)
      requires Valid()
      modifies this, used
      ensures Valid()
      ensures r.Some? <==> WellFormed(e) && Need(e) <= Free(old(used[..]))
      ensures r.Some? ==> Target(r.value.reg, old(used[..])) && used[..] == old(used[..])[r.value.reg := true]
      ensures r.Some? ==> Computes(r.value.stmts, r.value.reg, e, old(used[..])) && Starts(r.value.stmts, e)
      ensures r.Some? ==> AllFine(r.value.stmts)
      decreases e
    {
      hide Computes, Free, AllFine;
      ghost var was := used[..];
      match e
      case Const(v) =>
        var reg := AllocReg();
        if reg.None? { return None; }
        ImmediateComputes(Stmt(LD + IMM, v), e, reg.value, was);
        EmittedFine(v, 0, reg.value, 0, 1);
        r := Some(Code([Stmt(LD + IMM, v), Store(reg.value)], reg.value));
      case Length =>
        var reg := AllocReg();
        if reg.None? { return None; }
        ImmediateComputes(Stmt(LD + LEN, 0), e, reg.value, was);
        EmittedFine(0, 0, reg.value, 0, 1);
        r := Some(Code([Stmt(LD + LEN, 0), Store(reg.value)], reg.value));
      case Load(base, size, index) =>
        var a := Gen(index);
        if a.None? { return None; }
        r := GenLoad(base, size, index, a.value, was);
      case Negate(x) =>
        var a := Gen(x);
        if a.None? { return None; }
        NegateComputes(a.value.stmts, x, a.value.reg, was);
        EmittedFine(0, 0, a.value.reg, 0, 1);
        FineAppend(a.value.stmts, [ToA(a.value.reg), Stmt(ALU + OP_NEG, 0), Store(a.value.reg)]);
        r := Some(Code(a.value.stmts + [ToA(a.value.reg), Stmt(ALU + OP_NEG, 0), Store(a.value.reg)], a.value.reg));
      case Bin(op, x, y) =>
        var a0 := Gen(x);
        if a0.None? { return None; }
        ghost var mid := used[..];
        Reserve(was, a0.value.reg);
        var a1 := Gen(y);
        if a1.None? { return None; }
        r := GenArth(op, x, y, a0.value, a1.value, was);
    }

    method GenLoad(base: u32, size: nat, index: Expr, a: Code, ghost was: seq<bool>) returns (r: Option<Code>)
      requires Valid() && Target(a.reg, was) && used[..] == was[a.reg := true]
      requires Computes(a.stmts, a.reg, index, was) && Starts(a.stmts, index) && AllFine(a.stmts)
      modifies this, used
      ensures Valid()
      ensures r.Some? <==> size in {1, 2, 4} && Free(was) >= 2
      ensures r.Some? ==> Target(r.value.reg, was) && used[..] == was[r.value.reg := true]
      ensures r.Some? ==> Computes(r.value.stmts, r.value.reg, Load(base, size, index), was)
      ensures r.Some? ==> Starts(r.value.stmts, Load(base, size, index)) && AllFine(r.value.stmts)
    {
      hide Computes, Free, AllFine;
      Reserve(was, a.reg);
      var reg := AllocReg();
      if reg.None? { return None; }
      FreeReg(a.reg);
      if size !in {1, 2, 4} { return None; }
      LoadComputes(a.stmts, base, size, index, a.reg, reg.value, was);
      EmittedFine(0, base, a.reg, reg.value, size);
      FineAppend(a.stmts, [ToX(a.reg), Stmt(LD + IND + SizeCode(size), base), Store(reg.value)]);
      r := Some(Code(a.stmts + [ToX(a.reg), Stmt(LD + IND + SizeCode(size), base), Store(reg.value)], reg.value));
    }

    method GenArth(
        op: Arith, ghost x: Expr, ghost y: Expr, a0: Code, a1: Code, ghost was: seq<bool>) returns (r: Option<Code>)
      requires Valid() && Target(a0.reg, was) && Target(a1.reg, was[a0.reg := true])
      requires used[..] == was[a0.reg := true][a1.reg := true]
      requires Computes(a0.stmts, a0.reg, x, was) && Computes(a1.stmts, a1.reg, y, was[a0.reg := true])
      requires Starts(a0.stmts, x) && Starts(a1.stmts, y) && AllFine(a0.stmts) && AllFine(a1.stmts)
      modifies this, used
      ensures Valid()
      ensures r.Some? <==> !OperandRefused(op, Leading(y))
      ensures r.Some? ==> Target(r.value.reg, was) && used[..] == was[r.value.reg := true]
      ensures r.Some? ==> Computes(r.value.stmts, r.value.reg, Bin(op, x, y), was)
      ensures r.Some? ==> Starts(r.value.stmts, Bin(op, x, y)) && AllFine(r.value.stmts)
    {
      hide Computes, Free, AllFine;
      var first := a1.stmts[0];
      if op in {Div, Mod} {
        if first.code == LD + IMM && first.k == 0 { return None; }
      } else if op in {Lsh, Rsh} {
        if first.code == LD + IMM && first.k > 31 { return None; }
      }
      FreeReg(a0.reg);
      FreeReg(a1.reg);
      assert used[..] == was;
      Reserve(was, a0.reg);
      var reg := AllocReg();
      if reg.None? { assert false; return None; }
      BinComputes(op, a0.stmts, a1.stmts, x, y, a0.reg, a1.reg, reg.value, was);
      BinTailFine(op, a0.reg, a1.reg, reg.value);
      FineAppend(a1.stmts, BinTail(op, a0.reg, a1.reg, reg.value));
      FineAppend(a0.stmts, a1.stmts + BinTail(op, a0.reg, a1.reg, reg.value));
      r := Some(Code(a0.stmts + (a1.stmts + BinTail(op, a0.reg, a1.reg, reg.value)), reg.value));
    }

    /** gen_relation up to its block: it branches by the true comparison of the two values, and
        every register is free again. */
    method GenRelation(cmp: Compare, x: Expr, y: Expr) returns (r: Option<Relation>)
      requires Valid()
      modifies this, used
      ensures Valid()
      ensures r.Some? <==>
        && WellFormed(x) && WellFormed(y)
        && Need(x) <= Free(old(used[..])) && Need(y) < Free(old(used[..]))
      ensures r.Some? ==> used[..] == old(used[..]) && Decides(r.value, cmp, x, y) && r.value.jump == JumpOf(cmp)
      ensures r.Some? ==> AllFine(r.value.stmts)
    {
      hide Computes, Free, Decides, AllFine;
      ghost var was := used[..];
      var a0 := Gen(x);
      if a0.None? { return None; }
      Reserve(was, a0.value.reg);
      var a1 := Gen(y);
      if a1.None? { return None; }
      RelationDecides(cmp, a0.value, a1.value, x, y, was);
      var tail := RelationTail(cmp, a0.value.reg, a1.value.reg);
      RelationTailFine(cmp, a0.value.reg, a1.value.reg);
      FineAppend(a1.value.stmts, tail);
      FineAppend(a0.value.stmts, a1.value.stmts + tail);
      var stmts := a0.value.stmts + (a1.value.stmts + tail);
      r := Some(Relation(stmts, JumpOf(cmp)));
      FreeReg(a0.value.reg);
      FreeReg(a1.value.reg);
    }
  }

  lemma {:induction false} AllFree(n: nat)
    ensures multiset(seq(n, i => false))[false] == n
  {
    if n > 0 {
      AllFree(n - 1);
      assert seq(n, i => false) == seq(n - 1, i => false) + [false];
    }
  }

  // ------------------------------------------------------------ relations

  /** What a relation's block does on a packet, from any register state. */
  function Verdict(rel: Relation, input: Input, r: Regs): FB.Verdict
    requires |input.pkt| < U32 && |r.mem| == MEMWORDS
  {
    match Exec(rel.stmts, input, r)
    case Go(r') =>
      (match Decode(rel.jump.code)
       case Branch(cmp, withX) => if Holds(cmp, r'.a, if withX then r'.x else rel.jump.k) then FB.True else FB.False
       case _ => FB.Reject)
    case _ => FB.Reject
  }

  /** What the relation means. */
  function Meaning(cmp: Compare, x: Expr, y: Expr, input: Input): FB.Verdict {
    match Value(x, input)
    case None => FB.Reject
    case Some(a) =>
      match Value(y, input)
      case None => FB.Reject
      case Some(b) => if Holds(cmp, a, b) then FB.True else FB.False
  }

  ghost predicate Decides(rel: Relation, cmp: Compare, x: Expr, y: Expr) {
    forall input: Input, r: Regs :: DecidesAt(rel, cmp, x, y, input, r)
  }

  /** A rejecting relation makes the machine return 0; it never faults. */
  ghost predicate DecidesAt(rel: Relation, cmp: Compare, x: Expr, y: Expr, input: Input, r: Regs) {
    Sane(input, r) ==>
      && Verdict(rel, input, r) == Meaning(cmp, x, y, input)
      && (Meaning(cmp, x, y, input).Reject? ==> Exec(rel.stmts, input, r) == Stop(0))
  }

  lemma {:induction false} RelationDecides(
      cmp: Compare, a0: Code, a1: Code, x: Expr, y: Expr, was: seq<bool>)
    requires Target(a0.reg, was) && Target(a1.reg, was[a0.reg := true])
    requires Computes(a0.stmts, a0.reg, x, was) && Computes(a1.stmts, a1.reg, y, was[a0.reg := true])
    ensures Decides(Relation(a0.stmts + (a1.stmts + RelationTail(cmp, a0.reg, a1.reg)), JumpOf(cmp)), cmp, x, y)
  {
    var rel := Relation(a0.stmts + (a1.stmts + RelationTail(cmp, a0.reg, a1.reg)), JumpOf(cmp));
    forall input: Input, r: Regs ensures DecidesAt(rel, cmp, x, y, input, r) {
      if Sane(input, r) {
        assert Result(a0.stmts, a0.reg, x, was, input, r);
        ExecKeepsSize(a0.stmts, input, r);
        var o := Exec(a0.stmts, input, r);
        if o.Go? { assert Result(a1.stmts, a1.reg, y, was[a0.reg := true], input, o.regs); }
        RelationResult(cmp, a0, a1, x, y, was, input, r);
      }
    }
  }

  lemma {:induction false} RelationResult(
      cmp: Compare, a0: Code, a1: Code, x: Expr, y: Expr, was: seq<bool>, input: Input, m: Regs)
    requires Target(a0.reg, was) && Target(a1.reg, was[a0.reg := true]) && Sane(input, m)
    requires Result(a0.stmts, a0.reg, x, was, input, m)
    requires var o := Exec(a0.stmts, input, m); o.Go? ==>
      |o.regs.mem| == MEMWORDS && Result(a1.stmts, a1.reg, y, was[a0.reg := true], input, o.regs)
    ensures DecidesAt(
      Relation(a0.stmts + (a1.stmts + RelationTail(cmp, a0.reg, a1.reg)), JumpOf(cmp)), cmp, x, y, input, m)
  {
    hide Exec, Result, Value, Verdict, Holds, RelationTail, JumpOf;
    var rest := RelationTail(cmp, a0.reg, a1.reg);
    var all := a0.stmts + (a1.stmts + rest);
    OperandsResult(a0.stmts, a1.stmts, rest, x, y, a0.reg, a1.reg, was, input, m);
    if Value(x, input).Some? && Value(y, input).Some? {
      var a, b := Value(x, input).value, Value(y, input).value;
      var m' :| After(all, rest, input, m, m') && m'.mem[a0.reg] == a && m'.mem[a1.reg] == b
          && Kept(m.mem, m'.mem, was);
      VerdictAfter(cmp, a0.reg, a1.reg, all, input, m, m');
    } else {
      VerdictStops(Relation(all, JumpOf(cmp)), input, m);
    }
  }

  lemma {:induction false} VerdictAfter(
      cmp: Compare, ra: nat, rx: nat, all: seq<Stmt>, input: Input, m: Regs, m': Regs)
    requires ra < MEMWORDS && rx < MEMWORDS && After(all, RelationTail(cmp, ra, rx), input, m, m')
    ensures Verdict(Relation(all, JumpOf(cmp)), input, m)
         == if Holds(cmp, m'.mem[ra], m'.mem[rx]) then FB.True else FB.False
  {
    hide Exec, Decode, Holds, RelationTail, JumpOf;
    RelationTailRuns(cmp, ra, rx, input, m');
  }

  lemma {:induction false} VerdictStops(rel: Relation, input: Input, m: Regs)
    requires Sane(input, m) && Exec(rel.stmts, input, m) == Stop(0)
    ensures Verdict(rel, input, m) == FB.Reject
  {
    hide Exec, Decode;
  }

  lemma {:induction false} RelationTailRuns(cmp: Compare, ra: nat, rx: nat, input: Input, m: Regs)
    requires Sane(input, m) && ra < MEMWORDS && rx < MEMWORDS
    ensures var o := Exec(RelationTail(cmp, ra, rx), input, m);
      && o.Go?
      && Decode(JumpOf(cmp).code) == Branch(cmp, cmp != Eq) && JumpOf(cmp).k == 0
      && Holds(cmp, o.regs.a, if cmp != Eq then o.regs.x else 0) == Holds(cmp, m.mem[ra], m.mem[rx])
  {
    hide Exec;
    var r := m.(x := m.mem[rx], a := m.mem[ra]);
    LoadPair(rx, ra, if cmp == Eq then [CalcX(Sub)] else [], input, m);
    if cmp == Eq {
      DecodeCalcX(Sub);
      ExecOne(CalcX(Sub), input, r);
    } else {
      ExecEmpty(input, r);
    }
  }

  lemma {:induction false} ExecEmpty(input: Input, r: Regs)
    requires Sane(input, r)
    ensures Exec([], input, r) == Go(r)
  {
  }

  // ------------------------------------------------------------ whole filters

  /** A relation as written: an atom of the filter's Boolean expression. */
  datatype Atom = Atom(cmp: Compare, x: Expr, y: Expr)

  ghost predicate AllDecide(atoms: seq<Atom>, rels: seq<Relation>) {
    && |atoms| == |rels|
    && forall t :: 0 <= t < |atoms| ==>
         && Decides(rels[t], atoms[t].cmp, atoms[t].x, atoms[t].y)
         && rels[t].jump == JumpOf(atoms[t].cmp) && AllFine(rels[t].stmts)
  }

  /** Every relation is made of acceptable statements and ends in a comparison. */
  ghost predicate Branching(rels: seq<Relation>) {
    forall t :: 0 <= t < |rels| ==> AllFine(rels[t].stmts) && Decode(rels[t].jump.code).Branch?
  }

  lemma {:induction false} AllBranch(atoms: seq<Atom>, rels: seq<Relation>)
    requires AllDecide(atoms, rels)
    ensures Branching(rels)
  {
    hide Decides, Decode, AllFine;
    forall t | 0 <= t < |rels| ensures AllFine(rels[t].stmts) && Decode(rels[t].jump.code).Branch? {
      DecodeBranch(atoms[t].cmp, atoms[t].cmp != Eq);
    }
  }

  /** The tests' outcomes by the meaning of the relations. */
  function Truth(atoms: seq<Atom>, input: Input): FB.Env {
    (t: nat) => if t < |atoms| then Meaning(atoms[t].cmp, atoms[t].x, atoms[t].y, input) else FB.Reject
  }

  /** Runs the block graph with the blocks' real code on the machine, the registers carried from
      block to block; a statement that stops the machine gives its value. (No block has a test
      without code; it would stop with 0.) */
  function RunCode(g: FB.Blocks, rels: seq<Relation>, input: Input, r: Regs, b: int, fuel: nat): FB.Outcome
    requires |input.pkt| < U32 && |r.mem| == MEMWORDS
    decreases fuel
  {
    if !(0 <= b < |g|) then FB.Lost
    else match g[b].code
      case Ret(k) => FB.Returned(k)
      case Cond(t) =>
        if t >= |rels| then FB.Returned(0)
        else
          match Exec(rels[t].stmts, input, r)
          case Stop(v) => FB.Returned(v)
          case Fault(_) => FB.Lost
          case Go(r') =>
            if fuel == 0 then FB.Unfinished
            else
              ExecKeepsSize(rels[t].stmts, input, r);
              var v := Verdict(rels[t], input, r);
              RunCode(g, rels, input, r', FB.Field(g, FB.Exit(b, v.True?)), fuel - 1)
  }

  /** What the machine returns for an outcome of the block graph: a rejection returns 0. */
  function ValueOf(o: FB.Outcome): FB.Outcome { if o.Rejected? then FB.Returned(0) else o }

  /** Register contents left by earlier blocks never matter. */
  lemma {:induction false} RunCodeIsRun(
      g: FB.Blocks, atoms: seq<Atom>, rels: seq<Relation>, input: Input, r: Regs, b: int, fuel: nat)
    requires Sane(input, r) && AllDecide(atoms, rels)
    ensures RunCode(g, rels, input, r, b, fuel) == ValueOf(FB.Run(g, [], Truth(atoms, input), b, fuel))
    decreases fuel
  {
    hide Exec, Verdict, Meaning;
    if 0 <= b < |g| && g[b].code.Cond? && g[b].code.test < |rels| {
      var t := g[b].code.test;
      assert DecidesAt(rels[t], atoms[t].cmp, atoms[t].x, atoms[t].y, input, r);
      if !Verdict(rels[t], input, r).Reject? {
        ExecKeepsSize(rels[t].stmts, input, r);
        VerdictGoes(rels[t], input, r);
        var exit := FB.Exit(b, Verdict(rels[t], input, r).True?);
        if fuel > 0 {
          RunCodeIsRun(g, atoms, rels, input, Exec(rels[t].stmts, input, r).regs, FB.Field(g, exit), fuel - 1);
        }
      }
    }
  }

  lemma {:induction false} VerdictGoes(rel: Relation, input: Input, r: Regs)
    requires Sane(input, r) && !Verdict(rel, input, r).Reject?
    ensures Exec(rel.stmts, input, r).Go?
  {
  }

  /** A finished graph over relations, run with its real code on any packet: it returns the
      snapshot length when the expression holds, and 0 when it does not or when a relation that is
      reached has no value. */
  lemma {:induction false} FilterDecides(
      g: FB.Blocks, root: int, e: FB.Expr, snaplen: nat, atoms: seq<Atom>, rels: seq<Relation>,
      input: Input, r: Regs, fuel: nat)
    requires FB.Decides(g, root, e, snaplen) && AllDecide(atoms, rels) && Sane(input, r) && fuel >= FB.Size(e)
    ensures RunCode(g, rels, input, r, root, fuel)
         == FB.Returned(if FB.Eval(e, Truth(atoms, input)).True? then snaplen else 0)
  {
    hide FB.Run, FB.Eval, RunCode, AllDecide;
    RunCodeIsRun(g, atoms, rels, input, r, root, fuel);
  }

  // ------------------------------------------------------------ filters as written

  /** The six comparison operators; three of them are the reverse of a machine comparison. */
  datatype Operator = Above | AtLeast | Equal | AtMost | Below | Differs

  function CodeOf(op: Operator): Compare {
    match op
    case Above => Gt
    case AtMost => Gt
    case AtLeast => Ge
    case Below => Ge
    case Equal => Eq
    case Differs => Eq
  }

  predicate Reversed(op: Operator) { op.AtMost? || op.Below? || op.Differs? }

  predicate Compares(op: Operator, a: u32, b: u32) {
    match op
    case Above => a > b
    case AtLeast => a >= b
    case Equal => a == b
    case AtMost => a <= b
    case Below => a < b
    case Differs => a != b
  }

  datatype Filter =
    | Relates(op: Operator, x: Expr, y: Expr)
    | Both(l: Filter, r: Filter)
    | Either(l: Filter, r: Filter)
    | Negation(f: Filter)

  /** What a filter says about a packet, read from left to right: a relation that is reached and
      has no value rejects the packet. */
  function Satisfied(f: Filter, input: Input): FB.Verdict {
    match f
    case Relates(op, x, y) =>
      (match (Value(x, input), Value(y, input))
       case (Some(a), Some(b)) => if Compares(op, a, b) then FB.True else FB.False
       case _ => FB.Reject)
    case Both(l, r) => (match Satisfied(l, input) case True => Satisfied(r, input) case v => v)
    case Either(l, r) => (match Satisfied(l, input) case False => Satisfied(r, input) case v => v)
    case Negation(g) =>
      (match Satisfied(g, input) case True => FB.False case False => FB.True case Reject => FB.Reject)
  }

  /** The relations of a filter in the order they are compiled. */
  function AtomsOf(f: Filter): seq<Atom> {
    match f
    case Relates(op, x, y) => [Atom(CodeOf(op), x, y)]
    case Both(l, r) => AtomsOf(l) + AtomsOf(r)
    case Either(l, r) => AtomsOf(l) + AtomsOf(r)
    case Negation(g) => AtomsOf(g)
  }

  /** The Boolean expression over the relations, numbered from n; gen_relation negates the block of
      a reversed comparison. */
  function Skeleton(f: Filter, n: nat): FB.Expr {
    match f
    case Relates(op, x, y) => if Reversed(op) then FB.Not(FB.Atom(n)) else FB.Atom(n)
    case Both(l, r) => FB.And(Skeleton(l, n), Skeleton(r, n + |AtomsOf(l)|))
    case Either(l, r) => FB.Or(Skeleton(l, n), Skeleton(r, n + |AtomsOf(l)|))
    case Negation(g) => FB.Not(Skeleton(g, n))
  }

  ghost predicate At(atoms: seq<Atom>, n: nat, part: seq<Atom>) {
    n + |part| <= |atoms| && atoms[n..n + |part|] == part
  }

  lemma {:induction false} AtSplit(atoms: seq<Atom>, n: nat, a: seq<Atom>, b: seq<Atom>)
    requires At(atoms, n, a + b)
    ensures At(atoms, n, a) && At(atoms, n + |a|, b)
  {
    var f := a + b;
    assert atoms[n..n + |a|] == atoms[n..n + |f|][..|a|];
    assert atoms[n + |a|..n + |a| + |b|] == atoms[n..n + |f|][|a|..];
  }

  /** The skeleton over the relations' meanings says what the filter says. */
  lemma {:induction false} SkeletonMeans(f: Filter, n: nat, atoms: seq<Atom>, input: Input)
    requires At(atoms, n, AtomsOf(f))
    ensures FB.Eval(Skeleton(f, n), Truth(atoms, input)) == Satisfied(f, input)
    decreases f
  {
    hide Value, Compares, CodeOf, Reversed, Truth, At;
    match f
    case Relates(op, x, y) => RelatesMeans(op, x, y, n, atoms, input);
    case Both(l, r) =>
      AtSplit(atoms, n, AtomsOf(l), AtomsOf(r));
      SkeletonMeans(l, n, atoms, input);
      SkeletonMeans(r, n + |AtomsOf(l)|, atoms, input);
    case Either(l, r) =>
      AtSplit(atoms, n, AtomsOf(l), AtomsOf(r));
      SkeletonMeans(l, n, atoms, input);
      SkeletonMeans(r, n + |AtomsOf(l)|, atoms, input);
    case Negation(g) => SkeletonMeans(g, n, atoms, input);
  }

  lemma {:induction false} RelatesMeans(op: Operator, x: Expr, y: Expr, n: nat, atoms: seq<Atom>, input: Input)
    requires At(atoms, n, [Atom(CodeOf(op), x, y)])
    ensures FB.Eval(if Reversed(op) then FB.Not(FB.Atom(n)) else FB.Atom(n), Truth(atoms, input))
         == match (Value(x, input), Value(y, input))
            case (Some(a), Some(b)) => if Compares(op, a, b) then FB.True else FB.False
            case _ => FB.Reject
  {
    hide Value;
    assert atoms[n] == atoms[n..n + 1][0];
    assert Truth(atoms, input)(n) == Meaning(CodeOf(op), x, y, input);
  }

  /** Enough registers, starting with all sixteen free, and no refused operand. */
  predicate Compilable(a: Atom) {
    WellFormed(a.x) && WellFormed(a.y) && Need(a.x) <= MEMWORDS && Need(a.y) < MEMWORDS
  }

  predicate AllCompilable(atoms: seq<Atom>) { forall t :: 0 <= t < |atoms| ==> Compilable(atoms[t]) }

  datatype Program = Program(blocks: FB.Blocks, root: int, rels: seq<Relation>)

  /** The program decides the filter on every packet, from any register state. */
  ghost predicate Correct(p: Program, f: Filter, snaplen: nat) {
    forall input: Input, r: Regs, fuel: nat {:trigger RunCode(p.blocks, p.rels, input, r, p.root, fuel)} ::
      Sane(input, r) && fuel >= FB.Size(Skeleton(f, 0)) ==>
        RunCode(p.blocks, p.rels, input, r, p.root, fuel)
        == FB.Returned(if Satisfied(f, input).True? then snaplen else 0)
  }

  lemma {:induction false} ProgramCorrect(p: Program, f: Filter, snaplen: nat)
    requires FB.Decides(p.blocks, p.root, Skeleton(f, 0), snaplen) && AllDecide(AtomsOf(f), p.rels)
    ensures Correct(p, f, snaplen)
  {
    hide RunCode, FB.Decides, AllDecide, FB.Eval, Satisfied;
    var atoms := AtomsOf(f);
    assert atoms[0..0 + |atoms|] == atoms;
    forall input: Input, r: Regs, fuel: nat | Sane(input, r) && fuel >= FB.Size(Skeleton(f, 0))
      ensures RunCode(p.blocks, p.rels, input, r, p.root, fuel)
           == FB.Returned(if Satisfied(f, input).True? then snaplen else 0)
    {
      FilterDecides(p.blocks, p.root, Skeleton(f, 0), snaplen, atoms, p.rels, input, r, fuel);
      SkeletonMeans(f, 0, atoms, input);
    }
  }

  lemma {:induction false} DecideAppend(a: seq<Atom>, b: seq<Atom>, first: seq<Relation>, mid: seq<Relation>,
      all: seq<Relation>)
    requires |first| <= |mid| <= |all| && mid[..|first|] == first && all[..|mid|] == mid
    requires AllDecide(a, mid[|first|..]) && AllDecide(b, all[|mid|..])
    ensures |mid| == |first| + |a| && all[..|first|] == first && AllDecide(a + b, all[|first|..])
  {
    hide Decides, AllFine;
    assert all[|first|..] == mid[|first|..] + all[|mid|..];
  }

  lemma {:induction false} CompilableAppend(a: seq<Atom>, b: seq<Atom>)
    ensures AllCompilable(a + b) <==> AllCompilable(a) && AllCompilable(b)
  {
    hide Compilable;
    var f := a + b;
    if AllCompilable(f) {
      forall t | 0 <= t < |a| ensures Compilable(a[t]) { assert a[t] == f[t]; }
      forall t | 0 <= t < |b| ensures Compilable(b[t]) { assert b[t] == f[|a| + t]; }
    }
  }

  lemma {:induction false} OneCompilable(a: Atom)
    ensures AllCompilable([a]) <==> Compilable(a)
  {
    hide Compilable;
    assert [a][0] == a;
  }

  /** The parser's state: the blocks, the registers, and the code of each test. */
  class Parser {
    const graph: FB.Graph
    const compiler: Compiler
    var rels: seq<Relation>

    /** Between relations every register is free. */
    ghost predicate Valid()
      reads this, compiler, compiler.used
    {
      compiler.Valid() && Free(compiler.used[..]) == MEMWORDS
    }

    constructor ()
      ensures Valid() && rels == [] && fresh(graph) && fresh(compiler) && fresh(compiler.used)
    {
      graph := new FB.Graph();
      compiler := new Compiler();
      rels := [];
    }

    /** gen_relation: a block that tests the comparison, negated if it is reversed. */
    method GenRelation(op: Operator, x: Expr, y: Expr) returns (b: Option<int>, ghost p: FB.Piece)
      requires Valid()
      modifies this, graph, compiler, compiler.used
      ensures b.Some? <==> Compilable(Atom(CodeOf(op), x, y))
      ensures b.Some? ==> Valid() && Placed(Relates(op, x, y), old(graph.blocks), old(rels), b.value, p)
    {
      hide FB.PieceOk, FB.Upward, Decides, Free, AllFine;
      p := FB.AtomOf(0, 0);
      ghost var before := graph.blocks;
      var rel := compiler.GenRelation(CodeOf(op), x, y);
      if rel.None? { return None, p; }
      var test := |rels|;
      rels := rels + [rel.value];
      var block := graph.NewBlock(FB.Cond(test));
      p := FB.AtomOf(block, test);
      FB.AtomPiece(graph.blocks, block, test);
      FB.UpwardAtom(graph.blocks, block, test, |rels|);
      if Reversed(op) {
        FB.UpwardNot(graph.blocks, block, p, |rels|);
        graph.GenNot(block, p);
        p := FB.NotOf(p);
      }
      b := Some(block);
      assert rels[|old(rels)|..] == [rel.value];
    }

    /** Block b stands for f, on blocks and relations added to those that were there. */
    ghost predicate Placed(f: Filter, was: FB.Blocks, first: seq<Relation>, b: int, p: FB.Piece)
      reads this, graph
    {
      && FB.PieceOk(graph.blocks, b, p) && p.e == Skeleton(f, |first|) && FB.Upward(graph.blocks, p, |rels|)
      && |was| <= |graph.blocks| && graph.blocks[..|was|] == was
      && (forall x :: x in p.own ==> |was| <= x < |graph.blocks|)
      && |first| <= |rels| && rels[..|first|] == first && AllDecide(AtomsOf(f), rels[|first|..])
    }

    /** The grammar's actions, operand by operand. It succeeds exactly when every relation can be
        compiled; the block returned then stands for the filter. */
    method Parse(f: Filter) returns (b: Option<int>, ghost p: FB.Piece)
      requires Valid()
      modifies this, graph, compiler, compiler.used
      ensures b.Some? <==> AllCompilable(AtomsOf(f))
      ensures b.Some? ==> Valid() && Placed(f, old(graph.blocks), old(rels), b.value, p)
      decreases f, 1
    {
      hide FB.PieceOk, FB.Upward, AllDecide, Compilable, Free;
      match f
      case Relates(op, x, y) =>
        OneCompilable(Atom(CodeOf(op), x, y));
        b, p := GenRelation(op, x, y);
      case Both(l, r) => b, p := ParsePair(l, r, true);
      case Either(l, r) => b, p := ParsePair(l, r, false);
      case Negation(g) =>
        b, p := Parse(g);
        if b.None? { return; }
        FB.PieceWithin(graph.blocks, b.value, p);
        FB.UpwardNot(graph.blocks, b.value, p, |rels|);
        graph.GenNot(b.value, p);
        p := FB.NotOf(p);
    }

    method ParsePair(l: Filter, r: Filter, conj: bool) returns (b: Option<int>, ghost p: FB.Piece)
      requires Valid()
      modifies this, graph, compiler, compiler.used
      ensures b.Some? <==> AllCompilable(AtomsOf(l) + AtomsOf(r))
      ensures b.Some? ==> Valid()
      ensures b.Some? ==>
        Placed(if conj then Both(l, r) else Either(l, r), old(graph.blocks), old(rels), b.value, p)
      decreases if conj then Both(l, r) else Either(l, r), 0
    {
      hide FB.PieceOk, FB.Upward, AllDecide, AllCompilable, Free;
      CompilableAppend(AtomsOf(l), AtomsOf(r));
      var b0, p0 := Parse(l);
      if b0.None? { return b0, p0; }
      ghost var g, mid := graph.blocks, rels;
      var b1, p1 := Parse(r);
      if b1.None? { return b1, p1; }
      DecideAppend(AtomsOf(l), AtomsOf(r), old(rels), mid, rels);
      FB.UpwardFrame(g, graph.blocks, p0, |mid|, |rels|);
      Join(conj, b0.value, b1.value, old(graph.blocks), g, p0, p1);
      b, p := b1, FB.JoinOf(p0, p1, conj);
    }

    /** The second operand's blocks, added after the first's, are joined with them. */
    method Join(conj: bool, b0: int, b1: int, ghost was: FB.Blocks, ghost g: FB.Blocks,
        ghost p0: FB.Piece, ghost p1: FB.Piece)
      requires FB.PieceOk(g, b0, p0) && FB.PieceOk(graph.blocks, b1, p1)
      requires |was| <= |g| <= |graph.blocks| && g[..|was|] == was && graph.blocks[..|g|] == g
      requires forall x :: x in p0.own ==> |was| <= x < |g|
      requires forall x :: x in p1.own ==> |g| <= x < |graph.blocks|
      requires FB.Upward(graph.blocks, p0, |rels|) && FB.Upward(graph.blocks, p1, |rels|)
      modifies graph
      ensures FB.PieceOk(graph.blocks, b1, FB.JoinOf(p0, p1, conj))
      ensures FB.Upward(graph.blocks, FB.JoinOf(p0, p1, conj), |rels|)
      ensures |graph.blocks| == |old(graph.blocks)| && graph.blocks[..|was|] == was
    {
      hide FB.PieceOk, FB.Upward, FB.Joined;
      ghost var h := graph.blocks;
      FB.PieceWithin(g, b0, p0);
      FB.PieceFrame(g, h, b0, p0);
      assert forall x :: x in p0.own ==> x !in p1.own;
      assert h[..|was|] == h[..|g|][..|was|];
      if conj { graph.GenAnd(b0, b1, p0, p1); } else { graph.GenOr(b0, b1, p0, p1); }
      FB.UpwardJoin(h, graph.blocks, b0, b1, p0, p1, conj, |rels|);
      assert forall x :: 0 <= x < |was| ==> graph.blocks[x] == h[x] && h[..|was|][x] == h[x];
    }
  }

  /** Compiling a whole filter: it succeeds exactly when every relation can be compiled, and the
      block graph returns the snapshot length on the packets that satisfy the filter and 0 on all
      others. `own` are its tests, from each of which control goes on to later blocks only. */
  method CompileProgram(f: Filter, snaplen: nat) returns (p: Option<Program>, ghost own: set<int>)
    ensures p.Some? <==> AllCompilable(AtomsOf(f))
    ensures p.Some? ==> Correct(p.value, f, snaplen)
    ensures p.Some? ==> p.value.root in own && FB.Layable(p.value.blocks, own, snaplen, |p.value.rels|)
    ensures p.Some? ==> Branching(p.value.rels)
  {
    hide Correct, AllDecide, Branching, FB.Decides, FB.PieceOk, FB.Upward, FB.Finished, FB.Layable, Free;
    var parser := new Parser();
    own := {};
    var b, piece := parser.Parse(f);
    if b.None? { return None, own; }
    own := piece.own;
    ghost var g := parser.graph.blocks;
    var root, yes, no := parser.graph.FinishParse(b.value, snaplen, FB.NoCheck, piece);
    p := Some(Program(parser.graph.blocks, root, parser.rels));
    assert parser.rels[0..] == parser.rels;
    ProgramCorrect(p.value, f, snaplen);
    AllBranch(AtomsOf(f), parser.rels);
    FB.UpwardFinished(g, parser.graph.blocks, b.value, piece, yes, no, snaplen, |parser.rels|);
  }

  // ------------------------------------------------------------ what the refusals mean

  /** gen_arth tests only the first statement of the right operand, so it also refuses some
      divisions that always have a value: 1 / (0 + 5) is one. */
  lemma {:induction false} LeadingZeroRefused(input: Input)
    ensures var e := Bin(Div, Const(1), Bin(Add, Const(0), Const(5)));
      !WellFormed(e) && Value(e, input) == Some(0)
  {
    assert Value(Bin(Add, Const(0), Const(5)), input) == Some(5);
    assert Calculate(Div, 1, 5) == 0;
  }
}
