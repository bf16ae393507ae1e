/** The packet-filter machine and its validator (deps/libpcap/bpf_filter.c). The interpreter
    switches on whole instruction codes and the validator on masked parts of them; what an
    accepted program can do on any packet is stated over the interpreter's runs. */
module FilterMachine {
  import Bits

  const U32: nat := 0x1_0000_0000
  const HALF: nat := 0x8000_0000
  const MEMWORDS: nat := 16

  type u32 = x: nat | x < 0x1_0000_0000
  type byte = x: nat | x < 256

  /** One instruction: 16-bit code, 8-bit jumps, 32-bit operand. */
  datatype Insn = Insn(code: nat, jt: byte, jf: byte, k: u32)

  // ------------------------------------------------------------ instruction codes

  const LD := 0x00
  const LDX := 0x01
  const ST := 0x02
  const STX := 0x03
  const ALU := 0x04
  const JMP := 0x05
  const RET := 0x06
  const MISC := 0x07

  const W := 0x00
  const H := 0x08
  const B := 0x10

  const IMM := 0x00
  const ABS := 0x20
  const IND := 0x40
  const MEM := 0x60
  const LEN := 0x80
  const MSH := 0xa0

  const K := 0x00
  const X := 0x08
  const RVAL_A := 0x10
  const TAX := 0x00
  const TXA := 0x80

  const OP_NEG := 0x80
  const OP_JA := 0x00

  datatype Arith = Add | Sub | Mul | Div | Or | And | Lsh | Rsh | Mod | Xor
  datatype Compare = Eq | Gt | Ge | Set

  function ArithCode(op: Arith): nat {
    match op
    case Add => 0x00 case Sub => 0x10 case Mul => 0x20 case Div => 0x30 case Or => 0x40
    case And => 0x50 case Lsh => 0x60 case Rsh => 0x70 case Mod => 0x90 case Xor => 0xa0
  }

  function CompareCode(c: Compare): nat {
    match c case Eq => 0x10 case Gt => 0x20 case Ge => 0x30 case Set => 0x40
  }

  datatype Op =
    | RetK | RetA
    | LdAbs(size: nat) | LdInd(size: nat) | LdLen | LdImm | LdMem
    | LdxLen | LdxMsh | LdxImm | LdxMem
    | St | Stx
    | Ja | Branch(cmp: Compare, withX: bool)
    | Calc(arith: Arith, withX: bool) | Neg
    | Tax | Txa
    | Unknown

  /** The arithmetic instruction with this 16-multiple, if there is one. */
  function ArithOf(n: nat): (r: Op)
    ensures r.Calc? || r.Unknown?
    ensures r.Calc? ==> ArithCode(r.arith) == n && !r.withX
  {
    if n == 0x00 then Calc(Add, false) else if n == 0x10 then Calc(Sub, false)
    else if n == 0x20 then Calc(Mul, false) else if n == 0x30 then Calc(Div, false)
    else if n == 0x40 then Calc(Or, false) else if n == 0x50 then Calc(And, false)
    else if n == 0x60 then Calc(Lsh, false) else if n == 0x70 then Calc(Rsh, false)
    else if n == 0x90 then Calc(Mod, false) else if n == 0xa0 then Calc(Xor, false)
    else Unknown
  }

  function CompareOf(n: nat): (r: Op)
    ensures r.Branch? || r.Unknown?
    ensures r.Branch? ==> CompareCode(r.cmp) == n && !r.withX
  {
    if n == 0x10 then Branch(Eq, false) else if n == 0x20 then Branch(Gt, false)
    else if n == 0x30 then Branch(Ge, false) else if n == 0x40 then Branch(Set, false)
    else Unknown
  }

  function DecodeLd(code: nat): Op {
    if code == LD + W + ABS then LdAbs(4)
    else if code == LD + H + ABS then LdAbs(2)
    else if code == LD + B + ABS then LdAbs(1)
    else if code == LD + W + LEN then LdLen
    else if code == LD + W + IND then LdInd(4)
    else if code == LD + H + IND then LdInd(2)
    else if code == LD + B + IND then LdInd(1)
    else if code == LD + IMM then LdImm
    else if code == LD + MEM then LdMem
    else Unknown
  }

  function DecodeLdx(code: nat): Op {
    if code == LDX + W + LEN then LdxLen
    else if code == LDX + MSH + B then LdxMsh
    else if code == LDX + IMM then LdxImm
    else if code == LDX + MEM then LdxMem
    else Unknown
  }

  function DecodeJump(code: nat): Op {
    if code == JMP + OP_JA then Ja
    else if code >= JMP + X && CompareOf(code - JMP - X).Branch? then Branch(CompareOf(code - JMP - X).cmp, true)
    else if code >= JMP + K then CompareOf(code - JMP - K)
    else Unknown
  }

  function DecodeAlu(code: nat): Op {
    if code == ALU + OP_NEG then Neg
    else if code >= ALU + X && ArithOf(code - ALU - X).Calc? then Calc(ArithOf(code - ALU - X).arith, true)
    else if code >= ALU + K then ArithOf(code - ALU - K)
    else Unknown
  }

  /** The interpreter's switch over whole codes; a code it has no case for aborts. */
  function Decode(code: nat): Op {
    var cls := code % 8;
    if cls == LD then DecodeLd(code)
    else if cls == LDX then DecodeLdx(code)
    else if cls == ST then (if code == ST then St else Unknown)
    else if cls == STX then (if code == STX then Stx else Unknown)
    else if cls == ALU then DecodeAlu(code)
    else if cls == JMP then DecodeJump(code)
    else if cls == RET then (if code == RET + K then RetK else if code == RET + RVAL_A then RetA else Unknown)
    else if code == MISC + TAX then Tax
    else if code == MISC + TXA then Txa
    else Unknown
  }

  // ------------------------------------------------------------ 32-bit arithmetic

  lemma {:induction false} WordSize(k: nat)
    ensures k == 32 ==> Bits.Pow2(k) == U32
  {
    if k == 32 { Bits.Pow2At32(k); }
  }

  function BitAnd(a: u32, b: u32): u32 { Bits.And(a, b) }

  function BitOr(a: u32, b: u32): u32 {
    WordSize(32);
    Bits.OrBelow(a, b, 32);
    Bits.Or(a, b)
  }

  function BitXor(a: u32, b: u32): u32 {
    WordSize(32);
    Bits.XorBelow(a, b, 32);
    Bits.Xor(a, b)
  }

  /** Shifts, one place at a time. */
  function ShiftLeft(a: u32, b: nat): u32
    decreases b
  {
    if b == 0 then a else ShiftLeft((2 * a) % 0x1_0000_0000, b - 1)
  }

  function ShiftRight(a: u32, b: nat): u32 { Bits.Shr(a, b) }

  function Calculate(op: Arith, a: u32, b: u32): u32
    requires op in {Div, Mod} ==> b != 0
  {
    match op
    case Add => (a + b) % 0x1_0000_0000
    case Sub => (a - b) % 0x1_0000_0000
    case Mul => (a * b) % 0x1_0000_0000
    case Div => a / b
    case Mod => a % b
    case Or => BitOr(a, b)
    case And => BitAnd(a, b)
    case Xor => BitXor(a, b)
    case Lsh => if b < 32 then ShiftLeft(a, b) else 0
    case Rsh => if b < 32 then ShiftRight(a, b) else 0
  }

  /** What an operator means, over the integers: sums, differences and products up to a multiple
      of 2^32, the quotient and the remainder, each bit of the bitwise operators, and shifts as
      multiplication and division by a power of two. */
  ghost predicate Means(op: Arith, a: u32, b: u32, v: u32) {
    match op
    case Add => v == a + b || v + U32 == a + b
    case Sub => v + b == a || v + b == a + U32
    case Mul => exists q: nat :: a * b == q * U32 + v
    case Div => v * b <= a < (v + 1) * b
    case Mod => v < b && exists q: nat :: a == q * b + v
    case Or => forall i: nat :: i < 32 ==>
      Bits.Bit(v, i) == if Bits.Bit(a, i) > Bits.Bit(b, i) then Bits.Bit(a, i) else Bits.Bit(b, i)
    case And => forall i: nat :: i < 32 ==> Bits.Bit(v, i) == Bits.Bit(a, i) * Bits.Bit(b, i)
    case Xor => forall i: nat :: i < 32 ==> Bits.Bit(v, i) == if Bits.Bit(a, i) == Bits.Bit(b, i) then 0 else 1
    case Lsh => if b < 32 then exists q: nat :: a * Bits.Pow2(b) == q * U32 + v else v == 0
    case Rsh => if b < 32 then v * Bits.Pow2(b) <= a < (v + 1) * Bits.Pow2(b) else v == 0
  }

  /** Every operator computes what it means. */
  lemma {:induction false} CalculateMeans(op: Arith, a: u32, b: u32)
    requires op in {Div, Mod} ==> b != 0
    ensures Means(op, a, b, Calculate(op, a, b))
  {
    if op in {Add, Sub} {
    } else {
      hide *;
      if op == Mul { ProductMeans(a, b); }
      if op in {Or, And, Xor} { BitsMean(op, a, b); }
      if op in {Div, Mod} { QuotientMeans(op, a, b); }
      if op in {Lsh, Rsh} { ShiftMeans(op, a, b); }
    }
  }

  lemma {:induction false} ProductMeans(a: u32, b: u32)
    ensures Means(Mul, a, b, Calculate(Mul, a, b))
  {
    Quotient(a * b, U32);
  }

  lemma {:induction false} QuotientMeans(op: Arith, a: u32, b: u32)
    requires op in {Div, Mod} && b != 0
    ensures Means(op, a, b, Calculate(op, a, b))
  {
    Quotient(a, b);
  }

  lemma {:induction false} ShiftMeans(op: Arith, a: u32, b: u32)
    requires op in {Lsh, Rsh}
    ensures Means(op, a, b, Calculate(op, a, b))
  {
    hide Bits.Pow2, ShiftLeft;
    if op == Lsh {
      if b < 32 { var q := ShiftedLeft(a, b); }
    } else {
      Bits.ShrIsDiv(a, b);
      Quotient(a, Bits.Pow2(b));
    }
  }

  lemma {:induction false} BitsMean(op: Arith, a: u32, b: u32)
    requires op in {Or, And, Xor}
    ensures Means(op, a, b, Calculate(op, a, b))
  {
    hide Bits.Bit;
    match op {
      case Or => forall i: nat | i < 32 { Bits.BitsOfOr(a, b, i); }
      case And => forall i: nat | i < 32 { Bits.BitsOfAnd(a, b, i); }
      case Xor => forall i: nat | i < 32 { Bits.BitsOfXor(a, b, i); }
    }
  }

  lemma {:induction false} Quotient(a: nat, b: nat)
    requires b > 0
    ensures a == a / b * b + a % b && a % b < b && a / b * b <= a < (a / b + 1) * b
  {
  }

  lemma {:induction false} ShiftedLeft(a: u32, b: nat) returns (q: nat)
    ensures a * Bits.Pow2(b) == q * U32 + ShiftLeft(a, b)
    decreases b
  {
    if b == 0 {
      q := 0;
    } else {
      var c, p := (2 * a) % U32, Bits.Pow2(b - 1);
      q := ShiftedLeft(c, b - 1);
      var h := 2 * a / U32;
      assert 2 * a == h * U32 + c;
      DoubleThenShift(a, p, h, c, q, ShiftLeft(c, b - 1));
      q := h * p + q;
    }
  }

  lemma {:induction false} DoubleThenShift(a: nat, p: nat, h: nat, c: nat, q: nat, v: nat)
    requires 2 * a == h * U32 + c && c * p == q * U32 + v
    ensures a * (2 * p) == (h * p + q) * U32 + v
  {
    assert a * (2 * p) == (2 * a) * p == h * U32 * p + c * p;
    assert (h * p + q) * U32 == h * p * U32 + q * U32;
    assert h * U32 * p == h * p * U32;
  }

  /** The meaning leaves no choice. */
  lemma {:induction false} OneMeaning(op: Arith, a: u32, b: u32, v: u32, w: u32)
    requires (op in {Div, Mod} ==> b != 0) && Means(op, a, b, v) && Means(op, a, b, w)
    ensures v == w
  {
    match op {
      case Add =>
      case Sub =>
      case Mul => SameRemainder(a * b, U32, v, w);
      case Div => SameQuotient(a, b, v, w);
      case Mod => SameRemainder(a, b, v, w);
      case Lsh => if b < 32 { SameRemainder(a * Bits.Pow2(b), U32, v, w); }
      case Rsh => if b < 32 { SameQuotient(a, Bits.Pow2(b), v, w); }
      case _ =>
        WordSize(32);
        hide Bits.Bit;
        Bits.SameBits(v, w, 32);
    }
  }

  lemma {:induction false} SameRemainder(n: nat, d: nat, v: nat, w: nat)
    requires v < d && w < d && (exists q: nat :: n == q * d + v) && (exists q: nat :: n == q * d + w)
    ensures v == w
  {
    var p: nat :| n == p * d + v;
    var q: nat :| n == q * d + w;
    Bits.DivModUnique(n, d, p, v);
    Bits.DivModUnique(n, d, q, w);
  }

  lemma {:induction false} SameQuotient(n: nat, d: nat, v: nat, w: nat)
    requires d > 0 && v * d <= n < (v + 1) * d && w * d <= n < (w + 1) * d
    ensures v == w
  {
    Bits.DivModUnique(n, d, v, n - v * d);
    Bits.DivModUnique(n, d, w, n - w * d);
  }

  /** The bit test holds exactly when the operands share a bit. */
  lemma {:induction false} SetMeans(a: u32, b: u32)
    ensures Holds(Set, a, b) <==> exists i: nat :: i < 32 && Bits.Bit(a, i) == 1 && Bits.Bit(b, i) == 1
  {
    hide Bits.Bit;
    WordSize(32);
    Bits.SomeBit(BitAnd(a, b), 32);
    forall i: nat | i < 32 ensures Bits.Bit(BitAnd(a, b), i) == Bits.Bit(a, i) * Bits.Bit(b, i) {
      Bits.BitsOfAnd(a, b, i);
    }
    forall i: nat | i < 32 ensures Bits.Bit(a, i) <= 1 && Bits.Bit(b, i) <= 1 { SmallBit(a, i); SmallBit(b, i); }
    if i: nat :| i < 32 && Bits.Bit(a, i) == 1 && Bits.Bit(b, i) == 1 {
      assert Bits.Bit(BitAnd(a, b), i) == 1;
    }
    if Holds(Set, a, b) {
      var i: nat :| i < 32 && Bits.Bit(BitAnd(a, b), i) == 1;
      assert Bits.Bit(a, i) == 1 && Bits.Bit(b, i) == 1;
    }
  }

  lemma {:induction false} SmallBit(a: nat, i: nat)
    ensures Bits.Bit(a, i) <= 1
  {
  }

  function Holds(c: Compare, a: u32, b: u32): bool {
    match c
    case Eq => a == b
    case Gt => a > b
    case Ge => a >= b
    case Set => BitAnd(a, b) != 0
  }

  /** A 32-bit word read as a signed number. */
  function Signed(k: u32): int { if k < HALF then k else k - U32 }

  // ------------------------------------------------------------ the interpreter

  datatype Regs = Regs(a: u32, x: u32, mem: seq<u32>)

  /** Ways a run can leave the language's rules. */
  datatype Why = BadFetch | BadScratch | BadRead | ZeroDivisor | WideShift | Abort

  datatype Effect = Go(regs: Regs) | Stop(value: u32) | Fault(why: Why)

  type Packet = seq<byte>

  function BigEndian(b3: nat, b2: nat, b1: nat, b0: nat): nat {
    b3 * 0x100_0000 + b2 * 0x1_0000 + b1 * 0x100 + b0
  }

  /** Reads `size` bytes at k, big-endian, into the accumulator; outside the packet this is a
      fault. */
  function Fetch(r: Regs, pkt: Packet, k: nat, size: nat): Effect
    requires size in {1, 2, 4}
  {
    if k + size > |pkt| then Fault(BadRead)
    else if size == 1 then Go(r.(a := pkt[k]))
    else if size == 2 then Go(r.(a := BigEndian(0, 0, pkt[k], pkt[k + 1])))
    else Go(r.(a := BigEndian(pkt[k], pkt[k + 1], pkt[k + 2], pkt[k + 3])))
  }

  /** One instruction that is not a jump. Unsigned subtractions are taken modulo 2^32, as the
      source computes them, so each guard is the source's own. */
  function Apply(op: Op, k: u32, pkt: Packet, wirelen: u32, r: Regs): Effect
    requires |pkt| < U32 && |r.mem| == MEMWORDS
  {
    var buflen := |pkt|;
    match op
    case RetK => Stop(k)
    case RetA => Stop(r.a)
    case LdAbs(size) =>
      if size !in {1, 2, 4} then Fault(Abort)
      else if size == 1 then (if k >= buflen then Stop(0) else Fetch(r, pkt, k, 1))
      else if k > buflen || size > (buflen - k) % U32 then Stop(0)
      else Fetch(r, pkt, k, size)
    case LdInd(size) =>
      var at := (r.x + k) % U32;
      if size !in {1, 2, 4} then Fault(Abort)
      else if size == 1 then (if k >= buflen || r.x >= (buflen - k) % U32 then Stop(0) else Fetch(r, pkt, at, 1))
      else if size == 2 then
        (if r.x > buflen || k > (buflen - r.x) % U32 || 2 > (buflen - at) % U32 then Stop(0) else Fetch(r, pkt, at, 2))
      else
        (if k > buflen || r.x > (buflen - k) % U32 || 4 > (buflen - at) % U32 then Stop(0) else Fetch(r, pkt, at, 4))
    case LdLen => Go(r.(a := wirelen))
    case LdImm => Go(r.(a := k))
    case LdMem => if k < |r.mem| then Go(r.(a := r.mem[k])) else Fault(BadScratch)
    case LdxLen => Go(r.(x := wirelen))
    case LdxMsh =>
      if k >= buflen then Stop(0)
      else if k + 1 > |pkt| then Fault(BadRead)
      else Go(r.(x := (pkt[k] % 16) * 4))
    case LdxImm => Go(r.(x := k))
    case LdxMem => if k < |r.mem| then Go(r.(x := r.mem[k])) else Fault(BadScratch)
    case St => if k < |r.mem| then Go(r.(mem := r.mem[k := r.a])) else Fault(BadScratch)
    case Stx => if k < |r.mem| then Go(r.(mem := r.mem[k := r.x])) else Fault(BadScratch)
    case Calc(arith, withX) =>
      var b := if withX then r.x else k;
      if arith in {Div, Mod} && b == 0 then (if withX then Stop(0) else Fault(ZeroDivisor))
      else if arith in {Lsh, Rsh} && !withX && b >= 32 then Fault(WideShift)
      else Go(r.(a := Calculate(arith, r.a, b)))
    case Neg => Go(r.(a := (0 - r.a) % 0x1_0000_0000))
    case Tax => Go(r.(x := r.a))
    case Txa => Go(r.(a := r.x))
    case _ => Fault(Abort)
  }

  datatype Machine = Running(pc: int, regs: Regs) | Stopped(value: u32) | Faulted(why: Why)

  datatype Input = Input(pkt: Packet, wirelen: u32)

  ghost predicate Sane(input: Input, regs: Regs) { |input.pkt| < U32 && |regs.mem| == MEMWORDS }

  function Step(prog: seq<Insn>, input: Input, pc: int, r: Regs): Machine
    requires |input.pkt| < U32 && |r.mem| == MEMWORDS
  {
    if !(0 <= pc < |prog|) then Faulted(BadFetch)
    else
      var i := prog[pc];
      match Decode(i.code)
      case Ja => Running(pc + Signed(i.k) + 1, r)
      case Branch(cmp, withX) =>
        Running(pc + 1 + (if Holds(cmp, r.a, if withX then r.x else i.k) then i.jt else i.jf), r)
      case op =>
        match Apply(op, i.k, input.pkt, input.wirelen, r)
        case Go(r') => Running(pc + 1, r')
        case Stop(v) => Stopped(v)
        case Fault(why) => Faulted(why)
  }

  lemma {:induction false} StepSane(prog: seq<Insn>, input: Input, pc: int, r: Regs)
    requires Sane(input, r)
    ensures var m := Step(prog, input, pc, r); m.Running? ==> |m.regs.mem| == MEMWORDS
  {
  }

  /** The machine after at most n instructions. */
  function Run(prog: seq<Insn>, input: Input, pc: int, r: Regs, n: nat): Machine
    requires |input.pkt| < U32 && |r.mem| == MEMWORDS
    decreases n
  {
    if n == 0 then Running(pc, r)
    else
      StepSane(prog, input, pc, r);
      match Step(prog, input, pc, r)
      case Running(pc', r') => Run(prog, input, pc', r', n - 1)
      case m => m
  }

  // ------------------------------------------------------------ the validator

  function ClassOf(code: nat): nat { code % 8 }
  function ModeOf(code: nat): nat { ((code / 32) % 8) * 32 }
  function OpOf(code: nat): nat { ((code / 16) % 16) * 16 }
  function SrcOf(code: nat): nat { ((code / 8) % 2) * 8 }

  /** The validator's tests of instruction i of a program of this length. */
  predicate InsnAccepted(p: Insn, i: nat, len: nat) {
    var cls := ClassOf(p.code);
    if cls == LD || cls == LDX then
      var mode := ModeOf(p.code);
      mode in {IMM, ABS, IND, MSH, LEN} || (mode == MEM && p.k < MEMWORDS)
    else if cls == ST || cls == STX then p.k < MEMWORDS
    else if cls == ALU then
      var op := OpOf(p.code);
      if op in {0x30, 0x90} then !(SrcOf(p.code) == K && p.k == 0)
      else op in {0x00, 0x10, 0x20, 0x40, 0x50, 0xa0, 0x60, 0x70, 0x80}
    else if cls == JMP then
      var from := (i + 1) % U32;
      var op := OpOf(p.code);
      if op == OP_JA then (from + p.k) % U32 < len
      else op in {0x10, 0x20, 0x30, 0x40} && (from + p.jt) % U32 < len && (from + p.jf) % U32 < len
    else true
  }

  predicate Accepts(prog: seq<Insn>) {
    && |prog| >= 1
    && (forall i :: 0 <= i < |prog| ==> InsnAccepted(prog[i], i, |prog|))
    && ClassOf(prog[|prog| - 1].code) == RET
  }

  /** The length is an `int`. */
  method Validate(prog: seq<Insn>) returns (ok: bool)
    requires |prog| < HALF
    ensures ok <==> Accepts(prog)
  {
    if |prog| < 1 { return false; }
    var i := 0;
    while i < |prog|
      invariant 0 <= i <= |prog|
      invariant forall j :: 0 <= j < i ==> InsnAccepted(prog[j], j, |prog|)
    {
      if !InsnAccepted(prog[i], i, |prog|) { return false; }
      i := i + 1;
    }
    return ClassOf(prog[|prog| - 1].code) == RET;
  }

  // ------------------------------------------------------------ what acceptance means

  /** What makes a decoded instruction harmless, in terms of its own operands. */
  predicate OpSafe(op: Op, p: Insn, i: nat, len: nat) {
    match op
    case LdMem => p.k < MEMWORDS
    case LdxMem => p.k < MEMWORDS
    case St => p.k < MEMWORDS
    case Stx => p.k < MEMWORDS
    case Calc(arith, withX) => arith in {Div, Mod} && !withX ==> p.k != 0
    case Ja => 0 <= i + 1 + Signed(p.k) < len
    case Branch(cmp, withX) => i + 1 + p.jt < len && i + 1 + p.jf < len
    case _ => true
  }

  /** The 32-bit test `from + k < len` is exact for sign-extended jumps: it accepts exactly
      the jumps, forward or backward, that stay inside the program. */
  lemma {:induction false} JumpTestIsExact(i: nat, k: u32, len: nat)
    requires i < len < HALF
    ensures ((i + 1) % U32 + k) % U32 < len <==> 0 <= i + 1 + Signed(k) < len
  {
    assert (i + 1) % U32 == i + 1;
    if i + 1 + k < U32 {
      assert (i + 1 + k) % U32 == i + 1 + k;
    } else {
      assert (i + 1 + k) % U32 == i + 1 + k - U32;
    }
  }

  /** Where each known code lies in the validator's masked classes. */
  ghost predicate ClassFits(code: nat, op: Op) {
    match op
    case Ja => ClassOf(code) == JMP && OpOf(code) == OP_JA
    case Branch(cmp, x) => ClassOf(code) == JMP && OpOf(code) == CompareCode(cmp)
    case Calc(arith, x) => ClassOf(code) == ALU && OpOf(code) == ArithCode(arith) && SrcOf(code) == if x then X else K
    case Neg => ClassOf(code) == ALU && OpOf(code) == OP_NEG
    case St => ClassOf(code) == ST
    case Stx => ClassOf(code) == STX
    case LdMem => ClassOf(code) == LD && ModeOf(code) == MEM
    case LdxMem => ClassOf(code) == LDX && ModeOf(code) == MEM
    case RetK => ClassOf(code) == RET
    case RetA => ClassOf(code) == RET
    case Tax => ClassOf(code) == MISC
    case Txa => ClassOf(code) == MISC
    case Unknown => true
    case _ => ClassOf(code) in {LD, LDX} && ModeOf(code) in {IMM, ABS, IND, MSH, LEN}
  }

  lemma {:induction false} DecodeClassAlu(code: nat)
    requires code % 8 == ALU
    ensures ClassFits(code, DecodeAlu(code))
  {
    hide ArithOf, ArithCode;
    var op := DecodeAlu(code);
    if op.Calc? {
      var src := if op.withX then X else K;
      assert code == ArithCode(op.arith) + ALU + src;
      hide DecodeAlu, ClassOf, OpOf, SrcOf;
      ArithField(op.arith);
      Fields(ArithCode(op.arith) / 16, src / 8, ALU);
    }
  }

  lemma {:induction false} ArithField(op: Arith)
    ensures ArithCode(op) == 16 * (ArithCode(op) / 16) && ArithCode(op) < 256
  {
  }

  /** The parts of a code lie in bits of their own. */
  lemma {:induction false} Fields(op: nat, src: nat, cls: nat)
    requires op < 16 && src < 2 && cls < 8
    ensures var code := 16 * op + cls + 8 * src;
            ClassOf(code) == cls && OpOf(code) == 16 * op && SrcOf(code) == 8 * src
  {
    var code := 16 * op + cls + 8 * src;
    assert code / 16 == op && code / 8 == 2 * op + src && code == 8 * (2 * op + src) + cls;
  }

  lemma {:induction false} DecodeClassJump(code: nat)
    requires code % 8 == JMP
    ensures ClassFits(code, DecodeJump(code))
  {
    var op := DecodeJump(code);
    if op.Branch? {
      assert code == CompareCode(op.cmp) + JMP + (if op.withX then X else K);
    }
  }

  lemma {:induction false} DecodeClass(code: nat)
    ensures ClassFits(code, Decode(code))
  {
    hide DecodeAlu, DecodeJump;
    if code % 8 == ALU { DecodeClassAlu(code); }
    else if code % 8 == JMP { DecodeClassJump(code); }
  }

  /** On instructions the machine knows, the validator's masked tests say exactly that the
      instruction is harmless. */
  lemma {:induction false} InsnAcceptedMeans(p: Insn, i: nat, len: nat)
    requires i < len < HALF && !Decode(p.code).Unknown?
    ensures InsnAccepted(p, i, len) <==> OpSafe(Decode(p.code), p, i, len)
  {
    hide Decode;
    DecodeClass(p.code);
    JumpTestIsExact(i, p.k, len);
    assert (i + 1) % U32 == i + 1;
    assert (i + 1 + p.jt) % U32 == i + 1 + p.jt && (i + 1 + p.jf) % U32 == i + 1 + p.jf;
  }

  ghost predicate AllKnown(prog: seq<Insn>) {
    forall i :: 0 <= i < |prog| ==> !Decode(prog[i].code).Unknown?
  }

  /** Acceptance of a program of known instructions, both ways. */
  lemma {:induction false} AcceptsMeans(prog: seq<Insn>)
    requires |prog| < HALF && AllKnown(prog)
    ensures Accepts(prog) <==>
      && |prog| >= 1
      && (forall i :: 0 <= i < |prog| ==> OpSafe(Decode(prog[i].code), prog[i], i, |prog|))
      && Decode(prog[|prog| - 1].code) in {RetK, RetA}
  {
    hide Decode, InsnAccepted, OpSafe;
    forall i | 0 <= i < |prog| ensures InsnAccepted(prog[i], i, |prog|) <==>
        OpSafe(Decode(prog[i].code), prog[i], i, |prog|) {
      InsnAcceptedMeans(prog[i], i, |prog|);
    }
    if |prog| >= 1 { DecodeClass(prog[|prog| - 1].code); }
  }

  /** The bits of a code that the validator looks at agree. */
  predicate SameTested(c: nat, d: nat) {
    var a, b := ClassOf(c), ClassOf(d);
    || (a in {LD, LDX} && b in {LD, LDX} && ModeOf(c) == ModeOf(d))
    || (a in {ST, STX} && b in {ST, STX})
    || (a == b == ALU && OpOf(c) == OpOf(d) && (OpOf(c) in {0x30, 0x90} ==> SrcOf(c) == SrcOf(d)))
    || (a == b == JMP && OpOf(c) == OpOf(d))
    || (a == b && a in {RET, MISC})
  }

  lemma {:induction false} TestedDecides(p: Insn, d: nat, i: nat, len: nat)
    requires SameTested(p.code, d)
    ensures InsnAccepted(p, i, len) <==> InsnAccepted(p.(code := d), i, len)
  {
    hide ModeOf, OpOf, SrcOf, ClassOf;
  }

  /** A known code with the same tested bits, if there is one. */
  function Standard(c: nat): nat {
    var cls := ClassOf(c);
    if cls in {LD, LDX} then (if ModeOf(c) == MSH then LDX + MSH + B else LD + ModeOf(c))
    else if cls in {ST, STX} then ST
    else if cls == ALU then ALU + OpOf(c) + (if OpOf(c) in {0x30, 0x90} then SrcOf(c) else K)
    else if cls == JMP then JMP + OpOf(c)
    else if cls == RET then RET + K
    else MISC + TAX
  }

  lemma {:induction false} StandardIsKnown(p: Insn, i: nat, len: nat)
    requires InsnAccepted(p, i, len)
    ensures SameTested(p.code, Standard(p.code)) && !Decode(Standard(p.code)).Unknown?
  {
    var c := p.code;
    assert SrcOf(c) in {K, X};
    hide Decode, ModeOf, OpOf, SrcOf;
    if ClassOf(c) in {LD, LDX} {
      StandardLoad(ModeOf(c));
    } else if ClassOf(c) == ALU {
      StandardAlu(OpOf(c), if OpOf(c) in {0x30, 0x90} then SrcOf(c) else K);
    } else if ClassOf(c) == JMP {
      StandardJump(OpOf(c));
    } else {
      DecodePlain();
    }
  }

  lemma {:induction false} StandardLoad(mode: nat)
    requires mode in {IMM, ABS, IND, MSH, LEN, MEM}
    ensures var c := if mode == MSH then LDX + MSH + B else LD + mode;
            ClassOf(c) in {LD, LDX} && ModeOf(c) == mode && !Decode(c).Unknown?
  {
  }

  lemma {:induction false} StandardJump(op: nat)
    requires op in {OP_JA, 0x10, 0x20, 0x30, 0x40}
    ensures ClassOf(JMP + op) == JMP && OpOf(JMP + op) == op && !Decode(JMP + op).Unknown?
  {
  }

  lemma {:induction false} StandardAlu(op: nat, src: nat)
    requires op in {0x00, 0x10, 0x20, 0x30, 0x40, 0x50, 0x60, 0x70, 0x80, 0x90, 0xa0}
    requires src == K || (src == X && op in {0x30, 0x90})
    ensures var c := ALU + op + src;
            ClassOf(c) == ALU && OpOf(c) == op && SrcOf(c) == src && !Decode(c).Unknown?
  {
    Fields(op / 16, src / 8, ALU);
    hide DecodeLd, DecodeLdx, DecodeJump;
  }

  ghost predicate LikeKnown(p: Insn, d: nat, i: nat, len: nat) {
    SameTested(p.code, d) && !Decode(d).Unknown? && OpSafe(Decode(d), p.(code := d), i, len)
  }

  /** Of all codes, known or not, the validator accepts exactly those that agree in the tested bits
      with a known one that would be harmless in their place. */
  lemma {:induction false} AcceptedIffLikeKnown(p: Insn, i: nat, len: nat)
    requires i < len < HALF
    ensures InsnAccepted(p, i, len) <==> exists d: nat :: LikeKnown(p, d, i, len)
  {
    hide InsnAccepted, Decode, OpSafe, SameTested, Standard;
    if InsnAccepted(p, i, len) {
      var d := Standard(p.code);
      StandardIsKnown(p, i, len);
      TestedDecides(p, d, i, len);
      InsnAcceptedMeans(p.(code := d), i, len);
      assert LikeKnown(p, d, i, len);
    }
    if d: nat :| LikeKnown(p, d, i, len) {
      TestedDecides(p, d, i, len);
      InsnAcceptedMeans(p.(code := d), i, len);
    }
  }

  // ------------------------------------------------------------ safety of whole runs

  /** The indirect loads' guards, wrapped subtractions and additions included, admit only
      reads inside the packet. */
  lemma {:induction false} IndirectReadInside(x: u32, k: u32, size: nat, buflen: nat)
    requires buflen < U32 && size <= 4
    requires (k <= buflen && x <= (buflen - k) % U32) || (x <= buflen && k <= (buflen - x) % U32)
    ensures (x + k) % U32 == x + k <= buflen
    ensures size <= (buflen - (x + k) % U32) % U32 <==> x + k + size <= buflen
  {
    if k <= buflen { Small(buflen - k); }
    if x <= buflen { Small(buflen - x); }
    Small(x + k);
    Small(buflen - x - k);
  }

  lemma {:induction false} Small(n: nat)
    requires n < U32
    ensures n % U32 == n
  {
  }

  /** A harmless known instruction faults only as an over-wide constant shift. */
  lemma {:induction false} ApplyFaults(op: Op, p: Insn, i: nat, len: nat, input: Input, r: Regs)
    requires Sane(input, r) && OpSafe(op, p, i, len) && Sizes(op)
    ensures var e := Apply(op, p.k, input.pkt, input.wirelen, r);
      && (e.Go? ==> |e.regs.mem| == MEMWORDS)
      && (e.Fault? <==>
            op.Unknown? || op.Ja? || op.Branch? || (op.Calc? && op.arith in {Lsh, Rsh} && !op.withX && p.k >= 32))
      && (e.Fault? ==> e.why == if op.Calc? then WideShift else Abort)
  {
    if op.LdInd? { ApplyIndirect(op.size, p.k, input, r); }
  }

  ghost predicate Sizes(op: Op) {
    (op.LdInd? ==> op.size in {1, 2, 4}) && (op.LdAbs? ==> op.size in {1, 2, 4})
  }

  lemma {:induction false} ApplyIndirect(size: nat, k: u32, input: Input, r: Regs)
    requires Sane(input, r) && size in {1, 2, 4}
    ensures Apply(LdInd(size), k, input.pkt, input.wirelen, r)
         == if r.x + k + size <= |input.pkt| then Fetch(r, input.pkt, r.x + k, size) else Stop(0)
  {
    hide Fetch;
    var buflen := |input.pkt|;
    if k <= buflen { Small(buflen - k); }
    if r.x <= buflen { Small(buflen - r.x); }
    if k <= buflen && r.x <= (buflen - k) % U32 {
      IndirectReadInside(r.x, k, size, buflen);
    }
    if r.x <= buflen && k <= (buflen - r.x) % U32 {
      IndirectReadInside(r.x, k, size, buflen);
    }
  }

  lemma {:induction false} DecodedSizes(code: nat)
    ensures Sizes(Decode(code))
  {
  }

  /** The two things acceptance does not rule out: a code without a case in the interpreter,
      and a constant shift by 32 or more. */
  predicate Clean(p: Insn) {
    var op := Decode(p.code);
    !op.Unknown? && !(op.Calc? && op.arith in {Lsh, Rsh} && !op.withX && p.k >= 32)
  }

  /** In an accepted program, one step faults exactly at an instruction that is not clean, and
      otherwise stays inside the program. */
  lemma {:induction false} AcceptedStep(prog: seq<Insn>, input: Input, pc: nat, r: Regs)
    requires |prog| < HALF && Accepts(prog) && Sane(input, r) && pc < |prog|
    ensures var m := Step(prog, input, pc, r);
      && (m.Running? ==> 0 <= m.pc < |prog| && |m.regs.mem| == MEMWORDS)
      && (m.Faulted? <==> !Clean(prog[pc]))
      && (m.Faulted? ==> m.why in {Abort, WideShift})
  {
    hide Decode, Apply, InsnAccepted;
    var p := prog[pc];
    var op := Decode(p.code);
    assert InsnAccepted(p, pc, |prog|);
    if op.Unknown? {
      AbortsAt(prog, input, pc, r);
    } else {
      InsnAcceptedMeans(p, pc, |prog|);
      DecodedSizes(p.code);
      ApplyFaults(op, p, pc, |prog|, input, r);
      if pc == |prog| - 1 {
        DecodeClass(p.code);
        ReturnStops(op, p.k, input, r);
      }
    }
  }

  lemma {:induction false} AbortsAt(prog: seq<Insn>, input: Input, pc: nat, r: Regs)
    requires Sane(input, r) && pc < |prog| && Decode(prog[pc].code).Unknown?
    ensures Step(prog, input, pc, r) == Faulted(Abort)
  {
    hide Decode;
  }

  lemma {:induction false} ReturnStops(op: Op, k: u32, input: Input, r: Regs)
    requires Sane(input, r) && op in {RetK, RetA}
    ensures Apply(op, k, input.pkt, input.wirelen, r).Stop?
  {
  }

  /** Every run of an accepted program, on every packet and however long: each fetch is inside
      the program, and no scratch access, packet read or division goes wrong. */
  lemma {:induction false} AcceptedRunIsSafe(prog: seq<Insn>, input: Input, pc: nat, r: Regs, n: nat)
    requires |prog| < HALF && Accepts(prog) && Sane(input, r) && pc < |prog|
    ensures var m := Run(prog, input, pc, r, n);
      && (m.Running? ==> 0 <= m.pc < |prog|)
      && (m.Faulted? ==> m.why in {Abort, WideShift} && exists i :: 0 <= i < |prog| && !Clean(prog[i]))
    decreases n
  {
    hide Step, Accepts, Clean;
    if n > 0 {
      AcceptedStep(prog, input, pc, r);
      var m := Step(prog, input, pc, r);
      if m.Running? { AcceptedRunIsSafe(prog, input, m.pc, m.regs, n - 1); }
    }
  }

  /** A refusal is never idle: a known instruction other than a comparison that the validator
      refuses goes wrong in every run that reaches it. */
  lemma {:induction false} RefusedInstructionFaults(prog: seq<Insn>, input: Input, pc: nat, r: Regs)
    requires pc < |prog| < HALF && Sane(input, r)
    requires Decode(prog[pc].code) !in {Unknown} && !Decode(prog[pc].code).Branch?
    requires !InsnAccepted(prog[pc], pc, |prog|)
    ensures Run(prog, input, pc, r, 2) == Faulted(
      match Decode(prog[pc].code) case Ja => BadFetch case Calc(_, _) => ZeroDivisor case _ => BadScratch)
  {
    hide Decode, InsnAccepted;
    InsnAcceptedMeans(prog[pc], pc, |prog|);
    RunUnfolds(prog, input, pc, r, 2);
    if Decode(prog[pc].code).Ja? {
      RunUnfolds(prog, input, pc + Signed(prog[pc].k) + 1, r, 1);
    }
  }

  /** No unconditional jump goes backward. */
  ghost predicate ForwardOnly(prog: seq<Insn>) {
    forall i :: 0 <= i < |prog| && Decode(prog[i].code).Ja? ==> prog[i].k < HALF
  }

  lemma {:induction false} ForwardStep(prog: seq<Insn>, input: Input, pc: nat, r: Regs)
    requires Sane(input, r) && pc < |prog|
    ensures var m := Step(prog, input, pc, r);
      m.Running? ==> (m.pc > pc <==> !(Decode(prog[pc].code).Ja? && prog[pc].k >= HALF))
  {
    hide Decode, Apply;
  }

  /** Without a backward jump every run stops within as many steps as there are instructions. */
  lemma {:induction false} ForwardRunStops(prog: seq<Insn>, input: Input, pc: nat, r: Regs, n: nat)
    requires |prog| < HALF && Accepts(prog) && ForwardOnly(prog) && Sane(input, r) && pc < |prog|
    requires n >= |prog| - pc
    ensures !Run(prog, input, pc, r, n).Running?
    decreases n
  {
    hide Step, Accepts, Clean, Decode;
    AcceptedStep(prog, input, pc, r);
    ForwardStep(prog, input, pc, r);
    var m := Step(prog, input, pc, r);
    if m.Running? { ForwardRunStops(prog, input, m.pc, m.regs, n - 1); }
  }

  /** A backward jump can loop for ever: this accepted program never stops. */
  lemma {:induction false} BackwardJumpLoops(input: Input, r: Regs, n: nat)
    requires Sane(input, r)
    ensures var prog := [Insn(JMP + OP_JA, 0, 0, 0xffff_ffff), Insn(RET + K, 0, 0, 0)];
      Accepts(prog) && Run(prog, input, 0, r, n).Running?
    decreases n
  {
    if n > 0 { BackwardJumpLoops(input, r, n - 1); }
  }

  /** A code the validator's masks let through and the interpreter has no case for. */
  lemma {:induction false} UnknownCodeAborts(input: Input, r: Regs)
    requires Sane(input, r)
    ensures var prog := [Insn(LD + H + LEN, 0, 0, 0), Insn(RET + K, 0, 0, 0)];
      Accepts(prog) && Step(prog, input, 0, r) == Faulted(Abort)
  {
  }

  /** A constant shift by 32 bits is let through too. */
  lemma {:induction false} WideShiftAccepted(input: Input, r: Regs)
    requires Sane(input, r)
    ensures var prog := [Insn(ALU + ArithCode(Lsh) + K, 0, 0, 32), Insn(RET + K, 0, 0, 0)];
      Accepts(prog) && Step(prog, input, 0, r) == Faulted(WideShift)
  {
  }

  /** The interpreter's loop, stopped after `limit` instructions, on any program and packet; the
      scratch words start undefined, so they are an argument. */
  method Filter(prog: seq<Insn>, input: Input, scratch: seq<u32>, limit: nat) returns (m: Machine)
    requires |input.pkt| < U32 && |scratch| == MEMWORDS
    ensures m == Run(prog, input, 0, Regs(0, 0, scratch), limit)
  {
    hide Step, Run;
    var pc, r, left := 0, Regs(0, 0, scratch), limit;
    while left > 0
      invariant |r.mem| == MEMWORDS
      invariant Run(prog, input, 0, Regs(0, 0, scratch), limit) == Run(prog, input, pc, r, left)
    {
      RunUnfolds(prog, input, pc, r, left);
      match Step(prog, input, pc, r)
      case Running(pc', r') => pc, r, left := pc', r', left - 1;
      case Stopped(value) => return Stopped(value);
      case Faulted(why) => return Faulted(why);
    }
    RunNone(prog, input, pc, r);
    return Running(pc, r);
  }

  lemma {:induction false} RunNone(prog: seq<Insn>, input: Input, pc: int, r: Regs)
    requires Sane(input, r)
    ensures Run(prog, input, pc, r, 0) == Running(pc, r)
  {
  }

  /** On an accepted program of clean instructions without backward jumps, as many steps as there
      are instructions are enough for the machine to return a value. */
  lemma {:induction false} CleanProgramReturns(prog: seq<Insn>, input: Input, r: Regs)
    requires |prog| < HALF && Accepts(prog) && ForwardOnly(prog) && Sane(input, r)
    requires forall i :: 0 <= i < |prog| ==> Clean(prog[i])
    ensures Run(prog, input, 0, r, |prog|).Stopped?
  {
    hide Step, Run, Clean, ForwardOnly, InsnAccepted;
    AcceptedRunIsSafe(prog, input, 0, r, |prog|);
    ForwardRunStops(prog, input, 0, r, |prog|);
  }

  lemma {:induction false} RunUnfolds(prog: seq<Insn>, input: Input, pc: int, r: Regs, n: nat)
    requires Sane(input, r) && n > 0
    ensures match Step(prog, input, pc, r)
            case Running(pc', r') => |r'.mem| == MEMWORDS
                && Run(prog, input, pc, r, n) == Run(prog, input, pc', r', n - 1)
            case m => Run(prog, input, pc, r, n) == m
  {
    hide Step;
    StepSane(prog, input, pc, r);
  }

  // ------------------------------------------------------------ which value a program returns

  /** The number whose big-endian bytes are the `size` bytes at k. */
  function BytesAt(pkt: Packet, k: nat, size: nat): nat
    requires k + size <= |pkt|
  {
    if size == 0 then 0 else 256 * BytesAt(pkt, k, size - 1) + pkt[k + size - 1]
  }

  lemma {:induction false} BytesFit(pkt: Packet, k: nat, size: nat)
    requires k + size <= |pkt| && size in {1, 2, 4}
    ensures BytesAt(pkt, k, size) < U32
    ensures size == 1 ==> BytesAt(pkt, k, size) == pkt[k]
    ensures size == 2 ==> BytesAt(pkt, k, size) == BigEndian(0, 0, pkt[k], pkt[k + 1])
    ensures size == 4 ==> BytesAt(pkt, k, size) == BigEndian(pkt[k], pkt[k + 1], pkt[k + 2], pkt[k + 3])
  {
    BytesMore(pkt, k, 1);
    if size >= 2 { BytesMore(pkt, k, 2); }
    if size == 4 {
      BytesMore(pkt, k, 3);
      BytesMore(pkt, k, 4);
    }
    assert BytesAt(pkt, k, 0) == 0;
    hide BytesAt;
  }

  lemma {:induction false} BytesMore(pkt: Packet, k: nat, size: nat)
    requires 0 < size && k + size <= |pkt|
    ensures BytesAt(pkt, k, size) == 256 * BytesAt(pkt, k, size - 1) + pkt[k + size - 1]
  {
  }

  function SizeCode(size: nat): nat { if size == 1 then B else if size == 2 then H else W }

  /** An instruction that is not a jump, executed in any program. */
  lemma {:induction false} OneMore(prog: seq<Insn>, input: Input, pc: nat, r: Regs, n: nat, op: Op)
    requires Sane(input, r) && pc < |prog| && n > 0
    requires Decode(prog[pc].code) == op && !op.Ja? && !op.Branch?
    ensures match Apply(op, prog[pc].k, input.pkt, input.wirelen, r)
            case Go(r') => |r'.mem| == MEMWORDS && Run(prog, input, pc, r, n) == Run(prog, input, pc + 1, r', n - 1)
            case Stop(v) => Run(prog, input, pc, r, n) == Stopped(v)
            case Fault(why) => Run(prog, input, pc, r, n) == Faulted(why)
  {
    hide Run, Decode, Apply;
    RunUnfolds(prog, input, pc, r, n);
  }

  /** `ld [k]; ret a`: the bytes at k as a big-endian number, or 0 when they are not all there. */
  lemma {:induction false} AbsoluteLoadReturns(size: nat, k: u32, input: Input, r: Regs)
    requires Sane(input, r) && size in {1, 2, 4}
    ensures Run([Insn(LD + ABS + SizeCode(size), 0, 0, k), Insn(RET + RVAL_A, 0, 0, 0)], input, 0, r, 2)
         == Stopped(if k + size <= |input.pkt| then
                      BytesFit(input.pkt, k, size);
                      BytesAt(input.pkt, k, size)
                    else 0)
  {
    hide Run, BytesAt;
    var prog := [Insn(LD + ABS + SizeCode(size), 0, 0, k), Insn(RET + RVAL_A, 0, 0, 0)];
    OneMore(prog, input, 0, r, 2, LdAbs(size));
    if k <= |input.pkt| { Small(|input.pkt| - k); }
    if k + size <= |input.pkt| {
      BytesFit(input.pkt, k, size);
      var r' := r.(a := BytesAt(input.pkt, k, size));
      assert Apply(LdAbs(size), k, input.pkt, input.wirelen, r) == Go(r');
      OneMore(prog, input, 1, r', 1, RetA);
    }
  }

  /** `ldxb 4*([k]&0xf); txa; ret a`: four times the low four bits of the byte at k. */
  lemma {:induction false} HeaderLengthReturns(k: u32, input: Input, r: Regs)
    requires Sane(input, r)
    ensures Run([Insn(LDX + MSH + B, 0, 0, k), Insn(MISC + TXA, 0, 0, 0), Insn(RET + RVAL_A, 0, 0, 0)], input, 0, r, 3)
         == Stopped(if k < |input.pkt| then 4 * (input.pkt[k] % 16) else 0)
  {
    hide Run;
    var prog := [Insn(LDX + MSH + B, 0, 0, k), Insn(MISC + TXA, 0, 0, 0), Insn(RET + RVAL_A, 0, 0, 0)];
    OneMore(prog, input, 0, r, 3, LdxMsh);
    if k < |input.pkt| {
      var v := 4 * (input.pkt[k] % 16);
      OneMore(prog, input, 1, r.(x := v), 2, Txa);
      OneMore(prog, input, 2, r.(x := v, a := v), 1, RetA);
    }
  }

  /** `ld len; ret a` and `ldx len; txa; ret a`: the length on the wire. */
  lemma {:induction false} LengthReturns(input: Input, r: Regs)
    requires Sane(input, r)
    ensures Run([Insn(LD + LEN, 0, 0, 0), Insn(RET + RVAL_A, 0, 0, 0)], input, 0, r, 2) == Stopped(input.wirelen)
    ensures Run([Insn(LDX + LEN, 0, 0, 0), Insn(MISC + TXA, 0, 0, 0), Insn(RET + RVAL_A, 0, 0, 0)], input, 0, r, 3)
         == Stopped(input.wirelen)
  {
    hide Run;
    var v := input.wirelen;
    var p := [Insn(LD + LEN, 0, 0, 0), Insn(RET + RVAL_A, 0, 0, 0)];
    OneMore(p, input, 0, r, 2, LdLen);
    OneMore(p, input, 1, r.(a := v), 1, RetA);
    var q := [Insn(LDX + LEN, 0, 0, 0), Insn(MISC + TXA, 0, 0, 0), Insn(RET + RVAL_A, 0, 0, 0)];
    OneMore(q, input, 0, r, 3, LdxLen);
    OneMore(q, input, 1, r.(x := v), 2, Txa);
    OneMore(q, input, 2, r.(x := v, a := v), 1, RetA);
  }

  /** A value moved from one register to the other, past a load of a second value, comes back. */
  lemma {:induction false} TransferReturns(v: u32, w: u32, input: Input, r: Regs)
    requires Sane(input, r)
    ensures Run([Insn(LD + IMM, 0, 0, v), Insn(MISC + TAX, 0, 0, 0), Insn(LD + IMM, 0, 0, w),
                 Insn(MISC + TXA, 0, 0, 0), Insn(RET + RVAL_A, 0, 0, 0)], input, 0, r, 5) == Stopped(v)
  {
    hide Run, Decode;
    DecodePlain();
    var p := [Insn(LD + IMM, 0, 0, v), Insn(MISC + TAX, 0, 0, 0), Insn(LD + IMM, 0, 0, w),
              Insn(MISC + TXA, 0, 0, 0), Insn(RET + RVAL_A, 0, 0, 0)];
    OneMore(p, input, 0, r, 5, LdImm);
    OneMore(p, input, 1, r.(a := v), 4, Tax);
    OneMore(p, input, 2, r.(a := v, x := v), 3, LdImm);
    OneMore(p, input, 3, r.(a := w, x := v), 2, Txa);
    OneMore(p, input, 4, r.(a := v, x := v), 1, RetA);
  }

  /** Scratch words: with v stored from the index register in word i and w from the accumulator in
      word j, word i read into the accumulator gives v, unless it is the same word. */
  lemma {:induction false} ScratchReturns(v: u32, w: u32, i: nat, j: nat, input: Input, r: Regs)
    requires Sane(input, r) && i < MEMWORDS && j < MEMWORDS
    ensures Run([Insn(LDX + IMM, 0, 0, v), Insn(STX, 0, 0, i), Insn(LD + IMM, 0, 0, w), Insn(ST, 0, 0, j),
                 Insn(LD + MEM, 0, 0, i), Insn(RET + RVAL_A, 0, 0, 0)], input, 0, r, 6)
         == Stopped(if i == j then w else v)
  {
    hide Run, Decode, Apply;
    DecodePlain();
    var p := [Insn(LDX + IMM, 0, 0, v), Insn(STX, 0, 0, i), Insn(LD + IMM, 0, 0, w), Insn(ST, 0, 0, j),
              Insn(LD + MEM, 0, 0, i), Insn(RET + RVAL_A, 0, 0, 0)];
    var r1 := r.(x := v);
    var r2 := r1.(mem := r.mem[i := v]);
    var r3 := r2.(a := w);
    var r4 := r3.(mem := r3.mem[j := w]);
    var r5 := r4.(a := r4.mem[i]);
    ApplyPlain(v, input, r);
    ApplyPlain(i, input, r1);
    ApplyPlain(w, input, r2);
    ApplyPlain(j, input, r3);
    ApplyPlain(i, input, r4);
    ApplyPlain(0, input, r5);
    OneMore(p, input, 0, r, 6, LdxImm);
    OneMore(p, input, 1, r1, 5, Stx);
    OneMore(p, input, 2, r2, 4, LdImm);
    OneMore(p, input, 3, r3, 3, St);
    OneMore(p, input, 4, r4, 2, LdMem);
    OneMore(p, input, 5, r5, 1, RetA);
  }

  /** The loads, stores and returns that look at registers only. */
  lemma {:induction false} ApplyPlain(k: u32, input: Input, r: Regs)
    requires Sane(input, r)
    ensures Apply(LdImm, k, input.pkt, input.wirelen, r) == Go(r.(a := k))
    ensures Apply(LdxImm, k, input.pkt, input.wirelen, r) == Go(r.(x := k))
    ensures Apply(RetA, k, input.pkt, input.wirelen, r) == Stop(r.a)
    ensures k < MEMWORDS ==>
      && Apply(St, k, input.pkt, input.wirelen, r) == Go(r.(mem := r.mem[k := r.a]))
      && Apply(Stx, k, input.pkt, input.wirelen, r) == Go(r.(mem := r.mem[k := r.x]))
      && Apply(LdMem, k, input.pkt, input.wirelen, r) == Go(r.(a := r.mem[k]))
  {
  }

  /** `ld #a; ldx #b; op; ret a`, the operand from the index register or from the instruction: the
      value the operator means; a zero divisor in the index register returns 0. */
  lemma {:induction false} OperatorReturns(op: Arith, a: u32, b: u32, withX: bool, input: Input, r: Regs)
    requires Sane(input, r)
    requires !withX ==> (op in {Div, Mod} ==> b != 0) && (op in {Lsh, Rsh} ==> b < 32)
    ensures var prog := [Insn(LD + IMM, 0, 0, a), Insn(LDX + IMM, 0, 0, b),
                         Insn(ALU + (if withX then X else K) + ArithCode(op), 0, 0, if withX then 0 else b),
                         Insn(RET + RVAL_A, 0, 0, 0)];
            var m := Run(prog, input, 0, r, 4);
            m.Stopped? && if op in {Div, Mod} && b == 0 then m.value == 0 else Means(op, a, b, m.value)
  {
    hide Run, Calculate, Decode;
    var code := ALU + (if withX then X else K) + ArithCode(op);
    var prog := [Insn(LD + IMM, 0, 0, a), Insn(LDX + IMM, 0, 0, b),
                 Insn(code, 0, 0, if withX then 0 else b), Insn(RET + RVAL_A, 0, 0, 0)];
    DecodePlain();
    DecodeCalc(op, withX);
    OneMore(prog, input, 0, r, 4, LdImm);
    OneMore(prog, input, 1, r.(a := a), 3, LdxImm);
    var r1 := r.(a := a, x := b);
    OneMore(prog, input, 2, r1, 2, Calc(op, withX));
    if !(op in {Div, Mod} && b == 0) {
      CalculateMeans(op, a, b);
      hide Means;
      OneMore(prog, input, 3, r1.(a := Calculate(op, a, b)), 1, RetA);
    }
  }

  lemma {:induction false} DecodeCalc(op: Arith, withX: bool)
    ensures Decode(ALU + (if withX then X else K) + ArithCode(op)) == Calc(op, withX)
  {
    var src := if withX then X else K;
    assert (ALU + src + ArithCode(op)) % 8 == ALU;
    assert ALU + src + ArithCode(op) != ALU + OP_NEG;
    hide DecodeLd, DecodeLdx, DecodeJump;
  }

  lemma {:induction false} DecodePlain()
    ensures Decode(LD + IMM) == LdImm && Decode(LDX + IMM) == LdxImm && Decode(RET + RVAL_A) == RetA
    ensures Decode(RET + K) == RetK && Decode(STX) == Stx && Decode(ST) == St && Decode(LD + MEM) == LdMem
    ensures Decode(MISC + TAX) == Tax && Decode(MISC + TXA) == Txa
  {
  }

  lemma {:induction false} DecodeBranch(cmp: Compare, withX: bool)
    ensures Decode(JMP + (if withX then X else K) + CompareCode(cmp)) == Branch(cmp, withX)
  {
  }

  /** What a comparison says, in the operands' own terms. */
  ghost predicate Says(cmp: Compare, a: u32, b: u32) {
    match cmp
    case Eq => a == b
    case Gt => a > b
    case Ge => a >= b
    case Set => exists i: nat :: i < 32 && Bits.Bit(a, i) == 1 && Bits.Bit(b, i) == 1
  }

  /** `ld #a; ldx #b; jump 0, 1; ret yes; ret no`, the operand from either place: `yes` exactly when
      the comparison holds. */
  lemma {:induction false} BranchReturns(
      cmp: Compare, a: u32, b: u32, withX: bool, yes: u32, no: u32, input: Input, r: Regs)
    requires Sane(input, r)
    ensures var prog := [Insn(LD + IMM, 0, 0, a), Insn(LDX + IMM, 0, 0, b),
                         Insn(JMP + (if withX then X else K) + CompareCode(cmp), 0, 1, if withX then 0 else b),
                         Insn(RET + K, 0, 0, yes), Insn(RET + K, 0, 0, no)];
            Run(prog, input, 0, r, 4) == Stopped(if Says(cmp, a, b) then yes else no)
  {
    hide Run, Decode, Holds, Says;
    var code := JMP + (if withX then X else K) + CompareCode(cmp);
    var prog := [Insn(LD + IMM, 0, 0, a), Insn(LDX + IMM, 0, 0, b), Insn(code, 0, 1, if withX then 0 else b),
                 Insn(RET + K, 0, 0, yes), Insn(RET + K, 0, 0, no)];
    DecodePlain();
    DecodeBranch(cmp, withX);
    OneMore(prog, input, 0, r, 4, LdImm);
    OneMore(prog, input, 1, r.(a := a), 3, LdxImm);
    var r1 := r.(a := a, x := b);
    RunUnfolds(prog, input, 2, r1, 2);
    HoldsSays(cmp, a, b);
    if Holds(cmp, a, b) { OneMore(prog, input, 3, r1, 1, RetK); } else { OneMore(prog, input, 4, r1, 1, RetK); }
  }

  lemma {:induction false} HoldsSays(cmp: Compare, a: u32, b: u32)
    ensures Holds(cmp, a, b) <==> Says(cmp, a, b)
  {
    if cmp == Set {
      SetMeans(a, b);
    }
  }

  /** `ja k` skips k instructions. */
  lemma {:induction false} JumpReturns(k: u32, tail: seq<Insn>, v: u32, input: Input, r: Regs)
    requires Sane(input, r) && k < HALF && k < |tail| && tail[k] == Insn(RET + K, 0, 0, v)
    ensures Run([Insn(JMP + OP_JA, 0, 0, k)] + tail, input, 0, r, 2) == Stopped(v)
  {
    hide Run;
    var prog := [Insn(JMP + OP_JA, 0, 0, k)] + tail;
    RunUnfolds(prog, input, 0, r, 2);
    OneMore(prog, input, k + 1, r, 1, RetK);
  }
}
