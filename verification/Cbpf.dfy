/**
 Classic BPF packet filters: the raw encoding, the validator that runs before a
 program is handed to the kernel, the step-bounded interpreter in the kernel, and
 the plain semantics of structured programs both are compared with.
 */
module Cbpf {
  import opened Common

  const WORD_RANGE: nat := 0x1_0000_0000

  type width = x: nat | x <= 4
  type u8 = x: nat | x < 0x100
  type u16 = x: nat | x < 0x1_0000
  type word = x: nat | x < WORD_RANGE

  const MAX_INSNS: nat := 4096
  const MEMWORDS: nat := 16

  datatype Insn = Insn(code: u16, jt: u8, jf: u8, k: word)

  // The fields of an opcode: `code & 0x07`, `code & 0x18`, `code & 0xe0`, `code & 0xf0` and `code & 0xf8`.
  function Class(code: u16): nat { code % 8 }
  function Size(code: u16): nat { code / 8 % 4 * 8 }
  function Mode(code: u16): nat { code / 32 % 8 * 32 }
  function Op(code: u16): nat { code / 16 % 16 * 16 }
  function Misc(code: u16): nat { code / 8 % 32 * 8 }
  predicate UsesX(code: u16) { code / 8 % 2 == 1 }

  const LD: nat := 0
  const LDX: nat := 1
  const ST: nat := 2
  const STX: nat := 3
  const ALU: nat := 4
  const JMP: nat := 5
  const RET: nat := 6
  const MISC: nat := 7

  // ----- structured programs -----

  datatype Mode' = Immediate | Length | Scratch | Absolute(bytes: width) | Indexed(bytes: width) | HeaderLength
  datatype ArithOp = Add | Sub | Mul | Div | Or | And | LeftShift | RightShift | Negate | Mod | Xor
  datatype Condition = Equal | Greater | GreaterOrEqual | SharesBits
  datatype Operand = Constant(k: word) | Index

  datatype Instruction =
    | Load(intoX: bool, mode: Mode', k: word)
    | Store(fromX: bool, slot: word)
    | Arith(op: ArithOp, rhs: Operand)
    | Goto(skip: word)
    | Branch(condition: Condition, rhs: Operand, taken: u8, otherwise: u8)
    | Return(accumulator: bool, k: word)
    | CopyToX
    | CopyToA

  function Width(size: nat): Option<width> {
    if size == 0x00 then Some(4) else if size == 0x08 then Some(2) else if size == 0x10 then Some(1) else None
  }

  function DecodeMode(code: u16): Option<Mode'> {
    var mode := Mode(code);
    if mode == 0x00 then Some(Immediate)
    else if mode == 0x80 then Some(Length)
    else if mode == 0x60 then Some(Scratch)
    else if mode == 0x20 && Width(Size(code)).Some? then Some(Absolute(Width(Size(code)).value))
    else if mode == 0x40 && Width(Size(code)).Some? then Some(Indexed(Width(Size(code)).value))
    else if mode == 0xa0 && Class(code) == LDX && Width(Size(code)).Some? then Some(HeaderLength)
    else None
  }

  function DecodeArith(op: nat): Option<ArithOp> {
    if op == 0x00 then Some(Add) else if op == 0x10 then Some(Sub) else if op == 0x20 then Some(Mul)
    else if op == 0x30 then Some(Div) else if op == 0x40 then Some(Or) else if op == 0x50 then Some(And)
    else if op == 0x60 then Some(LeftShift) else if op == 0x70 then Some(RightShift)
    else if op == 0x80 then Some(Negate)
    else if op == 0x90 then Some(Mod) else if op == 0xa0 then Some(Xor) else None
  }

  function DecodeCondition(op: nat): Option<Condition> {
    if op == 0x10 then Some(Equal) else if op == 0x20 then Some(Greater)
    else if op == 0x30 then Some(GreaterOrEqual) else if op == 0x40 then Some(SharesBits) else None
  }

  function DecodeOperand(insn: Insn): Operand {
    if UsesX(insn.code) then Index else Constant(insn.k)
  }

  function Decode(insn: Insn): Option<Instruction> {
    var c := Class(insn.code);
    if c == LD || c == LDX then
      var mode := DecodeMode(insn.code);
      if mode.Some? then Some(Load(c == LDX, mode.value, insn.k)) else None
    else if c == ST || c == STX then Some(Store(c == STX, insn.k))
    else if c == ALU then
      var op := DecodeArith(Op(insn.code));
      if op.Some? then Some(Arith(op.value, DecodeOperand(insn))) else None
    else if c == JMP then
      if Op(insn.code) == 0 then Some(Goto(insn.k))
      else
        var condition := DecodeCondition(Op(insn.code));
        if condition.Some? then Some(Branch(condition.value, DecodeOperand(insn), insn.jt, insn.jf)) else None
    else if c == RET then
      if Size(insn.code) == 0x00 || Size(insn.code) == 0x10 then Some(Return(Size(insn.code) == 0x10, insn.k)) else None
    else if Misc(insn.code) == 0x00 then Some(CopyToX)
    else if Misc(insn.code) == 0x80 then Some(CopyToA)
    else None
  }

  /** A slot in the scratch memory, and a jump that stays inside a program of this length. */
  predicate Fits(i: Instruction, at: nat, len: nat) {
    match i
    case Load(_, mode, k) => mode.Scratch? ==> k < MEMWORDS
    case Store(_, slot) => slot < MEMWORDS
    case Goto(skip) => at + 1 + skip < len
    case Branch(_, _, taken, otherwise) => at + 1 + taken < len && at + 1 + otherwise < len
    case _ => true
  }

  /** Every slot exists, every jump lands inside, and the last instruction returns. */
  ghost predicate Closed(p: seq<Instruction>) {
    && p != []
    && p[|p| - 1].Return?
    && forall i :: 0 <= i < |p| ==> Fits(p[i], i, |p|)
  }

  // ----- the meaning of a structured program -----

  /** A packet: its length, and the bytes that can be read. */
  datatype Packet = Packet(len: word, bytes: nat -> Option<u8>)

  datatype Fault = BadLoad | IndexOverflow | DivisionByZero

  datatype Outcome = Returned(value: word) | Faulted(fault: Fault)

  datatype Machine = Machine(a: word, x: word, mem: seq<word>)

  /** The bytes from `offset` on in network order, when they lie in the packet and are readable. */
  function LoadWord(packet: Packet, offset: nat, width: width): Option<word> {
    if offset + width > packet.len then None else LoadBytes(packet.bytes, offset, width)
  }

  function LoadBytes(bytes: nat -> Option<u8>, offset: nat, width: width): (r: Option<word>)
    ensures r.Some? ==> r.value < ByteRange(width)
  {
    if width == 0 then Some(0)
    else
      var front := LoadBytes(bytes, offset, width - 1);
      var last := bytes(offset + width - 1);
      if front.None? || last.None? then None
      else
        var high: nat := front.value;
        Some(high * 0x100 + last.value)
  }

  function ByteRange(width: width): nat {
    if width == 0 then 1 else if width == 1 then 0x100 else if width == 2 then 0x1_0000
    else if width == 3 then 0x100_0000 else WORD_RANGE
  }

  // ----- 32-bit arithmetic -----

  /** The bits of both below `range`, joined one by one. */
  function Bitwise(join: (bool, bool) -> bool, a: nat, b: nat, range: nat): (r: nat)
    ensures range > 0 ==> r < range
    decreases range
  {
    if range <= 1 then 0
    else 2 * Bitwise(join, a / 2, b / 2, range / 2) + if join(a % 2 == 1, b % 2 == 1) then 1 else 0
  }

  predicate BothSet(x: bool, y: bool) { x && y }

  predicate EitherSet(x: bool, y: bool) { x || y }

  predicate OneSet(x: bool, y: bool) { x != y }

  function BitAnd(a: word, b: word): word {
    Bitwise(BothSet, a, b, WORD_RANGE)
  }

  function BitOr(a: word, b: word): word {
    Bitwise(EitherSet, a, b, WORD_RANGE)
  }

  function BitXor(a: word, b: word): word {
    Bitwise(OneSet, a, b, WORD_RANGE)
  }

  function ShiftLeft(a: word, n: nat): word
    decreases n
  {
    if n == 0 then a else ShiftLeft(2 * a % WORD_RANGE, n - 1)
  }

  function ShiftRight(a: word, n: nat): word
    decreases n
  {
    if n == 0 then a else ShiftRight(a / 2, n - 1)
  }

  function Compute(op: ArithOp, a: word, rhs: word): Option<word> {
    match op
    case Add => Some((a + rhs) % WORD_RANGE)
    case Sub => Some((a - rhs) % WORD_RANGE)
    case Mul => Some(a * rhs % WORD_RANGE)
    case Div => if rhs == 0 then None else Some(Quotient(a, rhs))
    case Mod => if rhs == 0 then None else Some(a % rhs)
    case Or => Some(BitOr(a, rhs))
    case And => Some(BitAnd(a, rhs))
    case Xor => Some(BitXor(a, rhs))
    case LeftShift => Some(ShiftLeft(a, rhs % 32))
    case RightShift => Some(ShiftRight(a, rhs % 32))
    case Negate => Some((0 - a) % WORD_RANGE)
  }

  /** Truncating division, by repeated subtraction. */
  function Quotient(a: nat, b: nat): (q: nat)
    requires b > 0
    ensures q <= a && q * b <= a < (q + 1) * b
  {
    if a < b then 0 else 1 + Quotient(a - b, b)
  }

  predicate Holds(condition: Condition, a: word, rhs: word) {
    match condition
    case Equal => a == rhs
    case Greater => a > rhs
    case GreaterOrEqual => a >= rhs
    case SharesBits => BitAnd(a, rhs) != 0
  }

  function Value(m: Machine, rhs: Operand): word {
    if rhs.Index? then m.x else rhs.k
  }

  /** What a load finds, or the fault it ends in. */
  function Fetch(mode: Mode', k: word, m: Machine, packet: Packet): Result<word, Fault>
    requires |m.mem| == MEMWORDS && (mode.Scratch? ==> k < MEMWORDS)
  {
    match mode
    case Immediate => Ok(k)
    case Length => Ok(packet.len)
    case Scratch => Ok(m.mem[k])
    case Absolute(width) => Loaded(LoadWord(packet, k, width))
    case Indexed(width) =>
      if k + m.x >= 0x1_0000_0000 then Err(IndexOverflow)
      else Loaded(LoadWord(packet, k + m.x, width))
    case HeaderLength =>
      var byte := LoadWord(packet, k, 1);
      if byte.None? then Err(BadLoad) else Ok(byte.value % 16 * 4)
  }

  function Loaded(r: Option<word>): Result<word, Fault> {
    if r.None? then Err(BadLoad) else Ok(r.value)
  }

  datatype Next = Continue(pc: nat, m: Machine) | Halt(outcome: Outcome)

  /** One instruction of a program: nothing is checked that the packet or the registers do not decide. */
  function Advance(i: Instruction, pc: nat, m: Machine, packet: Packet): (n: Next)
    requires |m.mem| == MEMWORDS && exists len :: Fits(i, pc, len)
    ensures n.Continue? ==> |n.m.mem| == MEMWORDS && n.pc > pc
    ensures forall len :: Fits(i, pc, len) && pc + 1 < len && n.Continue? ==> n.pc < len
  {
    match i
    case Return(accumulator, k) => Halt(Returned(if accumulator then m.a else k))
    case Goto(skip) => Continue(pc + 1 + skip, m)
    case Branch(condition, rhs, taken, otherwise) =>
      Continue(pc + 1 + (if Holds(condition, m.a, Value(m, rhs)) then taken else otherwise), m)
    case Load(intoX, mode, k) =>
      var r := Fetch(mode, k, m, packet);
      if r.Err? then Halt(Faulted(r.error))
      else Continue(pc + 1, if intoX then m.(x := r.value) else m.(a := r.value))
    case Store(fromX, slot) => Continue(pc + 1, m.(mem := m.mem[slot := if fromX then m.x else m.a]))
    case Arith(op, rhs) =>
      var r := Compute(op, m.a, Value(m, rhs));
      if r.None? then Halt(Faulted(DivisionByZero)) else Continue(pc + 1, m.(a := r.value))
    case CopyToX => Continue(pc + 1, m.(x := m.a))
    case CopyToA => Continue(pc + 1, m.(a := m.x))
  }

  /** Runs to a return or a fault, with no bound on the steps. */
  ghost function Reference(p: seq<Instruction>, packet: Packet, pc: nat, m: Machine): Outcome
    requires Closed(p) && pc < |p| && |m.mem| == MEMWORDS
    decreases |p| - pc
  {
    assert Fits(p[pc], pc, |p|);
    match Advance(p[pc], pc, m, packet)
    case Halt(outcome) => outcome
    case Continue(next, after) => Reference(p, packet, next, after)
  }

  /** A faulting program, like one that returns zero, does not match. */
  predicate Matches(o: Outcome) {
    o.Returned? && o.value != 0
  }

  // ----- the validator -----

  predicate IsSupported(code: u16) {
    var c, mode, size := Class(code), Mode(code), Size(code);
    if c == LD then
      && mode in {0x00, 0x20, 0x40, 0x60, 0x80}
      && (mode in {0x00, 0x60, 0x80} || size in {0x00, 0x08, 0x10})
    else if c == LDX then
      && mode in {0x00, 0x20, 0x40, 0x60, 0x80, 0xa0}
      && (mode in {0x00, 0x60, 0x80} || size in {0x00, 0x08, 0x10})
    else if c == ST || c == STX then true
    else if c == ALU then Op(code) in {0x00, 0x10, 0x20, 0x30, 0x40, 0x50, 0x60, 0x70, 0x80, 0x90, 0xa0}
    else if c == JMP then Op(code) in {0x00, 0x10, 0x20, 0x30, 0x40}
    else if c == RET then size in {0x00, 0x10}
    else Misc(code) in {0x00, 0x80}
  }

  predicate ValidTarget(index: nat, len: nat, relative: nat) {
    index + 1 + relative < len
  }

  predicate ValidInstruction(index: nat, len: nat, insn: Insn) {
    var c := Class(insn.code);
    && IsSupported(insn.code)
    && (c == JMP ==>
          if Op(insn.code) == 0 then ValidTarget(index, len, insn.k)
          else ValidTarget(index, len, insn.jt) && ValidTarget(index, len, insn.jf))
    && ((((c == LD || c == LDX) && Mode(insn.code) == 0x60) || c == ST || c == STX) ==> insn.k < MEMWORDS)
  }

  /** The array handed to the kernel: a length and a fixed number of slots. */
  datatype Program = Program(len: nat, slots: seq<Insn>)

  ghost predicate Accepts(insns: seq<Insn>) {
    && 0 < |insns| <= MAX_INSNS
    && (forall i :: 0 <= i < |insns| ==> ValidInstruction(i, |insns|, insns[i]))
    && Class(insns[|insns| - 1].code) == RET
  }

  method CompileForLinktype(insns: seq<Insn>) returns (r: Result<Program, ()>)
    ensures r.Ok? <==> Accepts(insns)
    ensures r.Ok? ==> |r.value.slots| == MAX_INSNS && r.value.len == |insns| && r.value.slots[..r.value.len] == insns
  {
    if insns == [] || |insns| > MAX_INSNS {
      return Err(());
    }
    var slots := seq(MAX_INSNS, _ => Insn(0, 0, 0, 0));
    for index := 0 to |insns|
      invariant |slots| == MAX_INSNS && slots[..index] == insns[..index]
      invariant forall i :: 0 <= i < index ==> ValidInstruction(i, |insns|, insns[i])
    {
      if !ValidInstruction(index, |insns|, insns[index]) {
        return Err(());
      }
      slots := slots[index := insns[index]];
    }
    if Class(slots[|insns| - 1].code) != RET {
      return Err(());
    }
    return Ok(Program(|insns|, slots));
  }
}
