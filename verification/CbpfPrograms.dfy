/**
 What each raw instruction does, opcode by opcode as the encoding numbers them,
 and what the smallest filters match.
 */
module CbpfPrograms {
  import opened Common
  import opened Cbpf
  import opened CbpfAlu
  import opened CbpfVm

  /** What one raw instruction does where it stands; nothing if it is none, or names a slot there is not. */
  ghost function Effect(insn: Insn, packet: Packet, pc: nat, m: Machine): Option<Next>
    requires |m.mem| == MEMWORDS
  {
    if Decode(insn).None? || !Fits(Decode(insn).value, pc, pc + 2 + insn.k + insn.jt + insn.jf) then None
    else Some(Advance(Decode(insn).value, pc, m, packet))
  }

  // ----- jumps -----

  /** The condition each jump opcode stands for. */
  function Test(code: nat): Option<Condition> {
    match code
    case 0x15 => Some(Equal) case 0x1d => Some(Equal)
    case 0x25 => Some(Greater) case 0x2d => Some(Greater)
    case 0x35 => Some(GreaterOrEqual) case 0x3d => Some(GreaterOrEqual)
    case 0x45 => Some(SharesBits) case 0x4d => Some(SharesBits)
    case _ => None
  }

  lemma JumpEncodings(insn: Insn)
    requires Test(insn.code).Some?
    ensures Decode(insn) == Some(Branch(
      Test(insn.code).value, if insn.code in {0x15, 0x25, 0x35, 0x45} then Constant(insn.k) else Index,
      insn.jt, insn.jf))
  {
  }

  /** What a conditional jump asks, opcode by opcode. */
  ghost predicate Asks(code: nat, a: word, rhs: word) {
    match code
    case 0x15 => a == rhs case 0x1d => a == rhs
    case 0x25 => a > rhs case 0x2d => a > rhs
    case 0x35 => a >= rhs case 0x3d => a >= rhs
    case 0x45 => SomeBitInBoth(a, rhs) case 0x4d => SomeBitInBoth(a, rhs)
    case _ => false
  }

  ghost predicate SomeBitInBoth(a: word, b: word) {
    exists i :: 0 <= i < 32 && Bit(a, i) && Bit(b, i)
  }

  lemma ConditionMeans(code: nat, a: word, rhs: word)
    requires Test(code).Some?
    ensures Holds(Test(code).value, a, rhs) <==> Asks(code, a, rhs)
  {
    SharesBit(a, rhs);
  }

  /** Where a conditional jump goes. */
  ghost function Target(insn: Insn, pc: nat, m: Machine): nat {
    var rhs := if insn.code in {0x15, 0x25, 0x35, 0x45} then insn.k else m.x;
    pc + 1 + if Asks(insn.code, m.a, rhs) then insn.jt else insn.jf
  }

  /**
   `jeq`, `jgt`, `jge` and `jset`, with a constant or with the index register:
   to `jt` if the answer is yes, and otherwise to `jf`.
   */
  lemma Jumps(insn: Insn, packet: Packet, pc: nat, m: Machine)
    requires |m.mem| == MEMWORDS && Test(insn.code).Some?
    ensures Effect(insn, packet, pc, m) == Some(Continue(Target(insn, pc, m), m))
  {
    JumpEncodings(insn);
    ConditionMeans(insn.code, m.a, Value(m, Decode(insn).value.rhs));
  }

  /** `ja` */
  lemma JumpsAlways(insn: Insn, packet: Packet, pc: nat, m: Machine)
    requires |m.mem| == MEMWORDS && insn.code == 0x05
    ensures Effect(insn, packet, pc, m) == Some(Continue(pc + 1 + insn.k, m))
  {
    assert Decode(insn) == Some(Goto(insn.k));
  }

  lemma {:induction false} NoBitIsZero(n: nat, a: nat)
    requires a < TwoTo(n) && forall i :: 0 <= i < n ==> !Bit(a, i)
    ensures a == 0
  {
    if n > 0 {
      assert !Bit(a, 0);
      forall i | 0 <= i < n - 1
        ensures !Bit(a / 2, i)
      {
        assert !Bit(a, i + 1);
      }
      NoBitIsZero(n - 1, a / 2);
    }
  }

  lemma {:induction false} ZeroHasNoBit(i: nat)
    ensures !Bit(0, i)
  {
    if i > 0 {
      ZeroHasNoBit(i - 1);
    }
  }

  lemma SharesBit(a: word, b: word)
    ensures BitAnd(a, b) != 0 <==> SomeBitInBoth(a, b)
  {
    var both := Bitwise(BothSet, a, b, WORD_RANGE);
    BitwiseJoins(BothSet, a, b);
    WordIsThirtyTwoBits();
    assert Joins(both, a, b, BothSet);
    if both == 0 {
      forall i | 0 <= i < 32
        ensures !(Bit(a, i) && Bit(b, i))
      {
        ZeroHasNoBit(i);
      }
    } else if forall i :: 0 <= i < 32 ==> !Bit(both, i) {
      NoBitIsZero(32, both);
    } else {
      var i :| 0 <= i < 32 && Bit(both, i);
      assert Bit(both, i) == BothSet(Bit(a, i), Bit(b, i));
    }
  }

  // ----- returns, registers and scratch memory -----

  /** `ret #k` and `ret a` */
  lemma Returns(insn: Insn, packet: Packet, pc: nat, m: Machine)
    requires |m.mem| == MEMWORDS && insn.code in {0x06, 0x16}
    ensures Effect(insn, packet, pc, m) == Some(Halt(Returned(if insn.code == 0x06 then insn.k else m.a)))
  {
    assert Decode(insn) == Some(Return(insn.code == 0x16, insn.k));
  }

  lemma MoveEncodings(insn: Insn)
    ensures insn.code == 0x07 ==> Decode(insn) == Some(CopyToX)
    ensures insn.code == 0x87 ==> Decode(insn) == Some(CopyToA)
    ensures insn.code == 0x00 ==> Decode(insn) == Some(Load(false, Immediate, insn.k))
    ensures insn.code == 0x01 ==> Decode(insn) == Some(Load(true, Immediate, insn.k))
    ensures insn.code == 0x80 ==> Decode(insn) == Some(Load(false, Length, insn.k))
    ensures insn.code == 0x81 ==> Decode(insn) == Some(Load(true, Length, insn.k))
  {
  }

  /** `tax`, `txa`, `ld #k`, `ldx #k`, `ld #len` and `ldx #len` */
  lemma Moves(insn: Insn, packet: Packet, pc: nat, m: Machine)
    requires |m.mem| == MEMWORDS && insn.code in {0x07, 0x87, 0x00, 0x01, 0x80, 0x81}
    ensures
      Effect(insn, packet, pc, m) == Some(Continue(pc + 1,
        match insn.code
        case 0x07 => Machine(m.a, m.a, m.mem)
        case 0x87 => Machine(m.x, m.x, m.mem)
        case 0x00 => Machine(insn.k, m.x, m.mem)
        case 0x01 => Machine(m.a, insn.k, m.mem)
        case 0x80 => Machine(packet.len, m.x, m.mem)
        case _ => Machine(m.a, packet.len, m.mem)))
  {
    MoveEncodings(insn);
  }

  lemma SlotEncodings(insn: Insn)
    ensures insn.code == 0x02 ==> Decode(insn) == Some(Store(false, insn.k))
    ensures insn.code == 0x03 ==> Decode(insn) == Some(Store(true, insn.k))
    ensures insn.code == 0x60 ==> Decode(insn) == Some(Load(false, Scratch, insn.k))
    ensures insn.code == 0x61 ==> Decode(insn) == Some(Load(true, Scratch, insn.k))
  {
  }

  /** `st`, `stx`, `ld M[k]` and `ldx M[k]`: there are sixteen slots, and nothing else changes. */
  lemma Remembers(insn: Insn, packet: Packet, pc: nat, m: Machine)
    requires |m.mem| == 16 && insn.code in {0x02, 0x03, 0x60, 0x61}
    ensures insn.k >= 16 ==> Effect(insn, packet, pc, m) == None
    ensures insn.k < 16 ==>
      Effect(insn, packet, pc, m) == Some(Continue(pc + 1,
        match insn.code
        case 0x02 => Machine(m.a, m.x, m.mem[insn.k := m.a])
        case 0x03 => Machine(m.a, m.x, m.mem[insn.k := m.x])
        case 0x60 => Machine(m.mem[insn.k], m.x, m.mem)
        case _ => Machine(m.a, m.mem[insn.k], m.mem)))
  {
    SlotEncodings(insn);
  }

  // ----- packet loads -----

  /** The packet has this byte at `at`. */
  predicate Byte(packet: Packet, at: nat, b: nat) {
    at < packet.len && packet.bytes(at) == Some(b)
  }

  /** How many bytes the packet loads take, absolute and indexed. */
  function Taken(code: nat): width {
    match code
    case 0x30 => 1 case 0x50 => 1
    case 0x28 => 2 case 0x48 => 2
    case 0x20 => 4 case 0x40 => 4
    case _ => 0
  }

  /** Where they find them: at `k`, or counted on from the index register. */
  function Offset(insn: Insn, m: Machine): nat {
    if insn.code in {0x50, 0x48, 0x40} then insn.k + m.x else insn.k
  }

  lemma LoadEncodings(insn: Insn)
    requires Taken(insn.code) > 0
    ensures Decode(insn) == Some(Load(
      false, if insn.code in {0x50, 0x48, 0x40} then Indexed(Taken(insn.code)) else Absolute(Taken(insn.code)), insn.k))
  {
  }

  lemma WordInOrder(packet: Packet, at: nat, taken: width, b0: u8, b1: u8, b2: u8, b3: u8)
    requires taken in {1, 2, 4} && Byte(packet, at, b0)
    requires taken >= 2 ==> Byte(packet, at + 1, b1)
    requires taken == 4 ==> Byte(packet, at + 2, b2) && Byte(packet, at + 3, b3)
    ensures
      var n: nat :=
        if taken == 1 then b0
        else if taken == 2 then b0 * 0x100 + b1
        else b0 * 0x100_0000 + b1 * 0x1_0000 + b2 * 0x100 + b3;
      LoadWord(packet, at, taken) == Some(n)
  {
    BytesInOrder(packet.bytes, at, b0, b1, b2, b3);
  }

  /** `ldb`, `ldh` and `ld` read bytes that are there in network order. */
  lemma LoadsBytes(insn: Insn, packet: Packet, pc: nat, m: Machine, b0: u8, b1: u8, b2: u8, b3: u8)
    requires |m.mem| == MEMWORDS && Taken(insn.code) > 0
    requires
      var (at, taken) := (Offset(insn, m), Taken(insn.code));
      && at < 0x1_0000_0000 && Byte(packet, at, b0)
      && (taken >= 2 ==> Byte(packet, at + 1, b1))
      && (taken == 4 ==> Byte(packet, at + 2, b2) && Byte(packet, at + 3, b3))
    ensures
      var taken := Taken(insn.code);
      var n: nat :=
        if taken == 1 then b0
        else if taken == 2 then b0 * 0x100 + b1
        else b0 * 0x100_0000 + b1 * 0x1_0000 + b2 * 0x100 + b3;
      n < WORD_RANGE && Effect(insn, packet, pc, m) == Some(Continue(pc + 1, Machine(n, m.x, m.mem)))
  {
    LoadEncodings(insn);
    WordInOrder(packet, Offset(insn, m), Taken(insn.code), b0, b1, b2, b3);
  }

  /** A load that reaches past the packet, past 2^32 or to a byte that cannot be read ends without a match. */
  lemma LoadsFail(insn: Insn, packet: Packet, pc: nat, m: Machine, i: nat)
    requires |m.mem| == MEMWORDS && i < Taken(insn.code)
    requires var at := Offset(insn, m); at >= 0x1_0000_0000 || at + i >= packet.len || packet.bytes(at + i).None?
    ensures
      var n := Effect(insn, packet, pc, m);
      n.Some? && n.value.Halt? && !Matches(n.value.outcome)
  {
    LoadEncodings(insn);
    var at := Offset(insn, m);
    if packet.bytes(at + i).None? {
      MissingByte(packet.bytes, at, i);
    }
  }

  /** `ldxb 4*([k]&0xf)`: the low four bits of the byte, in units of four bytes. */
  lemma LoadsHeaderLength(insn: Insn, packet: Packet, pc: nat, m: Machine, b: u8)
    requires |m.mem| == MEMWORDS && insn.code == 0xb1 && Byte(packet, insn.k, b)
    ensures Effect(insn, packet, pc, m) == Some(Continue(pc + 1, Machine(m.a, 4 * (b % 16), m.mem)))
  {
    assert Decode(insn) == Some(Load(true, HeaderLength, insn.k));
    BytesInOrder(packet.bytes, insn.k, b, 0, 0, 0);
  }

  lemma BytesInOrder(bytes: nat -> Option<u8>, at: nat, b0: nat, b1: nat, b2: nat, b3: nat)
    requires bytes(at) == Some(b0)
    ensures LoadBytes(bytes, at, 1) == Some(b0)
    ensures bytes(at + 1) == Some(b1) ==> LoadBytes(bytes, at, 2) == Some(b0 * 0x100 + b1)
    ensures bytes(at + 1) == Some(b1) && bytes(at + 2) == Some(b2) && bytes(at + 3) == Some(b3) ==>
      LoadBytes(bytes, at, 4) == Some(b0 * 0x100_0000 + b1 * 0x1_0000 + b2 * 0x100 + b3)
  {
    assert LoadBytes(bytes, at, 0) == Some(0);
    assert bytes(at + 1) == Some(b1) ==> LoadBytes(bytes, at, 2) == Some(b0 * 0x100 + b1);
    assert bytes(at + 1) == Some(b1) && bytes(at + 2) == Some(b2) ==>
      LoadBytes(bytes, at, 3) == Some((b0 * 0x100 + b1) * 0x100 + b2);
  }

  lemma {:induction false} MissingByte(bytes: nat -> Option<u8>, at: nat, i: nat)
    requires bytes(at + i).None?
    ensures i < 1 ==> LoadBytes(bytes, at, 1).None?
    ensures i < 2 ==> LoadBytes(bytes, at, 2).None?
    ensures i < 4 ==> LoadBytes(bytes, at, 4).None?
  {
    assert i < 1 ==> LoadBytes(bytes, at, 1).None?;
    assert i < 2 ==> LoadBytes(bytes, at, 2).None?;
    assert i < 3 ==> LoadBytes(bytes, at, 3).None?;
  }

  // ----- arithmetic -----

  /** The operation each opcode stands for, with a constant or with the index register on the right. */
  function Operation(code: nat): Option<ArithOp> {
    match code
    case 0x04 => Some(Add) case 0x0c => Some(Add)
    case 0x14 => Some(Sub) case 0x1c => Some(Sub)
    case 0x24 => Some(Mul) case 0x2c => Some(Mul)
    case 0x34 => Some(Div) case 0x3c => Some(Div)
    case 0x44 => Some(Or) case 0x4c => Some(Or)
    case 0x54 => Some(And) case 0x5c => Some(And)
    case 0x64 => Some(LeftShift) case 0x6c => Some(LeftShift)
    case 0x74 => Some(RightShift) case 0x7c => Some(RightShift)
    case 0x84 => Some(Negate)
    case 0x94 => Some(Mod) case 0x9c => Some(Mod)
    case 0xa4 => Some(Xor) case 0xac => Some(Xor)
    case _ => None
  }

  lemma OperationEncodings(code: u16)
    requires Operation(code).Some?
    ensures Class(code) == ALU && DecodeArith(Op(code)) == Operation(code)
  {
  }

  lemma ArithmeticEncodings(insn: Insn)
    requires Operation(insn.code).Some?
    ensures Decode(insn) == Some(Arith(
      Operation(insn.code).value, if insn.code / 8 % 2 == 1 then Index else Constant(insn.k)))
  {
    OperationEncodings(insn.code);
  }

  /** The accumulator becomes what the operation means; a zero divisor ends the program without a match. */
  lemma Computes(insn: Insn, packet: Packet, pc: nat, m: Machine) returns (r: Option<word>)
    requires |m.mem| == MEMWORDS && Operation(insn.code).Some?
    ensures Means(Operation(insn.code).value, m.a, if insn.code / 8 % 2 == 1 then m.x else insn.k, r)
    ensures Effect(insn, packet, pc, m)
      == Some(if r.Some? then Continue(pc + 1, Machine(r.value, m.x, m.mem)) else Halt(Faulted(DivisionByZero)))
  {
    var rhs := if insn.code / 8 % 2 == 1 then m.x else insn.k;
    ArithmeticEncodings(insn);
    r := Compute(Operation(insn.code).value, m.a, rhs);
    ComputeMeans(Operation(insn.code).value, m.a, rhs);
  }

  /** The encodings that are no instruction: modes, sizes and operations the fields of the opcode leave over. */
  lemma NoInstruction(insn: Insn)
    requires
      var (kind, size, mode, op) := (insn.code % 8, insn.code / 8 % 4, insn.code / 32 % 8, insn.code / 16 % 16);
      || (kind == 0 && mode > 4) || (kind == 1 && mode > 5)
      || (kind < 2 && mode in {1, 2} && size == 3) || (kind == 1 && mode == 5 && size == 3)
      || (kind == 4 && op > 10) || (kind == 5 && op > 4)
      || (kind == 6 && size % 2 == 1) || (kind == 7 && insn.code / 8 % 32 !in {0, 16})
    ensures Decode(insn) == None
  {
  }

  // ----- programs -----

  /** What an accepted program comes to from here on. */
  ghost function From(insns: seq<Insn>, packet: Packet, pc: nat, m: Machine): Outcome
    requires Accepts(insns) && pc < |insns| && |m.mem| == MEMWORDS
  {
    AcceptsExactlyClosedPrograms(insns);
    Reference(Decoded(insns), packet, pc, m)
  }

  /** The verdict of `RunCbpf` on an accepted program. */
  ghost predicate Passes(insns: seq<Insn>, packet: Packet)
    requires Accepts(insns)
  {
    Matches(From(insns, packet, 0, Machine(0, 0, Zeros())))
  }

  lemma FitsAlike(i: Instruction, insn: Insn, pc: nat, len: nat)
    requires Decode(insn) == Some(i) && Fits(i, pc, len)
    ensures Fits(i, pc, pc + 2 + insn.k + insn.jt + insn.jf)
  {
  }

  /** In an accepted program every instruction has its effect, and the program goes on from there. */
  lemma GoesOn(insns: seq<Insn>, packet: Packet, pc: nat, m: Machine)
    requires Accepts(insns) && pc < |insns| && |m.mem| == MEMWORDS
    ensures
      var n := Effect(insns[pc], packet, pc, m);
      && n.Some?
      && (n.value.Halt? ==> From(insns, packet, pc, m) == n.value.outcome)
      && (n.value.Continue? ==>
            && pc < n.value.pc < |insns| && |n.value.m.mem| == MEMWORDS
            && From(insns, packet, pc, m) == From(insns, packet, n.value.pc, n.value.m))
  {
    AcceptsExactlyClosedPrograms(insns);
    var p := Decoded(insns);
    assert Fits(p[pc], pc, |p|) && Decode(insns[pc]) == Some(p[pc]);
    FitsAlike(p[pc], insns[pc], pc, |p|);
  }

  // ----- whole filters -----

  /** `ld #a; jX #k, 0, 1; ret #1; ret #0` */
  function AskConstant(code: u16, a: word, k: word): seq<Insn> {
    [Insn(0x00, 0, 0, a), Insn(code, 0, 1, k), Insn(0x06, 0, 0, 1), Insn(0x06, 0, 0, 0)]
  }

  /** `ldx #x; ld #a; jX x, 0, 1; ret #1; ret #0` */
  function AskIndex(code: u16, a: word, x: word): seq<Insn> {
    [Insn(0x01, 0, 0, x), Insn(0x00, 0, 0, a), Insn(code, 0, 1, 0), Insn(0x06, 0, 0, 1), Insn(0x06, 0, 0, 0)]
  }

  /** `ldh [12]; jeq #type, 0, 1; ret #262144; ret #0` */
  function AskEtherType(etherType: u16): seq<Insn> {
    [Insn(0x28, 0, 0, 12), Insn(0x15, 0, 1, etherType), Insn(0x06, 0, 0, 262144), Insn(0x06, 0, 0, 0)]
  }

  lemma EncodingsAreValid(insn: Insn, index: nat, len: nat)
    requires Decode(insn).Some? && Fits(Decode(insn).value, index, len)
    ensures ValidInstruction(index, len, insn)
  {
    ValidInstructionDecodes(index, len, insn);
  }

  /** A jump in front of `ret` of something and `ret #0`. */
  predicate EndsInVerdict(insns: seq<Insn>, pc: nat) {
    && |insns| == pc + 3 <= 8
    && Test(insns[pc].code).Some? && insns[pc].jt == 0 && insns[pc].jf == 1
    && insns[pc + 1].code == 0x06 && insns[pc + 1].k != 0 && insns[pc + 2] == Insn(0x06, 0, 0, 0)
  }

  lemma VerdictIsAccepted(insns: seq<Insn>, pc: nat)
    requires EndsInVerdict(insns, pc)
    requires forall i :: 0 <= i < pc ==> Taken(insns[i].code) > 0 || insns[i].code in {0x00, 0x01}
    ensures Accepts(insns)
  {
    forall i | 0 <= i < |insns|
      ensures ValidInstruction(i, |insns|, insns[i])
    {
      if i < pc {
        if Taken(insns[i].code) > 0 { LoadEncodings(insns[i]); } else { MoveEncodings(insns[i]); }
      } else if i == pc {
        JumpEncodings(insns[i]);
      } else {
        assert Decode(insns[i]) == Some(Return(false, insns[i].k));
      }
      EncodingsAreValid(insns[i], i, |insns|);
    }
  }

  lemma ReturnsHere(insns: seq<Insn>, packet: Packet, pc: nat, m: Machine)
    requires Accepts(insns) && pc < |insns| && |m.mem| == MEMWORDS && insns[pc].code == 0x06
    ensures Matches(From(insns, packet, pc, m)) <==> insns[pc].k != 0
  {
    Returns(insns[pc], packet, pc, m);
    GoesOn(insns, packet, pc, m);
  }

  lemma JumpsHere(insns: seq<Insn>, packet: Packet, pc: nat, m: Machine)
    requires Accepts(insns) && pc < |insns| && |m.mem| == MEMWORDS && Test(insns[pc].code).Some?
    ensures Target(insns[pc], pc, m) < |insns|
    ensures From(insns, packet, pc, m) == From(insns, packet, Target(insns[pc], pc, m), m)
  {
    Jumps(insns[pc], packet, pc, m);
    GoesOn(insns, packet, pc, m);
  }

  lemma VerdictIsAnswer(insns: seq<Insn>, packet: Packet, pc: nat, m: Machine)
    requires Accepts(insns) && EndsInVerdict(insns, pc) && |m.mem| == MEMWORDS
    ensures
      var rhs := if insns[pc].code in {0x15, 0x25, 0x35, 0x45} then insns[pc].k else m.x;
      Matches(From(insns, packet, pc, m)) <==> Asks(insns[pc].code, m.a, rhs)
  {
    JumpsHere(insns, packet, pc, m);
    ReturnsHere(insns, packet, pc + 1, m);
    ReturnsHere(insns, packet, pc + 2, m);
  }

  lemma ConstantFilter(code: u16, a: word, k: word, packet: Packet)
    requires code in {0x15, 0x25, 0x35, 0x45}
    ensures Accepts(AskConstant(code, a, k)) && (Passes(AskConstant(code, a, k), packet) <==> Asks(code, a, k))
  {
    var (insns, m) := (AskConstant(code, a, k), Machine(0, 0, Zeros()));
    VerdictIsAccepted(insns, 1);
    Moves(insns[0], packet, 0, m);
    GoesOn(insns, packet, 0, m);
    VerdictIsAnswer(insns, packet, 1, Machine(a, 0, m.mem));
  }

  /** The four comparisons with a constant. */
  lemma ConstantFilters(a: word, k: word, packet: Packet)
    ensures Accepts(AskConstant(0x15, a, k)) && (Passes(AskConstant(0x15, a, k), packet) <==> a == k)
    ensures Accepts(AskConstant(0x25, a, k)) && (Passes(AskConstant(0x25, a, k), packet) <==> a > k)
    ensures Accepts(AskConstant(0x35, a, k)) && (Passes(AskConstant(0x35, a, k), packet) <==> a >= k)
    ensures Accepts(AskConstant(0x45, a, k)) && (Passes(AskConstant(0x45, a, k), packet) <==> SomeBitInBoth(a, k))
  {
    ConstantFilter(0x15, a, k, packet);
    ConstantFilter(0x25, a, k, packet);
    ConstantFilter(0x35, a, k, packet);
    ConstantFilter(0x45, a, k, packet);
  }

  lemma IndexFilter(code: u16, a: word, x: word, packet: Packet)
    requires code in {0x1d, 0x2d, 0x3d, 0x4d}
    ensures Accepts(AskIndex(code, a, x)) && (Passes(AskIndex(code, a, x), packet) <==> Asks(code, a, x))
  {
    var (insns, m) := (AskIndex(code, a, x), Machine(0, 0, Zeros()));
    VerdictIsAccepted(insns, 2);
    Moves(insns[0], packet, 0, m);
    GoesOn(insns, packet, 0, m);
    Moves(insns[1], packet, 1, Machine(0, x, m.mem));
    GoesOn(insns, packet, 1, Machine(0, x, m.mem));
    VerdictIsAnswer(insns, packet, 2, Machine(a, x, m.mem));
  }

  /** The same comparisons with the index register. */
  lemma IndexFilters(a: word, x: word, packet: Packet)
    ensures Accepts(AskIndex(0x1d, a, x)) && (Passes(AskIndex(0x1d, a, x), packet) <==> a == x)
    ensures Accepts(AskIndex(0x2d, a, x)) && (Passes(AskIndex(0x2d, a, x), packet) <==> a > x)
    ensures Accepts(AskIndex(0x3d, a, x)) && (Passes(AskIndex(0x3d, a, x), packet) <==> a >= x)
    ensures Accepts(AskIndex(0x4d, a, x)) && (Passes(AskIndex(0x4d, a, x), packet) <==> SomeBitInBoth(a, x))
  {
    IndexFilter(0x1d, a, x, packet);
    IndexFilter(0x2d, a, x, packet);
    IndexFilter(0x3d, a, x, packet);
    IndexFilter(0x4d, a, x, packet);
  }

  /** The filter for an EtherType passes the frames that carry it, and no others. */
  lemma EtherTypeFilter(etherType: u16, packet: Packet, high: u8, low: u8)
    requires packet.bytes(12) == Some(high) && packet.bytes(13) == Some(low)
    ensures Accepts(AskEtherType(etherType))
    ensures Passes(AskEtherType(etherType), packet) <==> packet.len >= 14 && 256 * high + low == etherType
  {
    var (insns, m) := (AskEtherType(etherType), Machine(0, 0, Zeros()));
    VerdictIsAccepted(insns, 1);
    if packet.len >= 14 {
      LoadsBytes(insns[0], packet, 0, m, high, low, 0, 0);
      GoesOn(insns, packet, 0, m);
      VerdictIsAnswer(insns, packet, 1, Machine(high * 0x100 + low, 0, m.mem));
    } else {
      LoadsFail(insns[0], packet, 0, m, 1);
      GoesOn(insns, packet, 0, m);
    }
  }
}
