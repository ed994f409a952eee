/** `run_cbpf`: the kernel's interpreter on raw instructions, against the plain semantics. */
module CbpfVm {
  import opened Common
  import opened Cbpf

  // ----- what acceptance means -----

  predicate AllDecode(insns: seq<Insn>) {
    forall i :: 0 <= i < |insns| ==> Decode(insns[i]).Some?
  }

  function Decoded(insns: seq<Insn>): (p: seq<Instruction>)
    requires AllDecode(insns)
    ensures |p| == |insns| && forall i :: 0 <= i < |insns| ==> p[i] == Decode(insns[i]).value
  {
    seq(|insns|, i requires 0 <= i < |insns| => Decode(insns[i]).value)
  }

  /** The mask tests accept exactly the encodings of instructions that fit where they stand. */
  lemma ValidInstructionDecodes(index: nat, len: nat, insn: Insn)
    ensures ValidInstruction(index, len, insn) <==> Decode(insn).Some? && Fits(Decode(insn).value, index, len)
  {
    ClassIsThreeBits(insn.code);
    if Class(insn.code) == JMP {
      var op := Op(insn.code);
      assert DecodeCondition(op).Some? <==> op in {0x10, 0x20, 0x30, 0x40};
    } else if Class(insn.code) == ALU {
      var op := Op(insn.code);
      assert DecodeArith(op).Some? <==> op in {0x00, 0x10, 0x20, 0x30, 0x40, 0x50, 0x60, 0x70, 0x80, 0x90, 0xa0};
    } else if Class(insn.code) == LD || Class(insn.code) == LDX {
      assert Width(Size(insn.code)).Some? <==> Size(insn.code) in {0x00, 0x08, 0x10};
    }
  }

  lemma ClassIsThreeBits(code: u16)
    ensures Class(code) in {LD, LDX, ST, STX, ALU, JMP, RET, MISC}
  {
  }

  /** The validator accepts a program exactly when it encodes a closed structured one of at most 4096 instructions. */
  lemma AcceptsExactlyClosedPrograms(insns: seq<Insn>)
    ensures Accepts(insns) <==> |insns| <= MAX_INSNS && AllDecode(insns) && Closed(Decoded(insns))
  {
    forall i | 0 <= i < |insns|
      ensures ValidInstruction(i, |insns|, insns[i])
        <==> Decode(insns[i]).Some? && Fits(Decode(insns[i]).value, i, |insns|)
    {
      ValidInstructionDecodes(i, |insns|, insns[i]);
    }
  }

  // ----- the interpreter -----

  method CbpfLoad(packet: Packet, offset: word, size: nat) returns (value: Option<word>)
    ensures value == if Width(size).None? then None else LoadWord(packet, offset, Width(size).value)
  {
    var width: width;
    if size == 0x10 {
      width := 1;
    } else if size == 0x08 {
      width := 2;
    } else if size == 0x00 {
      width := 4;
    } else {
      return None;
    }
    var len, at := packet.len, offset;
    if at > len || width > len - at {
      return None;
    }
    var bytes := packet.bytes;
    var b := bytes(at);
    assert LoadBytes(bytes, at, 1) == if b.None? then None else Some(b.value);
    if width == 1 {
      return if b.None? then None else Some(b.value);
    }
    var c := bytes(at + 1);
    if b.None? || c.None? {
      assert LoadBytes(bytes, at, 2) == None;
      assert width == 4 ==> LoadBytes(bytes, at, 3) == None;
      return None;
    }
    var high: nat := b.value;
    var low: nat := c.value;
    assert LoadBytes(bytes, at, 2) == Some(high * 0x100 + low);
    if width == 2 {
      return Some(high * 0x100 + low);
    }
    var d := bytes(at + 2);
    var e := bytes(at + 3);
    assert d.None? ==> LoadBytes(bytes, at, 3) == None;
    if d.None? || e.None? {
      return None;
    }
    var third: nat := d.value;
    var fourth: nat := e.value;
    assert LoadBytes(bytes, at, 3) == Some((high * 0x100 + low) * 0x100 + third);
    return Some(high * 0x100_0000 + low * 0x1_0000 + third * 0x100 + fourth);
  }

  /** The value an accepted load puts in a register, or nothing when the packet cannot supply it. */
  method LoadValue(insn: Insn, x: word, mem: array<word>, packet: Packet) returns (value: Option<word>)
    requires mem.Length == MEMWORDS && (Class(insn.code) == LD || Class(insn.code) == LDX)
    ensures Decode(insn).Some? && Fits(Decode(insn).value, 0, 0) ==>
      forall a :: value == Fetched(Fetch(Decode(insn).value.mode, insn.k, Machine(a, x, mem[..]), packet))
  {
    var mode := Mode(insn.code);
    if mode == 0x00 {
      return Some(insn.k);
    } else if mode == 0x80 {
      return Some(packet.len);
    } else if mode == 0x60 {
      if insn.k >= MEMWORDS {
        return None;
      }
      return Some(mem[insn.k]);
    } else if mode == 0x20 || mode == 0x40 || mode == 0xa0 {
      var offset := insn.k;
      if mode == 0x40 {
        if offset > 0xffff_ffff - x {
          return None;
        }
        offset := offset + x;
      }
      value := CbpfLoad(packet, offset, if mode == 0xa0 then 0x10 else Size(insn.code));
      if value.Some? && mode == 0xa0 {
        value := Some(value.value % 16 * 4);
      }
    } else {
      return None;
    }
  }

  function Fetched(r: Result<word, Fault>): Option<word> {
    if r.Ok? then Some(r.value) else None
  }

  method Alu(code: u16, a: word, rhs: word) returns (r: Option<word>)
    ensures DecodeArith(Op(code)).Some? ==> r == Compute(DecodeArith(Op(code)).value, a, rhs)
  {
    var op := Op(code);
    if op == 0x00 {
      return Some((a + rhs) % WORD_RANGE);
    } else if op == 0x10 {
      return Some((a - rhs) % WORD_RANGE);
    } else if op == 0x20 {
      return Some(a * rhs % WORD_RANGE);
    } else if op == 0x30 {
      return if rhs == 0 then None else Some(Quotient(a, rhs));
    } else if op == 0x40 {
      return Some(BitOr(a, rhs));
    } else if op == 0x50 {
      return Some(BitAnd(a, rhs));
    } else if op == 0x60 {
      return Some(ShiftLeft(a, rhs % 32));
    } else if op == 0x70 {
      return Some(ShiftRight(a, rhs % 32));
    } else if op == 0x80 {
      return Some((0 - a) % WORD_RANGE);
    } else if op == 0x90 {
      return if rhs == 0 then None else Some(a % rhs);
    } else if op == 0xa0 {
      return Some(BitXor(a, rhs));
    } else {
      return None;
    }
  }

  /** Where an accepted jump goes, or nothing when the operation or the target is bad. */
  method JumpTarget(program: Program, pc: nat, insn: Insn, a: word, x: word) returns (next: Option<nat>)
    requires pc < MAX_INSNS
    ensures next.Some? ==> pc < next.value < program.len && next.value < MAX_INSNS
    ensures Decode(insn).Some? && Fits(Decode(insn).value, pc, program.len) && program.len <= MAX_INSNS ==>
      match Decode(insn).value
      case Goto(skip) => next == Some(pc + 1 + skip)
      case Branch(condition, rhs, taken, otherwise) =>
        next == Some(pc + 1 + if Holds(condition, a, Value(Machine(a, x, []), rhs)) then taken else otherwise)
      case _ => true
  {
    var op := Op(insn.code);
    var target: word;
    if op == 0x00 {
      target := (pc + 1 + insn.k) % WORD_RANGE;
    } else {
      var rhs := if UsesX(insn.code) then x else insn.k;
      var condition: bool;
      if op == 0x10 {
        condition := a == rhs;
      } else if op == 0x20 {
        condition := a > rhs;
      } else if op == 0x30 {
        condition := a >= rhs;
      } else if op == 0x40 {
        condition := BitAnd(a, rhs) != 0;
      } else {
        return None;
      }
      target := pc + 1 + if condition then insn.jt else insn.jf;
    }
    if target <= pc || target >= program.len || target >= MAX_INSNS {
      return None;
    }
    return Some(target);
  }

  /** One turn of the loop: the next program counter, or the verdict it returns. */
  datatype Turn = Onward(pc: nat, a: word, x: word) | Stop(matched: bool)

  /** What a turn and the scratch memory it leaves should be. */
  predicate Agrees(turn: Turn, mem: seq<word>, spec: Next) {
    match spec
    case Halt(outcome) => turn == Stop(Matches(outcome))
    case Continue(pc, m) => turn == Onward(pc, m.a, m.x) && mem == m.mem
  }

  method TakeTurn(program: Program, packet: Packet, pc: nat, a: word, x: word, mem: array<word>) returns (turn: Turn)
    requires |program.slots| == MAX_INSNS && mem.Length == MEMWORDS
    modifies mem
    ensures
      (&& pc < program.len <= MAX_INSNS
       && Decode(program.slots[pc]).Some?
       && Fits(Decode(program.slots[pc]).value, pc, program.len)) ==>
      Agrees(turn, mem[..], Advance(Decode(program.slots[pc]).value, pc, Machine(a, x, old(mem[..])), packet))
  {
    if pc >= program.len || pc >= MAX_INSNS {
      return Stop(false);
    }
    var insn := program.slots[pc];
    var kind := Class(insn.code);
    if kind == LD || kind == LDX {
      var value := LoadValue(insn, x, mem, packet);
      if value.None? {
        return Stop(false);
      }
      return if kind == LD then Onward(pc + 1, value.value, x) else Onward(pc + 1, a, value.value);
    } else if kind == ST || kind == STX {
      if insn.k >= MEMWORDS {
        return Stop(false);
      }
      mem[insn.k] := if kind == ST then a else x;
      return Onward(pc + 1, a, x);
    } else if kind == ALU {
      var value := Alu(insn.code, a, if UsesX(insn.code) then x else insn.k);
      return if value.None? then Stop(false) else Onward(pc + 1, value.value, x);
    } else if kind == JMP {
      var next := JumpTarget(program, pc, insn, a, x);
      return if next.None? then Stop(false) else Onward(next.value, a, x);
    } else if kind == RET {
      return Stop((if Size(insn.code) == 0x10 then a else insn.k) != 0);
    } else if Misc(insn.code) == 0x00 {
      return Onward(pc + 1, a, a);
    } else if Misc(insn.code) == 0x80 {
      return Onward(pc + 1, x, x);
    } else {
      return Stop(false);
    }
  }

  /**
   For every accepted program the bounded, checked interpreter gives the plain
   meaning: no check on the program counter, a jump, a slot or an opcode ever
   fires, and the step bound is never reached.
   */
  method RunCbpf(program: Program, packet: Packet) returns (matched: bool)
    requires |program.slots| == MAX_INSNS
    ensures program.len <= MAX_INSNS && Accepts(program.slots[..program.len]) ==>
      && AllDecode(program.slots[..program.len])
      && Closed(Decoded(program.slots[..program.len]))
      && matched == Matches(Reference(Decoded(program.slots[..program.len]), packet, 0, Machine(0, 0, Zeros())))
  {
    ghost var accepted := program.len <= MAX_INSNS && Accepts(program.slots[..program.len]);
    ghost var p: seq<Instruction> := [];
    if accepted {
      AcceptsExactlyClosedPrograms(program.slots[..program.len]);
      p := Decoded(program.slots[..program.len]);
    }
    var a: word, x: word := 0, 0;
    var mem: array<word> := new word[MEMWORDS](_ => 0);
    assert mem[..] == Zeros();
    var pc: nat := 0;
    for steps := 0 to MAX_INSNS
      invariant accepted ==> Closed(p) && steps <= pc < |p| == program.len
      invariant accepted ==>
        Reference(p, packet, 0, Machine(0, 0, Zeros())) == Reference(p, packet, pc, Machine(a, x, mem[..]))
    {
      assert accepted ==>
        Decode(program.slots[pc]) == Some(p[pc]) && Fits(p[pc], pc, |p|) && (p[pc].Return? || pc + 1 < |p|);
      var turn := TakeTurn(program, packet, pc, a, x, mem);
      if turn.Stop? {
        return turn.matched;
      }
      pc, a, x := turn.pc, turn.a, turn.x;
    }
    return false;
  }

  function Zeros(): (z: seq<word>)
    ensures |z| == MEMWORDS && forall i :: 0 <= i < |z| ==> z[i] == 0
  {
    seq(MEMWORDS, _ => 0)
  }
}
