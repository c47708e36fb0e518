/**
 The instruction set from the writer's side: the bytes of each instruction as the table of
 PYRO_BYTECODE.md lays them out, and the decoder as their exact inverse. Bytes decode to an
 instruction if and only if they are its assembly, and a code section has one reading.
 */
module Assembler {
  import opened Common
  import opened Cursor
  import opened Isa
  import opened Container

  // ---- The table ----

  predicate IsI32(rel: int) {
    -0x8000_0000 <= rel < 0x8000_0000
  }

  /** ADD to MOD, BAND to SHR, EQ to GE. */
  predicate IsBinary(op: Byte) {
    op in {0x10, 0x11, 0x12, 0x13, 0x14, 0x16, 0x17, 0x18, 0x19, 0x1A, 0x20, 0x21, 0x22, 0x23, 0x24, 0x25}
  }

  predicate PrimFits(prim: Prim, argc: nat, pushes: bool) {
    match prim
    case Binary(op) => pushes && argc == 2 && IsBinary(op)
    case NewArray => pushes && argc < 0x1_0000
    case NewMap => pushes && argc % 2 == 0 && argc < 0x2_0000
    case Native(_) => pushes && argc < 256
    case Index => pushes && argc == 2
    case Append => pushes && argc == 2
    case Has => pushes && argc == 2
    case SetIndex => !pushes && argc == 3
    case Print => !pushes && argc == 1
    case PrintLine => !pushes && argc == 0
    case _ => pushes && argc == 1
  }

  /** The instruction has an opcode, and its operands fit their fields. */
  predicate Fits(i: Instr) {
    match i
    case Const(idx) => idx < 0x1_0000
    case Load(slot) => slot < 0x1_0000
    case Store(slot) => slot < 0x1_0000
    case GetGlobal(slot) => slot < 0x1_0000
    case SetGlobal(slot) => slot < 0x1_0000
    case Apply(prim, argc) => PrimFits(prim, argc, true)
    case Effect(prim, argc) => PrimFits(prim, argc, false)
    case Jump(rel) => IsI32(rel)
    case JumpIfFalse(rel) => IsI32(rel)
    case JumpIfTrue(rel) => IsI32(rel)
    case Call(fn, argc) => fn < 0x1_0000 && argc < 256
    case PushFn(fn) => fn < 0x1_0000
    case Closure(fn, ncap) => fn < 0x1_0000 && ncap < 256
    case CallValue(argc) => argc < 256
    case TryPush(rel, slot) => IsI32(rel) && slot < 0x1_0000
    case _ => true
  }

  function PrimOpcode(prim: Prim): Byte {
    match prim
    case Binary(op) => op
    case Negate => 0x15
    case Complement => 0x1B
    case LogicalNot => 0x26
    case NewArray => 0x60
    case NewMap => 0x61
    case Index => 0x62
    case SetIndex => 0x63
    case Length => 0x64
    case Append => 0x65
    case Has => 0x66
    case Keys => 0x67
    case Print => 0x50
    case PrintLine => 0x52
    case Native(_) => 0x70
  }

  function Opcode(i: Instr): Byte {
    match i
    case Halt => 0x00
    case Const(_) => 0x01
    case PushTrue => 0x02
    case PushFalse => 0x03
    case PushNull => 0x04
    case Pop => 0x05
    case Load(_) => 0x06
    case Store(_) => 0x07
    case Apply(prim, _) => PrimOpcode(prim)
    case Effect(prim, _) => PrimOpcode(prim)
    case Jump(_) => 0x30
    case JumpIfFalse(_) => 0x31
    case JumpIfTrue(_) => 0x32
    case Call(_, _) => 0x40
    case Ret => 0x41
    case PushFn(_) => 0x42
    case CallValue(_) => 0x43
    case Closure(_, _) => 0x44
    case Assert => 0x51
    case TryPush(_, _) => 0x71
    case TryPop => 0x72
    case Throw => 0x73
    case Coalesce => 0x74
    case Unwrap => 0x75
    case GetGlobal(_) => 0x76
    case SetGlobal(_) => 0x77
    case Spawn => 0x78
    case Await => 0x79
  }

  /** A relative offset in two's complement. */
  function Rel(rel: int): (r: Bytes)
    requires IsI32(rel)
    ensures |r| == 4
  {
    Le(if rel < 0 then rel + 0x1_0000_0000 else rel, 4)
  }

  function PrimOperand(prim: Prim, argc: nat): Bytes {
    match prim
    case NewArray => Le(argc, 2)
    case NewMap => Le(argc / 2, 2)
    case Native(id) => [id] + Le(argc, 1)
    case _ => []
  }

  function Operand(i: Instr): Bytes
    requires Fits(i)
  {
    match i
    case Const(idx) => Le(idx, 2)
    case Load(slot) => Le(slot, 2)
    case Store(slot) => Le(slot, 2)
    case GetGlobal(slot) => Le(slot, 2)
    case SetGlobal(slot) => Le(slot, 2)
    case Apply(prim, argc) => PrimOperand(prim, argc)
    case Effect(prim, argc) => PrimOperand(prim, argc)
    case Jump(rel) => Rel(rel)
    case JumpIfFalse(rel) => Rel(rel)
    case JumpIfTrue(rel) => Rel(rel)
    case Call(fn, argc) => Le(fn, 2) + Le(argc, 1)
    case PushFn(fn) => Le(fn, 2)
    case Closure(fn, ncap) => Le(fn, 2) + Le(ncap, 1)
    case CallValue(argc) => Le(argc, 1)
    case TryPush(rel, slot) => Rel(rel) + Le(slot, 2)
    case _ => []
  }

  function Assemble(i: Instr): (r: Bytes)
    requires Fits(i)
    ensures |r| >= 1
  {
    [Opcode(i)] + Operand(i)
  }

  // ---- Numbers in the code ----

  lemma U16Value(code: Bytes, at: nat)
    requires at + 2 <= |code|
    ensures U16(code, at) == LeValue(code, at, 2)
  {
    assert LeValue(code, at + 1, 1) == code[at + 1] + 256 * LeValue(code, at + 2, 0);
  }

  lemma U32Value(code: Bytes, at: nat)
    requires at + 4 <= |code|
    ensures U32(code, at) == LeValue(code, at, 4)
  {
    U16Value(code, at);
    U16Value(code, at + 2);
    var x := LeValue(code, at + 2, 2);
    assert LeValue(code, at + 1, 3) == code[at + 1] + 256 * x;
  }

  lemma Widths()
    ensures Pow256(1) == 256 && Pow256(2) == 0x1_0000 && Pow256(4) == 0x1_0000_0000
  {
  }

  lemma ByteAt(code: Bytes, at: nat, n: nat)
    requires at < |code| && n < 256
    ensures StartsWith(code, at, Le(n, 1)) <==> code[at] == n
  {
    OneByte(n);
    assert code[at..at + 1] == [code[at]];
  }

  lemma U16At(code: Bytes, at: nat, n: nat)
    requires at + 2 <= |code| && n < 0x1_0000
    ensures StartsWith(code, at, Le(n, 2)) <==> U16(code, at) == n
  {
    Widths();
    U16Value(code, at);
    LeIff(code, at, n, 2);
  }

  lemma RelAt(code: Bytes, at: nat, rel: int)
    requires at + 4 <= |code| && IsI32(rel)
    ensures StartsWith(code, at, Rel(rel)) <==> I32(code, at) == rel
  {
    hide Le, LeValue;
    Widths();
    U32Value(code, at);
    LeIff(code, at, if rel < 0 then rel + 0x1_0000_0000 else rel, 4);
  }

  lemma Joined(code: Bytes, at: nat, a: Bytes, b: Bytes)
    ensures StartsWith(code, at, a + b) <==> StartsWith(code, at, a) && StartsWith(code, at + |a|, b)
  {
    if StartsWith(code, at, a) && StartsWith(code, at + |a|, b) {
      assert code[at..at + |a + b|] == code[at..at + |a|] + code[at + |a|..at + |a| + |b|];
    }
    if StartsWith(code, at, a + b) {
      Divide(code, at, a, b);
    }
  }

  // ---- The decoder is the assembler's inverse ----

  lemma WidthOf(i: Instr)
    requires Fits(i)
    ensures Width(Opcode(i)) == |Operand(i)|
  {
    hide Le;
    if i.Apply? || i.Effect? {
      PrimWidth(i.prim, i.argc, i.Apply?);
    } else {
      hide PrimOpcode, PrimOperand, PrimFits;
    }
  }

  lemma PrimWidth(prim: Prim, argc: nat, pushes: bool)
    requires PrimFits(prim, argc, pushes)
    ensures Width(PrimOpcode(prim)) == |PrimOperand(prim, argc)|
  {
    hide Le;
  }

  lemma PrimIff(i: Instr, code: Bytes, a: nat)
    requires Fits(i) && a + |Operand(i)| <= |code| && (i.Apply? || i.Effect?)
    ensures a + Width(Opcode(i)) <= |code|
    ensures Operands(code, Opcode(i), a) == Some(i) <==> StartsWith(code, a, Operand(i))
  {
    hide Le, U16, StartsWith;
    WidthOf(i);
    if i.prim.NewArray? {
      U16At(code, a, i.argc);
    } else if i.prim.NewMap? {
      U16At(code, a, i.argc / 2);
    } else if i.prim.Native? {
      ByteAt(code, a + 1, i.argc);
      OneByte(i.prim.id);
      ByteAt(code, a, i.prim.id);
      Joined(code, a, [i.prim.id], Le(i.argc, 1));
    } else {
      Nothing(code, a);
    }
  }

  lemma Nothing(code: Bytes, a: nat)
    requires a <= |code|
    ensures StartsWith(code, a, [])
  {
  }

  lemma OperandIff(i: Instr, code: Bytes, a: nat)
    requires Fits(i) && a + |Operand(i)| <= |code|
    ensures a + Width(Opcode(i)) <= |code|
    ensures Operands(code, Opcode(i), a) == Some(i) <==> StartsWith(code, a, Operand(i))
  {
    if i.Apply? || i.Effect? {
      hide *;
      PrimIff(i, code, a);
    } else if i.Jump? || i.JumpIfFalse? || i.JumpIfTrue? {
      JumpIff(i, code, a);
    } else {
      hide Operands, Operand, Opcode, Fits;
      PlainIff(i, code, a);
    }
  }

  lemma JumpIff(i: Instr, code: Bytes, a: nat)
    requires Fits(i) && a + |Operand(i)| <= |code| && (i.Jump? || i.JumpIfFalse? || i.JumpIfTrue?)
    ensures a + Width(Opcode(i)) <= |code|
    ensures Operands(code, Opcode(i), a) == Some(i) <==> StartsWith(code, a, Operand(i))
  {
    hide Le, I32, StartsWith, Rel;
    RelAt(code, a, i.rel);
  }

  lemma PlainIff(i: Instr, code: Bytes, a: nat)
    requires Fits(i) && a + |Operand(i)| <= |code|
    requires !i.Apply? && !i.Effect? && !i.Jump? && !i.JumpIfFalse? && !i.JumpIfTrue?
    ensures a + Width(Opcode(i)) <= |code|
    ensures Operands(code, Opcode(i), a) == Some(i) <==> StartsWith(code, a, Operand(i))
  {
    hide Le, U16, I32, StartsWith, Rel, PrimFits, PrimOpcode, PrimOperand, Width;
    WidthOf(i);
    match i
    case Const(n) => U16At(code, a, n);
    case Load(n) => U16At(code, a, n);
    case Store(n) => U16At(code, a, n);
    case GetGlobal(n) => U16At(code, a, n);
    case SetGlobal(n) => U16At(code, a, n);
    case PushFn(n) => U16At(code, a, n);
    case Call(fn, argc) => TwoAt(code, a, fn, argc);
    case Closure(fn, ncap) => TwoAt(code, a, fn, ncap);
    case CallValue(argc) => ByteAt(code, a, argc);
    case TryPush(rel, slot) =>
      Joined(code, a, Rel(rel), Le(slot, 2));
      RelAt(code, a, rel);
      U16At(code, a + 4, slot);
    case _ => Nothing(code, a);
  }

  lemma TwoAt(code: Bytes, a: nat, n: nat, count: nat)
    requires a + 3 <= |code| && n < 0x1_0000 && count < 256
    ensures StartsWith(code, a, Le(n, 2) + Le(count, 1)) <==> U16(code, a) == n && code[a + 2] == count
  {
    hide Le, U16, StartsWith;
    Joined(code, a, Le(n, 2), Le(count, 1));
    U16At(code, a, n);
    ByteAt(code, a + 2, count);
  }

  /** Every decoded instruction fits its fields and has the opcode it was decoded from. */
  lemma OperandsFit(code: Bytes, op: Byte, a: nat)
    requires a + Width(op) <= |code|
    ensures var i := Operands(code, op, a); i.Some? ==> Fits(i.value) && Opcode(i.value) == op
  {
    hide U16, I32, Width, Operands, Fits, Opcode;
    if op < 0x40 {
      LowFit(code, op, a);
    } else if op < 0x60 {
      MiddleFit(code, op, a);
    } else if op < 0x70 {
      ContainerFit(code, op, a);
    } else {
      HighFit(code, op, a);
    }
  }

  lemma LowFit(code: Bytes, op: Byte, a: nat)
    requires a + Width(op) <= |code| && op < 0x40
    ensures var i := Operands(code, op, a); i.Some? ==> Fits(i.value) && Opcode(i.value) == op
  {
    hide U16, I32;
  }

  lemma MiddleFit(code: Bytes, op: Byte, a: nat)
    requires a + Width(op) <= |code| && 0x40 <= op < 0x60
    ensures var i := Operands(code, op, a); i.Some? ==> Fits(i.value) && Opcode(i.value) == op
  {
    hide U16, I32;
  }

  lemma ContainerFit(code: Bytes, op: Byte, a: nat)
    requires a + Width(op) <= |code| && 0x60 <= op < 0x70
    ensures var i := Operands(code, op, a); i.Some? ==> Fits(i.value) && Opcode(i.value) == op
  {
    hide U16, I32;
  }

  lemma HighFit(code: Bytes, op: Byte, a: nat)
    requires a + Width(op) <= |code| && 0x70 <= op
    ensures var i := Operands(code, op, a); i.Some? ==> Fits(i.value) && Opcode(i.value) == op
  {
    hide U16, I32;
  }

  /** Bytes decode to an instruction exactly if they are its assembly. */
  lemma DecodeIff(code: Bytes, pc: nat, i: Instr, next: nat)
    ensures Decode(code, pc) == Some(Fetched(i, next))
       <==> Fits(i) && StartsWith(code, pc, Assemble(i)) && next == pc + |Assemble(i)|
  {
    hide Operands, Operand, Opcode, Width, Fits;
    if Decode(code, pc) == Some(Fetched(i, next)) {
      OperandsFit(code, code[pc], pc + 1);
      WidthOf(i);
      OperandIff(i, code, pc + 1);
      assert code[pc..pc + 1] == [Opcode(i)];
      Joined(code, pc, [Opcode(i)], Operand(i));
    }
    if Fits(i) && StartsWith(code, pc, Assemble(i)) && next == pc + |Assemble(i)| {
      Joined(code, pc, [Opcode(i)], Operand(i));
      Head(code, pc, [Opcode(i)], 0);
      OperandIff(i, code, pc + 1);
      WidthOf(i);
    }
  }

  // ---- Code sections ----

  ghost predicate AllFit(xs: seq<Instr>) {
    forall k :: 0 <= k < |xs| ==> Fits(xs[k])
  }

  function AssembleAll(xs: seq<Instr>): Bytes
    requires AllFit(xs)
  {
    if xs == [] then [] else Assemble(xs[0]) + AssembleAll(xs[1..])
  }

  /** Decoding one instruction after the other reads back what was assembled. */
  lemma {:induction false} ReadsBack(code: Bytes, at: nat, xs: seq<Instr>, k: nat)
    requires AllFit(xs) && StartsWith(code, at, AssembleAll(xs)) && k < |xs|
    ensures Decode(code, at + |AssembleAll(xs[..k])|) == Some(Fetched(xs[k], at + |AssembleAll(xs[..k + 1])|))
    decreases k
  {
    hide Assemble, Decode, Fits, StartsWith;
    var first := Assemble(xs[0]);
    Divide(code, at, first, AssembleAll(xs[1..]));
    assert xs[..k + 1][1..] == xs[1..][..k];
    if k == 0 {
      DecodeIff(code, at, xs[0], at + |first|);
      assert AssembleAll(xs[..1]) == first + AssembleAll([]);
    } else {
      ReadsBack(code, at + |first|, xs[1..], k - 1);
      assert xs[..k][1..] == xs[1..][..k - 1];
    }
  }

  /** A code section has one reading: the same bytes are the same instructions. */
  lemma {:induction false} OneReading(xs: seq<Instr>, ys: seq<Instr>)
    requires AllFit(xs) && AllFit(ys) && AssembleAll(xs) == AssembleAll(ys)
    ensures xs == ys
  {
    hide Assemble, Fits;
    if xs != [] && ys != [] {
      var code := AssembleAll(xs);
      DecodesFirst(code, xs);
      DecodesFirst(code, ys);
      assert AssembleAll(xs[1..]) == code[|Assemble(xs[0])|..] == AssembleAll(ys[1..]);
      OneReading(xs[1..], ys[1..]);
      assert xs == [xs[0]] + xs[1..] && ys == [ys[0]] + ys[1..];
    }
  }

  lemma DecodesFirst(code: Bytes, xs: seq<Instr>)
    requires xs != [] && AllFit(xs) && code == AssembleAll(xs)
    ensures Decode(code, 0) == Some(Fetched(xs[0], |Assemble(xs[0])|))
  {
    hide Assemble, Decode, Fits;
    DecodeIff(code, 0, xs[0], |Assemble(xs[0])|);
  }
}
