/**
 The instruction set of PYRO_BYTECODE.md and the decoder both engines share: one
 opcode byte followed by little-endian operands of a width fixed by the opcode.

 The opcodes that only compute on values (arithmetic, comparison, containers,
 natives, printing) are collected under `Apply` and `Effect`: what they compute is
 a parameter of the machine, how many operands they pop and push is not.
 */
module Isa {
  import opened Common

  const NO_SLOT: nat := 0xFFFF

  datatype Prim =
    | Binary(op: Byte)
    | Negate
    | Complement
    | LogicalNot
    | NewArray
    | NewMap
    | Index
    | SetIndex
    | Length
    | Append
    | Has
    | Keys
    | Print
    | PrintLine
    | Native(id: Byte)

  datatype Instr =
    | Halt
    | Const(idx: nat)
    | PushTrue
    | PushFalse
    | PushNull
    | Pop
    | Load(slot: nat)
    | Store(slot: nat)
    | GetGlobal(slot: nat)
    | SetGlobal(slot: nat)
    | Apply(prim: Prim, argc: nat)    // pops argc operands, pushes one result
    | Effect(prim: Prim, argc: nat)   // pops argc operands, pushes nothing
    | Jump(rel: int)
    | JumpIfFalse(rel: int)
    | JumpIfTrue(rel: int)
    | Call(fn: nat, argc: nat)
    | PushFn(fn: nat)
    | Closure(fn: nat, ncap: nat)
    | CallValue(argc: nat)
    | Ret
    | Assert
    | TryPush(rel: int, slot: nat)
    | TryPop
    | Throw
    | Coalesce
    | Unwrap
    | Spawn
    | Await

  /** Operand bytes of each opcode, in the form of the C engine's table. */
  function Width(op: Byte): (w: nat)
    ensures w <= 6
  {
    if op in {0x01, 0x06, 0x07, 0x60, 0x61, 0x42, 0x76, 0x77} then 2
    else if op in {0x30, 0x31, 0x32} then 4
    else if op == 0x40 then 3
    else if op == 0x70 then 2
    else if op == 0x71 then 6
    else if op == 0x44 then 3
    else if op == 0x43 then 1
    else 0
  }

  function U16(code: seq<Byte>, at: nat): (v: nat)
    requires at + 2 <= |code|
    ensures v < 0x1_0000
  {
    (code[at] as int) + 0x100 * (code[at + 1] as int)
  }

  function U32(code: seq<Byte>, at: nat): (v: nat)
    requires at + 4 <= |code|
    ensures v < 0x1_0000_0000
  {
    U16(code, at) + 0x1_0000 * U16(code, at + 2)
  }

  /** The same four bytes read as a two's complement int32. */
  function I32(code: seq<Byte>, at: nat): (v: int)
    requires at + 4 <= |code|
    ensures -0x8000_0000 <= v < 0x8000_0000
  {
    var u := U32(code, at);
    if u < 0x8000_0000 then u else u - 0x1_0000_0000
  }

  datatype Fetched = Fetched(instr: Instr, next: nat)

  /** The instruction at `pc` and the pc after its operands. */
  function Decode(code: seq<Byte>, pc: nat): (r: Option<Fetched>)
    ensures r.Some? ==> pc < |code| && r.value.next == pc + 1 + Width(code[pc]) <= |code|
  {
    if pc >= |code| || pc + 1 + Width(code[pc]) > |code| then None
    else
      var i := Operands(code, code[pc], pc + 1);
      if i.None? then None else Some(Fetched(i.value, pc + 1 + Width(code[pc])))
  }

  function Operands(code: seq<Byte>, op: Byte, a: nat): Option<Instr>
    requires a + Width(op) <= |code|
  {
    if op == 0x00 then Some(Halt)
    else if op == 0x01 then Some(Const(U16(code, a)))
    else if op == 0x02 then Some(PushTrue)
    else if op == 0x03 then Some(PushFalse)
    else if op == 0x04 then Some(PushNull)
    else if op == 0x05 then Some(Pop)
    else if op == 0x06 then Some(Load(U16(code, a)))
    else if op == 0x07 then Some(Store(U16(code, a)))
    else if 0x10 <= op <= 0x14 || 0x16 <= op <= 0x1A || 0x20 <= op <= 0x25 then
      Some(Apply(Binary(op), 2))
    else if op == 0x15 then Some(Apply(Negate, 1))
    else if op == 0x1B then Some(Apply(Complement, 1))
    else if op == 0x26 then Some(Apply(LogicalNot, 1))
    else if op == 0x30 then Some(Jump(I32(code, a)))
    else if op == 0x31 then Some(JumpIfFalse(I32(code, a)))
    else if op == 0x32 then Some(JumpIfTrue(I32(code, a)))
    else if op == 0x40 then Some(Call(U16(code, a), code[a + 2]))
    else if op == 0x41 then Some(Ret)
    else if op == 0x42 then Some(PushFn(U16(code, a)))
    else if op == 0x43 then Some(CallValue(code[a]))
    else if op == 0x44 then Some(Closure(U16(code, a), code[a + 2]))
    else if op == 0x50 then Some(Effect(Print, 1))
    else if op == 0x51 then Some(Assert)
    else if op == 0x52 then Some(Effect(PrintLine, 0))
    else if op == 0x60 then Some(Apply(NewArray, U16(code, a)))
    else if op == 0x61 then Some(Apply(NewMap, 2 * U16(code, a)))
    else if op == 0x62 then Some(Apply(Index, 2))
    else if op == 0x63 then Some(Effect(SetIndex, 3))
    else if op == 0x64 then Some(Apply(Length, 1))
    else if op == 0x65 then Some(Apply(Append, 2))
    else if op == 0x66 then Some(Apply(Has, 2))
    else if op == 0x67 then Some(Apply(Keys, 1))
    else if op == 0x70 then Some(Apply(Native(code[a]), code[a + 1]))
    else if op == 0x71 then Some(TryPush(I32(code, a), U16(code, a + 4)))
    else if op == 0x72 then Some(TryPop)
    else if op == 0x73 then Some(Throw)
    else if op == 0x74 then Some(Coalesce)
    else if op == 0x75 then Some(Unwrap)
    else if op == 0x76 then Some(GetGlobal(U16(code, a)))
    else if op == 0x77 then Some(SetGlobal(U16(code, a)))
    else if op == 0x78 then Some(Spawn)
    else if op == 0x79 then Some(Await)
    else None
  }
}
