/**
 * The machine state as a value, and what each exported operation of the
 * emulator does to it.  Every exported operation deep-copies its argument
 * before changing the copy, so to a caller it is a function from the old
 * state to a new one; the functions here are those functions.  The class
 * in module Machine performs the same changes in place and is proved
 * against them.
 *
 * Operands have the ranges the decoder produces them with: register
 * indices are nibbles, `kk` is a byte, `nnn` is 12 bits.  Register cells
 * belong to a Uint8Array, so every value stored in V is taken modulo 256.
 */
module Semantics {
  import opened Consts
  import opened Results
  import Helpers
  import Sprite
  import Bits

  datatype State = State(
    memory: seq<Byte>,
    v: seq<Byte>,
    i: int,
    pc: int,
    stack: seq<int>,
    display: seq<Bit>,
    delayTimer: int,
    soundTimer: int)

  /** The sizes every state has once reset. */
  predicate Wf(s: State)
  {
    |s.memory| == MemorySize && |s.v| == RegisterCount && |s.display| == DisplaySize
  }

  /** Storing a number into a Uint8Array cell keeps it modulo 256. */
  function Wrap8(n: int): Byte
  {
    n % 256
  }

  // ---------------------------------------------------------------------
  // Lifecycle and setters

  /** `reset`: everything zero, PC at the program start, empty stack, blank display. */
  function Reset(): (s: State)
    ensures Wf(s)
    ensures forall a :: 0 <= a < MemorySize ==> s.memory[a] == 0
    ensures forall r :: 0 <= r < RegisterCount ==> s.v[r] == 0
    ensures forall k :: 0 <= k < DisplaySize ==> s.display[k] == 0
    ensures s.i == 0 && s.pc == ProgramStart && s.stack == []
    ensures s.delayTimer == 0 && s.soundTimer == 0
  {
    State(seq(MemorySize, _ => 0), seq(RegisterCount, _ => 0), 0, ProgramStart, [],
          seq(DisplaySize, _ => 0), 0, 0)
  }

  /** `loadCharset`: the font goes to memory[0x000..0x050), nothing else changes. */
  function LoadCharset(s: State): (r: State)
    requires Wf(s)
    ensures Wf(r) && r == s.(memory := r.memory)
    ensures forall a :: 0 <= a < CharsetSize ==> r.memory[a] == Charset[a]
    ensures forall a :: CharsetSize <= a < MemorySize ==> r.memory[a] == s.memory[a]
  {
    s.(memory := Charset + s.memory[CharsetSize..])
  }

  /** `loadRom`: rom[k] goes to memory[0x200 + k], nothing else changes. */
  function LoadRom(s: State, rom: seq<Byte>): (r: State)
    requires Wf(s) && |rom| <= MemorySize - ProgramStart
    ensures Wf(r) && r == s.(memory := r.memory)
    ensures forall k :: 0 <= k < |rom| ==> r.memory[ProgramStart + k] == rom[k]
    ensures forall a :: 0 <= a < MemorySize && !(ProgramStart <= a < ProgramStart + |rom|) ==>
              r.memory[a] == s.memory[a]
  {
    s.(memory := s.memory[..ProgramStart] + rom + s.memory[ProgramStart + |rom|..])
  }

  function SetV(s: State, vi: Nibble, val: int): State
    requires Wf(s)
  {
    s.(v := s.v[vi := Wrap8(val)])
  }

  function SetI(s: State, val: int): State
  {
    s.(i := val)
  }

  function SetMemory(s: State, addr: int, val: Byte): State
    requires Wf(s) && 0 <= addr < MemorySize
  {
    s.(memory := s.memory[addr := val])
  }

  function SetDelayTimer(s: State, val: int): State
  {
    s.(delayTimer := val)
  }

  // ---------------------------------------------------------------------
  // Fetch

  /** `pc || chip.pc`: an absent or zero address falls back to the state's PC. */
  function FetchAddress(s: State, pc: Option<int>): int
  {
    match pc
    case Some(a) => if a != 0 then a else s.pc
    case None => s.pc
  }

  /** `fetch`: the big-endian word at the address, `(memory[a] << 8) | memory[a + 1]`. */
  function Fetch(s: State, pc: Option<int>): (w: Word)
    requires Wf(s)
    requires 0 <= FetchAddress(s, pc) && FetchAddress(s, pc) + 1 < MemorySize
    ensures w / 256 == s.memory[FetchAddress(s, pc)]
    ensures w % 256 == s.memory[FetchAddress(s, pc) + 1]
  {
    var a := FetchAddress(s, pc);
    s.memory[a] as int * 256 + s.memory[a + 1]
  }

  // ---------------------------------------------------------------------
  // Instruction handlers (PC has already been advanced by `decode`)

  /** 00E0 */
  function Cls(s: State): State
  {
    s.(display := seq(DisplaySize, _ => 0))
  }

  /** 00EE: pop the top of the stack into PC. */
  function Ret(s: State): State
    requires |s.stack| > 0
  {
    s.(pc := s.stack[|s.stack| - 1], stack := s.stack[..|s.stack| - 1])
  }

  /** 1nnn */
  function Jp(s: State, addr: Addr): State
  {
    s.(pc := addr)
  }

  /** 2nnn: push PC, then jump. */
  function Call(s: State, addr: Addr): State
  {
    s.(stack := s.stack + [s.pc], pc := addr)
  }

  /** 3xkk */
  function Se(s: State, x: Nibble, kk: Byte): State
    requires Wf(s)
  {
    if s.v[x] == kk then s.(pc := s.pc + 2) else s
  }

  /** 4xkk */
  function Sne(s: State, x: Nibble, kk: Byte): State
    requires Wf(s)
  {
    if s.v[x] != kk then s.(pc := s.pc + 2) else s
  }

  /** 5xy0 (exported, not reached by `decode`) */
  function SeXY(s: State, x: Nibble, y: Nibble): State
    requires Wf(s)
  {
    if s.v[x] == s.v[y] then s.(pc := s.pc + 2) else s
  }

  /** 6xkk */
  function Ld(s: State, x: Nibble, kk: Byte): State
    requires Wf(s)
  {
    s.(v := s.v[x := kk])
  }

  /** 7xkk: no flag. */
  function Add(s: State, x: Nibble, kk: Byte): State
    requires Wf(s)
  {
    s.(v := s.v[x := Wrap8(s.v[x] as int + kk)])
  }

  /** 8xy0 */
  function LdXY(s: State, x: Nibble, y: Nibble): State
    requires Wf(s)
  {
    s.(v := s.v[x := s.v[y]])
  }

  /** `|`, `&` and `^` on register values. */
  function BitOr(a: Byte, b: Byte): Byte { Bits.ByteBounded(a, b); Bits.Or(a, b) }
  function BitAnd(a: Byte, b: Byte): Byte { Bits.ByteBounded(a, b); Bits.And(a, b) }
  function BitXor(a: Byte, b: Byte): Byte { Bits.ByteBounded(a, b); Bits.Xor(a, b) }

  /** 8xy1 (exported, not reached by `decode`) */
  function OrXY(s: State, x: Nibble, y: Nibble): State
    requires Wf(s)
  {
    s.(v := s.v[x := BitOr(s.v[x], s.v[y])])
  }

  /** 8xy2 */
  function AndXY(s: State, x: Nibble, y: Nibble): State
    requires Wf(s)
  {
    s.(v := s.v[x := BitAnd(s.v[x], s.v[y])])
  }

  /** 8xy3 (exported, not reached by `decode`) */
  function XorXY(s: State, x: Nibble, y: Nibble): State
    requires Wf(s)
  {
    s.(v := s.v[x := BitXor(s.v[x], s.v[y])])
  }

  /** 8xy4 (exported, not reached by `decode`): VF := carry is written first, then Vx. */
  function AddXY(s: State, x: Nibble, y: Nibble): State
    requires Wf(s)
  {
    var sum := s.v[x] as int + s.v[y];
    s.(v := s.v[VF := if sum > 0xFF then 1 else 0][x := Wrap8(sum)])
  }

  /** 8xy5 (exported, not reached by `decode`): VF := (Vx > Vy) is written first, then Vx. */
  function SubXY(s: State, x: Nibble, y: Nibble): State
    requires Wf(s)
  {
    var difference := s.v[x] as int - s.v[y];
    s.(v := s.v[VF := if s.v[x] > s.v[y] then 1 else 0][x := Wrap8(difference)])
  }

  /** 8xy6 (exported, not reached by `decode`): `vx & 1` to VF, then `vx >> 1` to Vx. */
  function ShrX(s: State, x: Nibble): State
    requires Wf(s)
  {
    var vx := s.v[x];
    s.(v := s.v[VF := vx % 2][x := vx / 2])
  }

  /** 8xy7 (exported, not reached by `decode`): VF := (Vy > Vx), then Vx := Vy - Vx. */
  function SubnXY(s: State, x: Nibble, y: Nibble): State
    requires Wf(s)
  {
    var difference := s.v[y] as int - s.v[x];
    s.(v := s.v[VF := if s.v[y] > s.v[x] then 1 else 0][x := Wrap8(difference)])
  }

  /** 8xyE (exported, not reached by `decode`): `vx >> 7` to VF, then `vx << 1` to Vx. */
  function ShlX(s: State, x: Nibble): State
    requires Wf(s)
  {
    var vx: int := s.v[x];
    s.(v := s.v[VF := vx / 128][x := Wrap8(vx * 2)])
  }

  /** 9xy0 */
  function SneXY(s: State, x: Nibble, y: Nibble): State
    requires Wf(s)
  {
    if s.v[x] != s.v[y] then s.(pc := s.pc + 2) else s
  }

  /** Annn */
  function LdI(s: State, addr: Addr): State
  {
    s.(i := addr)
  }

  /** Bnnn (exported, not reached by `decode`) */
  function JpV0(s: State, addr: Addr): State
    requires Wf(s)
  {
    s.(pc := s.v[0] + addr)
  }

  /** Cxkk, with the random byte supplied by the caller. */
  function Rnd(s: State, x: Nibble, kk: Byte, random: Byte): State
    requires Wf(s)
  {
    s.(v := s.v[x := BitAnd(random, kk)])
  }

  /** Dxyn */
  function Drw(s: State, x: Nibble, y: Nibble, n: Nibble): State
    requires Wf(s) && Sprite.Fits(s.i, s.v[x], s.v[y], n)
  {
    var drawn := Sprite.Draw(s.display, s.memory, s.i, s.v[x], s.v[y], n);
    s.(display := drawn.cells, v := s.v[VF := if drawn.hit then 1 else 0])
  }

  /** Ex9E: skip when the key numbered Vx has an entry and it is true. */
  function Skp(s: State, x: Nibble, keys: map<int, bool>): State
    requires Wf(s)
  {
    if s.v[x] in keys && keys[s.v[x]] == true then s.(pc := s.pc + 2) else s
  }

  /** ExA1: skip when the key numbered Vx has an entry and it is false. */
  function Sknp(s: State, x: Nibble, keys: map<int, bool>): State
    requires Wf(s)
  {
    if s.v[x] in keys && keys[s.v[x]] == false then s.(pc := s.pc + 2) else s
  }

  /** Fx07 */
  function LdVxDT(s: State, x: Nibble): State
    requires Wf(s)
  {
    s.(v := s.v[x := Wrap8(s.delayTimer)])
  }

  /** Fx15 */
  function LdDTVx(s: State, x: Nibble): State
    requires Wf(s)
  {
    s.(delayTimer := s.v[x])
  }

  /** Fx1E: no wrap and no flag. */
  function AddIVx(s: State, x: Nibble): State
    requires Wf(s)
  {
    s.(i := s.i + s.v[x])
  }

  /** Fx55: V0..Vx to memory[I..I+x]. */
  function LdIndirectIVx(s: State, x: Nibble): State
    requires Wf(s) && 0 <= s.i && s.i + x < MemorySize
  {
    s.(memory := s.memory[..s.i] + s.v[..x + 1] + s.memory[s.i + x + 1..])
  }

  /** The digits of `toBCD(b)`, which cannot fail for a byte. */
  function BCD(b: Byte): (d: seq<Byte>)
    ensures |d| == 3 && 100 * (d[0] as int) + 10 * (d[1] as int) + d[2] as int == b
    ensures d[0] == b / 100 && d[1] == (b / 10) % 10 && d[2] == b % 10
  {
    Helpers.ToBCDIsPositional(b);
    var digits := Helpers.ToBCD(b).value;
    [digits[0], digits[1], digits[2]]
  }

  /** Fx33: toBCD(Vx) to memory[I..I+2]. */
  function LdB(s: State, x: Nibble): State
    requires Wf(s) && 0 <= s.i && s.i + 2 < MemorySize
  {
    s.(memory := s.memory[..s.i] + BCD(s.v[x]) + s.memory[s.i + 3..])
  }

  /** Fx65: memory[I..I+x] to V0..Vx. */
  function LdVxIndirectI(s: State, x: Nibble): State
    requires Wf(s) && 0 <= s.i && s.i + x < MemorySize
  {
    s.(v := s.memory[s.i..s.i + x + 1] + s.v[x + 1..])
  }

  /** Fx29: I := address of the glyph for digit Vx (the table has no entry above 0xF). */
  function LdFVx(s: State, x: Nibble): State
    requires Wf(s) && s.v[x] < |CharOffset|
  {
    s.(i := CharOffset[s.v[x]])
  }
}
