/**
 * The emulator object as the source mutates it: memory, registers and
 * display are arrays written cell by cell, the stack a list that is
 * pushed and popped.  Each method does in place what the handler of the
 * same name does to its (cloned) argument, and is proved to produce the
 * state that module Semantics describes.  `Decode` and `Cycle` clone the
 * object first, as the exported `decode` does, so the caller's object is
 * never touched.
 */
module Machine {
  import opened Consts
  import opened Results
  import Helpers
  import Sprite
  import Bits
  import S = Semantics
  import D = Decoder

  class Chip8 {
    var memory: array<Byte>
    var v: array<Byte>
    var i: int
    var pc: int
    var stack: seq<int>
    var display: array<Bit>
    var delayTimer: int
    var soundTimer: int

    /** The sizes `reset` gives the arrays; memory and registers are separate arrays. */
    ghost predicate Valid()
      reads this
    {
      && memory.Length == MemorySize && v.Length == RegisterCount && display.Length == DisplaySize
      && memory != v
    }

    /** The state the object currently holds, as a value. */
    function Snapshot(): (s: S.State)
      reads this, memory, v, display
      ensures Valid() ==> S.Wf(s)
    {
      S.State(memory[..], v[..], i, pc, stack, display[..], delayTimer, soundTimer)
    }

    /** `reset`: 4096 zero cells, 16 zero registers, I = 0, PC = 0x200, empty stack, blank display, timers 0. */
    constructor Reset()
      ensures Valid() && Snapshot() == S.Reset()
      ensures fresh(memory) && fresh(v) && fresh(display)
    {
      memory := new Byte[MemorySize](_ => 0);
      v := new Byte[RegisterCount](_ => 0);
      i := 0;
      pc := ProgramStart;
      stack := [];
      display := new Bit[DisplaySize](_ => 0);
      delayTimer := 0;
      soundTimer := 0;
    }

    /** `cloneDeep`: a copy that shares no array with the original. */
    constructor Clone(original: Chip8)
      requires original.Valid()
      ensures Valid() && Snapshot() == original.Snapshot()
      ensures fresh(memory) && fresh(v) && fresh(display)
    {
      memory := new Byte[MemorySize](k reads original, original.memory =>
        if 0 <= k < original.memory.Length then original.memory[k] else 0);
      v := new Byte[RegisterCount](k reads original, original.v =>
        if 0 <= k < original.v.Length then original.v[k] else 0);
      display := new Bit[DisplaySize](k reads original, original.display =>
        if 0 <= k < original.display.Length then original.display[k] else 0);
      i := original.i;
      pc := original.pc;
      stack := original.stack;
      delayTimer := original.delayTimer;
      soundTimer := original.soundTimer;
      new;
      assert memory[..] == original.memory[..];
      assert v[..] == original.v[..];
      assert display[..] == original.display[..];
    }

    // -------------------------------------------------------------------
    // Lifecycle and setters

    /** `loadCharset`: copy the 80 font bytes to memory[0x000..0x050). */
    method LoadCharset()
      requires Valid()
      modifies memory
      ensures Valid() && Snapshot() == S.LoadCharset(old(Snapshot()))
    {
      for k := 0 to CharsetSize
        invariant forall a :: 0 <= a < k ==> memory[a] == Charset[a]
        invariant forall a :: k <= a < MemorySize ==> memory[a] == old(memory[a])
      {
        memory[k] := Charset[k];
      }
      ghost var expected := S.LoadCharset(old(Snapshot()));
      assert forall a :: 0 <= a < MemorySize ==> memory[a] == expected.memory[a];
      assert memory[..] == expected.memory;
    }

    /** `loadRom`: copy rom[k] to memory[0x200 + k]. */
    method LoadRom(rom: seq<Byte>)
      requires Valid() && |rom| <= MemorySize - ProgramStart
      modifies memory
      ensures Valid() && Snapshot() == S.LoadRom(old(Snapshot()), rom)
    {
      for k := 0 to |rom|
        invariant memory[..] == old(memory[..])[..ProgramStart] + rom[..k] + old(memory[..])[ProgramStart + k..]
      {
        memory[ProgramStart + k] := rom[k];
        assert memory[..] == old(memory[..])[..ProgramStart] + rom[..k + 1] + old(memory[..])[ProgramStart + k + 1..];
      }
      assert rom[..|rom|] == rom;
    }

    /** `setV`: the register array is a Uint8Array, so the value is stored modulo 256. */
    method SetV(vi: Nibble, val: int)
      requires Valid()
      modifies v
      ensures Valid() && Snapshot() == S.SetV(old(Snapshot()), vi, val)
    {
      v[vi] := S.Wrap8(val);
    }

    method SetI(val: int)
      requires Valid()
      modifies this
      ensures Valid() && Snapshot() == S.SetI(old(Snapshot()), val)
    {
      i := val;
    }

    method SetMemory(addr: int, val: Byte)
      requires Valid() && 0 <= addr < MemorySize
      modifies memory
      ensures Valid() && Snapshot() == S.SetMemory(old(Snapshot()), addr, val)
    {
      memory[addr] := val;
    }

    method SetDelayTimer(val: int)
      requires Valid()
      modifies this
      ensures Valid() && Snapshot() == S.SetDelayTimer(old(Snapshot()), val)
    {
      delayTimer := val;
    }

    // -------------------------------------------------------------------
    // Control flow

    /** 00E0: a fresh blank display replaces the old one. */
    method Cls()
      requires Valid()
      modifies this
      ensures Valid() && Snapshot() == S.Cls(old(Snapshot())) && fresh(display)
      ensures memory == old(memory) && v == old(v)
    {
      display := new Bit[DisplaySize](_ => 0);
    }

    /** 00EE: `pc = stack.pop()`. */
    method Ret()
      requires Valid() && |stack| > 0
      modifies this
      ensures Valid() && Snapshot() == S.Ret(old(Snapshot()))
      ensures memory == old(memory) && v == old(v) && display == old(display)
    {
      pc := stack[|stack| - 1];
      stack := stack[..|stack| - 1];
    }

    /** 1nnn */
    method Jp(addr: Addr)
      requires Valid()
      modifies this
      ensures Valid() && Snapshot() == S.Jp(old(Snapshot()), addr)
      ensures memory == old(memory) && v == old(v) && display == old(display)
    {
      pc := addr;
    }

    /** 2nnn: `stack.push(pc)`, then jump. */
    method Call(addr: Addr)
      requires Valid()
      modifies this
      ensures Valid() && Snapshot() == S.Call(old(Snapshot()), addr)
      ensures memory == old(memory) && v == old(v) && display == old(display)
    {
      stack := stack + [pc];
      pc := addr;
    }

    /** 3xkk */
    method Se(x: Nibble, kk: Byte)
      requires Valid()
      modifies this
      ensures Valid() && Snapshot() == S.Se(old(Snapshot()), x, kk)
      ensures memory == old(memory) && v == old(v) && display == old(display)
    {
      if v[x] == kk {
        pc := pc + 2;
      }
    }

    /** 4xkk */
    method Sne(x: Nibble, kk: Byte)
      requires Valid()
      modifies this
      ensures Valid() && Snapshot() == S.Sne(old(Snapshot()), x, kk)
      ensures memory == old(memory) && v == old(v) && display == old(display)
    {
      if v[x] != kk {
        pc := pc + 2;
      }
    }

    /** 5xy0 */
    method SeXY(x: Nibble, y: Nibble)
      requires Valid()
      modifies this
      ensures Valid() && Snapshot() == S.SeXY(old(Snapshot()), x, y)
      ensures memory == old(memory) && v == old(v) && display == old(display)
    {
      if v[x] == v[y] {
        pc := pc + 2;
      }
    }

    /** 9xy0 */
    method SneXY(x: Nibble, y: Nibble)
      requires Valid()
      modifies this
      ensures Valid() && Snapshot() == S.SneXY(old(Snapshot()), x, y)
      ensures memory == old(memory) && v == old(v) && display == old(display)
    {
      if v[x] != v[y] {
        pc := pc + 2;
      }
    }

    /** Bnnn */
    method JpV0(addr: Addr)
      requires Valid()
      modifies this
      ensures Valid() && Snapshot() == S.JpV0(old(Snapshot()), addr)
      ensures memory == old(memory) && v == old(v) && display == old(display)
    {
      pc := v[0] + addr;
    }

    /** Ex9E: `keys[v[x]] === true`. */
    method Skp(x: Nibble, keys: map<int, bool>)
      requires Valid()
      modifies this
      ensures Valid() && Snapshot() == S.Skp(old(Snapshot()), x, keys)
      ensures memory == old(memory) && v == old(v) && display == old(display)
    {
      if v[x] in keys && keys[v[x]] == true {
        pc := pc + 2;
      }
    }

    /** ExA1: `keys[v[x]] === false`. */
    method Sknp(x: Nibble, keys: map<int, bool>)
      requires Valid()
      modifies this
      ensures Valid() && Snapshot() == S.Sknp(old(Snapshot()), x, keys)
      ensures memory == old(memory) && v == old(v) && display == old(display)
    {
      if v[x] in keys && keys[v[x]] == false {
        pc := pc + 2;
      }
    }

    // -------------------------------------------------------------------
    // Registers

    /** 6xkk */
    method Ld(x: Nibble, kk: Byte)
      requires Valid()
      modifies v
      ensures Valid() && Snapshot() == S.Ld(old(Snapshot()), x, kk)
    {
      v[x] := kk;
    }

    /** 7xkk: `v[x] += kk` on a Uint8Array cell. */
    method Add(x: Nibble, kk: Byte)
      requires Valid()
      modifies v
      ensures Valid() && Snapshot() == S.Add(old(Snapshot()), x, kk)
    {
      v[x] := S.Wrap8(v[x] as int + kk);
    }

    /** 8xy0 */
    method LdXY(x: Nibble, y: Nibble)
      requires Valid()
      modifies v
      ensures Valid() && Snapshot() == S.LdXY(old(Snapshot()), x, y)
    {
      v[x] := v[y];
    }

    /** 8xy1 */
    method OrXY(x: Nibble, y: Nibble)
      requires Valid()
      modifies v
      ensures Valid() && Snapshot() == S.OrXY(old(Snapshot()), x, y)
    {
      v[x] := S.BitOr(v[x], v[y]);
    }

    /** 8xy2 */
    method AndXY(x: Nibble, y: Nibble)
      requires Valid()
      modifies v
      ensures Valid() && Snapshot() == S.AndXY(old(Snapshot()), x, y)
    {
      v[x] := S.BitAnd(v[x], v[y]);
    }

    /** 8xy3 */
    method XorXY(x: Nibble, y: Nibble)
      requires Valid()
      modifies v
      ensures Valid() && Snapshot() == S.XorXY(old(Snapshot()), x, y)
    {
      v[x] := S.BitXor(v[x], v[y]);
    }

    /** 8xy4: the carry goes to VF first, then the sum (mod 256) to Vx. */
    method AddXY(x: Nibble, y: Nibble)
      requires Valid()
      modifies v
      ensures Valid() && Snapshot() == S.AddXY(old(Snapshot()), x, y)
    {
      var sum := v[x] as int + v[y];
      v[VF] := if sum > 0xFF then 1 else 0;
      v[x] := S.Wrap8(sum);
    }

    /** 8xy5: VF := (Vx > Vy) first, then the difference (mod 256) to Vx. */
    method SubXY(x: Nibble, y: Nibble)
      requires Valid()
      modifies v
      ensures Valid() && Snapshot() == S.SubXY(old(Snapshot()), x, y)
    {
      var difference := v[x] as int - v[y];
      v[VF] := if v[x] > v[y] then 1 else 0;
      v[x] := S.Wrap8(difference);
    }

    /** 8xy6 */
    method ShrX(x: Nibble)
      requires Valid()
      modifies v
      ensures Valid() && Snapshot() == S.ShrX(old(Snapshot()), x)
    {
      var vx := v[x];
      v[VF] := vx % 2;
      v[x] := vx / 2;
    }

    /** 8xy7: VF := (Vy > Vx) first, then Vy - Vx (mod 256) to Vx. */
    method SubnXY(x: Nibble, y: Nibble)
      requires Valid()
      modifies v
      ensures Valid() && Snapshot() == S.SubnXY(old(Snapshot()), x, y)
    {
      var difference := v[y] as int - v[x];
      v[VF] := if v[y] > v[x] then 1 else 0;
      v[x] := S.Wrap8(difference);
    }

    /** 8xyE */
    method ShlX(x: Nibble)
      requires Valid()
      modifies v
      ensures Valid() && Snapshot() == S.ShlX(old(Snapshot()), x)
    {
      var vx: int := v[x];
      v[VF] := vx / 128;
      v[x] := S.Wrap8(vx * 2);
    }

    /** Cxkk, with the random byte passed in. */
    method Rnd(x: Nibble, kk: Byte, random: Byte)
      requires Valid()
      modifies v
      ensures Valid() && Snapshot() == S.Rnd(old(Snapshot()), x, kk, random)
    {
      v[x] := S.BitAnd(random, kk);
    }

    /** Fx07 */
    method LdVxDT(x: Nibble)
      requires Valid()
      modifies v
      ensures Valid() && Snapshot() == S.LdVxDT(old(Snapshot()), x)
    {
      v[x] := S.Wrap8(delayTimer);
    }

    /** Fx15 */
    method LdDTVx(x: Nibble)
      requires Valid()
      modifies this
      ensures Valid() && Snapshot() == S.LdDTVx(old(Snapshot()), x)
      ensures memory == old(memory) && v == old(v) && display == old(display)
    {
      delayTimer := v[x];
    }

    /** Annn */
    method LdI(addr: Addr)
      requires Valid()
      modifies this
      ensures Valid() && Snapshot() == S.LdI(old(Snapshot()), addr)
      ensures memory == old(memory) && v == old(v) && display == old(display)
    {
      i := addr;
    }

    /** Fx1E */
    method AddIVx(x: Nibble)
      requires Valid()
      modifies this
      ensures Valid() && Snapshot() == S.AddIVx(old(Snapshot()), x)
      ensures memory == old(memory) && v == old(v) && display == old(display)
    {
      i := i + v[x];
    }

    /** Fx29: `i = charOffset[v[x]]`. */
    method LdFVx(x: Nibble)
      requires Valid() && v[x] < |CharOffset|
      modifies this
      ensures Valid() && Snapshot() == S.LdFVx(old(Snapshot()), x)
      ensures memory == old(memory) && v == old(v) && display == old(display)
    {
      i := CharOffset[v[x]];
    }

    // -------------------------------------------------------------------
    // Memory

    /** Fx55: for each r in 0..x, memory[I + r] := V[r]. */
    method LdIndirectIVx(x: Nibble)
      requires Valid() && 0 <= i && i + x < MemorySize
      modifies memory
      ensures Valid() && Snapshot() == S.LdIndirectIVx(old(Snapshot()), x)
    {
      for r := 0 to x + 1
        invariant memory[..] == old(memory[..])[..i] + v[..r] + old(memory[..])[i + r..]
      {
        memory[i + r] := v[r];
        assert memory[..] == old(memory[..])[..i] + v[..r + 1] + old(memory[..])[i + r + 1..];
      }
    }

    /** Fx65: for each r in 0..x, V[r] := memory[I + r]. */
    method LdVxIndirectI(x: Nibble)
      requires Valid() && 0 <= i && i + x < MemorySize
      modifies v
      ensures Valid() && Snapshot() == S.LdVxIndirectI(old(Snapshot()), x)
    {
      for r := 0 to x + 1
        invariant forall k :: 0 <= k < r ==> v[k] == memory[i + k]
        invariant forall k :: r <= k < RegisterCount ==> v[k] == old(v[k])
      {
        v[r] := memory[i + r];
      }
      ghost var expected := S.LdVxIndirectI(old(Snapshot()), x);
      assert forall k :: 0 <= k < RegisterCount ==> v[k] == expected.v[k];
      assert v[..] == expected.v;
    }

    /** Fx33: the digits of toBCD(Vx) to memory[I], memory[I + 1], memory[I + 2]. */
    method LdB(x: Nibble)
      requires Valid() && 0 <= i && i + 2 < MemorySize
      modifies memory
      ensures Valid() && Snapshot() == S.LdB(old(Snapshot()), x)
    {
      var digits := S.BCD(v[x]);
      ghost var before := memory[..];
      for k := 0 to 3
        invariant forall j :: 0 <= j < MemorySize && !(i <= j < i + k) ==> memory[j] == before[j]
        invariant forall j :: i <= j < i + k ==> memory[j] == digits[j - i]
      {
        memory[i + k] := digits[k];
      }
      assert memory[..] == before[..i] + digits + before[i + 3..];
    }

    // -------------------------------------------------------------------
    // Display

    /**
     * Dxyn: for each row and column, XOR the sprite bit into the display
     * cell and remember in `vf` whether a set bit met a lit cell; VF := vf.
     */
    method Drw(x: Nibble, y: Nibble, n: Nibble)
      requires Valid() && Sprite.Fits(i, v[x], v[y], n)
      modifies display, v
      ensures Valid() && Snapshot() == S.Drw(old(Snapshot()), x, y, n)
    {
      ghost var s0 := Snapshot();
      ghost var before := display[..];
      ghost var m := memory[..];
      var vf: Bit := 0;
      var xCoord, yCoord, base := v[x], v[y], i;
      for row := 0 to n
        modifies display
        invariant memory[..] == m
        invariant display[..] == Sprite.Scan(before, m, base, xCoord, yCoord, n, row, 0).cells
        invariant vf == if Sprite.Scan(before, m, base, xCoord, yCoord, n, row, 0).hit then 1 else 0
      {
        vf := DrawRow(before, m, base, xCoord, yCoord, n, row, vf);
      }
      ghost var expected := S.Drw(s0, x, y, n);
      assert expected.display == display[..];
      assert expected.v == s0.v[VF := vf as Byte];
      v[VF] := vf;
      assert v[..] == expected.v;
    }

    /** One row of Dxyn: the eight pixels of sprite line `row`, most significant bit first. */
    method DrawRow(ghost before: seq<Bit>, ghost m: seq<Byte>, base: int, xCoord: Byte, yCoord: Byte, n: Nibble, row: nat, vf: Bit)
      returns (vf': Bit)
      requires Valid() && memory[..] == m && |before| == DisplaySize && Sprite.Fits(base, xCoord, yCoord, n) && row < n
      requires display[..] == Sprite.Scan(before, m, base, xCoord, yCoord, n, row, 0).cells
      requires vf == if Sprite.Scan(before, m, base, xCoord, yCoord, n, row, 0).hit then 1 else 0
      modifies display
      ensures display[..] == Sprite.Scan(before, m, base, xCoord, yCoord, n, row + 1, 0).cells
      ensures vf' == if Sprite.Scan(before, m, base, xCoord, yCoord, n, row + 1, 0).hit then 1 else 0
    {
      var line := memory[base + row];
      vf' := vf;
      for col := 0 to 8
        invariant display[..] == Sprite.Scan(before, m, base, xCoord, yCoord, n, row, col).cells
        invariant vf' == if Sprite.Scan(before, m, base, xCoord, yCoord, n, row, col).hit then 1 else 0
      {
        var val := Sprite.SpriteBit(line, col);
        var index := Helpers.To1D(col + xCoord, row + yCoord);
        var prevVal := display[index];
        display[index] := Sprite.Xor(val, prevVal);
        if val == 1 && prevVal == 1 {
          vf' := 1;
        }
      }
    }
  }

  // ---------------------------------------------------------------------
  // Dispatch on a clone

  /**
   * `decode(chip, opcode, keyboard)`: deep-copy the object, advance the
   * copy's PC by 2 and run the handler the word selects on it; an
   * unrecognised word is an error.  The caller's object is not modified.
   */
  method Decode(chip: Chip8, opcode: Word, keys: map<int, bool>, random: Byte) returns (r: Result<Chip8, D.Error>)
    requires chip.Valid() && D.CanRun(chip.Snapshot(), opcode)
    ensures r.Failure? <==> D.Decode(opcode).None?
    ensures r.Failure? ==> r.error == D.IllegalOpcode(opcode)
    ensures r.Success? ==> fresh(r.value) && r.value.Valid()
    ensures r.Success? ==> r.value.Snapshot() == D.Run(chip.Snapshot(), opcode, keys, random).value
  {
    ghost var s := chip.Snapshot();
    var c := new Chip8.Clone(chip);
    c.pc := c.pc + 2;
    assert c.Snapshot() == s.(pc := s.pc + 2);
    match D.Decode(opcode)
    case None =>
      return Failure(D.IllegalOpcode(opcode));
    case Some(ins) =>
      ghost var after := D.Execute(s.(pc := s.pc + 2), ins, keys, random);
      assert D.Run(s, opcode, keys, random) == Success(after);
      Execute(c, ins, keys, random);
      assert c.Snapshot() == after;
      return Success(c);
  }

  /** The handler call of one table entry, on the object itself. */
  method Execute(c: Chip8, ins: D.Instr, keys: map<int, bool>, random: Byte)
    requires c.Valid() && D.Safe(c.Snapshot(), ins)
    modifies c, c.memory, c.v, c.display
    ensures c.Valid() && c.Snapshot() == D.Execute(old(c.Snapshot()), ins, keys, random)
  {
    if IsControl(ins) {
      ExecuteControl(c, ins, keys);
    } else if IsRegister(ins) {
      ExecuteRegister(c, ins, random);
    } else {
      ExecuteMemory(c, ins);
    }
  }

  predicate IsControl(ins: D.Instr)
  {
    ins.Cls? || ins.Ret? || ins.Jp? || ins.Call? || ins.Se? || ins.Sne? || ins.SneXY? || ins.Skp? || ins.Sknp?
  }

  predicate IsRegister(ins: D.Instr)
  {
    ins.Ld? || ins.Add? || ins.LdXY? || ins.AndXY? || ins.Rnd? || ins.LdVxDT? || ins.LdDTVx?
  }

  method ExecuteControl(c: Chip8, ins: D.Instr, keys: map<int, bool>)
    requires c.Valid() && D.Safe(c.Snapshot(), ins) && IsControl(ins)
    modifies c
    ensures c.Valid() && forall random :: c.Snapshot() == D.Execute(old(c.Snapshot()), ins, keys, random)
  {
    match ins
    case Cls => c.Cls();
    case Ret => c.Ret();
    case Jp(nnn) => c.Jp(nnn);
    case Call(nnn) => c.Call(nnn);
    case Se(x, kk) => c.Se(x, kk);
    case Sne(x, kk) => c.Sne(x, kk);
    case SneXY(x, y) => c.SneXY(x, y);
    case Skp(x) => c.Skp(x, keys);
    case Sknp(x) => c.Sknp(x, keys);
  }

  method ExecuteRegister(c: Chip8, ins: D.Instr, random: Byte)
    requires c.Valid() && IsRegister(ins)
    modifies c, c.v
    ensures c.Valid() && forall keys :: c.Snapshot() == D.Execute(old(c.Snapshot()), ins, keys, random)
  {
    match ins
    case Ld(x, kk) => c.Ld(x, kk);
    case Add(x, kk) => c.Add(x, kk);
    case LdXY(x, y) => c.LdXY(x, y);
    case AndXY(x, y) => c.AndXY(x, y);
    case Rnd(x, kk) => c.Rnd(x, kk, random);
    case LdVxDT(x) => c.LdVxDT(x);
    case LdDTVx(x) => c.LdDTVx(x);
  }

  method ExecuteMemory(c: Chip8, ins: D.Instr)
    requires c.Valid() && D.Safe(c.Snapshot(), ins) && !IsControl(ins) && !IsRegister(ins)
    modifies c, c.memory, c.v, c.display
    ensures c.Valid() && forall keys, random :: c.Snapshot() == D.Execute(old(c.Snapshot()), ins, keys, random)
  {
    match ins
    case LdI(nnn) => c.LdI(nnn);
    case Drw(x, y, n) => c.Drw(x, y, n);
    case AddIVx(x) => c.AddIVx(x);
    case LdFVx(x) => c.LdFVx(x);
    case LdB(x) => c.LdB(x);
    case LdIndirectIVx(x) => c.LdIndirectIVx(x);
    case LdVxIndirectI(x) => c.LdVxIndirectI(x);
  }

  /** `cycle(chip, keyboard)`: decode the word stored at PC. */
  method Cycle(chip: Chip8, keys: map<int, bool>, random: Byte) returns (r: Result<Chip8, D.Error>)
    requires chip.Valid() && 0 <= chip.pc && chip.pc + 1 < MemorySize
    requires D.CanRun(chip.Snapshot(), S.Fetch(chip.Snapshot(), None))
    ensures r.Failure? <==> D.Cycle(chip.Snapshot(), keys, random).Failure?
    ensures r.Failure? ==> r.error == D.Cycle(chip.Snapshot(), keys, random).error
    ensures r.Success? ==> fresh(r.value) && r.value.Valid()
    ensures r.Success? ==> r.value.Snapshot() == D.Cycle(chip.Snapshot(), keys, random).value
  {
    var opcode := S.Fetch(chip.Snapshot(), None);
    r := Decode(chip, opcode, keys, random);
  }
}
