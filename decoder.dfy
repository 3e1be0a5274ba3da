/**
 * Instruction decoding and dispatch (`decode`), the disassembler
 * (`decode2`) and the fetch-decode-execute step (`cycle`), as functions of
 * the state value.  Opcode names follow Cowgod's Chip-8 Technical
 * Reference, section 3.1.
 */
module Decoder {
  import opened Consts
  import opened Results
  import Helpers
  import Sprite
  import S = Semantics

  /**
   * The instructions the dispatch table reaches, one constructor per
   * handler it calls.  SE Vx, Vy (5xy0), OR, XOR, ADD, SUB, SHR, SUBN and
   * SHL Vx, Vy (8xy1, 8xy3 to 8xy7, 8xyE) and JP V0 (Bnnn) have handlers
   * but no case in the table, so they are not here.
   */
  datatype Instr =
    | Cls
    | Ret
    | Jp(nnn: Addr)
    | Call(nnn: Addr)
    | Se(x: Nibble, kk: Byte)
    | Sne(x: Nibble, kk: Byte)
    | Ld(x: Nibble, kk: Byte)
    | Add(x: Nibble, kk: Byte)
    | LdXY(x: Nibble, y: Nibble)
    | AndXY(x: Nibble, y: Nibble)
    | SneXY(x: Nibble, y: Nibble)
    | LdI(nnn: Addr)
    | Rnd(x: Nibble, kk: Byte)
    | Drw(x: Nibble, y: Nibble, n: Nibble)
    | Skp(x: Nibble)
    | Sknp(x: Nibble)
    | LdVxDT(x: Nibble)
    | LdDTVx(x: Nibble)
    | AddIVx(x: Nibble)
    | LdFVx(x: Nibble)
    | LdB(x: Nibble)
    | LdIndirectIVx(x: Nibble)
    | LdVxIndirectI(x: Nibble)

  /** The one error of the core: `throw new Error("Illegal opcode: ...")`. */
  datatype Error = IllegalOpcode(opcode: Word)

  /** The four nibbles a, b, c, d of a word, bits 15-12, 11-8, 7-4 and 3-0. */
  datatype Fields = Fields(a: Nibble, b: Nibble, c: Nibble, d: Nibble)

  /** `(opcode >> 12) & 0xf`, `(opcode >> 8) & 0xf`, `(opcode >> 4) & 0xf`, `opcode & 0xf`. */
  function Split(op: Word): Fields
  {
    Fields(op / 0x1000 % 16, op / 0x100 % 16, op / 0x10 % 16, op % 16)
  }

  /** The operands: x = b, y = c, kk = (c << 4) + d is the low byte, nnn = (b << 8) + (c << 4) + d the low 12 bits. */
  lemma SplitFields(op: Word)
    ensures var f := Split(op);
      && f.c * 0x10 + f.d == op % 0x100
      && f.b * 0x100 + f.c * 0x10 + f.d == op % 0x1000
      && op == Join(f)
  {
    var f := Split(op);
    assert op % 0x100 == (op / 0x10 % 16) * 0x10 + op % 16;
    assert op % 0x1000 == (op / 0x100 % 16) * 0x100 + op % 0x100;
    assert op == (op / 0x1000) * 0x1000 + op % 0x1000;
  }

  /** Splitting a word built from four nibbles gives the nibbles back. */
  lemma SplitOf(a: Nibble, b: Nibble, c: Nibble, d: Nibble)
    ensures Split(Join(Fields(a, b, c, d))) == Fields(a, b, c, d)
  {
    var op := a * 0x1000 + b * 0x100 + c * 0x10 + d;
    assert op / 0x10 == a * 0x100 + b * 0x10 + c;
    assert op / 0x100 == a * 0x10 + b;
    assert op / 0x1000 == a;
  }

  /** `decode(chip, opcode)` without the execution: the instruction a word stands for, or none. */
  function Decode(op: Word): (r: Option<Instr>)
    ensures r.Some? ==> Encode(r.value) == op
  {
    SplitFields(op);
    DispatchEncodes(Split(op));
    Dispatch(Split(op))
  }

  /** The word made of the four nibbles. */
  function Join(f: Fields): Word
  {
    f.a * 0x1000 + f.b * 0x100 + f.c * 0x10 + f.d
  }

  /** Whatever the table recognises re-encodes to the same nibbles. */
  lemma DispatchEncodes(f: Fields)
    ensures Dispatch(f).Some? ==> Encode(Dispatch(f).value) == Join(f)
  {
    if f.a < 0x8 {
      DispatchEncodesLow(f);
    } else if f.a < 0xE {
      DispatchEncodesMiddle(f);
    } else {
      DispatchEncodesHigh(f);
    }
  }

  lemma DispatchEncodesLow(f: Fields)
    requires f.a < 0x8
    ensures Dispatch(f).Some? ==> Encode(Dispatch(f).value) == Join(f)
  {
  }

  lemma DispatchEncodesMiddle(f: Fields)
    requires 0x8 <= f.a < 0xE
    ensures Dispatch(f).Some? ==> Encode(Dispatch(f).value) == Join(f)
  {
  }

  lemma DispatchEncodesHigh(f: Fields)
    requires 0xE <= f.a
    ensures Dispatch(f).Some? ==> Encode(Dispatch(f).value) == Join(f)
  {
  }

  /** The dispatch table of `decode`, case for case, over the nibbles of the word. */
  function Dispatch(f: Fields): Option<Instr>
  {
    var a, b, c, d := f.a, f.b, f.c, f.d;
    var nnn: Addr := b * 0x100 + c * 0x10 + d;
    var kk: Byte := c * 0x10 + d;
    if a == 0x0 then
      if b == 0x0 && c == 0xE && d == 0x0 then Some(Cls)
      else if b == 0x0 && c == 0xE && d == 0xE then Some(Ret)
      else None
    else if a == 0x1 then Some(Jp(nnn))
    else if a == 0x2 then Some(Call(nnn))
    else if a == 0x3 then Some(Se(b, kk))
    else if a == 0x4 then Some(Sne(b, kk))
    else if a == 0x6 then Some(Ld(b, kk))
    else if a == 0x7 then Some(Add(b, kk))
    else if a == 0x8 then
      if d == 0x0 then Some(LdXY(b, c))
      else if d == 0x2 then Some(AndXY(b, c))
      else None
    else if a == 0x9 then
      if d == 0x0 then Some(SneXY(b, c)) else None
    else if a == 0xA then Some(LdI(nnn))
    else if a == 0xD then Some(Drw(b, c, d))
    else if a == 0xC then Some(Rnd(b, kk))
    else if a == 0xE then
      if c == 0x9 && d == 0xE then Some(Skp(b))
      else if c == 0xA && d == 0x1 then Some(Sknp(b))
      else None
    else if a == 0xF then
      if c == 0x0 && d == 0x7 then Some(LdVxDT(b))
      else if c == 0x1 && d == 0x5 then Some(LdDTVx(b))
      else if c == 0x1 && d == 0xE then Some(AddIVx(b))
      else if c == 0x2 && d == 0x9 then Some(LdFVx(b))
      else if c == 0x3 && d == 0x3 then Some(LdB(b))
      else if c == 0x5 && d == 0x5 then Some(LdIndirectIVx(b))
      else if c == 0x6 && d == 0x5 then Some(LdVxIndirectI(b))
      else None
    else None
  }

  /** The opcode of each instruction as the CHIP-8 instruction set writes it. */
  function Encode(ins: Instr): Word
  {
    match ins
    case Cls => 0x00E0
    case Ret => 0x00EE
    case Jp(nnn) => 0x1000 + nnn
    case Call(nnn) => 0x2000 + nnn
    case Se(x, kk) => 0x3000 + x * 0x100 + kk
    case Sne(x, kk) => 0x4000 + x * 0x100 + kk
    case Ld(x, kk) => 0x6000 + x * 0x100 + kk
    case Add(x, kk) => 0x7000 + x * 0x100 + kk
    case LdXY(x, y) => 0x8000 + x * 0x100 + y * 0x10
    case AndXY(x, y) => 0x8002 + x * 0x100 + y * 0x10
    case SneXY(x, y) => 0x9000 + x * 0x100 + y * 0x10
    case LdI(nnn) => 0xA000 + nnn
    case Rnd(x, kk) => 0xC000 + x * 0x100 + kk
    case Drw(x, y, n) => 0xD000 + x * 0x100 + y * 0x10 + n
    case Skp(x) => 0xE09E + x * 0x100
    case Sknp(x) => 0xE0A1 + x * 0x100
    case LdVxDT(x) => 0xF007 + x * 0x100
    case LdDTVx(x) => 0xF015 + x * 0x100
    case AddIVx(x) => 0xF01E + x * 0x100
    case LdFVx(x) => 0xF029 + x * 0x100
    case LdB(x) => 0xF033 + x * 0x100
    case LdIndirectIVx(x) => 0xF055 + x * 0x100
    case LdVxIndirectI(x) => 0xF065 + x * 0x100
  }

  /** Every instruction's opcode is dispatched back to that instruction. */
  lemma DecodeEncode(ins: Instr)
    ensures Decode(Encode(ins)) == Some(ins)
  {
    var f := Operands(ins);
    SplitOf(f.a, f.b, f.c, f.d);
    match ins
    case Cls => assert Dispatch(f) == Some(ins);
    case Ret => assert Dispatch(f) == Some(ins);
    case Jp(_) => DispatchAddress(ins);
    case Call(_) => DispatchAddress(ins);
    case LdI(_) => DispatchAddress(ins);
    case Se(_, _) => DispatchByte(ins);
    case Sne(_, _) => DispatchByte(ins);
    case Ld(_, _) => DispatchByte(ins);
    case Add(_, _) => DispatchByte(ins);
    case Rnd(_, _) => DispatchByte(ins);
    case LdXY(_, _) => DispatchPair(ins);
    case AndXY(_, _) => DispatchPair(ins);
    case SneXY(_, _) => DispatchPair(ins);
    case Drw(_, _, _) => DispatchPair(ins);
    case Skp(_) => DispatchKey(ins);
    case Sknp(_) => DispatchKey(ins);
    case LdVxDT(_) => DispatchMisc(ins);
    case LdDTVx(_) => DispatchMisc(ins);
    case AddIVx(_) => DispatchMisc(ins);
    case LdFVx(_) => DispatchMisc(ins);
    case LdB(_) => DispatchMisc(ins);
    case LdIndirectIVx(_) => DispatchMisc(ins);
    case LdVxIndirectI(_) => DispatchMisc(ins);
  }

  lemma DispatchAddress(ins: Instr)
    requires ins.Jp? || ins.Call? || ins.LdI?
    ensures Dispatch(Operands(ins)) == Some(ins)
  {
  }

  lemma DispatchByte(ins: Instr)
    requires ins.Se? || ins.Sne? || ins.Ld? || ins.Add? || ins.Rnd?
    ensures Dispatch(Operands(ins)) == Some(ins)
  {
  }

  lemma DispatchPair(ins: Instr)
    requires ins.LdXY? || ins.AndXY? || ins.SneXY? || ins.Drw?
    ensures Dispatch(Operands(ins)) == Some(ins)
  {
  }

  lemma DispatchKey(ins: Instr)
    requires ins.Skp? || ins.Sknp?
    ensures Dispatch(Operands(ins)) == Some(ins)
  {
  }

  lemma DispatchMisc(ins: Instr)
    requires ins.LdVxDT? || ins.LdDTVx? || ins.AddIVx? || ins.LdFVx? || ins.LdB? || ins.LdIndirectIVx? || ins.LdVxIndirectI?
    ensures Dispatch(Operands(ins)) == Some(ins)
  {
  }

  /** The nibbles of an instruction's opcode. */
  function Operands(ins: Instr): (f: Fields)
    ensures Encode(ins) == Join(f)
  {
    match ins
    case Cls => Fields(0x0, 0x0, 0xE, 0x0)
    case Ret => Fields(0x0, 0x0, 0xE, 0xE)
    case Jp(nnn) => AddrFields(0x1, nnn)
    case Call(nnn) => AddrFields(0x2, nnn)
    case Se(x, kk) => ByteFields(0x3, x, kk)
    case Sne(x, kk) => ByteFields(0x4, x, kk)
    case Ld(x, kk) => ByteFields(0x6, x, kk)
    case Add(x, kk) => ByteFields(0x7, x, kk)
    case LdXY(x, y) => Fields(0x8, x, y, 0x0)
    case AndXY(x, y) => Fields(0x8, x, y, 0x2)
    case SneXY(x, y) => Fields(0x9, x, y, 0x0)
    case LdI(nnn) => AddrFields(0xA, nnn)
    case Rnd(x, kk) => ByteFields(0xC, x, kk)
    case Drw(x, y, n) => Fields(0xD, x, y, n)
    case Skp(x) => Fields(0xE, x, 0x9, 0xE)
    case Sknp(x) => Fields(0xE, x, 0xA, 0x1)
    case LdVxDT(x) => Fields(0xF, x, 0x0, 0x7)
    case LdDTVx(x) => Fields(0xF, x, 0x1, 0x5)
    case AddIVx(x) => Fields(0xF, x, 0x1, 0xE)
    case LdFVx(x) => Fields(0xF, x, 0x2, 0x9)
    case LdB(x) => Fields(0xF, x, 0x3, 0x3)
    case LdIndirectIVx(x) => Fields(0xF, x, 0x5, 0x5)
    case LdVxIndirectI(x) => Fields(0xF, x, 0x6, 0x5)
  }

  function AddrFields(a: Nibble, nnn: Addr): (f: Fields)
    ensures f.a == a && f.b * 0x100 + f.c * 0x10 + f.d == nnn
  {
    Fields(a, nnn / 0x100, nnn / 0x10 % 16, nnn % 16)
  }

  function ByteFields(a: Nibble, x: Nibble, kk: Byte): (f: Fields)
    ensures f.a == a && f.b == x && f.c * 0x10 + f.d == kk
  {
    Fields(a, x, kk / 0x10, kk % 16)
  }

  /** A word is recognised exactly when it is the opcode of some instruction. */
  lemma RecognisedIffEncoded(op: Word)
    ensures Decode(op).Some? <==> exists ins :: Encode(ins) == op
  {
    if ins :| Encode(ins) == op {
      DecodeEncode(ins);
    }
  }

  /** Whole opcode families that the table rejects. */
  lemma IllegalFamilies(op: Word)
    ensures var f := Split(op);
      (f.a == 0x5 || f.a == 0xB
       || (f.a == 0x0 && op != 0x00E0 && op != 0x00EE)
       || (f.a == 0x8 && f.d != 0x0 && f.d != 0x2)
       || (f.a == 0x9 && f.d != 0x0)
       || (f.a == 0xE && f.c * 0x10 + f.d != 0x9E && f.c * 0x10 + f.d != 0xA1))
      ==> Decode(op) == None
  {
    SplitFields(op);
  }

  // ---------------------------------------------------------------------
  // Disassembly

  /** "Illegal opcode: " followed by the word in lower-case hexadecimal, as both `decode` and `decode2` write it. */
  function IllegalText(op: Word): string
  {
    "Illegal opcode: " + Helpers.NumberToString(op, 16)
  }

  /** The message of the error `decode` throws. */
  function Message(e: Error): string
  {
    IllegalText(e.opcode)
  }

  /** The text names the word: its hexadecimal part reads back as the word. */
  lemma IllegalTextNamesWord(op: Word)
    ensures |IllegalText(op)| > 16 && IllegalText(op)[..16] == "Illegal opcode: "
    ensures Helpers.ParseDigits(IllegalText(op)[16..], 16) == op
  {
    Helpers.ParseNumberToString(op, 16);
    assert IllegalText(op)[16..] == Helpers.NumberToString(op, 16);
  }

  /** The fixed mnemonic `decode2` shows for each instruction. */
  function Mnemonic(ins: Instr): string
  {
    match ins
    case Cls => "CLS"
    case Ret => "RET"
    case Jp(_) => "JP addr"
    case Call(_) => "CALL addr"
    case Se(_, _) => "SE Vx, byte"
    case Sne(_, _) => "SNE Vx, byte"
    case Ld(_, _) => "LD Vx, byte"
    case Add(_, _) => "ADD Vx, byte"
    case LdXY(_, _) => "LD Vx, Vy"
    case AndXY(_, _) => "AND Vx, Vy"
    case SneXY(_, _) => "SNE Vx, Vy"
    case LdI(_) => "LD I, addr"
    case Rnd(_, _) => "RND Vx, byte"
    case Drw(_, _, _) => "DRW Vx, Vy, nibble"
    case Skp(_) => "SKP Vx"
    case Sknp(_) => "SKNP Vx"
    case LdVxDT(_) => "LD Vx, DT"
    case LdDTVx(_) => "LD DT, Vx"
    case AddIVx(_) => "ADD I, Vx"
    case LdFVx(_) => "Fx29"
    case LdB(_) => "Fx33"
    case LdIndirectIVx(_) => "Fx55"
    case LdVxIndirectI(_) => "Fx65"
  }

  /** `decode2(chip, pc)`: the mnemonic of the word at the address, by its own copy of the table. */
  function Decode2(s: S.State, pc: Option<int>): string
    requires S.Wf(s)
    requires 0 <= S.FetchAddress(s, pc) && S.FetchAddress(s, pc) + 1 < MemorySize
  {
    var op := S.Fetch(s, pc);
    var f := Split(op);
    var a, b, c, d := f.a, f.b, f.c, f.d;
    if a == 0x0 then
      if b == 0x0 && c == 0xE && d == 0x0 then "CLS"
      else if b == 0x0 && c == 0xE && d == 0xE then "RET"
      else IllegalText(op)
    else if a == 0x1 then "JP addr"
    else if a == 0x2 then "CALL addr"
    else if a == 0x3 then "SE Vx, byte"
    else if a == 0x4 then "SNE Vx, byte"
    else if a == 0x6 then "LD Vx, byte"
    else if a == 0x7 then "ADD Vx, byte"
    else if a == 0x8 then
      if d == 0x0 then "LD Vx, Vy"
      else if d == 0x2 then "AND Vx, Vy"
      else IllegalText(op)
    else if a == 0x9 then
      if d == 0x0 then "SNE Vx, Vy" else IllegalText(op)
    else if a == 0xA then "LD I, addr"
    else if a == 0xD then "DRW Vx, Vy, nibble"
    else if a == 0xC then "RND Vx, byte"
    else if a == 0xE then
      if c == 0x9 && d == 0xE then "SKP Vx"
      else if c == 0xA && d == 0x1 then "SKNP Vx"
      else IllegalText(op)
    else if a == 0xF then
      if c == 0x0 && d == 0x7 then "LD Vx, DT"
      else if c == 0x1 && d == 0x5 then "LD DT, Vx"
      else if c == 0x1 && d == 0xE then "ADD I, Vx"
      else if c == 0x2 && d == 0x9 then "Fx29"
      else if c == 0x3 && d == 0x3 then "Fx33"
      else if c == 0x5 && d == 0x5 then "Fx55"
      else if c == 0x6 && d == 0x5 then "Fx65"
      else IllegalText(op)
    else IllegalText(op)
  }

  /** The disassembler's table agrees with the dispatch table, word for word. */
  lemma Decode2AgreesWithDecode(s: S.State, pc: Option<int>)
    requires S.Wf(s)
    requires 0 <= S.FetchAddress(s, pc) && S.FetchAddress(s, pc) + 1 < MemorySize
    ensures var op := S.Fetch(s, pc);
      Decode2(s, pc) == match Decode(op) case None => IllegalText(op) case Some(ins) => Mnemonic(ins)
  {
    var f := Split(S.Fetch(s, pc));
    if f.a < 0x8 {
      Decode2AgreesLow(s, pc);
    } else if f.a < 0xE {
      Decode2AgreesMiddle(s, pc);
    } else if f.a == 0xE {
      Decode2AgreesKeys(s, pc);
    } else {
      Decode2AgreesMisc(s, pc);
    }
  }

  lemma Decode2AgreesLow(s: S.State, pc: Option<int>)
    requires S.Wf(s)
    requires 0 <= S.FetchAddress(s, pc) && S.FetchAddress(s, pc) + 1 < MemorySize
    requires Split(S.Fetch(s, pc)).a < 0x8
    ensures var op := S.Fetch(s, pc);
      Decode2(s, pc) == match Decode(op) case None => IllegalText(op) case Some(ins) => Mnemonic(ins)
  {
  }

  lemma Decode2AgreesMiddle(s: S.State, pc: Option<int>)
    requires S.Wf(s)
    requires 0 <= S.FetchAddress(s, pc) && S.FetchAddress(s, pc) + 1 < MemorySize
    requires 0x8 <= Split(S.Fetch(s, pc)).a < 0xE
    ensures var op := S.Fetch(s, pc);
      Decode2(s, pc) == match Decode(op) case None => IllegalText(op) case Some(ins) => Mnemonic(ins)
  {
  }

  lemma Decode2AgreesKeys(s: S.State, pc: Option<int>)
    requires S.Wf(s)
    requires 0 <= S.FetchAddress(s, pc) && S.FetchAddress(s, pc) + 1 < MemorySize
    requires Split(S.Fetch(s, pc)).a == 0xE
    ensures var op := S.Fetch(s, pc);
      Decode2(s, pc) == match Decode(op) case None => IllegalText(op) case Some(ins) => Mnemonic(ins)
  {
  }

  lemma Decode2AgreesMisc(s: S.State, pc: Option<int>)
    requires S.Wf(s)
    requires 0 <= S.FetchAddress(s, pc) && S.FetchAddress(s, pc) + 1 < MemorySize
    requires Split(S.Fetch(s, pc)).a == 0xF
    ensures var op := S.Fetch(s, pc);
      Decode2(s, pc) == match Decode(op) case None => IllegalText(op) case Some(ins) => Mnemonic(ins)
  {
  }

  /** `decode2` shows the illegal text exactly for the words `decode` throws on, and the thrown message is that text. */
  lemma Decode2IllegalIff(s: S.State, pc: Option<int>)
    requires S.Wf(s)
    requires 0 <= S.FetchAddress(s, pc) && S.FetchAddress(s, pc) + 1 < MemorySize
    ensures var op := S.Fetch(s, pc);
      && (Decode2(s, pc) == IllegalText(op) <==> Decode(op).None?)
      && (Decode(op).None? ==> Decode2(s, pc) == Message(IllegalOpcode(op)))
  {
    var op := S.Fetch(s, pc);
    Decode2AgreesWithDecode(s, pc);
    if ins :| Decode(op) == Some(ins) {
      assert Mnemonic(ins)[0] != 'I';
      assert IllegalText(op)[0] == 'I';
    }
  }

  // ---------------------------------------------------------------------
  // Execution

  /**
   * What the handler needs of the state so that the JavaScript does not
   * read past an array or grow one: a non-empty stack for RET, a sprite
   * inside memory and display for DRW, a glyph for Fx29, memory cells at
   * I, I+1, ... for Fx33, Fx55 and Fx65.
   */
  predicate Safe(s: S.State, ins: Instr)
    requires S.Wf(s)
  {
    match ins
    case Ret => |s.stack| > 0
    case Drw(x, y, n) => Sprite.Fits(s.i, s.v[x], s.v[y], n)
    case LdFVx(x) => s.v[x] < |CharOffset|
    case LdB(_) => 0 <= s.i && s.i + 2 < MemorySize
    case LdIndirectIVx(x) => 0 <= s.i && s.i + x < MemorySize
    case LdVxIndirectI(x) => 0 <= s.i && s.i + x < MemorySize
    case _ => true
  }

  /** The handler each table entry calls, with the key snapshot and the random byte passed in. */
  function Execute(s: S.State, ins: Instr, keys: map<int, bool>, random: Byte): S.State
    requires S.Wf(s) && Safe(s, ins)
  {
    match ins
    case Cls => S.Cls(s)
    case Ret => S.Ret(s)
    case Jp(nnn) => S.Jp(s, nnn)
    case Call(nnn) => S.Call(s, nnn)
    case Se(x, kk) => S.Se(s, x, kk)
    case Sne(x, kk) => S.Sne(s, x, kk)
    case Ld(x, kk) => S.Ld(s, x, kk)
    case Add(x, kk) => S.Add(s, x, kk)
    case LdXY(x, y) => S.LdXY(s, x, y)
    case AndXY(x, y) => S.AndXY(s, x, y)
    case SneXY(x, y) => S.SneXY(s, x, y)
    case LdI(nnn) => S.LdI(s, nnn)
    case Rnd(x, kk) => S.Rnd(s, x, kk, random)
    case Drw(x, y, n) => S.Drw(s, x, y, n)
    case Skp(x) => S.Skp(s, x, keys)
    case Sknp(x) => S.Sknp(s, x, keys)
    case LdVxDT(x) => S.LdVxDT(s, x)
    case LdDTVx(x) => S.LdDTVx(s, x)
    case AddIVx(x) => S.AddIVx(s, x)
    case LdFVx(x) => S.LdFVx(s, x)
    case LdB(x) => S.LdB(s, x)
    case LdIndirectIVx(x) => S.LdIndirectIVx(s, x)
    case LdVxIndirectI(x) => S.LdVxIndirectI(s, x)
  }

  /** The state demands of the handler a word dispatches to (none for an illegal word). */
  predicate CanRun(s: S.State, op: Word)
    requires S.Wf(s)
  {
    Decode(op).Some? ==> Safe(s, Decode(op).value)
  }

  /** `decode(chip, opcode, keyboard)`: advance PC by 2, then dispatch; an unknown word is an error. */
  function Run(s: S.State, op: Word, keys: map<int, bool>, random: Byte): Result<S.State, Error>
    requires S.Wf(s) && CanRun(s, op)
  {
    match Decode(op)
    case None => Failure(IllegalOpcode(op))
    case Some(ins) => Success(Execute(s.(pc := s.pc + 2), ins, keys, random))
  }

  /** `cycle(chip, keyboard)`: run the word stored at PC. */
  function Cycle(s: S.State, keys: map<int, bool>, random: Byte): Result<S.State, Error>
    requires S.Wf(s) && 0 <= s.pc && s.pc + 1 < MemorySize
    requires CanRun(s, S.Fetch(s, None))
  {
    Run(s, S.Fetch(s, None), keys, random)
  }

  // ---------------------------------------------------------------------
  // Properties of a step

  /** The sizes of memory, registers and display survive every step. */
  lemma ExecuteKeepsWf(s: S.State, ins: Instr, keys: map<int, bool>, random: Byte)
    requires S.Wf(s) && Safe(s, ins)
    ensures S.Wf(Execute(s, ins, keys, random))
  {
  }

  /** A step fails exactly on the words the table does not recognise, and then with the word itself as the error. */
  lemma RunFailsIffIllegal(s: S.State, op: Word, keys: map<int, bool>, random: Byte)
    requires S.Wf(s) && CanRun(s, op)
    ensures Run(s, op, keys, random).Failure? <==> Decode(op).None?
    ensures Run(s, op, keys, random).Failure? ==> Run(s, op, keys, random).error == IllegalOpcode(op)
    ensures Run(s, op, keys, random).Success? ==> S.Wf(Run(s, op, keys, random).value)
  {
    if Decode(op).Some? {
      var t, ins := s.(pc := s.pc + 2), Decode(op).value;
      assert Run(s, op, keys, random) == Success(Execute(t, ins, keys, random));
      ExecuteKeepsWf(t, ins, keys, random);
    }
  }

  /** Instructions that set PC themselves: jumps, calls, returns and conditional skips. */
  predicate Branches(ins: Instr)
  {
    ins.Ret? || ins.Jp? || ins.Call? || ins.Se? || ins.Sne? || ins.SneXY? || ins.Skp? || ins.Sknp?
  }

  /**
   * The stack grows by one on 2nnn, shrinks by one on 00EE and keeps its
   * depth on every other instruction; the branching instructions change
   * nothing but PC and the stack.
   */
  lemma RunStackDepth(s: S.State, op: Word, keys: map<int, bool>, random: Byte)
    requires S.Wf(s) && CanRun(s, op) && Decode(op).Some?
    ensures var ins := Decode(op).value;
      var r := Run(s, op, keys, random);
      && r.Success?
      && |r.value.stack| == |s.stack| + (if ins.Call? then 1 else if ins.Ret? then -1 else 0)
      && (Branches(ins) ==>
            r.value.memory == s.memory && r.value.v == s.v && r.value.display == s.display
            && r.value.i == s.i && r.value.delayTimer == s.delayTimer && r.value.soundTimer == s.soundTimer)
  {
  }

  /** Every other instruction moves PC to the next word and leaves the stack alone. */
  lemma RunAdvancesPc(s: S.State, op: Word, keys: map<int, bool>, random: Byte)
    requires S.Wf(s) && CanRun(s, op)
    requires Decode(op).Some? && !Branches(Decode(op).value)
    ensures Run(s, op, keys, random).Success?
    ensures Run(s, op, keys, random).value.pc == s.pc + 2
    ensures Run(s, op, keys, random).value.stack == s.stack
  {
  }

  /** The condition under which a skip instruction skips the next word. */
  predicate Taken(s: S.State, ins: Instr, keys: map<int, bool>)
    requires S.Wf(s) && (ins.Se? || ins.Sne? || ins.SneXY? || ins.Skp? || ins.Sknp?)
  {
    match ins
    case Se(x, kk) => s.v[x] == kk
    case Sne(x, kk) => s.v[x] != kk
    case SneXY(x, y) => s.v[x] != s.v[y]
    case Skp(x) => s.v[x] in keys && keys[s.v[x]]
    case Sknp(x) => s.v[x] in keys && !keys[s.v[x]]
  }

  /** A skip moves PC by four bytes when taken and by two otherwise, and changes nothing else. */
  lemma RunSkips(s: S.State, op: Word, keys: map<int, bool>, random: Byte)
    requires S.Wf(s) && CanRun(s, op)
    requires Decode(op).Some?
    requires var ins := Decode(op).value; ins.Se? || ins.Sne? || ins.SneXY? || ins.Skp? || ins.Sknp?
    ensures Run(s, op, keys, random) ==
      Success(s.(pc := s.pc + if Taken(s, Decode(op).value, keys) then 4 else 2))
  {
  }

  /** 2nnn pushes the address of the next word and continues at nnn; 1nnn continues at nnn. */
  lemma RunJumps(s: S.State, op: Word, keys: map<int, bool>, random: Byte)
    requires S.Wf(s) && CanRun(s, op)
    requires Decode(op).Some? && (Decode(op).value.Call? || Decode(op).value.Jp?)
    ensures var nnn := op % 0x1000;
      Run(s, op, keys, random) ==
        if Decode(op).value.Call? then Success(s.(pc := nnn, stack := s.stack + [s.pc + 2]))
        else Success(s.(pc := nnn))
  {
    SplitFields(op);
  }

  /** A return after a call continues at the word after the call, with the stack as before. */
  lemma CallThenReturn(s: S.State, nnn: Addr, keys: map<int, bool>, random1: Byte, random2: Byte)
    requires S.Wf(s)
    ensures var called := Run(s, Encode(Call(nnn)), keys, random1);
      && called.Success? && S.Wf(called.value) && CanRun(called.value, Encode(Ret))
      && Run(called.value, Encode(Ret), keys, random2) == Success(s.(pc := s.pc + 2))
  {
    DecodeEncode(Call(nnn));
    DecodeEncode(Ret);
    RunFailsIffIllegal(s, Encode(Call(nnn)), keys, random1);
    var t := Run(s, Encode(Call(nnn)), keys, random1).value;
    assert t.stack[..|t.stack| - 1] == s.stack;
  }

  /** `cycle` fails exactly when the word at PC is not recognised, and otherwise runs it. */
  lemma CycleRunsWordAtPc(s: S.State, keys: map<int, bool>, random: Byte)
    requires S.Wf(s) && 0 <= s.pc && s.pc + 1 < MemorySize
    requires CanRun(s, S.Fetch(s, None))
    ensures var op := s.memory[s.pc] as int * 0x100 + s.memory[s.pc + 1];
      && (Cycle(s, keys, random).Failure? <==> Decode(op).None?)
      && (Decode(op).Some? && !Branches(Decode(op).value) ==>
            Cycle(s, keys, random).Success? && Cycle(s, keys, random).value.pc == s.pc + 2)
  {
    var op := S.Fetch(s, None);
    RunFailsIffIllegal(s, op, keys, random);
    if Decode(op).Some? && !Branches(Decode(op).value) {
      RunAdvancesPc(s, op, keys, random);
    }
  }
}
