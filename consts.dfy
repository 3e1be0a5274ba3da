/**
 * The machine's fixed numbers: sizes, the program start address, the
 * built-in hexadecimal font and the glyph offset table (Cowgod's Chip-8
 * Technical Reference, section 2.4).
 */
module Consts {

  /** A memory cell or an 8-bit register. */
  type Byte = b: int | 0 <= b < 256

  /** A display cell: 0 (off) or 1 (on). */
  type Bit = b: int | 0 <= b < 2

  /** A register index or any other 4-bit opcode field. */
  type Nibble = n: int | 0 <= n < 16

  /** The 12-bit address operand `nnn`. */
  type Addr = a: int | 0 <= a < 0x1000

  /** A 16-bit instruction word. */
  type Word = w: int | 0 <= w < 0x1_0000

  const MemorySize: nat := 4096
  const RegisterCount: nat := 16
  const ScreenWidth: nat := 64
  const ScreenHeight: nat := 32
  const DisplaySize: nat := 64 * 32
  const ProgramStart: nat := 0x200
  /** Register VF, the carry/borrow/collision flag. */
  const VF: Nibble := 0xF
  /** Number of font bytes loaded at address 0. */
  const CharsetSize: nat := 0x50

  /** Sixteen glyphs, 0 to F, five rows each. */
  const Charset: seq<Byte> := [
    0xF0, 0x90, 0x90, 0x90, 0xF0, // 0
    0x20, 0x60, 0x20, 0x20, 0x70, // 1
    0xF0, 0x10, 0xF0, 0x80, 0xF0, // 2
    0xF0, 0x10, 0xF0, 0x10, 0xF0, // 3
    0x90, 0x90, 0xF0, 0x10, 0x10, // 4
    0xF0, 0x80, 0xF0, 0x10, 0xF0, // 5
    0xF0, 0x80, 0xF0, 0x90, 0xF0, // 6
    0xF0, 0x10, 0x20, 0x40, 0x40, // 7
    0xF0, 0x90, 0xF0, 0x90, 0xF0, // 8
    0xF0, 0x90, 0xF0, 0x10, 0xF0, // 9
    0xF0, 0x90, 0xF0, 0x90, 0x90, // A
    0xE0, 0x90, 0xE0, 0x90, 0xE0, // B
    0xF0, 0x80, 0x80, 0x80, 0xF0, // C
    0xE0, 0x90, 0x90, 0x90, 0xE0, // D
    0xF0, 0x80, 0xF0, 0x80, 0xF0, // E
    0xF0, 0x80, 0xF0, 0x80, 0x80  // F
  ]

  /** Memory address of each glyph, indexed by the hexadecimal digit. */
  const CharOffset: seq<nat> := [0, 5, 10, 15, 20, 25, 30, 35, 40, 45, 50, 55, 60, 65, 70, 75]

  /** The offset table agrees with the font layout: glyph d starts at 5 * d and lies inside the font. */
  lemma GlyphLayout(d: nat)
    requires d < |CharOffset|
    ensures |Charset| == CharsetSize && |CharOffset| == 16
    ensures CharOffset[d] == 5 * d && CharOffset[d] + 5 <= |Charset|
  {
  }
}
