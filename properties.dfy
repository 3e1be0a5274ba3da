/**
 * What the instruction handlers promise, stated over the state value:
 * which parts of the state each one changes, what the VF flag means after
 * the arithmetic instructions, and the round trips between handlers.
 */
module HandlerProperties {
  import opened Consts
  import opened Results
  import Helpers
  import Sprite
  import Bits
  import opened Semantics

  // ---------------------------------------------------------------------
  // Boot

  /** After reset, the font and a program: glyphs at 0, the program at 0x200, zeros elsewhere, PC at the program. */
  lemma BootLayout(rom: seq<Byte>)
    requires |rom| <= MemorySize - ProgramStart
    ensures var s := LoadRom(LoadCharset(Reset()), rom);
      && Wf(s) && s.pc == ProgramStart && s.i == 0 && s.stack == []
      && (forall a :: 0 <= a < CharsetSize ==> s.memory[a] == Charset[a])
      && (forall k :: 0 <= k < |rom| ==> s.memory[ProgramStart + k] == rom[k])
      && (forall a :: CharsetSize <= a < ProgramStart ==> s.memory[a] == 0)
      && (forall a :: ProgramStart + |rom| <= a < MemorySize ==> s.memory[a] == 0)
  {
  }

  /** Fx29 then points I at the five bytes of the glyph for the digit in Vx. */
  lemma GlyphAddress(s: State, x: Nibble)
    requires Wf(s) && s.v[x] < 16
    requires forall a :: 0 <= a < CharsetSize ==> s.memory[a] == Charset[a]
    ensures var r := LdFVx(s, x);
      && r == s.(i := 5 * s.v[x])
      && r.i + 5 <= CharsetSize
      && r.memory[r.i..r.i + 5] == Charset[5 * s.v[x]..5 * s.v[x] + 5]
  {
    GlyphLayout(s.v[x]);
  }

  // ---------------------------------------------------------------------
  // Control flow

  /** 00EE undoes 2nnn: the return address pushed by the call is popped back into PC. */
  lemma ReturnUndoesCall(s: State, addr: Addr)
    ensures Ret(Call(s, addr)) == s
  {
    assert (s.stack + [s.pc])[..|s.stack|] == s.stack;
  }

  /** 3xkk and 4xkk: exactly one of them skips. */
  lemma SeSneComplementary(s: State, x: Nibble, kk: Byte)
    requires Wf(s)
    ensures Se(s, x, kk) == s.(pc := s.pc + 2) <==> s.v[x] == kk
    ensures Sne(s, x, kk) == s.(pc := s.pc + 2) <==> s.v[x] != kk
    ensures Se(s, x, kk) == s || Sne(s, x, kk) == s
    ensures Se(s, x, kk) != s || Sne(s, x, kk) != s
  {
  }

  /** 5xy0 and 9xy0: exactly one of them skips. */
  lemma SeSneXYComplementary(s: State, x: Nibble, y: Nibble)
    requires Wf(s)
    ensures SeXY(s, x, y) == s.(pc := s.pc + 2) <==> s.v[x] == s.v[y]
    ensures SneXY(s, x, y) == s.(pc := s.pc + 2) <==> s.v[x] != s.v[y]
    ensures SeXY(s, x, y) == s || SneXY(s, x, y) == s
    ensures SeXY(s, x, y) != s || SneXY(s, x, y) != s
  {
  }

  /**
   * Ex9E and ExA1: when the key numbered Vx has an entry, exactly one of
   * them skips; when it has none, neither does.
   */
  lemma SkpSknpComplementary(s: State, x: Nibble, keys: map<int, bool>)
    requires Wf(s)
    ensures Skp(s, x, keys) == s.(pc := s.pc + 2) <==> (s.v[x] in keys && keys[s.v[x]])
    ensures Sknp(s, x, keys) == s.(pc := s.pc + 2) <==> (s.v[x] in keys && !keys[s.v[x]])
    ensures s.v[x] !in keys ==> Skp(s, x, keys) == s && Sknp(s, x, keys) == s
    ensures s.v[x] in keys ==> (Skp(s, x, keys) == s <==> Sknp(s, x, keys) != s)
  {
  }

  // ---------------------------------------------------------------------
  // Registers

  /** Only Vx and VF can change under the register instructions; the rest of the state stays. */
  predicate RegistersOnly(s: State, r: State, x: Nibble)
    requires Wf(s) && Wf(r)
  {
    && r == s.(v := r.v)
    && forall k :: 0 <= k < RegisterCount && k != x && k != VF ==> r.v[k] == s.v[k]
  }

  lemma RegisterFrame(s: State, x: Nibble, y: Nibble, kk: Byte, random: Byte)
    requires Wf(s)
    ensures RegistersOnly(s, Ld(s, x, kk), x) && RegistersOnly(s, Add(s, x, kk), x)
    ensures RegistersOnly(s, LdXY(s, x, y), x) && RegistersOnly(s, OrXY(s, x, y), x)
    ensures RegistersOnly(s, AndXY(s, x, y), x) && RegistersOnly(s, XorXY(s, x, y), x)
    ensures RegistersOnly(s, AddXY(s, x, y), x) && RegistersOnly(s, SubXY(s, x, y), x)
    ensures RegistersOnly(s, SubnXY(s, x, y), x) && RegistersOnly(s, ShrX(s, x), x)
    ensures RegistersOnly(s, ShlX(s, x), x) && RegistersOnly(s, Rnd(s, x, kk, random), x)
    ensures RegistersOnly(s, LdVxDT(s, x), x)
  {
  }

  /** 6xkk, 7xkk, 8xy0, Cxkk and Fx07 leave VF alone unless VF is their target. */
  lemma NoFlagInstructions(s: State, x: Nibble, y: Nibble, kk: Byte, random: Byte)
    requires Wf(s) && x != VF
    ensures Ld(s, x, kk).v == s.v[x := kk]
    ensures Add(s, x, kk).v == s.v[x := (s.v[x] as int + kk) % 256]
    ensures LdXY(s, x, y).v == s.v[x := s.v[y]]
    ensures LdVxDT(s, x).v == s.v[x := s.delayTimer % 256]
    ensures Rnd(s, x, kk, random).v[x] <= kk && Rnd(s, x, kk, random).v[x] <= random
    ensures Rnd(s, x, kk, random).v[VF] == s.v[VF]
  {
    Bits.ByteBounded(random, kk);
  }

  /** 8xy4 with x other than F: VF is the carry out of bit 7. */
  lemma AddXYCarry(s: State, x: Nibble, y: Nibble)
    requires Wf(s) && x != VF
    ensures var r := AddXY(s, x, y);
      && r.v[VF] as int * 256 + r.v[x] == s.v[x] as int + s.v[y]
      && (r.v[VF] == 1 <==> s.v[x] as int + s.v[y] > 0xFF)
  {
  }

  /** 8xy5 with x other than F: Vx becomes Vx - Vy modulo 256, and VF is 1 exactly when Vx > Vy. */
  lemma SubXYBorrow(s: State, x: Nibble, y: Nibble)
    requires Wf(s) && x != VF
    ensures var r := SubXY(s, x, y);
      && r.v[x] as int + s.v[y] == s.v[x] as int + (if s.v[x] >= s.v[y] then 0 else 256)
      && (r.v[VF] == 1 <==> s.v[x] > s.v[y])
      && (r.v[VF] == 0 <==> s.v[x] <= s.v[y])
  {
  }

  /** 8xy7 with x other than F: Vx becomes Vy - Vx modulo 256, and VF is 1 exactly when Vy > Vx. */
  lemma SubnXYBorrow(s: State, x: Nibble, y: Nibble)
    requires Wf(s) && x != VF
    ensures var r := SubnXY(s, x, y);
      && r.v[x] as int + s.v[x] == s.v[y] as int + (if s.v[y] >= s.v[x] then 0 else 256)
      && (r.v[VF] == 1 <==> s.v[y] > s.v[x])
  {
  }

  /** 8xy7 computes the negation, modulo 256, of what 8xy5 computes. */
  lemma SubnNegatesSub(s: State, x: Nibble, y: Nibble)
    requires Wf(s) && x != VF
    ensures (SubXY(s, x, y).v[x] as int + SubnXY(s, x, y).v[x]) % 256 == 0
  {
    SubXYBorrow(s, x, y);
    SubnXYBorrow(s, x, y);
  }

  /** 8xy6 with x other than F: VF is the bit shifted out, Vx the rest. */
  lemma ShrXShiftsOut(s: State, x: Nibble)
    requires Wf(s) && x != VF
    ensures var r := ShrX(s, x);
      2 * r.v[x] as int + r.v[VF] == s.v[x] && r.v[VF] <= 1
  {
  }

  /** 8xyE with x other than F: VF is the bit shifted out of the top, Vx the rest. */
  lemma ShlXShiftsOut(s: State, x: Nibble)
    requires Wf(s) && x != VF
    ensures var r := ShlX(s, x);
      r.v[VF] as int * 256 + r.v[x] == 2 * s.v[x] as int && r.v[VF] <= 1
  {
  }

  /** With VF as the target, the flag is written first and then overwritten by the result. */
  lemma FlagTargetKeepsResult(s: State, y: Nibble)
    requires Wf(s)
    ensures AddXY(s, VF, y).v == s.v[VF := (s.v[VF] as int + s.v[y]) % 256]
    ensures SubXY(s, VF, y).v == s.v[VF := (s.v[VF] as int - s.v[y]) % 256]
    ensures SubnXY(s, VF, y).v == s.v[VF := (s.v[y] as int - s.v[VF]) % 256]
    ensures ShrX(s, VF).v == s.v[VF := s.v[VF] / 2]
    ensures ShlX(s, VF).v == s.v[VF := (2 * s.v[VF] as int) % 256]
  {
  }

  /** The examples of wrap-around: 0xFF + 1 is 0 with a carry, 0 - 1 is 0xFF with VF = 0. */
  lemma WrapExamples(s: State, x: Nibble, y: Nibble)
    requires Wf(s) && x != VF && x != y
    ensures s.v[x] == 0xFF && s.v[y] == 1 ==> AddXY(s, x, y).v[x] == 0 && AddXY(s, x, y).v[VF] == 1
    ensures s.v[x] == 0 && s.v[y] == 1 ==> SubXY(s, x, y).v[x] == 0xFF && SubXY(s, x, y).v[VF] == 0
    ensures s.v[x] == 0xFF ==> Add(s, x, 1).v[x] == 0 && Add(s, x, 1).v[VF] == s.v[VF]
  {
  }

  /** 8xy5 undoes 8xy4 on Vx when neither register is VF. */
  lemma SubUndoesAdd(s: State, x: Nibble, y: Nibble)
    requires Wf(s) && x != VF && y != VF && x != y
    ensures SubXY(AddXY(s, x, y), x, y).v[x] == s.v[x]
  {
  }

  /** 8xy3 twice restores Vx when the registers differ. */
  lemma XorTwice(s: State, x: Nibble, y: Nibble)
    requires Wf(s) && x != y
    ensures XorXY(XorXY(s, x, y), x, y) == s
  {
    Bits.XorInverse(s.v[x], s.v[y]);
    assert XorXY(XorXY(s, x, y), x, y).v == s.v;
  }

  /** A register combined with itself: OR and AND keep it, XOR clears it. */
  lemma SelfCombination(s: State, x: Nibble)
    requires Wf(s)
    ensures OrXY(s, x, x) == s && AndXY(s, x, x) == s
    ensures XorXY(s, x, x) == s.(v := s.v[x := 0])
  {
    Bits.SelfCombination(s.v[x]);
    assert s.v[x := s.v[x]] == s.v;
  }

  // ---------------------------------------------------------------------
  // Memory

  /** Fx55 stores V0..Vx at I..I+x and changes no other cell and nothing else. */
  lemma StoreRegistersEffect(s: State, x: Nibble)
    requires Wf(s) && 0 <= s.i && s.i + x < MemorySize
    ensures var r := LdIndirectIVx(s, x);
      && Wf(r) && r == s.(memory := r.memory)
      && (forall k :: 0 <= k <= x ==> r.memory[s.i + k] == s.v[k])
      && (forall a :: 0 <= a < MemorySize && !(s.i <= a <= s.i + x) ==> r.memory[a] == s.memory[a])
  {
  }

  /** Fx65 loads V0..Vx from I..I+x and keeps the registers above x and everything else. */
  lemma LoadRegistersEffect(s: State, x: Nibble)
    requires Wf(s) && 0 <= s.i && s.i + x < MemorySize
    ensures var r := LdVxIndirectI(s, x);
      && Wf(r) && r == s.(v := r.v)
      && (forall k :: 0 <= k <= x ==> r.v[k] == s.memory[s.i + k])
      && (forall k :: x < k < RegisterCount ==> r.v[k] == s.v[k])
  {
  }

  /** Fx65 after Fx55 with the same x and I finds the registers as they were. */
  lemma LoadAfterStore(s: State, x: Nibble)
    requires Wf(s) && 0 <= s.i && s.i + x < MemorySize
    ensures LdVxIndirectI(LdIndirectIVx(s, x), x) == LdIndirectIVx(s, x)
  {
    StoreRegistersEffect(s, x);
    var t := LdIndirectIVx(s, x);
    assert t.memory[t.i..t.i + x + 1] + t.v[x + 1..] == t.v;
  }

  /** Fx55 after Fx65 with the same x and I writes back what was read, leaving memory as it was. */
  lemma StoreAfterLoad(s: State, x: Nibble)
    requires Wf(s) && 0 <= s.i && s.i + x < MemorySize
    ensures LdIndirectIVx(LdVxIndirectI(s, x), x) == LdVxIndirectI(s, x)
  {
    LoadRegistersEffect(s, x);
    var t := LdVxIndirectI(s, x);
    assert t.memory[..t.i] + t.v[..x + 1] + t.memory[t.i + x + 1..] == t.memory;
  }

  /** Fx33 writes the hundreds, tens and ones of Vx at I, I+1, I+2 and changes nothing else. */
  lemma StoreBCDEffect(s: State, x: Nibble)
    requires Wf(s) && 0 <= s.i && s.i + 2 < MemorySize
    ensures var r := LdB(s, x);
      && Wf(r) && r == s.(memory := r.memory)
      && r.memory[s.i] == s.v[x] / 100
      && r.memory[s.i + 1] == (s.v[x] / 10) % 10
      && r.memory[s.i + 2] == s.v[x] % 10
      && (forall a :: 0 <= a < MemorySize && !(s.i <= a < s.i + 3) ==> r.memory[a] == s.memory[a])
  {
    Helpers.ToBCDIsPositional(s.v[x]);
  }

  // ---------------------------------------------------------------------
  // Display

  /**
   * Dxyn XORs the n-row sprite at I onto the display at (Vx, Vy), sets VF
   * exactly when a lit pixel was turned off, and changes nothing else.
   */
  lemma DrawEffect(s: State, x: Nibble, y: Nibble, n: Nibble)
    requires Wf(s) && Sprite.Fits(s.i, s.v[x], s.v[y], n)
    ensures var r := Drw(s, x, y, n);
      && Wf(r) && r == s.(display := r.display, v := s.v[VF := r.v[VF]])
      && (r.v[VF] == 1 <==>
            exists row: nat, col: nat :: row < n && Sprite.Hit(s.display, s.memory, s.i, s.v[x], s.v[y], row, col))
      && (r.v[VF] == 0 <==>
            !exists row: nat, col: nat :: row < n && Sprite.Hit(s.display, s.memory, s.i, s.v[x], s.v[y], row, col))
  {
    Sprite.CollidesIff(s.display, s.memory, s.i, s.v[x], s.v[y], n, n, 0);
  }

  /** Each display cell after Dxyn is the old one XOR the sprite bit that covers it, if any. */
  lemma DrawPixels(s: State, x: Nibble, y: Nibble, n: Nibble, k: int)
    requires Wf(s) && Sprite.Fits(s.i, s.v[x], s.v[y], n) && 0 <= k < DisplaySize
    ensures var (row, col) := Sprite.PixelAt(s.v[x], s.v[y], k);
      Drw(s, x, y, n).display[k] ==
        if 0 <= row < n then Sprite.Xor(s.display[k], s.memory[s.i + row] / Bits.Pow2(7 - col) % 2) else s.display[k]
  {
    Sprite.ScanAt(s.display, s.memory, s.i, s.v[x], s.v[y], n, n, 0, k);
  }

  /** Drawing the same sprite twice at the same place restores the display. */
  lemma DrawTwiceRestores(s: State, x: Nibble, y: Nibble, n: Nibble)
    requires Wf(s) && Sprite.Fits(s.i, s.v[x], s.v[y], n) && x != VF && y != VF
    ensures Drw(Drw(s, x, y, n), x, y, n).display == s.display
  {
    Sprite.DrawTwice(s.display, s.memory, s.i, s.v[x], s.v[y], n);
  }

  /** 00E0 blanks every pixel and changes nothing else. */
  lemma ClearEffect(s: State)
    ensures Cls(s) == s.(display := Cls(s).display)
    ensures |Cls(s).display| == DisplaySize && forall k :: 0 <= k < DisplaySize ==> Cls(s).display[k] == 0
  {
  }

  // ---------------------------------------------------------------------
  // Timers and I

  /** Fx15 then Fx07 copies Vx to Vy through the delay timer. */
  lemma DelayTimerRoundTrip(s: State, x: Nibble, y: Nibble)
    requires Wf(s)
    ensures LdVxDT(LdDTVx(s, x), y).v[y] == s.v[x]
  {
  }

  /** k executions of Fx1E in a row. */
  function AddIRepeated(s: State, x: Nibble, k: nat): (r: State)
    requires Wf(s)
    ensures Wf(r)
  {
    if k == 0 then s else AddIVx(AddIRepeated(s, x, k - 1), x)
  }

  /**
   * Fx1E never wraps I and never touches a register: k executions add
   * k * Vx to I, so I passes 0xFFF once k * Vx is large enough.
   */
  lemma {:induction false} AddIAccumulates(s: State, x: Nibble, k: nat)
    requires Wf(s)
    ensures AddIRepeated(s, x, k) == s.(i := s.i + k * s.v[x])
    ensures s.i >= 0 && k * s.v[x] >= 0x1000 ==> AddIRepeated(s, x, k).i >= 0x1000
  {
    if k > 0 {
      AddIAccumulates(s, x, k - 1);
      assert (k - 1) * s.v[x] + s.v[x] == k * s.v[x];
    }
  }
}
