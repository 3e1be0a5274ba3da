# CHIP-8 interpreter core in Dafny

A model of the core of a JavaScript CHIP-8 emulator and proofs about it. The core is
the `Chip8` state object and its operations: reset, font and ROM loading, the setters,
one handler per instruction, the opcode decoder `decode`, the disassembler `decode2`,
`fetch` and `cycle`. It also covers the helpers `to1D` and `toBCD` and the older state
object in `src/chip8.js`.

The exports that change the state are `reset`, `loadCharset`, the four setters, `loadRom`,
`decode` and the 32 instruction handlers. Each is wrapped in `clone`: it deep-copies its
argument (lodash `cloneDeep`) and then changes the copy in place. `cycle` is exported
without `clone`. It fetches the word at PC and passes it to the exported `decode`, which
makes the copy. `decode2` only reads the state and returns a string. `toJSON`/`fromJSON`
only serialise it. The model therefore has two layers:

- `Semantics` (semantics.dfy) describes the state as a value (`State`). It has one pure
  function per operation, from the old state to the new one.
- `Machine.Chip8` (machine.dfy) is a class with `memory`, `v` and `display` arrays. Its
  methods perform the same changes in place, with the same loops: `drw` walks sprite rows
  and columns, and `ldB`, `loadCharset` and `loadRom` write cell by cell. Each method is
  proved to leave the object in the state the matching `Semantics` function computes.
  `Machine.Decode` and `Machine.Cycle` clone the argument first, just as the source does,
  so the caller's object is never changed.

The other modules:

- `Decoder` (decoder.dfy) is the decoding table. It splits a word into four nibbles,
  recognises exactly the 23 patterns the table dispatches and reports `Illegal opcode: <hex>`
  for every other word. `Encode` is its inverse. The disassembler `Decode2` is modelled
  separately and proved to agree with it.
- `Sprite` (sprite.dfy) specifies `drw` as a fold over rows and columns, exactly the
  source's nested loop.
- `Helpers` (helpers.dfy) models `to1D`, `toBCD` and the JavaScript `toString(radix)`,
  `padStart` and `parseInt` that `toBCD` and the disassembler's message rely on.
- `Bits` defines bitwise OR, AND and XOR on naturals, one bit at a time.
- `Consts` holds the constants: memory size, screen size, font and glyph offsets.
- `Legacy` (legacy.dfy) is the older `src/chip8.js` object, which has all-null fields and
  a `reset` that clones and then overwrites them.

The cycle's inputs from outside become parameters:

- The keyboard snapshot is a `map<int, bool>`. A key that is absent is neither `true`
  nor `false`, which matches the source's strict `=== true` and `=== false` comparisons.
- `Math.random()` becomes a `random` byte argument.

Where the stand-alone source files and the bundled copy differ, the bundled module is
modelled. `src/decode.js` calls handlers that `src/chip8.js` does not define; the bundle
defines them.

## Model

| member | source | states |
|---|---|---|
| Consts.GlyphLayout | bundle.js:406-441 | The font is 80 bytes, and the glyph of digit d starts at offset 5·d and fits in the font. |
| Helpers.To1DOnScreen | bundle.js:4775-4777 | An on-screen (x, y) maps into the 2048-cell display, and x and y can be recovered from the index. |
| Helpers.To1DInjective | bundle.js:4775-4777 | Distinct on-screen coordinates get distinct display indices. |
| Helpers.ParseNumberToString | bundle.js:4783-4784 | Reading the radix-r text of n back digit by digit gives n (the `parseInt`/`toString` round trip). |
| Helpers.DecimalLength | bundle.js:4783 | A number below 1000 has 1, 2 or 3 decimal digits, matching its magnitude. |
| Helpers.PadStart | bundle.js:4783 | `padStart` gives at least the target length, keeps the original as a suffix and fills the rest with the pad character. |
| Helpers.ParseLeadingZeros | bundle.js:4783-4784 | Leading '0' padding does not change the value read back. |
| Helpers.ToBCD | bundle.js:4779-4785 | Fails exactly for x ≥ 256 or x < 0, with the source's two messages. Otherwise it returns three digits ≤ 9 whose positional value is x. |
| Helpers.ToBCDIsPositional | bundle.js:4779-4785 | For 0 ≤ x < 256 the digits are x/100, (x/10)%10 and x%10, with leading zeros kept. |
| Helpers.ToBCDExamples | src/helpers.js:7-13 | 0, 7, 111 and 255 give [0,0,0], [0,0,7], [1,1,1] and [2,5,5]. |
| Sprite.ScanAt | bundle.js:1040-1052 | Each display cell after scanning up to (row, col) is the old cell XOR the sprite bit that covers it among the pixels already visited, if any. |
| Sprite.CollidesIff | bundle.js:1040-1052 | The collision flag after scanning up to (row, col) is set if and only if some earlier pixel had a lit sprite bit over a lit display cell. |
| Sprite.DrawTwice | bundle.js:1034-1055 | Drawing the same sprite twice at the same place restores the display exactly. |
| Sprite.DrawOnBlank | bundle.js:1034-1055 | On a blank display a draw never collides. Drawing again collides if and only if the sprite has a lit pixel. |
| Sprite.PixelAtCell | bundle.js:1044 | The inverse of the cell map recovers the sprite (row, col) of each cell a pixel lands on. |
| Sprite.CellInjective | bundle.js:1044 | Two sprite pixels never land on the same display cell, so each cell is XOR-ed at most once per draw. |
| Semantics.Reset | bundle.js:856-866 | Zero memory, registers and display; I = 0, PC = 0x200, empty stack, both timers 0. |
| Semantics.LoadCharset | bundle.js:868-873 | Memory 0x000-0x04F holds the font. Every other cell and field is unchanged. |
| Semantics.LoadRom | bundle.js:1529-1534 | rom[k] lands at 0x200 + k. Every other cell and field is unchanged. |
| Semantics.Fetch | bundle.js:1516-1519 | The word's high byte is memory[a] and its low byte memory[a + 1]. Here a is the explicit address, or PC when that address is absent or 0. |
| Semantics.BCD | bundle.js:1087-1094 | The three bytes Fx33 stores are the hundreds, tens and ones digits of Vx, so their positional value is Vx. |
| Decoder.SplitFields | bundle.js:1107-1110 | The four nibbles reassemble the word; `kk` and `nnn` are its low 8 and 12 bits. |
| Decoder.SplitOf | bundle.js:1107-1110 | Splitting the word built from four nibbles gives those nibbles back. |
| Decoder.Decode | bundle.js:1106-1339 | Every instruction the table recognises re-encodes to the word it came from. |
| Decoder.DecodeEncode | bundle.js:1106-1339 | Decoding the encoding of any instruction gives that instruction back. |
| Decoder.RecognisedIffEncoded | bundle.js:1106-1339 | A word is recognised if and only if it is the encoding of some instruction. |
| Decoder.IllegalFamilies | bundle.js:1114-1338 | These words are illegal: 5xy0; Bnnn; 0nnn other than 00E0 and 00EE; 8xy_ other than 8xy0 and 8xy2; 9xy_ other than 9xy0; Ex__ other than Ex9E and ExA1. |
| Decoder.IllegalTextNamesWord | bundle.js:1338 | The error text is "Illegal opcode: " followed by hex digits that read back as the word. |
| Decoder.Operands | bundle.js:1107-1110 | The fields the table matches for an instruction reassemble into its encoding. |
| Decoder.Decode2AgreesWithDecode | bundle.js:1341-1514 | The disassembler names the instruction `decode` dispatches to, or gives the illegal-opcode text when `decode` would throw. |
| Decoder.Decode2IllegalIff | bundle.js:1341-1514 | `decode2` returns the illegal-opcode text if and only if `decode` rejects the word, and that text is the message `decode` throws. |
| Decoder.ExecuteKeepsWf | bundle.js:1114-1336 | Every dispatched handler keeps the memory, register and display sizes. |
| Decoder.RunFailsIffIllegal | bundle.js:1106-1339 | `decode` fails if and only if the word is illegal, with that word in the error. Otherwise the result is well formed. |
| Decoder.RunAdvancesPc | bundle.js:1112 | Every recognised non-branching instruction leaves PC + 2 and the stack as it was. |
| Decoder.RunStackDepth | bundle.js:910-945 | Every recognised instruction succeeds; 2nnn deepens the stack by one, 00EE pops one, every other instruction keeps the depth; jumps, calls, returns and skips leave memory, V, the display, I and the timers untouched. |
| Decoder.RunSkips | bundle.js:926-1065 | A skip instruction moves PC by 4 when its condition holds and by 2 otherwise, and changes nothing else. |
| Decoder.RunJumps | bundle.js:915-924 | 1nnn sets PC to nnn. 2nnn also pushes the address after the call. |
| Decoder.CallThenReturn | bundle.js:910-924 | 2nnn followed by 00EE resumes right after the call, with the stack as before. |
| Decoder.CycleRunsWordAtPc | bundle.js:1521-1527 | `cycle` fails exactly on an illegal word at PC; a non-branching instruction advances PC by 2. |
| Machine.Chip8.Reset | bundle.js:856-866 | The new object is the reset state, with fresh arrays. |
| Machine.Chip8.Clone | bundle.js:849-854 | The deep copy has the original's state, with fresh arrays. |
| Machine.Chip8.LoadCharset | bundle.js:868-873 | The loop leaves the object in the `LoadCharset` state. |
| Machine.Chip8.LoadRom | bundle.js:1529-1534 | The loop leaves the object in the `LoadRom` state. |
| Machine.Chip8.SetV | bundle.js:875-878 | Vvi becomes val modulo 256; nothing else changes. |
| Machine.Chip8.SetI | bundle.js:880-883 | I becomes val; nothing else changes. |
| Machine.Chip8.SetMemory | bundle.js:885-888 | memory[addr] becomes val; nothing else changes. |
| Machine.Chip8.SetDelayTimer | bundle.js:890-893 | The delay timer becomes val; nothing else changes. |
| Machine.Chip8.Cls | bundle.js:905-908 | The display is replaced by a fresh blank one. |
| Machine.Chip8.Ret | bundle.js:910-913 | PC becomes the popped top of the stack. |
| Machine.Chip8.Jp | bundle.js:915-918 | PC becomes addr. |
| Machine.Chip8.Call | bundle.js:920-924 | PC is pushed, then becomes addr. |
| Machine.Chip8.Se | bundle.js:926-931 | PC advances by 2 when Vx equals kk. |
| Machine.Chip8.Sne | bundle.js:933-938 | PC advances by 2 when Vx differs from kk. |
| Machine.Chip8.SeXY | bundle.js:940-945 | PC advances by 2 when Vx equals Vy. |
| Machine.Chip8.Ld | bundle.js:947-950 | Vx becomes kk. |
| Machine.Chip8.Add | bundle.js:952-955 | Vx becomes Vx + kk modulo 256, and VF is untouched. |
| Machine.Chip8.LdXY | bundle.js:957-960 | Vx becomes Vy. |
| Machine.Chip8.OrXY | bundle.js:962-965 | Vx becomes Vx OR Vy. |
| Machine.Chip8.AndXY | bundle.js:967-970 | Vx becomes Vx AND Vy. |
| Machine.Chip8.XorXY | bundle.js:972-975 | Vx becomes Vx XOR Vy. |
| Machine.Chip8.AddXY | bundle.js:977-982 | VF gets the carry, then Vx gets the sum modulo 256. |
| Machine.Chip8.SubXY | bundle.js:984-989 | VF gets Vx > Vy, then Vx gets Vx − Vy modulo 256. |
| Machine.Chip8.ShrX | bundle.js:991-996 | VF gets bit 0, then Vx is shifted right. |
| Machine.Chip8.SubnXY | bundle.js:998-1003 | VF gets Vy > Vx, then Vx gets Vy − Vx modulo 256. |
| Machine.Chip8.ShlX | bundle.js:1005-1010 | VF gets bit 7, then Vx is shifted left modulo 256. |
| Machine.Chip8.SneXY | bundle.js:1012-1017 | PC advances by 2 when Vx differs from Vy. |
| Machine.Chip8.LdI | bundle.js:1019-1022 | I becomes addr. |
| Machine.Chip8.JpV0 | bundle.js:1024-1027 | PC becomes V0 + addr. |
| Machine.Chip8.Rnd | bundle.js:1029-1032 | Vx becomes the random byte AND kk. |
| Machine.Chip8.Drw | bundle.js:1034-1055 | The nested loop leaves the display and VF as the row and column fold `Sprite.Draw` gives. |
| Machine.Chip8.DrawRow | bundle.js:1041-1052 | One pass of the inner loop extends the fold by exactly one sprite row. |
| Machine.Chip8.Skp | bundle.js:1057-1060 | PC advances by 2 when the key Vx is down (`=== true`). |
| Machine.Chip8.Sknp | bundle.js:1062-1065 | PC advances by 2 when the key Vx is up (`=== false`). |
| Machine.Chip8.LdVxDT | bundle.js:1067-1070 | Vx becomes the delay timer modulo 256. |
| Machine.Chip8.LdDTVx | bundle.js:1072-1075 | The delay timer becomes Vx. |
| Machine.Chip8.AddIVx | bundle.js:1077-1080 | I becomes I + Vx, without wrapping. |
| Machine.Chip8.LdFVx | bundle.js:1101-1104 | I becomes the glyph offset of digit Vx. |
| Machine.Chip8.LdIndirectIVx | bundle.js:1082-1085 | memory[I..I+x] receives V0..Vx. |
| Machine.Chip8.LdB | bundle.js:1087-1094 | memory[I..I+3) receives the three BCD digits of Vx. |
| Machine.Chip8.LdVxIndirectI | bundle.js:1096-1099 | V0..Vx receive memory[I..I+x]. |
| Machine.Execute | bundle.js:1114-1336 | Running the dispatched handler in place gives the value-level `Execute` state. |
| Machine.ExecuteControl | bundle.js:1114-1336 | CLS, RET, JP, CALL and the skip handlers in place give the value-level state, whatever the random byte. |
| Machine.ExecuteRegister | bundle.js:1114-1336 | LD, ADD, LD Vx Vy, AND, RND and the delay-timer handlers in place give the value-level state, whatever the keys. |
| Machine.ExecuteMemory | bundle.js:1114-1336 | The I, DRW, font, BCD and register-block handlers in place give the value-level state. |
| Machine.Decode | bundle.js:1106-1339 | Fails exactly on illegal words, with the word in the error, leaving the caller's object untouched. Otherwise it returns a fresh object in the `Run` state. |
| Machine.Cycle | bundle.js:1521-1527 | Fetches the word at PC and behaves as `Decode` on it, as `Decoder.Cycle` states. |
| HandlerProperties.BootLayout | bundle.js:856-873 | After reset, font and ROM: the font is at 0, the ROM at 0x200, zeros elsewhere, PC = 0x200, I = 0, empty stack. |
| HandlerProperties.GlyphAddress | bundle.js:1101-1104 | With the font loaded, Fx29 points I at the five font bytes of digit Vx and changes nothing else. |
| HandlerProperties.ReturnUndoesCall | bundle.js:910-924 | `ret` after `call` restores the state exactly. |
| HandlerProperties.SeSneComplementary | bundle.js:926-938 | SE skips if and only if Vx = kk, and SNE if and only if Vx ≠ kk. Exactly one of them skips. |
| HandlerProperties.SeSneXYComplementary | bundle.js:940-1017 | The same for SE Vx, Vy and SNE Vx, Vy. |
| HandlerProperties.SkpSknpComplementary | bundle.js:1057-1065 | SKP skips on a key that is down, SKNP on one that is up. Neither skips for a key absent from the snapshot. |
| HandlerProperties.RegisterFrame | bundle.js:947-1032 | Each arithmetic, logic, load and random handler changes only the V registers. |
| HandlerProperties.NoFlagInstructions | bundle.js:947-960 | LD, ADD kk and LD Vx, Vy set only Vx. ADD kk wraps modulo 256 and never touches VF. |
| HandlerProperties.AddXYCarry | bundle.js:977-982 | VF·256 + Vx' = Vx + Vy (carry and sum are exact). |
| HandlerProperties.SubXYBorrow | bundle.js:984-989 | Vx' + Vy = Vx, plus 256 when Vx < Vy. |
| HandlerProperties.SubnXYBorrow | bundle.js:998-1003 | Vx' + Vx = Vy, plus 256 when Vy < Vx. |
| HandlerProperties.SubnNegatesSub | bundle.js:984-1003 | SUB and SUBN results are negatives of each other modulo 256. |
| HandlerProperties.ShrXShiftsOut | bundle.js:991-996 | 2·Vx' + VF = Vx: the shifted-out bit lands in VF. |
| HandlerProperties.ShlXShiftsOut | bundle.js:1005-1010 | VF·256 + Vx' = 2·Vx: the shifted-out bit lands in VF. |
| HandlerProperties.FlagTargetKeepsResult | bundle.js:977-1010 | With x = F the result overwrites the flag, because the flag is written first. |
| HandlerProperties.WrapExamples | bundle.js:952-989 | 0xFF + 1 gives 0 with carry 1. 0 − 1 gives 0xFF with VF 0. 0xFF + 1 by 7xkk gives 0 with VF kept. |
| HandlerProperties.SubUndoesAdd | bundle.js:977-989 | SUB Vx, Vy after ADD Vx, Vy restores Vx. |
| HandlerProperties.XorTwice | bundle.js:972-975 | XOR Vx, Vy twice restores the state. |
| HandlerProperties.SelfCombination | bundle.js:962-975 | OR and AND of a register with itself change nothing; XOR of a register with itself clears it. |
| HandlerProperties.StoreRegistersEffect | bundle.js:1082-1085 | Fx55 writes V0..Vx to I..I+x and changes no other cell and no other field. |
| HandlerProperties.LoadRegistersEffect | bundle.js:1096-1099 | Fx65 reads V0..Vx from I..I+x and keeps the higher registers and all other fields. |
| HandlerProperties.LoadAfterStore | bundle.js:1082-1099 | Fx65 after Fx55 with the same x and I changes nothing. |
| HandlerProperties.StoreAfterLoad | bundle.js:1082-1099 | Fx55 after Fx65 with the same x and I changes nothing. |
| HandlerProperties.StoreBCDEffect | bundle.js:1087-1094 | Fx33 writes Vx/100, (Vx/10)%10 and Vx%10 at I, I+1 and I+2 and changes nothing else. |
| HandlerProperties.DrawEffect | bundle.js:1034-1055 | DRW changes only the display and VF. VF is 1 if and only if some sprite pixel was lit over a lit cell, and 0 otherwise. |
| HandlerProperties.DrawPixels | bundle.js:1034-1055 | Each display cell becomes the old cell XOR the sprite bit covering it, or keeps its value when no sprite pixel covers it. |
| HandlerProperties.DrawTwiceRestores | bundle.js:1034-1055 | Drawing the same sprite twice restores the display. |
| HandlerProperties.ClearEffect | bundle.js:905-908 | CLS blanks all 2048 cells and changes nothing else. |
| HandlerProperties.DelayTimerRoundTrip | bundle.js:1067-1075 | Setting DT from Vx and reading it back into Vy gives Vx. |
| HandlerProperties.AddIAccumulates | bundle.js:1077-1080 | k executions of ADD I, Vx add exactly k·Vx to I, with no wrap at 0x1000 and V (VF included) untouched; I passes 0xFFF once k·Vx reaches 0x1000. |
| Legacy.Chip8.constructor | src/chip8.js:3-12 | Every field of a new object is null. |
| Legacy.Chip8.CloneDeep | src/chip8.js:15 | The deep copy has the same field values, with fresh copies of the arrays. |
| Legacy.Zeros | src/chip8.js:16-17 | The filled arrays have the requested length and hold only zeros. |
| Legacy.Reset | src/chip8.js:14-24 | A fresh object with 4096 zero bytes of memory, 16 zero registers, I = 0, PC = 0x200, SP = 0 and timers 0, whatever the argument held. The argument is not modified. |

## Left out

- The bundled `new Chip8()` with all-null fields is not modelled as a `Machine.Chip8` state. Every use of it goes through `reset`, which overwrites every field, and `Machine.Chip8.Reset` is that composition. The all-null object itself is modelled in `Legacy.Chip8`.
- `toJSON`/`fromJSON` (JSON text round trip), the logger argument of `decode`, and the keyboard, renderer, UI and emulator loop are left out. They are I/O around the core.
- `Math.random()` is a `random` byte parameter. The host's timer countdown is outside the core and is not modelled.
- Handlers called directly with operands outside the ranges the decoder produces are not modelled. Examples are a register index above 15, a byte above 255 or a non-integer. Every handler takes nibble, byte or 12-bit operands.
- JavaScript memory is an `Array` that can hold any value and grows on a write past its end. The model keeps memory as 4096 bytes. `Semantics.SetMemory` takes a byte and an address inside memory.
- Machine.Chip8.Ret: requires a non-empty stack. On an empty stack the source sets PC to `undefined`, and the model has no such value.
- Machine.Chip8.Drw: requires the sprite to lie inside memory and the display (`Sprite.Fits`). The source does not wrap, and writing off-screen would grow the display array.
- Machine.Chip8.LdFVx: requires Vx < 16. For larger Vx the source's offset lookup gives `undefined`.
- Machine.Chip8.LdB: requires I + 2 inside memory. The same memory bound applies to Fx55 and Fx65.
- The two clones per exported call (`clone(decode)` copies, and each handler copies again) are modelled as one copy in `Machine.Decode`. A second copy cannot be observed by the caller.
- 5xy0, Bnnn and the 8xy1 and 8xy3-8xyE arithmetic forms have handlers but no table entry. The handlers are `seXY`, `jpV0`, `orXY`, `xorXY`, `addXY`, `subXY`, `shrX`, `subnXY` and `shlX`. The decoder rejects these words as illegal, as `Decoder.IllegalFamilies` states. The handlers are modelled and reachable only by direct calls.
- Fx0A (wait for a key) and Fx18 (set the sound timer) have neither a table entry nor a handler. `soundTimer` is written only by `reset`, so the model's sound timer stays 0 after a reset.
- Helpers.ToBCD: takes an integer, so it does not model what `toBCD` returns for NaN or a fractional number (no exception, and NaN among the digits); its only caller in the core passes a Uint8Array cell. Likewise `decode` called directly with a number above 0xFFFF or a fraction is outside the `Word` type.
- Legacy.Chip8.CloneDeep: copies each array on its own. lodash `cloneDeep` would keep two fields that share one array sharing a single copy. `Legacy.Reset` replaces both arrays straight after the copy, so nothing can observe the difference.
- SUB and SUBN set VF with strict `>`, as the code does, not `>=`.
