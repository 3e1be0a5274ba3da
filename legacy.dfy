/**
 * The older revision of the state object in src/chip8.js: a constructor
 * that sets every field to null and a `reset` that deep-copies its
 * argument and then overwrites every field.  This revision has a stack
 * index `sp` instead of a stack, no display, and keeps the registers in
 * a plain array; its layout is kept apart from the bundled one.
 */
module Legacy {
  import opened Results
  import opened Consts

  class Chip8 {
    var memory: array?<int>
    var v: array?<int>
    var i: Option<int>
    var pc: Option<int>
    var sp: Option<int>
    var delayTimer: Option<int>
    var soundTimer: Option<int>

    /** `new Chip8()`: every field null. */
    constructor ()
      ensures memory == null && v == null
      ensures i == None && pc == None && sp == None
      ensures delayTimer == None && soundTimer == None
    {
      memory := null;
      v := null;
      i := None;
      pc := None;
      sp := None;
      delayTimer := None;
      soundTimer := None;
    }

    /** `_.cloneDeep(chip8)`: the same field values, with arrays copied into fresh ones. */
    constructor CloneDeep(original: Chip8)
      ensures (memory == null) == (original.memory == null)
      ensures original.memory != null ==> fresh(memory) && memory[..] == original.memory[..]
      ensures (v == null) == (original.v == null)
      ensures original.v != null ==> fresh(v) && v[..] == original.v[..]
      ensures i == original.i && pc == original.pc && sp == original.sp
      ensures delayTimer == original.delayTimer && soundTimer == original.soundTimer
    {
      var m := original.memory;
      if m != null {
        memory := new int[m.Length](k reads m => if 0 <= k < m.Length then m[k] else 0);
      } else {
        memory := null;
      }
      var r := original.v;
      if r != null {
        v := new int[r.Length](k reads r => if 0 <= k < r.Length then r[k] else 0);
      } else {
        v := null;
      }
      i := original.i;
      pc := original.pc;
      sp := original.sp;
      delayTimer := original.delayTimer;
      soundTimer := original.soundTimer;
      new;
      if m != null {
        assert memory[..] == m[..];
      }
      if r != null {
        assert v[..] == r[..];
      }
    }
  }

  /** The memory and registers `reset` installs: 4096 and 16 zeros. */
  function Zeros(count: nat): (z: seq<int>)
    ensures |z| == count && forall k :: 0 <= k < count ==> z[k] == 0
  {
    seq(count, _ => 0)
  }

  /**
   * `reset(chip8)`: a deep copy whose memory is 4096 zeros, registers 16
   * zeros, I 0, PC 0x200, SP 0 and both timers 0.  The argument is not
   * modified, whatever it held.
   */
  method Reset(chip: Chip8) returns (r: Chip8)
    ensures fresh(r) && r != chip
    ensures r.memory != null && fresh(r.memory) && r.memory[..] == Zeros(MemorySize)
    ensures r.v != null && fresh(r.v) && r.v[..] == Zeros(RegisterCount)
    ensures r.i == Some(0) && r.pc == Some(ProgramStart) && r.sp == Some(0)
    ensures r.delayTimer == Some(0) && r.soundTimer == Some(0)
  {
    r := new Chip8.CloneDeep(chip);
    r.memory := new int[MemorySize](_ => 0);
    r.v := new int[RegisterCount](_ => 0);
    r.i := Some(0);
    r.pc := Some(ProgramStart);
    r.sp := Some(0);
    r.delayTimer := Some(0);
    r.soundTimer := Some(0);
    assert r.memory[..] == Zeros(MemorySize);
    assert r.v[..] == Zeros(RegisterCount);
  }
}
