/** The interpreter of okvm.h as a function on values.

    This iteration shares the instruction format, the 256-byte stacks, the
    opcode numbering of 0-14 and the store/load layout with ok.h, but differs
    in four places that change what programs compute:
    - words sit on the stack with the MOST significant byte on top
      (`PushTopHigh`/`PopTopHigh`): `stack_pushn` pushes the low byte first;
    - a skip-flagged instruction pops its condition byte from the top before
      anything else, and a zero condition skips the whole opcode;
    - a device is chosen by the high nibble of the selector byte, and the low
      nibble is passed to the callback as its operation;
    - opcode 15 is `sys`, which reports the machine's own state.

    The class `OkVM` in module `OkvmMachine` performs the same steps in place
    and is proved to agree with these functions. */
module OkvmSpec {
  import opened Bytes
  import opened ByteStack
  import opened Instruction
  import OkSpec

  /** `OKVM_WORD_SIZE`. */
  const WordSize: nat := 3

  /** `OKVM_MAX_DEVICES`. */
  const MaxDevices: nat := 16

  /** A device callback: given RAM and the operation nibble, the byte it
      returns. The C callback receives the whole VM; what it does to the VM
      besides returning a byte is not part of this model. */
  type Device = (Memory, byte) -> byte

  type DeviceTable = s: seq<Option<Device>> | |s| == MaxDevices witness seq(MaxDevices, _ => None)
  type DeviceCount = x: int | 0 <= x <= MaxDevices

  datatype Vm = Vm(
    dst: Stack,
    rst: Stack,
    pc: nat,
    numDevices: DeviceCount,
    devices: DeviceTable,
    ram: Memory,
    rom: Memory,
    status: OkSpec.Status)

  /** The state `okvm_init` leaves: empty zeroed stacks, no devices, zeroed
      RAM, the program at the start of ROM, pc 0 and status Halted. */
  function Initial(program: seq<byte>): (m: Vm)
    requires |program| <= MemSize
    ensures m.dst == EmptyStack() && m.rst == EmptyStack()
    ensures m.rom[..|program|] == program
    ensures forall i :: |program| <= i < MemSize ==> m.rom[i] == 0
  {
    Vm(EmptyStack(), EmptyStack(), 0, 0, seq(MaxDevices, _ => None),
       seq(MemSize, _ => 0), program + seq(MemSize - |program|, _ => 0), OkSpec.Halted)
  }

  // ---------------------------------------------------------------------------
  // Devices

  /** `okvm_register_device`: fails with 1 once 16 devices exist, otherwise
      fills slot `numDevices` and returns 0. */
  function Register(m: Vm, device: Option<Device>): (int, Vm)
  {
    if m.numDevices >= MaxDevices then (1, m)
    else (0, m.(devices := m.devices[m.numDevices := device], numDevices := m.numDevices + 1))
  }

  /** The slot a selector byte names: `(id & 0xf0) >> 4`. */
  function Slot(id: byte): (slot: nat)
    ensures slot < MaxDevices
  {
    id / 16
  }

  /** The operation a selector byte passes: `id & 0x0f`. */
  function Op(id: byte): (op: byte)
    ensures op < 16
  {
    id % 16
  }

  /** `trigger_device`: an empty slot sets Panic; otherwise the callback's
      result is pushed. */
  function Trigger(m: Vm, id: byte): Vm
  {
    match m.devices[Slot(id)]
    case None => m.(status := OkSpec.Panic)
    case Some(device) => m.(dst := Push(m.dst, device(m.ram, Op(id))))
  }

  /** One turn of the int loop: pop a selector, trigger it. */
  function IntStep(m: Vm): Vm
  {
    var (id, s) := Pop(m.dst);
    Trigger(m.(dst := s), id)
  }

  /** The first n turns of the int loop. */
  function IntLoop(m: Vm, n: nat): Vm
  {
    if n == 0 then m else IntStep(IntLoop(m, n - 1))
  }

  // ---------------------------------------------------------------------------
  // Opcodes that only touch the data stack

  /** add (0), and (1), xor (2): b is popped first, then a. */
  function Arith(s: Stack, op: OkSpec.Combine, argsize: ArgSize): Stack
  {
    var w := argsize + 1;
    var (b, s1) := PopTopHigh(s, w);
    var (a, s2) := PopTopHigh(s1, w);
    PushTopHigh(s2, w, OkSpec.Apply(op, a, b))
  }

  /** shf (3): the control byte, then the w-byte value. */
  function Shf(s: Stack, argsize: ArgSize): Stack
  {
    var w := argsize + 1;
    var (ctrl, s1) := Pop(s);
    var (n, s2) := PopTopHigh(s1, w);
    PushTopHigh(s2, w, OkSpec.Shift(n, ctrl))
  }

  /** swp (4): pushes b, then a. */
  function Swp(s: Stack, argsize: ArgSize): Stack
  {
    var w := argsize + 1;
    var (b, s1) := PopTopHigh(s, w);
    var (a, s2) := PopTopHigh(s1, w);
    PushTopHigh(PushTopHigh(s2, w, b), w, a)
  }

  /** cmp (5): one byte, 1 if a > b, 255 if a < b, 0 if equal. */
  function Cmp(s: Stack, argsize: ArgSize): Stack
  {
    var w := argsize + 1;
    var (b, s1) := PopTopHigh(s, w);
    var (a, s2) := PopTopHigh(s1, w);
    Push(s2, OkSpec.Order(a, b))
  }

  /** dup (8). */
  function Dup(s: Stack, argsize: ArgSize): Stack
  {
    var w := argsize + 1;
    var (n, s1) := PopTopHigh(s, w);
    PushTopHigh(PushTopHigh(s1, w, n), w, n)
  }

  /** drp (9). */
  function Drp(s: Stack, argsize: ArgSize): Stack
  {
    PopTopHigh(s, argsize + 1).1
  }

  // ---------------------------------------------------------------------------
  // Opcodes that touch RAM, ROM, the return stack, the pc or the devices

  /** What str and lod need: the address on top leaves room for w bytes. */
  predicate AddressDefined(m: Vm, argsize: ArgSize)
  {
    PopTopHigh(m.dst, WordSize).0 + argsize + 1 <= MemSize
  }

  /** str (6): pops the address, then `ram[addr + i] = pop()` for i = argsize
      down to 0, so the top byte goes to the highest address. */
  function Str(m: Vm, argsize: ArgSize): Vm
    requires AddressDefined(m, argsize)
  {
    var (addr, s1) := PopTopHigh(m.dst, WordSize);
    var (bytes, s2) := PopAll(s1, argsize + 1);
    m.(dst := s2, ram := OkSpec.WriteRam(m.ram, addr, bytes))
  }

  /** lod (7): pushes `ram[addr]` up to `ram[addr + argsize]` in that order. */
  function Lod(m: Vm, argsize: ArgSize): Vm
    requires AddressDefined(m, argsize)
  {
    var (addr, s1) := PopTopHigh(m.dst, WordSize);
    m.(dst := PushAll(s1, m.ram[addr..addr + argsize + 1]))
  }

  /** psh (10). */
  function Psh(m: Vm, argsize: ArgSize): Vm
  {
    var (n, s1) := PopTopHigh(m.dst, argsize + 1);
    m.(dst := s1, rst := PushTopHigh(m.rst, argsize + 1, n))
  }

  /** pop (11). */
  function PopR(m: Vm, argsize: ArgSize): Vm
  {
    var (n, r1) := PopTopHigh(m.rst, argsize + 1);
    m.(dst := PushTopHigh(m.dst, argsize + 1, n), rst := r1)
  }

  /** jmp (12). */
  function Jmp(m: Vm, argsize: ArgSize): Vm
  {
    var (addr, s1) := PopTopHigh(m.dst, argsize + 1);
    m.(dst := s1, pc := addr)
  }

  /** What lit needs: its w immediate bytes lie inside ROM. */
  predicate LitDefined(m: Vm, argsize: ArgSize)
  {
    m.pc + argsize + 1 <= MemSize
  }

  /** lit (13): `stack_push(FETCH(vm))`, w times. */
  function Lit(m: Vm, argsize: ArgSize): Vm
    requires LitDefined(m, argsize)
  {
    m.(dst := PushAll(m.dst, m.rom[m.pc..m.pc + argsize + 1]), pc := m.pc + argsize + 1)
  }

  /** `vm->pc - 1` on `size_t`, cast to `unsigned int` by `stack_pushn`. */
  function PcBeforeFetch(pc: nat): u32
  {
    if pc == 0 then U32Modulus - 1 else (pc - 1) % U32Modulus
  }

  /** sys (15), by argsize: the word size; the device count; the data and
      then the return stack pointer; the pc of the sys instruction itself as a
      3-byte word. */
  function Sys(m: Vm, argsize: ArgSize): Vm
  {
    match argsize
    case 0 => m.(dst := Push(m.dst, WordSize))
    case 1 => m.(dst := Push(m.dst, m.numDevices))
    case 2 => m.(dst := Push(Push(m.dst, m.dst.sp), m.rst.sp))
    case 3 => m.(dst := PushTopHigh(m.dst, WordSize, PcBeforeFetch(m.pc)))
  }

  // ---------------------------------------------------------------------------
  // Decode and dispatch

  predicate HandleDefined(m: Vm, opcode: Opcode, argsize: ArgSize)
  {
    (opcode == 6 || opcode == 7 ==> AddressDefined(m, argsize)) &&
    (opcode == 13 ==> LitDefined(m, argsize))
  }

  /** `handle_opcode`. */
  function Handle(m: Vm, opcode: Opcode, argsize: ArgSize): Vm
    requires HandleDefined(m, opcode, argsize)
  {
    match opcode
    case 0 => m.(dst := Arith(m.dst, OkSpec.AddOp, argsize))
    case 1 => m.(dst := Arith(m.dst, OkSpec.AndOp, argsize))
    case 2 => m.(dst := Arith(m.dst, OkSpec.XorOp, argsize))
    case 3 => m.(dst := Shf(m.dst, argsize))
    case 4 => m.(dst := Swp(m.dst, argsize))
    case 5 => m.(dst := Cmp(m.dst, argsize))
    case 6 => Str(m, argsize)
    case 7 => Lod(m, argsize)
    case 8 => m.(dst := Dup(m.dst, argsize))
    case 9 => m.(dst := Drp(m.dst, argsize))
    case 10 => Psh(m, argsize)
    case 11 => PopR(m, argsize)
    case 12 => Jmp(m, argsize)
    case 13 => Lit(m, argsize)
    case 14 => IntLoop(m, argsize + 1)
    case 15 => Sys(m, argsize)
  }

  /** What `execute` needs to stay inside RAM and ROM: after a zero
      condition only a lit reads ROM; otherwise the opcode runs on the stack
      left after the condition (if any) was popped. */
  predicate ExecuteDefined(m: Vm, instr: byte)
  {
    var i := Decode(instr);
    i.continues ==>
      if i.skip then
        var (c, s) := Pop(m.dst);
        if c == 0 then (i.opcode == 13 ==> m.pc + i.argsize + 1 <= MemSize)
        else HandleDefined(m.(dst := s), i.opcode, i.argsize)
      else HandleDefined(m, i.opcode, i.argsize)
  }

  /** `execute`: bit 7 clear only sets Halted. With the skip flag the top
      byte is popped first; zero skips the opcode (a lit still steps over its
      immediates), anything else runs it. */
  function Execute(m: Vm, instr: byte): Vm
    requires ExecuteDefined(m, instr)
  {
    var i := Decode(instr);
    if !i.continues then m.(status := OkSpec.Halted)
    else if i.skip then
      var (c, s) := Pop(m.dst);
      if c == 0 then
        if i.opcode == 13 then m.(dst := s, pc := m.pc + i.argsize + 1) else m.(dst := s)
      else Handle(m.(dst := s), i.opcode, i.argsize)
    else Handle(m, i.opcode, i.argsize)
  }

  predicate TickDefined(m: Vm)
  {
    m.pc < MemSize && ExecuteDefined(m.(pc := m.pc + 1), m.rom[m.pc])
  }

  /** `okvm_tick`: `execute(vm, FETCH(vm))`. */
  function Tick(m: Vm): Vm
    requires TickDefined(m)
  {
    Execute(m.(pc := m.pc + 1), m.rom[m.pc])
  }
}
