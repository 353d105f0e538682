/** The interpreter of src/okvm.c, the earliest iteration, as a function on
    values.

    It shares the instruction format, the 256-byte stacks and the
    most-significant-byte-on-top word order of okvm.h, but
    - opcodes 0-5 are asb, dmd, aor, mxr, swp and cmp, each pushing two
      results computed from b (popped first) and a;
    - a skip-flagged opcode runs only when the byte it pops is exactly 0xFF,
      and a skipped lit does not step over its immediates;
    - dup has no `break` and runs into drp, lit runs into the empty case 14,
      and str throws away one w-byte word before storing the next;
    - there are no devices, and opcode 15 is `dbg`;
    - ROM is the caller's program buffer itself, of whatever length.

    The class `OkVM` in module `SrcOkvmMachine` performs the same steps in
    place and is proved to agree with these functions. */
module SrcOkvmSpec {
  import opened Bytes
  import opened ByteStack
  import opened Instruction
  import OkSpec

  /** `VM_WORD_SIZE`. */
  const WordSize: nat := 3

  datatype Vm = Vm(
    dst: Stack,
    rst: Stack,
    pc: nat,
    ram: Memory,
    rom: seq<byte>,
    status: OkSpec.Status)

  /** The state `vm_init` leaves: empty zeroed stacks, pc 0, status Halted,
      zeroed RAM and the program as ROM. */
  function Initial(program: seq<byte>): (m: Vm)
    ensures m.dst == EmptyStack() && m.rst == EmptyStack() && m.rom == program
    ensures forall i :: 0 <= i < MemSize ==> m.ram[i] == 0
  {
    Vm(EmptyStack(), EmptyStack(), 0, seq(MemSize, _ => 0), program, OkSpec.Halted)
  }

  // ---------------------------------------------------------------------------
  // Opcodes 0-5: b is popped, then a, then two results are pushed

  /** The two words asb and aor push: `b - a`, then `b + a`, on `unsigned int`. */
  function Asb(a: u32, b: u32): (u32, u32)
  {
    (Sub32(b, a), Add32(b, a))
  }

  /** The two words mxr pushes: `b ^ a`, then `b * a`, on `unsigned int`. */
  function Mxr(a: u32, b: u32): (u32, u32)
  {
    (Xor32(b, a), Mul32(b, a))
  }

  /** The two bytes cmp pushes: 255 if b > a, else 0; then 255 if b == a,
      else 0. */
  function Flags(a: u32, b: u32): (byte, byte)
  {
    (if b > a then 255 else 0, if b == a then 255 else 0)
  }

  /** The two words `b`-then-`a` an opcode in 0-4 pushes, lower first; dmd
      with a zero divisor pushes two zero words. */
  function Results(opcode: Opcode, a: u32, b: u32): (u32, u32)
    requires opcode <= 4
  {
    match opcode
    case 0 => Asb(a, b)
    case 1 => if a == 0 then (0, 0) else Dmd(a, b)
    case 2 => Asb(a, b)
    case 3 => Mxr(a, b)
    case 4 => (b, a)
  }

  /** The two words dmd pushes for a non-zero divisor: `b % a`, then
      `b / a`. */
  function Dmd(a: u32, b: u32): (r: (u32, u32))
    requires a != 0
    ensures r.0 < a && a * r.1 + r.0 == b
  {
    DivShrinks(b, a);
    (b % a, b / a)
  }

  /** The shared prologue of opcodes 0-5: `b = stack_popn(w)`, then
      `a = stack_popn(w)`. */
  function Operands(s: Stack, argsize: ArgSize): (u32, u32, Stack)
  {
    var (b, s1) := PopTopHigh(s, argsize + 1);
    var (a, s2) := PopTopHigh(s1, argsize + 1);
    (a, b, s2)
  }

  /** Opcodes 0-5. Only dmd by zero changes the status, to Panic. */
  function Binary(m: Vm, opcode: Opcode, argsize: ArgSize): Vm
    requires opcode <= 5
  {
    var (a, b, s2) := Operands(m.dst, argsize);
    if opcode == 5 then
      m.(dst := Push(Push(s2, Flags(a, b).0), Flags(a, b).1))
    else
      var (lower, upper) := Results(opcode, a, b);
      var s := PushTopHigh(PushTopHigh(s2, argsize + 1, lower), argsize + 1, upper);
      if opcode == 1 && a == 0 then m.(dst := s, status := OkSpec.Panic) else m.(dst := s)
  }

  // ---------------------------------------------------------------------------
  // Opcodes 6-15

  /** What str and lod need: the address on top leaves room for w bytes. */
  predicate AddressDefined(m: Vm, argsize: ArgSize)
  {
    PopTopHigh(m.dst, WordSize).0 + argsize + 1 <= MemSize
  }

  /** str (6): pops the address, then a w-byte word `data` that is never
      used, then `ram[addr + i] = pop()` for i = 0 up to argsize, so the first
      byte popped goes to the lowest address. */
  function Str(m: Vm, argsize: ArgSize): Vm
    requires AddressDefined(m, argsize)
  {
    var w := argsize + 1;
    var (addr, s1) := PopTopHigh(m.dst, WordSize);
    var (_, s2) := PopTopHigh(s1, w);
    var (bytes, s3) := PopAll(s2, w);
    m.(dst := s3, ram := OkSpec.WriteRam(m.ram, addr, OkSpec.Reverse(bytes)))
  }

  /** lod (7): pushes `ram[addr]` up to `ram[addr + argsize]` in that order. */
  function Lod(m: Vm, argsize: ArgSize): Vm
    requires AddressDefined(m, argsize)
  {
    var (addr, s1) := PopTopHigh(m.dst, WordSize);
    m.(dst := PushAll(s1, m.ram[addr..addr + argsize + 1]))
  }

  /** dup (8) followed, for want of a `break`, by drp (9). */
  function DupDrp(s: Stack, argsize: ArgSize): Stack
  {
    var w := argsize + 1;
    var (n, s1) := PopTopHigh(s, w);
    PopTopHigh(PushTopHigh(PushTopHigh(s1, w, n), w, n), w).1
  }

  /** drp (9). */
  function Drp(s: Stack, argsize: ArgSize): Stack
  {
    PopTopHigh(s, argsize + 1).1
  }

  /** psh (10). */
  function Psh(m: Vm, argsize: ArgSize): Vm
  {
    var (n, s1) := PopTopHigh(m.dst, argsize + 1);
    m.(dst := s1, rst := PushTopHigh(m.rst, argsize + 1, n))
  }

  /** pop (11). */
  function PopR(m: Vm, argsize: ArgSize): Vm
  {
    var (n, r1) := PopTopHigh(m.rst, argsize + 1);
    m.(dst := PushTopHigh(m.dst, argsize + 1, n), rst := r1)
  }

  /** jmp (12). */
  function Jmp(m: Vm, argsize: ArgSize): Vm
  {
    var (addr, s1) := PopTopHigh(m.dst, argsize + 1);
    m.(dst := s1, pc := addr)
  }

  /** What lit needs: its w immediates lie inside the program. */
  predicate LitDefined(m: Vm, argsize: ArgSize)
  {
    m.pc + argsize + 1 <= |m.rom|
  }

  /** lit (13): `stack_push(fetch(vm))`, w times; it then runs into the empty
      case 14. */
  function Lit(m: Vm, argsize: ArgSize): Vm
    requires LitDefined(m, argsize)
  {
    m.(dst := PushAll(m.dst, m.rom[m.pc..m.pc + argsize + 1]), pc := m.pc + argsize + 1)
  }

  /** dbg (15), by argsize: the data stack pointer; the return stack
      pointer; the pc cast to one byte, pushed as a 3-byte word; the word
      size. */
  function Dbg(m: Vm, argsize: ArgSize): Vm
  {
    match argsize
    case 0 => m.(dst := Push(m.dst, m.dst.sp))
    case 1 => m.(dst := Push(m.dst, m.rst.sp))
    case 2 => m.(dst := PushTopHigh(m.dst, WordSize, m.pc % 256))
    case 3 => m.(dst := Push(m.dst, WordSize))
  }

  // ---------------------------------------------------------------------------
  // Decode and dispatch

  predicate HandleDefined(m: Vm, opcode: Opcode, argsize: ArgSize)
  {
    (opcode == 6 || opcode == 7 ==> AddressDefined(m, argsize)) &&
    (opcode == 13 ==> LitDefined(m, argsize))
  }

  /** `handle_opcode`; syn (14) does nothing. */
  function Handle(m: Vm, opcode: Opcode, argsize: ArgSize): Vm
    requires HandleDefined(m, opcode, argsize)
  {
    if opcode <= 5 then Binary(m, opcode, argsize)
    else
      match opcode
      case 6 => Str(m, argsize)
      case 7 => Lod(m, argsize)
      case 8 => m.(dst := DupDrp(m.dst, argsize))
      case 9 => m.(dst := Drp(m.dst, argsize))
      case 10 => Psh(m, argsize)
      case 11 => PopR(m, argsize)
      case 12 => Jmp(m, argsize)
      case 13 => Lit(m, argsize)
      case 14 => m
      case 15 => Dbg(m, argsize)
  }

  predicate ExecuteDefined(m: Vm, instr: byte)
  {
    var i := Decode(instr);
    i.continues ==>
      if i.skip then
        var (c, s) := Pop(m.dst);
        c == 255 ==> HandleDefined(m.(dst := s), i.opcode, i.argsize)
      else HandleDefined(m, i.opcode, i.argsize)
  }

  /** `execute`: bit 7 clear only sets Halted. With the skip flag the top
      byte is popped first, and anything but 0xFF ends the instruction. */
  function Execute(m: Vm, instr: byte): Vm
    requires ExecuteDefined(m, instr)
  {
    var i := Decode(instr);
    if !i.continues then m.(status := OkSpec.Halted)
    else if i.skip then
      var (c, s) := Pop(m.dst);
      if c != 255 then m.(dst := s)
      else Handle(m.(dst := s), i.opcode, i.argsize)
    else Handle(m, i.opcode, i.argsize)
  }

  predicate TickDefined(m: Vm)
  {
    m.pc < |m.rom| && ExecuteDefined(m.(pc := m.pc + 1), m.rom[m.pc])
  }

  /** `vm_tick`: `execute(self, fetch(self))`. */
  function Tick(m: Vm): Vm
    requires TickDefined(m)
  {
    Execute(m.(pc := m.pc + 1), m.rom[m.pc])
  }
}
