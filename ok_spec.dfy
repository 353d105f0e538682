/** The interpreter of ok.h as a function on values.

    A `Machine` holds everything `okvm_tick` reads or writes: the data and
    return stacks, the program counter, the device registry, RAM, ROM and the
    status. Each opcode is one function, written in the order the C code pops,
    tests and pushes; `Tick` is one clock cycle. The class `OkVM` in module
    `OkMachine` performs the same steps in place and is proved to agree with
    these functions; the properties of the instruction set are proved about
    these functions in module `OkProps`.

    In this iteration words sit on the stack with the least significant byte
    on top (`PushTopLow`/`PopTopLow`), and a skip-flagged opcode pops its own
    operands first and the condition byte beneath them afterwards. */
module OkSpec {
  import opened Bytes
  import opened ByteStack
  import opened Instruction

  /** `OK_WORD_SIZE`: addresses are 3 bytes wide. */
  const WordSize: nat := 3

  /** `OK_MAX_DEVICES`. */
  const MaxDevices: nat := 16

  datatype Status = Running | Halted | Panic

  /** What a device callback returns, and the RAM it leaves behind: the C
      callback gets pointers to RAM and ROM and may write RAM. */
  datatype DeviceOutput = DeviceOutput(result: byte, ram: Memory)

  /** `OkDevice`: `uint8_t (*)(uint8_t* ram, uint8_t* rom)`. */
  type Device = (Memory, Memory) -> DeviceOutput

  type PortTable = s: seq<byte> | |s| == MaxDevices witness seq(MaxDevices, _ => 0)
  type DeviceTable = s: seq<Option<Device>> | |s| == MaxDevices witness seq(MaxDevices, _ => None)
  type DeviceCount = x: int | 0 <= x <= MaxDevices

  datatype Machine = Machine(
    dst: Stack,
    rst: Stack,
    pc: nat,
    numDevices: DeviceCount,
    ports: PortTable,
    devices: DeviceTable,
    ram: Memory,
    rom: Memory,
    status: Status)

  // ---------------------------------------------------------------------------
  // Device registry

  /** `okvm_register_device`: fails with 1 once 16 devices exist, otherwise
      appends the pair at index `numDevices` and returns 0. A null callback is
      accepted, and so is a port that is already registered. */
  function Register(m: Machine, device: Option<Device>, port: byte): (int, Machine)
  {
    if m.numDevices >= MaxDevices then (1, m)
    else
      (0, m.(ports := m.ports[m.numDevices := port],
             devices := m.devices[m.numDevices := device],
             numDevices := m.numDevices + 1))
  }

  /** The scan of `trigger_device`: the first of the first n entries whose
      port matches. */
  function FindPort(ports: seq<byte>, n: nat, port: byte): (r: Option<nat>)
    requires n <= |ports|
    ensures r.Some? ==> r.value < n && ports[r.value] == port
    ensures r.Some? ==> forall j :: 0 <= j < r.value ==> ports[j] != port
    ensures r.None? ==> forall j :: 0 <= j < n ==> ports[j] != port
  {
    FindFrom(ports, 0, n, port)
  }

  function FindFrom(ports: seq<byte>, i: nat, n: nat, port: byte): (r: Option<nat>)
    requires i <= n <= |ports|
    ensures r.Some? ==> i <= r.value < n && ports[r.value] == port
    ensures r.Some? ==> forall j :: i <= j < r.value ==> ports[j] != port
    ensures r.None? ==> forall j :: i <= j < n ==> ports[j] != port
    decreases n - i
  {
    if i == n then None
    else if ports[i] == port then Some(i)
    else FindFrom(ports, i + 1, n, port)
  }

  /** `trigger_device`: an unknown port or a null callback sets Panic;
      otherwise the callback runs on RAM and ROM and its result is pushed. */
  function Trigger(m: Machine, port: byte): Machine
  {
    match FindPort(m.ports, m.numDevices, port)
    case None => m.(status := Panic)
    case Some(i) =>
      match m.devices[i]
      case None => m.(status := Panic)
      case Some(device) =>
        var out := device(m.ram, m.rom);
        m.(ram := out.ram, dst := Push(m.dst, out.result))
  }

  /** `trigger_device` on each port in turn; a Panic does not stop the rest. */
  function TriggerAll(m: Machine, ports: seq<byte>): Machine
    decreases |ports|
  {
    if ports == [] then m
    else Trigger(TriggerAll(m, ports[..|ports| - 1]), ports[|ports| - 1])
  }

  // ---------------------------------------------------------------------------
  // Opcodes that only touch the data stack

  datatype Combine = AddOp | AndOp | XorOp

  function Apply(op: Combine, a: u32, b: u32): u32
  {
    match op
    case AddOp => Add32(a, b)
    case AndOp => And32(a, b)
    case XorOp => Xor32(a, b)
  }

  /** add (0), and (1), xor (2): b is popped first, then a, then (when
      skipping) the condition; a zero condition pushes a and b back. */
  function Arith(s: Stack, op: Combine, argsize: ArgSize, skip: bool): Stack
  {
    var w := argsize + 1;
    var (b, s1) := PopTopLow(s, w);
    var (a, s2) := PopTopLow(s1, w);
    if !skip then PushTopLow(s2, w, Apply(op, a, b))
    else
      var (c, s3) := Pop(s2);
      if c != 0 then PushTopLow(s3, w, Apply(op, a, b))
      else PushTopLow(PushTopLow(s3, w, a), w, b)
  }

  /** `n >> (ctrl & 0x0f)` and then `<< ((ctrl & 0xf0) >> 4)` on `uint32_t`. */
  function Shift(n: u32, ctrl: byte): u32
  {
    Shl32(Shr32(n, ctrl % 16), ctrl / 16)
  }

  /** shf (3): the control byte is popped first, then the w-byte value. */
  function Shf(s: Stack, argsize: ArgSize, skip: bool): Stack
  {
    var w := argsize + 1;
    var (ctrl, s1) := Pop(s);
    var (n, s2) := PopTopLow(s1, w);
    if !skip then PushTopLow(s2, w, Shift(n, ctrl))
    else
      var (c, s3) := Pop(s2);
      if c != 0 then PushTopLow(s3, w, Shift(n, ctrl))
      else Push(PushTopLow(s3, w, n), ctrl)
  }

  /** swp (4): pushes b, then a. */
  function Swp(s: Stack, argsize: ArgSize, skip: bool): Stack
  {
    var w := argsize + 1;
    var (b, s1) := PopTopLow(s, w);
    var (a, s2) := PopTopLow(s1, w);
    if !skip then PushTopLow(PushTopLow(s2, w, b), w, a)
    else
      var (c, s3) := Pop(s2);
      if c != 0 then PushTopLow(PushTopLow(s3, w, b), w, a)
      else PushTopLow(PushTopLow(s3, w, a), w, b)
  }

  /** The byte cmp pushes: 1 if a > b, 255 if a < b, 0 if equal. */
  function Order(a: u32, b: u32): byte
  {
    if a > b then 1 else if a < b then 255 else 0
  }

  /** cmp (5). */
  function Cmp(s: Stack, argsize: ArgSize, skip: bool): Stack
  {
    var w := argsize + 1;
    var (b, s1) := PopTopLow(s, w);
    var (a, s2) := PopTopLow(s1, w);
    if !skip then Push(s2, Order(a, b))
    else
      var (c, s3) := Pop(s2);
      if c != 0 then Push(s3, Order(a, b))
      else PushTopLow(PushTopLow(s3, w, a), w, b)
  }

  /** dup (8). */
  function Dup(s: Stack, argsize: ArgSize, skip: bool): Stack
  {
    var w := argsize + 1;
    var (n, s1) := PopTopLow(s, w);
    if !skip then PushTopLow(PushTopLow(s1, w, n), w, n)
    else
      var (c, s2) := Pop(s1);
      if c != 0 then PushTopLow(PushTopLow(s2, w, n), w, n)
      else PushTopLow(s2, w, n)
  }

  /** drp (9): only a zero condition pushes the value back. */
  function Drp(s: Stack, argsize: ArgSize, skip: bool): Stack
  {
    var w := argsize + 1;
    var (n, s1) := PopTopLow(s, w);
    if !skip then s1
    else
      var (c, s2) := Pop(s1);
      if c == 0 then PushTopLow(s2, w, n) else s2
  }

  /** nop (15): with the skip flag it still pops a condition byte. */
  function Nop(s: Stack, skip: bool): Stack
  {
    if skip then Pop(s).1 else s
  }

  // ---------------------------------------------------------------------------
  // Opcodes that touch RAM, ROM, the return stack, the pc or the devices

  /** `ram[addr + i] = bytes[i]` for every i. */
  function WriteRam(ram: Memory, addr: nat, bytes: seq<byte>): (r: Memory)
    requires addr + |bytes| <= MemSize
  {
    ram[..addr] + bytes + ram[addr + |bytes|..]
  }

  /** The written range reads back as the bytes written. */
  lemma WriteRamRead(ram: Memory, addr: nat, bytes: seq<byte>)
    requires addr + |bytes| <= MemSize
    ensures WriteRam(ram, addr, bytes)[addr..addr + |bytes|] == bytes
  {
  }

  /** Writing one more byte just below a written range extends the range. */
  lemma WriteRamCons(ram: Memory, addr: nat, x: byte, bytes: seq<byte>)
    requires addr + 1 + |bytes| <= MemSize
    ensures WriteRam(ram, addr + 1, bytes)[addr := x] == WriteRam(ram, addr, [x] + bytes)
  {
    assert ram[..addr + 1] == ram[..addr] + [ram[addr]];
  }

  /** Whether an executed store or load keeps `addr + i` inside RAM: the C
      code indexes RAM without a check. */
  predicate AddressDefined(m: Machine, argsize: ArgSize, skip: bool)
  {
    var (addr, s1) := PopTopLow(m.dst, WordSize);
    (skip ==> Pop(s1).0 != 0) ==> addr + argsize + 1 <= MemSize
  }

  /** str (6): the 3-byte address is popped, then the condition, then w bytes;
      the first byte popped (the top) goes to the highest address. */
  function Str(m: Machine, argsize: ArgSize, skip: bool): Machine
    requires AddressDefined(m, argsize, skip)
  {
    var w := argsize + 1;
    var (addr, s1) := PopTopLow(m.dst, WordSize);
    var (c, s2) := if skip then Pop(s1) else (1, s1);
    if c == 0 then m.(dst := PushTopLow(s2, WordSize, addr))
    else
      var (bytes, s3) := PopAll(s2, w);
      m.(dst := s3, ram := WriteRam(m.ram, addr, bytes))
  }

  /** lod (7): pushes `ram[addr]`, ..., `ram[addr + w - 1]` in that order. */
  function Lod(m: Machine, argsize: ArgSize, skip: bool): Machine
    requires AddressDefined(m, argsize, skip)
  {
    var w := argsize + 1;
    var (addr, s1) := PopTopLow(m.dst, WordSize);
    var (c, s2) := if skip then Pop(s1) else (1, s1);
    if c == 0 then m.(dst := PushTopLow(s2, WordSize, addr))
    else m.(dst := PushAll(s2, m.ram[addr..addr + w]))
  }

  /** psh (10): moves a w-byte value to the return stack. */
  function Psh(m: Machine, argsize: ArgSize, skip: bool): Machine
  {
    var w := argsize + 1;
    var (n, s1) := PopTopLow(m.dst, w);
    var (c, s2) := if skip then Pop(s1) else (1, s1);
    if c == 0 then m.(dst := PushTopLow(s2, w, n))
    else m.(dst := s2, rst := PushTopLow(m.rst, w, n))
  }

  /** pop (11): moves a w-byte value from the return stack; the condition is
      popped from the data stack after the value left the return stack. */
  function PopR(m: Machine, argsize: ArgSize, skip: bool): Machine
  {
    var w := argsize + 1;
    var (n, r1) := PopTopLow(m.rst, w);
    var (c, s1) := if skip then Pop(m.dst) else (1, m.dst);
    if c == 0 then m.(dst := s1, rst := PushTopLow(r1, w, n))
    else m.(dst := PushTopLow(s1, w, n), rst := r1)
  }

  /** jmp (12): the popped w-byte value becomes the pc. */
  function Jmp(m: Machine, argsize: ArgSize, skip: bool): Machine
  {
    var w := argsize + 1;
    var (addr, s1) := PopTopLow(m.dst, w);
    var (c, s2) := if skip then Pop(s1) else (1, s1);
    if c == 0 then m.(dst := PushTopLow(s2, w, addr))
    else m.(dst := s2, pc := addr)
  }

  /** Whether the w immediate bytes of a lit lie inside ROM. */
  predicate LitDefined(m: Machine, argsize: ArgSize)
  {
    m.pc + argsize + 1 <= MemSize
  }

  /** lit (13): fetches the next w ROM bytes, pushing them in ROM order; a
      skipped lit fetches them all the same and pushes nothing. */
  function Lit(m: Machine, argsize: ArgSize, skip: bool): Machine
    requires LitDefined(m, argsize)
  {
    var w := argsize + 1;
    var (c, s1) := if skip then Pop(m.dst) else (1, m.dst);
    if c == 0 then m.(dst := s1, pc := m.pc + w)
    else m.(dst := PushAll(s1, m.rom[m.pc..m.pc + w]), pc := m.pc + w)
  }

  function Reverse(xs: seq<byte>): (r: seq<byte>)
    ensures |r| == |xs|
    ensures forall i :: 0 <= i < |xs| ==> r[i] == xs[|xs| - 1 - i]
  {
    if xs == [] then [] else [xs[|xs| - 1]] + Reverse(xs[..|xs| - 1])
  }

  lemma ReverseReverse(xs: seq<byte>)
    ensures Reverse(Reverse(xs)) == xs
  {
    assert forall i :: 0 <= i < |xs| ==> Reverse(Reverse(xs))[i] == xs[i];
  }

  /** int (14): pops w ports into `buff` (top first), then the condition; a
      zero condition pushes them back, otherwise each port is triggered in
      pop order. */
  function Int(m: Machine, argsize: ArgSize, skip: bool): Machine
  {
    var w := argsize + 1;
    var (bytes, s1) := PopAll(m.dst, w);
    var buff := Reverse(bytes);
    var (c, s2) := if skip then Pop(s1) else (1, s1);
    if c == 0 then m.(dst := PushAll(s2, bytes))
    else TriggerAll(m.(dst := s2), buff)
  }

  // ---------------------------------------------------------------------------
  // Decode and dispatch

  /** What `handle_opcode` needs to stay inside RAM and ROM. */
  predicate HandleDefined(m: Machine, opcode: Opcode, argsize: ArgSize, skip: bool)
  {
    (opcode == 6 || opcode == 7 ==> AddressDefined(m, argsize, skip)) &&
    (opcode == 13 ==> LitDefined(m, argsize))
  }

  /** `handle_opcode`. */
  function Handle(m: Machine, opcode: Opcode, argsize: ArgSize, skip: bool): Machine
    requires HandleDefined(m, opcode, argsize, skip)
  {
    match opcode
    case 0 => m.(dst := Arith(m.dst, AddOp, argsize, skip))
    case 1 => m.(dst := Arith(m.dst, AndOp, argsize, skip))
    case 2 => m.(dst := Arith(m.dst, XorOp, argsize, skip))
    case 3 => m.(dst := Shf(m.dst, argsize, skip))
    case 4 => m.(dst := Swp(m.dst, argsize, skip))
    case 5 => m.(dst := Cmp(m.dst, argsize, skip))
    case 6 => Str(m, argsize, skip)
    case 7 => Lod(m, argsize, skip)
    case 8 => m.(dst := Dup(m.dst, argsize, skip))
    case 9 => m.(dst := Drp(m.dst, argsize, skip))
    case 10 => Psh(m, argsize, skip)
    case 11 => PopR(m, argsize, skip)
    case 12 => Jmp(m, argsize, skip)
    case 13 => Lit(m, argsize, skip)
    case 14 => Int(m, argsize, skip)
    case 15 => m.(dst := Nop(m.dst, skip))
  }

  predicate ExecuteDefined(m: Machine, instr: byte)
  {
    var i := Decode(instr);
    i.continues ==> HandleDefined(m, i.opcode, i.argsize, i.skip)
  }

  /** `execute`: a byte with bit 7 clear only sets Halted. */
  function Execute(m: Machine, instr: byte): Machine
    requires ExecuteDefined(m, instr)
  {
    var i := Decode(instr);
    if !i.continues then m.(status := Halted)
    else Handle(m, i.opcode, i.argsize, i.skip)
  }

  /** `fetch`: `rom[pc++]`. */
  function Fetch(m: Machine): (byte, Machine)
    requires m.pc < MemSize
  {
    (m.rom[m.pc], m.(pc := m.pc + 1))
  }

  predicate TickDefined(m: Machine)
  {
    m.pc < MemSize && ExecuteDefined(Fetch(m).1, Fetch(m).0)
  }

  /** `okvm_tick`: one fetch and one execute; the caller reads the status. */
  function Tick(m: Machine): Machine
    requires TickDefined(m)
  {
    var (instr, m1) := Fetch(m);
    Execute(m1, instr)
  }
}
