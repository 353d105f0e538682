/** Properties of the okvm.h interpreter, proved about the functions of
    `OkvmSpec` (and so, through the contracts of `OkvmMachine.OkVM`, about the
    in-place interpreter). Stack effects are stated on windows, as in
    `OkProps`. */
module OkvmProps {
  import opened Bytes
  import opened ByteStack
  import opened Instruction
  import OkSpec
  import OkProps
  import opened OkvmSpec

  // ---------------------------------------------------------------------------
  // The skip flag

  /** A skip-flagged instruction with a zero byte on top runs nothing: the
      condition is consumed, everything beneath it stays, and only a lit moves
      the pc, past its w immediates. */
  lemma SkipZero(m: Vm, instr: byte, k: nat)
    requires k <= 254
    requires var i := Decode(instr); i.continues && i.skip
    requires At(m.dst, 1) == 0
    requires Decode(instr).opcode == 13 ==> m.pc + Decode(instr).argsize + 1 <= MemSize
    ensures ExecuteDefined(m, instr)
    ensures var i := Decode(instr);
            var r := Execute(m, instr);
            Window(r.dst, k) == Window(m.dst, k + 1)[..k] &&
            Moved(m.dst.sp, r.dst.sp, -1) &&
            r == m.(dst := r.dst, pc := if i.opcode == 13 then m.pc + i.argsize + 1 else m.pc)
  {
    PopWindow(m.dst, k);
    var s := Pop(m.dst).1;
    assert (Window(s, k) + [Pop(m.dst).0])[..k] == Window(s, k);
  }

  /** A skip-flagged instruction with a non-zero byte on top consumes that
      byte and then does exactly what the same instruction without the flag
      does. */
  lemma SkipNonzero(m: Vm, instr: byte)
    requires var i := Decode(instr); i.continues && i.skip
    requires At(m.dst, 1) != 0
    requires HandleDefined(m.(dst := Pop(m.dst).1), Decode(instr).opcode, Decode(instr).argsize)
    ensures ExecuteDefined(m, instr)
    ensures ExecuteDefined(m.(dst := Pop(m.dst).1), ClearSkip(instr))
    ensures Execute(m, instr) == Execute(m.(dst := Pop(m.dst).1), ClearSkip(instr))
  {
    PopWindow(m.dst, 0);
  }

  // ---------------------------------------------------------------------------
  // Words on the data stack

  /** Two w-byte words popped in a row: b from the top, then a. */
  lemma PopTwo(t: Stack, w: nat, k: nat)
    requires 1 <= w <= 4 && k + 2 * w <= 255
    ensures var (b, t1) := PopTopHigh(t, w);
            var (a, t2) := PopTopHigh(t1, w);
            Window(t, k + 2 * w) == Window(t2, k) + EncodeTopHigh(a, w) + EncodeTopHigh(b, w) &&
            Window(t, 2 * w) == EncodeTopHigh(a, w) + EncodeTopHigh(b, w) &&
            Moved(t.sp, t2.sp, -2 * w)
  {
    var (b, t1) := PopTopHigh(t, w);
    var (a, t2) := PopTopHigh(t1, w);
    PopTopHighWindow(t, w, k + w);
    PopTopHighWindow(t1, w, k);
    var x := EncodeTopHigh(a, w) + EncodeTopHigh(b, w);
    assert Window(t, k + 2 * w) == Window(t2, k) + x;
    WindowSuffix(t, 2 * w, k + 2 * w);
    assert (Window(t2, k) + x)[k..] == x;
  }

  /** Equal encodings of values that fit mean equal values, and a pair of
      w-byte encodings splits in the middle. */
  lemma SameWords(a: nat, b: nat, a': nat, b': nat, w: nat)
    requires 1 <= w <= 4
    requires a < Pow256(w) && b < Pow256(w) && a' < Pow256(w) && b' < Pow256(w)
    requires EncodeTopHigh(a, w) + EncodeTopHigh(b, w) == EncodeTopHigh(a', w) + EncodeTopHigh(b', w)
    ensures a == a' && b == b'
  {
    var x := EncodeTopHigh(a, w) + EncodeTopHigh(b, w);
    assert x[..w] == EncodeTopHigh(a, w) == EncodeTopHigh(a', w);
    assert x[w..] == EncodeTopHigh(b, w) == EncodeTopHigh(b', w);
    EncodeTopHighInjective(a, a', w);
    EncodeTopHighInjective(b, b', w);
  }

  /** Two w-byte words pushed in a row: x, then y on top. */
  lemma PushTwo(s: Stack, w: nat, x: nat, y: nat, k: nat)
    requires k + 2 * w <= 256
    ensures Window(PushTopHigh(PushTopHigh(s, w, x), w, y), k + 2 * w)
         == Window(s, k) + EncodeTopHigh(x, w) + EncodeTopHigh(y, w)
    ensures Moved(s.sp, PushTopHigh(PushTopHigh(s, w, x), w, y).sp, 2 * w)
  {
    PushTopHighWindow(s, w, x, k);
    PushTopHighWindow(PushTopHigh(s, w, x), w, y, k + w);
  }

  /** The value a w-byte pop returns is the number its window spells, most
      significant byte on top. */
  lemma PopTopHighValue(s: Stack, n: nat)
    requires n <= 4
    ensures PopTopHigh(s, n).0 == DecodeTopHigh(Window(s, n))
  {
    PopAllWindow(s, n, 0);
    assert Window(PopAll(s, n).1, 0) == [];
    assert Window(s, n) == PopAll(s, n).0;
  }

  // ---------------------------------------------------------------------------
  // add, and, xor, swp, cmp

  /** With a (deeper) and b (on top) as w-byte words, add, and and xor replace
      both by the one w-byte word `a op b`, its most significant byte on top,
      keeping every byte below. */
  lemma ArithEffect(t: Stack, op: OkSpec.Combine, argsize: ArgSize, a: u32, b: u32, k: nat)
    requires a < Pow256(argsize + 1) && b < Pow256(argsize + 1)
    requires k + 2 * (argsize + 1) <= 255
    requires Window(t, 2 * (argsize + 1)) == EncodeTopHigh(a, argsize + 1) + EncodeTopHigh(b, argsize + 1)
    ensures Window(Arith(t, op, argsize), k + argsize + 1)
         == Window(t, k + 2 * (argsize + 1))[..k] + EncodeTopHigh(OkSpec.Apply(op, a, b), argsize + 1)
    ensures Moved(t.sp, Arith(t, op, argsize).sp, -1 - argsize)
  {
    var w := argsize + 1;
    var (b', t1) := PopTopHigh(t, w);
    var (a', t2) := PopTopHigh(t1, w);
    assert Arith(t, op, argsize) == PushTopHigh(t2, w, OkSpec.Apply(op, a', b'));
    PopTwo(t, w, k);
    SameWords(a, b, a', b', w);
    PushTopHighWindow(t2, w, OkSpec.Apply(op, a, b), k);
    assert (Window(t2, k) + EncodeTopHigh(a, w) + EncodeTopHigh(b, w))[..k] == Window(t2, k);
  }

  /** The next w-byte pop after add reads `(a + b) mod 2^(8w)`: the 32-bit
      wrap loses nothing that would survive the truncation to w bytes. */
  lemma AddTruncates(t: Stack, argsize: ArgSize, a: u32, b: u32)
    requires a < Pow256(argsize + 1) && b < Pow256(argsize + 1)
    requires 2 * (argsize + 1) <= 255
    requires Window(t, 2 * (argsize + 1)) == EncodeTopHigh(a, argsize + 1) + EncodeTopHigh(b, argsize + 1)
    ensures PopTopHigh(Arith(t, OkSpec.AddOp, argsize), argsize + 1).0 == (a + b) % Pow256(argsize + 1)
  {
    var w := argsize + 1;
    var (b', t1) := PopTopHigh(t, w);
    var (a', t2) := PopTopHigh(t1, w);
    PopTwo(t, w, 0);
    SameWords(a, b, a', b', w);
    assert Arith(t, OkSpec.AddOp, argsize) == PushTopHigh(t2, w, Add32(a, b));
    RoundTripTopHigh(t2, w, Add32(a, b), 0);
    WrapThenTruncate(a + b, w);
  }

  /** swp exchanges the two top w-byte words, b ending below a. */
  lemma SwpEffect(t: Stack, argsize: ArgSize, k: nat)
    requires k + 2 * (argsize + 1) <= 255
    ensures Window(Swp(t, argsize), k + 2 * (argsize + 1))
         == Window(t, k + 2 * (argsize + 1))[..k] + Window(t, argsize + 1) + Window(t, 2 * (argsize + 1))[..argsize + 1]
    ensures Swp(t, argsize).sp == t.sp
  {
    var w := argsize + 1;
    var (b, t1) := PopTopHigh(t, w);
    var (a, t2) := PopTopHigh(t1, w);
    var r := PushTopHigh(PushTopHigh(t2, w, b), w, a);
    assert Swp(t, argsize) == r;
    PopTwo(t, w, k);
    PopTopHighWindow(t, w, 0);
    PushTwo(t2, w, b, a, k);
    OkProps.SwapPieces(Window(t2, k), EncodeTopHigh(a, w), EncodeTopHigh(b, w),
                       Window(t, k + 2 * w), Window(t, 2 * w), Window(t, w), Window(r, k + 2 * w));
  }

  /** cmp replaces the two words by one byte: 1 when a > b, 255 when a < b,
      0 when they are equal. */
  lemma CmpEffect(t: Stack, argsize: ArgSize, a: u32, b: u32, k: nat)
    requires a < Pow256(argsize + 1) && b < Pow256(argsize + 1)
    requires k + 2 * (argsize + 1) <= 255
    requires Window(t, 2 * (argsize + 1)) == EncodeTopHigh(a, argsize + 1) + EncodeTopHigh(b, argsize + 1)
    ensures Window(Cmp(t, argsize), k + 1)
         == Window(t, k + 2 * (argsize + 1))[..k] + [if a > b then 1 else if a < b then 255 else 0]
    ensures Moved(t.sp, Cmp(t, argsize).sp, -1 - 2 * argsize)
  {
    var w := argsize + 1;
    var (b', t1) := PopTopHigh(t, w);
    var (a', t2) := PopTopHigh(t1, w);
    assert Cmp(t, argsize) == Push(t2, OkSpec.Order(a', b'));
    PopTwo(t, w, k);
    SameWords(a, b, a', b', w);
    PushWindow(t2, OkSpec.Order(a, b), k);
    assert (Window(t2, k) + EncodeTopHigh(a, w) + EncodeTopHigh(b, w))[..k] == Window(t2, k);
  }

  // ---------------------------------------------------------------------------
  // shf, dup, drp

  /** shf replaces the control byte and the w-byte value n beneath it by
      `(n >> (ctrl & 0xf)) << (ctrl >> 4)`, truncated to w bytes. */
  lemma ShfEffect(t: Stack, argsize: ArgSize, n: u32, ctrl: byte, k: nat)
    requires n < Pow256(argsize + 1)
    requires k + argsize + 2 <= 255
    requires Window(t, argsize + 2) == EncodeTopHigh(n, argsize + 1) + [ctrl]
    ensures Window(Shf(t, argsize), k + argsize + 1)
         == Window(t, k + argsize + 2)[..k] + EncodeTopHigh(OkSpec.Shift(n, ctrl), argsize + 1)
    ensures Moved(t.sp, Shf(t, argsize).sp, -1)
  {
    var w := argsize + 1;
    var (ctrl', t1) := Pop(t);
    var (n', t2) := PopTopHigh(t1, w);
    var v := OkSpec.Shift(n', ctrl');
    assert Shf(t, argsize) == PushTopHigh(t2, w, v);
    PopWindow(t, k + w);
    PopTopHighWindow(t1, w, k);
    var L, N := Window(t2, k), EncodeTopHigh(n', w);
    assert Window(t, k + w + 1) == L + N + [ctrl'];
    assert (L + N + [ctrl'])[..k] == L;
    WindowSuffix(t, w + 1, k + w + 1);
    assert (L + N + [ctrl'])[k..] == N + [ctrl'];
    assert ctrl' == ctrl && n' == n by {
      assert (N + [ctrl'])[..w] == N;
      assert (EncodeTopHigh(n, w) + [ctrl])[..w] == EncodeTopHigh(n, w);
      EncodeTopHighInjective(n, n', w);
    }
    PushTopHighWindow(t2, w, v, k);
  }

  /** dup pushes a second copy of the top w-byte word. */
  lemma DupEffect(t: Stack, argsize: ArgSize, k: nat)
    requires k + 2 * (argsize + 1) <= 255
    ensures Window(Dup(t, argsize), k + 2 * (argsize + 1))
         == Window(t, k + argsize + 1) + Window(t, argsize + 1)
    ensures Moved(t.sp, Dup(t, argsize).sp, argsize + 1)
  {
    var w := argsize + 1;
    var (n, t1) := PopTopHigh(t, w);
    assert Dup(t, argsize) == PushTopHigh(PushTopHigh(t1, w, n), w, n);
    PopTopHighWindow(t, w, k);
    PushTwo(t1, w, n, n, k);
  }

  /** drp removes the top w bytes and nothing else. */
  lemma DrpEffect(t: Stack, argsize: ArgSize, k: nat)
    requires k + argsize + 1 <= 255
    ensures Window(Drp(t, argsize), k) == Window(t, k + argsize + 1)[..k]
    ensures Moved(t.sp, Drp(t, argsize).sp, -1 - argsize)
  {
    var w := argsize + 1;
    var (n, t1) := PopTopHigh(t, w);
    PopTopHighWindow(t, w, k);
    assert (Window(t1, k) + EncodeTopHigh(n, w))[..k] == Window(t1, k);
  }

  /** lit pushes the w ROM bytes after the instruction in ROM order, the last
      on top, and moves the pc past them. */
  lemma LitEffect(m: Vm, argsize: ArgSize, k: nat)
    requires LitDefined(m, argsize) && k + argsize + 1 <= 256
    ensures var r := Lit(m, argsize);
            Window(r.dst, k + argsize + 1) == Window(m.dst, k) + m.rom[m.pc..m.pc + argsize + 1] &&
            Moved(m.dst.sp, r.dst.sp, argsize + 1) &&
            r == m.(dst := r.dst, pc := m.pc + argsize + 1)
  {
    PushAllWindow(m.dst, m.rom[m.pc..m.pc + argsize + 1], k);
  }

  // ---------------------------------------------------------------------------
  // Halting and jumps

  /** A byte with bit 7 clear halts, after the fetch has moved the pc past
      it. */
  lemma HaltOnClearBit(m: Vm)
    requires m.pc < MemSize && m.rom[m.pc] < 128
    ensures TickDefined(m)
    ensures Tick(m) == m.(pc := m.pc + 1, status := OkSpec.Halted)
  {
  }

  /** The value on top, read most significant byte first, is the one the
      caller named. */
  lemma ValueOnTop(s: Stack, n: nat, v: nat)
    requires 1 <= n <= 4 && v < Pow256(n)
    requires Window(s, n) == EncodeTopHigh(v, n)
    ensures PopTopHigh(s, n).0 == v
  {
    PopTopHighWindow(s, n, 0);
    EncodeTopHighInjective(v, PopTopHigh(s, n).0, n);
  }

  /** jmp to an address holding a zero byte: the next tick halts there, with
      the pc one past the target. */
  lemma JumpToZeroHalts(m: Vm, argsize: ArgSize, target: nat)
    requires m.pc < MemSize && m.rom[m.pc] == Encode(Instr(true, false, argsize, 12))
    requires target < Pow256(argsize + 1) && target < MemSize && m.rom[target] == 0
    requires Window(m.dst, argsize + 1) == EncodeTopHigh(target, argsize + 1)
    ensures TickDefined(m) && Tick(m).pc == target
    ensures TickDefined(Tick(m))
    ensures Tick(Tick(m)).pc == target + 1 && Tick(Tick(m)).status == OkSpec.Halted
  {
    DecodeEncode(Instr(true, false, argsize, 12));
    ValueOnTop(m.dst, argsize + 1, target);
  }

  // ---------------------------------------------------------------------------
  // Devices and int

  /** A full table refuses the device and changes nothing. */
  lemma RegisterFull(m: Vm, device: Option<Device>)
    requires m.numDevices == MaxDevices
    ensures Register(m, device) == (1, m)
  {
  }

  /** Below sixteen devices the callback fills slot `numDevices`, the other
      slots stay, and 0 is returned. */
  lemma RegisterFills(m: Vm, device: Option<Device>)
    requires m.numDevices < MaxDevices
    ensures var (code, r) := Register(m, device);
            code == 0 && r.numDevices == m.numDevices + 1 &&
            r.devices[m.numDevices] == device &&
            (forall j :: 0 <= j < MaxDevices && j != m.numDevices ==> r.devices[j] == m.devices[j]) &&
            r == m.(numDevices := r.numDevices, devices := r.devices)
  {
  }

  /** trigger on an empty slot sets Panic and changes nothing else; on a
      filled slot it pushes exactly the byte the callback returns for the
      selector's operation. */
  lemma TriggerEffect(m: Vm, id: byte, k: nat)
    requires k <= 255
    ensures var r := Trigger(m, id);
            match m.devices[Slot(id)]
            case None => r == m.(status := OkSpec.Panic)
            case Some(device) =>
              Window(r.dst, k + 1) == Window(m.dst, k) + [device(m.ram, Op(id))] &&
              Moved(m.dst.sp, r.dst.sp, 1) &&
              r == m.(dst := r.dst)
  {
    match m.devices[Slot(id)]
    case None =>
    case Some(device) =>
      PushWindow(m.dst, device(m.ram, Op(id)), k);
  }

  /** Registering a callback makes every selector whose high nibble names the
      new slot reach it. */
  lemma RegisterThenTrigger(m: Vm, device: Device, id: byte)
    requires m.numDevices < MaxDevices && Slot(id) == m.numDevices
    ensures var r := Register(m, Some(device)).1;
            Trigger(r, id).dst == Push(m.dst, device(m.ram, Op(id))) &&
            Trigger(r, id).status == m.status
  {
  }

  /** The top of the stack after one pop is the byte that was second. */
  lemma SecondFromTop(s: Stack)
    ensures At(Pop(s).1, 1) == At(s, 2)
  {
    PopWindow(s, 1);
    assert Window(s, 2)[0] == At(s, 2);
    assert Window(Pop(s).1, 1)[0] == At(Pop(s).1, 1);
  }

  /** With no device in any slot, n turns of the int loop consume the n top
      bytes as selectors, one per turn, and panic; nothing is pushed, and the
      bytes beneath the selectors stay. */
  lemma {:induction false} IntNoDevices(m: Vm, n: nat, k: nat)
    requires forall j :: 0 <= j < MaxDevices ==> m.devices[j].None?
    requires k + n <= 255
    ensures var r := IntLoop(m, n);
            Window(r.dst, k) == Window(m.dst, k + n)[..k] &&
            Moved(m.dst.sp, r.dst.sp, -(n as int)) &&
            (n >= 1 ==> r.status == OkSpec.Panic) &&
            r == m.(dst := r.dst, status := r.status)
  {
    if n > 0 {
      IntNoDevices(m, n - 1, k + 1);
      var r1 := IntLoop(m, n - 1);
      PopWindow(r1.dst, k);
      assert (Window(Pop(r1.dst).1, k) + [Pop(r1.dst).0])[..k] == Window(Pop(r1.dst).1, k);
      assert Window(m.dst, k + n)[..k + 1][..k] == Window(m.dst, k + n)[..k];
    }
  }

  /** When the first selector reaches a callback, the next turn of the int
      loop pops the byte that callback just pushed, not the byte that was
      second on the stack. */
  lemma IntPopsDeviceResult(m: Vm, device: Device)
    requires m.devices[Slot(At(m.dst, 1))] == Some(device)
    ensures Pop(IntStep(m).dst).0 == device(m.ram, Op(At(m.dst, 1)))
  {
    var (id, s) := Pop(m.dst);
    PopWindow(m.dst, 0);
    var x := device(m.ram, Op(id));
    assert IntStep(m).dst == Push(s, x);
    PushWindow(s, x, 0);
    PopWindow(Push(s, x), 0);
    assert Window(Push(s, x), 1)[0] == At(Push(s, x), 1);
  }

  /** When the first selector finds an empty slot, the loop goes on: the
      machine panics and the second turn pops the byte that was second. */
  lemma IntPanicContinues(m: Vm)
    requires m.devices[Slot(At(m.dst, 1))].None?
    ensures IntStep(m).status == OkSpec.Panic
    ensures Pop(IntStep(m).dst).0 == At(m.dst, 2)
  {
    PopWindow(m.dst, 0);
    SecondFromTop(m.dst);
    PopWindow(IntStep(m).dst, 0);
  }

  /** The int loop never touches the pc, the return stack, RAM, ROM or the
      device table, and the only status it can set is Panic. */
  lemma {:induction false} IntLoopFrame(m: Vm, n: nat)
    ensures var r := IntLoop(m, n);
            r.pc == m.pc && r.rst == m.rst && r.ram == m.ram && r.rom == m.rom &&
            r.numDevices == m.numDevices && r.devices == m.devices &&
            (r.status == m.status || r.status == OkSpec.Panic)
  {
    if n > 0 {
      IntLoopFrame(m, n - 1);
    }
  }

  // ---------------------------------------------------------------------------
  // sys

  /** sys pushes, by argsize: the word size 3; the device count; the data
      stack pointer as it was, then the return stack pointer; the address of
      the sys instruction, `pc - 1`, as a 3-byte word. Nothing but the data
      stack changes. */
  lemma SysEffect(m: Vm, argsize: ArgSize, k: nat)
    requires k + 3 <= 255
    ensures var r := Sys(m, argsize);
            r == m.(dst := r.dst) &&
            (argsize == 0 ==> Window(r.dst, k + 1) == Window(m.dst, k) + [3]) &&
            (argsize == 1 ==> Window(r.dst, k + 1) == Window(m.dst, k) + [m.numDevices]) &&
            (argsize == 2 ==> Window(r.dst, k + 2) == Window(m.dst, k) + [m.dst.sp, m.rst.sp]) &&
            (argsize == 3 ==>
               Window(r.dst, k + 3) == Window(m.dst, k) + EncodeTopHigh(PcBeforeFetch(m.pc), 3) &&
               (m.pc >= 1 ==> PopTopHigh(r.dst, 3).0 == (m.pc - 1) % MemSize))
  {
    match argsize
    case 0 => PushWindow(m.dst, 3, k);
    case 1 => PushWindow(m.dst, m.numDevices, k);
    case 2 =>
      PushWindow(m.dst, m.dst.sp, k);
      PushWindow(Push(m.dst, m.dst.sp), m.rst.sp, k + 1);
    case 3 =>
      PushTopHighWindow(m.dst, 3, PcBeforeFetch(m.pc), k);
      RoundTripTopHigh(m.dst, 3, PcBeforeFetch(m.pc), 0);
      assert Pow256(3) == MemSize;
      if m.pc >= 1 {
        WrapThenTruncate(m.pc - 1, 3);
      }
  }

  // ---------------------------------------------------------------------------
  // str and lod

  /** The stack side of str: the address comes off, then the w bytes beneath
      it. */
  lemma StrPops(t: Stack, addr: nat, w: nat, k: nat)
    requires addr < MemSize && 1 <= w <= 4 && k + w + WordSize <= 255
    requires Window(t, WordSize) == EncodeTopHigh(addr, WordSize)
    ensures PopTopHigh(t, WordSize).0 == addr
    ensures var s1 := PopTopHigh(t, WordSize).1;
            PopAll(s1, w).0 == Window(t, w + WordSize)[..w] &&
            PopAll(s1, w).0[w - 1] == At(t, WordSize + 1) &&
            Window(PopAll(s1, w).1, k) == Window(t, k + w + WordSize)[..k] &&
            Moved(t.sp, PopAll(s1, w).1.sp, -3 - w)
  {
    var s1 := PopTopHigh(t, WordSize).1;
    assert Pow256(3) == MemSize;
    ValueOnTop(t, WordSize, addr);
    PopTopHighWindow(t, WordSize, k + w);
    PopAllWindow(s1, w, k);
    WindowSuffix(t, w + WordSize, k + w + WordSize);
    OkProps.ThreePieces(Window(PopAll(s1, w).1, k), PopAll(s1, w).0, EncodeTopHigh(addr, WordSize),
                        Window(s1, k + w), Window(t, k + w + WordSize), Window(t, w + WordSize));
    assert Window(t, w + WordSize)[w - 1] == At(t, WordSize + 1);
  }

  /** str with the address addr on top writes the w bytes beneath it to
      `addr .. addr + w - 1`, the top byte at the highest address, and
      removes address and bytes. */
  lemma StrEffect(m: Vm, argsize: ArgSize, addr: nat, k: nat)
    requires addr + argsize + 1 <= MemSize
    requires Window(m.dst, WordSize) == EncodeTopHigh(addr, WordSize)
    requires k + argsize + 1 + WordSize <= 255
    ensures AddressDefined(m, argsize)
    ensures var r := Str(m, argsize);
            r.ram == OkSpec.WriteRam(m.ram, addr, Window(m.dst, argsize + 1 + WordSize)[..argsize + 1]) &&
            r.ram[addr + argsize] == At(m.dst, WordSize + 1) &&
            Window(r.dst, k) == Window(m.dst, k + argsize + 1 + WordSize)[..k] &&
            Moved(m.dst.sp, r.dst.sp, -4 - argsize) &&
            r == m.(dst := r.dst, ram := r.ram)
  {
    var w := argsize + 1;
    StrPops(m.dst, addr, w, k);
    StrShape(m, argsize);
    var bytes := PopAll(PopTopHigh(m.dst, WordSize).1, w).0;
    assert OkSpec.WriteRam(m.ram, addr, bytes)[addr + argsize] == bytes[argsize];
  }

  /** `Str` with its pops named. */
  lemma StrShape(m: Vm, argsize: ArgSize)
    requires AddressDefined(m, argsize)
    ensures var (addr, s1) := PopTopHigh(m.dst, WordSize);
            Str(m, argsize) == m.(dst := PopAll(s1, argsize + 1).1,
                                  ram := OkSpec.WriteRam(m.ram, addr, PopAll(s1, argsize + 1).0))
  {
  }

  /** lod with the address addr on top replaces it by `ram[addr]` up to
      `ram[addr + w - 1]`, the last on top. */
  lemma LodEffect(m: Vm, argsize: ArgSize, addr: nat, k: nat)
    requires addr + argsize + 1 <= MemSize
    requires Window(m.dst, WordSize) == EncodeTopHigh(addr, WordSize)
    requires k + WordSize <= 255 && k + argsize + 1 <= 256
    ensures AddressDefined(m, argsize)
    ensures var r := Lod(m, argsize);
            Window(r.dst, k + argsize + 1) == Window(m.dst, k + WordSize)[..k] + m.ram[addr..addr + argsize + 1] &&
            Moved(m.dst.sp, r.dst.sp, argsize - 2) &&
            r == m.(dst := r.dst)
  {
    var s1 := PopTopHigh(m.dst, WordSize).1;
    assert Pow256(3) == MemSize;
    ValueOnTop(m.dst, WordSize, addr);
    PopTopHighWindow(m.dst, WordSize, k);
    PushAllWindow(s1, m.ram[addr..addr + argsize + 1], k);
    assert (Window(s1, k) + EncodeTopHigh(addr, WordSize))[..k] == Window(s1, k);
  }

  /** Storing w bytes at addr and loading them back from addr returns them in
      the same order, above an untouched stack. */
  lemma StoreThenLoad(m: Vm, argsize: ArgSize, addr: nat, k: nat)
    requires addr + argsize + 1 <= MemSize
    requires Window(m.dst, WordSize) == EncodeTopHigh(addr, WordSize)
    requires k + argsize + 1 + WordSize <= 255
    ensures AddressDefined(m, argsize)
    ensures var m1 := Str(m, argsize);
            var m2 := m1.(dst := PushTopHigh(m1.dst, WordSize, addr));
            AddressDefined(m2, argsize) &&
            var m3 := Lod(m2, argsize);
            Window(m3.dst, k + argsize + 1) == Window(m.dst, k + argsize + 1 + WordSize)[..k + argsize + 1] &&
            m3 == m1.(dst := m3.dst)
  {
    var w := argsize + 1;
    StrEffect(m, argsize, addr, k);
    var m1 := Str(m, argsize);
    var m2 := m1.(dst := PushTopHigh(m1.dst, WordSize, addr));
    PushTopHighWindow(m1.dst, WordSize, addr, k);
    WindowSuffix(m2.dst, WordSize, k + WordSize);
    assert (Window(m1.dst, k) + EncodeTopHigh(addr, WordSize))[k..] == EncodeTopHigh(addr, WordSize);
    LodEffect(m2, argsize, addr, k);
    assert (Window(m1.dst, k) + EncodeTopHigh(addr, WordSize))[..k] == Window(m1.dst, k);
    var W := Window(m.dst, k + w + WordSize);
    var bytes := Window(m.dst, w + WordSize)[..w];
    assert m1.ram[addr..addr + w] == bytes;
    WindowSuffix(m.dst, w + WordSize, k + w + WordSize);
    assert W[..k + w] == W[..k] + W[k..][..w];
  }

  // ---------------------------------------------------------------------------
  // psh and pop

  /** A w-byte value popped from one stack and pushed on another lands byte
      for byte on the second. */
  lemma MoveWord(from: Stack, to: Stack, w: nat, k: nat, kt: nat)
    requires 1 <= w <= 4 && k + w <= 255 && kt + w <= 256
    ensures var (n, f1) := PopTopHigh(from, w);
            Window(PushTopHigh(to, w, n), kt + w) == Window(to, kt) + Window(from, w) &&
            Window(f1, k) == Window(from, k + w)[..k] &&
            Moved(from.sp, f1.sp, -(w as int)) &&
            Moved(to.sp, PushTopHigh(to, w, n).sp, w)
  {
    var (n, f1) := PopTopHigh(from, w);
    PopTopHighWindow(from, w, k);
    PushTopHighWindow(to, w, n, kt);
    assert (Window(f1, k) + EncodeTopHigh(n, w))[..k] == Window(f1, k);
  }

  /** psh then pop of the same width gives back both stacks and changes
      nothing else. */
  lemma PshThenPop(m: Vm, argsize: ArgSize, k: nat, kr: nat)
    requires k + argsize + 1 <= 255 && kr + argsize + 1 <= 255
    ensures var r := PopR(Psh(m, argsize), argsize);
            Window(r.dst, k + argsize + 1) == Window(m.dst, k + argsize + 1) &&
            Window(r.rst, kr) == Window(m.rst, kr) &&
            r.dst.sp == m.dst.sp && r.rst.sp == m.rst.sp &&
            r == m.(dst := r.dst, rst := r.rst)
  {
    var w := argsize + 1;
    MoveWord(m.dst, m.rst, w, k, kr);
    var m1 := Psh(m, argsize);
    MoveWord(m1.rst, m1.dst, w, kr, k);
    WindowSuffix(m1.rst, w, kr + w);
    assert (Window(m.rst, kr) + Window(m.dst, w))[kr..] == Window(m.dst, w);
    PopTopHighWindow(m.dst, w, k);
  }

  // ---------------------------------------------------------------------------
  // What each opcode may change

  /** ROM and the device table never change; RAM only under str; the status
      only under int; the pc only under jmp and lit; the return stack only
      under psh and pop. */
  lemma HandleFrame(m: Vm, opcode: Opcode, argsize: ArgSize)
    requires HandleDefined(m, opcode, argsize)
    ensures var r := Handle(m, opcode, argsize);
            r.rom == m.rom && r.numDevices == m.numDevices && r.devices == m.devices &&
            (opcode != 6 ==> r.ram == m.ram) &&
            (opcode != 14 ==> r.status == m.status) &&
            (r.status == m.status || r.status == OkSpec.Panic) &&
            (opcode != 12 && opcode != 13 ==> r.pc == m.pc) &&
            (opcode != 10 && opcode != 11 ==> r.rst == m.rst)
  {
    if opcode == 14 {
      IntLoopFrame(m, argsize + 1);
    }
  }
}
