/** Properties of the src/okvm.c interpreter, proved about the functions of
    `SrcOkvmSpec` (and so, through the contracts of `SrcOkvmMachine.OkVM`,
    about the in-place interpreter). Stack effects are stated on windows, as
    in `OkProps`; a value that is read back is read the way the next opcode
    would read it, with `Operands` or `PopTopHigh`. */
module SrcOkvmProps {
  import opened Bytes
  import opened ByteStack
  import opened Instruction
  import OkSpec
  import OkProps
  import OkvmProps
  import opened SrcOkvmSpec

  // ---------------------------------------------------------------------------
  // The skip flag

  /** A skip-flagged instruction whose popped byte is anything but 0xFF does
      nothing else: the byte is gone, everything beneath it stays, and the pc
      does not move, not even past the immediates of a skipped lit. */
  lemma SkipNot255(m: Vm, instr: byte, k: nat)
    requires k <= 254
    requires var i := Decode(instr); i.continues && i.skip
    requires At(m.dst, 1) != 255
    ensures ExecuteDefined(m, instr)
    ensures var r := Execute(m, instr);
            Window(r.dst, k) == Window(m.dst, k + 1)[..k] &&
            Moved(m.dst.sp, r.dst.sp, -1) &&
            r == m.(dst := r.dst)
  {
    PopWindow(m.dst, k);
    var s := Pop(m.dst).1;
    assert (Window(s, k) + [Pop(m.dst).0])[..k] == Window(s, k);
  }

  /** A skip-flagged instruction whose popped byte is 0xFF does exactly what
      the same instruction without the flag does on the remaining stack. */
  lemma Skip255(m: Vm, instr: byte)
    requires var i := Decode(instr); i.continues && i.skip
    requires At(m.dst, 1) == 255
    requires HandleDefined(m.(dst := Pop(m.dst).1), Decode(instr).opcode, Decode(instr).argsize)
    ensures ExecuteDefined(m, instr)
    ensures ExecuteDefined(m.(dst := Pop(m.dst).1), ClearSkip(instr))
    ensures Execute(m, instr) == Execute(m.(dst := Pop(m.dst).1), ClearSkip(instr))
  {
    PopWindow(m.dst, 0);
  }

  /** A byte with bit 7 clear halts, after the fetch has moved the pc past
      it. */
  lemma HaltOnClearBit(m: Vm)
    requires m.pc < |m.rom| && m.rom[m.pc] < 128
    ensures TickDefined(m)
    ensures Tick(m) == m.(pc := m.pc + 1, status := OkSpec.Halted)
  {
  }

  // ---------------------------------------------------------------------------
  // Two words in, two words out

  /** The pops shared by opcodes 0-5 take b from the top, then a, the w bytes
      below b. */
  lemma OperandsWindow(t: Stack, argsize: ArgSize, k: nat)
    requires k + 2 * (argsize + 1) <= 255
    ensures var (a, b, t2) := Operands(t, argsize);
            Window(t, k + 2 * (argsize + 1))
              == Window(t2, k) + EncodeTopHigh(a, argsize + 1) + EncodeTopHigh(b, argsize + 1) &&
            Moved(t.sp, t2.sp, -2 * (argsize + 1))
  {
    var w := argsize + 1;
    var (b, t1) := PopTopHigh(t, w);
    var (a, t2) := PopTopHigh(t1, w);
    PopTopHighWindow(t, w, k + w);
    PopTopHighWindow(t1, w, k);
  }

  /** With the words a and b on top, the pops find exactly a and b. */
  lemma OperandsAre(t: Stack, argsize: ArgSize, a: nat, b: nat, k: nat)
    requires a < Pow256(argsize + 1) && b < Pow256(argsize + 1)
    requires k + 2 * (argsize + 1) <= 255
    requires Window(t, 2 * (argsize + 1)) == EncodeTopHigh(a, argsize + 1) + EncodeTopHigh(b, argsize + 1)
    ensures Operands(t, argsize).0 == a && Operands(t, argsize).1 == b
    ensures Window(t, k + 2 * (argsize + 1))
         == Window(Operands(t, argsize).2, k) + EncodeTopHigh(a, argsize + 1) + EncodeTopHigh(b, argsize + 1)
    ensures Moved(t.sp, Operands(t, argsize).2.sp, -2 * (argsize + 1))
  {
    var w := argsize + 1;
    var (a', b', t2) := Operands(t, argsize);
    OperandsWindow(t, argsize, 0);
    OperandsWindow(t, argsize, k);
    var x := EncodeTopHigh(a', w) + EncodeTopHigh(b', w);
    assert Window(t, 2 * w) == x;
    assert x[..w] == EncodeTopHigh(a', w) && x[w..] == EncodeTopHigh(b', w);
    EncodeTopHighInjective(a, a', w);
    EncodeTopHighInjective(b, b', w);
  }

  /** Only the last w bytes of a value survive its encoding in w bytes. */
  lemma EncodeTruncates(v: nat, n: nat)
    requires n <= 4
    ensures EncodeTopHigh(v, n) == EncodeTopHigh(v % Pow256(n), n)
  {
    DecodeEncodeTopHigh(v, n);
    EncodeDecodeTopHigh(EncodeTopHigh(v, n));
  }

  /** The stack side of opcodes 0-4: the two operand words are replaced by
      lo and then hi, each cut to w bytes when the next opcode pops them, and
      the bytes beneath and the pointer stay. */
  lemma ResultWords(t: Stack, argsize: ArgSize, lo: nat, hi: nat, k: nat)
    requires k + 2 * (argsize + 1) <= 255
    ensures var w := argsize + 1;
            var r := PushTopHigh(PushTopHigh(Operands(t, argsize).2, w, lo), w, hi);
            Window(r, k + 2 * w) == Window(t, k + 2 * w)[..k] + EncodeTopHigh(lo, w) + EncodeTopHigh(hi, w) &&
            r.sp == t.sp &&
            Operands(r, argsize).0 == lo % Pow256(w) && Operands(r, argsize).1 == hi % Pow256(w)
  {
    ResultWindow(t, argsize, lo, hi, k);
    ResultReadBack(Operands(t, argsize).2, argsize, lo, hi);
  }

  /** The window half of `ResultWords`. */
  lemma ResultWindow(t: Stack, argsize: ArgSize, lo: nat, hi: nat, k: nat)
    requires k + 2 * (argsize + 1) <= 255
    ensures var w := argsize + 1;
            var r := PushTopHigh(PushTopHigh(Operands(t, argsize).2, w, lo), w, hi);
            Window(r, k + 2 * w) == Window(t, k + 2 * w)[..k] + EncodeTopHigh(lo, w) + EncodeTopHigh(hi, w) &&
            r.sp == t.sp
  {
    var w := argsize + 1;
    var (a, b, t2) := Operands(t, argsize);
    OperandsWindow(t, argsize, k);
    OkvmProps.PushTwo(t2, w, lo, hi, k);
    assert (Window(t2, k) + EncodeTopHigh(a, w) + EncodeTopHigh(b, w))[..k] == Window(t2, k);
  }

  /** The read-back half of `ResultWords`: whatever lies beneath, the next
      pops find lo and hi cut to w bytes. */
  lemma ResultReadBack(t2: Stack, argsize: ArgSize, lo: nat, hi: nat)
    ensures var w := argsize + 1;
            var r := PushTopHigh(PushTopHigh(t2, w, lo), w, hi);
            Operands(r, argsize).0 == lo % Pow256(w) && Operands(r, argsize).1 == hi % Pow256(w)
  {
    var w := argsize + 1;
    var r := PushTopHigh(PushTopHigh(t2, w, lo), w, hi);
    OkvmProps.PushTwo(t2, w, lo, hi, 0);
    EncodeTruncates(lo, w);
    EncodeTruncates(hi, w);
    assert Window(t2, 0) == [];
    assert Window(r, 2 * w) == EncodeTopHigh(lo % Pow256(w), w) + EncodeTopHigh(hi % Pow256(w), w);
    OperandsAre(r, argsize, lo % Pow256(w), hi % Pow256(w), 0);
  }

  /** asb, dmd, aor, mxr and swp replace the words a and b by the two words
      `Results` names, the first below the second, leave every byte beneath
      and the stack pointer as they were, and change the status only for dmd
      by zero, to Panic. */
  lemma BinaryWords(m: Vm, opcode: Opcode, argsize: ArgSize, a: u32, b: u32, k: nat)
    requires opcode <= 4
    requires a < Pow256(argsize + 1) && b < Pow256(argsize + 1)
    requires k + 2 * (argsize + 1) <= 255
    requires Window(m.dst, 2 * (argsize + 1)) == EncodeTopHigh(a, argsize + 1) + EncodeTopHigh(b, argsize + 1)
    ensures var r := Handle(m, opcode, argsize);
            var w := argsize + 1;
            Window(r.dst, k + 2 * w) == Window(m.dst, k + 2 * w)[..k]
              + EncodeTopHigh(Results(opcode, a, b).0, w) + EncodeTopHigh(Results(opcode, a, b).1, w) &&
            r.dst.sp == m.dst.sp &&
            r == m.(dst := r.dst, status := if opcode == 1 && a == 0 then OkSpec.Panic else m.status)
  {
    OperandsAre(m.dst, argsize, a, b, 0);
    var (lo, hi) := Results(opcode, a, b);
    ResultWords(m.dst, argsize, lo, hi, k);
  }

  /** asb and aor, whose code is the same, leave `b - a` under `b + a`, both
      modulo 2^(8w), and nothing else changes. */
  lemma AsbAorEffect(m: Vm, opcode: Opcode, argsize: ArgSize, a: u32, b: u32)
    requires opcode == 0 || opcode == 2
    requires a < Pow256(argsize + 1) && b < Pow256(argsize + 1)
    requires Window(m.dst, 2 * (argsize + 1)) == EncodeTopHigh(a, argsize + 1) + EncodeTopHigh(b, argsize + 1)
    ensures var r := Handle(m, opcode, argsize);
            Operands(r.dst, argsize).0 == (b - a) % Pow256(argsize + 1) &&
            Operands(r.dst, argsize).1 == (b + a) % Pow256(argsize + 1) &&
            r.dst.sp == m.dst.sp && r == m.(dst := r.dst)
    ensures Handle(m, 0, argsize) == Handle(m, 2, argsize)
  {
    var w := argsize + 1;
    OperandsAre(m.dst, argsize, a, b, 0);
    var t2 := Operands(m.dst, argsize).2;
    var d := PushTopHigh(PushTopHigh(t2, w, Sub32(b, a)), w, Add32(b, a));
    AsbAorPush(m, argsize, a, b);
    assert Handle(m, opcode, argsize) == m.(dst := d);
    ResultWindow(m.dst, argsize, Sub32(b, a), Add32(b, a), 0);
    ResultReadBack(t2, argsize, Sub32(b, a), Add32(b, a));
    SumsTruncate(a, b, w);
  }

  /** The 32-bit wrap of `b - a` and `b + a` is invisible in their last w
      bytes. */
  lemma SumsTruncate(a: u32, b: u32, w: nat)
    requires 1 <= w <= 4
    ensures Sub32(b, a) % Pow256(w) == (b - a) % Pow256(w)
    ensures Add32(b, a) % Pow256(w) == (b + a) % Pow256(w)
  {
    WrapThenTruncate(b - a, w);
    WrapThenTruncate(b + a, w);
  }

  /** asb and aor both push `Sub32(b, a)` and then `Add32(b, a)` on the
      popped stack. */
  lemma AsbAorPush(m: Vm, argsize: ArgSize, a: u32, b: u32)
    requires Operands(m.dst, argsize).0 == a && Operands(m.dst, argsize).1 == b
    ensures var w := argsize + 1;
            var d := PushTopHigh(PushTopHigh(Operands(m.dst, argsize).2, w, Sub32(b, a)), w, Add32(b, a));
            Handle(m, 0, argsize) == m.(dst := d) && Handle(m, 2, argsize) == m.(dst := d)
  {
  }

  /** dmd by a non-zero a leaves the remainder under the quotient of b by a,
      neither cut short; by zero it leaves two zero words and panics. */
  lemma DmdEffect(m: Vm, argsize: ArgSize, a: u32, b: u32)
    requires a < Pow256(argsize + 1) && b < Pow256(argsize + 1)
    requires Window(m.dst, 2 * (argsize + 1)) == EncodeTopHigh(a, argsize + 1) + EncodeTopHigh(b, argsize + 1)
    ensures var r := Handle(m, 1, argsize);
            var (rem, quot, _) := Operands(r.dst, argsize);
            r.dst.sp == m.dst.sp &&
            (a == 0 ==> rem == 0 && quot == 0 && r.status == OkSpec.Panic) &&
            (a != 0 ==> a * quot + rem == b && rem < a && r.status == m.status)
  {
    var w := argsize + 1;
    OperandsAre(m.dst, argsize, a, b, 0);
    var t2 := Operands(m.dst, argsize).2;
    var (lo, hi) := Results(1, a, b);
    var d := PushTopHigh(PushTopHigh(t2, w, lo), w, hi);
    assert Handle(m, 1, argsize) == m.(dst := d, status := if a == 0 then OkSpec.Panic else m.status);
    ResultWords(m.dst, argsize, lo, hi, 0);
    if a != 0 {
      assert (lo, hi) == Dmd(a, b);
      DivShrinks(b, a);
      ModBelow(lo, Pow256(w));
      ModBelow(hi, Pow256(w));
    }
  }

  /** mxr leaves `b ^ a` under `b * a`, the product modulo 2^(8w). */
  lemma MxrEffect(m: Vm, argsize: ArgSize, a: u32, b: u32)
    requires a < Pow256(argsize + 1) && b < Pow256(argsize + 1)
    requires Window(m.dst, 2 * (argsize + 1)) == EncodeTopHigh(a, argsize + 1) + EncodeTopHigh(b, argsize + 1)
    ensures var r := Handle(m, 3, argsize);
            Operands(r.dst, argsize).0 == Xor32(b, a) % Pow256(argsize + 1) &&
            Operands(r.dst, argsize).1 == (b * a) % Pow256(argsize + 1) &&
            r.dst.sp == m.dst.sp && r == m.(dst := r.dst)
  {
    OperandsAre(m.dst, argsize, a, b, 0);
    ResultWords(m.dst, argsize, Xor32(b, a), Mul32(b, a), 0);
    WrapThenTruncate(b * a, argsize + 1);
  }

  /** swp exchanges the two top w-byte words, b ending below a. */
  lemma SwpEffect(m: Vm, argsize: ArgSize, a: u32, b: u32, k: nat)
    requires a < Pow256(argsize + 1) && b < Pow256(argsize + 1)
    requires k + 2 * (argsize + 1) <= 255
    requires Window(m.dst, 2 * (argsize + 1)) == EncodeTopHigh(a, argsize + 1) + EncodeTopHigh(b, argsize + 1)
    ensures var r := Handle(m, 4, argsize);
            Window(r.dst, k + 2 * (argsize + 1)) == Window(m.dst, k + 2 * (argsize + 1))[..k]
              + EncodeTopHigh(b, argsize + 1) + EncodeTopHigh(a, argsize + 1) &&
            r.dst.sp == m.dst.sp && r == m.(dst := r.dst)
  {
    BinaryWords(m, 4, argsize, a, b, k);
  }

  /** cmp replaces the two words by two bytes: 255 when b > a (else 0), and
      on top 255 when b == a (else 0). */
  lemma CmpEffect(m: Vm, argsize: ArgSize, a: u32, b: u32, k: nat)
    requires a < Pow256(argsize + 1) && b < Pow256(argsize + 1)
    requires k + 2 * (argsize + 1) <= 255
    requires Window(m.dst, 2 * (argsize + 1)) == EncodeTopHigh(a, argsize + 1) + EncodeTopHigh(b, argsize + 1)
    ensures var r := Handle(m, 5, argsize);
            Window(r.dst, k + 2) == Window(m.dst, k + 2 * (argsize + 1))[..k]
              + [if b > a then 255 else 0, if b == a then 255 else 0] &&
            Moved(m.dst.sp, r.dst.sp, -2 * argsize) &&
            r == m.(dst := r.dst)
  {
    var w := argsize + 1;
    OperandsAre(m.dst, argsize, a, b, k);
    var t2 := Operands(m.dst, argsize).2;
    var (gt, eq) := Flags(a, b);
    PushWindow(t2, gt, k);
    PushWindow(Push(t2, gt), eq, k + 1);
    assert (Window(t2, k) + EncodeTopHigh(a, w) + EncodeTopHigh(b, w))[..k] == Window(t2, k);
  }

  // ---------------------------------------------------------------------------
  // dup and drp

  /** dup runs on into drp, so it gives back the stack it started from: the
      pointer and every byte below it within the 255 - w that the pushes
      above the pointer cannot reach. */
  lemma DupNetNoop(s: Stack, argsize: ArgSize, k: nat)
    requires k + argsize + 1 <= 255
    ensures DupDrp(s, argsize).sp == s.sp
    ensures Window(DupDrp(s, argsize), k) == Window(s, k)
  {
    var w := argsize + 1;
    var K := 255 - 2 * w;
    var (n, s1) := PopTopHigh(s, w);
    var s2 := PushTopHigh(s1, w, n);
    var s3 := PushTopHigh(s2, w, n);
    var s4 := PopTopHigh(s3, w).1;
    PopTopHighWindow(s, w, K);
    PushTopHighWindow(s1, w, n, K);
    PushTopHighWindow(s2, w, n, K + w);
    PopTopHighWindow(s3, w, K + w);
    assert Window(s4, K + w) == Window(s, K + w) by {
      assert (Window(s4, K + w) + EncodeTopHigh(PopTopHigh(s3, w).0, w))[..K + w] == Window(s4, K + w);
      assert (Window(s2, K + w) + EncodeTopHigh(n, w))[..K + w] == Window(s2, K + w);
    }
    WindowSuffix(s4, k, K + w);
    WindowSuffix(s, k, K + w);
  }

  /** drp removes the top w bytes and nothing else. */
  lemma DrpEffect(s: Stack, argsize: ArgSize, k: nat)
    requires k + argsize + 1 <= 255
    ensures Window(Drp(s, argsize), k) == Window(s, k + argsize + 1)[..k]
    ensures Moved(s.sp, Drp(s, argsize).sp, -1 - argsize)
  {
    var w := argsize + 1;
    var (n, s1) := PopTopHigh(s, w);
    PopTopHighWindow(s, w, k);
    assert (Window(s1, k) + EncodeTopHigh(n, w))[..k] == Window(s1, k);
  }

  // ---------------------------------------------------------------------------
  // str and lod

  /** The stack side of str: the address comes off, then the discarded
      word, then the w bytes that get stored. */
  lemma StrPops(t: Stack, addr: nat, w: nat, k: nat)
    requires addr < MemSize && 1 <= w <= 4 && k + 2 * w + WordSize <= 255
    requires Window(t, WordSize) == EncodeTopHigh(addr, WordSize)
    ensures PopTopHigh(t, WordSize).0 == addr
    ensures var s2 := PopTopHigh(PopTopHigh(t, WordSize).1, w).1;
            PopAll(s2, w).0 == Window(t, 2 * w + WordSize)[..w] &&
            PopAll(s2, w).0[w - 1] == At(t, WordSize + w + 1) &&
            Window(PopAll(s2, w).1, k) == Window(t, k + 2 * w + WordSize)[..k] &&
            Moved(t.sp, PopAll(s2, w).1.sp, -3 - 2 * w)
  {
    OkvmProps.StrPops(t, addr, w, w);
    OkvmProps.StrPops(t, addr, w, k + w);
    var s1 := PopTopHigh(t, WordSize).1;
    var s2 := PopTopHigh(s1, w).1;
    assert s2 == PopAll(s1, w).1;
    var (bytes, s3) := PopAll(s2, w);
    PopAllWindow(s2, w, 0);
    PopAllWindow(s2, w, k);
    assert (Window(s3, k) + bytes)[..k] == Window(s3, k);
    assert Window(t, 2 * w + WordSize)[w - 1] == At(t, WordSize + w + 1);
  }

  /** What str writes: the w bytes under the discarded word, reversed, from
      addr upwards. */
  lemma StrRam(m: Vm, argsize: ArgSize, addr: nat)
    requires addr + argsize + 1 <= MemSize
    requires Window(m.dst, WordSize) == EncodeTopHigh(addr, WordSize)
    requires 2 * (argsize + 1) + WordSize <= 255
    ensures AddressDefined(m, argsize)
    ensures Str(m, argsize).ram ==
            OkSpec.WriteRam(m.ram, addr, OkSpec.Reverse(Window(m.dst, 2 * (argsize + 1) + WordSize)[..argsize + 1]))
  {
    var w := argsize + 1;
    StrPops(m.dst, addr, w, 0);
    StrShape(m, argsize);
    var s2 := PopTopHigh(PopTopHigh(m.dst, WordSize).1, w).1;
    var bytes := PopAll(s2, w).0;
    assert bytes == Window(m.dst, 2 * w + WordSize)[..w];
    assert Str(m, argsize).ram == OkSpec.WriteRam(m.ram, addr, OkSpec.Reverse(bytes));
    assert bytes == Window(m.dst, 2 * (argsize + 1) + WordSize)[..argsize + 1];
    assert OkSpec.Reverse(bytes) == OkSpec.Reverse(Window(m.dst, 2 * (argsize + 1) + WordSize)[..argsize + 1]);
  }

  /** `Str` with its pops named. */
  lemma StrShape(m: Vm, argsize: ArgSize)
    requires AddressDefined(m, argsize)
    ensures var w := argsize + 1;
            var (addr, s1) := PopTopHigh(m.dst, WordSize);
            var s2 := PopTopHigh(s1, w).1;
            Str(m, argsize) == m.(dst := PopAll(s2, w).1, ram := OkSpec.WriteRam(m.ram, addr, OkSpec.Reverse(PopAll(s2, w).0)))
  {
  }

  /** str with the address addr on top throws away the w-byte word beneath
      it and writes the w bytes under that word to `addr .. addr + w - 1`,
      reversed. */
  lemma StrEffect(m: Vm, argsize: ArgSize, addr: nat, k: nat)
    requires addr + argsize + 1 <= MemSize
    requires Window(m.dst, WordSize) == EncodeTopHigh(addr, WordSize)
    requires k + 2 * (argsize + 1) + WordSize <= 255
    ensures AddressDefined(m, argsize)
    ensures var r := Str(m, argsize);
            var w := argsize + 1;
            r.ram == OkSpec.WriteRam(m.ram, addr, OkSpec.Reverse(Window(m.dst, 2 * w + WordSize)[..w])) &&
            Window(r.dst, k) == Window(m.dst, k + 2 * w + WordSize)[..k] &&
            Moved(m.dst.sp, r.dst.sp, -3 - 2 * w) &&
            r == m.(dst := r.dst, ram := r.ram)
  {
    StrRam(m, argsize, addr);
    StrPops(m.dst, addr, argsize + 1, k);
    StrShape(m, argsize);
  }

  /** Of the bytes str stores, the one nearest the top, just under the
      discarded word, lands at addr itself. */
  lemma StrLowestAddress(m: Vm, argsize: ArgSize, addr: nat)
    requires addr + argsize + 1 <= MemSize
    requires Window(m.dst, WordSize) == EncodeTopHigh(addr, WordSize)
    requires 2 * (argsize + 1) + WordSize <= 255
    ensures AddressDefined(m, argsize)
    ensures Str(m, argsize).ram[addr] == At(m.dst, WordSize + argsize + 2)
  {
    var w := argsize + 1;
    StrEffect(m, argsize, addr, 0);
    StrPops(m.dst, addr, w, 0);
    var bytes := Window(m.dst, 2 * w + WordSize)[..w];
    assert OkSpec.WriteRam(m.ram, addr, OkSpec.Reverse(bytes))[addr] == OkSpec.Reverse(bytes)[0] == bytes[w - 1];
  }

  /** lod with the address addr on top replaces it by `ram[addr]` up to
      `ram[addr + w - 1]`, the last on top. */
  lemma LodEffect(m: Vm, argsize: ArgSize, addr: nat, k: nat)
    requires addr + argsize + 1 <= MemSize
    requires Window(m.dst, WordSize) == EncodeTopHigh(addr, WordSize)
    requires k + WordSize <= 255 && k + argsize + 1 <= 256
    ensures AddressDefined(m, argsize)
    ensures var r := Lod(m, argsize);
            Window(r.dst, k + argsize + 1) == Window(m.dst, k + WordSize)[..k] + m.ram[addr..addr + argsize + 1] &&
            Moved(m.dst.sp, r.dst.sp, argsize - 2) &&
            r == m.(dst := r.dst)
  {
    var s1 := PopTopHigh(m.dst, WordSize).1;
    assert Pow256(3) == MemSize;
    OkvmProps.ValueOnTop(m.dst, WordSize, addr);
    PopTopHighWindow(m.dst, WordSize, k);
    PushAllWindow(s1, m.ram[addr..addr + argsize + 1], k);
    assert (Window(s1, k) + EncodeTopHigh(addr, WordSize))[..k] == Window(s1, k);
  }

  /** Storing at addr and loading back from addr gives the stored bytes in
      reverse order: str and lod of this iteration disagree on which end of a
      word goes to the lowest address. */
  lemma StoreThenLoadReverses(m: Vm, argsize: ArgSize, addr: nat, k: nat)
    requires addr + argsize + 1 <= MemSize
    requires Window(m.dst, WordSize) == EncodeTopHigh(addr, WordSize)
    requires k + 2 * (argsize + 1) + WordSize <= 255
    ensures AddressDefined(m, argsize)
    ensures var m1 := Str(m, argsize);
            var m2 := m1.(dst := PushTopHigh(m1.dst, WordSize, addr));
            AddressDefined(m2, argsize) &&
            var m3 := Lod(m2, argsize);
            var w := argsize + 1;
            Window(m3.dst, k + w) ==
              Window(m.dst, k + 2 * w + WordSize)[..k] + OkSpec.Reverse(Window(m.dst, 2 * w + WordSize)[..w]) &&
            m3 == m1.(dst := m3.dst)
  {
    var w := argsize + 1;
    StrEffect(m, argsize, addr, k);
    var m1 := Str(m, argsize);
    var m2 := m1.(dst := PushTopHigh(m1.dst, WordSize, addr));
    PushTopHighWindow(m1.dst, WordSize, addr, k);
    WindowSuffix(m2.dst, WordSize, k + WordSize);
    assert (Window(m1.dst, k) + EncodeTopHigh(addr, WordSize))[k..] == EncodeTopHigh(addr, WordSize);
    LodEffect(m2, argsize, addr, k);
    assert (Window(m1.dst, k) + EncodeTopHigh(addr, WordSize))[..k] == Window(m1.dst, k);
    var bytes := OkSpec.Reverse(Window(m.dst, 2 * w + WordSize)[..w]);
    OkSpec.WriteRamRead(m.ram, addr, bytes);
  }

  // ---------------------------------------------------------------------------
  // psh, pop, lit and dbg

  /** psh then pop of the same width gives back both stacks and changes
      nothing else. */
  lemma PshThenPop(m: Vm, argsize: ArgSize, k: nat, kr: nat)
    requires k + argsize + 1 <= 255 && kr + argsize + 1 <= 255
    ensures var r := PopR(Psh(m, argsize), argsize);
            Window(r.dst, k + argsize + 1) == Window(m.dst, k + argsize + 1) &&
            Window(r.rst, kr) == Window(m.rst, kr) &&
            r.dst.sp == m.dst.sp && r.rst.sp == m.rst.sp &&
            r == m.(dst := r.dst, rst := r.rst)
  {
    var w := argsize + 1;
    OkvmProps.MoveWord(m.dst, m.rst, w, k, kr);
    var m1 := Psh(m, argsize);
    OkvmProps.MoveWord(m1.rst, m1.dst, w, kr, k);
    WindowSuffix(m1.rst, w, kr + w);
    assert (Window(m.rst, kr) + Window(m.dst, w))[kr..] == Window(m.dst, w);
    PopTopHighWindow(m.dst, w, k);
  }

  /** jmp sets the pc to the w-byte value on top, most significant byte on
      top, and removes it; nothing else changes. */
  lemma JmpEffect(m: Vm, argsize: ArgSize, k: nat)
    requires k + argsize + 1 <= 255
    ensures var r := Jmp(m, argsize);
            r.pc == DecodeTopHigh(Window(m.dst, argsize + 1)) &&
            Window(r.dst, k) == Window(m.dst, k + argsize + 1)[..k] &&
            Moved(m.dst.sp, r.dst.sp, -1 - argsize) &&
            r == m.(dst := r.dst, pc := r.pc)
  {
    var w := argsize + 1;
    OkvmProps.PopTopHighValue(m.dst, w);
    var (n, s1) := PopTopHigh(m.dst, w);
    PopTopHighWindow(m.dst, w, k);
    assert (Window(s1, k) + EncodeTopHigh(n, w))[..k] == Window(s1, k);
  }

  /** lit pushes its w immediates in program order, the last on top, and
      moves the pc past them. */
  lemma LitEffect(m: Vm, argsize: ArgSize, k: nat)
    requires LitDefined(m, argsize) && k + argsize + 1 <= 256
    ensures var r := Lit(m, argsize);
            Window(r.dst, k + argsize + 1) == Window(m.dst, k) + m.rom[m.pc..m.pc + argsize + 1] &&
            Moved(m.dst.sp, r.dst.sp, argsize + 1) &&
            r == m.(dst := r.dst, pc := m.pc + argsize + 1)
  {
    PushAllWindow(m.dst, m.rom[m.pc..m.pc + argsize + 1], k);
  }

  /** dbg pushes, by argsize: the data stack pointer as it was; the return
      stack pointer; the pc cut to one byte, as a 3-byte word; the word size
      3. Nothing but the data stack changes. */
  lemma DbgEffect(m: Vm, argsize: ArgSize, k: nat)
    requires k + WordSize <= 255
    ensures var r := Dbg(m, argsize);
            r == m.(dst := r.dst) &&
            (argsize == 0 ==> Window(r.dst, k + 1) == Window(m.dst, k) + [m.dst.sp]) &&
            (argsize == 1 ==> Window(r.dst, k + 1) == Window(m.dst, k) + [m.rst.sp]) &&
            (argsize == 2 ==>
               Window(r.dst, k + 3) == Window(m.dst, k) + EncodeTopHigh(m.pc % 256, 3) &&
               PopTopHigh(r.dst, 3).0 == m.pc % 256) &&
            (argsize == 3 ==> Window(r.dst, k + 1) == Window(m.dst, k) + [3])
  {
    match argsize
    case 0 => PushWindow(m.dst, m.dst.sp, k);
    case 1 => PushWindow(m.dst, m.rst.sp, k);
    case 2 =>
      PushTopHighWindow(m.dst, 3, m.pc % 256, k);
      RoundTripTopHigh(m.dst, 3, m.pc % 256, 0);
      assert Pow256(3) == MemSize;
    case 3 => PushWindow(m.dst, 3, k);
  }

  // ---------------------------------------------------------------------------
  // What each opcode may change

  /** ROM never changes; RAM only under str; the status only under dmd, and
      only to Panic; the pc only under jmp and lit; the return stack only
      under psh and pop; syn changes nothing at all. */
  lemma HandleFrame(m: Vm, opcode: Opcode, argsize: ArgSize)
    requires HandleDefined(m, opcode, argsize)
    ensures var r := Handle(m, opcode, argsize);
            r.rom == m.rom &&
            (opcode != 6 ==> r.ram == m.ram) &&
            (opcode != 1 ==> r.status == m.status) &&
            (r.status == m.status || r.status == OkSpec.Panic) &&
            (opcode != 12 && opcode != 13 ==> r.pc == m.pc) &&
            (opcode != 10 && opcode != 11 ==> r.rst == m.rst) &&
            (opcode == 14 ==> r == m)
  {
  }
}
