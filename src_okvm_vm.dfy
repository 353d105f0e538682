/** src/okvm.c: the `OkVM` struct of the earliest iteration and the functions
    that update it in place.

    The two stacks are `OkStack` objects, updated through their methods as
    the C code updates `&(vm->dst)` and `&(vm->rst)`. ROM is not a copy: the
    object keeps the caller's program array itself. Every method is proved to
    leave the object in the state that the function of the same operation in
    `SrcOkvmSpec` computes from the old state. */
module SrcOkvmMachine {
  import opened Bytes
  import opened ByteStack
  import opened Instruction
  import OkSpec
  import opened SrcOkvmSpec
  import OkStack

  class OkVM {
    const dst: OkStack.OkStack
    const rst: OkStack.OkStack
    var pc: nat
    const ram: array<byte>
    const rom: array<byte>
    var status: OkSpec.Status

    ghost predicate Valid()
      reads this, dst, rst
    {
      dst.Valid() && rst.Valid() && dst != rst && dst.data != rst.data &&
      ram.Length == MemSize &&
      ram != rom && ram != dst.data && ram != rst.data && rom != dst.data && rom != rst.data
    }

    /** The whole machine as a value. */
    ghost function Model(): Vm
      reads this, dst, dst.data, rst, rst.data, ram, rom
      requires Valid()
    {
      Vm(dst.Model(), rst.Model(), pc, ram[..], rom[..], status)
    }

    /** `vm_init`: fresh stacks, pc 0, status Halted, zeroed RAM, and the
        program array itself as ROM. */
    constructor Init(program: array<byte>)
      ensures Valid() && fresh(dst) && fresh(rst) && fresh(dst.data) && fresh(rst.data) && fresh(ram)
      ensures rom == program
      ensures Model() == Initial(program[..])
    {
      dst := new OkStack.OkStack.Init();
      rst := new OkStack.OkStack.Init();
      pc := 0;
      status := OkSpec.Halted;
      rom := program;
      ram := new byte[MemSize](_ => 0);
    }

    // -------------------------------------------------------------------------
    // Opcodes

    /** The shared start of opcodes 0-5: `b = stack_popn(...)`, then
        `a = stack_popn(...)`. */
    method PopOperands(argsize: ArgSize) returns (a: u32, b: u32)
      requires Valid()
      modifies dst`sp, dst.data
      ensures Valid()
      ensures (a, b, dst.Model()) == Operands(old(dst.Model()), argsize)
    {
      b := dst.PopN(argsize + 1);
      a := dst.PopN(argsize + 1);
    }

    /** asb, dmd, aor, mxr, swp and cmp. */
    method ExecBinary(opcode: Opcode, argsize: ArgSize)
      requires Valid() && opcode <= 5
      modifies dst`sp, dst.data, this`status
      ensures Valid()
      ensures Model() == Binary(old(Model()), opcode, argsize)
    {
      var a, b := PopOperands(argsize);
      if opcode == 5 {
        dst.Push(if b > a then 255 else 0);
        dst.Push(if b == a then 255 else 0);
        return;
      }
      var lower: u32, upper: u32;
      if opcode == 0 || opcode == 2 {
        lower, upper := Sub32(b, a), Add32(b, a);
      } else if opcode == 1 {
        if a == 0 {
          lower, upper := 0, 0;
          status := OkSpec.Panic;
        } else {
          lower, upper := Dmd(a, b).0, Dmd(a, b).1;
        }
      } else if opcode == 3 {
        lower, upper := Xor32(b, a), Mul32(b, a);
      } else {
        lower, upper := b, a;
      }
      assert (lower, upper) == Results(opcode, a, b);
      dst.PushN(argsize + 1, lower);
      dst.PushN(argsize + 1, upper);
    }

    /** One turn of the store loop: `vm->ram[addr + i] = stack_pop(...)`. */
    method StoreByte(a: nat) returns (x: byte)
      requires Valid() && a < MemSize
      modifies dst`sp, dst.data, ram
      ensures Valid()
      ensures (x, dst.Model()) == Pop(old(dst.Model()))
      ensures ram[..] == old(ram[..])[a := x]
    {
      x := dst.Pop();
      ram[a] := x;
    }

    /** The store loop, for i = 0 up to argsize: the first byte popped lands
        at addr. */
    method StoreBytes(addr: nat, argsize: ArgSize)
      requires Valid() && addr + argsize + 1 <= MemSize
      modifies dst`sp, dst.data, ram
      ensures Valid()
      ensures dst.Model() == PopAll(old(dst.Model()), argsize + 1).1
      ensures ram[..] == OkSpec.WriteRam(old(ram[..]), addr, OkSpec.Reverse(PopAll(old(dst.Model()), argsize + 1).0))
    {
      ghost var s := dst.Model();
      ghost var r: Memory := ram[..];
      for i := 0 to argsize + 1
        invariant Valid()
        invariant dst.Model() == PopAll(s, i).1
        invariant ram[..] == OkSpec.WriteRam(r, addr, OkSpec.Reverse(PopAll(s, i).0))
      {
        StoreNext(addr, i, s, r);
      }
    }

    /** One turn of the store loop, stated against the bytes popped so far. */
    method StoreNext(addr: nat, i: nat, ghost s: Stack, ghost r: Memory)
      requires Valid() && addr + i + 1 <= MemSize
      requires dst.Model() == PopAll(s, i).1
      requires ram[..] == OkSpec.WriteRam(r, addr, OkSpec.Reverse(PopAll(s, i).0))
      modifies dst`sp, dst.data, ram
      ensures Valid()
      ensures dst.Model() == PopAll(s, i + 1).1
      ensures ram[..] == OkSpec.WriteRam(r, addr, OkSpec.Reverse(PopAll(s, i + 1).0))
    {
      var x := StoreByte(addr + i);
      StoreStep(s, r, addr, i);
    }

    /** str: the address, then a word `data` that is never used, then the
        bytes to store. */
    method ExecStr(argsize: ArgSize)
      requires Valid() && AddressDefined(Model(), argsize)
      modifies dst`sp, dst.data, ram
      ensures Valid()
      ensures Model() == Str(old(Model()), argsize)
    {
      var addr := dst.PopN(WordSize);
      var data := dst.PopN(argsize + 1);
      StoreBytes(addr, argsize);
    }

    /** lod: `stack_push(vm->ram[addr + i])` for i = 0 up to argsize. */
    method ExecLod(argsize: ArgSize)
      requires Valid() && AddressDefined(Model(), argsize)
      modifies dst`sp, dst.data
      ensures Valid()
      ensures Model() == Lod(old(Model()), argsize)
    {
      var addr := dst.PopN(WordSize);
      ghost var s := dst.Model();
      for i := 0 to argsize + 1
        invariant Valid()
        invariant dst.Model() == PushAll(s, ram[addr..addr + i])
      {
        dst.Push(ram[addr + i]);
        PushAllSnoc(s, ram[addr..addr + i], ram[addr + i]);
        assert ram[addr..addr + i + 1] == ram[addr..addr + i] + [ram[addr + i]];
      }
    }

    /** dup, which runs on into drp. */
    method ExecDup(argsize: ArgSize)
      requires Valid()
      modifies dst`sp, dst.data
      ensures Valid()
      ensures Model() == old(Model()).(dst := DupDrp(old(Model()).dst, argsize))
    {
      var n := dst.PopN(argsize + 1);
      dst.PushN(argsize + 1, n);
      dst.PushN(argsize + 1, n);
      var _ := dst.PopN(argsize + 1);
    }

    /** drp. */
    method ExecDrp(argsize: ArgSize)
      requires Valid()
      modifies dst`sp, dst.data
      ensures Valid()
      ensures Model() == old(Model()).(dst := Drp(old(Model()).dst, argsize))
    {
      var _ := dst.PopN(argsize + 1);
    }

    /** psh. */
    method ExecPsh(argsize: ArgSize)
      requires Valid()
      modifies dst`sp, dst.data, rst`sp, rst.data
      ensures Valid()
      ensures Model() == Psh(old(Model()), argsize)
    {
      var n := dst.PopN(argsize + 1);
      rst.PushN(argsize + 1, n);
    }

    /** pop. */
    method ExecPop(argsize: ArgSize)
      requires Valid()
      modifies dst`sp, dst.data, rst`sp, rst.data
      ensures Valid()
      ensures Model() == PopR(old(Model()), argsize)
    {
      var n := rst.PopN(argsize + 1);
      dst.PushN(argsize + 1, n);
    }

    /** jmp. */
    method ExecJmp(argsize: ArgSize)
      requires Valid()
      modifies dst`sp, dst.data, this`pc
      ensures Valid()
      ensures Model() == Jmp(old(Model()), argsize)
    {
      pc := dst.PopN(argsize + 1);
    }

    /** `fetch`: `vm->rom[vm->pc]`, then `vm->pc++`. */
    method Fetch() returns (b: byte)
      requires Valid() && pc < rom.Length
      modifies this`pc
      ensures Valid()
      ensures b == old(rom[pc]) && Model() == old(Model()).(pc := old(pc) + 1)
    {
      b := rom[pc];
      pc := pc + 1;
    }

    /** lit: `stack_push(fetch(vm))`, argsize + 1 times. */
    method ExecLit(argsize: ArgSize)
      requires Valid() && LitDefined(Model(), argsize)
      modifies dst`sp, dst.data, this`pc
      ensures Valid()
      ensures Model() == Lit(old(Model()), argsize)
    {
      ghost var s := dst.Model();
      for i := 0 to argsize + 1
        invariant Valid()
        invariant dst.Model() == PushAll(s, rom[old(pc)..old(pc) + i])
        invariant pc == old(pc) + i
      {
        var x := Fetch();
        dst.Push(x);
        PushAllSnoc(s, rom[old(pc)..old(pc) + i], x);
        assert rom[old(pc)..old(pc) + i + 1] == rom[old(pc)..old(pc) + i] + [x];
      }
    }

    /** dbg. */
    method ExecDbg(argsize: ArgSize)
      requires Valid()
      modifies dst`sp, dst.data
      ensures Valid()
      ensures Model() == Dbg(old(Model()), argsize)
    {
      match argsize
      case 0 => dst.Push(dst.sp);
      case 1 => dst.Push(rst.sp);
      case 2 => dst.PushN(WordSize, pc % 256);
      case 3 => dst.Push(WordSize);
    }

    // -------------------------------------------------------------------------
    // Dispatch and the clock cycle

    /** `handle_opcode`. */
    method HandleOpcode(opcode: Opcode, argsize: ArgSize)
      requires Valid() && HandleDefined(Model(), opcode, argsize)
      modifies dst`sp, dst.data, rst`sp, rst.data, this`pc, this`status, ram
      ensures Valid()
      ensures Model() == Handle(old(Model()), opcode, argsize)
    {
      if opcode <= 5 {
        ExecBinary(opcode, argsize);
        return;
      }
      match opcode
      case 6 => ExecStr(argsize);
      case 7 => ExecLod(argsize);
      case 8 => ExecDup(argsize);
      case 9 => ExecDrp(argsize);
      case 10 => ExecPsh(argsize);
      case 11 => ExecPop(argsize);
      case 12 => ExecJmp(argsize);
      case 13 => ExecLit(argsize);
      case 14 =>
      case 15 => ExecDbg(argsize);
    }

    /** `execute`. */
    method Execute(instr: byte)
      requires Valid() && ExecuteDefined(Model(), instr)
      modifies dst`sp, dst.data, rst`sp, rst.data, this`pc, this`status, ram
      ensures Valid()
      ensures Model() == SrcOkvmSpec.Execute(old(Model()), instr)
    {
      if instr / 128 == 0 {
        status := OkSpec.Halted;
        return;
      }
      if (instr / 64) % 2 == 1 {
        var top := dst.Pop();
        if top != 255 {
          return;
        }
      }
      var argsize := (instr / 16) % 4;
      var opcode := instr % 16;
      HandleOpcode(opcode, argsize);
    }

    /** `vm_tick`: fetch, execute, and report the status. */
    method Tick() returns (st: OkSpec.Status)
      requires Valid() && TickDefined(Model())
      modifies dst`sp, dst.data, rst`sp, rst.data, this`pc, this`status, ram
      ensures Valid()
      ensures Model() == SrcOkvmSpec.Tick(old(Model()))
      ensures st == status
    {
      var instr := Fetch();
      Execute(instr);
      st := status;
    }
  }

  /** One more byte popped and stored above the i already stored. */
  lemma StoreStep(s: Stack, r: Memory, addr: nat, i: nat)
    requires addr + i + 1 <= MemSize
    ensures var (x, s1) := Pop(PopAll(s, i).1);
            PopAll(s, i + 1).1 == s1 &&
            OkSpec.WriteRam(r, addr, OkSpec.Reverse(PopAll(s, i).0))[addr + i := x]
              == OkSpec.WriteRam(r, addr, OkSpec.Reverse(PopAll(s, i + 1).0))
  {
    var popped := PopAll(s, i).0;
    var x := Pop(PopAll(s, i).1).0;
    PopAllStep(s, i);
    ReverseCons(x, popped);
    WriteRamSnoc(r, addr, OkSpec.Reverse(popped), x);
  }

  /** Reversing a sequence with one more byte in front puts that byte last. */
  lemma ReverseCons(x: byte, xs: seq<byte>)
    ensures OkSpec.Reverse([x] + xs) == OkSpec.Reverse(xs) + [x]
  {
    assert forall i :: 0 <= i < |xs| + 1 ==>
      OkSpec.Reverse([x] + xs)[i] == (OkSpec.Reverse(xs) + [x])[i];
  }

  /** Writing one more byte just above a written range extends the range. */
  lemma WriteRamSnoc(ram: Memory, addr: nat, bytes: seq<byte>, x: byte)
    requires addr + |bytes| + 1 <= MemSize
    ensures OkSpec.WriteRam(ram, addr, bytes)[addr + |bytes| := x] == OkSpec.WriteRam(ram, addr, bytes + [x])
  {
    assert ram[addr + |bytes|..] == [ram[addr + |bytes|]] + ram[addr + |bytes| + 1..];
  }
}
