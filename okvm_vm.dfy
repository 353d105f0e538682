/** okvm.h: the `OkVM` struct and the functions that update it in place.

    The two stacks are `OkStack` objects updated through their own methods,
    as the C code updates them through `&(vm->dst)` and `&(vm->rst)`. Every
    method is proved to leave the object in the state that the function of the
    same operation in `OkvmSpec` computes from the old state. */
module OkvmMachine {
  import opened Bytes
  import opened ByteStack
  import opened Instruction
  import OkSpec
  import opened OkvmSpec
  import OkStack

  class OkVM {
    const dst: OkStack.OkStack
    const rst: OkStack.OkStack
    var pc: nat
    var numDevices: DeviceCount
    const devices: array<Option<Device>>
    const ram: array<byte>
    const rom: array<byte>
    var status: OkSpec.Status

    ghost predicate Valid()
      reads this, dst, rst
    {
      dst.Valid() && rst.Valid() && dst != rst && dst.data != rst.data &&
      devices.Length == MaxDevices && ram.Length == MemSize && rom.Length == MemSize &&
      ram != rom && ram != dst.data && ram != rst.data && rom != dst.data && rom != rst.data
    }

    /** The whole machine as a value. */
    ghost function Model(): Vm
      reads this, dst, dst.data, rst, rst.data, devices, ram, rom
      requires Valid()
    {
      Vm(dst.Model(), rst.Model(), pc, numDevices, devices[..], ram[..], rom[..], status)
    }

    /** `okvm_init`: fresh stacks, pc 0, no devices, status Halted, zeroed
        RAM and ROM, and the program copied to the start of ROM. */
    constructor Init(program: seq<byte>)
      requires |program| <= MemSize
      ensures Valid() && fresh(dst) && fresh(rst) && fresh(dst.data) && fresh(rst.data)
      ensures Model() == Initial(program)
    {
      dst := new OkStack.OkStack.Init();
      rst := new OkStack.OkStack.Init();
      pc := 0;
      numDevices := 0;
      status := OkSpec.Halted;
      devices := new Option<Device>[MaxDevices](_ => None);
      ram := new byte[MemSize](_ => 0);
      rom := new byte[MemSize](_ => 0);
      new;
      forall i | 0 <= i < |program| {
        rom[i] := program[i];
      }
      assert rom[..] == program + seq(MemSize - |program|, _ => 0);
    }

    // -------------------------------------------------------------------------
    // Devices

    /** `okvm_register_device`. */
    method RegisterDevice(device: Option<Device>) returns (r: int)
      requires Valid()
      modifies this`numDevices, devices
      ensures Valid()
      ensures (r, Model()) == Register(old(Model()), device)
    {
      if numDevices >= MaxDevices {
        return 1;
      }
      devices[numDevices] := device;
      numDevices := numDevices + 1;
      return 0;
    }

    /** `trigger_device`. */
    method TriggerDevice(id: byte)
      requires Valid()
      modifies dst`sp, dst.data, this`status
      ensures Valid()
      ensures Model() == Trigger(old(Model()), id)
    {
      var index := (id / 16) % 16;
      var op := id % 16;
      var entry := devices[index];
      if entry.None? {
        status := OkSpec.Panic;
        return;
      }
      var result := entry.value(ram[..], op);
      dst.Push(result);
    }

    // -------------------------------------------------------------------------
    // Opcodes

    /** add, and, xor. */
    method ExecArith(op: OkSpec.Combine, argsize: ArgSize)
      requires Valid()
      modifies dst`sp, dst.data
      ensures Valid()
      ensures Model() == old(Model()).(dst := Arith(old(Model()).dst, op, argsize))
    {
      ghost var m := Model();
      var b := dst.PopN(argsize + 1);
      var a := dst.PopN(argsize + 1);
      var c := OkSpec.Apply(op, a, b);
      dst.PushN(argsize + 1, c);
      assert dst.Model() == Arith(m.dst, op, argsize);
    }

    /** shf: `n >> (byte & 0x0f)`, then `n << ((byte & 0xf0) >> 4)`. */
    method ExecShf(argsize: ArgSize)
      requires Valid()
      modifies dst`sp, dst.data
      ensures Valid()
      ensures Model() == old(Model()).(dst := Shf(old(Model()).dst, argsize))
    {
      var ctrl := dst.Pop();
      var n := dst.PopN(argsize + 1);
      n := Shr32(n, ctrl % 16);
      n := Shl32(n, ctrl / 16);
      dst.PushN(argsize + 1, n);
    }

    /** swp. */
    method ExecSwp(argsize: ArgSize)
      requires Valid()
      modifies dst`sp, dst.data
      ensures Valid()
      ensures Model() == old(Model()).(dst := Swp(old(Model()).dst, argsize))
    {
      var b := dst.PopN(argsize + 1);
      var a := dst.PopN(argsize + 1);
      dst.PushN(argsize + 1, b);
      dst.PushN(argsize + 1, a);
    }

    /** cmp. */
    method ExecCmp(argsize: ArgSize)
      requires Valid()
      modifies dst`sp, dst.data
      ensures Valid()
      ensures Model() == old(Model()).(dst := Cmp(old(Model()).dst, argsize))
    {
      var b := dst.PopN(argsize + 1);
      var a := dst.PopN(argsize + 1);
      if a > b {
        dst.Push(1);
      } else if a < b {
        dst.Push(255);
      } else {
        dst.Push(0);
      }
    }

    /** One turn of the store loop: `ram[a] = stack_pop()`. */
    method StoreByte(a: nat) returns (x: byte)
      requires Valid() && a < MemSize
      modifies dst`sp, dst.data, ram
      ensures Valid()
      ensures (x, dst.Model()) == Pop(old(dst.Model()))
      ensures ram[..] == old(ram[..])[a := x]
    {
      x := dst.Pop();
      ram[a] := x;
    }

    /** The store loop: `ram[addr + i] = stack_pop()` for i = argsize down
        to 0. */
    method StoreBytes(addr: nat, argsize: ArgSize)
      requires Valid() && addr + argsize + 1 <= MemSize
      modifies dst`sp, dst.data, ram
      ensures Valid()
      ensures dst.Model() == PopAll(old(dst.Model()), argsize + 1).1
      ensures ram[..] == OkSpec.WriteRam(old(ram[..]), addr, PopAll(old(dst.Model()), argsize + 1).0)
    {
      ghost var s := dst.Model();
      ghost var r: Memory := ram[..];
      var i: int := argsize;
      while i >= 0
        invariant -1 <= i <= argsize
        invariant Valid()
        invariant dst.Model() == PopAll(s, argsize - i).1
        invariant ram[..] == OkSpec.WriteRam(r, addr + i + 1, PopAll(s, argsize - i).0)
        decreases i
      {
        ghost var popped := PopAll(s, argsize - i).0;
        var x := StoreByte(addr + i);
        PopAllStep(s, argsize - i);
        OkSpec.WriteRamCons(r, addr + i, x, popped);
        i := i - 1;
      }
    }

    /** str. */
    method ExecStr(argsize: ArgSize)
      requires Valid() && AddressDefined(Model(), argsize)
      modifies dst`sp, dst.data, ram
      ensures Valid()
      ensures Model() == Str(old(Model()), argsize)
    {
      var addr := dst.PopN(WordSize);
      StoreBytes(addr, argsize);
    }

    /** lod: `stack_push(ram[addr + i])` for i = 0 up to argsize. */
    method ExecLod(argsize: ArgSize)
      requires Valid() && AddressDefined(Model(), argsize)
      modifies dst`sp, dst.data
      ensures Valid()
      ensures Model() == Lod(old(Model()), argsize)
    {
      var addr := dst.PopN(WordSize);
      ghost var s := dst.Model();
      for i := 0 to argsize + 1
        invariant Valid()
        invariant dst.Model() == PushAll(s, ram[addr..addr + i])
      {
        dst.Push(ram[addr + i]);
        PushAllSnoc(s, ram[addr..addr + i], ram[addr + i]);
        assert ram[addr..addr + i + 1] == ram[addr..addr + i] + [ram[addr + i]];
      }
    }

    /** dup. */
    method ExecDup(argsize: ArgSize)
      requires Valid()
      modifies dst`sp, dst.data
      ensures Valid()
      ensures Model() == old(Model()).(dst := Dup(old(Model()).dst, argsize))
    {
      var n := dst.PopN(argsize + 1);
      dst.PushN(argsize + 1, n);
      dst.PushN(argsize + 1, n);
    }

    /** drp. */
    method ExecDrp(argsize: ArgSize)
      requires Valid()
      modifies dst`sp, dst.data
      ensures Valid()
      ensures Model() == old(Model()).(dst := Drp(old(Model()).dst, argsize))
    {
      var _ := dst.PopN(argsize + 1);
    }

    /** psh. */
    method ExecPsh(argsize: ArgSize)
      requires Valid()
      modifies dst`sp, dst.data, rst`sp, rst.data
      ensures Valid()
      ensures Model() == Psh(old(Model()), argsize)
    {
      var n := dst.PopN(argsize + 1);
      rst.PushN(argsize + 1, n);
    }

    /** pop. */
    method ExecPop(argsize: ArgSize)
      requires Valid()
      modifies dst`sp, dst.data, rst`sp, rst.data
      ensures Valid()
      ensures Model() == PopR(old(Model()), argsize)
    {
      var n := rst.PopN(argsize + 1);
      dst.PushN(argsize + 1, n);
    }

    /** jmp. */
    method ExecJmp(argsize: ArgSize)
      requires Valid()
      modifies dst`sp, dst.data, this`pc
      ensures Valid()
      ensures Model() == Jmp(old(Model()), argsize)
    {
      pc := dst.PopN(argsize + 1);
    }

    /** `FETCH`: `rom[pc++]`. */
    method Fetch() returns (b: byte)
      requires Valid() && pc < MemSize
      modifies this`pc
      ensures Valid()
      ensures b == old(rom[pc]) && Model() == old(Model()).(pc := old(pc) + 1)
    {
      b := rom[pc];
      pc := pc + 1;
    }

    /** lit: `stack_push(FETCH(vm))`, argsize + 1 times. */
    method ExecLit(argsize: ArgSize)
      requires Valid() && LitDefined(Model(), argsize)
      modifies dst`sp, dst.data, this`pc
      ensures Valid()
      ensures Model() == Lit(old(Model()), argsize)
    {
      ghost var s := dst.Model();
      for i := 0 to argsize + 1
        invariant Valid()
        invariant dst.Model() == PushAll(s, rom[old(pc)..old(pc) + i])
        invariant pc == old(pc) + i
      {
        var x := Fetch();
        dst.Push(x);
        PushAllSnoc(s, rom[old(pc)..old(pc) + i], x);
        assert rom[old(pc)..old(pc) + i + 1] == rom[old(pc)..old(pc) + i] + [x];
      }
    }

    /** int: `trigger_device(vm, stack_pop(&(vm->dst)))`, argsize + 1 times. */
    method ExecInt(argsize: ArgSize)
      requires Valid()
      modifies dst`sp, dst.data, this`status
      ensures Valid()
      ensures Model() == IntLoop(old(Model()), argsize + 1)
    {
      for i := 0 to argsize + 1
        invariant Valid()
        invariant Model() == IntLoop(old(Model()), i)
      {
        var id := dst.Pop();
        TriggerDevice(id);
      }
    }

    /** sys. */
    method ExecSys(argsize: ArgSize)
      requires Valid()
      modifies dst`sp, dst.data
      ensures Valid()
      ensures Model() == Sys(old(Model()), argsize)
    {
      match argsize
      case 0 => dst.Push(WordSize);
      case 1 => dst.Push(numDevices);
      case 2 =>
        dst.Push(dst.sp);
        dst.Push(rst.sp);
      case 3 =>
        var v := if pc == 0 then U32Modulus - 1 else (pc - 1) % U32Modulus;
        dst.PushN(WordSize, v);
    }

    // -------------------------------------------------------------------------
    // Dispatch and the clock cycle

    /** `handle_opcode`. */
    method HandleOpcode(opcode: Opcode, argsize: ArgSize)
      requires Valid() && HandleDefined(Model(), opcode, argsize)
      modifies dst`sp, dst.data, rst`sp, rst.data, this`pc, this`status, ram
      ensures Valid()
      ensures Model() == Handle(old(Model()), opcode, argsize)
    {
      match opcode
      case 0 => ExecArith(OkSpec.AddOp, argsize);
      case 1 => ExecArith(OkSpec.AndOp, argsize);
      case 2 => ExecArith(OkSpec.XorOp, argsize);
      case 3 => ExecShf(argsize);
      case 4 => ExecSwp(argsize);
      case 5 => ExecCmp(argsize);
      case 6 => ExecStr(argsize);
      case 7 => ExecLod(argsize);
      case 8 => ExecDup(argsize);
      case 9 => ExecDrp(argsize);
      case 10 => ExecPsh(argsize);
      case 11 => ExecPop(argsize);
      case 12 => ExecJmp(argsize);
      case 13 => ExecLit(argsize);
      case 14 => ExecInt(argsize);
      case 15 => ExecSys(argsize);
    }

    /** `execute`. */
    method Execute(instr: byte)
      requires Valid() && ExecuteDefined(Model(), instr)
      modifies dst`sp, dst.data, rst`sp, rst.data, this`pc, this`status, ram
      ensures Valid()
      ensures Model() == OkvmSpec.Execute(old(Model()), instr)
    {
      if instr / 128 == 0 {
        status := OkSpec.Halted;
        return;
      }
      var argsize := (instr / 16) % 4;
      var opcode := instr % 16;
      if (instr / 64) % 2 == 1 {
        var top := dst.Pop();
        if top == 0 {
          if opcode == 13 {
            for i := 0 to argsize + 1
              invariant Valid()
              invariant Model() == old(Model()).(dst := Pop(old(Model()).dst).1, pc := old(pc) + i)
            {
              var _ := Fetch();
            }
          }
          return;
        }
      }
      HandleOpcode(opcode, argsize);
    }

    /** `okvm_tick`: fetch, execute, and report the status. */
    method Tick() returns (st: OkSpec.Status)
      requires Valid() && TickDefined(Model())
      modifies dst`sp, dst.data, rst`sp, rst.data, this`pc, this`status, ram
      ensures Valid()
      ensures Model() == OkvmSpec.Tick(old(Model()))
      ensures st == status
    {
      var instr := Fetch();
      Execute(instr);
      st := status;
    }
  }
}
