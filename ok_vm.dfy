/** ok.h: the `OkVM` struct and the functions that update it in place.

    Every method performs the steps of its C function on the fields and arrays
    of the object and is proved to leave the object in the state that the
    function of the same operation in `OkSpec` computes from the old state. */
module OkMachine {
  import opened Bytes
  import opened ByteStack
  import opened Instruction
  import opened OkSpec

  class OkVM {
    var dsp: byte
    const dst: array<byte>
    var rsp: byte
    const rst: array<byte>
    var pc: nat
    var numDevices: DeviceCount
    const devicePorts: array<byte>
    const devices: array<Option<Device>>
    const ram: array<byte>
    const rom: array<byte>
    var status: Status

    ghost predicate Valid()
      reads this
    {
      dst.Length == 256 && rst.Length == 256 &&
      devicePorts.Length == MaxDevices && devices.Length == MaxDevices &&
      ram.Length == MemSize && rom.Length == MemSize &&
      dst != rst && dst != devicePorts && dst != ram && dst != rom &&
      rst != devicePorts && rst != ram && rst != rom &&
      devicePorts != ram && devicePorts != rom && ram != rom
    }

    /** The data stack as a value. */
    ghost function Data(): Stack
      reads this, dst
      requires Valid()
    {
      Stack(dsp, dst[..])
    }

    /** The return stack as a value. */
    ghost function Return(): Stack
      reads this, rst
      requires Valid()
    {
      Stack(rsp, rst[..])
    }

    /** The whole machine as a value. */
    ghost function Model(): Machine
      reads this, dst, rst, devicePorts, devices, ram, rom
      requires Valid()
    {
      Machine(Data(), Return(), pc, numDevices,
              devicePorts[..], devices[..], ram[..], rom[..], status)
    }

    /** `okvm_init`: zeroes both stacks, clears the device table, allocates a
        zeroed RAM and a zeroed ROM and copies the program to the start of ROM.
        `dsp` and `rsp` are not assigned: the C function leaves the stack
        pointers holding whatever they held, so nothing is promised about
        them. */
    constructor Init(program: seq<byte>)
      requires |program| <= MemSize
      ensures Valid()
      ensures dst[..] == seq(256, _ => 0) && rst[..] == seq(256, _ => 0)
      ensures pc == 0 && numDevices == 0 && status == Halted
      ensures devices[..] == seq(MaxDevices, _ => None)
      ensures ram[..] == seq(MemSize, _ => 0)
      ensures rom[..] == program + seq(MemSize - |program|, _ => 0)
    {
      dst := new byte[256];
      rst := new byte[256];
      devicePorts := new byte[MaxDevices];
      devices := new Option<Device>[MaxDevices];
      ram := new byte[MemSize](_ => 0);
      rom := new byte[MemSize](_ => 0);
      new;
      forall i | 0 <= i < 256 {
        dst[i] := 0;
      }
      forall i | 0 <= i < 256 {
        rst[i] := 0;
      }
      pc := 0;
      numDevices := 0;
      status := Halted;
      forall i | 0 <= i < MaxDevices {
        devices[i] := None;
      }
      forall i | 0 <= i < |program| {
        rom[i] := program[i];
      }
    }

    // -------------------------------------------------------------------------
    // The two stacks

    /** `stack_push`: `dst[dsp] = x; dsp++`. */
    method StackPush(x: byte)
      requires Valid()
      modifies this`dsp, dst
      ensures Valid()
      ensures Data() == Push(old(Data()), x)
    {
      dst[dsp] := x;
      dsp := (dsp + 1) % 256;
    }

    /** `stack_pop`: `out = dst[dsp - 1]; dst[dsp--] = 0`. */
    method StackPop() returns (out: byte)
      requires Valid()
      modifies this`dsp, dst
      ensures Valid()
      ensures (out, Data()) == Pop(old(Data()))
    {
      out := dst[(dsp + 255) % 256];
      dst[dsp] := 0;
      dsp := (dsp + 255) % 256;
    }

    /** `stack_popn`: `out |= pop() << (8 * i)` for i = 0 up to n - 1. The
        byte lands on bits that are still zero, so the or is an addition. */
    method StackPopN(n: nat) returns (out: u32)
      requires Valid() && n <= 4
      modifies this`dsp, dst
      ensures Valid()
      ensures (out, Data()) == PopTopLow(old(Data()), n)
    {
      out := 0;
      for i := 0 to n
        invariant Valid()
        invariant Data() == PopAll(old(Data()), i).1
        invariant out == DecodeTopLow(PopAll(old(Data()), i).0)
      {
        ghost var popped := PopAll(old(Data()), i).0;
        var b := StackPop();
        PopAllStep(old(Data()), i);
        DecodeTopLowCons(b, popped);
        DecodeFits([b] + popped);
        out := out + Pow256(i) * b;
      }
    }

    /** `stack_pushn`: pushes byte i of val for i = n - 1 down to 0, so the
        least significant byte ends on top. */
    method StackPushN(n: nat, val: u32)
      requires Valid()
      modifies this`dsp, dst
      ensures Valid()
      ensures Data() == PushTopLow(old(Data()), n, val)
    {
      ghost var bytes := EncodeTopLow(val, n);
      var i: int := n - 1;
      while i >= 0
        invariant -1 <= i < n
        invariant Valid()
        invariant Data() == PushAll(old(Data()), bytes[..n - 1 - i])
        decreases i
      {
        StackPush(ByteOf(val, i));
        PushAllSnoc(old(Data()), bytes[..n - 1 - i], bytes[n - 1 - i]);
        assert bytes[..n - i] == bytes[..n - 1 - i] + [bytes[n - 1 - i]];
        i := i - 1;
      }
      assert bytes[..n] == bytes;
    }

    /** `rstack_push`. */
    method RStackPush(x: byte)
      requires Valid()
      modifies this`rsp, rst
      ensures Valid()
      ensures Return() == Push(old(Return()), x)
    {
      rst[rsp] := x;
      rsp := (rsp + 1) % 256;
    }

    /** `rstack_pop`. */
    method RStackPop() returns (out: byte)
      requires Valid()
      modifies this`rsp, rst
      ensures Valid()
      ensures (out, Return()) == Pop(old(Return()))
    {
      out := rst[(rsp + 255) % 256];
      rst[rsp] := 0;
      rsp := (rsp + 255) % 256;
    }

    /** `rstack_popn`. */
    method RStackPopN(n: nat) returns (out: u32)
      requires Valid() && n <= 4
      modifies this`rsp, rst
      ensures Valid()
      ensures (out, Return()) == PopTopLow(old(Return()), n)
    {
      out := 0;
      for i := 0 to n
        invariant Valid()
        invariant Return() == PopAll(old(Return()), i).1
        invariant out == DecodeTopLow(PopAll(old(Return()), i).0)
      {
        ghost var popped := PopAll(old(Return()), i).0;
        var b := RStackPop();
        PopAllStep(old(Return()), i);
        DecodeTopLowCons(b, popped);
        DecodeFits([b] + popped);
        out := out + Pow256(i) * b;
      }
    }

    /** `rstack_pushn`. */
    method RStackPushN(n: nat, val: u32)
      requires Valid()
      modifies this`rsp, rst
      ensures Valid()
      ensures Return() == PushTopLow(old(Return()), n, val)
    {
      ghost var bytes := EncodeTopLow(val, n);
      var i: int := n - 1;
      while i >= 0
        invariant -1 <= i < n
        invariant Valid()
        invariant Return() == PushAll(old(Return()), bytes[..n - 1 - i])
        decreases i
      {
        RStackPush(ByteOf(val, i));
        PushAllSnoc(old(Return()), bytes[..n - 1 - i], bytes[n - 1 - i]);
        assert bytes[..n - i] == bytes[..n - 1 - i] + [bytes[n - 1 - i]];
        i := i - 1;
      }
      assert bytes[..n] == bytes;
    }

    // -------------------------------------------------------------------------
    // Devices

    /** `okvm_register_device`. */
    method RegisterDevice(device: Option<Device>, port: byte) returns (r: int)
      requires Valid()
      modifies this`numDevices, devicePorts, devices
      ensures Valid()
      ensures (r, Model()) == Register(old(Model()), device, port)
    {
      if numDevices >= MaxDevices {
        return 1;
      }
      devicePorts[numDevices] := port;
      devices[numDevices] := device;
      numDevices := numDevices + 1;
      return 0;
    }

    /** `trigger_device`: scans the first `numDevices` ports for the first
        match, then calls the callback on RAM and ROM, lets it rewrite RAM and
        pushes its result. */
    method TriggerDevice(port: byte)
      requires Valid()
      modifies this`dsp, dst, this`status, ram
      ensures Valid()
      ensures Model() == Trigger(old(Model()), port)
    {
      var found := false;
      var index := 0;
      for i := 0 to numDevices
        invariant !found
        invariant forall j :: 0 <= j < i ==> devicePorts[j] != port
      {
        if devicePorts[i] == port {
          found := true;
          index := i;
          break;
        }
      }
      if !found {
        status := Panic;
        return;
      }
      assert FindPort(devicePorts[..], numDevices, port) == Some(index);
      var entry := devices[index];
      if entry.None? {
        status := Panic;
        return;
      }
      var out := entry.value(ram[..], rom[..]);
      forall k | 0 <= k < MemSize {
        ram[k] := out.ram[k];
      }
      assert ram[..] == out.ram;
      StackPush(out.result);
    }

    /** The trigger loop of `int`: one `trigger_device` per byte of `buff`. */
    method TriggerEach(buff: seq<byte>)
      requires Valid()
      modifies this`dsp, dst, this`status, ram
      ensures Valid()
      ensures Model() == TriggerAll(old(Model()), buff)
    {
      for i := 0 to |buff|
        invariant Valid()
        invariant Model() == TriggerAll(old(Model()), buff[..i])
      {
        TriggerDevice(buff[i]);
        assert buff[..i + 1][..i] == buff[..i];
      }
      assert buff[..|buff|] == buff;
    }

    // -------------------------------------------------------------------------
    // Opcodes

    /** add, and, xor: the three cases differ only in the operator. */
    method ExecArith(op: Combine, argsize: ArgSize, skip: bool)
      requires Valid()
      modifies this`dsp, dst
      ensures Valid()
      ensures Data() == Arith(old(Data()), op, argsize, skip)
    {
      ghost var d := Data();
      var b := StackPopN(argsize + 1);
      var a := StackPopN(argsize + 1);
      var v := Apply(op, a, b);
      if skip {
        var c := StackPop();
        if c != 0 {
          StackPushN(argsize + 1, v);
        } else {
          StackPushN(argsize + 1, a);
          StackPushN(argsize + 1, b);
        }
      } else {
        StackPushN(argsize + 1, v);
      }
      assert Data() == Arith(d, op, argsize, skip);
    }

    /** shf. */
    method ExecShf(argsize: ArgSize, skip: bool)
      requires Valid()
      modifies this`dsp, dst
      ensures Valid()
      ensures Data() == Shf(old(Data()), argsize, skip)
    {
      var ctrl := StackPop();
      var n := StackPopN(argsize + 1);
      if skip {
        var c := StackPop();
        if c != 0 {
          StackPushN(argsize + 1, Shift(n, ctrl));
        } else {
          StackPushN(argsize + 1, n);
          StackPush(ctrl);
        }
      } else {
        StackPushN(argsize + 1, Shift(n, ctrl));
      }
    }

    /** swp. */
    method ExecSwp(argsize: ArgSize, skip: bool)
      requires Valid()
      modifies this`dsp, dst
      ensures Valid()
      ensures Data() == Swp(old(Data()), argsize, skip)
    {
      var b := StackPopN(argsize + 1);
      var a := StackPopN(argsize + 1);
      if skip {
        var c := StackPop();
        if c != 0 {
          StackPushN(argsize + 1, b);
          StackPushN(argsize + 1, a);
        } else {
          StackPushN(argsize + 1, a);
          StackPushN(argsize + 1, b);
        }
      } else {
        StackPushN(argsize + 1, b);
        StackPushN(argsize + 1, a);
      }
    }

    /** cmp. */
    method ExecCmp(argsize: ArgSize, skip: bool)
      requires Valid()
      modifies this`dsp, dst
      ensures Valid()
      ensures Data() == Cmp(old(Data()), argsize, skip)
    {
      ghost var s := Data();
      var b := StackPopN(argsize + 1);
      var a := StackPopN(argsize + 1);
      var order := if a > b then 1 else if a < b then 255 else 0;
      if skip {
        var c := StackPop();
        if c != 0 {
          StackPush(order);
        } else {
          StackPushN(argsize + 1, a);
          StackPushN(argsize + 1, b);
        }
      } else {
        StackPush(order);
      }
      assert Data() == Cmp(s, argsize, skip);
    }

    /** The store loop: `ram[addr + i] = stack_pop()` for i = argsize down
        to 0. */
    method StoreBytes(addr: nat, argsize: ArgSize)
      requires Valid() && addr + argsize + 1 <= MemSize
      modifies this`dsp, dst, ram
      ensures Valid()
      ensures Data() == PopAll(old(Data()), argsize + 1).1
      ensures ram[..] == WriteRam(old(ram[..]), addr, PopAll(old(Data()), argsize + 1).0)
    {
      ghost var s := Data();
      ghost var r: Memory := ram[..];
      var i: int := argsize;
      while i >= 0
        invariant -1 <= i <= argsize
        invariant Valid()
        invariant Data() == PopAll(s, argsize - i).1
        invariant ram[..] == WriteRam(r, addr + i + 1, PopAll(s, argsize - i).0)
        decreases i
      {
        StoreNext(addr + i, argsize - i, s, r);
        i := i - 1;
      }
    }

    /** One turn of the store loop: with j bytes already stored above a, the
        next byte popped is stored at a. */
    method StoreNext(a: nat, ghost j: nat, ghost s: Stack, ghost r: Memory)
      requires Valid() && a + 1 + j <= MemSize
      requires Data() == PopAll(s, j).1
      requires ram[..] == WriteRam(r, a + 1, PopAll(s, j).0)
      modifies this`dsp, dst, ram
      ensures Valid()
      ensures Data() == PopAll(s, j + 1).1
      ensures ram[..] == WriteRam(r, a, PopAll(s, j + 1).0)
    {
      var x := StackPop();
      ram[a] := x;
      PopAllStep(s, j);
      WriteRamCons(r, a, x, PopAll(s, j).0);
    }

    /** str. */
    method ExecStr(argsize: ArgSize, skip: bool)
      requires Valid() && AddressDefined(Model(), argsize, skip)
      modifies this`dsp, dst, ram
      ensures Valid()
      ensures Model() == Str(old(Model()), argsize, skip)
    {
      var addr := StackPopN(WordSize);
      if skip {
        var c := StackPop();
        if c != 0 {
          StoreBytes(addr, argsize);
        } else {
          StackPushN(WordSize, addr);
        }
      } else {
        StoreBytes(addr, argsize);
      }
    }

    /** The load loop: `stack_push(ram[addr + i])` for i = 0 up to argsize. */
    method LoadBytes(addr: nat, argsize: ArgSize)
      requires Valid() && addr + argsize + 1 <= MemSize
      modifies this`dsp, dst
      ensures Valid()
      ensures Data() == PushAll(old(Data()), ram[addr..addr + argsize + 1])
    {
      ghost var s := Data();
      for i := 0 to argsize + 1
        invariant Valid()
        invariant Data() == PushAll(s, ram[addr..addr + i])
      {
        StackPush(ram[addr + i]);
        PushAllSnoc(s, ram[addr..addr + i], ram[addr + i]);
        assert ram[addr..addr + i + 1] == ram[addr..addr + i] + [ram[addr + i]];
      }
    }

    /** lod. */
    method ExecLod(argsize: ArgSize, skip: bool)
      requires Valid() && AddressDefined(Model(), argsize, skip)
      modifies this`dsp, dst
      ensures Valid()
      ensures Model() == Lod(old(Model()), argsize, skip)
    {
      var addr := StackPopN(WordSize);
      if skip {
        var c := StackPop();
        if c != 0 {
          LoadBytes(addr, argsize);
        } else {
          StackPushN(WordSize, addr);
        }
      } else {
        LoadBytes(addr, argsize);
      }
    }

    /** dup. */
    method ExecDup(argsize: ArgSize, skip: bool)
      requires Valid()
      modifies this`dsp, dst
      ensures Valid()
      ensures Model() == old(Model()).(dst := Dup(old(Model()).dst, argsize, skip))
    {
      var n := StackPopN(argsize + 1);
      if skip {
        var c := StackPop();
        if c != 0 {
          StackPushN(argsize + 1, n);
          StackPushN(argsize + 1, n);
        } else {
          StackPushN(argsize + 1, n);
        }
      } else {
        StackPushN(argsize + 1, n);
        StackPushN(argsize + 1, n);
      }
    }

    /** drp. */
    method ExecDrp(argsize: ArgSize, skip: bool)
      requires Valid()
      modifies this`dsp, dst
      ensures Valid()
      ensures Model() == old(Model()).(dst := Drp(old(Model()).dst, argsize, skip))
    {
      var n := StackPopN(argsize + 1);
      if skip {
        var c := StackPop();
        if c == 0 {
          StackPushN(argsize + 1, n);
        }
      }
    }

    /** psh. */
    method ExecPsh(argsize: ArgSize, skip: bool)
      requires Valid()
      modifies this`dsp, dst, this`rsp, rst
      ensures Valid()
      ensures Model() == Psh(old(Model()), argsize, skip)
    {
      var n := StackPopN(argsize + 1);
      if skip {
        var c := StackPop();
        if c != 0 {
          RStackPushN(argsize + 1, n);
        } else {
          StackPushN(argsize + 1, n);
        }
      } else {
        RStackPushN(argsize + 1, n);
      }
    }

    /** pop. */
    method ExecPop(argsize: ArgSize, skip: bool)
      requires Valid()
      modifies this`dsp, dst, this`rsp, rst
      ensures Valid()
      ensures Model() == PopR(old(Model()), argsize, skip)
    {
      var n := RStackPopN(argsize + 1);
      if skip {
        var c := StackPop();
        if c != 0 {
          StackPushN(argsize + 1, n);
        } else {
          RStackPushN(argsize + 1, n);
        }
      } else {
        StackPushN(argsize + 1, n);
      }
    }

    /** jmp. */
    method ExecJmp(argsize: ArgSize, skip: bool)
      requires Valid()
      modifies this`dsp, dst, this`pc
      ensures Valid()
      ensures Model() == Jmp(old(Model()), argsize, skip)
    {
      var addr := StackPopN(argsize + 1);
      if skip {
        var c := StackPop();
        if c != 0 {
          pc := addr;
        } else {
          StackPushN(argsize + 1, addr);
        }
      } else {
        pc := addr;
      }
    }

    /** `fetch`: `rom[pc++]`. */
    method Fetch() returns (b: byte)
      requires Valid() && pc < MemSize
      modifies this`pc
      ensures Valid()
      ensures (b, Model()) == OkSpec.Fetch(old(Model()))
    {
      b := rom[pc];
      pc := pc + 1;
    }

    /** The lit loop: `stack_push(fetch())`, argsize + 1 times. */
    method PushImmediates(argsize: ArgSize)
      requires Valid() && pc + argsize + 1 <= MemSize
      modifies this`dsp, dst, this`pc
      ensures Valid()
      ensures Data() == PushAll(old(Data()), rom[old(pc)..old(pc) + argsize + 1])
      ensures pc == old(pc) + argsize + 1
    {
      ghost var s := Data();
      for i := 0 to argsize + 1
        invariant Valid()
        invariant Data() == PushAll(s, rom[old(pc)..old(pc) + i])
        invariant pc == old(pc) + i
      {
        var x := Fetch();
        StackPush(x);
        PushAllSnoc(s, rom[old(pc)..old(pc) + i], x);
        assert rom[old(pc)..old(pc) + i + 1] == rom[old(pc)..old(pc) + i] + [x];
      }
    }

    /** lit. */
    method ExecLit(argsize: ArgSize, skip: bool)
      requires Valid() && LitDefined(Model(), argsize)
      modifies this`dsp, dst, this`pc
      ensures Valid()
      ensures Model() == Lit(old(Model()), argsize, skip)
    {
      if skip {
        var c := StackPop();
        if c != 0 {
          PushImmediates(argsize);
        } else {
          ghost var d := Data();
          for i := 0 to argsize + 1
            invariant Valid()
            invariant Data() == d
            invariant pc == old(pc) + i
          {
            var _ := Fetch();
          }
        }
      } else {
        PushImmediates(argsize);
      }
    }

    /** int: `buff[i] = stack_pop()` for i = 0 up to argsize, then either
        every byte of `buff` is triggered in that order or, on a zero
        condition, `buff` is pushed back from its last byte to its first. */
    method ExecInt(argsize: ArgSize, skip: bool)
      requires Valid()
      modifies this`dsp, dst, this`status, ram
      ensures Valid()
      ensures Model() == Int(old(Model()), argsize, skip)
    {
      var buff := PopBuffer(argsize + 1);
      ReverseReverse(PopAll(old(Data()), argsize + 1).0);
      if skip {
        var c := StackPop();
        if c != 0 {
          TriggerEach(buff);
        } else {
          RestoreBytes(buff);
        }
      } else {
        TriggerEach(buff);
      }
    }

    /** The first loop of int: `buff[i] = stack_pop()` for i = 0 up to n - 1,
        so `buff` lists the bytes top first. */
    method PopBuffer(n: nat) returns (buff: seq<byte>)
      requires Valid()
      modifies this`dsp, dst
      ensures Valid()
      ensures buff == Reverse(PopAll(old(Data()), n).0)
      ensures Data() == PopAll(old(Data()), n).1
    {
      ghost var s := Data();
      buff := [];
      for i := 0 to n
        invariant Valid()
        invariant Data() == PopAll(s, i).1
        invariant buff == Reverse(PopAll(s, i).0)
      {
        buff := PopNext(buff, s, i);
      }
    }

    /** One turn of the first loop of int: the next byte popped is appended
        to `buff`. */
    method PopNext(buff: seq<byte>, ghost s: Stack, ghost i: nat) returns (buff': seq<byte>)
      requires Valid()
      requires Data() == PopAll(s, i).1 && buff == Reverse(PopAll(s, i).0)
      modifies this`dsp, dst
      ensures Valid()
      ensures Data() == PopAll(s, i + 1).1 && buff' == Reverse(PopAll(s, i + 1).0)
    {
      ghost var popped := PopAll(s, i).0;
      var x := StackPop();
      buff' := buff + [x];
      PopAllStep(s, i);
      assert Reverse([x] + popped) == Reverse(popped) + [x];
    }

    /** The restore loop of int: `stack_push(buff[i])` for i = argsize down
        to 0, which pushes the popped bytes back in their original order. */
    method RestoreBytes(buff: seq<byte>)
      requires Valid()
      modifies this`dsp, dst
      ensures Valid()
      ensures Data() == PushAll(old(Data()), Reverse(buff))
    {
      ghost var s := Data();
      ghost var bytes := Reverse(buff);
      var i: int := |buff| - 1;
      while i >= 0
        invariant -1 <= i < |buff|
        invariant Valid()
        invariant Data() == PushAll(s, bytes[..|buff| - 1 - i])
        decreases i
      {
        StackPush(buff[i]);
        PushAllSnoc(s, bytes[..|buff| - 1 - i], bytes[|buff| - 1 - i]);
        assert bytes[..|buff| - i] == bytes[..|buff| - 1 - i] + [bytes[|buff| - 1 - i]];
        i := i - 1;
      }
      assert bytes[..|buff|] == bytes;
    }

    /** nop: with the skip flag a condition byte is still popped. */
    method ExecNop(skip: bool)
      requires Valid()
      modifies this`dsp, dst
      ensures Valid()
      ensures Model() == old(Model()).(dst := Nop(old(Model()).dst, skip))
    {
      if skip {
        var _ := StackPop();
      }
    }

    // -------------------------------------------------------------------------
    // Dispatch and the clock cycle

    /** `handle_opcode`. */
    method HandleOpcode(opcode: Opcode, argsize: ArgSize, skip: bool)
      requires Valid() && HandleDefined(Model(), opcode, argsize, skip)
      modifies this`dsp, dst, this`rsp, rst, this`pc, this`status, ram
      ensures Valid()
      ensures Model() == Handle(old(Model()), opcode, argsize, skip)
    {
      match opcode
      case 0 => ExecArith(AddOp, argsize, skip);
      case 1 => ExecArith(AndOp, argsize, skip);
      case 2 => ExecArith(XorOp, argsize, skip);
      case 3 => ExecShf(argsize, skip);
      case 4 => ExecSwp(argsize, skip);
      case 5 => ExecCmp(argsize, skip);
      case 6 => ExecStr(argsize, skip);
      case 7 => ExecLod(argsize, skip);
      case 8 => ExecDup(argsize, skip);
      case 9 => ExecDrp(argsize, skip);
      case 10 => ExecPsh(argsize, skip);
      case 11 => ExecPop(argsize, skip);
      case 12 => ExecJmp(argsize, skip);
      case 13 => ExecLit(argsize, skip);
      case 14 => ExecInt(argsize, skip);
      case 15 => ExecNop(skip);
    }

    /** `execute`: bit 7 clear halts; otherwise the argsize, opcode and skip
        fields are taken from the byte and the opcode is handled. */
    method Execute(instr: byte)
      requires Valid() && ExecuteDefined(Model(), instr)
      modifies this`dsp, dst, this`rsp, rst, this`pc, this`status, ram
      ensures Valid()
      ensures Model() == OkSpec.Execute(old(Model()), instr)
    {
      if instr / 128 == 0 {
        status := Halted;
        return;
      }
      var argsize := (instr / 16) % 4;
      var opcode := instr % 16;
      HandleOpcode(opcode, argsize, (instr / 64) % 2 == 1);
    }

    /** `okvm_tick`: fetch, execute, and report the status. */
    method Tick() returns (st: Status)
      requires Valid() && TickDefined(Model())
      modifies this`dsp, dst, this`rsp, rst, this`pc, this`status, ram
      ensures Valid()
      ensures Model() == OkSpec.Tick(old(Model()))
      ensures st == status
    {
      var instr := Fetch();
      Execute(instr);
      st := status;
    }
  }
}
