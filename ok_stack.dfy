/** src/okstack.c: the standalone byte stack, a struct of an 8-bit pointer and
    256 byte slots updated in place through a pointer. okvm.h declares the same
    struct and the same two functions, and src/okvm.c uses it for its stacks, so
    both interpreters of that lineage hold their stacks as objects of this class.
    The `popn`/`pushn` helpers that okvm.h (lines 81-96) and src/okvm.c (lines
    8-22) define identically are methods here too. */
module OkStack {
  import opened Bytes
  import opened ByteStack

  class OkStack {
    var sp: byte
    var data: array<byte>

    ghost predicate Valid()
      reads this
    {
      data.Length == 256
    }

    /** The stack as a value. */
    ghost function Model(): Stack
      reads this, data
      requires Valid()
    {
      Stack(sp, data[..])
    }

    /** `stack_init`: pointer 0 and all 256 slots zero. */
    constructor Init()
      ensures Valid() && fresh(data)
      ensures Model() == EmptyStack()
    {
      sp := 0;
      data := new byte[256](_ => 0);
    }

    /** `stack_push`: write at `sp`, then `sp++` modulo 256. */
    method Push(x: byte)
      requires Valid()
      modifies this`sp, data
      ensures Valid()
      ensures Model() == ByteStack.Push(old(Model()), x)
    {
      data[sp] := x;
      sp := (sp + 1) % 256;
    }

    /** `stack_pop`: read below `sp`, zero the slot at `sp`, then `sp--` modulo 256.
        The read below an empty stack wraps to slot 255. */
    method Pop() returns (out: byte)
      requires Valid()
      modifies this`sp, data
      ensures Valid()
      ensures (out, Model()) == ByteStack.Pop(old(Model()))
    {
      out := data[(sp + 255) % 256];
      data[sp] := 0;
      sp := (sp + 255) % 256;
    }

    /** `stack_popn` of okvm.h and src/okvm.c: `out = (out << 8) | pop()`, n
        times, so the first byte popped ends most significant. As out stays
        below 2^24 before the last shift, the shift and or are a multiply and
        add. */
    method PopN(n: nat) returns (out: u32)
      requires Valid() && n <= 4
      modifies this`sp, data
      ensures Valid()
      ensures (out, Model()) == PopTopHigh(old(Model()), n)
    {
      out := 0;
      for i := 0 to n
        invariant Valid()
        invariant Model() == PopAll(old(Model()), i).1
        invariant out == DecodeTopHigh(PopAll(old(Model()), i).0)
      {
        ghost var popped := PopAll(old(Model()), i).0;
        var b := Pop();
        PopAllStep(old(Model()), i);
        DecodeTopHighBound(popped);
        Pow256Monotone(i + 1, 4);
        out := out * 256 + b;
      }
    }

    /** `stack_pushn` of okvm.h and src/okvm.c: pushes byte i of val for i = 0
        up to n - 1, so the least significant byte goes first. */
    method PushN(n: nat, val: u32)
      requires Valid()
      modifies this`sp, data
      ensures Valid()
      ensures Model() == PushTopHigh(old(Model()), n, val)
    {
      ghost var bytes := EncodeTopHigh(val, n);
      for i := 0 to n
        invariant Valid()
        invariant Model() == PushAll(old(Model()), bytes[..i])
      {
        Push(ByteOf(val, i));
        PushAllSnoc(old(Model()), bytes[..i], bytes[i]);
        assert bytes[..i + 1] == bytes[..i] + [bytes[i]];
      }
      assert bytes[..n] == bytes;
    }
  }

  /** 256 pushes bring the pointer back to where it started, and no shorter
      run of pushes does. */
  lemma {:induction false} FullWrap(s: Stack, xs: seq<byte>)
    requires |xs| == 256
    ensures PushAll(s, xs).sp == s.sp
    ensures forall j :: 0 < j < 256 ==> PushAll(s, xs[..j]).sp != s.sp
  {
    PushAllWindow(s, xs, 0);
    forall j | 0 < j < 256
      ensures PushAll(s, xs[..j]).sp != s.sp
    {
      PushAllWindow(s, xs[..j], 0);
    }
  }

  /** Last in, first out: popping as many bytes as were pushed returns them in
      reverse order of pushing (here listed bottom first, as pushed) and
      restores the pointer. */
  lemma Lifo(s: Stack, xs: seq<byte>)
    requires |xs| <= 255
    ensures PopAll(PushAll(s, xs), |xs|).0 == xs
    ensures PopAll(PushAll(s, xs), |xs|).1.sp == s.sp
  {
    PushPopAll(s, xs, 0);
  }

  /** Popping an empty stack is not a fault: the pointer wraps to 255 and the
      byte in slot 255 is returned. */
  lemma PopEmptyWraps(s: Stack)
    requires s.sp == 0
    ensures Pop(s).1.sp == 255 && Pop(s).0 == s.data[255]
  {
  }

  /** `pop` zeroes the slot at the old pointer, above the byte it returns, and
      leaves the returned byte in its slot. */
  lemma PopZeroesOldPointer(s: Stack)
    ensures Pop(s).1.data[s.sp] == 0
    ensures Pop(s).1.data[Pop(s).1.sp] == Pop(s).0
    ensures forall j :: 0 <= j < 256 && j != s.sp ==> Pop(s).1.data[j] == s.data[j]
  {
  }

  /** The scenario of src/test_stack.c: pushing 2, 3, 4 onto a fresh stack
      pops 4, 3, 2 and brings the pointer back to 0; one more pop on the empty
      stack yields 0 and leaves the pointer at 255. */
  lemma PushPopScenario()
    ensures var s3 := Push(Push(Push(EmptyStack(), 2), 3), 4);
            var (a, s2) := Pop(s3);
            var (b, s1) := Pop(s2);
            var (c, s0) := Pop(s1);
            var (d, sw) := Pop(s0);
            a == 4 && b == 3 && c == 2 && s0.sp == 0 && d == 0 && sw.sp == 255
  {
    ThreePushes();
    PopFour(Push(Push(Push(EmptyStack(), 2), 3), 4));
  }

  lemma ThreePushes()
    ensures var s := Push(Push(Push(EmptyStack(), 2), 3), 4);
            s.sp == 3 && s.data[0] == 2 && s.data[1] == 3 && s.data[2] == 4 && s.data[255] == 0
  {
  }

  lemma PopFour(s: Stack)
    requires s.sp == 3 && s.data[0] == 2 && s.data[1] == 3 && s.data[2] == 4 && s.data[255] == 0
    ensures var (a, s2) := Pop(s);
            var (b, s1) := Pop(s2);
            var (c, s0) := Pop(s1);
            var (d, sw) := Pop(s0);
            a == 4 && b == 3 && c == 2 && s0.sp == 0 && d == 0 && sw.sp == 255
  {
  }

  method RunScenario() returns (first: byte, second: byte, third: byte, spAfter: byte, extra: byte, spWrapped: byte)
    ensures first == 4 && second == 3 && third == 2 && spAfter == 0
    ensures extra == 0 && spWrapped == 255
  {
    var s := new OkStack.Init();
    s.Push(2);
    s.Push(3);
    s.Push(4);
    ghost var m3 := s.Model();
    assert m3 == Push(Push(Push(EmptyStack(), 2), 3), 4);
    first := s.Pop();
    ghost var m2 := s.Model();
    assert (first, m2) == Pop(m3);
    second := s.Pop();
    ghost var m1 := s.Model();
    third := s.Pop();
    ghost var m0 := s.Model();
    spAfter := s.sp;
    extra := s.Pop();
    spWrapped := s.sp;
    PushPopScenario();
  }
}
