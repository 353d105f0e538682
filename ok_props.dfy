/** Properties of the ok.h instruction set, proved about the functions of
    `OkSpec` (and so, through the contracts of `OkMachine.OkVM`, about the
    in-place interpreter).

    Stack effects are stated on windows: `Window(s, k + n)` is the k bytes an
    instruction must not touch followed by the n bytes it works on, so each
    lemma says both what appears on top and that everything below is left as
    it was, whatever the pointer and however it wraps. */
module OkProps {
  import opened Bytes
  import opened ByteStack
  import opened Instruction
  import opened OkSpec

  // ---------------------------------------------------------------------------
  // Window bookkeeping

  /** Two w-byte words popped in a row: b from the top, then a. */
  lemma PopTwo(t: Stack, w: nat, k: nat)
    requires 1 <= w <= 4 && k + 2 * w <= 255
    ensures var (b, t1) := PopTopLow(t, w);
            var (a, t2) := PopTopLow(t1, w);
            Window(t, k + 2 * w) == Window(t2, k) + EncodeTopLow(a, w) + EncodeTopLow(b, w) &&
            Window(t, 2 * w) == EncodeTopLow(a, w) + EncodeTopLow(b, w) &&
            Moved(t.sp, t2.sp, -2 * w)
  {
    var (b, t1) := PopTopLow(t, w);
    var (a, t2) := PopTopLow(t1, w);
    PopTopLowWindow(t, w, k + w);
    PopTopLowWindow(t1, w, k);
    var x := EncodeTopLow(a, w) + EncodeTopLow(b, w);
    assert Window(t, k + 2 * w) == Window(t2, k) + x;
    WindowSuffix(t, 2 * w, k + 2 * w);
    assert (Window(t2, k) + x)[k..] == x;
  }

  /** A window read as `below + [c] + ops`: c is the byte just under the
      operands, ops are the top bytes and below is what lies under c. */
  lemma CondSplit(t: Stack, below: seq<byte>, c: byte, ops: seq<byte>)
    requires |below| + |ops| + 1 <= 256
    requires Window(t, |below| + |ops| + 1) == below + [c] + ops
    ensures At(t, |ops| + 1) == c
    ensures Window(t, |ops|) == ops
    ensures Window(t, |below| + |ops| + 1)[..|below|] == below
  {
    var k := |below|;
    var n := |ops|;
    assert Window(t, k + n + 1)[k] == At(t, n + 1);
    WindowSuffix(t, n, k + n + 1);
    assert Window(t, k + n + 1)[k + 1..] == ops;
  }

  /** Equal encodings of values that fit mean equal values, and a pair of
      w-byte encodings splits in the middle. */
  lemma SameWords(a: nat, b: nat, a': nat, b': nat, w: nat)
    requires 1 <= w <= 4
    requires a < Pow256(w) && b < Pow256(w) && a' < Pow256(w) && b' < Pow256(w)
    requires EncodeTopLow(a, w) + EncodeTopLow(b, w) == EncodeTopLow(a', w) + EncodeTopLow(b', w)
    ensures a == a' && b == b'
  {
    var x := EncodeTopLow(a, w) + EncodeTopLow(b, w);
    assert x[..w] == EncodeTopLow(a, w) == EncodeTopLow(a', w);
    assert x[w..] == EncodeTopLow(b, w) == EncodeTopLow(b', w);
    EncodeTopLowInjective(a, a', w);
    EncodeTopLowInjective(b, b', w);
  }

  // ---------------------------------------------------------------------------
  // add, and, xor, swp, cmp

  /** Two w-byte words popped and one w-byte value v pushed in their place. */
  lemma ReplaceTwo(t: Stack, w: nat, v: nat, k: nat)
    requires 1 <= w <= 4 && k + 2 * w <= 255
    ensures var (b, t1) := PopTopLow(t, w);
            var (a, t2) := PopTopLow(t1, w);
            Window(PushTopLow(t2, w, v), k + w) == Window(t, k + 2 * w)[..k] + EncodeTopLow(v, w) &&
            Window(t, 2 * w) == EncodeTopLow(a, w) + EncodeTopLow(b, w) &&
            Moved(t.sp, PushTopLow(t2, w, v).sp, -1 * w)
  {
    var (b, t1) := PopTopLow(t, w);
    var (a, t2) := PopTopLow(t1, w);
    var r := PushTopLow(t2, w, v);
    PopTwo(t, w, k);
    var L, A, B := Window(t2, k), EncodeTopLow(a, w), EncodeTopLow(b, w);
    assert Window(t, k + 2 * w) == L + A + B;
    PushTopLowWindow(t2, w, v, k);
    assert (L + A + B)[..k] == L;
  }

  /** With a (deeper) and b (on top) as w-byte words, add, and and xor replace
      both by the one w-byte word `a op b`, keeping every byte below. */
  lemma ArithEffect(t: Stack, op: Combine, argsize: ArgSize, a: u32, b: u32, k: nat)
    requires a < Pow256(argsize + 1) && b < Pow256(argsize + 1)
    requires k + 2 * (argsize + 1) <= 255
    requires Window(t, 2 * (argsize + 1)) == EncodeTopLow(a, argsize + 1) + EncodeTopLow(b, argsize + 1)
    ensures Window(Arith(t, op, argsize, false), k + argsize + 1)
         == Window(t, k + 2 * (argsize + 1))[..k] + EncodeTopLow(Apply(op, a, b), argsize + 1)
    ensures Moved(t.sp, Arith(t, op, argsize, false).sp, -1 - argsize)
  {
    var w := argsize + 1;
    var (b', t1) := PopTopLow(t, w);
    var (a', t2) := PopTopLow(t1, w);
    assert Arith(t, op, argsize, false) == PushTopLow(t2, w, Apply(op, a', b'));
    ReplaceTwo(t, w, Apply(op, a', b'), k);
    SameWords(a, b, a', b', w);
  }

  /** `add` keeps `(a + b) mod 2^(8w)`: the 32-bit wrap loses nothing that
      would survive the truncation to w bytes. */
  lemma AddTruncates(a: u32, b: u32, argsize: ArgSize)
    ensures DecodeTopLow(EncodeTopLow(Apply(AddOp, a, b), argsize + 1)) == (a + b) % Pow256(argsize + 1)
  {
    var w := argsize + 1;
    DecodeEncodeTopLow(Apply(AddOp, a, b), w);
    WrapThenTruncate(a + b, w);
  }

  /** swp exchanges the two top w-byte words, b ending below a. */
  lemma SwpEffect(t: Stack, argsize: ArgSize, k: nat)
    requires k + 2 * (argsize + 1) <= 255
    ensures Window(Swp(t, argsize, false), k + 2 * (argsize + 1))
         == Window(t, k + 2 * (argsize + 1))[..k] + Window(t, argsize + 1) + Window(t, 2 * (argsize + 1))[..argsize + 1]
    ensures Swp(t, argsize, false).sp == t.sp
  {
    var w := argsize + 1;
    var (b, t1) := PopTopLow(t, w);
    var (a, t2) := PopTopLow(t1, w);
    var r := PushTopLow(PushTopLow(t2, w, b), w, a);
    assert Swp(t, argsize, false) == r;
    PopTwo(t, w, k);
    PopTopLowWindow(t, w, 0);
    PushTwo(t2, w, b, a, k);
    SwapPieces(Window(t2, k), EncodeTopLow(a, w), EncodeTopLow(b, w),
               Window(t, k + 2 * w), Window(t, 2 * w), Window(t, w), Window(r, k + 2 * w));
  }

  /** Two w-byte words pushed in a row: x, then y on top. */
  lemma PushTwo(s: Stack, w: nat, x: nat, y: nat, k: nat)
    requires k + 2 * w <= 256
    ensures Window(PushTopLow(PushTopLow(s, w, x), w, y), k + 2 * w)
         == Window(s, k) + EncodeTopLow(x, w) + EncodeTopLow(y, w)
    ensures Moved(s.sp, PushTopLow(PushTopLow(s, w, x), w, y).sp, 2 * w)
  {
    var u := PushTopLow(s, w, x);
    PushTopLowWindow(s, w, x, k);
    PushTopLowWindow(u, w, y, k + w);
  }

  /** The sequence algebra behind swp. */
  lemma SwapPieces(L: seq<byte>, A: seq<byte>, B: seq<byte>, W: seq<byte>, V: seq<byte>, X: seq<byte>, R: seq<byte>)
    requires |A| == |B|
    requires W == L + A + B && V == A + B && X == B && R == L + B + A
    ensures R == W[..|L|] + X + V[..|A|]
  {
    assert W[..|L|] == L;
    assert V[..|A|] == A;
  }

  /** cmp replaces the two words by one byte: 1 when a > b, 255 when a < b,
      0 when they are equal. */
  lemma CmpEffect(t: Stack, argsize: ArgSize, a: u32, b: u32, k: nat)
    requires a < Pow256(argsize + 1) && b < Pow256(argsize + 1)
    requires k + 2 * (argsize + 1) <= 255
    requires Window(t, 2 * (argsize + 1)) == EncodeTopLow(a, argsize + 1) + EncodeTopLow(b, argsize + 1)
    ensures Window(Cmp(t, argsize, false), k + 1)
         == Window(t, k + 2 * (argsize + 1))[..k] + [if a > b then 1 else if a < b then 255 else 0]
    ensures Moved(t.sp, Cmp(t, argsize, false).sp, -1 - 2 * argsize)
  {
    var w := argsize + 1;
    var (b', t1) := PopTopLow(t, w);
    var (a', t2) := PopTopLow(t1, w);
    assert Cmp(t, argsize, false) == Push(t2, Order(a', b'));
    PopTwo(t, w, k);
    SameWords(a, b, a', b', w);
    PushWindow(t2, Order(a, b), k);
    assert Window(t, k + 2 * w)[..k] == Window(t2, k);
  }

  // ---------------------------------------------------------------------------
  // shf, dup, drp

  /** A byte and then a w-byte word popped, and any w-byte value v pushed in
      their place. */
  lemma ReplaceByteAndWord(t: Stack, w: nat, v: nat, k: nat)
    requires 1 <= w <= 4 && k + w + 1 <= 255
    ensures var (c, t1) := Pop(t);
            var (n, t2) := PopTopLow(t1, w);
            Window(PushTopLow(t2, w, v), k + w) == Window(t, k + w + 1)[..k] + EncodeTopLow(v, w) &&
            Window(t, w + 1) == EncodeTopLow(n, w) + [c] &&
            Moved(t.sp, PushTopLow(t2, w, v).sp, -1)
  {
    var (c, t1) := Pop(t);
    var (n, t2) := PopTopLow(t1, w);
    PopWindow(t, k + w);
    PopTopLowWindow(t1, w, k);
    var L, N := Window(t2, k), EncodeTopLow(n, w);
    assert Window(t, k + w + 1) == L + N + [c];
    assert (L + N + [c])[..k] == L;
    PushTopLowWindow(t2, w, v, k);
    PopWindow(t, w);
    PopTopLowWindow(t1, w, 0);
  }

  /** shf replaces the control byte and the w-byte value n beneath it by
      `(n >> (ctrl & 0xf)) << (ctrl >> 4)`, truncated to w bytes. */
  lemma ShfEffect(t: Stack, argsize: ArgSize, n: u32, ctrl: byte, k: nat)
    requires n < Pow256(argsize + 1)
    requires k + argsize + 2 <= 255
    requires Window(t, argsize + 2) == EncodeTopLow(n, argsize + 1) + [ctrl]
    ensures Window(Shf(t, argsize, false), k + argsize + 1)
         == Window(t, k + argsize + 2)[..k] + EncodeTopLow(Shift(n, ctrl), argsize + 1)
    ensures Moved(t.sp, Shf(t, argsize, false).sp, -1)
  {
    var w := argsize + 1;
    var (ctrl', t1) := Pop(t);
    var (n', t2) := PopTopLow(t1, w);
    assert Shf(t, argsize, false) == PushTopLow(t2, w, Shift(n', ctrl'));
    ReplaceByteAndWord(t, w, Shift(n', ctrl'), k);
    assert ctrl' == ctrl && n' == n by {
      assert (EncodeTopLow(n', w) + [ctrl'])[..w] == EncodeTopLow(n', w);
      assert (EncodeTopLow(n, w) + [ctrl])[..w] == EncodeTopLow(n, w);
      EncodeTopLowInjective(n, n', w);
    }
  }

  /** dup pushes a second copy of the top w-byte word. */
  lemma DupEffect(t: Stack, argsize: ArgSize, k: nat)
    requires k + 2 * (argsize + 1) <= 255
    ensures Window(Dup(t, argsize, false), k + 2 * (argsize + 1))
         == Window(t, k + argsize + 1) + Window(t, argsize + 1)
    ensures Moved(t.sp, Dup(t, argsize, false).sp, argsize + 1)
  {
    var w := argsize + 1;
    var (n, t1) := PopTopLow(t, w);
    var u := PushTopLow(t1, w, n);
    var r := PushTopLow(u, w, n);
    assert Dup(t, argsize, false) == r;
    PopTopLowWindow(t, w, k);
    var L, N := Window(t1, k), EncodeTopLow(n, w);
    assert Window(t, k + w) == L + N;
    assert Window(t, w) == N;
    PushTopLowWindow(t1, w, n, k);
    assert Window(u, k + w) == L + N;
    PushTopLowWindow(u, w, n, k + w);
    assert Window(r, k + 2 * w) == L + N + N;
  }

  /** drp removes the top w bytes and nothing else. */
  lemma DrpEffect(t: Stack, argsize: ArgSize, k: nat)
    requires k + argsize + 1 <= 255
    ensures Window(Drp(t, argsize, false), k) == Window(t, k + argsize + 1)[..k]
    ensures Moved(t.sp, Drp(t, argsize, false).sp, -1 - argsize)
  {
    var w := argsize + 1;
    var (n, t1) := PopTopLow(t, w);
    assert Drp(t, argsize, false) == t1;
    PopTopLowWindow(t, w, k);
    assert Window(t, k + w) == Window(t1, k) + EncodeTopLow(n, w);
  }

  // ---------------------------------------------------------------------------
  // A zero condition restores the operands

  /** One n-byte operand popped, a zero condition popped beneath it, the
      operand pushed back: only the condition byte is gone. */
  lemma RestoreOne(t: Stack, n: nat, k: nat)
    requires 1 <= n <= 4 && k + n + 1 <= 255
    requires At(t, n + 1) == 0
    ensures var (v, t1) := PopTopLow(t, n);
            var (c, t2) := Pop(t1);
            c == 0 &&
            Window(PushTopLow(t2, n, v), k + n) == Window(t, k + n + 1)[..k] + Window(t, n) &&
            Moved(t.sp, PushTopLow(t2, n, v).sp, -1)
  {
    var (v, t1) := PopTopLow(t, n);
    var (c, t2) := Pop(t1);
    var r := PushTopLow(t2, n, v);
    PopTopLowWindow(t, n, k + 1);
    PopWindow(t1, k);
    var L, V := Window(t2, k), EncodeTopLow(v, n);
    assert Window(t1, k + 1) == L + [c];
    assert Window(t, k + n + 1) == L + [c] + V;
    CondSplit(t, L, c, V);
    PushTopLowWindow(t2, n, v, k);
  }

  /** Two w-byte operands popped, a zero condition beneath them, both pushed
      back in their old order: only the condition byte is gone. */
  lemma RestoreTwo(t: Stack, w: nat, k: nat)
    requires 1 <= w <= 4 && k + 2 * w + 1 <= 255
    requires At(t, 2 * w + 1) == 0
    ensures var (b, t1) := PopTopLow(t, w);
            var (a, t2) := PopTopLow(t1, w);
            var (c, t3) := Pop(t2);
            var r := PushTopLow(PushTopLow(t3, w, a), w, b);
            c == 0 &&
            Window(r, k + 2 * w) == Window(t, k + 2 * w + 1)[..k] + Window(t, 2 * w) &&
            Moved(t.sp, r.sp, -1)
  {
    var (b, t1) := PopTopLow(t, w);
    var (a, t2) := PopTopLow(t1, w);
    var (c, t3) := Pop(t2);
    PopTwoCond(t, w, k);
    CondSplit(t, Window(t3, k), c, EncodeTopLow(a, w) + EncodeTopLow(b, w));
    PushTwo(t3, w, a, b, k);
  }

  /** Two w-byte words popped, then the condition byte beneath them. */
  lemma PopTwoCond(t: Stack, w: nat, k: nat)
    requires 1 <= w <= 4 && k + 2 * w + 1 <= 255
    ensures var (b, t1) := PopTopLow(t, w);
            var (a, t2) := PopTopLow(t1, w);
            var (c, t3) := Pop(t2);
            Window(t, k + 2 * w + 1) == Window(t3, k) + [c] + (EncodeTopLow(a, w) + EncodeTopLow(b, w)) &&
            Moved(t.sp, t3.sp, -2 * w - 1)
  {
    var (b, t1) := PopTopLow(t, w);
    var (a, t2) := PopTopLow(t1, w);
    var (c, t3) := Pop(t2);
    PopTwo(t, w, k + 1);
    PopWindow(t2, k);
    var L, A, B := Window(t3, k), EncodeTopLow(a, w), EncodeTopLow(b, w);
    assert Window(t2, k + 1) == L + [c];
    assert Window(t, k + 2 * w + 1) == L + [c] + A + B;
  }

  /** After an instruction r, the stack t has lost exactly the byte n deep
      (the condition under n operand bytes): the n top bytes and the k bytes
      beneath the condition are where they were. */
  ghost predicate DropsCond(t: Stack, r: Stack, n: nat, k: nat)
    requires k + n + 1 <= 256
  {
    Window(r, k + n) == Window(t, k + n + 1)[..k] + Window(t, n) &&
    Moved(t.sp, r.sp, -1)
  }

  lemma ArithSkip(t: Stack, op: Combine, argsize: ArgSize, k: nat)
    requires k + 2 * (argsize + 1) + 1 <= 255
    requires At(t, 2 * (argsize + 1) + 1) == 0
    ensures DropsCond(t, Arith(t, op, argsize, true), 2 * (argsize + 1), k)
  {
    var w := argsize + 1;
    RestoreTwo(t, w, k);
    var (b, t1) := PopTopLow(t, w);
    var (a, t2) := PopTopLow(t1, w);
    var (c, t3) := Pop(t2);
    assert Arith(t, op, argsize, true) == PushTopLow(PushTopLow(t3, w, a), w, b);
  }

  lemma SwpSkip(t: Stack, argsize: ArgSize, k: nat)
    requires k + 2 * (argsize + 1) + 1 <= 255
    requires At(t, 2 * (argsize + 1) + 1) == 0
    ensures DropsCond(t, Swp(t, argsize, true), 2 * (argsize + 1), k)
  {
    var w := argsize + 1;
    RestoreTwo(t, w, k);
    var (b, t1) := PopTopLow(t, w);
    var (a, t2) := PopTopLow(t1, w);
    var (c, t3) := Pop(t2);
    assert Swp(t, argsize, true) == PushTopLow(PushTopLow(t3, w, a), w, b);
  }

  lemma CmpSkip(t: Stack, argsize: ArgSize, k: nat)
    requires k + 2 * (argsize + 1) + 1 <= 255
    requires At(t, 2 * (argsize + 1) + 1) == 0
    ensures DropsCond(t, Cmp(t, argsize, true), 2 * (argsize + 1), k)
  {
    var w := argsize + 1;
    RestoreTwo(t, w, k);
    var (b, t1) := PopTopLow(t, w);
    var (a, t2) := PopTopLow(t1, w);
    var (c, t3) := Pop(t2);
    assert Cmp(t, argsize, true) == PushTopLow(PushTopLow(t3, w, a), w, b);
  }

  /** A byte popped, a condition dropped beneath it, the byte pushed back:
      only the condition is gone. */
  lemma PopDropPush(t: Stack, u: Stack, n: nat, k: nat)
    requires k + n + 2 <= 255
    requires DropsCond(Pop(t).1, u, n, k)
    ensures DropsCond(t, Push(u, Pop(t).0), n + 1, k)
  {
    var t1 := Pop(t).1;
    PopWindow(t, k + n + 1);
    PopWindow(t, n);
    PushWindow(u, Pop(t).0, k + n);
    assert (Window(t1, k + n + 1) + [Pop(t).0])[..k] == Window(t1, k + n + 1)[..k];
  }

  lemma ShfSkip(t: Stack, argsize: ArgSize, k: nat)
    requires k + argsize + 3 <= 255
    requires At(t, argsize + 3) == 0
    ensures DropsCond(t, Shf(t, argsize, true), argsize + 2, k)
  {
    var w := argsize + 1;
    var (ctrl, t1) := Pop(t);
    var (n, t2) := PopTopLow(t1, w);
    var (c, t3) := Pop(t2);
    var u := PushTopLow(t3, w, n);
    assert At(t1, w + 1) == 0 by {
      PopWindow(t, k + w + 1);
      assert Window(t, k + w + 2)[k] == At(t, w + 2);
      assert Window(t1, k + w + 1)[k] == At(t1, w + 1);
    }
    RestoreOne(t1, w, k);
    assert DropsCond(t1, u, w, k);
    PopDropPush(t, u, w, k);
    assert Shf(t, argsize, true) == Push(u, ctrl);
  }

  lemma DupSkip(t: Stack, argsize: ArgSize, k: nat)
    requires k + argsize + 2 <= 255
    requires At(t, argsize + 2) == 0
    ensures DropsCond(t, Dup(t, argsize, true), argsize + 1, k)
  {
    var w := argsize + 1;
    RestoreOne(t, w, k);
    var (n, t1) := PopTopLow(t, w);
    var (c, t2) := Pop(t1);
    assert Dup(t, argsize, true) == PushTopLow(t2, w, n);
  }

  lemma DrpSkip(t: Stack, argsize: ArgSize, k: nat)
    requires k + argsize + 2 <= 255
    requires At(t, argsize + 2) == 0
    ensures DropsCond(t, Drp(t, argsize, true), argsize + 1, k)
  {
    var w := argsize + 1;
    RestoreOne(t, w, k);
    var (n, t1) := PopTopLow(t, w);
    var (c, t2) := Pop(t1);
    assert Drp(t, argsize, true) == PushTopLow(t2, w, n);
  }

  lemma NopSkip(t: Stack, k: nat)
    requires k + 1 <= 255
    ensures DropsCond(t, Nop(t, true), 0, k)
  {
    PopWindow(t, k);
  }

  /** An n-byte operand popped from the data stack, a zero condition beneath
      it, the operand pushed back: the machine-level form of `RestoreOne`. */
  lemma RestoreWord(m: Machine, n: nat, k: nat)
    requires 1 <= n <= 4 && k + n + 1 <= 255
    requires At(m.dst, n + 1) == 0
    ensures var (v, s1) := PopTopLow(m.dst, n);
            var (c, s2) := Pop(s1);
            c == 0 && DropsCond(m.dst, PushTopLow(s2, n, v), n, k)
  {
    RestoreOne(m.dst, n, k);
  }

  lemma StrSkip(m: Machine, argsize: ArgSize, k: nat)
    requires k + WordSize + 1 <= 255
    requires At(m.dst, WordSize + 1) == 0
    ensures AddressDefined(m, argsize, true)
    ensures var r := Str(m, argsize, true);
            DropsCond(m.dst, r.dst, WordSize, k) && r == m.(dst := r.dst)
  {
    RestoreWord(m, WordSize, k);
  }

  lemma LodSkip(m: Machine, argsize: ArgSize, k: nat)
    requires k + WordSize + 1 <= 255
    requires At(m.dst, WordSize + 1) == 0
    ensures AddressDefined(m, argsize, true)
    ensures var r := Lod(m, argsize, true);
            DropsCond(m.dst, r.dst, WordSize, k) && r == m.(dst := r.dst)
  {
    RestoreWord(m, WordSize, k);
  }

  lemma PshSkip(m: Machine, argsize: ArgSize, k: nat)
    requires k + argsize + 2 <= 255
    requires At(m.dst, argsize + 2) == 0
    ensures var r := Psh(m, argsize, true);
            DropsCond(m.dst, r.dst, argsize + 1, k) && r == m.(dst := r.dst)
  {
    RestoreWord(m, argsize + 1, k);
  }

  lemma JmpSkip(m: Machine, argsize: ArgSize, k: nat)
    requires k + argsize + 2 <= 255
    requires At(m.dst, argsize + 2) == 0
    ensures var r := Jmp(m, argsize, true);
            DropsCond(m.dst, r.dst, argsize + 1, k) && r == m.(dst := r.dst)
  {
    RestoreWord(m, argsize + 1, k);
  }

  /** A skipped pop moves the value back onto the return stack. */
  lemma PopRSkip(m: Machine, argsize: ArgSize, k: nat)
    requires k + argsize + 1 <= 255
    requires At(m.dst, 1) == 0
    ensures var r := PopR(m, argsize, true);
            DropsCond(m.dst, r.dst, 0, k) &&
            Window(r.rst, k + argsize + 1) == Window(m.rst, k + argsize + 1) &&
            r.rst.sp == m.rst.sp &&
            r == m.(dst := r.dst, rst := r.rst)
  {
    var w := argsize + 1;
    var (n, r1) := PopTopLow(m.rst, w);
    PopWindow(m.dst, k);
    assert PopR(m, argsize, true) == m.(dst := Pop(m.dst).1, rst := PushTopLow(r1, w, n));
    PopTopLowWindow(m.rst, w, k);
    PushTopLowWindow(r1, w, n, k);
  }

  /** A skipped lit still consumes its w immediate bytes. */
  lemma LitSkip(m: Machine, argsize: ArgSize, k: nat)
    requires LitDefined(m, argsize) && k + 1 <= 255
    requires At(m.dst, 1) == 0
    ensures var r := Lit(m, argsize, true);
            DropsCond(m.dst, r.dst, 0, k) && r == m.(dst := r.dst, pc := m.pc + argsize + 1)
  {
    PopWindow(m.dst, k);
  }

  lemma IntSkip(m: Machine, argsize: ArgSize, k: nat)
    requires k + argsize + 2 <= 255
    requires At(m.dst, argsize + 2) == 0
    ensures var r := Int(m, argsize, true);
            DropsCond(m.dst, r.dst, argsize + 1, k) && r == m.(dst := r.dst)
  {
    var w := argsize + 1;
    var t := m.dst;
    var (bytes, s1) := PopAll(t, w);
    var (c, s2) := Pop(s1);
    PopAllWindow(t, w, k + 1);
    PopWindow(s1, k);
    var L := Window(s2, k);
    assert Window(s1, k + 1) == L + [c];
    assert Window(t, k + w + 1) == L + [c] + bytes;
    CondSplit(t, L, c, bytes);
    assert Int(m, argsize, true) == m.(dst := PushAll(s2, bytes));
    PushAllWindow(s2, bytes, k);
  }

  // ---------------------------------------------------------------------------
  // The skip flag, for every opcode

  /** How many bytes an opcode pops above the condition byte: two words for
      add, and, xor, swp and cmp; a word and the control byte for shf; the
      3-byte address for str and lod; one word for dup, drp, psh, jmp and int;
      nothing for pop (its value is on the return stack), lit and nop. */
  function Operands(opcode: Opcode, argsize: ArgSize): (n: nat)
    ensures n <= 8
  {
    match opcode
    case 0 | 1 | 2 | 4 | 5 => 2 * (argsize + 1)
    case 3 => argsize + 2
    case 6 | 7 => WordSize
    case 8 | 9 | 10 | 12 | 14 => argsize + 1
    case _ => 0
  }

  /** With the skip flag set and a zero condition byte, every opcode leaves
      the data stack as it was minus the condition byte, leaves RAM, the
      device registry and the status alone and keeps the return stack; only
      lit still moves the pc past its immediate bytes. */
  lemma SkipZeroKeeps(m: Machine, opcode: Opcode, argsize: ArgSize, k: nat)
    requires k <= 246
    requires opcode == 13 ==> LitDefined(m, argsize)
    requires At(m.dst, Operands(opcode, argsize) + 1) == 0
    ensures HandleDefined(m, opcode, argsize, true)
    ensures var r := Handle(m, opcode, argsize, true);
            DropsCond(m.dst, r.dst, Operands(opcode, argsize), k) &&
            Window(r.rst, k + argsize + 1) == Window(m.rst, k + argsize + 1) &&
            r.rst.sp == m.rst.sp &&
            r.pc == (if opcode == 13 then m.pc + argsize + 1 else m.pc) &&
            r == m.(dst := r.dst, rst := r.rst, pc := r.pc)
  {
    match opcode
    case 0 => ArithSkip(m.dst, AddOp, argsize, k);
    case 1 => ArithSkip(m.dst, AndOp, argsize, k);
    case 2 => ArithSkip(m.dst, XorOp, argsize, k);
    case 3 => ShfSkip(m.dst, argsize, k);
    case 4 => SwpSkip(m.dst, argsize, k);
    case 5 => CmpSkip(m.dst, argsize, k);
    case 6 => StrSkip(m, argsize, k);
    case 7 => LodSkip(m, argsize, k);
    case 8 => DupSkip(m.dst, argsize, k);
    case 9 => DrpSkip(m.dst, argsize, k);
    case 10 => PshSkip(m, argsize, k);
    case 11 => PopRSkip(m, argsize, k);
    case 12 => JmpSkip(m, argsize, k);
    case 13 => LitSkip(m, argsize, k);
    case 14 => IntSkip(m, argsize, k);
    case 15 => NopSkip(m.dst, k);
  }

  // ---------------------------------------------------------------------------
  // A non-zero condition runs the opcode

  /** An n-byte word popped, then the condition byte beneath it: the word is
      the top n bytes, the condition the byte under them, and the k bytes
      under the condition end on top. */
  lemma PopWordCond(t: Stack, n: nat, k: nat)
    requires 1 <= n <= 4 && k + n + 1 <= 255
    ensures var (v, t1) := PopTopLow(t, n);
            var (c, t2) := Pop(t1);
            EncodeTopLow(v, n) == Window(t, n) && c == At(t, n + 1) &&
            Window(t2, k) == Window(t, k + n + 1)[..k] &&
            Moved(t.sp, t2.sp, -1 - n)
  {
    var (v, t1) := PopTopLow(t, n);
    var (c, t2) := Pop(t1);
    PopTopLowWindow(t, n, k + 1);
    PopWindow(t1, k);
    var L, V := Window(t2, k), EncodeTopLow(v, n);
    assert Window(t, k + n + 1) == L + [c] + V;
    CondSplit(t, L, c, V);
  }

  /** Two w-byte words popped, then the condition byte beneath them. */
  lemma PopTwoWordsCond(t: Stack, w: nat, k: nat)
    requires 1 <= w <= 4 && k + 2 * w + 1 <= 255
    ensures var (b, t1) := PopTopLow(t, w);
            var (a, t2) := PopTopLow(t1, w);
            var (c, t3) := Pop(t2);
            EncodeTopLow(a, w) + EncodeTopLow(b, w) == Window(t, 2 * w) && c == At(t, 2 * w + 1) &&
            Window(t3, k) == Window(t, k + 2 * w + 1)[..k] &&
            Moved(t.sp, t3.sp, -2 * w - 1)
  {
    var (b, t1) := PopTopLow(t, w);
    var (a, t2) := PopTopLow(t1, w);
    var (c, t3) := Pop(t2);
    PopTwoCond(t, w, k);
    CondSplit(t, Window(t3, k), c, EncodeTopLow(a, w) + EncodeTopLow(b, w));
  }

  /** Two w-byte words and the condition beneath them popped, and any w-byte
      value v pushed in their place. */
  lemma CondReplaceTwo(t: Stack, w: nat, v: nat, k: nat)
    requires 1 <= w <= 4 && k + 2 * w + 1 <= 255
    ensures var t3 := Pop(PopTopLow(PopTopLow(t, w).1, w).1).1;
            Window(PushTopLow(t3, w, v), k + w) == Window(t, k + 2 * w + 1)[..k] + EncodeTopLow(v, w) &&
            Moved(t.sp, PushTopLow(t3, w, v).sp, -1 - w)
  {
    var t3 := Pop(PopTopLow(PopTopLow(t, w).1, w).1).1;
    PopTwoWordsCond(t, w, k);
    PushTopLowWindow(t3, w, v, k);
  }

  /** The words a and b on top, and the condition beneath them, are what the
      pops of a two-operand opcode return. */
  lemma PopTwoValuesCond(t: Stack, w: nat, a: nat, b: nat)
    requires 1 <= w <= 4 && 2 * w + 1 <= 255
    requires a < Pow256(w) && b < Pow256(w)
    requires Window(t, 2 * w) == EncodeTopLow(a, w) + EncodeTopLow(b, w)
    ensures var (b', t1) := PopTopLow(t, w);
            var (a', t2) := PopTopLow(t1, w);
            a' == a && b' == b && Pop(t2).0 == At(t, 2 * w + 1)
  {
    var (b', t1) := PopTopLow(t, w);
    var (a', t2) := PopTopLow(t1, w);
    PopTwoWordsCond(t, w, 0);
    SameWords(a, b, a', b', w);
  }

  /** `Arith` with a non-zero condition, its pops named. */
  lemma ArithRunsShape(t: Stack, op: Combine, argsize: ArgSize, a: u32, b: u32)
    requires var (b', t1) := PopTopLow(t, argsize + 1);
             var (a', t2) := PopTopLow(t1, argsize + 1);
             a' == a && b' == b && Pop(t2).0 != 0
    ensures Arith(t, op, argsize, true)
         == PushTopLow(Pop(PopTopLow(PopTopLow(t, argsize + 1).1, argsize + 1).1).1, argsize + 1, Apply(op, a, b))
  {
  }

  /** With the skip flag and a non-zero condition beneath a and b, add, and
      and xor do what `ArithEffect` says they do without the flag, on the
      stack without the condition byte. */
  lemma ArithRuns(t: Stack, op: Combine, argsize: ArgSize, a: u32, b: u32, k: nat)
    requires a < Pow256(argsize + 1) && b < Pow256(argsize + 1)
    requires k + 2 * (argsize + 1) + 1 <= 255
    requires Window(t, 2 * (argsize + 1)) == EncodeTopLow(a, argsize + 1) + EncodeTopLow(b, argsize + 1)
    requires At(t, 2 * (argsize + 1) + 1) != 0
    ensures Window(Arith(t, op, argsize, true), k + argsize + 1)
         == Window(t, k + 2 * (argsize + 1) + 1)[..k] + EncodeTopLow(Apply(op, a, b), argsize + 1)
    ensures Moved(t.sp, Arith(t, op, argsize, true).sp, -2 - argsize)
  {
    PopTwoValuesCond(t, argsize + 1, a, b);
    ArithRunsShape(t, op, argsize, a, b);
    CondReplaceTwo(t, argsize + 1, Apply(op, a, b), k);
  }

  /** With a non-zero condition swp exchanges the two words above it, as
      `SwpEffect`, and the condition byte is gone. */
  lemma SwpRuns(t: Stack, argsize: ArgSize, k: nat)
    requires k + 2 * (argsize + 1) + 1 <= 255
    requires At(t, 2 * (argsize + 1) + 1) != 0
    ensures Window(Swp(t, argsize, true), k + 2 * (argsize + 1))
         == Window(t, k + 2 * (argsize + 1) + 1)[..k] + Window(t, argsize + 1) + Window(t, 2 * (argsize + 1))[..argsize + 1]
    ensures Moved(t.sp, Swp(t, argsize, true).sp, -1)
  {
    var w := argsize + 1;
    var (b, t1) := PopTopLow(t, w);
    var (a, t2) := PopTopLow(t1, w);
    var (c, t3) := Pop(t2);
    PopTwoWordsCond(t, w, k);
    PopTopLowWindow(t, w, 0);
    assert Swp(t, argsize, true) == PushTopLow(PushTopLow(t3, w, b), w, a);
    PushTwo(t3, w, b, a, k);
    assert (EncodeTopLow(a, w) + EncodeTopLow(b, w))[..w] == EncodeTopLow(a, w);
  }

  /** With a non-zero condition cmp replaces the two words and the condition
      by the one byte of `CmpEffect`. */
  lemma CmpRuns(t: Stack, argsize: ArgSize, a: u32, b: u32, k: nat)
    requires a < Pow256(argsize + 1) && b < Pow256(argsize + 1)
    requires k + 2 * (argsize + 1) + 1 <= 255
    requires Window(t, 2 * (argsize + 1)) == EncodeTopLow(a, argsize + 1) + EncodeTopLow(b, argsize + 1)
    requires At(t, 2 * (argsize + 1) + 1) != 0
    ensures Window(Cmp(t, argsize, true), k + 1)
         == Window(t, k + 2 * (argsize + 1) + 1)[..k] + [if a > b then 1 else if a < b then 255 else 0]
    ensures Moved(t.sp, Cmp(t, argsize, true).sp, -2 - 2 * argsize)
  {
    var w := argsize + 1;
    var (b', t1) := PopTopLow(t, w);
    var (a', t2) := PopTopLow(t1, w);
    var (c, t3) := Pop(t2);
    PopTwoValuesCond(t, w, a, b);
    PopTwoWordsCond(t, w, k);
    assert Cmp(t, argsize, true) == Push(t3, Order(a, b));
    PushWindow(t3, Order(a, b), k);
  }

  /** With a non-zero condition beneath the value, shf replaces control byte,
      value and condition by the shifted value of `ShfEffect`. */
  lemma ShfRuns(t: Stack, argsize: ArgSize, n: u32, ctrl: byte, k: nat)
    requires n < Pow256(argsize + 1)
    requires k + argsize + 3 <= 255
    requires Window(t, argsize + 2) == EncodeTopLow(n, argsize + 1) + [ctrl]
    requires At(t, argsize + 3) != 0
    ensures Window(Shf(t, argsize, true), k + argsize + 1)
         == Window(t, k + argsize + 3)[..k] + EncodeTopLow(Shift(n, ctrl), argsize + 1)
    ensures Moved(t.sp, Shf(t, argsize, true).sp, -2)
  {
    var w := argsize + 1;
    var (ctrl', t1) := Pop(t);
    var (n', t2) := PopTopLow(t1, w);
    var (c, t3) := Pop(t2);
    PopWindow(t, w + 1);
    assert Window(t, w + 2)[0] == At(t, w + 2);
    assert Window(t1, w + 1)[0] == At(t1, w + 1);
    PopWordCond(t1, w, k);
    PopWindow(t, w);
    assert ctrl' == ctrl && n' == n by {
      assert (EncodeTopLow(n', w) + [ctrl'])[..w] == EncodeTopLow(n', w);
      assert (EncodeTopLow(n, w) + [ctrl])[..w] == EncodeTopLow(n, w);
      EncodeTopLowInjective(n, n', w);
    }
    PopWindow(t, k + w + 1);
    assert (Window(t1, k + w + 1) + [ctrl'])[..k + w + 1] == Window(t1, k + w + 1);
    assert Shf(t, argsize, true) == PushTopLow(t3, w, Shift(n, ctrl));
    PushTopLowWindow(t3, w, Shift(n, ctrl), k);
  }

  /** With a non-zero condition beneath the word, dup leaves two copies of it
      where word and condition were. */
  lemma DupRuns(t: Stack, argsize: ArgSize, k: nat)
    requires k + 2 * (argsize + 1) <= 255
    requires At(t, argsize + 2) != 0
    ensures Window(Dup(t, argsize, true), k + 2 * (argsize + 1))
         == Window(t, k + argsize + 2)[..k] + Window(t, argsize + 1) + Window(t, argsize + 1)
    ensures Moved(t.sp, Dup(t, argsize, true).sp, argsize)
  {
    var w := argsize + 1;
    var (n, t1) := PopTopLow(t, w);
    var (c, t2) := Pop(t1);
    PopWordCond(t, w, k);
    assert Dup(t, argsize, true) == PushTopLow(PushTopLow(t2, w, n), w, n);
    PushTwo(t2, w, n, n, k);
  }

  /** With a non-zero condition beneath the word, drp removes word and
      condition and nothing else. */
  lemma DrpRuns(t: Stack, argsize: ArgSize, k: nat)
    requires k + argsize + 2 <= 255
    requires At(t, argsize + 2) != 0
    ensures Window(Drp(t, argsize, true), k) == Window(t, k + argsize + 2)[..k]
    ensures Moved(t.sp, Drp(t, argsize, true).sp, -2 - argsize)
  {
    PopWordCond(t, argsize + 1, k);
  }

  /** A window read as `below + x + [c] + y`, with `top` the part above
      `below`. */
  lemma CondPieces(below: seq<byte>, x: seq<byte>, c: byte, y: seq<byte>, whole: seq<byte>, top: seq<byte>)
    requires whole == below + x + [c] + y && top == whole[|below|..]
    ensures whole[..|below|] == below && top[..|x|] == x && top[|x|] == c
  {
    assert top == x + [c] + y;
  }

  /** A window cut in two below and x, read against the window that starts
      above below. */
  lemma PrefixPieces(below: seq<byte>, x: seq<byte>, whole: seq<byte>, top: seq<byte>)
    requires |below| + |x| <= |whole| && whole[..|below| + |x|] == below + x
    requires top == whole[|below|..]
    ensures whole[..|below|] == below && top[..|x|] == x
  {
    assert whole[..|below|] == (below + x)[..|below|];
    assert top[..|x|] == (below + x)[|below|..];
  }

  /** The stack side of a str that runs after a condition: the address comes
      off, then the condition, then the w bytes beneath it. */
  lemma StrRunsPops(t: Stack, addr: nat, w: nat, k: nat)
    requires addr < MemSize && 1 <= w <= 4 && k + w + WordSize + 1 <= 255
    requires Window(t, WordSize) == EncodeTopLow(addr, WordSize)
    ensures PopTopLow(t, WordSize).0 == addr
    ensures var (c, s2) := Pop(PopTopLow(t, WordSize).1);
            c == At(t, WordSize + 1) &&
            PopAll(s2, w).0 == Window(t, w + WordSize + 1)[..w] &&
            Window(PopAll(s2, w).1, k) == Window(t, k + w + WordSize + 1)[..k] &&
            Moved(t.sp, PopAll(s2, w).1.sp, -4 - w)
  {
    var s2 := Pop(PopTopLow(t, WordSize).1).1;
    var (bytes, s3) := PopAll(s2, w);
    AddressOnTop(t, addr, 0);
    PopWordCond(t, WordSize, k + w);
    PopAllWindow(s2, w, k);
    WindowSuffix(t, w + WordSize + 1, k + w + WordSize + 1);
    PrefixPieces(Window(s3, k), bytes, Window(t, k + w + WordSize + 1), Window(t, w + WordSize + 1));
  }

  /** `Str` with a non-zero condition, its pops named. */
  lemma StrRunsShape(m: Machine, argsize: ArgSize)
    requires var (addr, s1) := PopTopLow(m.dst, WordSize);
             Pop(s1).0 != 0 && addr + argsize + 1 <= MemSize
    ensures AddressDefined(m, argsize, true)
    ensures var (addr, s1) := PopTopLow(m.dst, WordSize);
            var s2 := Pop(s1).1;
            Str(m, argsize, true) == m.(dst := PopAll(s2, argsize + 1).1,
                                        ram := WriteRam(m.ram, addr, PopAll(s2, argsize + 1).0))
  {
  }

  /** With a non-zero condition beneath the address, str stores the w bytes
      beneath the condition as `StrEffect` does; address, condition and bytes
      leave the stack. */
  lemma StrRuns(m: Machine, argsize: ArgSize, addr: nat, k: nat)
    requires addr + argsize + 1 <= MemSize
    requires Window(m.dst, WordSize) == EncodeTopLow(addr, WordSize)
    requires At(m.dst, WordSize + 1) != 0
    requires k + argsize + 1 + WordSize + 1 <= 255
    ensures AddressDefined(m, argsize, true)
    ensures var r := Str(m, argsize, true);
            r.ram == WriteRam(m.ram, addr, Window(m.dst, argsize + 1 + WordSize + 1)[..argsize + 1]) &&
            Window(r.dst, k) == Window(m.dst, k + argsize + 1 + WordSize + 1)[..k] &&
            Moved(m.dst.sp, r.dst.sp, -5 - argsize) &&
            r == m.(dst := r.dst, ram := r.ram)
  {
    StrRunsPops(m.dst, addr, argsize + 1, k);
    StrRunsShape(m, argsize);
  }

  /** With a non-zero condition beneath the address, lod replaces address and
      condition by the w RAM bytes of `LodEffect`. */
  lemma LodRuns(m: Machine, argsize: ArgSize, addr: nat, k: nat)
    requires addr + argsize + 1 <= MemSize
    requires Window(m.dst, WordSize) == EncodeTopLow(addr, WordSize)
    requires At(m.dst, WordSize + 1) != 0
    requires k + WordSize + 1 <= 255 && k + argsize + 1 <= 256
    ensures AddressDefined(m, argsize, true)
    ensures var r := Lod(m, argsize, true);
            Window(r.dst, k + argsize + 1) == Window(m.dst, k + WordSize + 1)[..k] + m.ram[addr..addr + argsize + 1] &&
            Moved(m.dst.sp, r.dst.sp, argsize - 3) &&
            r == m.(dst := r.dst)
  {
    var w := argsize + 1;
    var s1 := PopTopLow(m.dst, WordSize).1;
    var (c, s2) := Pop(s1);
    AddressOnTop(m.dst, addr, k + 1);
    PopWindow(s1, k);
    assert Window(m.dst, k + WordSize + 1) == Window(s2, k) + [c] + EncodeTopLow(addr, WordSize);
    CondSplit(m.dst, Window(s2, k), c, EncodeTopLow(addr, WordSize));
    var bytes := m.ram[addr..addr + w];
    assert Lod(m, argsize, true) == m.(dst := PushAll(s2, bytes));
    PushAllWindow(s2, bytes, k);
  }

  /** With a non-zero condition beneath the word, psh moves the word to the
      return stack as `PshEffect` does, and the condition is gone. */
  lemma PshRuns(m: Machine, argsize: ArgSize, k: nat, kr: nat)
    requires k + argsize + 2 <= 255 && kr + argsize + 1 <= 256
    requires At(m.dst, argsize + 2) != 0
    ensures var r := Psh(m, argsize, true);
            Window(r.rst, kr + argsize + 1) == Window(m.rst, kr) + Window(m.dst, argsize + 1) &&
            Window(r.dst, k) == Window(m.dst, k + argsize + 2)[..k] &&
            Moved(m.dst.sp, r.dst.sp, -2 - argsize) &&
            Moved(m.rst.sp, r.rst.sp, argsize + 1) &&
            r == m.(dst := r.dst, rst := r.rst)
  {
    var w := argsize + 1;
    var (n, s1) := PopTopLow(m.dst, w);
    var (c, s2) := Pop(s1);
    PopWordCond(m.dst, w, k);
    PushTopLowWindow(m.rst, w, n, kr);
    assert Psh(m, argsize, true) == m.(dst := s2, rst := PushTopLow(m.rst, w, n));
  }

  /** With a non-zero condition on top of the data stack, pop moves the word
      from the return stack as `PopREffect` does, above the stack without the
      condition. */
  lemma PopRRuns(m: Machine, argsize: ArgSize, k: nat, kr: nat)
    requires kr + argsize + 1 <= 255 && k + argsize + 1 <= 255
    requires At(m.dst, 1) != 0
    ensures var r := PopR(m, argsize, true);
            Window(r.dst, k + argsize + 1) == Window(m.dst, k + 1)[..k] + Window(m.rst, argsize + 1) &&
            Window(r.rst, kr) == Window(m.rst, kr + argsize + 1)[..kr] &&
            Moved(m.rst.sp, r.rst.sp, -1 - argsize) &&
            Moved(m.dst.sp, r.dst.sp, argsize) &&
            r == m.(dst := r.dst, rst := r.rst)
  {
    var w := argsize + 1;
    var (c, s1) := Pop(m.dst);
    PopWindow(m.dst, k);
    assert (Window(s1, k) + [c])[..k] == Window(s1, k);
    MoveWord(m.rst, s1, w, kr, k);
    var (n, r1) := PopTopLow(m.rst, w);
    assert PopR(m, argsize, true) == m.(dst := PushTopLow(s1, w, n), rst := r1);
  }

  /** With a non-zero condition beneath the word, jmp jumps as `JmpEffect`
      says, and word and condition leave the stack. */
  lemma JmpRuns(m: Machine, argsize: ArgSize, k: nat)
    requires k + argsize + 2 <= 255
    requires At(m.dst, argsize + 2) != 0
    ensures var r := Jmp(m, argsize, true);
            r.pc == DecodeTopLow(Window(m.dst, argsize + 1)) &&
            Window(r.dst, k) == Window(m.dst, k + argsize + 2)[..k] &&
            Moved(m.dst.sp, r.dst.sp, -2 - argsize) &&
            r == m.(dst := r.dst, pc := r.pc)
  {
    var w := argsize + 1;
    PopWordCond(m.dst, w, k);
    PopTopLowValue(m.dst, w);
  }

  /** With a non-zero condition on top, lit pushes its immediates as
      `LitEffect` says, in place of the condition. */
  lemma LitRuns(m: Machine, argsize: ArgSize, k: nat)
    requires LitDefined(m, argsize) && k + argsize + 1 <= 255
    requires At(m.dst, 1) != 0
    ensures var r := Lit(m, argsize, true);
            Window(r.dst, k + argsize + 1) == Window(m.dst, k + 1)[..k] + m.rom[m.pc..m.pc + argsize + 1] &&
            Moved(m.dst.sp, r.dst.sp, argsize) &&
            r == m.(dst := r.dst, pc := m.pc + argsize + 1)
  {
    var s1 := Pop(m.dst).1;
    PopWindow(m.dst, k);
    assert (Window(s1, k) + [Pop(m.dst).0])[..k] == Window(s1, k);
    PushAllWindow(s1, m.rom[m.pc..m.pc + argsize + 1], k);
  }

  /** The ports and the condition beneath them popped: the ports are the top
      w bytes, the condition the byte under them. */
  lemma PopPortsCond(t: Stack, w: nat, k: nat)
    requires k + w + 1 <= 255
    ensures var (bytes, s1) := PopAll(t, w);
            var (c, s2) := Pop(s1);
            bytes == Window(t, w) && c == At(t, w + 1) &&
            Window(s2, k) == Window(t, k + w + 1)[..k] &&
            Moved(t.sp, s2.sp, -1 - w)
  {
    var (bytes, s1) := PopAll(t, w);
    var (c, s2) := Pop(s1);
    PopAllWindow(t, w, k + 1);
    PopWindow(s1, k);
    var L := Window(s2, k);
    assert Window(s1, k + 1) == L + [c];
    assert Window(t, k + w + 1) == L + [c] + bytes;
    CondSplit(t, L, c, bytes);
  }

  /** With a non-zero condition beneath the w ports, int triggers them in pop
      order as `IntEffect` says, on the stack without ports and condition. */
  lemma IntRuns(m: Machine, argsize: ArgSize, k: nat)
    requires k + argsize + 2 <= 255
    requires At(m.dst, argsize + 2) != 0
    ensures var s2 := Pop(PopAll(m.dst, argsize + 1).1).1;
            Int(m, argsize, true) == TriggerAll(m.(dst := s2), Reverse(Window(m.dst, argsize + 1))) &&
            Window(s2, k) == Window(m.dst, k + argsize + 2)[..k] &&
            Moved(m.dst.sp, s2.sp, -2 - argsize)
  {
    var w := argsize + 1;
    var (bytes, s1) := PopAll(m.dst, w);
    PopPortsCond(m.dst, w, k);
    assert bytes == Window(m.dst, w);
  }

  // ---------------------------------------------------------------------------
  // str and lod

  /** A window read as `below + x + y`. */
  lemma ThreePieces(below: seq<byte>, x: seq<byte>, y: seq<byte>, mid: seq<byte>, whole: seq<byte>, top: seq<byte>)
    requires mid == below + x && whole == mid + y && top == whole[|below|..]
    ensures top[..|x|] == x && whole[..|below|] == below && top == x + y
  {
    assert whole[|below|..] == x + y;
  }

  /** The address on top is the one the caller named. */
  lemma AddressOnTop(t: Stack, addr: nat, k: nat)
    requires addr < MemSize && k + WordSize <= 255
    requires Window(t, WordSize) == EncodeTopLow(addr, WordSize)
    ensures PopTopLow(t, WordSize).0 == addr
    ensures Window(t, k + WordSize) == Window(PopTopLow(t, WordSize).1, k) + EncodeTopLow(addr, WordSize)
    ensures Moved(t.sp, PopTopLow(t, WordSize).1.sp, -3)
  {
    PopTopLowWindow(t, WordSize, k);
    assert Pow256(3) == MemSize;
    EncodeTopLowInjective(addr, PopTopLow(t, WordSize).0, WordSize);
  }

  /** The stack side of str: the address comes off, then the w bytes beneath it. */
  lemma StrPops(t: Stack, addr: nat, w: nat, k: nat)
    requires addr < MemSize && 1 <= w <= 4 && k + w + WordSize <= 255
    requires Window(t, WordSize) == EncodeTopLow(addr, WordSize)
    ensures PopTopLow(t, WordSize).0 == addr
    ensures var s1 := PopTopLow(t, WordSize).1;
            PopAll(s1, w).0 == Window(t, w + WordSize)[..w] &&
            PopAll(s1, w).0[w - 1] == At(t, WordSize + 1) &&
            Window(PopAll(s1, w).1, k) == Window(t, k + w + WordSize)[..k] &&
            Moved(t.sp, PopAll(s1, w).1.sp, -3 - w)
  {
    var s1 := PopTopLow(t, WordSize).1;
    AddressOnTop(t, addr, k + w);
    PopAllWindow(s1, w, k);
    WindowSuffix(t, w + WordSize, k + w + WordSize);
    ThreePieces(Window(PopAll(s1, w).1, k), PopAll(s1, w).0, EncodeTopLow(addr, WordSize), Window(s1, k + w),
                Window(t, k + w + WordSize), Window(t, w + WordSize));
    assert Window(t, w + WordSize)[w - 1] == At(t, WordSize + 1);
  }

  /** str with the address addr on top writes the w bytes beneath it to
      `addr .. addr + w - 1`, the byte nearest the top at the highest address,
      and removes address and bytes from the stack. */
  lemma StrEffect(m: Machine, argsize: ArgSize, addr: nat, k: nat)
    requires addr + argsize + 1 <= MemSize
    requires Window(m.dst, WordSize) == EncodeTopLow(addr, WordSize)
    requires k + argsize + 1 + WordSize <= 255
    ensures AddressDefined(m, argsize, false)
    ensures var r := Str(m, argsize, false);
            r.ram == WriteRam(m.ram, addr, Window(m.dst, argsize + 1 + WordSize)[..argsize + 1]) &&
            r.ram[addr + argsize] == At(m.dst, WordSize + 1) &&
            Window(r.dst, k) == Window(m.dst, k + argsize + 1 + WordSize)[..k] &&
            Moved(m.dst.sp, r.dst.sp, -4 - argsize) &&
            r == m.(dst := r.dst, ram := r.ram)
  {
    var w := argsize + 1;
    StrPops(m.dst, addr, w, k);
    var s1 := PopTopLow(m.dst, WordSize).1;
    var bytes := PopAll(s1, w).0;
    assert Str(m, argsize, false) == m.(dst := PopAll(s1, w).1, ram := WriteRam(m.ram, addr, bytes));
    assert WriteRam(m.ram, addr, bytes)[addr + argsize] == bytes[argsize];
  }

  /** lod with the address addr on top replaces it by `ram[addr]`, ...,
      `ram[addr + w - 1]`, the last of them on top. */
  lemma LodEffect(m: Machine, argsize: ArgSize, addr: nat, k: nat)
    requires addr + argsize + 1 <= MemSize
    requires Window(m.dst, WordSize) == EncodeTopLow(addr, WordSize)
    requires k + WordSize <= 255 && k + argsize + 1 <= 256
    ensures AddressDefined(m, argsize, false)
    ensures var r := Lod(m, argsize, false);
            Window(r.dst, k + argsize + 1) == Window(m.dst, k + WordSize)[..k] + m.ram[addr..addr + argsize + 1] &&
            Moved(m.dst.sp, r.dst.sp, argsize - 2) &&
            r == m.(dst := r.dst)
  {
    var w := argsize + 1;
    var s1 := PopTopLow(m.dst, WordSize).1;
    AddressOnTop(m.dst, addr, k);
    var bytes := m.ram[addr..addr + w];
    PushAllWindow(s1, bytes, k);
    assert (Window(s1, k) + EncodeTopLow(addr, WordSize))[..k] == Window(s1, k);
    assert Lod(m, argsize, false) == m.(dst := PushAll(s1, bytes));
  }

  /** Storing w bytes at addr and loading them back from addr returns them in
      the same order, the former top on top again, above an untouched stack. */
  lemma StoreThenLoad(m: Machine, argsize: ArgSize, addr: nat, k: nat)
    requires addr + argsize + 1 <= MemSize
    requires Window(m.dst, WordSize) == EncodeTopLow(addr, WordSize)
    requires k + argsize + 1 + WordSize <= 255
    ensures AddressDefined(m, argsize, false)
    ensures var m1 := Str(m, argsize, false);
            var m2 := m1.(dst := PushTopLow(m1.dst, WordSize, addr));
            AddressDefined(m2, argsize, false) &&
            var m3 := Lod(m2, argsize, false);
            Window(m3.dst, k + argsize + 1) == Window(m.dst, k + argsize + 1 + WordSize)[..k + argsize + 1] &&
            m3.dst.sp == PopTopLow(m.dst, WordSize).1.sp &&
            m3 == m1.(dst := m3.dst)
  {
    var w := argsize + 1;
    StrEffect(m, argsize, addr, k);
    var m1 := Str(m, argsize, false);
    var m2 := m1.(dst := PushTopLow(m1.dst, WordSize, addr));
    PushTopLowWindow(m1.dst, WordSize, addr, k);
    WindowSuffix(m2.dst, WordSize, k + WordSize);
    assert (Window(m1.dst, k) + EncodeTopLow(addr, WordSize))[k..] == EncodeTopLow(addr, WordSize);
    LodEffect(m2, argsize, addr, k);
    var m3 := Lod(m2, argsize, false);
    assert (Window(m1.dst, k) + EncodeTopLow(addr, WordSize))[..k] == Window(m1.dst, k);
    var W := Window(m.dst, k + w + WordSize);
    var bytes := Window(m.dst, w + WordSize)[..w];
    assert m1.ram[addr..addr + w] == bytes;
    WindowSuffix(m.dst, w + WordSize, k + w + WordSize);
    assert W[..k + w] == W[..k] + W[k..][..w];
    AddressOnTop(m.dst, addr, k + w);
  }

  // ---------------------------------------------------------------------------
  // psh, pop, jmp and lit

  /** A w-byte value popped from one stack and pushed on another: it leaves
      the first and lands, byte for byte, on the second. */
  lemma MoveWord(from: Stack, to: Stack, w: nat, k: nat, kt: nat)
    requires 1 <= w <= 4 && k + w <= 255 && kt + w <= 256
    ensures var (n, f1) := PopTopLow(from, w);
            Window(PushTopLow(to, w, n), kt + w) == Window(to, kt) + Window(from, w) &&
            Window(f1, k) == Window(from, k + w)[..k] &&
            Moved(from.sp, f1.sp, -(w as int)) &&
            Moved(to.sp, PushTopLow(to, w, n).sp, w)
  {
    var (n, f1) := PopTopLow(from, w);
    PopTopLowWindow(from, w, k);
    PushTopLowWindow(to, w, n, kt);
    assert (Window(f1, k) + EncodeTopLow(n, w))[..k] == Window(f1, k);
  }

  /** psh moves the top w bytes of the data stack onto the return stack,
      keeping their order. */
  lemma PshEffect(m: Machine, argsize: ArgSize, k: nat, kr: nat)
    requires k + argsize + 1 <= 255 && kr + argsize + 1 <= 256
    ensures var r := Psh(m, argsize, false);
            Window(r.rst, kr + argsize + 1) == Window(m.rst, kr) + Window(m.dst, argsize + 1) &&
            Window(r.dst, k) == Window(m.dst, k + argsize + 1)[..k] &&
            Moved(m.dst.sp, r.dst.sp, -1 - argsize) &&
            Moved(m.rst.sp, r.rst.sp, argsize + 1) &&
            r == m.(dst := r.dst, rst := r.rst)
  {
    var w := argsize + 1;
    MoveWord(m.dst, m.rst, w, k, kr);
    var (n, s1) := PopTopLow(m.dst, w);
    assert Psh(m, argsize, false) == m.(dst := s1, rst := PushTopLow(m.rst, w, n));
  }

  /** pop moves the top w bytes of the return stack onto the data stack,
      keeping their order. */
  lemma PopREffect(m: Machine, argsize: ArgSize, k: nat, kr: nat)
    requires kr + argsize + 1 <= 255 && k + argsize + 1 <= 256
    ensures var r := PopR(m, argsize, false);
            Window(r.dst, k + argsize + 1) == Window(m.dst, k) + Window(m.rst, argsize + 1) &&
            Window(r.rst, kr) == Window(m.rst, kr + argsize + 1)[..kr] &&
            Moved(m.rst.sp, r.rst.sp, -1 - argsize) &&
            Moved(m.dst.sp, r.dst.sp, argsize + 1) &&
            r == m.(dst := r.dst, rst := r.rst)
  {
    var w := argsize + 1;
    MoveWord(m.rst, m.dst, w, kr, k);
    var (n, r1) := PopTopLow(m.rst, w);
    assert PopR(m, argsize, false) == m.(dst := PushTopLow(m.dst, w, n), rst := r1);
  }

  /** psh followed by pop of the same width gives back both stacks as they
      were (pointer and contents) and changes nothing else. */
  lemma PshThenPop(m: Machine, argsize: ArgSize, k: nat, kr: nat)
    requires k + argsize + 1 <= 255 && kr + argsize + 1 <= 255
    ensures var r := PopR(Psh(m, argsize, false), argsize, false);
            Window(r.dst, k + argsize + 1) == Window(m.dst, k + argsize + 1) &&
            Window(r.rst, kr) == Window(m.rst, kr) &&
            r.dst.sp == m.dst.sp && r.rst.sp == m.rst.sp &&
            r == m.(dst := r.dst, rst := r.rst)
  {
    var w := argsize + 1;
    PshEffect(m, argsize, k, kr);
    var m1 := Psh(m, argsize, false);
    PopREffect(m1, argsize, k, kr);
    var m2 := PopR(m1, argsize, false);
    WindowSuffix(m1.rst, w, kr + w);
    assert (Window(m.rst, kr) + Window(m.dst, w))[kr..] == Window(m.dst, w);
    PopTopLowWindow(m.dst, w, k);
  }

  /** The value PopTopLow returns is the number its window spells. */
  lemma PopTopLowValue(s: Stack, n: nat)
    requires n <= 4
    ensures PopTopLow(s, n).0 == DecodeTopLow(Window(s, n))
  {
    PopAllWindow(s, n, 0);
    assert Window(PopAll(s, n).1, 0) == [];
    assert Window(s, n) == PopAll(s, n).0;
    assert PopTopLow(s, n).0 == DecodeTopLow(PopAll(s, n).0);
  }

  /** jmp sets the pc to the w-byte value on top, least significant byte on
      top, and removes it. */
  lemma JmpEffect(m: Machine, argsize: ArgSize, k: nat)
    requires k + argsize + 1 <= 255
    ensures var r := Jmp(m, argsize, false);
            r.pc == DecodeTopLow(Window(m.dst, argsize + 1)) &&
            Window(r.dst, k) == Window(m.dst, k + argsize + 1)[..k] &&
            Moved(m.dst.sp, r.dst.sp, -1 - argsize) &&
            r == m.(dst := r.dst, pc := r.pc)
  {
    var w := argsize + 1;
    PopTopLowValue(m.dst, w);
    PopTopLowWindow(m.dst, w, k);
    var (n, s1) := PopTopLow(m.dst, w);
    assert (Window(s1, k) + EncodeTopLow(n, w))[..k] == Window(s1, k);
    assert Jmp(m, argsize, false) == m.(dst := s1, pc := n);
  }

  /** lit pushes the w ROM bytes after the instruction in ROM order and moves
      the pc past them. */
  lemma LitEffect(m: Machine, argsize: ArgSize, k: nat)
    requires LitDefined(m, argsize) && k + argsize + 1 <= 256
    ensures var r := Lit(m, argsize, false);
            Window(r.dst, k + argsize + 1) == Window(m.dst, k) + m.rom[m.pc..m.pc + argsize + 1] &&
            Moved(m.dst.sp, r.dst.sp, argsize + 1) &&
            r.pc == m.pc + argsize + 1 &&
            r == m.(dst := r.dst, pc := r.pc)
  {
    PushAllWindow(m.dst, m.rom[m.pc..m.pc + argsize + 1], k);
  }

  /** lit followed by jmp of the same width jumps to the address written after
      the lit, read with its last byte as least significant. */
  lemma LitThenJmp(m: Machine, argsize: ArgSize)
    requires LitDefined(m, argsize)
    ensures var m1 := Lit(m, argsize, false);
            var r := Jmp(m1, argsize, false);
            r.pc == DecodeTopLow(m.rom[m.pc..m.pc + argsize + 1]) &&
            r.dst.sp == m.dst.sp
  {
    var w := argsize + 1;
    LitEffect(m, argsize, 0);
    var m1 := Lit(m, argsize, false);
    JmpEffect(m1, argsize, 0);
  }

  // ---------------------------------------------------------------------------
  // Devices and int

  /** A full registry refuses the device and leaves the machine as it was. */
  lemma RegisterFull(m: Machine, device: Option<Device>, port: byte)
    requires m.numDevices == MaxDevices
    ensures Register(m, device, port) == (1, m)
  {
  }

  /** Below sixteen devices the pair goes into the next free slot, every
      earlier slot stays, and 0 is returned. */
  lemma RegisterAppends(m: Machine, device: Option<Device>, port: byte)
    requires m.numDevices < MaxDevices
    ensures var (code, r) := Register(m, device, port);
            code == 0 &&
            r.numDevices == m.numDevices + 1 &&
            r.ports[m.numDevices] == port && r.devices[m.numDevices] == device &&
            r.ports[..m.numDevices] == m.ports[..m.numDevices] &&
            r.devices[..m.numDevices] == m.devices[..m.numDevices] &&
            r == m.(numDevices := r.numDevices, ports := r.ports, devices := r.devices)
  {
  }

  /** Scanning one more entry finds what the shorter scan found, or else the
      new entry when it matches. */
  lemma {:induction false} FindExtend(ports: seq<byte>, ports': seq<byte>, i: nat, n: nat, port: byte)
    requires i <= n < |ports| && n < |ports'| && ports[..n] == ports'[..n]
    ensures FindFrom(ports', i, n + 1, port) ==
            match FindFrom(ports, i, n, port)
            case Some(j) => Some(j)
            case None => if ports'[n] == port then Some(n) else None
    decreases n - i
  {
    if i < n {
      assert ports[i] == ports'[..n][i];
      FindExtend(ports, ports', i + 1, n, port);
    }
  }

  /** After a successful registration, `trigger_device` on that port reaches
      the earliest registration of the port: an older one shadows the new
      entry, and otherwise the new entry is found. */
  lemma RegisterThenFind(m: Machine, device: Option<Device>, port: byte, q: byte)
    requires m.numDevices < MaxDevices
    ensures var r := Register(m, device, port).1;
            FindPort(r.ports, r.numDevices, q) ==
            match FindPort(m.ports, m.numDevices, q)
            case Some(j) => Some(j)
            case None => if q == port then Some(m.numDevices) else None
  {
    var r := Register(m, device, port).1;
    assert r.ports[..m.numDevices] == m.ports[..m.numDevices];
    FindExtend(m.ports, r.ports, 0, m.numDevices, q);
  }

  /** trigger with no registered port, or with a null callback at the first
      match, sets Panic and changes nothing else. With a callback it pushes
      exactly the byte the callback returns and takes the RAM it leaves. */
  lemma TriggerEffect(m: Machine, port: byte, k: nat)
    requires k <= 255
    ensures var r := Trigger(m, port);
            match FindPort(m.ports, m.numDevices, port)
            case None => r == m.(status := Panic)
            case Some(i) =>
              match m.devices[i]
              case None => r == m.(status := Panic)
              case Some(device) =>
                Window(r.dst, k + 1) == Window(m.dst, k) + [device(m.ram, m.rom).result] &&
                Moved(m.dst.sp, r.dst.sp, 1) &&
                r == m.(dst := r.dst, ram := device(m.ram, m.rom).ram)
  {
    match FindPort(m.ports, m.numDevices, port)
    case None =>
    case Some(i) =>
      match m.devices[i]
      case None =>
      case Some(device) =>
        PushWindow(m.dst, device(m.ram, m.rom).result, k);
  }

  /** Triggering devices never touches the pc, the return stack, ROM or the
      registry, and the only status it can set is Panic. */
  lemma {:induction false} TriggerAllFrame(m: Machine, ports: seq<byte>)
    ensures var r := TriggerAll(m, ports);
            r.pc == m.pc && r.rst == m.rst && r.rom == m.rom &&
            r.numDevices == m.numDevices && r.ports == m.ports && r.devices == m.devices &&
            (r.status == m.status || r.status == Panic)
    decreases |ports|
  {
    if ports != [] {
      TriggerAllFrame(m, ports[..|ports| - 1]);
    }
  }

  /** The stack side of int: the w bytes popped are the window, the first
      popped is the top, and what lies beneath stays. */
  lemma PopAllTop(s: Stack, w: nat, k: nat)
    requires 1 <= w && k + w <= 255
    ensures PopAll(s, w).0 == Window(s, w)
    ensures Reverse(Window(s, w))[0] == At(s, 1)
    ensures Window(PopAll(s, w).1, k) == Window(s, k + w)[..k]
  {
    var (bytes, s1) := PopAll(s, w);
    PopAllWindow(s, w, k);
    PopAllWindow(s, w, 0);
    assert Window(s1, 0) == [];
    assert (Window(s1, k) + bytes)[..k] == Window(s1, k);
    assert Window(s, w)[w - 1] == At(s, 1);
  }

  /** int pops w ports and triggers them in pop order: the port that was on
      top first. */
  lemma IntEffect(m: Machine, argsize: ArgSize, k: nat)
    requires k + argsize + 1 <= 255
    ensures var s1 := PopAll(m.dst, argsize + 1).1;
            Int(m, argsize, false) == TriggerAll(m.(dst := s1), Reverse(Window(m.dst, argsize + 1))) &&
            Reverse(Window(m.dst, argsize + 1))[0] == At(m.dst, 1) &&
            Window(s1, k) == Window(m.dst, k + argsize + 1)[..k]
  {
    PopAllTop(m.dst, argsize + 1, k);
  }

  /** A byte with bit 7 clear halts: the pc still moves past it and nothing
      else changes. */
  lemma HaltOnClearBit(m: Machine)
    requires m.pc < MemSize && m.rom[m.pc] < 128
    ensures TickDefined(m)
    ensures Tick(m) == m.(pc := m.pc + 1, status := Halted)
  {
  }

  /** What an opcode may change: ROM and the registry never; RAM only str and
      int; the status only int; the pc only jmp and lit; the return stack only
      psh and pop. */
  lemma HandleFrame(m: Machine, opcode: Opcode, argsize: ArgSize, skip: bool)
    requires HandleDefined(m, opcode, argsize, skip)
    ensures var r := Handle(m, opcode, argsize, skip);
            r.rom == m.rom && r.numDevices == m.numDevices &&
            r.ports == m.ports && r.devices == m.devices &&
            (opcode != 6 && opcode != 14 ==> r.ram == m.ram) &&
            (opcode != 14 ==> r.status == m.status) &&
            (r.status == m.status || r.status == Panic) &&
            (opcode != 12 && opcode != 13 ==> r.pc == m.pc) &&
            (opcode != 10 && opcode != 11 ==> r.rst == m.rst)
  {
    if opcode == 14 {
      var w := argsize + 1;
      var (bytes, s1) := PopAll(m.dst, w);
      var (c, s2) := if skip then Pop(s1) else (1, s1);
      if c != 0 {
        TriggerAllFrame(m.(dst := s2), Reverse(bytes));
      }
    }
  }

  /** One tick: a clear bit 7 halts; otherwise only int can change the status,
      and only to Panic. A machine that is running after a tick was running
      before it. */
  lemma TickStatus(m: Machine)
    requires TickDefined(m)
    ensures m.rom[m.pc] < 128 ==> Tick(m).status == Halted
    ensures m.rom[m.pc] >= 128 && Decode(m.rom[m.pc]).opcode != 14 ==> Tick(m).status == m.status
    ensures m.rom[m.pc] >= 128 ==> Tick(m).status == m.status || Tick(m).status == Panic
    ensures Tick(m).status == Running ==> m.status == Running
    ensures Tick(m).rom == m.rom
  {
    var (instr, m1) := Fetch(m);
    var i := Decode(instr);
    if i.continues {
      HandleFrame(m1, i.opcode, i.argsize, i.skip);
    }
  }
}
