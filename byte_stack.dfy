/** The 256-byte stack shared by every iteration of the interpreter, as a value.

    A stack is 256 byte slots and an 8-bit pointer `sp` to the next free slot.
    `push` writes at `sp` and then increments it modulo 256; `pop` reads the slot
    below `sp`, zeroes the slot AT the old `sp` (not the one it read) and then
    decrements `sp` modulo 256. Nothing is ever a fault: the pointer wraps.

    `At(s, j)` is the j-th byte counted down from the top (j = 1 is the top) and
    `Window(s, k)` the k topmost bytes listed bottom to top. Because both are taken
    modulo 256 they stay meaningful when the pointer wraps, and the effect of every
    operation is stated on them. */
module ByteStack {
  import opened Bytes

  type Slots = s: seq<byte> | |s| == 256 witness seq(256, _ => 0)

  datatype Stack = Stack(sp: byte, data: Slots)

  /** `stack_init()` / the zeroing loop of `okvm_init`: pointer 0, every slot 0. */
  function EmptyStack(): Stack
  {
    Stack(0, seq(256, _ => 0))
  }

  /** `stack_push`: `data[sp] = x; sp++`. */
  function Push(s: Stack, x: byte): Stack
  {
    Stack((s.sp + 1) % 256, s.data[s.sp := x])
  }

  /** `stack_pop`: `out = data[sp - 1]; data[sp--] = 0`. On an empty stack the
      C code reads index -1; here the read wraps to slot 255, like the pointer. */
  function Pop(s: Stack): (byte, Stack)
  {
    (s.data[(s.sp - 1) % 256], Stack((s.sp - 1) % 256, s.data[s.sp := 0]))
  }

  /** The slot j places below the pointer, modulo 256. */
  function Below(sp: byte, j: int): byte
    requires 1 <= j <= 256
  {
    if sp >= j then sp - j else sp + 256 - j
  }

  /** The j-th byte from the top (1 <= j <= 256). */
  function At(s: Stack, j: int): byte
    requires 1 <= j <= 256
  {
    s.data[Below(s.sp, j)]
  }

  /** The k topmost bytes, bottom first, top last. */
  function Window(s: Stack, k: nat): (w: seq<byte>)
    requires k <= 256
    ensures |w| == k
  {
    seq(k, i requires 0 <= i < k => At(s, k - i))
  }

  /** The pointer `to` is `from` moved by d places, modulo 256. Stated without
      `%` so that moves add up by linear arithmetic. */
  predicate Moved(from: byte, to: byte, d: int)
  {
    to == from + d || to == from + d - 256 || to == from + d + 256
  }

  /** Push puts x on top and moves every other byte one place down. */
  lemma PushWindow(s: Stack, x: byte, k: nat)
    requires k <= 255
    ensures Window(Push(s, x), k + 1) == Window(s, k) + [x]
    ensures Moved(s.sp, Push(s, x).sp, 1)
  {
    var t := Push(s, x);
    assert t.sp == if s.sp == 255 then 0 else s.sp + 1;
    forall i | 0 <= i < k + 1
      ensures Window(t, k + 1)[i] == (Window(s, k) + [x])[i]
    {
      if i < k {
        var j := Below(s.sp, k - i);
        assert Below(t.sp, k + 1 - i) == j && j != s.sp;
        assert Window(t, k + 1)[i] == At(t, k + 1 - i);
        assert At(t, k + 1 - i) == t.data[j];
        assert t.data == s.data[s.sp := x];
        assert t.data[j] == s.data[j];
        assert Window(s, k)[i] == At(s, k - i);
      } else {
        assert Below(t.sp, 1) == s.sp;
        assert Window(t, k + 1)[i] == At(t, 1) == x;
      }
    }
  }

  /** Pop returns the top byte and leaves the k bytes below it in place, as long
      as the slot it zeroes (the old `sp`) is not among them (k <= 254). */
  lemma PopWindow(s: Stack, k: nat)
    requires k <= 254
    ensures Pop(s).0 == At(s, 1)
    ensures Window(s, k + 1) == Window(Pop(s).1, k) + [Pop(s).0]
    ensures Moved(s.sp, Pop(s).1.sp, -1)
  {
    var t := Pop(s).1;
    assert t.sp == if s.sp == 0 then 255 else s.sp - 1;
    assert Pop(s).0 == s.data[Below(s.sp, 1)];
    forall i | 0 <= i < k + 1
      ensures Window(s, k + 1)[i] == (Window(t, k) + [Pop(s).0])[i]
    {
      if i < k {
        var j := Below(s.sp, k + 1 - i);
        assert Below(t.sp, k - i) == j && j != s.sp;
        assert Window(t, k)[i] == At(t, k - i) == t.data[j];
        assert t.data == s.data[s.sp := 0];
        assert t.data[j] == s.data[j];
        assert Window(s, k + 1)[i] == At(s, k + 1 - i);
      } else {
        assert Window(s, k + 1)[i] == At(s, 1);
      }
    }
  }

  /** A smaller window is the top part of a larger one. */
  lemma WindowSuffix(s: Stack, k: nat, n: nat)
    requires k <= n <= 256
    ensures Window(s, k) == Window(s, n)[n - k..]
  {
  }

  /** Pop then push of the same byte restores the pointer and the window below. */
  lemma PopPushWindow(s: Stack, k: nat)
    requires k <= 254
    ensures Push(Pop(s).1, Pop(s).0).sp == s.sp
    ensures Window(Push(Pop(s).1, Pop(s).0), k + 1) == Window(s, k + 1)
  {
    PopWindow(s, k);
    PushWindow(Pop(s).1, Pop(s).0, k);
  }

  // ---------------------------------------------------------------------------
  // Pushing and popping several bytes

  /** Pushes `xs` in order, so that its last byte ends on top. */
  function PushAll(s: Stack, xs: seq<byte>): Stack
    decreases |xs|
  {
    if xs == [] then s else PushAll(Push(s, xs[0]), xs[1..])
  }

  lemma {:induction false} PushAllWindow(s: Stack, xs: seq<byte>, k: nat)
    requires k + |xs| <= 256
    ensures Window(PushAll(s, xs), k + |xs|) == Window(s, k) + xs
    ensures Moved(s.sp, PushAll(s, xs).sp, |xs|)
    decreases |xs|
  {
    if xs != [] {
      PushWindow(s, xs[0], k);
      PushAllWindow(Push(s, xs[0]), xs[1..], k + 1);
      assert Window(s, k) + [xs[0]] + xs[1..] == Window(s, k) + xs;
    }
  }

  /** Pops n bytes and returns them bottom first (the former top last). */
  function PopAll(s: Stack, n: nat): (r: (seq<byte>, Stack))
    ensures |r.0| == n
    decreases n
  {
    if n == 0 then ([], s)
    else
      var (b, s1) := Pop(s);
      var (rest, s2) := PopAll(s1, n - 1);
      (rest + [b], s2)
  }

  lemma {:induction false} PopAllWindow(s: Stack, n: nat, k: nat)
    requires k + n <= 255
    ensures Window(s, k + n) == Window(PopAll(s, n).1, k) + PopAll(s, n).0
    ensures Moved(s.sp, PopAll(s, n).1.sp, -(n as int))
    decreases n
  {
    if n > 0 {
      var (b, s1) := Pop(s);
      PopWindow(s, k + n - 1);
      PopAllWindow(s1, n - 1, k);
    }
  }

  // ---------------------------------------------------------------------------
  // The byte sequences that encode a word, listed bottom to top

  /** Most significant byte deepest, least significant byte on top. */
  function EncodeTopLow(v: nat, n: nat): (bs: seq<byte>)
    ensures |bs| == n
  {
    seq(n, i requires 0 <= i < n => ByteOf(v, n - 1 - i))
  }

  function DecodeTopLow(bs: seq<byte>): nat
  {
    if bs == [] then 0 else bs[|bs| - 1] + 256 * DecodeTopLow(bs[..|bs| - 1])
  }

  /** Least significant byte deepest, most significant byte on top. */
  function EncodeTopHigh(v: nat, n: nat): (bs: seq<byte>)
    ensures |bs| == n
  {
    seq(n, i requires 0 <= i < n => ByteOf(v, i))
  }

  function DecodeTopHigh(bs: seq<byte>): nat
  {
    if bs == [] then 0 else bs[0] + 256 * DecodeTopHigh(bs[1..])
  }

  lemma DivMod256(v: nat, n: nat)
    requires n <= 3
    ensures v % 256 + 256 * ((v / 256) % Pow256(n)) == v % Pow256(n + 1)
  {
    if n == 0 {
    } else if n == 1 {
      assert Pow256(1) == 256 && Pow256(2) == 0x1_0000;
      SplitMod(v, 256);
    } else if n == 2 {
      assert Pow256(2) == 0x1_0000 && Pow256(3) == 0x100_0000;
      SplitMod(v, 0x1_0000);
    } else {
      assert Pow256(3) == 0x100_0000 && Pow256(4) == 0x1_0000_0000;
      SplitMod(v, 0x100_0000);
    }
  }

  /** Taking the low byte off, reducing the rest modulo m and putting the
      byte back is reducing modulo 256 m. */
  lemma SplitMod(v: nat, m: nat)
    requires m == 256 || m == 0x1_0000 || m == 0x100_0000
    ensures v % 256 + 256 * ((v / 256) % m) == v % (256 * m)
  {
    if m == 256 {
      SplitModShort(v);
    } else if m == 0x1_0000 {
      SplitModWord(v);
    } else {
      SplitModLong(v);
    }
  }

  lemma SplitModShort(v: nat)
    ensures v % 256 + 256 * ((v / 256) % 256) == v % 0x1_0000
  {
    var q, r := v / 256, v % 256;
    var hi, lo := q / 256, q % 256;
    assert v == 0x1_0000 * hi + (256 * lo + r);
    DivModUnique(v, 0x1_0000, hi, 256 * lo + r);
  }

  lemma SplitModWord(v: nat)
    ensures v % 256 + 256 * ((v / 256) % 0x1_0000) == v % 0x100_0000
  {
    var q, r := v / 256, v % 256;
    var hi, lo := q / 0x1_0000, q % 0x1_0000;
    assert v == 0x100_0000 * hi + (256 * lo + r);
    DivModUnique(v, 0x100_0000, hi, 256 * lo + r);
  }

  lemma SplitModLong(v: nat)
    ensures v % 256 + 256 * ((v / 256) % 0x100_0000) == v % 0x1_0000_0000
  {
    var q, r := v / 256, v % 256;
    var hi, lo := q / 0x100_0000, q % 0x100_0000;
    assert v == 0x1_0000_0000 * hi + (256 * lo + r);
    DivModUnique(v, 0x1_0000_0000, hi, 256 * lo + r);
  }

  lemma ByteOfShift(v: nat, i: nat)
    requires i <= 3
    ensures ByteOf(v, i + 1) == ByteOf(v / 256, i)
  {
    if i == 0 {
    } else if i == 1 {
      assert Pow256(1) == 256 && Pow256(2) == 65536;
    } else if i == 2 {
      assert Pow256(2) == 65536 && Pow256(3) == 0x100_0000;
    } else {
      assert Pow256(3) == 0x100_0000 && Pow256(4) == 0x1_0000_0000;
    }
  }

  /** Encoding then decoding keeps the value modulo 2^(8n). */
  lemma {:induction false} DecodeEncodeTopLow(v: nat, n: nat)
    requires n <= 4
    ensures DecodeTopLow(EncodeTopLow(v, n)) == v % Pow256(n)
  {
    if n > 0 {
      var bs := EncodeTopLow(v, n);
      var hi := EncodeTopLow(v / 256, n - 1);
      forall i | 0 <= i < n - 1 ensures bs[i] == hi[i] {
        ByteOfShift(v, n - 2 - i);
      }
      assert bs[..n - 1] == hi;
      var low := bs[n - 1];
      assert low == v % 256 by {
        assert low == ByteOf(v, 0);
      }
      var rest := DecodeTopLow(hi);
      assert DecodeTopLow(bs) == low + 256 * rest;
      DecodeEncodeTopLow(v / 256, n - 1);
      DivMod256(v, n - 1);
    }
  }

  lemma {:induction false} DecodeEncodeTopHigh(v: nat, n: nat)
    requires n <= 4
    ensures DecodeTopHigh(EncodeTopHigh(v, n)) == v % Pow256(n)
  {
    if n > 0 {
      var bs := EncodeTopHigh(v, n);
      var hi := EncodeTopHigh(v / 256, n - 1);
      forall i | 0 <= i < n - 1 ensures bs[i + 1] == hi[i] {
        ByteOfShift(v, i);
      }
      assert bs[1..] == hi;
      assert bs[0] == v % 256;
      DecodeEncodeTopHigh(v / 256, n - 1);
      assert DecodeTopHigh(bs) == v % 256 + 256 * ((v / 256) % Pow256(n - 1));
      DivMod256(v, n - 1);
    }
  }

  lemma {:induction false} DecodeTopLowBound(bs: seq<byte>)
    ensures DecodeTopLow(bs) < Pow256(|bs|)
  {
    if bs != [] {
      DecodeTopLowBound(bs[..|bs| - 1]);
    }
  }

  lemma {:induction false} DecodeTopHighBound(bs: seq<byte>)
    ensures DecodeTopHigh(bs) < Pow256(|bs|)
  {
    if bs != [] {
      DecodeTopHighBound(bs[1..]);
    }
  }

  /** Decoding then encoding gives back the same bytes. */
  lemma {:induction false} EncodeDecodeTopLow(bs: seq<byte>)
    requires |bs| <= 4
    ensures EncodeTopLow(DecodeTopLow(bs), |bs|) == bs
  {
    if bs != [] {
      var n := |bs|;
      var pre := bs[..n - 1];
      var d := DecodeTopLow(bs);
      assert d == bs[n - 1] + 256 * DecodeTopLow(pre);
      assert d / 256 == DecodeTopLow(pre) && d % 256 == bs[n - 1];
      EncodeDecodeTopLow(pre);
      forall i | 0 <= i < n
        ensures EncodeTopLow(d, n)[i] == bs[i]
      {
        assert EncodeTopLow(d, n)[i] == ByteOf(d, n - 1 - i);
        if i < n - 1 {
          ByteOfShift(d, n - 2 - i);
          assert EncodeTopLow(DecodeTopLow(pre), n - 1)[i] == pre[i];
          assert EncodeTopLow(DecodeTopLow(pre), n - 1)[i] == ByteOf(DecodeTopLow(pre), n - 2 - i);
        } else {
          assert ByteOf(d, 0) == d % 256;
        }
      }
    }
  }

  lemma {:induction false} EncodeDecodeTopHigh(bs: seq<byte>)
    requires |bs| <= 4
    ensures EncodeTopHigh(DecodeTopHigh(bs), |bs|) == bs
  {
    if bs != [] {
      var n := |bs|;
      var post := bs[1..];
      var d := DecodeTopHigh(bs);
      assert d / 256 == DecodeTopHigh(post) && d % 256 == bs[0];
      EncodeDecodeTopHigh(post);
      forall i | 0 <= i < n
        ensures EncodeTopHigh(d, n)[i] == bs[i]
      {
        assert EncodeTopHigh(d, n)[i] == ByteOf(d, i);
        if i > 0 {
          ByteOfShift(d, i - 1);
          assert EncodeTopHigh(DecodeTopHigh(post), n - 1)[i - 1] == post[i - 1];
          assert EncodeTopHigh(DecodeTopHigh(post), n - 1)[i - 1] == ByteOf(DecodeTopHigh(post), i - 1);
        } else {
          assert ByteOf(d, 0) == d % 256;
        }
      }
    }
  }

  /** Up to four bytes decode to a `uint32_t`, in either order. */
  lemma DecodeFits(bs: seq<byte>)
    requires |bs| <= 4
    ensures DecodeTopLow(bs) < U32Modulus && DecodeTopHigh(bs) < U32Modulus
  {
    DecodeTopLowBound(bs);
    DecodeTopHighBound(bs);
    Pow256Monotone(|bs|, 4);
    assert Pow256(4) == U32Modulus;
  }

  /** Appending a byte on top makes it the most significant one. */
  lemma {:induction false} DecodeTopHighSnoc(bs: seq<byte>, b: byte)
    ensures DecodeTopHigh(bs + [b]) == DecodeTopHigh(bs) + Pow256(|bs|) * b
  {
    if bs != [] {
      assert (bs + [b])[1..] == bs[1..] + [b];
      DecodeTopHighSnoc(bs[1..], b);
    }
  }

  /** Decoding a byte sequence to which a deeper byte has been added. */
  lemma {:induction false} DecodeTopLowCons(b: byte, bs: seq<byte>)
    ensures DecodeTopLow([b] + bs) == DecodeTopLow(bs) + Pow256(|bs|) * b
    decreases |bs|
  {
    if bs != [] {
      var last := |bs| - 1;
      assert ([b] + bs)[..|bs|] == [b] + bs[..last];
      DecodeTopLowCons(b, bs[..last]);
    }
  }

  lemma {:induction false} PushAllSnoc(s: Stack, xs: seq<byte>, x: byte)
    ensures PushAll(s, xs + [x]) == Push(PushAll(s, xs), x)
    decreases |xs|
  {
    if xs == [] {
      assert PushAll(s, [x]) == PushAll(Push(s, x), []);
    } else {
      assert (xs + [x])[1..] == xs[1..] + [x];
      PushAllSnoc(Push(s, xs[0]), xs[1..], x);
    }
  }

  /** Popping i + 1 bytes is popping i bytes and then one more, which is the
      deepest of the i + 1. */
  lemma {:induction false} PopAllStep(s: Stack, i: nat)
    ensures PopAll(s, i + 1).0 == [Pop(PopAll(s, i).1).0] + PopAll(s, i).0
    ensures PopAll(s, i + 1).1 == Pop(PopAll(s, i).1).1
    decreases i
  {
    if i > 0 {
      PopAllStep(Pop(s).1, i - 1);
    }
  }

  // ---------------------------------------------------------------------------
  // Words on the stack, in the two byte orders the iterations use

  /** `stack_pushn` of ok.h: the most significant of the n bytes is pushed
      first, so the least significant byte ends on top. */
  function PushTopLow(s: Stack, n: nat, v: nat): Stack
  {
    PushAll(s, EncodeTopLow(v, n))
  }

  /** `stack_popn` of ok.h: the first byte popped is the least significant. */
  function PopTopLow(s: Stack, n: nat): (r: (u32, Stack))
    requires n <= 4
    ensures r.0 < Pow256(n)
  {
    var (bs, rest) := PopAll(s, n);
    DecodeTopLowBound(bs);
    Pow256Monotone(n, 4);
    (DecodeTopLow(bs), rest)
  }

  /** `stack_pushn` of okvm.h and src/okvm.c: the least significant byte is
      pushed first, so the most significant byte ends on top. */
  function PushTopHigh(s: Stack, n: nat, v: nat): Stack
  {
    PushAll(s, EncodeTopHigh(v, n))
  }

  /** `stack_popn` of okvm.h and src/okvm.c: the first byte popped is the most
      significant. */
  function PopTopHigh(s: Stack, n: nat): (r: (u32, Stack))
    requires n <= 4
    ensures r.0 < Pow256(n)
  {
    var (bs, rest) := PopAll(s, n);
    DecodeTopHighBound(bs);
    Pow256Monotone(n, 4);
    (DecodeTopHigh(bs), rest)
  }

  /** ok.h order, round trip: `popn(n)` right after `pushn(n, v)` returns v
      modulo 2^(8n), restores the pointer, and leaves the bytes below in place. */
  lemma RoundTripTopLow(s: Stack, n: nat, v: nat, k: nat)
    requires n <= 4 && k + n <= 255
    ensures PopTopLow(PushTopLow(s, n, v), n).0 == v % Pow256(n)
    ensures PopTopLow(PushTopLow(s, n, v), n).1.sp == s.sp
    ensures Window(PopTopLow(PushTopLow(s, n, v), n).1, k) == Window(s, k)
  {
    var e := EncodeTopLow(v, n);
    PushPopAll(s, e, k);
    DecodeEncodeTopLow(v, n);
  }

  lemma RoundTripTopHigh(s: Stack, n: nat, v: nat, k: nat)
    requires n <= 4 && k + n <= 255
    ensures PopTopHigh(PushTopHigh(s, n, v), n).0 == v % Pow256(n)
    ensures PopTopHigh(PushTopHigh(s, n, v), n).1.sp == s.sp
    ensures Window(PopTopHigh(PushTopHigh(s, n, v), n).1, k) == Window(s, k)
  {
    var e := EncodeTopHigh(v, n);
    PushPopAll(s, e, k);
    DecodeEncodeTopHigh(v, n);
  }

  /** Popping as many bytes as were pushed gives them back and restores the
      pointer and the bytes below. */
  lemma PushPopAll(s: Stack, xs: seq<byte>, k: nat)
    requires k + |xs| <= 255
    ensures PopAll(PushAll(s, xs), |xs|).0 == xs
    ensures PopAll(PushAll(s, xs), |xs|).1.sp == s.sp
    ensures Window(PopAll(PushAll(s, xs), |xs|).1, k) == Window(s, k)
  {
    var n := |xs|;
    var t := PushAll(s, xs);
    PushAllWindow(s, xs, k);
    var (bs, r) := PopAll(t, n);
    PopAllWindow(t, n, k);
    assert Window(r, k) + bs == Window(s, k) + xs;
    assert bs == (Window(r, k) + bs)[k..];
    assert xs == (Window(s, k) + xs)[k..];
    assert Window(r, k) == (Window(r, k) + bs)[..k];
    assert Window(s, k) == (Window(s, k) + xs)[..k];
  }

  /** ok.h order: after `pushn` the top byte is the least significant byte. */
  lemma PushTopLowTop(s: Stack, n: nat, v: nat)
    requires 1 <= n <= 4
    ensures At(PushTopLow(s, n, v), 1) == v % 256
  {
    var e := EncodeTopLow(v, n);
    PushAllWindow(s, e, 0);
    assert Window(PushTopLow(s, n, v), n)[n - 1] == At(PushTopLow(s, n, v), 1);
    assert Window(PushTopLow(s, n, v), n) == e;
    assert e[n - 1] == ByteOf(v, 0) == v % 256;
  }

  /** okvm.h order: after `pushn` the top byte is the most significant of the n. */
  lemma PushTopHighTop(s: Stack, n: nat, v: nat)
    requires 1 <= n <= 4
    ensures At(PushTopHigh(s, n, v), 1) == ByteOf(v, n - 1)
  {
    PushAllWindow(s, EncodeTopHigh(v, n), 0);
    assert Window(PushTopHigh(s, n, v), n)[n - 1] == At(PushTopHigh(s, n, v), 1);
  }

  // ---------------------------------------------------------------------------
  // Effects of the word operations on the top of the stack

  /** `pushn` adds the n encoded bytes on top and leaves the bytes below. */
  lemma PushTopLowWindow(s: Stack, n: nat, v: nat, k: nat)
    requires k + n <= 256
    ensures Window(PushTopLow(s, n, v), k + n) == Window(s, k) + EncodeTopLow(v, n)
    ensures Moved(s.sp, PushTopLow(s, n, v).sp, n)
  {
    PushAllWindow(s, EncodeTopLow(v, n), k);
  }

  /** `popn` returns the value the top n bytes encode and leaves the bytes
      below them on top. */
  lemma PopTopLowWindow(s: Stack, n: nat, k: nat)
    requires n <= 4 && k + n <= 255
    ensures Window(s, k + n) == Window(PopTopLow(s, n).1, k) + EncodeTopLow(PopTopLow(s, n).0, n)
    ensures EncodeTopLow(PopTopLow(s, n).0, n) == Window(s, n)
    ensures Moved(s.sp, PopTopLow(s, n).1.sp, -(n as int))
  {
    PopAllWindow(s, n, k);
    EncodeDecodeTopLow(PopAll(s, n).0);
    WindowSuffix(s, n, k + n);
  }

  lemma PushTopHighWindow(s: Stack, n: nat, v: nat, k: nat)
    requires k + n <= 256
    ensures Window(PushTopHigh(s, n, v), k + n) == Window(s, k) + EncodeTopHigh(v, n)
    ensures Moved(s.sp, PushTopHigh(s, n, v).sp, n)
  {
    PushAllWindow(s, EncodeTopHigh(v, n), k);
  }

  lemma PopTopHighWindow(s: Stack, n: nat, k: nat)
    requires n <= 4 && k + n <= 255
    ensures Window(s, k + n) == Window(PopTopHigh(s, n).1, k) + EncodeTopHigh(PopTopHigh(s, n).0, n)
    ensures EncodeTopHigh(PopTopHigh(s, n).0, n) == Window(s, n)
    ensures Moved(s.sp, PopTopHigh(s, n).1.sp, -(n as int))
  {
    PopAllWindow(s, n, k);
    EncodeDecodeTopHigh(PopAll(s, n).0);
    WindowSuffix(s, n, k + n);
  }

  // ---------------------------------------------------------------------------
  // Pointer movement alone

  /** Pushing n bytes moves the pointer up by n, popping moves it down. */
  lemma {:induction false} PushAllSp(s: Stack, xs: seq<byte>)
    requires |xs| <= 256
    ensures Moved(s.sp, PushAll(s, xs).sp, |xs|)
    decreases |xs|
  {
    if xs != [] {
      PushAllSp(Push(s, xs[0]), xs[1..]);
    }
  }

  lemma {:induction false} PopAllSp(s: Stack, n: nat)
    requires n <= 255
    ensures Moved(s.sp, PopAll(s, n).1.sp, -(n as int))
    decreases n
  {
    if n > 0 {
      PopAllSp(Pop(s).1, n - 1);
    }
  }

  lemma WordSp(s: Stack, n: nat, v: nat)
    requires n <= 4
    ensures Moved(s.sp, PushTopLow(s, n, v).sp, n)
    ensures Moved(s.sp, PushTopHigh(s, n, v).sp, n)
    ensures Moved(s.sp, PopTopLow(s, n).1.sp, -(n as int))
    ensures Moved(s.sp, PopTopHigh(s, n).1.sp, -(n as int))
  {
    PushAllSp(s, EncodeTopLow(v, n));
    PushAllSp(s, EncodeTopHigh(v, n));
    PopAllSp(s, n);
  }

  lemma ModBelow(x: nat, m: nat)
    requires x < m
    ensures x % m == x
  {
  }

  /** Two values that fit in n bytes and encode alike are equal. */
  lemma EncodeTopLowInjective(a: nat, b: nat, n: nat)
    requires n <= 4 && a < Pow256(n) && b < Pow256(n)
    requires EncodeTopLow(a, n) == EncodeTopLow(b, n)
    ensures a == b
  {
    DecodeEncodeTopLow(a, n);
    DecodeEncodeTopLow(b, n);
    ModBelow(a, Pow256(n));
    ModBelow(b, Pow256(n));
  }

  lemma EncodeTopHighInjective(a: nat, b: nat, n: nat)
    requires n <= 4 && a < Pow256(n) && b < Pow256(n)
    requires EncodeTopHigh(a, n) == EncodeTopHigh(b, n)
    ensures a == b
  {
    DecodeEncodeTopHigh(a, n);
    DecodeEncodeTopHigh(b, n);
    ModBelow(a, Pow256(n));
    ModBelow(b, Pow256(n));
  }
}
