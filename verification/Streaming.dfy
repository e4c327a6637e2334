/** Block-wise hashing over an arbitrary compression function.

    All four hash implementations of the library share one scheme: bytes are collected in a
    64-byte buffer, every full block is folded into the state by a compression function, and
    a two-word counter records how much was hashed.  This module says what that scheme has to
    compute; the modules `Md5`, `Sha` and `Whirlpool` hold the code. */
module Streaming {
  import opened Arith
  import opened Basics

  type Word = x: int | 0 <= x < 0x1_0000_0000

  /** Two 32-bit words, low word first, as one counter. */
  function Counter(lo: Word, hi: Word): (c: nat)
    ensures c < 0x1_0000_0000_0000_0000
  {
    hi * 0x1_0000_0000 + lo
  }

  /** Compresses the whole blocks of `m`, first to last, starting from `s`. */
  function Fold<S>(f: (S, seq<byte>) -> S, s: S, m: seq<byte>): S
    decreases |m|
  {
    if |m| < 64 then s else Fold(f, f(s, m[..64]), m[64..])
  }

  /** The bytes of `m` left over when whole blocks have been taken off the front. */
  function Partial(m: seq<byte>): (p: seq<byte>)
    ensures |p| < 64
    decreases |m|
  {
    if |m| < 64 then m else Partial(m[64..])
  }

  lemma {:induction false} PartialLength(m: seq<byte>)
    ensures |Partial(m)| == |m| % 64
    decreases |m|
  {
    if |m| >= 64 {
      PartialLength(m[64..]);
      ModShift(|m| - 64, 1, 64);
    }
  }

  /** Folding a message and then whatever was left over, followed by more input, is folding it all. */
  lemma {:induction false} FoldResume<S>(f: (S, seq<byte>) -> S, s: S, a: seq<byte>, b: seq<byte>)
    ensures Fold(f, s, a + b) == Fold(f, Fold(f, s, a), Partial(a) + b)
    ensures Partial(a + b) == Partial(Partial(a) + b)
    decreases |a|
  {
    if |a| >= 64 {
      assert (a + b)[..64] == a[..64] && (a + b)[64..] == a[64..] + b;
      FoldResume(f, f(s, a[..64]), a[64..], b);
    }
  }

  // ----- contexts -----

  /** What a hash context holds: the chaining state, the value of the two-word counter, and the
      used prefix of the block buffer.  What the rest of the buffer holds is immaterial. */
  datatype Ctx<S> = Ctx(state: S, count: nat, pending: seq<byte>)

  /** The counter counts bytes, or bits in the case of MD5. */
  datatype Unit = Bytes | Bits

  function Size(unit: Unit, n: nat): nat {
    match unit case Bytes => n case Bits => 8 * n
  }

  /** 64-bit wrap-around. */
  function Wrap(n: nat): nat {
    if n < 0x1_0000_0000_0000_0000 then n else Wrap(n - 0x1_0000_0000_0000_0000)
  }

  lemma {:induction false} WrapIsMod(n: nat)
    ensures Wrap(n) == n % 0x1_0000_0000_0000_0000
    decreases n
  {
    if n >= 0x1_0000_0000_0000_0000 {
      WrapIsMod(n - 0x1_0000_0000_0000_0000);
    }
  }

  lemma WrapTwice(n: nat, k: nat)
    ensures Wrap(Wrap(n) + k) == Wrap(n + k)
  {
    WrapIsMod(n);
    WrapIsMod(n % 0x1_0000_0000_0000_0000 + k);
    WrapIsMod(n + k);
    ModAdd(n, k, 0x1_0000_0000_0000_0000);
  }

  /** One update call. */
  function Absorb<S>(f: (S, seq<byte>) -> S, unit: Unit, c: Ctx<S>, m: seq<byte>): Ctx<S> {
    Ctx(Fold(f, c.state, c.pending + m), Wrap(c.count + Size(unit, |m|)), Partial(c.pending + m))
  }

  /** Chunking does not matter: two updates leave what one update with both chunks leaves. */
  lemma AbsorbAppend<S>(f: (S, seq<byte>) -> S, unit: Unit, c: Ctx<S>, a: seq<byte>, b: seq<byte>)
    ensures Absorb(f, unit, Absorb(f, unit, c, a), b) == Absorb(f, unit, c, a + b)
  {
    FoldResume(f, c.state, c.pending + a, b);
    assert c.pending + a + b == c.pending + (a + b);
    WrapTwice(c.count + Size(unit, |a|), Size(unit, |b|));
  }

  /** A run of update calls. */
  function AbsorbAll<S>(f: (S, seq<byte>) -> S, unit: Unit, c: Ctx<S>, chunks: seq<seq<byte>>): Ctx<S>
    decreases |chunks|
  {
    if chunks == [] then c else AbsorbAll(f, unit, Absorb(f, unit, c, chunks[0]), chunks[1..])
  }

  function Flatten(chunks: seq<seq<byte>>): seq<byte> {
    if chunks == [] then [] else chunks[0] + Flatten(chunks[1..])
  }

  /** `c` is the context of a computation that started from `iv` and was given `m` so far. */
  ghost predicate Holds<S>(f: (S, seq<byte>) -> S, unit: Unit, iv: S, c: Ctx<S>, m: seq<byte>) {
    c == Ctx(Fold(f, iv, m), Wrap(Size(unit, |m|)), Partial(m))
  }

  lemma InitHolds<S>(f: (S, seq<byte>) -> S, unit: Unit, iv: S)
    ensures Holds(f, unit, iv, Ctx(iv, 0, []), [])
  {
  }

  lemma AbsorbHolds<S>(f: (S, seq<byte>) -> S, unit: Unit, iv: S, c: Ctx<S>, m: seq<byte>, a: seq<byte>)
    requires Holds(f, unit, iv, c, m)
    ensures Holds(f, unit, iv, Absorb(f, unit, c, a), m + a)
  {
    FoldResume(f, iv, m, a);
    WrapTwice(Size(unit, |m|), Size(unit, |a|));
  }

  /** However a message is cut into updates, the context only depends on the message. */
  lemma {:induction false} ChunkingIrrelevant<S>(f: (S, seq<byte>) -> S, unit: Unit, iv: S, c: Ctx<S>,
                                                m: seq<byte>, chunks: seq<seq<byte>>)
    requires Holds(f, unit, iv, c, m)
    ensures Holds(f, unit, iv, AbsorbAll(f, unit, c, chunks), m + Flatten(chunks))
    decreases |chunks|
  {
    if chunks == [] {
      assert m + [] == m;
    } else {
      AbsorbHolds(f, unit, iv, c, m, chunks[0]);
      ChunkingIrrelevant(f, unit, iv, Absorb(f, unit, c, chunks[0]), m + chunks[0], chunks[1..]);
      assert m + chunks[0] + Flatten(chunks[1..]) == m + Flatten(chunks);
    }
  }

  // ----- the block loop of the update functions -----

  /** Copies `src` over `dst[at..]`: memcpy. */
  method MemCpy(dst: array<byte>, at: nat, src: seq<byte>)
    requires at + |src| <= dst.Length
    modifies dst
    ensures dst[..at + |src|] == old(dst[..at]) + src
    ensures dst[at + |src|..] == old(dst[at + |src|..])
  {
    for i := 0 to |src|
      invariant dst[..at + i] == old(dst[..at]) + src[..i]
      invariant dst[at + i..] == old(dst[at + i..])
    {
      dst[at + i] := src[i];
    }
  }

  /** Filling the buffer and compressing it is the first fold step. */
  lemma FoldFirst<S>(f: (S, seq<byte>) -> S, s: S, pending: seq<byte>, m: seq<byte>, block: seq<byte>)
    requires |block| == 64 && |pending| < 64 <= |pending| + |m|
    requires block == pending + m[..64 - |pending|]
    ensures Fold(f, s, pending + m) == Fold(f, f(s, block), m[64 - |pending|..])
    ensures Partial(pending + m) == Partial(m[64 - |pending|..])
  {
    assert (pending + m)[..64] == block;
    assert (pending + m)[64..] == m[64 - |pending|..];
  }

  /** The loop over the rest of the message. */
  method CompressBlocks<S>(f: (S, seq<byte>) -> S, s0: S, msg: seq<byte>, from: nat) returns (s: S, at: nat)
    requires from <= |msg|
    ensures from <= at <= |msg|
    ensures s == Fold(f, s0, msg[from..]) && msg[at..] == Partial(msg[from..])
  {
    s, at := s0, from;
    var msglen := |msg| - from;
    while msglen >= 64
      invariant from <= at <= |msg| && at + msglen == |msg|
      invariant Fold(f, s0, msg[from..]) == Fold(f, s, msg[at..])
      invariant Partial(msg[from..]) == Partial(msg[at..])
    {
      s := f(s, msg[at..at + 64]);
      assert msg[at..][..64] == msg[at..at + 64] && msg[at..][64..] == msg[at + 64..];
      at, msglen := at + 64, msglen - 64;
    }
  }

  /** The part all four update functions share: top up the buffer, compress it and then the whole
      blocks of the message, and keep what is left.  `n` is the buffer level on entry. */
  method FeedBlocks<S>(f: (S, seq<byte>) -> S, s0: S, buffer: array<byte>, n: nat, msg: seq<byte>) returns (s: S)
    requires buffer.Length == 64 && n < 64
    modifies buffer
    ensures s == Fold(f, s0, old(buffer[..n]) + msg)
    ensures buffer[..|Partial(old(buffer[..n]) + msg)|] == Partial(old(buffer[..n]) + msg)
  {
    ghost var pending := buffer[..n];
    s := s0;
    if |msg| < 64 - n {
      MemCpy(buffer, n, msg);
    } else {
      var len := 64 - n;
      MemCpy(buffer, n, msg[..len]);
      assert buffer[..] == buffer[..n + len];
      s := f(s, buffer[..]);
      FoldFirst(f, s0, pending, msg, buffer[..]);
      var at;
      s, at := CompressBlocks(f, s, msg, len);
      MemCpy(buffer, 0, msg[at..]);
    }
  }

  // ----- padding -----

  /** The padding rule all four standards share: a one bit, then as few zeros as make room for the
      length field at the end of a block. */
  function Padding(n: nat, field: nat): (p: seq<byte>)
    requires field <= 64
    ensures 1 <= |p| <= 64 && p[0] == 0x80 && (forall i :: 1 <= i < |p| ==> p[i] == 0)
    ensures (n + |p| + field) % 64 == 0
  {
    [0x80] + Zeros((-(n + 1 + field)) % 64)
  }

  /** The zero run is the shortest possible: any padding that completes a block is at least as long,
      and one that fits in a block is this one. */
  lemma PaddingIsShortest(n: nat, level: nat, field: nat, k: nat)
    requires field <= 64 && k >= 1 && (level + k + field) % 64 == 0 && n % 64 == level % 64
    ensures |Padding(n, field)| <= k
    ensures k <= 64 ==> |Padding(n, field)| == k
  {
    var p := |Padding(n, field)|;
    var d := n / 64 - level / 64;
    assert n == level + 64 * d;
    ModShift(level + p + field, d, 64);
    assert (level + p + field) % 64 == 0;
  }

  /** The padding bytes as the final functions take them from a constant 64-byte array. */
  const PAD: seq<byte> := [0x80] + Zeros(63)

  lemma PadPrefix(n: nat, field: nat, npad: nat)
    requires field <= 64 && 1 <= npad <= 64 && (n + npad + field) % 64 == 0
    ensures PAD[..npad] == Padding(n, field)
  {
    PaddingIsShortest(n, n, field, npad);
  }

  /** The padded message of the standards, `bits` being the encoded bit length. */
  function Padded(m: seq<byte>, bits: seq<byte>): (p: seq<byte>)
    requires |bits| <= 64
    ensures |p| % 64 == 0
    ensures m <= p && |p| > |m| + |bits| && |p| <= |m| + |bits| + 64
  {
    m + Padding(|m|, |bits|) + bits
  }

  /** What padding and finishing a context folds. */
  function Finish<S>(f: (S, seq<byte>) -> S, c: Ctx<S>, bits: seq<byte>): S
    requires |bits| <= 64
  {
    Fold(f, c.state, Padded(c.pending, bits))
  }

  /** Finishing is what the two last updates of a final function do. */
  lemma FinishByUpdates<S>(f: (S, seq<byte>) -> S, unit: Unit, c: Ctx<S>, bits: seq<byte>)
    requires |bits| <= 64
    ensures Absorb(f, unit, Absorb(f, unit, c, Padding(|c.pending|, |bits|)), bits).state == Finish(f, c, bits)
  {
    var p := Padding(|c.pending|, |bits|);
    AbsorbAppend(f, unit, c, p, bits);
    assert c.pending + (p + bits) == c.pending + p + bits;
  }

  /** Finishing compresses exactly the blocks of the standard padded message. */
  lemma FinishIsStandard<S>(f: (S, seq<byte>) -> S, unit: Unit, iv: S, c: Ctx<S>, m: seq<byte>, bits: seq<byte>)
    requires Holds(f, unit, iv, c, m) && |bits| <= 64
    ensures Finish(f, c, bits) == Fold(f, iv, Padded(m, bits))
  {
    var p, q := Padding(|m|, |bits|), Padding(|Partial(m)|, |bits|);
    PartialLength(m);
    PaddingIsShortest(|m|, |Partial(m)|, |bits|, |q|);
    assert p == q;
    FoldResume(f, iv, m, p + bits);
    assert m + p + bits == m + (p + bits);
    assert Partial(m) + p + bits == Partial(m) + (p + bits);
  }

  // ----- integers as bytes -----

  /** `n` in `width` bytes, most significant byte first, modulo 256^width. */
  function BigEndian(n: nat, width: nat): (b: seq<byte>)
    ensures |b| == width
  {
    if width == 0 then [] else BigEndian(n / 0x100, width - 1) + [n % 0x100]
  }

  /** `n` in `width` bytes, least significant byte first, modulo 256^width. */
  function LittleEndian(n: nat, width: nat): (b: seq<byte>)
    ensures |b| == width
  {
    if width == 0 then [] else [n % 0x100] + LittleEndian(n / 0x100, width - 1)
  }

  /** The bytes in a machine word. */
  const WORD: nat := 4

  /** The four bytes the shifts of `uint32_to_bytes` pick. */
  lemma FourBytes(n: Word)
    ensures LittleEndian(n, WORD) == [n % 0x100, n / 0x100 % 0x100, n / 0x1_0000 % 0x100, n / 0x100_0000 % 0x100]
    ensures BigEndian(n, WORD) == [n / 0x100_0000 % 0x100, n / 0x1_0000 % 0x100, n / 0x100 % 0x100, n % 0x100]
  {
    var a, b, c := n / 0x100, n / 0x1_0000, n / 0x100_0000;
    assert a / 0x100 == b && b / 0x100 == c && c / 0x100 == 0;
    assert LittleEndian(c, 1) == [c % 0x100] + LittleEndian(c / 0x100, 0);
    assert LittleEndian(b, 2) == [b % 0x100] + LittleEndian(c, 1);
    assert LittleEndian(a, 3) == [a % 0x100] + LittleEndian(b, 2);
    assert LittleEndian(n, 4) == [n % 0x100] + LittleEndian(a, 3);
    assert BigEndian(c, 1) == BigEndian(c / 0x100, 0) + [c % 0x100];
    assert BigEndian(b, 2) == BigEndian(c, 1) + [b % 0x100];
    assert BigEndian(a, 3) == BigEndian(b, 2) + [a % 0x100];
    assert BigEndian(n, 4) == BigEndian(a, 3) + [n % 0x100];
  }

  function Pow256(k: nat): (p: nat)
    ensures p > 0
  {
    if k == 0 then 1 else 0x100 * Pow256(k - 1)
  }

  lemma WordPowers()
    ensures Pow256(WORD) == 0x1_0000_0000 && Pow256(FIELD64) == 0x1_0000_0000_0000_0000
  {
    assert Pow256(2) == 0x1_0000 && Pow256(4) == 0x1_0000 * Pow256(2);
    assert Pow256(6) == 0x1_0000 * Pow256(4) && Pow256(8) == 0x1_0000 * Pow256(6);
  }

  /** Taking one byte off a number made of a high part and `k` low bytes. */
  lemma TakeByte(hi: nat, lo: nat, k: nat)
    requires k > 0 && lo < Pow256(k)
    ensures (hi * Pow256(k) + lo) % 0x100 == lo % 0x100
    ensures (hi * Pow256(k) + lo) / 0x100 == hi * Pow256(k - 1) + lo / 0x100
    ensures lo / 0x100 < Pow256(k - 1)
  {
    assert hi * Pow256(k) == 0x100 * (hi * Pow256(k - 1));
    DivMod(hi * Pow256(k) + lo, 0x100, hi * Pow256(k - 1) + lo / 0x100, lo % 0x100);
  }

  /** A wide encoding is the encodings of its high part and of its `k` low bytes, in the byte order. */
  lemma {:induction false} SplitLittle(hi: nat, lo: nat, k: nat, width: nat)
    requires k <= width && lo < Pow256(k)
    ensures LittleEndian(hi * Pow256(k) + lo, width) == LittleEndian(lo, k) + LittleEndian(hi, width - k)
  {
    if k > 0 {
      TakeByte(hi, lo, k);
      SplitLittle(hi, lo / 0x100, k - 1, width - 1);
    }
  }

  lemma {:induction false} SplitBig(hi: nat, lo: nat, k: nat, width: nat)
    requires k <= width && lo < Pow256(k)
    ensures BigEndian(hi * Pow256(k) + lo, width) == BigEndian(hi, width - k) + BigEndian(lo, k)
  {
    if k > 0 {
      TakeByte(hi, lo, k);
      SplitBig(hi, lo / 0x100, k - 1, width - 1);
    }
  }

  lemma SplitBigWord(hi: nat, lo: Word, width: nat)
    requires WORD <= width
    ensures BigEndian(hi * 0x1_0000_0000 + lo, width) == BigEndian(hi, width - WORD) + BigEndian(lo, WORD)
  {
    WordPowers();
    SplitBig(hi, lo, WORD, width);
  }

  /** The size of a 64-bit length field. */
  const FIELD64: nat := 8

  /** A 64-bit length field does not see bits 64 and up. */
  lemma LengthFieldWraps(n: nat)
    ensures LittleEndian(Wrap(n), FIELD64) == LittleEndian(n, FIELD64)
    ensures BigEndian(Wrap(n), FIELD64) == BigEndian(n, FIELD64)
  {
    var hi, lo := n / 0x1_0000_0000_0000_0000, n % 0x1_0000_0000_0000_0000;
    WordPowers();
    WrapIsMod(n);
    SplitLittle(hi, lo, FIELD64, FIELD64);
    SplitBig(hi, lo, FIELD64, FIELD64);
    assert n == hi * 0x1_0000_0000_0000_0000 + lo;
  }

  /** Wrapping the high word of a counter is wrapping the counter at 64 bits. */
  lemma WrapHigh(lo: Word, hi: nat)
    ensures hi % 0x1_0000_0000 * 0x1_0000_0000 + lo == Wrap(hi * 0x1_0000_0000 + lo)
  {
    WrapIsMod(hi * 0x1_0000_0000 + lo);
    var low := hi % 0x1_0000_0000 * 0x1_0000_0000 + lo;
    DivMod(hi * 0x1_0000_0000 + lo, 0x1_0000_0000_0000_0000, hi / 0x1_0000_0000, low);
  }

  function WordsBigEndian(words: seq<Word>): (b: seq<byte>)
    ensures |b| == WORD * |words|
  {
    if words == [] then [] else BigEndian(words[0], WORD) + WordsBigEndian(words[1..])
  }

  function WordsLittleEndian(words: seq<Word>): (b: seq<byte>)
    ensures |b| == WORD * |words|
  {
    if words == [] then [] else LittleEndian(words[0], WORD) + WordsLittleEndian(words[1..])
  }

  lemma {:induction false} WordsSnocLittle(words: seq<Word>, w: Word)
    ensures WordsLittleEndian(words + [w]) == WordsLittleEndian(words) + LittleEndian(w, WORD)
  {
    if words == [] {
      assert [w][1..] == [] && words + [w] == [w];
    } else {
      assert (words + [w])[1..] == words[1..] + [w];
      WordsSnocLittle(words[1..], w);
    }
  }

  lemma {:induction false} WordsSnocBig(words: seq<Word>, w: Word)
    ensures WordsBigEndian(words + [w]) == WordsBigEndian(words) + BigEndian(w, WORD)
  {
    if words == [] {
      assert [w][1..] == [] && words + [w] == [w];
    } else {
      assert (words + [w])[1..] == words[1..] + [w];
      WordsSnocBig(words[1..], w);
    }
  }
}
