/** The Whirlpool context of lib/crypto/whirlpool.c: a byte counter in two 32-bit words, a 256-bit
    length field, and a state that is taken over into the digest byte by byte. */
module Whirlpool {
  import opened Arith
  import opened Basics
  import opened Streaming
  import Sha

  const ZERO_STATE: seq<byte> := [
    0, 0, 0, 0, 0, 0, 0, 0, 0, 0, 0, 0, 0, 0, 0, 0,
    0, 0, 0, 0, 0, 0, 0, 0, 0, 0, 0, 0, 0, 0, 0, 0,
    0, 0, 0, 0, 0, 0, 0, 0, 0, 0, 0, 0, 0, 0, 0, 0,
    0, 0, 0, 0, 0, 0, 0, 0, 0, 0, 0, 0, 0, 0, 0, 0]

  /** The 64 bytes of the 8x8 state matrix. */
  type State = s: seq<byte> | |s| == 64 witness ZERO_STATE

  const IV: State := ZERO_STATE

  /** The size of the length field, in bytes. */
  const FIELD256: nat := 32

  lemma ThreeWords(w0: Word, w1: Word, w2: Word)
    ensures WordsBigEndian([w0, w1, w2]) == BigEndian(w0, WORD) + BigEndian(w1, WORD) + BigEndian(w2, WORD)
  {
    assert [w0, w1, w2] == [w0, w1] + [w2] && [w0, w1] == [w0] + [w1] && [w0] == [] + [w0];
    WordsSnocBig([w0, w1], w2);
    WordsSnocBig([w0], w1);
    WordsSnocBig([], w0);
  }

  /** Twenty zero bytes and the three shifted counter words are the 256-bit length field. */
  lemma CounterBytes(lo: Word, hi: Word, w0: Word, w1: Word, w2: Word)
    requires w0 == hi / 0x2000_0000
    requires w1 == (hi * 8 % 0x1_0000_0000 + lo / 0x2000_0000) % 0x1_0000_0000
    requires w2 == lo * 8 % 0x1_0000_0000
    ensures Zeros(20) + WordsBigEndian([w0, w1, w2]) == BigEndian(8 * Counter(lo, hi), FIELD256)
  {
    ShiftedWords(lo, hi, w0, w1, w2);
    WideField(w0 * 0x1_0000_0000 + w1, w0, w1, w2, FIELD256);
    ThreeWords(w0, w1, w2);
  }

  lemma TwoWordField(w0: Word, w1: Word, width: nat)
    requires width >= 8
    ensures BigEndian(w0 * 0x1_0000_0000 + w1, width) == Zeros(width - 8) + BigEndian(w0, WORD) + BigEndian(w1, WORD)
  {
    SplitBigWord(w0, w1, width);
    SplitBigWord(0, w0, width - 4);
    ZeroBytes(width - 8);
  }

  lemma WideField(u: nat, w0: Word, w1: Word, w2: Word, width: nat)
    requires width >= 12 && u == w0 * 0x1_0000_0000 + w1
    ensures BigEndian(u * 0x1_0000_0000 + w2, width)
         == Zeros(width - 12) + BigEndian(w0, WORD) + BigEndian(w1, WORD) + BigEndian(w2, WORD)
  {
    SplitBigWord(u, w2, width);
    TwoWordField(w0, w1, width - 4);
  }

  lemma ShiftedWords(lo: Word, hi: Word, w0: Word, w1: Word, w2: Word)
    requires w0 == hi / 0x2000_0000
    requires w1 == (hi * 8 % 0x1_0000_0000 + lo / 0x2000_0000) % 0x1_0000_0000
    requires w2 == lo * 8 % 0x1_0000_0000
    ensures 8 * Counter(lo, hi) == (w0 * 0x1_0000_0000 + w1) * 0x1_0000_0000 + w2
  {
    DivMod(hi * 8, 0x1_0000_0000, w0, hi % 0x2000_0000 * 8);
    DivMod(lo * 8, 0x1_0000_0000, lo / 0x2000_0000, lo % 0x2000_0000 * 8);
  }

  lemma {:induction false} ZeroBytes(width: nat)
    ensures BigEndian(0, width) == Zeros(width)
  {
    if width > 0 {
      ZeroBytes(width - 1);
    }
  }

  lemma {:induction false} BigEndianInjective(a: nat, b: nat, width: nat)
    requires a < Pow256(width) && b < Pow256(width)
    requires BigEndian(a, width) == BigEndian(b, width)
    ensures a == b
  {
    if width > 0 {
      var x, y := BigEndian(a, width), BigEndian(b, width);
      assert x[width - 1] == a % 0x100 && y[width - 1] == b % 0x100;
      assert x[..width - 1] == BigEndian(a / 0x100, width - 1) && y[..width - 1] == BigEndian(b / 0x100, width - 1);
      BigEndianInjective(a / 0x100, b / 0x100, width - 1);
    }
  }

  /** The digest section 4 of Dedicated Hash-Function 7 of ISO/IEC 10118-3 prescribes for `msg`. */
  function Digest(hash: (State, seq<byte>) -> State, msg: seq<byte>): seq<byte> {
    Fold(hash, IV, Padded(msg, BigEndian(8 * |msg|, FIELD256)))
  }

  /** The digest the final function takes out of a context. */
  function Result(hash: (State, seq<byte>) -> State, c: Ctx<State>): seq<byte> {
    Finish(hash, c, BigEndian(8 * c.count, FIELD256))
  }

  /** init, any updates, final is the standard digest up to the range of the 64-bit byte counter. */
  lemma ResultIsDigest(hash: (State, seq<byte>) -> State, c: Ctx<State>, msg: seq<byte>)
    requires Holds(hash, Bytes, IV, c, msg)
    requires |msg| < 0x1_0000_0000_0000_0000
    ensures Result(hash, c) == Digest(hash, msg)
  {
    FinishIsStandard(hash, Bytes, IV, c, msg, BigEndian(8 * c.count, FIELD256));
  }

  /** Exactly the messages of fewer than 2^64 bytes get the length field the standard asks for, among
      those whose bit length a 256-bit field can hold. */
  lemma LengthFieldExact(n: nat)
    requires 8 * n < Pow256(FIELD256)
    ensures BigEndian(8 * Wrap(n), FIELD256) == BigEndian(8 * n, FIELD256) <==> n < 0x1_0000_0000_0000_0000
  {
    WrapIsMod(n);
    if BigEndian(8 * Wrap(n), FIELD256) == BigEndian(8 * n, FIELD256) {
      BigEndianInjective(8 * Wrap(n), 8 * n, FIELD256);
    }
  }

  class Context {
    const hash: (State, seq<byte>) -> State  // whirlpool_hash
    var count0: Word
    var count1: Word
    var state: State
    const buffer: array<byte>

    ghost predicate Valid()
      reads this
    {
      buffer.Length == 64
    }

    ghost function View(): Ctx<State>
      requires Valid()
      reads this, buffer
    {
      Ctx(state, Counter(count0, count1), buffer[..count0 % 64])
    }

    /** `whirlpool_context_init`. */
    constructor (hash: (State, seq<byte>) -> State)
      ensures Valid() && fresh(buffer) && this.hash == hash
      ensures View() == Ctx(IV, 0, [])
    {
      this.hash := hash;
      count0, count1 := 0, 0;
      state := IV;
      buffer := new byte[64](_ => 0);
    }

    /** `whirlpool_update`. */
    method Update(msg: seq<byte>)
      requires Valid() && |msg| < 0x1_0000_0000
      modifies this`count0, this`count1, this`state, buffer
      ensures Valid()
      ensures View() == Absorb(hash, Bytes, old(View()), msg)
    {
      var n := count0 % 64;
      count0 := (count0 + |msg|) % 0x1_0000_0000;
      if count0 < |msg| {
        count1 := (count1 + 1) % 0x1_0000_0000;
      }
      Sha.ByteCounterExact(old(count0), old(count1), |msg|, count0, count1);
      PartialLength(buffer[..n] + msg);
      state := FeedBlocks(hash, state, buffer, n, msg);
    }

    /** The length bytes of `whirlpool_final`: the counter shifted left by three, in 32 bytes. */
    method LengthBytes() returns (nb: array<byte>)
      ensures fresh(nb) && nb.Length == 32
      ensures nb[..] == BigEndian(8 * Counter(count0, count1), FIELD256)
    {
      var w0 := count1 / 0x2000_0000;
      var w1 := (count1 * 8 % 0x1_0000_0000 + count0 / 0x2000_0000) % 0x1_0000_0000;
      var w2 := count0 * 8 % 0x1_0000_0000;
      CounterBytes(count0, count1, w0, w1, w2);
      nb := new byte[32](_ => 0);
      assert nb[..20] == Zeros(20);
      Sha.Uint32ToBytes(nb, 20, [w0, w1, w2]);
      assert nb[..] == nb[..20] + nb[20..];
    }

    /** `whirlpool_final`. */
    method Final(digest: array<byte>)
      requires Valid() && digest.Length == 64 && digest != buffer
      modifies this`count0, this`count1, this`state, buffer, digest
      ensures Valid()
      ensures digest[..] == Result(hash, old(View()))
    {
      ghost var ctx := View();
      var n := count0 % 64;
      var npad := (if n < 32 then 32 else 96) - n;
      var nb := LengthBytes();

      Update(PAD[..npad]);
      PadPrefix(n, FIELD256, npad);
      Update(nb[..]);
      FinishByUpdates(hash, Bytes, ctx, nb[..]);
      MemCpy(digest, 0, state);
      assert digest[..] == digest[..64];
    }
  }
}
