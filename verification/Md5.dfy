/** The MD5 context of lib/crypto/md5.c: a bit counter in two 32-bit words, little-endian output. */
module Md5 {
  import opened Arith
  import opened Basics
  import opened Streaming

  /** Four state words. */
  type State = s: seq<Word> | |s| == 4 witness [0, 0, 0, 0]

  /** Initial chaining value, section 3.3 of RFC 1321. */
  const IV: State := [0x67452301, 0xefcdab89, 0x98badcfe, 0x10325476]

  /** How full the buffer is according to the low counter word. */
  function Level(lo: Word): (n: nat)
    ensures n < 64
  {
    lo / 8 % 64
  }

  /** Comparing a wrapped sum with a summand detects the carry. */
  lemma CarryDetected(a: Word, b: Word, sum: Word)
    requires sum == (a + b) % 0x1_0000_0000
    ensures a + b == (if sum < b then 0x1_0000_0000 else 0) + sum
  {
  }

  lemma CarryIntoHigh(hi: Word, carry: nat, k: nat, mid: Word)
    requires carry <= 1
    requires mid == if carry == 1 then (hi + 1) % 0x1_0000_0000 else hi
    ensures (mid + k) % 0x1_0000_0000 == (hi + carry + k) % 0x1_0000_0000
  {
    ModAdd(hi + carry, k, 0x1_0000_0000);
  }

  lemma SumOfPairs(lo: Word, hi: Word, low: Word, k: nat, lo': Word, carry: nat)
    requires lo + low == carry * 0x1_0000_0000 + lo'
    ensures (hi + carry + k) % 0x1_0000_0000 * 0x1_0000_0000 + lo' == Wrap(Counter(lo, hi) + (k * 0x1_0000_0000 + low))
  {
    WrapHigh(lo', hi + carry + k);
  }

  /** The two-step carry of the update is exact 64-bit addition of the bit length. */
  lemma BitCounterExact(lo: Word, hi: Word, msglen: Word, lo': Word, mid: Word, hi': Word)
    requires lo' == (lo + msglen * 8 % 0x1_0000_0000) % 0x1_0000_0000
    requires mid == if lo' < msglen * 8 % 0x1_0000_0000 then (hi + 1) % 0x1_0000_0000 else hi
    requires hi' == (mid + msglen / 0x2000_0000) % 0x1_0000_0000
    ensures Counter(lo', hi') == Wrap(Counter(lo, hi) + 8 * msglen)
  {
    var k, low := msglen / 0x2000_0000, msglen % 0x2000_0000 * 8;
    DivMod(msglen * 8, 0x1_0000_0000, k, low);
    CarryDetected(lo, low, lo');
    var carry := if lo' < low then 1 else 0;
    CarryIntoHigh(hi, carry, k, mid);
    SumOfPairs(lo, hi, low, k, lo', carry);
  }

  lemma LevelAdvances(lo: Word, msglen: Word, lo': Word)
    requires lo' == (lo + msglen * 8 % 0x1_0000_0000) % 0x1_0000_0000
    ensures Level(lo') == (Level(lo) + msglen) % 64
  {
    var sum := lo + msglen * 8;
    ModAdd(msglen * 8, lo, 0x1_0000_0000);
    var q := sum / 0x1_0000_0000;
    DivMod(sum, 8, lo / 8 + msglen, lo % 8);
    DivMod(sum, 8, q * 0x2000_0000 + lo' / 8, lo' % 8);
    ModAdd(lo / 8, msglen, 64);
    ModShift(lo' / 8, q * 0x80_0000, 64);
  }

  /** The counter bytes appended by the final step are the 64-bit length field of RFC 1321. */
  lemma CounterBytes(lo: Word, hi: Word)
    ensures WordsLittleEndian([lo, hi]) == LittleEndian(Counter(lo, hi), FIELD64)
  {
    WordPowers();
    SplitLittle(hi, lo, WORD, FIELD64);
    assert [lo, hi] == [lo] + [hi] && [lo] == [] + [lo];
    WordsSnocLittle([lo], hi);
    WordsSnocLittle([], lo);
  }

  /** `uint32_to_bytes`, least significant byte first. */
  method Uint32ToBytes(out: array<byte>, words: seq<Word>)
    requires out.Length == 4 * |words|
    modifies out
    ensures out[..] == WordsLittleEndian(words)
  {
    var x := 0;
    assert words[0..] == words;
    for y := 0 to |words|
      invariant x == 4 * y
      invariant out[..x] == WordsLittleEndian(words[..y])
    {
      var w := words[y];
      out[x] := w % 0x100;
      out[x + 1] := w / 0x100 % 0x100;
      out[x + 2] := w / 0x1_0000 % 0x100;
      out[x + 3] := w / 0x100_0000 % 0x100;
      FourBytes(w);
      WordsSnocLittle(words[..y], w);
      assert words[..y] + [w] == words[..y + 1];
      x := x + 4;
      assert out[..x] == out[..x - 4] + LittleEndian(w, WORD);
    }
    assert words[..|words|] == words && out[..] == out[..x];
  }

  /** The digest RFC 1321 prescribes for `msg`: the bit length enters modulo 2^64. */
  function Digest(transform: (State, seq<byte>) -> State, msg: seq<byte>): seq<byte> {
    WordsLittleEndian(Fold(transform, IV, Padded(msg, LittleEndian(8 * |msg|, FIELD64))))
  }

  /** The digest the final function takes out of a context. */
  function Result(transform: (State, seq<byte>) -> State, c: Ctx<State>): seq<byte> {
    WordsLittleEndian(Finish(transform, c, LittleEndian(c.count, FIELD64)))
  }

  /** init, any updates, final is the standard digest, for messages of any length. */
  lemma ResultIsDigest(transform: (State, seq<byte>) -> State, c: Ctx<State>, msg: seq<byte>)
    requires Holds(transform, Bits, IV, c, msg)
    ensures Result(transform, c) == Digest(transform, msg)
  {
    FinishIsStandard(transform, Bits, IV, c, msg, LittleEndian(c.count, FIELD64));
    LengthFieldWraps(8 * |msg|);
  }

  class Context {
    const transform: (State, seq<byte>) -> State  // md5_transform
    var nbits0: Word
    var nbits1: Word
    var state: State
    const buffer: array<byte>

    ghost predicate Valid()
      reads this
    {
      buffer.Length == 64
    }

    ghost function View(): Ctx<State>
      requires Valid()
      reads this, buffer
    {
      Ctx(state, Counter(nbits0, nbits1), buffer[..Level(nbits0)])
    }

    /** `md5_context_init`; the buffer is left as it comes. */
    constructor (transform: (State, seq<byte>) -> State)
      ensures Valid() && fresh(buffer) && this.transform == transform
      ensures View() == Ctx(IV, 0, [])
    {
      this.transform := transform;
      nbits0, nbits1 := 0, 0;
      state := IV;
      buffer := new byte[64];
    }

    /** The counter part of `md5_update`. */
    method AddLength(msglen: Word)
      requires Valid()
      modifies this`nbits0, this`nbits1
      ensures Counter(nbits0, nbits1) == Wrap(Counter(old(nbits0), old(nbits1)) + 8 * msglen)
      ensures Level(nbits0) == (Level(old(nbits0)) + msglen) % 64
    {
      nbits0 := (nbits0 + msglen * 8 % 0x1_0000_0000) % 0x1_0000_0000;
      if nbits0 < msglen * 8 % 0x1_0000_0000 {
        nbits1 := (nbits1 + 1) % 0x1_0000_0000;
      }
      ghost var mid := nbits1;
      nbits1 := (nbits1 + msglen / 0x2000_0000) % 0x1_0000_0000;
      BitCounterExact(old(nbits0), old(nbits1), msglen, nbits0, mid, nbits1);
      LevelAdvances(old(nbits0), msglen, nbits0);
    }

    method Update(msg: seq<byte>)
      requires Valid() && |msg| < 0x1_0000_0000
      modifies this`nbits0, this`nbits1, this`state, buffer
      ensures Valid()
      ensures View() == Absorb(transform, Bits, old(View()), msg)
    {
      var n := Level(nbits0);
      AddLength(|msg|);
      PartialLength(buffer[..n] + msg);
      state := FeedBlocks(transform, state, buffer, n, msg);
    }

    /** The length bytes of `md5_final`: the bit counter itself. */
    method LengthBytes() returns (nbits: array<byte>)
      ensures fresh(nbits) && nbits.Length == 8
      ensures nbits[..] == LittleEndian(Counter(nbits0, nbits1), FIELD64)
    {
      nbits := new byte[8];
      Uint32ToBytes(nbits, [nbits0, nbits1]);
      CounterBytes(nbits0, nbits1);
    }

    /** `md5_final`. */
    method Final(digest: array<byte>)
      requires Valid() && digest.Length == 16 && digest != buffer
      modifies this`nbits0, this`nbits1, this`state, buffer, digest
      ensures Valid()
      ensures digest[..] == Result(transform, old(View()))
    {
      ghost var ctx := View();
      var n := Level(nbits0);
      var npad := (if n < 56 then 56 else 120) - n;
      var nbits := LengthBytes();

      Update(PAD[..npad]);
      PadPrefix(n, FIELD64, npad);
      Update(nbits[..]);
      FinishByUpdates(transform, Bits, ctx, nbits[..]);
      Uint32ToBytes(digest, state);
    }
  }
}
