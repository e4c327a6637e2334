/** The SHA contexts of lib/crypto/sha1.c and lib/crypto/sha256.c: a byte counter in two 32-bit
    words, big-endian output.  The two files differ only in the state they hold, so the state is a
    type parameter, `words` reading its 32-bit words. */
module Sha {
  import opened Arith
  import opened Basics
  import opened Streaming

  type State1 = s: seq<Word> | |s| == 5 witness [0, 0, 0, 0, 0]
  type State256 = s: seq<Word> | |s| == 8 witness [0, 0, 0, 0, 0, 0, 0, 0]

  /** Section 6.1 of RFC 3174. */
  const IV1: State1 := [0x67452301, 0xEFCDAB89, 0x98BADCFE, 0x10325476, 0xC3D2E1F0]

  /** Section 5.3.2 of FIPS 180-2. */
  const IV256: State256 :=
    [0x6a09e667, 0xbb67ae85, 0x3c6ef372, 0xa54ff53a, 0x510e527f, 0x9b05688c, 0x1f83d9ab, 0x5be0cd19]

  /** One comparison is enough to carry: the update is exact 64-bit addition of the byte count. */
  lemma ByteCounterExact(lo: Word, hi: Word, msglen: Word, lo': Word, hi': Word)
    requires lo' == (lo + msglen) % 0x1_0000_0000
    requires hi' == if lo' < msglen then (hi + 1) % 0x1_0000_0000 else hi
    ensures Counter(lo', hi') == Wrap(Counter(lo, hi) + msglen)
    ensures lo' % 64 == (lo % 64 + msglen) % 64
  {
    var carry := if lo' < msglen then 1 else 0;
    assert lo + msglen == carry * 0x1_0000_0000 + lo';
    WrapHigh(lo', hi + carry);
    ModShift(lo', carry * 0x400_0000, 64);
    ModAdd(lo, msglen, 64);
  }

  /** Shifting the two counter words left by three is multiplying the counter by eight. */
  lemma BitsOfBytes(lo: Word, hi: Word, top: Word, low: Word)
    requires top == (hi * 8 % 0x1_0000_0000 + lo / 0x2000_0000) % 0x1_0000_0000
    requires low == lo * 8 % 0x1_0000_0000
    ensures Counter(low, top) == Wrap(8 * Counter(lo, hi))
  {
    var c := lo / 0x2000_0000;
    DivMod(lo * 8, 0x1_0000_0000, c, lo % 0x2000_0000 * 8);
    ModAdd(hi * 8, c, 0x1_0000_0000);
    WrapHigh(low, hi * 8 + c);
  }

  /** Counting bytes modulo 2^64 loses no bit of the 64-bit bit length. */
  lemma BitLengthWraps(n: nat)
    ensures Wrap(8 * Wrap(n)) == Wrap(8 * n)
  {
    var q, r := n / 0x1_0000_0000_0000_0000, n % 0x1_0000_0000_0000_0000;
    WrapIsMod(n);
    WrapIsMod(8 * r);
    WrapIsMod(8 * n);
    ModShift(8 * r, 8 * q, 0x1_0000_0000_0000_0000);
  }

  /** The counter bytes appended by the final step are the 64-bit big-endian length field. */
  lemma CounterBytes(low: Word, top: Word)
    ensures WordsBigEndian([top, low]) == BigEndian(Counter(low, top), FIELD64)
  {
    WordPowers();
    SplitBig(top, low, WORD, FIELD64);
    assert [top, low] == [top] + [low] && [top] == [] + [top];
    WordsSnocBig([top], low);
    WordsSnocBig([], top);
  }

  /** `uint32_to_bytes`, most significant byte first. */
  method Uint32ToBytes(out: array<byte>, at: nat, words: seq<Word>)
    requires out.Length == at + 4 * |words|
    modifies out
    ensures out[..at] == old(out[..at]) && out[at..] == WordsBigEndian(words)
  {
    var x := at;
    for y := 0 to |words|
      invariant x == at + 4 * y
      invariant out[..at] == old(out[..at])
      invariant out[at..x] == WordsBigEndian(words[..y])
    {
      var w := words[y];
      out[x] := w / 0x100_0000 % 0x100;
      out[x + 1] := w / 0x1_0000 % 0x100;
      out[x + 2] := w / 0x100 % 0x100;
      out[x + 3] := w % 0x100;
      FourBytes(w);
      WordsSnocBig(words[..y], w);
      assert words[..y] + [w] == words[..y + 1];
      x := x + 4;
      assert out[at..x] == out[at..x - 4] + BigEndian(w, WORD);
    }
    assert words[..|words|] == words && out[at..] == out[at..x];
  }

  /** The digest the standards prescribe for `msg`, with the bit length modulo 2^64: section 4 of
      RFC 3174 and section 5.1.1 of FIPS 180-2 define it for messages of fewer than 2^64 bits. */
  function Digest<S>(hash: (S, seq<byte>) -> S, words: S -> seq<Word>, iv: S, msg: seq<byte>): seq<byte> {
    WordsBigEndian(words(Fold(hash, iv, Padded(msg, BigEndian(8 * |msg|, FIELD64)))))
  }

  /** The digest the final function takes out of a context. */
  function Result<S>(hash: (S, seq<byte>) -> S, words: S -> seq<Word>, c: Ctx<S>): seq<byte> {
    WordsBigEndian(words(Finish(hash, c, BigEndian(Wrap(8 * c.count), FIELD64))))
  }

  /** init, any updates, final is the standard digest, for messages of any length. */
  lemma ResultIsDigest<S>(hash: (S, seq<byte>) -> S, words: S -> seq<Word>, iv: S, c: Ctx<S>, msg: seq<byte>)
    requires Holds(hash, Bytes, iv, c, msg)
    ensures Result(hash, words, c) == Digest(hash, words, iv, msg)
  {
    FinishIsStandard(hash, Bytes, iv, c, msg, BigEndian(Wrap(8 * c.count), FIELD64));
    BitLengthWraps(|msg|);
    LengthFieldWraps(8 * |msg|);
  }

  class Context<S> {
    const hash: (S, seq<byte>) -> S  // sha1_hash, sha256_hash
    const words: S -> seq<Word>
    var count0: Word
    var count1: Word
    var state: S
    const buffer: array<byte>

    ghost predicate Valid()
      reads this
    {
      buffer.Length == 64
    }

    ghost function View(): Ctx<S>
      requires Valid()
      reads this, buffer
    {
      Ctx(state, Counter(count0, count1), buffer[..count0 % 64])
    }

    /** `sha1_context_init`, `sha256_context_init`. */
    constructor (hash: (S, seq<byte>) -> S, words: S -> seq<Word>, iv: S)
      ensures Valid() && fresh(buffer) && this.hash == hash && this.words == words
      ensures View() == Ctx(iv, 0, [])
    {
      this.hash, this.words := hash, words;
      count0, count1 := 0, 0;
      state := iv;
      buffer := new byte[64](_ => 0);
    }

    /** `sha1_update`, `sha256_update`. */
    method Update(msg: seq<byte>)
      requires Valid() && |msg| < 0x1_0000_0000
      modifies this`count0, this`count1, this`state, buffer
      ensures Valid()
      ensures View() == Absorb(hash, Bytes, old(View()), msg)
    {
      var n := count0 % 64;
      count0 := (count0 + |msg|) % 0x1_0000_0000;
      if count0 < |msg| {
        count1 := (count1 + 1) % 0x1_0000_0000;
      }
      ByteCounterExact(old(count0), old(count1), |msg|, count0, count1);
      PartialLength(buffer[..n] + msg);
      state := FeedBlocks(hash, state, buffer, n, msg);
    }

    /** The length bytes of the final functions: the counter shifted left by three. */
    method LengthBytes() returns (nb: array<byte>)
      ensures fresh(nb) && nb.Length == 8
      ensures nb[..] == BigEndian(Wrap(8 * Counter(count0, count1)), FIELD64)
    {
      var top := (count1 * 8 % 0x1_0000_0000 + count0 / 0x2000_0000) % 0x1_0000_0000;
      var low := count0 * 8 % 0x1_0000_0000;
      BitsOfBytes(count0, count1, top, low);
      CounterBytes(low, top);
      nb := new byte[8](_ => 0);
      Uint32ToBytes(nb, 0, [top, low]);
      assert nb[..] == nb[0..];
    }

    /** `sha1_final`, `sha256_final`. */
    method Final() returns (digest: array<byte>)
      requires Valid()
      modifies this`count0, this`count1, this`state, buffer
      ensures Valid() && fresh(digest)
      ensures digest[..] == Result(hash, words, old(View()))
    {
      ghost var ctx := View();
      var n := count0 % 64;
      var npad := (if n < 56 then 56 else 120) - n;
      var nb := LengthBytes();

      Update(PAD[..npad]);
      PadPrefix(n, FIELD64, npad);
      Update(nb[..]);
      FinishByUpdates(hash, Bytes, ctx, nb[..]);
      var out := words(state);
      digest := new byte[4 * |out|];
      Uint32ToBytes(digest, 0, out);
      assert digest[..] == digest[0..];
    }
  }
}
