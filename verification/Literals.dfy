/** How numbers and octet strings are printed (src/type_convertions.c) and read (src/lex.c), on bytes,
    and when reading gives back what was printed. */
module Literals {
  import opened Basics

  const STR_BASE: nat := 10
  const ZERO: byte := 0x30
  const MINUS: byte := 0x2D
  const SPACE: byte := 0x20
  const BACKSLASH: byte := 0x5C
  const BACKQUOTE: byte := 0x60
  const LETTER_X: byte := 0x78
  /** As a `char` this byte is -1, which is EOF. */
  const EOF_BYTE: byte := 0xFF

  // ----- digits -----

  function DigitChar(d: nat): byte
    requires d < 16
  {
    if d < 10 then 0x30 + d else 0x41 + d - 10
  }

  function ToLower(c: byte): byte {
    if 0x41 <= c <= 0x5A then c + 32 else c
  }

  /** `convert_to_digit_base`. */
  function DigitValue(c: byte, radix: nat): (r: Option<nat>)
    ensures r.Some? ==> r.value < radix
  {
    var lc := ToLower(c);
    if 0x30 <= lc <= 0x39 && lc - 0x30 < radix then Some(lc - 0x30)
    else if 0x61 <= lc <= 0x7A && lc - 0x61 + 10 < radix then Some(lc - 0x61 + 10)
    else None
  }

  lemma DigitRoundTrip(d: nat, radix: nat)
    requires d < radix <= 16
    ensures DigitValue(DigitChar(d), radix) == Some(d)
  {
  }

  /** The digits of a number, lowest first: what the dividing loop produces. */
  function LowFirst(n: nat): seq<byte> {
    if n == 0 then [] else [DigitChar(n % 10)] + LowFirst(n / 10)
  }

  /** `bignum_to_string`. */
  function NumberText(n: int): seq<byte> {
    if n == 0 then [ZERO] else if n > 0 then Reversed(LowFirst(n)) else [MINUS] + Reversed(LowFirst(-n))
  }

  /** `get_digit_base`: the digits at the front of the text after `acc`. */
  function ReadDigits(text: seq<byte>, radix: nat, acc: nat): (r: (nat, seq<byte>))
    ensures |r.1| <= |text|
    decreases |text|
  {
    if text == [] then (acc, [])
    else match DigitValue(text[0], radix)
      case None => (acc, text)
      case Some(d) => ReadDigits(text[1..], radix, acc * radix + d)
  }

  /** `get_digit`: 0x and 0 start hexadecimal and octal numbers. */
  function ReadNumber(text: seq<byte>): (r: (nat, seq<byte>)) {
    if text == [] || text[0] != ZERO then ReadDigits(text, STR_BASE, 0)
    else if |text| > 1 && ToLower(text[1]) == LETTER_X then ReadDigits(text[2..], 16, 0)
    else ReadDigits(text[1..], 8, 0)
  }

  function Times10(acc: nat, n: nat): nat {
    if n == 0 then acc else Times10(acc, n / 10) * 10 + n % 10
  }

  lemma {:induction false} Times10Zero(n: nat)
    ensures Times10(0, n) == n
  {
    if n > 0 {
      Times10Zero(n / 10);
    }
  }

  /** Reading the digits of `n` after `acc` gives `acc` followed by them. */
  lemma {:induction false} ReadsDigits(n: nat, rest: seq<byte>, acc: nat)
    ensures ReadDigits(Reversed(LowFirst(n)) + rest, 10, acc) == ReadDigits(rest, 10, Times10(acc, n))
  {
    if n == 0 {
      assert [] + rest == rest;
    } else {
      var d, high := DigitChar(n % 10), Reversed(LowFirst(n / 10));
      assert LowFirst(n)[0] == d && LowFirst(n)[1..] == LowFirst(n / 10);
      assert Reversed(LowFirst(n)) + rest == high + ([d] + rest);
      ReadsDigits(n / 10, [d] + rest, acc);
      DigitRoundTrip(n % 10, 10);
      assert ([d] + rest)[0] == d && ([d] + rest)[1..] == rest;
    }
  }

  /** The first digit printed is not 0. */
  lemma {:induction false} LeadingDigit(n: nat)
    requires n > 0
    ensures var s := Reversed(LowFirst(n)); s != [] && s[0] != ZERO && DigitValue(s[0], 10).Some?
  {
    var d, high := DigitChar(n % 10), Reversed(LowFirst(n / 10));
    assert LowFirst(n)[0] == d && LowFirst(n)[1..] == LowFirst(n / 10);
    assert Reversed(LowFirst(n)) == high + [d];
    DigitRoundTrip(n % 10, 10);
    if n / 10 > 0 {
      LeadingDigit(n / 10);
    }
  }

  /** What must not follow a printed number for it to be read back. */
  predicate Continues(n: nat, c: byte) {
    if n == 0 then DigitValue(c, 8).Some? || ToLower(c) == LETTER_X else DigitValue(c, 10).Some?
  }

  lemma {:induction false} DigitsShorten(text: seq<byte>, radix: nat, acc: nat)
    requires text != [] && DigitValue(text[0], radix).Some?
    ensures |ReadDigits(text, radix, acc).1| < |text|
  {
  }

  /** A printed number is read back as itself, with the rest of the text left, exactly when the rest does
      not continue it. */
  lemma NumberReadsBack(n: nat, rest: seq<byte>)
    ensures ReadNumber(NumberText(n) + rest) == (n, rest) <==> rest == [] || !Continues(n, rest[0])
  {
    var text := NumberText(n) + rest;
    if n == 0 {
      assert text[0] == ZERO && text[1..] == rest;
      if rest != [] && DigitValue(rest[0], 8).Some? {
        DigitsShorten(rest, 8, 0);
      }
      if rest != [] && ToLower(rest[0]) == LETTER_X {
        assert text[2..] == rest[1..];
      }
    } else {
      LeadingDigit(n);
      ReadsDigits(n, rest, 0);
      Times10Zero(n);
      if rest != [] && DigitValue(rest[0], 10).Some? {
        DigitsShorten(rest, 10, n);
      }
    }
  }

  /** Different numbers have different texts. */
  lemma NumberTextInjective(m: int, n: int)
    requires NumberText(m) == NumberText(n)
    ensures m == n
  {
    var a, b := if m < 0 then -m else m, if n < 0 then -n else n;
    FirstIsNotMinus(a);
    FirstIsNotMinus(b);
    assert m < 0 ==> NumberText(m)[1..] == NumberText(a);
    assert n < 0 ==> NumberText(n)[1..] == NumberText(b);
    NumberReadsBack(a, []);
    NumberReadsBack(b, []);
    assert NumberText(a) + [] == NumberText(a) && NumberText(b) + [] == NumberText(b);
  }

  lemma FirstIsNotMinus(n: nat)
    ensures NumberText(n) != [] && NumberText(n)[0] != MINUS
  {
    if n > 0 {
      LeadingDigit(n);
    }
  }

  // ----- octet strings -----

  /** `isprint` in the C locale. */
  predicate IsPrint(b: byte) {
    0x20 <= b <= 0x7E
  }

  function OctetText(b: byte): seq<byte> {
    if IsPrint(b) then [b] else [BACKSLASH, LETTER_X, DigitChar(b / 16), DigitChar(b % 16)]
  }

  /** `octstring_to_string`. */
  function OctetsText(s: seq<byte>): seq<byte> {
    if s == [] then [] else OctetText(s[0]) + OctetsText(s[1..])
  }

  /** The text as it is after `ungetc` of its first byte: EOF is not pushed back. */
  function Unread(text: seq<byte>): (r: seq<byte>)
    requires text != []
    ensures |r| <= |text|
  {
    if text[0] == EOF_BYTE then text[1..] else text
  }

  /** `get_hex_char`: two digits, of either case. */
  function ReadHex(text: seq<byte>): (r: (Option<byte>, seq<byte>))
    ensures |r.1| <= |text| && (r.0.Some? ==> |r.1| + 2 == |text|)
  {
    if text == [] then (None, []) else
    match DigitValue(text[0], 16)
    case None => (None, Unread(text))
    case Some(a) =>
      var more := text[1..];
      if more == [] then (None, []) else
      match DigitValue(more[0], 16)
      case None => (None, Unread(more))
      case Some(b) => (Some(a * 16 + b), more[1..])
  }

  /** `get_unescaped_char`: one octet from the text. */
  function ReadOctet(text: seq<byte>): (r: (Option<byte>, seq<byte>))
    requires text != []
    ensures |r.1| < |text|
  {
    if text[0] != BACKSLASH then (Some(text[0]), text[1..])
    else if |text| == 1 then (Some(EOF_BYTE), [])
    else if text[1] == LETTER_X then ReadHex(text[2..])
    else (Some(text[1]), text[2..])
  }

  datatype Octets = Octets(octets: seq<byte>, rest: seq<byte>) | Bad(rest: seq<byte>)

  function Prepend(bs: seq<byte>, r: Octets): Octets {
    match r
    case Bad(_) => r
    case Octets(cs, rest) => Octets(bs + cs, rest)
  }

  /** `get_octstring`, after the opening quote. */
  function ReadOctets(text: seq<byte>): Octets
    decreases |text|
  {
    if text == [] then Bad([])
    else if text[0] == EOF_BYTE then Bad(text[1..])
    else if text[0] == BACKQUOTE then Octets([], text[1..])
    else
      var (b, more) := ReadOctet(text);
      if b.None? then Bad(more) else Prepend([b.value], ReadOctets(more))
  }

  predicate Clean(s: seq<byte>) {
    forall i :: 0 <= i < |s| ==> s[i] != BACKSLASH && s[i] != BACKQUOTE
  }

  lemma OctetReadsBack(b: byte, more: seq<byte>)
    requires b != BACKSLASH && b != BACKQUOTE
    ensures var text := OctetText(b) + more;
            text[0] != EOF_BYTE && text[0] != BACKQUOTE && ReadOctet(text) == (Some(b), more)
  {
    var text := OctetText(b) + more;
    if IsPrint(b) {
      assert text[1..] == more;
    } else {
      DigitRoundTrip(b / 16, 16);
      DigitRoundTrip(b % 16, 16);
      assert text[0] == BACKSLASH && text[1] == LETTER_X && text[2..][0] == DigitChar(b / 16);
      assert text[2..][1..][0] == DigitChar(b % 16) && text[2..][1..][1..] == more;
    }
  }

  lemma PrependTwice(a: seq<byte>, b: seq<byte>, r: Octets)
    ensures Prepend(a, Prepend(b, r)) == Prepend(a + b, r) && Prepend([], r) == r
  {
    match r
    case Bad(_) =>
    case Octets(cs, _) => assert a + (b + cs) == (a + b) + cs && [] + cs == cs;
  }

  /** Clean octets at the front of a text are read back, whatever follows. */
  lemma {:induction false} CleanReadsBack(s: seq<byte>, more: seq<byte>)
    requires Clean(s)
    ensures ReadOctets(OctetsText(s) + more) == Prepend(s, ReadOctets(more))
  {
    if s == [] {
      assert [] + more == more;
      PrependTwice([], [], ReadOctets(more));
    } else {
      var tail := OctetsText(s[1..]) + more;
      assert OctetsText(s) + more == OctetText(s[0]) + tail;
      OctetReadsBack(s[0], tail);
      CleanReadsBack(s[1..], more);
      PrependTwice([s[0]], s[1..], ReadOctets(more));
      assert [s[0]] + s[1..] == s;
    }
  }

  lemma {:induction false} TextAppend(a: seq<byte>, b: seq<byte>)
    ensures OctetsText(a + b) == OctetsText(a) + OctetsText(b)
  {
    if a == [] {
      assert a + b == b;
    } else {
      assert (a + b)[1..] == a[1..] + b;
      TextAppend(a[1..], b);
    }
  }

  /** What one octet leaves of the text is its end. */
  lemma OctetLeavesEnd(text: seq<byte>)
    requires text != []
    ensures var more := ReadOctet(text).1; forall i :: 0 <= i < |more| ==> more[i] == text[|text| - |more| + i]
  {
  }

  /** Reading printable text takes at least the characters that printing what was read would give. */
  lemma {:induction false} ReadingCosts(text: seq<byte>, left: nat)
    requires ReadOctets(text).Octets? && |ReadOctets(text).rest| == left
    requires forall i :: 0 <= i < |text| - left ==> IsPrint(text[i])
    ensures |OctetsText(ReadOctets(text).octets)| + 1 + left <= |text|
    decreases |text|
  {
    if text[0] != BACKQUOTE {
      var (b, more) := ReadOctet(text);
      RestIsShorter(more);
      OctetLeavesEnd(text);
      ReadingCosts(more, left);
      var bs := ReadOctets(more).octets;
      assert ReadOctets(text).octets[0] == b.value && ReadOctets(text).octets[1..] == bs;
    }
  }

  lemma {:induction false} RestIsShorter(text: seq<byte>)
    requires ReadOctets(text).Octets?
    ensures |ReadOctets(text).rest| < |text|
    decreases |text|
  {
    if text[0] != BACKQUOTE {
      RestIsShorter(ReadOctet(text).1);
    }
  }

  lemma {:induction false} TextIsPrintable(s: seq<byte>)
    ensures forall i :: 0 <= i < |OctetsText(s)| ==> IsPrint(OctetsText(s)[i])
  {
    if s != [] {
      TextIsPrintable(s[1..]);
    }
  }

  /** At a backslash of the octet string itself reading goes astray. */
  lemma BackslashAstray(u: seq<byte>, rest: seq<byte>)
    ensures ReadOctets([BACKSLASH] + OctetsText(u) + [BACKQUOTE] + rest) != Octets([BACKSLASH] + u, rest)
  {
    var text := [BACKSLASH] + OctetsText(u) + [BACKQUOTE] + rest;
    if ReadOctets(text) == Octets([BACKSLASH] + u, rest) {
      var (b, more) := ReadOctet(text);
      assert b == Some(BACKSLASH) && ReadOctets(more).octets == u by {
        var bs := ReadOctets(more).octets;
        assert ([b.value] + bs)[0] == BACKSLASH && ([b.value] + bs)[1..] == bs && ([BACKSLASH] + u)[1..] == u;
      }
      TextIsPrintable(u);
      OctetLeavesEnd(text);
      RestIsShorter(more);
      ReadingCosts(more, |rest|);
    }
  }

  /** The first octet that is printed as itself but read otherwise. */
  lemma {:induction false} FirstUnclean(s: seq<byte>) returns (i: nat)
    requires !Clean(s)
    ensures i < |s| && Clean(s[..i]) && (s[i] == BACKSLASH || s[i] == BACKQUOTE)
  {
    if s[0] == BACKSLASH || s[0] == BACKQUOTE {
      i := 0;
    } else {
      var j := FirstUnclean(s[1..]);
      i := j + 1;
      assert forall k :: 0 < k < i ==> s[..i][k] == s[1..][..j][k - 1];
    }
  }

  /** A printed octet string, quoted, is read back as itself, with the rest of the text left, exactly when
      it has neither a backslash nor a backquote in it. */
  lemma OctetsReadBack(s: seq<byte>, rest: seq<byte>)
    ensures ReadOctets(OctetsText(s) + ([BACKQUOTE] + rest)) == Octets(s, rest) <==> Clean(s)
  {
    var more := [BACKQUOTE] + rest;
    if Clean(s) {
      CleanReadsBack(s, more);
      assert more[1..] == rest && s + [] == s;
    } else {
      var i := FirstUnclean(s);
      UncleanAstray(s[..i], s[i], s[i + 1..], rest);
      assert s == s[..i] + [s[i]] + s[i + 1..];
    }
  }

  lemma UncleanAstray(p: seq<byte>, c: byte, u: seq<byte>, rest: seq<byte>)
    requires Clean(p) && (c == BACKSLASH || c == BACKQUOTE)
    ensures ReadOctets(OctetsText(p + [c] + u) + ([BACKQUOTE] + rest)) != Octets(p + [c] + u, rest)
  {
    var more := [c] + OctetsText(u) + ([BACKQUOTE] + rest);
    assert p + [c] + u == p + ([c] + u) && ([c] + u)[1..] == u;
    TextAppend(p, [c] + u);
    assert OctetsText(p + [c] + u) + ([BACKQUOTE] + rest) == OctetsText(p) + more;
    CleanReadsBack(p, more);
    if c == BACKSLASH {
      BackslashAstray(u, rest);
      assert more == [BACKSLASH] + OctetsText(u) + [BACKQUOTE] + rest;
    }
    match ReadOctets(more)
    case Bad(_) =>
    case Octets(bs, _) =>
      if p + bs == p + ([c] + u) { SamePrefix(p, bs, [c] + u); }
  }

  lemma SamePrefix(p: seq<byte>, a: seq<byte>, b: seq<byte>)
    requires p + a == p + b
    ensures a == b
  {
    assert (p + a)[|p|..] == a && (p + b)[|p|..] == b;
  }
}
