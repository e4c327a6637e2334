/** What an octet string or number literal may look like, and that reading it gives what it spells
    (get_octstring and get_digit of src/lex.c). */
module Spelling {
  import opened Basics
  import opened Literals

  // ----- octets -----

  /** A hexadecimal digit, of either case. */
  predicate IsHexDigit(c: byte, d: nat) {
    (d < 10 && c == 0x30 + d) || (10 <= d < 16 && (c == 0x41 + d - 10 || c == 0x61 + d - 10))
  }

  /** The ways to write an octet: as itself, after a backslash, or as an escape of two hexadecimal digits. */
  predicate Spells(p: seq<byte>, b: byte) {
    || (p == [b] && b != BACKSLASH && b != BACKQUOTE && b != EOF_BYTE)
    || (p == [BACKSLASH, b] && b != LETTER_X)
    || (|p| == 4 && p[..2] == [BACKSLASH, LETTER_X] && IsHexDigit(p[2], b / 16) && IsHexDigit(p[3], b % 16))
  }

  predicate Spelled(parts: seq<seq<byte>>, s: seq<byte>) {
    |parts| == |s| && forall i :: 0 <= i < |s| ==> Spells(parts[i], s[i])
  }

  function Flat(parts: seq<seq<byte>>): seq<byte> {
    if parts == [] then [] else parts[0] + Flat(parts[1..])
  }

  lemma HexDigitIs(c: byte, d: nat)
    ensures DigitValue(c, 16) == Some(d) <==> IsHexDigit(c, d)
  {
  }

  lemma SpelledOctet(p: seq<byte>, b: byte, more: seq<byte>)
    requires Spells(p, b)
    ensures var text := p + more;
            text[0] != EOF_BYTE && text[0] != BACKQUOTE && ReadOctet(text) == (Some(b), more)
  {
    var text := p + more;
    if |p| == 1 {
      assert text[1..] == more;
    } else if |p| == 2 {
      assert text[2..] == more;
    } else {
      HexDigitIs(p[2], b / 16);
      HexDigitIs(p[3], b % 16);
      assert p[0] == p[..2][0] && p[1] == p[..2][1];
      assert text[2..][0] == p[2] && text[2..][1..][0] == p[3] && text[2..][1..][1..] == more;
    }
  }

  /** What is spelled is read. */
  lemma {:induction false} SpelledReads(parts: seq<seq<byte>>, s: seq<byte>, more: seq<byte>)
    requires Spelled(parts, s)
    ensures ReadOctets(Flat(parts) + more) == Prepend(s, ReadOctets(more))
    decreases |s|
  {
    if s == [] {
      assert [] + more == more;
      PrependTwice([], [], ReadOctets(more));
    } else {
      var tail := Flat(parts[1..]) + more;
      assert Flat(parts) + more == parts[0] + tail;
      SpelledOctet(parts[0], s[0], tail);
      SpelledReads(parts[1..], s[1..], more);
      PrependTwice([s[0]], s[1..], ReadOctets(more));
      assert [s[0]] + s[1..] == s;
    }
  }

  /** What one reading of an octet takes off the text spells it. */
  lemma FirstIsSpelled(text: seq<byte>) returns (p: seq<byte>)
    requires text != [] && text[0] != EOF_BYTE && text[0] != BACKQUOTE && text != [BACKSLASH]
    requires ReadOctet(text).0.Some?
    ensures Spells(p, ReadOctet(text).0.value) && text == p + ReadOctet(text).1
  {
    var (b, more) := ReadOctet(text);
    if text[0] != BACKSLASH {
      p := text[..1];
    } else if text[1] != LETTER_X {
      p := text[..2];
    } else {
      p := text[..4];
      var hex := text[2..];
      HexDigitIs(hex[0], b.value / 16);
      HexDigitIs(hex[1..][0], b.value % 16);
      assert hex[1..][1..] == text[4..];
    }
  }

  /** And what is read was spelled. */
  lemma {:induction false} ReadIsSpelled(text: seq<byte>) returns (parts: seq<seq<byte>>)
    requires ReadOctets(text).Octets?
    ensures Spelled(parts, ReadOctets(text).octets)
    ensures text == Flat(parts) + ([BACKQUOTE] + ReadOctets(text).rest)
    decreases |text|
  {
    if text[0] == BACKQUOTE {
      parts := [];
    } else {
      var (b, more) := ReadOctet(text);
      var p := FirstIsSpelled(text);
      var tail := ReadIsSpelled(more);
      parts := [p] + tail;
      assert parts[1..] == tail;
      assert ReadOctets(text).octets == [b.value] + ReadOctets(more).octets;
      assert text == p + (Flat(tail) + ([BACKQUOTE] + ReadOctets(text).rest));
    }
  }

  /** An octet string literal is read as `s`, with `rest` left, exactly when it is a spelling of `s` with a
      backquote and `rest` behind it. */
  lemma OctetsAreSpelled(text: seq<byte>, s: seq<byte>, rest: seq<byte>)
    ensures ReadOctets(text) == Octets(s, rest)
       <==> exists parts :: Spelled(parts, s) && text == Flat(parts) + ([BACKQUOTE] + rest)
  {
    if ReadOctets(text) == Octets(s, rest) {
      var parts := ReadIsSpelled(text);
      assert Spelled(parts, s) && text == Flat(parts) + ([BACKQUOTE] + rest);
    }
    if parts :| Spelled(parts, s) && text == Flat(parts) + ([BACKQUOTE] + rest) {
      SpelledReads(parts, s, [BACKQUOTE] + rest);
      assert ([BACKQUOTE] + rest)[1..] == rest && s + [] == s;
    }
  }

  /** A backslash before each backslash and backquote, other printable octets as they are, escapes for the rest. */
  function EscapedOctet(b: byte): seq<byte> {
    if b == BACKSLASH || b == BACKQUOTE then [BACKSLASH, b] else OctetText(b)
  }

  function Escaped(s: seq<byte>): seq<byte> {
    if s == [] then [] else EscapedOctet(s[0]) + Escaped(s[1..])
  }

  function EscapedParts(s: seq<byte>): (parts: seq<seq<byte>>)
    ensures |parts| == |s| && Flat(parts) == Escaped(s)
    ensures forall i :: 0 <= i < |s| ==> parts[i] == EscapedOctet(s[i])
  {
    if s == [] then []
    else
      var tail := EscapedParts(s[1..]);
      assert ([EscapedOctet(s[0])] + tail)[1..] == tail;
      [EscapedOctet(s[0])] + tail
  }

  lemma EscapedSpells(b: byte)
    ensures Spells(EscapedOctet(b), b)
  {
  }

  /** So every octet string can be written, and is read back. */
  lemma EscapedReadsBack(s: seq<byte>, rest: seq<byte>)
    ensures ReadOctets(Escaped(s) + ([BACKQUOTE] + rest)) == Octets(s, rest)
  {
    var parts := EscapedParts(s);
    forall i | 0 <= i < |s| ensures Spells(parts[i], s[i]) {
      EscapedSpells(s[i]);
    }
    SpelledReads(parts, s, [BACKQUOTE] + rest);
    assert ([BACKQUOTE] + rest)[1..] == rest && s + [] == s;
  }

  /** How octets are printed: the text spells the octet unless this is a backslash or a backquote, and an escape has
      upper-case digits. */
  lemma PrintedSpells(b: byte)
    ensures Spells(OctetText(b), b) <==> b != BACKSLASH && b != BACKQUOTE
    ensures if 0x20 <= b < 0x7F then OctetText(b) == [b] else
              |OctetText(b)| == 4 && forall i :: 2 <= i < 4 ==> OctetText(b)[i] <= 0x46
  {
  }

  /** The text after good octets is none, and `rest` is left of it: it ends, or has the byte that reads as the end, or
      an escape that is no two hexadecimal digits, of which the first wrong character is left. */
  predicate Spoils(text: seq<byte>, rest: seq<byte>) {
    if text == [] || text == [BACKSLASH] then rest == []
    else if text[0] == EOF_BYTE then rest == text[1..]
    else if |text| < 2 || text[..2] != [BACKSLASH, LETTER_X] then false
    else if |text| == 2 then rest == []
    else if !IsHex(text[2]) then rest == Wrong(text, 2)
    else if |text| == 3 then rest == []
    else !IsHex(text[3]) && rest == Wrong(text, 3)
  }

  /** From the wrong character on, or from behind it if it reads as the end. */
  function Wrong(text: seq<byte>, i: nat): seq<byte>
    requires i < |text|
  {
    if text[i] == EOF_BYTE then text[i + 1..] else text[i..]
  }

  predicate IsHex(c: byte) {
    exists d: nat :: d < 16 && IsHexDigit(c, d)
  }

  lemma IsHexIs(c: byte)
    ensures IsHex(c) <==> DigitValue(c, 16).Some?
  {
    var v := DigitValue(c, 16);
    if v.Some? {
      assert IsHexDigit(c, v.value);
    }
  }

  lemma SpoiledReads(text: seq<byte>, rest: seq<byte>)
    requires Spoils(text, rest)
    ensures ReadOctets(text) == Bad(rest)
  {
    if |text| > 2 {
      IsHexIs(text[2]);
      assert text[..2][0] == text[0] && text[..2][1] == text[1];
      if |text| > 3 {
        IsHexIs(text[3]);
        assert text[2..][1..] == text[3..];
      }
    }
  }

  lemma ReadIsSpoiled(text: seq<byte>)
    requires text == [] || text[0] == EOF_BYTE || (text[0] != BACKQUOTE && ReadOctet(text).0.None?)
    ensures Spoils(text, ReadOctets(text).rest)
  {
    if |text| > 2 {
      IsHexIs(text[2]);
      assert text[..2] == [text[0], text[1]];
      if |text| > 3 {
        IsHexIs(text[3]);
        assert text[2..][1..] == text[3..];
      }
    } else if |text| == 2 {
      assert text[..2] == text;
    }
  }

  lemma OneMorePart(p: seq<byte>, b: byte, parts: seq<seq<byte>>, s: seq<byte>, tail: seq<byte>)
    requires Spells(p, b) && Spelled(parts, s)
    ensures Spelled([p] + parts, [b] + s) && Flat([p] + parts) + tail == p + (Flat(parts) + tail)
  {
    assert ([p] + parts)[1..] == parts;
  }

  lemma {:induction false} BadIsSpoiled(text: seq<byte>) returns (parts: seq<seq<byte>>, s: seq<byte>, tail: seq<byte>)
    requires ReadOctets(text).Bad?
    ensures Spelled(parts, s) && text == Flat(parts) + tail && Spoils(tail, ReadOctets(text).rest)
    decreases |text|
  {
    if text == [] || text[0] == EOF_BYTE || ReadOctet(text).0.None? || text == [BACKSLASH] {
      parts, s, tail := [], [], text;
      if text != [BACKSLASH] {
        ReadIsSpoiled(text);
      }
    } else {
      var (b, more) := ReadOctet(text);
      var p := FirstIsSpelled(text);
      parts, s, tail := BadIsSpoiled(more);
      OneMorePart(p, b.value, parts, s, tail);
      parts, s := [p] + parts, [b.value] + s;
    }
  }

  /** A literal is refused, with `rest` left, exactly when spelled octets are followed by what spoils it. */
  lemma OctetsAreSpoiled(text: seq<byte>, rest: seq<byte>)
    ensures ReadOctets(text) == Bad(rest)
       <==> exists parts, s, tail :: Spelled(parts, s) && Spoils(tail, rest) && text == Flat(parts) + tail
  {
    if ReadOctets(text) == Bad(rest) {
      var parts, s, tail := BadIsSpoiled(text);
      assert Spelled(parts, s) && Spoils(tail, rest) && text == Flat(parts) + tail;
    }
    if parts, s, tail :| Spelled(parts, s) && Spoils(tail, rest) && text == Flat(parts) + tail {
      SpoiledReads(tail, rest);
      SpelledReads(parts, s, tail);
    }
  }

  // ----- numbers -----

  function Power(base: nat, k: nat): nat {
    if k == 0 then 1 else base * Power(base, k - 1)
  }

  /** The number with the digits `ds`, highest first. */
  function PlaceValue(ds: seq<nat>, radix: nat): nat {
    if ds == [] then 0 else ds[0] * Power(radix, |ds| - 1) + PlaceValue(ds[1..], radix)
  }

  /** The text has these digits of the radix. */
  predicate HasDigits(cs: seq<byte>, ds: seq<nat>, radix: nat) {
    |cs| == |ds| && forall i :: 0 <= i < |ds| ==> ds[i] < radix && IsHexDigit(cs[i], ds[i])
  }

  /** The text goes on with a digit of the radix. */
  predicate GoesOn(text: seq<byte>, radix: nat) {
    text != [] && exists d: nat :: d < radix && IsHexDigit(text[0], d)
  }

  lemma GoesOnIs(text: seq<byte>, radix: nat)
    requires text != [] && radix <= 16
    ensures GoesOn(text, radix) <==> DigitValue(text[0], radix).Some?
  {
    var v := DigitValue(text[0], radix);
    if v.Some? {
      assert v.value < radix && IsHexDigit(text[0], v.value);
    }
  }

  lemma OneDigitMore(acc: nat, d: nat, radix: nat, k: nat, low: nat)
    ensures (acc * radix + d) * Power(radix, k) + low == acc * Power(radix, k + 1) + (d * Power(radix, k) + low)
  {
    assert acc * Power(radix, k + 1) == acc * radix * Power(radix, k);
  }

  lemma {:induction false} DigitsRead(cs: seq<byte>, ds: seq<nat>, radix: nat, rest: seq<byte>, acc: nat)
    requires HasDigits(cs, ds, radix) && radix <= 16
    ensures ReadDigits(cs + rest, radix, acc)
         == ReadDigits(rest, radix, acc * Power(radix, |ds|) + PlaceValue(ds, radix))
    decreases |cs|
  {
    if cs == [] {
      assert [] + rest == rest;
    } else {
      var text := cs + rest;
      assert text[1..] == cs[1..] + rest && text[0] == cs[0];
      assert DigitValue(cs[0], radix) == Some(ds[0]);
      DigitsRead(cs[1..], ds[1..], radix, rest, acc * radix + ds[0]);
      OneDigitMore(acc, ds[0], radix, |ds| - 1, PlaceValue(ds[1..], radix));
    }
  }

  /** The digits of a literal are read, and no more, exactly when no digit follows. */
  lemma LiteralRead(cs: seq<byte>, ds: seq<nat>, radix: nat, rest: seq<byte>)
    requires HasDigits(cs, ds, radix) && radix <= 16
    ensures ReadDigits(cs + rest, radix, 0) == (PlaceValue(ds, radix), rest) <==> !GoesOn(rest, radix)
  {
    DigitsRead(cs, ds, radix, rest, 0);
    if rest != [] {
      GoesOnIs(rest, radix);
      if GoesOn(rest, radix) {
        DigitsShorten(rest, radix, PlaceValue(ds, radix));
      }
    }
  }

  /** What a number is read as, with the rest of the text left: decimal digits without a leading 0, octal digits
      after 0, hexadecimal digits of either case after 0x or 0X. */
  lemma NumbersRead(cs: seq<byte>, ds: seq<nat>, x: byte, rest: seq<byte>)
    requires x == 0x58 || x == 0x78
    ensures HasDigits(cs, ds, 10) && ds != [] && ds[0] != 0 ==>
              (ReadNumber(cs + rest) == (PlaceValue(ds, 10), rest) <==> !GoesOn(rest, 10))
    ensures HasDigits(cs, ds, 8) && ds != [] ==>
              (ReadNumber([ZERO] + cs + rest) == (PlaceValue(ds, 8), rest) <==> !GoesOn(rest, 8))
    ensures HasDigits(cs, ds, 16) ==>
              (ReadNumber([ZERO, x] + cs + rest) == (PlaceValue(ds, 16), rest) <==> !GoesOn(rest, 16))
  {
    var octal, hex := [ZERO] + cs + rest, [ZERO, x] + cs + rest;
    if HasDigits(cs, ds, 10) && ds != [] {
      LiteralRead(cs, ds, 10, rest);
      assert (cs + rest)[0] == cs[0];
    }
    if HasDigits(cs, ds, 8) && ds != [] {
      LiteralRead(cs, ds, 8, rest);
      assert octal[0] == ZERO && octal[1..] == cs + rest && octal[1] == cs[0];
    }
    if HasDigits(cs, ds, 16) {
      LiteralRead(cs, ds, 16, rest);
      assert hex[0] == ZERO && hex[1] == x && hex[2..] == cs + rest;
    }
  }
}
