/** The reading of number and octet string literals in src/lex.c: one character of lookahead, `peek`,
    on an input stream with `ungetc`. */
module Lexer {
  import opened Basics
  import opened Literals

  const EOF: int := -1

  /** A byte as a (signed) `char`. */
  function AsChar(b: byte): int {
    if b < 128 then b else b - 256
  }

  class Lex {
    const input: seq<byte>
    var pos: nat
    var peek: int

    ghost predicate Valid()
      reads this
    {
      pos <= |input|
    }

    /** What the lexer has still to read, `peek` included. */
    ghost predicate At(text: seq<byte>)
      reads this
    {
      && Valid()
      && if text == [] then peek == EOF && pos == |input| else peek == AsChar(text[0]) && input[pos..] == text[1..]
    }

    constructor (input: seq<byte>)
      ensures this.input == input && At([SPACE] + input)
    {
      this.input := input;
      pos, peek := 0, SPACE;
    }

    /** `peek = fgetc(input)`. */
    method Fgetc()
      requires Valid()
      modifies this
      ensures Valid() && At(old(input[pos..])) && pos >= old(pos)
    {
      if pos < |input| {
        peek := AsChar(input[pos]);
        pos := pos + 1;
      } else {
        peek := EOF;
      }
    }

    /** `ungetc(peek, input)`, right after a read. */
    method Ungetc(ghost text: seq<byte>)
      requires At(text) && (text != [] ==> pos > 0 && input[pos - 1] == text[0])
      modifies this`pos
      ensures Valid() && input[pos..] == if text == [] then [] else Unread(text)
    {
      if peek != EOF {
        pos := pos - 1;
        assert input[pos..] == [input[pos]] + input[pos + 1..];
      }
    }
  }

  /** `convert_to_digit_base` on a `char`. */
  function CharDigit(c: int, radix: nat): Option<nat>
    requires -128 <= c < 128
  {
    if c < 0 then None else DigitValue(c, radix)
  }

  lemma CharDigitIs(b: byte, radix: nat)
    requires radix <= 36
    ensures CharDigit(AsChar(b), radix) == DigitValue(b, radix)
  {
  }

  /** `get_digit_base`. */
  method GetDigitBase(l: Lex, radix: nat, ghost text: seq<byte>) returns (mp: nat)
    requires l.At(text) && 0 < radix <= 36
    modifies l
    ensures mp == ReadDigits(text, radix, 0).0 && l.At(ReadDigits(text, radix, 0).1)
  {
    mp := 0;
    ghost var left := text;
    var num := CharDigit(l.peek, radix);
    while num.Some?
      invariant l.At(left) && num == CharDigit(l.peek, radix)
      invariant ReadDigits(left, radix, mp) == ReadDigits(text, radix, 0)
      decreases |left|
    {
      CharDigitIs(left[0], radix);
      mp := mp * radix + num.value;
      l.Fgetc();
      left := left[1..];
      num := CharDigit(l.peek, radix);
    }
    if left != [] {
      CharDigitIs(left[0], radix);
    }
  }

  /** `get_digit`. */
  method GetDigit(l: Lex, ghost text: seq<byte>) returns (mp: nat)
    requires l.At(text)
    modifies l
    ensures mp == ReadNumber(text).0 && l.At(ReadNumber(text).1)
  {
    if l.peek == ZERO {
      l.Fgetc();
      if l.peek == LETTER_X || l.peek == 0x58 {
        l.Fgetc();
        mp := GetDigitBase(l, 16, text[2..]);
      } else {
        mp := GetDigitBase(l, 8, text[1..]);
      }
    } else {
      mp := GetDigitBase(l, STR_BASE, text);
    }
  }

  /** `get_hex_char`; `l.input[l.pos..]` is what is left after it. */
  method GetHexChar(l: Lex) returns (res: Option<byte>)
    requires l.Valid()
    modifies l
    ensures l.Valid() && (res, l.input[l.pos..]) == ReadHex(old(l.input[l.pos..]))
  {
    ghost var text := l.input[l.pos..];
    l.Fgetc();
    var a := CharDigit(l.peek, 16);
    if text != [] { CharDigitIs(text[0], 16); }
    if a.None? {
      l.Ungetc(text);
      return None;
    }
    l.Fgetc();
    var b := CharDigit(l.peek, 16);
    if text[1..] != [] { CharDigitIs(text[1], 16); }
    if b.None? {
      l.Ungetc(text[1..]);
      return None;
    }
    return Some(a.value * 16 + b.value);
  }

  /** `get_unescaped_char`: the character read before it is `first`. */
  method GetUnescapedChar(l: Lex, first: int, ghost text: seq<byte>) returns (res: Option<byte>)
    requires l.Valid() && text != [] && first == AsChar(text[0]) && l.input[l.pos..] == text[1..]
    modifies l
    ensures l.Valid() && (res, l.input[l.pos..]) == ReadOctet(text)
  {
    if first == BACKSLASH {
      l.Fgetc();
      if l.peek == LETTER_X {
        res := GetHexChar(l);
      } else {
        res := Some(if l.peek < 0 then l.peek + 256 else l.peek);
      }
    } else {
      res := Some(if first < 0 then first + 256 else first);
    }
  }

  /** `get_octstring`, the opening quote having been read: None stands for TOK_UNKNOWN. */
  method GetOctstring(l: Lex) returns (octets: Option<seq<byte>>)
    requires l.Valid()
    modifies l
    ensures l.At([SPACE] + ReadOctets(old(l.input[l.pos..])).rest)
    ensures octets == match ReadOctets(old(l.input[l.pos..])) case Bad(_) => None case Octets(bs, _) => Some(bs)
  {
    ghost var text := l.input[l.pos..];
    var s: seq<byte> := [];
    ghost var left := text;
    l.Fgetc();
    while l.peek != EOF && l.peek != BACKQUOTE
      invariant l.At(left) && ReadOctets(text) == Prepend(s, ReadOctets(left))
      decreases |left|
    {
      var c := GetUnescapedChar(l, l.peek, left);
      if c.None? {
        l.peek := SPACE;
        return None;
      }
      PrependTwice(s, [c.value], ReadOctets(ReadOctet(left).1));
      left, s := ReadOctet(left).1, s + [c.value];
      l.Fgetc();
    }
    if l.peek != BACKQUOTE {
      l.peek := SPACE;
      return None;
    }
    assert s + [] == s;
    l.peek := SPACE;
    return Some(s);
  }
}
