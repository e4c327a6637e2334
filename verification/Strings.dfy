/** Strings on top of the byte buffer (src/str.c), and the printing of numbers and octet strings
    (src/type_convertions.c).  A method returns false when the process has ended for want of memory. */
module Strings {
  import opened Basics
  import opened Buffer
  import opened Literals

  /** The contents are followed by a NUL. */
  predicate Terminated(str: Buf)
    requires str.Valid()
    reads str, str.data
  {
    str.head < str.data_size && str.data[str.head] == 0
  }

  /** A buffer without room for one byte has none for more. */
  lemma RoomForMore(str: Buf, n: nat)
    requires str.Valid() && !str.CanHold(1) && n > 0
    ensures !str.CanHold(n)
  {
    assert Doubled(str.data_size, str.head + n) >= 2 * str.data_size;
  }

  /** `str_reset`. */
  method StrReset(str: Buf) returns (ok: bool)
    requires str.Valid()
    modifies str, str.data
    ensures str.Valid() && (str.data == old(str.data) || fresh(str.data))
    ensures if ok then str.Contents() == [] && Terminated(str) else !str.CanHold(1)
  {
    str.Reset();
    ok := str.Zero();
  }

  /** `str_putc`. */
  method StrPutc(str: Buf, c: byte) returns (ok: bool)
    requires str.Valid()
    modifies str, str.data
    ensures str.Valid() && (str.data == old(str.data) || fresh(str.data))
    ensures if ok then str.Contents() == old(str.Contents()) + [c] && Terminated(str) else !str.CanHold(1)
  {
    ok := str.PutChar(c);
    if ok {
      ok := str.Zero();
    }
  }

  /** `str_append`. */
  method StrAppend(str: Buf, bytes: seq<byte>) returns (ok: bool)
    requires str.Valid()
    modifies str, str.data
    ensures str.Valid() && (str.data == old(str.data) || fresh(str.data))
    ensures if ok then str.Contents() == old(str.Contents()) + bytes && Terminated(str)
            else |bytes| > SSIZE_MAX || !str.CanHold(|bytes|) || !str.CanHold(1)
  {
    ok := str.Put(bytes);
    if ok {
      ok := str.Zero();
    }
  }

  /** The loop of `str_reverse`: swapping from both ends. */
  method SwapEnds(a: array<byte>, lo: nat, hi: nat)
    requires lo <= hi <= a.Length
    modifies a
    ensures forall k :: 0 <= k < a.Length ==> a[k] == if lo <= k < hi then old(a[lo + hi - 1 - k]) else old(a[k])
  {
    var first, last := lo, hi - 1;
    while first < last
      invariant lo <= first <= last + 2 && first + last == lo + hi - 1
      invariant forall k :: first <= k <= last ==> a[k] == old(a[k])
      invariant forall k :: 0 <= k < lo || hi <= k < a.Length ==> a[k] == old(a[k])
      invariant forall k :: lo <= k < first ==> a[k] == old(a[lo + hi - 1 - k])
      invariant forall k :: last < k < hi ==> a[k] == old(a[lo + hi - 1 - k])
    {
      a[first], a[last] := a[last], a[first];
      first, last := first + 1, last - 1;
    }
  }

  /** `str_reverse`. */
  method StrReverse(str: Buf)
    requires str.Valid()
    modifies str.data
    ensures str.Valid() && str.Contents() == Reversed(old(str.Contents()))
    ensures old(Terminated(str)) ==> Terminated(str)
  {
    ghost var was, lo, hi := str.Contents(), str.tail, str.head;
    SwapEnds(str.data, str.tail, str.head);
    forall i | 0 <= i < hi - lo
      ensures str.Contents()[i] == Reversed(was)[i]
    {
      ReversedAt(was, i);
      assert str.data[lo + i] == old(str.data[hi - 1 - i]);
    }
  }

  lemma NextDigit(done: seq<byte>, a: nat)
    requires a > 0
    ensures done + LowFirst(a) == (done + [DigitChar(a % 10)]) + LowFirst(a / 10)
  {
  }

  /** `bignum_to_string`, on the bignums `mpl` stands for; its division truncates, and the loop uses
      the magnitude of the remainder's digit. */
  method BignumToString(str: Buf, n: int) returns (ok: bool)
    requires str.Valid()
    modifies str, str.data
    ensures str.Valid() && (str.data == old(str.data) || fresh(str.data))
    ensures if ok then str.Contents() == NumberText(n) && Terminated(str) else !str.CanHold(1)
  {
    ok := StrReset(str);
    if !ok {
      return;
    }
    if n == 0 {
      ok := StrPutc(str, ZERO);
      return;
    }
    var a: nat := if n < 0 then -n else n;
    ghost var all := LowFirst(a);
    while a != 0
      invariant str.Valid() && (str.data == old(str.data) || fresh(str.data)) && Terminated(str)
      invariant all == str.Contents() + LowFirst(a)
    {
      var r := a % STR_BASE;
      NextDigit(str.Contents(), a);
      ok := StrPutc(str, if r < 10 then 0x30 + r else 0x41 + r - 10);
      if !ok {
        return;
      }
      a := a / STR_BASE;
    }
    assert str.Contents() + [] == str.Contents();
    if n < 0 {
      ok := StrPutc(str, MINUS);
      if !ok {
        return;
      }
      ReversedSnoc(all, MINUS);
    }
    StrReverse(str);
  }

  /** `octstring_to_string`. */
  method OctstringToString(str: Buf, octets: seq<byte>) returns (ok: bool)
    requires str.Valid()
    modifies str, str.data
    ensures str.Valid() && (str.data == old(str.data) || fresh(str.data))
    ensures if ok then str.Contents() == OctetsText(octets) && Terminated(str) else !str.CanHold(4)
  {
    ok := StrReset(str);
    if !ok {
      RoomForMore(str, 4);
      return;
    }
    for i := 0 to |octets|
      invariant str.Valid() && (str.data == old(str.data) || fresh(str.data)) && Terminated(str)
      invariant str.Contents() == OctetsText(octets[..i])
    {
      var ch := octets[i];
      TextAppend(octets[..i], [ch]);
      assert octets[..i + 1] == octets[..i] + [ch] && [ch][1..] == [] && OctetsText([ch]) == OctetText(ch);
      if IsPrint(ch) {
        ok := StrPutc(str, ch);
      } else {
        ok := StrAppend(str, [BACKSLASH, LETTER_X, DigitChar(ch / 16), DigitChar(ch % 16)]);
      }
      if !ok {
        if !str.CanHold(1) {
          RoomForMore(str, 4);
        }
        return;
      }
    }
    assert octets[..|octets|] == octets;
  }
}
