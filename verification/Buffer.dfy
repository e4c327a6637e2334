/** The byte buffer of src/buffer.c: a window [tail, head) of an array that is compacted or doubled
    when room is needed.  `error(1, ...)` ends the process; here the method returns false. */
module Buffer {
  import opened Basics

  const SSIZE_MAX: nat := 0x7FFF_FFFF_FFFF_FFFF
  const BUFFER_INIT_SIZE: nat := 4096

  /** The size the doubling loop stops at: `d` doubled at least once, and until `need` bytes fit. */
  function Doubled(d: nat, need: nat): (r: nat)
    requires d > 0
    ensures r >= need && r >= 2 * d
    decreases if need > 2 * d then need - 2 * d else 0
  {
    if 2 * d >= need then 2 * d else Doubled(2 * d, need)
  }

  /** `d << k`. */
  function Shift(d: nat, k: nat): nat {
    if k == 0 then d else 2 * Shift(d, k - 1)
  }

  lemma {:induction false} ShiftTwice(d: nat, k: nat)
    ensures Shift(2 * d, k) == Shift(d, k + 1)
  {
    if k > 0 {
      ShiftTwice(d, k - 1);
    }
  }

  /** It is the least `d << k`, k positive, that makes room. */
  lemma {:induction false} DoubledIsLeast(d: nat, need: nat) returns (k: nat)
    requires d > 0
    ensures k > 0 && Doubled(d, need) == Shift(d, k) && (k > 1 ==> Shift(d, k - 1) < need)
    decreases if need > 2 * d then need - 2 * d else 0
  {
    if 2 * d >= need {
      k := 1;
      assert Shift(d, 0) == d;
    } else {
      var j := DoubledIsLeast(2 * d, need);
      k := j + 1;
      ShiftTwice(d, j);
      ShiftTwice(d, j - 1);
      assert Shift(d, 1) == 2 * Shift(d, 0) == 2 * d;
    }
  }

  /** memcpy, memmove and memset: writing bytes into memory. */
  method Write(a: array<byte>, at: nat, bytes: seq<byte>)
    requires at + |bytes| <= a.Length
    modifies a
    ensures forall i :: 0 <= i < a.Length ==> a[i] == if at <= i < at + |bytes| then bytes[i - at] else old(a[i])
  {
    forall i | 0 <= i < |bytes| {
      a[at + i] := bytes[i];
    }
  }

  lemma Prefix(a: array<byte>, from: nat, to: nat, n: nat)
    requires from + n <= to <= a.Length
    ensures a[from..from + n] == a[from..to][..n]
  {
  }

  class Buf {
    var head: nat
    var tail: nat
    var data: array<byte>
    var data_size: nat
    var static_flag: bool

    /** `BUFFER_CHECK`. */
    predicate Valid()
      reads this
    {
      data_size > 0 && head <= data_size && tail <= head && data.Length == data_size && data_size <= SSIZE_MAX
    }

    /** The bytes the buffer stands for. */
    ghost function Contents(): seq<byte>
      requires Valid()
      reads this, data
    {
      data[tail..head]
    }

    /** Whether `size` more bytes can be had at all. */
    ghost predicate CanHold(size: nat)
      requires Valid()
      reads this
    {
      || size <= data_size - head + tail
      || (!static_flag && Doubled(data_size, head + size) <= SSIZE_MAX)
    }

    /** `buffer_new`. */
    constructor ()
      ensures Valid() && fresh(data) && Contents() == [] && !static_flag && data_size == BUFFER_INIT_SIZE
      ensures head == tail == 0
    {
      data := new byte[BUFFER_INIT_SIZE];
      head, tail, data_size, static_flag := 0, 0, BUFFER_INIT_SIZE, false;
    }

    /** `buffer_create_static`. */
    constructor Static(mem: array<byte>)
      requires 0 < mem.Length <= SSIZE_MAX
      ensures Valid() && data == mem && Contents() == [] && static_flag
    {
      data := mem;
      head, tail, data_size, static_flag := 0, 0, mem.Length, true;
    }

    /** `buffer_create_static_full`. */
    constructor StaticFull(mem: array<byte>)
      requires 0 < mem.Length <= SSIZE_MAX
      ensures Valid() && data == mem && Contents() == mem[..] && static_flag
    {
      data := mem;
      head, tail, data_size, static_flag := mem.Length, 0, mem.Length, true;
    }

    /** `buffer_ensure`: compaction if that makes room, else doubling. */
    method Ensure(size: nat) returns (ok: bool)
      requires Valid()
      modifies this, data
      ensures Valid() && Contents() == old(Contents()) && static_flag == old(static_flag)
      ensures data == old(data) || (fresh(data) && data_size == Doubled(old(data_size), old(head) + size))
      ensures ok == old(CanHold(size)) && (if ok then size <= data_size - head else unchanged(this))
      ensures old(size <= data_size - head) ==> unchanged(this) && unchanged(data)
    {
      if data_size - head < size {
        if tail + (data_size - head) >= size {
          Write(data, 0, data[tail..head]);
          head := head - tail;
          tail := 0;
        } else {
          if static_flag {
            return false;
          }
          var newSize := 2 * data_size;
          ghost var goal := Doubled(data_size, head + size);
          if newSize > SSIZE_MAX {
            return false;
          }
          while newSize - head < size
            invariant head <= newSize <= SSIZE_MAX && newSize > 0
            invariant goal == if newSize >= head + size then newSize else Doubled(newSize, head + size)
            decreases SSIZE_MAX - newSize
          {
            newSize := 2 * newSize;
            if newSize > SSIZE_MAX {
              return false;
            }
          }
          Realloc(newSize);
        }
      }
      return true;
    }

    /** `data = xrealloc(data, newSize); data_size = newSize`. */
    method Realloc(newSize: nat)
      requires Valid() && data_size <= newSize <= SSIZE_MAX
      modifies this`data, this`data_size
      ensures Valid() && fresh(data) && data_size == newSize && data[..old(data_size)] == old(data[..])
    {
      var mem := new byte[newSize];
      Write(mem, 0, data[..]);
      assert mem[..data_size] == data[..];
      data, data_size := mem, newSize;
    }

    /** Writing at `head` and moving it. */
    method Extend(bytes: seq<byte>)
      requires Valid() && head + |bytes| <= data_size
      modifies this`head, data
      ensures Valid() && Contents() == old(Contents()) + bytes
    {
      Write(data, head, bytes);
      head := head + |bytes|;
    }

    /** `buffer_reset`. */
    method Reset()
      requires Valid()
      modifies this`head, this`tail, data
      ensures Valid() && head == tail == 0 && forall i :: 0 <= i < data.Length ==> data[i] == 0
    {
      Write(data, 0, Zeros(data.Length));
      tail, head := 0, 0;
    }

    /** `buffer_trim`: drops a suffix. */
    method Trim(size: nat) returns (ok: bool)
      requires Valid()
      modifies this`head, data
      ensures Valid() && ok == (size <= |old(Contents())|)
      ensures Contents() == if ok then old(Contents())[..|old(Contents())| - size] else old(Contents())
      ensures forall i :: head <= i < old(head) ==> data[i] == 0
    {
      if size == 0 {
        return true;
      }
      if size > SSIZE_MAX || size > head - tail {
        return false;
      }
      Write(data, head - size, Zeros(size));
      head := head - size;
      return true;
    }

    /** `buffer_consume`: drops a prefix. */
    method Consume(size: nat) returns (ok: bool)
      requires Valid()
      modifies this`tail
      ensures Valid() && ok == (size <= |old(Contents())|)
      ensures Contents() == if ok then old(Contents())[size..] else old(Contents())
    {
      if size == 0 {
        return true;
      }
      if size > SSIZE_MAX || size > head - tail {
        return false;
      }
      tail := tail + size;
      return true;
    }

    /** `buffer_advance`: adds zeros at the end. */
    method Advance(size: nat) returns (ok: bool)
      requires Valid()
      modifies this, data
      ensures Valid() && (data == old(data) || fresh(data)) && static_flag == old(static_flag)
      ensures ok == (size <= SSIZE_MAX && old(CanHold(size)))
      ensures if ok then Contents() == old(Contents()) + Zeros(size) else Contents() == old(Contents())
    {
      if size > SSIZE_MAX {
        return false;
      }
      ok := Ensure(size);
      if ok {
        Extend(Zeros(size));
      }
    }

    /** `buffer_put`: adds bytes at the end. */
    method Put(src: seq<byte>) returns (ok: bool)
      requires Valid()
      modifies this, data
      ensures Valid() && (data == old(data) || fresh(data)) && static_flag == old(static_flag)
      ensures ok == (|src| <= SSIZE_MAX && old(CanHold(|src|))) && (ok || |src| > SSIZE_MAX || !CanHold(|src|))
      ensures if ok then Contents() == old(Contents()) + src else Contents() == old(Contents())
    {
      if |src| > SSIZE_MAX {
        return false;
      }
      ok := Ensure(|src|);
      if ok {
        Extend(src);
      }
    }

    /** `buffer_putc`. */
    method PutChar(c: byte) returns (ok: bool)
      requires Valid()
      modifies this, data
      ensures Valid() && (data == old(data) || fresh(data)) && static_flag == old(static_flag)
      ensures ok == old(CanHold(1)) && (ok || !CanHold(1))
      ensures if ok then Contents() == old(Contents()) + [c] else Contents() == old(Contents())
    {
      ok := Ensure(1);
      if ok {
        Extend([c]);
      }
    }

    /** `buffer_zero`: a NUL behind the contents, which stay as they are. */
    method Zero() returns (ok: bool)
      requires Valid()
      modifies this, data
      ensures Valid() && (data == old(data) || fresh(data)) && static_flag == old(static_flag)
      ensures Contents() == old(Contents()) && ok == old(CanHold(1))
      ensures if ok then head < data_size && data[head] == 0 else !CanHold(1)
    {
      ok := Ensure(1);
      if ok {
        data[head] := 0;
      }
    }

    /** `buffer_get`: takes bytes from the front. */
    method Get(size: nat) returns (ok: bool, dst: seq<byte>)
      requires Valid()
      modifies this`tail
      ensures Valid() && ok == (size <= |old(Contents())|)
      ensures if ok then old(Contents()) == dst + Contents() && |dst| == size else Contents() == old(Contents())
    {
      if size > SSIZE_MAX || size > head - tail {
        return false, [];
      }
      dst := data[tail..tail + size];
      tail := tail + size;
      return true, dst;
    }

    /** Making room leaves the bytes to be appended as they are, in their possibly new place. */
    method EnsureFor(src: Buf, size: nat) returns (ok: bool)
      requires Valid() && src.Valid() && src.tail + size <= src.data_size
      requires if src == this then size <= head - tail || size <= data_size - head else src.data != data
      modifies this, data
      ensures Valid() && (data == old(data) || fresh(data)) && static_flag == old(static_flag)
      ensures ok == old(CanHold(size))
      ensures Contents() == old(Contents()) && (ok ==> size <= data_size - head)
      ensures src.Valid() && src.Contents() == old(src.Contents())
      ensures ok ==>
                && src.tail + size <= src.data_size
                && src.data[src.tail..src.tail + size] == old(src.data[src.tail..src.tail + size])
    {
      if src == this && size > data_size - head {
        ok := EnsureOwn(size);
      } else if src == this {
        ok := Ensure(size);
      } else {
        ok := EnsureApart(src, size);
      }
    }

    /** The same for bytes of another buffer. */
    method EnsureApart(src: Buf, size: nat) returns (ok: bool)
      requires Valid() && src.Valid() && src != this && src.data != data
      modifies this, data
      ensures Valid() && (data == old(data) || fresh(data)) && static_flag == old(static_flag)
      ensures ok == old(CanHold(size))
      ensures Contents() == old(Contents()) && (ok ==> size <= data_size - head)
      ensures src.Valid() && unchanged(src) && unchanged(src.data) && src.Contents() == old(src.Contents())
    {
      ok := Ensure(size);
    }

    /** The same for bytes of the buffer itself. */
    method EnsureOwn(size: nat) returns (ok: bool)
      requires Valid() && size <= head - tail
      modifies this, data
      ensures Valid() && (data == old(data) || fresh(data)) && static_flag == old(static_flag)
      ensures ok == old(CanHold(size))
      ensures Contents() == old(Contents()) && (ok ==> size <= data_size - head)
      ensures tail + size <= data_size && data[tail..tail + size] == old(data[tail..tail + size])
    {
      Prefix(data, tail, head, size);
      ok := Ensure(size);
      assert |Contents()| == head - tail;
      Prefix(data, tail, head, size);
    }

    /** `_buffer_append`: also when `src` is the buffer itself, whose bytes the making of room may move. */
    method AppendUnchecked(src: Buf, size: nat) returns (ok: bool)
      requires Valid() && src.Valid() && src.tail + size <= src.data_size
      requires if src == this then size <= head - tail || size <= data_size - head else src.data != data
      modifies this, data
      ensures Valid() && (data == old(data) || fresh(data)) && static_flag == old(static_flag)
      ensures ok == old(CanHold(size))
      ensures Contents() == old(Contents()) + if ok then old(src.data[src.tail..src.tail + size]) else []
      ensures src != this ==> src.Valid() && src.Contents() == old(src.Contents())
    {
      ok := EnsureFor(src, size);
      if ok {
        Extend(src.data[src.tail..src.tail + size]);
      }
    }

    /** `buffer_append`. */
    method Append(src: Buf, size: nat) returns (ok: bool)
      requires Valid() && src.Valid() && (src == this || src.data != data)
      modifies this, data
      ensures Valid() && (data == old(data) || fresh(data)) && static_flag == old(static_flag)
      ensures ok == (size <= |old(src.Contents())| && old(CanHold(size)))
      ensures if ok then Contents() == old(Contents()) + old(src.Contents())[..size] else Contents() == old(Contents())
      ensures src != this ==> src.Valid() && src.Contents() == old(src.Contents())
    {
      if size > SSIZE_MAX || size > src.head - src.tail {
        return false;
      }
      ok := AppendUnchecked(src, size);
      assert old(src.data[src.tail..src.tail + size]) == old(src.Contents())[..size];
    }

    /** `buffer_copy`: the destination is zeroed first, so copying a buffer to itself leaves zeros. */
    method Copy(src: Buf, size: nat) returns (ok: bool)
      requires Valid() && src.Valid() && size <= |src.Contents()| && (src == this || src.data != data)
      modifies this, data
      ensures Valid() && (data == old(data) || fresh(data))
      ensures ok == (size <= old(data_size) || (!old(static_flag) && Doubled(old(data_size), size) <= SSIZE_MAX))
      ensures ok && src != this ==>
                Contents() == old(src.Contents())[..size] && src.Valid() && src.Contents() == old(src.Contents())
      ensures src == this ==> ok && Contents() == Zeros(size)
      ensures ok ==>
                var part := old(src.Contents())[..size];
                Contents() == part <==> src != this || part == Zeros(size)
    {
      Prefix(src.data, src.tail, src.head, size);
      Reset();
      ghost var bytes := src.data[src.tail..src.tail + size];
      if src == this {
        assert bytes == Zeros(size);
      } else {
        Prefix(src.data, src.tail, src.head, size);
        assert bytes == src.Contents()[..size];
      }
      ok := AppendUnchecked(src, size);
    }

    /** `buffer_dup`. */
    method Dup() returns (ok: bool, copy: Buf)
      requires Valid()
      ensures fresh(copy) && fresh(copy.data) && copy.Valid() && (ok ==> copy.Contents() == Contents())
      ensures ok == (|Contents()| <= BUFFER_INIT_SIZE || Doubled(BUFFER_INIT_SIZE, |Contents()|) <= SSIZE_MAX)
    {
      copy := new Buf();
      ok := copy.Append(this, head - tail);
    }
  }
}
