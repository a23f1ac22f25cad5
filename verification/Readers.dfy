/** The buffered binary reader.  Bytes left in the buffer when a value straddles its end are carried
    over to the front of the next buffer. */
module Readers {
  import opened Wrappers

  newtype byte = x | 0 <= x < 256

  const BUF_SIZE := 65536
  const OVERFLOW_SIZE := 100

  function Min(a: nat, b: nat): nat { if a <= b then a else b }

  /** Unsigned little-endian value. */
  function LittleEndian(bs: seq<byte>): nat {
    if bs == [] then 0 else bs[0] as nat + 256 * LittleEndian(bs[1..])
  }

  /** The bits of a value of the given width read as a two's complement number. */
  function Signed(v: nat, modulus: nat): int { if 2 * v < modulus then v else v - modulus }

  /** The first byte is the lowest. */
  lemma TwoBytes(bs: seq<byte>)
    requires |bs| == 2
    ensures LittleEndian(bs) == bs[0] as nat + 256 * bs[1] as nat < 65536
  {
    assert LittleEndian(bs[1..]) == bs[1] as nat + 256 * LittleEndian(bs[1..][1..]);
    assert bs[1..][1..] == [];
  }

  lemma FourBytes(bs: seq<byte>)
    requires |bs| == 4
    ensures LittleEndian(bs)
         == bs[0] as nat + 256 * bs[1] as nat + 65536 * bs[2] as nat + 16777216 * bs[3] as nat < 4294967296
  {
    TwoBytes(bs[2..]);
    assert bs[1..][1..] == bs[2..];
    assert LittleEndian(bs[1..]) == bs[1] as nat + 256 * LittleEndian(bs[2..]);
  }

  class Reader {
    const file: seq<byte>
    const buf: array<byte>
    const overflow: array<byte>
    var bufPtr: nat
    var endRead: nat
    var remaining: nat
    var overflowSize: nat
    var bytePos: nat

    /** The two arrays are different and as large as the constructor makes them. */
    ghost predicate Sized()
      reads this
    {
      buf != overflow && overflow.Length == OVERFLOW_SIZE && buf.Length == Min(BUF_SIZE, |file|)
    }

    /** What was handed out, what is buffered and what is still on disk make up the file, and the
        buffer holds the bytes that come next. */
    ghost predicate Valid()
      reads this, buf
    {
      && Sized() && bufPtr <= endRead <= buf.Length && overflowSize == 0
      && bytePos + (endRead - bufPtr) + remaining == |file|
      && buf[bufPtr..endRead] == file[bytePos..bytePos + (endRead - bufPtr)]
    }

    /** The same just before a refill: the buffered bytes have been moved to the overflow area. */
    ghost predicate Carried()
      reads this, overflow
    {
      && Sized() && overflowSize <= OVERFLOW_SIZE && overflowSize <= buf.Length
      && bytePos + overflowSize + remaining == |file|
      && overflow[..overflowSize] == file[bytePos..bytePos + overflowSize]
    }

    /** Bytes not handed out yet. */
    ghost function Left(): nat
      reads this, buf
      requires Valid()
    {
      |file| - bytePos
    }

    constructor (file: seq<byte>)
      ensures Valid() && this.file == file && bytePos == 0 && fresh(buf) && fresh(overflow)
    {
      this.file := file;
      buf := new byte[Min(BUF_SIZE, |file|)](_ => 0);
      overflow := new byte[OVERFLOW_SIZE](_ => 0);
      bufPtr, endRead, overflowSize, bytePos := 0, 0, 0, 0;
      remaining := |file|;
      new;
      var more := Refresh();
    }

    /** All bytes have been handed out. */
    method AtEnd() returns (end: bool)
      requires Valid()
      ensures end <==> bytePos == |file|
    {
      end := bufPtr == endRead && remaining == 0 && overflowSize == 0;
    }

    /** Refill the buffer behind the carried bytes.  False when nothing is left. */
    method Refresh() returns (more: bool)
      requires Carried() && (overflowSize == 0 && remaining == 0 ==> bufPtr == endRead <= buf.Length)
      modifies this`bufPtr, this`endRead, this`remaining, this`overflowSize, buf
      ensures Valid() && (more <==> bytePos < |file|)
      ensures more ==> endRead - bufPtr == Min(buf.Length, |file| - bytePos)
    {
      if remaining == 0 && overflowSize == 0 { return false; }
      CopyOverflow();
      var kept := overflowSize;
      var toRead := buf.Length - kept;
      if toRead > remaining { toRead := remaining; }
      ReadFile(kept, toRead);
      bufPtr, endRead := 0, kept + toRead;
      remaining := remaining - toRead;
      overflowSize := 0;
      assert buf[0..endRead] == file[bytePos..bytePos + endRead];
      return true;
    }

    method CopyOverflow()
      requires Carried()
      modifies buf
      ensures Carried() && buf[..overflowSize] == file[bytePos..bytePos + overflowSize]
    {
      for i := 0 to overflowSize
        invariant forall j :: 0 <= j < i ==> buf[j] == overflow[j]
      {
        buf[i] := overflow[i];
      }
      assert buf[..overflowSize] == overflow[..overflowSize];
    }

    /** The system call: the next n bytes of the file, behind the carried ones. */
    method ReadFile(at: nat, n: nat)
      requires Carried() && at == overflowSize && at + n <= buf.Length && n <= remaining
      requires buf[..at] == file[bytePos..bytePos + at]
      modifies buf
      ensures buf[..at + n] == file[bytePos..bytePos + at + n]
    {
      var from := |file| - remaining;
      for i := 0 to n
        invariant buf[..at + i] == file[bytePos..bytePos + at + i]
      {
        buf[at + i] := file[from + i];
        assert buf[..at + i + 1] == buf[..at + i] + [file[from + i]];
      }
    }

    /** Move the unread bytes, fewer than a value, to the overflow area. */
    method SaveOverflow()
      requires Valid() && endRead - bufPtr <= 8
      modifies this`overflowSize, overflow
      ensures Carried() && overflowSize == endRead - bufPtr
    {
      var n := endRead - bufPtr;
      for i := 0 to n
        invariant overflow[..i] == buf[bufPtr..bufPtr + i]
      {
        overflow[i] := buf[bufPtr + i];
        assert overflow[..i + 1] == overflow[..i] + [buf[bufPtr + i]];
      }
      overflowSize := n;
    }

    /** Make sure that k bytes are buffered.  False at the end of the file. */
    method Need(k: nat) returns (ok: bool)
      requires Valid() && 1 <= k <= 8 && (Left() == 0 || Left() >= k)
      modifies this`bufPtr, this`endRead, this`remaining, this`overflowSize, buf, overflow
      ensures Valid() && (ok <==> Left() > 0) && (ok ==> bufPtr + k <= endRead)
    {
      if bufPtr + k <= endRead { return true; }
      if bufPtr < endRead { SaveOverflow(); }
      ok := Refresh();
    }

    /** The next k bytes, wherever the end of the buffer falls. */
    method Read(k: nat) returns (ok: bool, bs: seq<byte>)
      requires Valid() && 1 <= k <= 8 && (Left() == 0 || Left() >= k)
      modifies this`bufPtr, this`endRead, this`remaining, this`overflowSize, this`bytePos, buf, overflow
      ensures Valid() && (ok <==> old(Left()) > 0)
      ensures ok ==> bytePos == old(bytePos) + k && bs == file[old(bytePos)..old(bytePos) + k]
      ensures !ok ==> bytePos == old(bytePos) && bs == []
    {
      ok := Need(k);
      if !ok { return false, []; }
      bs := buf[bufPtr..bufPtr + k];
      assert bs == buf[bufPtr..endRead][..k];
      ghost var rest := buf[bufPtr..endRead][k..];
      bufPtr := bufPtr + k;
      bytePos := bytePos + k;
      assert buf[bufPtr..endRead] == rest;
    }

    method ReadUnsignedShort() returns (v: Option<nat>)
      requires Valid() && (Left() == 0 || Left() >= 2)
      modifies this`bufPtr, this`endRead, this`remaining, this`overflowSize, this`bytePos, buf, overflow
      ensures Valid() && (v.Some? <==> old(Left()) > 0)
      ensures v.Some? ==> bytePos == old(bytePos) + 2 && v.value == LittleEndian(file[old(bytePos)..old(bytePos) + 2])
      ensures v.Some? ==>
        var at := old(bytePos); v.value == file[at] as nat + 256 * file[at + 1] as nat < 65536
    {
      var ok, bs := Read(2);
      if ok { TwoBytes(bs); }
      return if ok then Some(LittleEndian(bs)) else None;
    }

    method ReadInt() returns (v: Option<int>)
      requires Valid() && (Left() == 0 || Left() >= 4)
      modifies this`bufPtr, this`endRead, this`remaining, this`overflowSize, this`bytePos, buf, overflow
      ensures Valid() && (v.Some? <==> old(Left()) > 0)
      ensures v.Some? ==>
        bytePos == old(bytePos) + 4 && v.value == Signed(LittleEndian(file[old(bytePos)..old(bytePos) + 4]), 4294967296)
      ensures v.Some? ==>
        var at := old(bytePos);
        var top := file[at + 3] as int - if file[at + 3] >= 128 then 256 else 0;
        && v.value == file[at] as int + 256 * file[at + 1] as int + 65536 * file[at + 2] as int + 16777216 * top
        && -2147483648 <= v.value < 2147483648
    {
      var ok, bs := Read(4);
      if ok { FourBytes(bs); }
      return if ok then Some(Signed(LittleEndian(bs), 4294967296)) else None;
    }

    /** The bits of a double. */
    method ReadDouble() returns (v: Option<seq<byte>>)
      requires Valid() && (Left() == 0 || Left() >= 8)
      modifies this`bufPtr, this`endRead, this`remaining, this`overflowSize, this`bytePos, buf, overflow
      ensures Valid() && (v.Some? <==> old(Left()) > 0)
      ensures v.Some? ==> bytePos == old(bytePos) + 8 && v.value == file[old(bytePos)..old(bytePos) + 8]
    {
      var ok, bs := Read(8);
      return if ok then Some(bs) else None;
    }
  }
}
