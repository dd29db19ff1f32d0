/** java.nio.ByteBuffer as the code uses it: a heap buffer over a fixed
    backing array, in big-endian order, with relative gets and puts that move
    a cursor. A get past the limit raises BufferUnderflowException and a put
    past it BufferOverflowException; either way the cursor does not move. */
module Buffers {
  import opened Wire

  class ByteBuffer {
    /** The backing array, which `array()` hands out. */
    const data: array<byte>
    /** Index of the next byte a relative get or put touches. */
    var position: nat
    /** Index of the first byte that must not be touched. */
    var limit: nat

    ghost predicate Valid()
      reads this
    {
      position <= limit <= data.Length
    }

    /** `remaining()`. */
    function Remaining(): nat
      reads this
      requires Valid()
    {
      limit - position
    }

    /** The bytes that the next relative gets read, in order. */
    function Unread(): (u: seq<byte>)
      reads this, data
      requires Valid()
      ensures |u| == Remaining()
    {
      data[position..limit]
    }

    /** `ByteBuffer.allocate(capacity)`: zero-filled, cursor at 0, limit at the end. */
    constructor Allocate(capacity: nat)
      ensures Valid() && fresh(data)
      ensures data[..] == Zeros(capacity) && position == 0 && limit == capacity
    {
      data := new byte[capacity](_ => 0);
      position, limit := 0, capacity;
    }

    /** `ByteBuffer.wrap(bytes)`: the bytes, all unread. */
    constructor Wrap(bytes: seq<byte>)
      ensures Valid() && fresh(data)
      ensures data[..] == bytes && position == 0 && limit == |bytes|
      ensures Unread() == bytes
    {
      data := new byte[|bytes|](i requires 0 <= i < |bytes| => bytes[i]);
      position, limit := 0, |bytes|;
    }

    /** `flip()`: what was written becomes what is read. */
    method Flip()
      requires Valid()
      modifies this
      ensures Valid() && limit == old(position) && position == 0
      ensures Unread() == data[..old(position)]
    {
      limit, position := position, 0;
    }

    /** `get()`. */
    method Get() returns (r: Result<byte>)
      requires Valid()
      modifies this
      ensures Valid() && limit == old(limit)
      ensures r.Ok? <==> old(Remaining()) >= 1
      ensures r.Ok? ==> r.value == old(Unread())[0] && position == old(position) + 1
      ensures r.Err? ==> r.fault == BufferUnderflow && position == old(position)
    {
      if position < limit {
        r := Ok(data[position]);
        position := position + 1;
      } else {
        r := Err(BufferUnderflow);
      }
    }

    /** `getInt()`. */
    method GetInt() returns (r: Result<int32>)
      requires Valid()
      modifies this
      ensures Valid() && limit == old(limit)
      ensures r == ReadInt32(old(Unread()))
      ensures r.Ok? ==> position == old(position) + 4
      ensures r.Err? ==> position == old(position)
    {
      if limit - position < 4 {
        r := Err(BufferUnderflow);
      } else {
        r := Ok(Int32Of(data[position..position + 4]));
        assert data[position..position + 4] == Unread()[..4];
        position := position + 4;
      }
    }

    /** `getChar()`. */
    method GetChar() returns (r: Result<Char16>)
      requires Valid()
      modifies this
      ensures Valid() && limit == old(limit)
      ensures r.Ok? <==> old(Remaining()) >= 2
      ensures r.Ok? ==> (r.value == Char16Of(old(Unread())[0], old(Unread())[1])
                       && position == old(position) + 2)
      ensures r.Err? ==> r.fault == BufferUnderflow && position == old(position)
    {
      if limit - position < 2 {
        r := Err(BufferUnderflow);
      } else {
        r := Ok(Char16Of(data[position], data[position + 1]));
        position := position + 2;
      }
    }

    /** `put(byte[] src)`: all of `src`, or nothing and an overflow. */
    method PutBytes(src: seq<byte>) returns (ok: bool)
      requires Valid()
      modifies this, data
      ensures Valid() && limit == old(limit)
      ensures ok <==> |src| <= old(Remaining())
      ensures ok ==> (position == old(position) + |src|
                   && data[..] == old(data[..position]) + src + old(data[position + |src|..]))
      ensures !ok ==> position == old(position) && data[..] == old(data[..])
    {
      if |src| > limit - position {
        return false;
      }
      forall i | 0 <= i < |src| {
        data[position + i] := src[i];
      }
      assert data[..] == old(data[..position]) + src + old(data[position + |src|..]);
      position := position + |src|;
      ok := true;
    }

    /** `put(byte b)`. */
    method Put(b: byte) returns (ok: bool)
      requires Valid()
      modifies this, data
      ensures Valid() && limit == old(limit)
      ensures ok <==> 1 <= old(Remaining())
      ensures ok ==> (position == old(position) + 1
                   && data[..] == old(data[..position]) + [b] + old(data[position + 1..]))
      ensures !ok ==> position == old(position) && data[..] == old(data[..])
    {
      ok := PutBytes([b]);
    }

    /** `putInt(x)`: four bytes, most significant first. */
    method PutInt(x: int32) returns (ok: bool)
      requires Valid()
      modifies this, data
      ensures Valid() && limit == old(limit)
      ensures ok <==> 4 <= old(Remaining())
      ensures ok ==> (position == old(position) + 4
                   && data[..] == old(data[..position]) + Int32Bytes(x) + old(data[position + 4..]))
      ensures !ok ==> position == old(position) && data[..] == old(data[..])
    {
      ok := PutBytes(Int32Bytes(x));
    }

    /** `putChar(c)`: two bytes, high byte first. */
    method PutChar(c: Char16) returns (ok: bool)
      requires Valid()
      modifies this, data
      ensures Valid() && limit == old(limit)
      ensures ok <==> 2 <= old(Remaining())
      ensures ok ==> (position == old(position) + 2
                   && data[..] == old(data[..position]) + Char16Bytes(c) + old(data[position + 2..]))
      ensures !ok ==> position == old(position) && data[..] == old(data[..])
    {
      ok := PutBytes(Char16Bytes(c));
    }
  }
}
