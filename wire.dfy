/** The byte-level vocabulary every component shares: Java's fixed-width
    values, their big-endian layouts (java.nio.ByteBuffer's default order and
    java.io.DataOutputStream's only order), and the runtime exceptions that
    the modelled code can raise. */
module Wire {

  /** One byte of a buffer. Java's signed `byte` b is stored here as b & 0xFF;
      the code only ever compares bytes for equality, so nothing is lost. */
  type byte = b: int | 0 <= b < 0x100

  /** A Java `int`. */
  type int32 = x: int | -0x8000_0000 <= x < 0x8000_0000

  /** A Java `char`: one UTF-16 code unit. */
  type Char16 = c: int | 0 <= c < 0x1_0000

  /** A (non-null) Java `String`: its UTF-16 code units in order. */
  type String16 = seq<Char16>

  /** A 4-byte IPv4 address, as `InetAddress.getAddress()` returns it. */
  type IPv4 = s: seq<byte> | |s| == 4 witness [0, 0, 0, 0]

  /** A reference that may be null. */
  datatype Option<T> = None | Some(value: T)

  /** The Java runtime exceptions that the modelled code lets escape. */
  datatype Fault =
    | BufferUnderflow         // java.nio.BufferUnderflowException
    | BufferOverflow          // java.nio.BufferOverflowException
    | NegativeArraySize       // java.lang.NegativeArraySizeException
    | NullPointer             // java.lang.NullPointerException
    | CancelledKey            // java.nio.channels.CancelledKeyException
    | ClassCast               // java.lang.ClassCastException
    | ConcurrentModification  // java.util.ConcurrentModificationException
    | IllegalArgument         // java.lang.IllegalArgumentException

  datatype Result<T> = Ok(value: T) | Err(fault: Fault)

  /** A step that yields no value: it either completes or raises. */
  datatype Outcome = Completed | Raised(fault: Fault)

  /** `n` zero bytes: the contents of a freshly allocated Java array. */
  function Zeros(n: nat): (r: seq<byte>)
    ensures |r| == n && forall i :: 0 <= i < n ==> r[i] == 0
  {
    seq(n, _ => 0)
  }

  // ---------------------------------------------------------------------
  // int: four bytes, most significant first, two's complement

  /** The two's-complement bit pattern of `x`, read as an unsigned number. */
  function Unsigned32(x: int32): (u: nat)
    ensures u < 0x1_0000_0000
    ensures u % 0x1_0000_0000 == x % 0x1_0000_0000
  {
    if x < 0 then x + 0x1_0000_0000 else x
  }

  /** An `int` counter that has been incremented `n` times from 0: Java's
      `int` arithmetic wraps around modulo 2^32. */
  function Int32Wrap(n: nat): (r: int32)
    ensures n < 0x8000_0000 ==> r == n
    ensures (r - n) % 0x1_0000_0000 == 0
  {
    var u := n % 0x1_0000_0000;
    if u >= 0x8000_0000 then u - 0x1_0000_0000 else u
  }

  /** What `putInt(x)` / `writeInt(x)` writes: the bit pattern cut into
      bytes from the least significant end, most significant first. */
  function Int32Bytes(x: int32): (r: seq<byte>)
    ensures |r| == 4
  {
    var u := Unsigned32(x);
    var v1 := u / 0x100;
    var v2 := v1 / 0x100;
    [v2 / 0x100, v2 % 0x100, v1 % 0x100, u % 0x100]
  }

  /** What `getInt()` / `readInt()` returns for four bytes. */
  function Int32Of(b: seq<byte>): int32
    requires |b| == 4
  {
    var u := b[0] as int * 0x100_0000 + b[1] as int * 0x1_0000 + b[2] as int * 0x100 + b[3] as int;
    if u >= 0x8000_0000 then u - 0x1_0000_0000 else u
  }

  /** Reading back an int that was written yields the same int. */
  lemma {:induction false} Int32RoundTrip(x: int32)
    ensures Int32Of(Int32Bytes(x)) == x
  {
    var u := Unsigned32(x);
    var v1 := u / 0x100;
    var v2 := v1 / 0x100;
    assert u == v1 * 0x100 + u % 0x100;
    assert v1 == v2 * 0x100 + v1 % 0x100;
    assert v2 == (v2 / 0x100) * 0x100 + v2 % 0x100;
  }

  /** Every four bytes are the layout of exactly one int. */
  lemma {:induction false} Int32BytesRoundTrip(b: seq<byte>)
    requires |b| == 4
    ensures Int32Bytes(Int32Of(b)) == b
  {
    var v2 := b[0] as int * 0x100 + b[1] as int;
    var v1 := v2 * 0x100 + b[2] as int;
    var u := v1 * 0x100 + b[3] as int;
    assert Unsigned32(Int32Of(b)) == u;
    assert u / 0x100 == v1 && u % 0x100 == b[3];
    assert v1 / 0x100 == v2 && v1 % 0x100 == b[2];
    assert v2 / 0x100 == b[0] && v2 % 0x100 == b[1];
  }

  /** Different ints have different layouts. */
  lemma {:induction false} Int32BytesInjective(x: int32, y: int32)
    requires Int32Bytes(x) == Int32Bytes(y)
    ensures x == y
  {
    Int32RoundTrip(x);
    Int32RoundTrip(y);
  }

  /** `getInt()` on the unread bytes `s`: the first four, or an underflow. */
  function ReadInt32(s: seq<byte>): (r: Result<int32>)
    ensures r.Err? <==> |s| < 4
    ensures r.Err? ==> r.fault == BufferUnderflow
    ensures |s| >= 4 ==> Int32Bytes(r.value) == s[..4]
  {
    if |s| < 4 then Err(BufferUnderflow)
    else
      Int32BytesRoundTrip(s[..4]);
      Ok(Int32Of(s[..4]))
  }

  // ---------------------------------------------------------------------
  // char: two bytes, high byte first

  /** What `putChar(c)` writes. */
  function Char16Bytes(c: Char16): (r: seq<byte>)
    ensures |r| == 2
  {
    [c / 0x100, c % 0x100]
  }

  /** What `getChar()` returns for the bytes hi, lo. */
  function Char16Of(hi: byte, lo: byte): Char16
  {
    hi as int * 0x100 + lo as int
  }

  /** The bytes that `putChar` writes for each code unit of `s`, in order. */
  function EncodeUnits(s: String16): (r: seq<byte>)
    ensures |r| == 2 * |s|
  {
    if s == [] then [] else Char16Bytes(s[0]) + EncodeUnits(s[1..])
  }

  /** The code units that repeated `getChar` reads from `b`. */
  function DecodeUnits(b: seq<byte>): (r: String16)
    requires |b| % 2 == 0
    ensures |r| == |b| / 2
  {
    if b == [] then [] else [Char16Of(b[0], b[1])] + DecodeUnits(b[2..])
  }

  /** Reading back the code units of a string gives the string. */
  lemma {:induction false} UnitsRoundTrip(s: String16)
    ensures DecodeUnits(EncodeUnits(s)) == s
  {
    if s != [] {
      var e := EncodeUnits(s);
      assert e[2..] == EncodeUnits(s[1..]);
      UnitsRoundTrip(s[1..]);
    }
  }

  /** Writing one more code unit appends its two bytes. */
  lemma {:induction false} EncodeUnitsSnoc(s: String16, c: Char16)
    ensures EncodeUnits(s + [c]) == EncodeUnits(s) + Char16Bytes(c)
  {
    if s != [] {
      assert (s + [c])[1..] == s[1..] + [c];
      EncodeUnitsSnoc(s[1..], c);
    } else {
      assert EncodeUnits([c]) == Char16Bytes(c) + EncodeUnits([]);
    }
  }

  /** Reading one more pair of bytes appends one code unit. */
  lemma {:induction false} DecodeUnitsSnoc(b: seq<byte>, hi: byte, lo: byte)
    requires |b| % 2 == 0
    ensures DecodeUnits(b + [hi, lo]) == DecodeUnits(b) + [Char16Of(hi, lo)]
  {
    if b != [] {
      assert (b + [hi, lo])[2..] == b[2..] + [hi, lo];
      DecodeUnitsSnoc(b[2..], hi, lo);
    } else {
      assert DecodeUnits([hi, lo]) == [Char16Of(hi, lo)] + DecodeUnits([]);
    }
  }
}
