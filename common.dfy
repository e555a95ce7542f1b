/** Bytes, fixed-width little-endian integers and the small result types
    shared by the whole model. */
module Common {

  /** A value that may be absent (Python's `None`). */
  datatype Option<+T> = None | Some(value: T)

  /** The outcome of an operation that may raise an exception the source
      lets propagate to its caller. */
  datatype Fallible<+T> = Done(value: T) | Raised

  type byte = b: int | 0 <= b < 0x100
  type u16 = n: int | 0 <= n < 0x1_0000
  type u32 = n: int | 0 <= n < 0x1_0000_0000

  /** `256 ** k`, the number of values `k` bytes can hold. */
  function Radix(k: nat): (r: nat)
    ensures r >= 1
  {
    if k == 0 then 1 else 0x100 * Radix(k - 1)
  }

  /** `int.from_bytes(b, 'little')` */
  function FromLE(b: seq<byte>): (n: nat)
    ensures n < Radix(|b|)
  {
    if |b| == 0 then 0 else b[0] + 0x100 * FromLE(b[1..])
  }

  /** `int.from_bytes(d[p:p + k], 'little')`, read byte by byte in place. */
  function FromLEAt(d: seq<byte>, p: int, k: nat): (n: nat)
    requires 0 <= p && p + k <= |d|
    ensures n < Radix(k)
    decreases k
  {
    if k == 0 then 0 else d[p] + 0x100 * FromLEAt(d, p + 1, k - 1)
  }

  /** Reading in place is decoding the slice. */
  lemma {:induction false} FromLEAtSlice(d: seq<byte>, p: int, k: nat)
    requires 0 <= p && p + k <= |d|
    ensures FromLEAt(d, p, k) == FromLE(d[p .. p + k])
    decreases k
  {
    if k > 0 {
      FromLEAtSlice(d, p + 1, k - 1);
      assert d[p .. p + k][1..] == d[p + 1 .. p + k];
    }
  }

  /** `n.to_bytes(k, 'little')`: the `k` low bytes of `n`, least significant first. */
  function ToLE(n: nat, k: nat): (r: seq<byte>)
    ensures |r| == k
  {
    if k == 0 then [] else [n % 0x100] + ToLE(n / 0x100, k - 1)
  }

  /** Decoding the encoding of a value that fits gives the value back. */
  lemma {:induction false} LERoundTrip(n: nat, k: nat)
    requires n < Radix(k)
    ensures FromLE(ToLE(n, k)) == n
  {
    if k > 0 {
      var b := ToLE(n, k);
      assert b[1..] == ToLE(n / 0x100, k - 1);
      assert n / 0x100 < Radix(k - 1);
      LERoundTrip(n / 0x100, k - 1);
    }
  }

  /** Encoding the value of a byte string gives the string back. */
  lemma {:induction false} LEBytesRoundTrip(b: seq<byte>)
    ensures ToLE(FromLE(b), |b|) == b
  {
    if |b| > 0 {
      var n := FromLE(b);
      assert n % 0x100 == b[0] && n / 0x100 == FromLE(b[1..]);
      LEBytesRoundTrip(b[1..]);
    }
  }

  lemma Radix4()
    ensures Radix(2) == 0x1_0000 && Radix(4) == 0x1_0000_0000
  {
    assert Radix(1) == 0x100;
    assert Radix(3) == 0x100_0000;
  }

  function EncodeU16(n: u16): (r: seq<byte>)
    ensures |r| == 2
  {
    ToLE(n, 2)
  }

  function DecodeU16(b: seq<byte>): (n: u16)
    requires |b| == 2
  {
    Radix4();
    FromLE(b)
  }

  function EncodeU32(n: u32): (r: seq<byte>)
    ensures |r| == 4
  {
    ToLE(n, 4)
  }

  function DecodeU32(b: seq<byte>): (n: u32)
    requires |b| == 4
  {
    Radix4();
    FromLE(b)
  }

  lemma U16BytesRoundTrip(b: seq<byte>)
    requires |b| == 2
    ensures EncodeU16(DecodeU16(b)) == b
  {
    LEBytesRoundTrip(b);
  }

  lemma U32BytesRoundTrip(b: seq<byte>)
    requires |b| == 4
    ensures EncodeU32(DecodeU32(b)) == b
  {
    LEBytesRoundTrip(b);
  }

  /** `struct.pack("i", n)` on a little-endian target: two's complement. */
  function EncodeI32(n: int): (r: seq<byte>)
    requires -0x8000_0000 <= n < 0x8000_0000
    ensures |r| == 4
  {
    EncodeU32(if n < 0 then n + 0x1_0000_0000 else n)
  }

  /** `struct.unpack("i", b)[0]` on a little-endian target. */
  function DecodeI32(b: seq<byte>): (n: int)
    requires |b| == 4
    ensures -0x8000_0000 <= n < 0x8000_0000
  {
    Signed32(DecodeU32(b))
  }

  /** The two's-complement reading of a 32-bit pattern. */
  function Signed32(u: u32): (n: int)
    ensures -0x8000_0000 <= n < 0x8000_0000
  {
    if u < 0x8000_0000 then u else u - 0x1_0000_0000
  }

  lemma U16RoundTrip(n: u16)
    ensures DecodeU16(EncodeU16(n)) == n
  {
    Radix4();
    LERoundTrip(n, 2);
  }

  lemma U32RoundTrip(n: u32)
    ensures DecodeU32(EncodeU32(n)) == n
  {
    Radix4();
    LERoundTrip(n, 4);
  }

  lemma I32RoundTrip(n: int)
    requires -0x8000_0000 <= n < 0x8000_0000
    ensures DecodeI32(EncodeI32(n)) == n
  {
    U32RoundTrip(if n < 0 then n + 0x1_0000_0000 else n);
  }

  /** `bytes(n)`: n zero bytes */
  function Zeros(n: nat): (r: seq<byte>)
    ensures |r| == n && forall i :: 0 <= i < n ==> r[i] == 0
  {
    seq(n, _ => 0)
  }
}
