/** Machine-level value types shared by the host script, the e-puck firmware
    and the pen changer: bytes, 16-bit integers with their C wrap-around,
    little-endian byte pairs and the `cartesian_coord` record. */
module Types {

  /** `uint8_t` */
  type byte = x: int | 0 <= x < 0x100

  /** `uint16_t` */
  type u16 = x: int | 0 <= x < 0x1_0000

  /** `int16_t` */
  type i16 = x: int | -0x8000 <= x < 0x8000

  datatype Option<T> = None | Some(value: T)

  /** `cartesian_coord` of mod_data.h: two 16-bit unsigned coordinates. */
  datatype Coord = Coord(x: u16, y: u16)

  /** Bytes of an ASCII string, one per character. */
  function Ascii(s: string): (r: seq<byte>)
    requires forall i :: 0 <= i < |s| ==> s[i] as int < 0x80
    ensures |r| == |s|
    ensures forall i :: 0 <= i < |s| ==> r[i] == s[i] as int
  {
    if s == [] then [] else [s[0] as int] + Ascii(s[1..])
  }

  /** Low byte of a 16-bit value (the first byte on a little-endian wire). */
  function Lo(v: u16): byte { v % 0x100 }

  /** High byte of a 16-bit value (the second byte on a little-endian wire). */
  function Hi(v: u16): byte { v / 0x100 }

  /** `(uint16_t)(c1 | c2 << 8)`: two little-endian bytes read back as one value. */
  function Le16(c1: byte, c2: byte): (v: u16)
    ensures Lo(v) == c1 && Hi(v) == c2
  {
    c1 + 0x100 * c2
  }

  /** Splitting a value into its two bytes and joining them gives it back. */
  lemma LeBytesReadBack(v: u16)
    ensures Le16(Lo(v), Hi(v)) == v
  {
  }

  /** The two little-endian bytes of `v`. */
  function Le16Bytes(v: u16): (r: seq<byte>)
    ensures |r| == 2 && Le16(r[0], r[1]) == v
  {
    [Lo(v), Hi(v)]
  }

  /** Conversion of an int to `int16_t` as the target's compiler performs it
      (two's complement wrap-around). */
  function ToInt16(v: int): (r: i16)
    ensures (r - v) % 0x1_0000 == 0
    ensures -0x8000 <= v < 0x8000 ==> r == v
  {
    var m := v % 0x1_0000;
    if m < 0x8000 then m else m - 0x1_0000
  }

  /** `(int16_t)` applied to a `uint16_t`: values from 2^15 up read as
      negative. */
  function Signed16(v: u16): i16
  {
    if v < 0x8000 then v else v - 0x1_0000
  }

  /** Reading a `uint16_t` as `int16_t` is the general conversion. */
  lemma Signed16IsCast(v: u16)
    ensures Signed16(v) == ToInt16(v)
  {
  }

  function Abs(v: int): (r: nat)
    ensures r == v || r == -v
  {
    if v < 0 then -v else v
  }

  function Min(a: int, b: int): (r: int)
    ensures r <= a && r <= b && (r == a || r == b)
  {
    if a <= b then a else b
  }
}
