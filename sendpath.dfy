/** The path frame the robot sends back to the computer (`send_path` in
    src/main.c): a header, the 16-bit length, then all x coordinates, all y
    coordinates and all colours, one byte each. The serial port is
    abstracted to the bytes written, in order. */
module SendPath {
  import opened Types

  /** `"START\r"`, written with an explicit size of 6. */
  const StartMarker: seq<byte> := [0x53, 0x54, 0x41, 0x52, 0x54, 0x0D]
  /** `"path\n"`, written by `chprintf`. */
  const PathLabel: seq<byte> := [0x70, 0x61, 0x74, 0x68, 0x0A]

  /** One byte of each coordinate is sent: `sizeof(uint8_t)` bytes from the
      coordinate's address, which on the little-endian target is its low
      byte. */
  function XBytes(path: seq<Coord>): (r: seq<byte>)
    ensures |r| == |path| && forall i :: 0 <= i < |path| ==> r[i] == Lo(path[i].x)
  {
    seq(|path|, i requires 0 <= i < |path| => Lo(path[i].x))
  }

  function YBytes(path: seq<Coord>): (r: seq<byte>)
    ensures |r| == |path| && forall i :: 0 <= i < |path| ==> r[i] == Lo(path[i].y)
  {
    seq(|path|, i requires 0 <= i < |path| => Lo(path[i].y))
  }

  /** The whole frame for the first `length` points of `path` and `color`. */
  function PathFrame(length: u16, path: seq<Coord>, color: seq<byte>): seq<byte>
    requires length <= |path| && length <= |color|
  {
    StartMarker + PathLabel + Le16Bytes(length) + XBytes(path[..length]) + YBytes(path[..length]) + color[..length]
  }

  /** The frame is 13 + 3·length bytes: the 6-byte marker, the 5-byte label,
      the length in two little-endian bytes, then the i-th x, y and colour at
      13 + i, 13 + length + i and 13 + 2·length + i. */
  lemma PathFrameLayout(length: u16, path: seq<Coord>, color: seq<byte>, i: nat)
    requires length <= |path| && length <= |color| && i < length
    ensures var w := PathFrame(length, path, color);
            var n := length as int;
            |w| == 13 + 3 * n &&
            w[..6] == StartMarker && w[6..11] == PathLabel && Le16(w[11], w[12]) == length &&
            w[13 + i] == Lo(path[i].x) && w[13 + n + i] == Lo(path[i].y) && w[13 + 2 * n + i] == color[i]
  {
    var n := length as int;
    var head := StartMarker + PathLabel + Le16Bytes(length);
    var xs := XBytes(path[..length]);
    var ys := YBytes(path[..length]);
    var w := PathFrame(length, path, color);
    assert w == head + xs + ys + color[..length];
    assert |head| == 13;
    assert w[..6] == StartMarker;
    assert w[6..11] == PathLabel;
    assert w[11] == Lo(length) && w[12] == Hi(length);
    assert w[13 + i] == xs[i];
    assert w[13 + n + i] == ys[i];
    assert w[13 + 2 * n + i] == color[..length][i];
  }

  /** Only the low bytes of the coordinates reach the frame: paths that
      agree on them produce the same frame, so (256, 512) is sent as (0, 0). */
  lemma LowBytesDecide(length: u16, p: seq<Coord>, q: seq<Coord>, color: seq<byte>)
    requires length <= |p| == |q| && length <= |color|
    requires forall i :: 0 <= i < |p| ==> Lo(p[i].x) == Lo(q[i].x) && Lo(p[i].y) == Lo(q[i].y)
    ensures PathFrame(length, p, color) == PathFrame(length, q, color)
    ensures PathFrame(1, [Coord(0x100, 0x200)], [0]) == PathFrame(1, [Coord(0, 0)], [0])
  {
    assert XBytes(p[..length]) == XBytes(q[..length]);
    assert YBytes(p[..length]) == YBytes(q[..length]);
    var big, zero := [Coord(0x100, 0x200)], [Coord(0, 0)];
    assert big[..1] == big && zero[..1] == zero;
    assert XBytes(big) == [0] == XBytes(zero);
    assert YBytes(big) == [0] == YBytes(zero);
  }

  /** The first loop of `send_path`: one byte per point, its x. */
  method SendXs(length: u16, path: array<Coord>) returns (written: seq<byte>)
    requires length <= path.Length
    ensures written == XBytes(path[..length])
  {
    written := [];
    var i: u16 := 0;
    while i < length
      invariant 0 <= i <= length
      invariant written == XBytes(path[..i])
    {
      written := written + [Lo(path[i].x)];
      i := i + 1;
      assert XBytes(path[..i]) == XBytes(path[..i - 1]) + [Lo(path[i - 1].x)];
    }
  }

  /** The second loop of `send_path`: one byte per point, its y. */
  method SendYs(length: u16, path: array<Coord>) returns (written: seq<byte>)
    requires length <= path.Length
    ensures written == YBytes(path[..length])
  {
    written := [];
    var i: u16 := 0;
    while i < length
      invariant 0 <= i <= length
      invariant written == YBytes(path[..i])
    {
      written := written + [Lo(path[i].y)];
      i := i + 1;
      assert YBytes(path[..i]) == YBytes(path[..i - 1]) + [Lo(path[i - 1].y)];
    }
  }

  /** The third loop of `send_path`: the colours, one byte each. */
  method SendColours(length: u16, color: array<byte>) returns (written: seq<byte>)
    requires length <= color.Length
    ensures written == color[..length]
  {
    written := [];
    var i: u16 := 0;
    while i < length
      invariant 0 <= i <= length
      invariant written == color[..i]
    {
      written := written + [color[i]];
      i := i + 1;
      assert color[..i] == color[..i - 1] + [color[i - 1]];
    }
  }

  /** `send_path` as written: the header writes and three loops of one-byte
      writes, over the buffers the data store holds. */
  method SendPathFrame(length: u16, path: array<Coord>, color: array<byte>) returns (written: seq<byte>)
    requires length <= path.Length && length <= color.Length
    ensures written == PathFrame(length, path[..], color[..])
  {
    written := StartMarker;
    written := written + PathLabel;
    written := written + Le16Bytes(length);
    var xs := SendXs(length, path);
    written := written + xs;
    var ys := SendYs(length, path);
    written := written + ys;
    var cs := SendColours(length, color);
    written := written + cs;
    assert path[..][..length] == path[..length];
    assert color[..][..length] == color[..length];
  }
}
