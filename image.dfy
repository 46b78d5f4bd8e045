/** The integer parts of the edge detector of the firmware
    (`canny_edge` in src/modules/mod_img_processing.c) and the two image
    frames it sends back (`send_image`, `send_image_half`). The camera image
    is 100 × 90 pixels in RGB565, two bytes per pixel; pixel (x, y) of a
    one-byte-per-pixel image sits at x + 100·y. */
module Image {
  import opened Types

  /** `IM_LENGTH_PX`, `IM_HEIGHT_PX` */
  const ImLength := 100
  const ImHeight := 90
  const Pixels := ImLength * ImHeight

  /** `position = x + (y * IM_LENGTH_PX)`: the index of pixel (x, y); the
      pixels of the image have positions 0 to 8999. */
  function Position(x: int, y: int): (p: int)
    ensures 0 <= x < ImLength && 0 <= y < ImHeight ==> 0 <= p < Pixels
  {
    x + y * ImLength
  }

  /** `enum colour` of the firmware. */
  datatype PixelColour = White | Black | Red | Blue | Green

  // ---------------------------------------------------------------------
  // Channels and colour classes
  // ---------------------------------------------------------------------

  /** `img_buffer[i] & 0xF8`: the five red bits of the even byte, as the
      averaging loop extracts them. */
  function RedChannel(b0: byte): (r: byte)
    ensures r % 8 == 0 && r <= b0 < r + 8
  {
    b0 - b0 % 8
  }

  /** `img_buffer[i] & 0xF7`, the mask the classification loop uses: it
      clears bit 3 only, so the three high green bits stay in. */
  function RedClassified(b0: byte): (r: byte)
    ensures r <= b0 && (b0 - r == 0 || b0 - r == 8)
    ensures (r / 8) % 2 == 0
  {
    b0 - ((b0 / 8) % 2) * 8
  }

  /** `(img_buffer[i] & 0x07) || (img_buffer[i+1] & 0xE0)`: a logical or,
      so a flag and not the six green bits. */
  function GreenChannel(b0: byte, b1: byte): (g: byte)
    ensures g == 0 || g == 1
    ensures g == 1 <==> b0 % 8 != 0 || b1 >= 32
  {
    if b0 % 8 != 0 || b1 / 32 != 0 then 1 else 0
  }

  /** `img_buffer[i+1] & 0x1F`: the five blue bits of the odd byte. */
  function BlueChannel(b1: byte): (b: byte)
    ensures b < 32 && (b1 - b) % 32 == 0
  {
    b1 % 32
  }

  /** `COEFF` is `0.5f`, so `(uint16_t)COEFF` is 0. */
  const CoeffAsU16 := (0.5).Floor

  /** `low_threshold[i] = (uint16_t)COEFF*average[i]`: whatever the average
      of a channel, its threshold is 0. */
  function LowThreshold(average: real): (t: int)
    requires average >= 0.0
    ensures t == 0
  {
    assert CoeffAsU16 == 0 by {
      assert 0.0 <= 0.5 < 1.0;
    }
    (CoeffAsU16 as real * average).Floor
  }

  /** The chain of tests of the classification loop on the three channels,
      the three thresholds and the pixel's previous class; `green / 2` is
      the `(uint8_t)green_px/2` of the source. The green test compares with
      red twice, as written. */
  function Classify(red: int, green: int, blue: int, low: (int, int, int), previous: PixelColour): PixelColour
  {
    if red < low.0 && blue < low.1 && green / 2 < low.2 then Black
    else if red > blue && red > green / 2 then Red
    else if blue > green / 2 && blue > red then Blue
    else if green / 2 > red && green / 2 > red then Green
    else previous
  }

  /** The class the loop gives a pixel, with the thresholds it computes. */
  function ClassifyPixel(b0: byte, b1: byte, previous: PixelColour): PixelColour
  {
    Classify(RedClassified(b0), GreenChannel(b0, b1), BlueChannel(b1),
             (LowThreshold(0.0), LowThreshold(0.0), LowThreshold(0.0)), previous)
  }

  /** Only the red and blue channels decide a pixel's class: the larger one
      wins, and a tie keeps the class it had. */
  lemma ClassifyPixelCases(b0: byte, b1: byte, previous: PixelColour)
    ensures RedClassified(b0) > BlueChannel(b1) ==> ClassifyPixel(b0, b1, previous) == Red
    ensures BlueChannel(b1) > RedClassified(b0) ==> ClassifyPixel(b0, b1, previous) == Blue
    ensures RedClassified(b0) == BlueChannel(b1) ==> ClassifyPixel(b0, b1, previous) == previous
  {
  }

  /** With zero thresholds the black test cannot pass, and since green
      halves to 0 the green test cannot either: a pixel becomes black or
      green only by keeping that class from before. */
  lemma {:induction false} NeverBlackNorGreen(b0: byte, b1: byte, previous: PixelColour, averages: (real, real, real))
    requires averages.0 >= 0.0 && averages.1 >= 0.0 && averages.2 >= 0.0
    ensures var low := (LowThreshold(averages.0), LowThreshold(averages.1), LowThreshold(averages.2));
            Classify(RedClassified(b0), GreenChannel(b0, b1), BlueChannel(b1), low, previous)
              == ClassifyPixel(b0, b1, previous)
    ensures ClassifyPixel(b0, b1, previous) == Black ==> previous == Black
    ensures ClassifyPixel(b0, b1, previous) == Green ==> previous == Green
  {
    assert GreenChannel(b0, b1) / 2 == 0;
  }

  /** Because of the 0xF7 mask the green bits count as red: the even byte
      0x07 has no red bits, yet with a zero odd byte the pixel is red. */
  lemma GreenBitsCountAsRed()
    ensures RedChannel(0x07) == 0 && RedClassified(0x07) == 7
    ensures ClassifyPixel(0x07, 0x00, White) == Red
  {
    assert BlueChannel(0x00) == 0;
    ClassifyPixelCases(0x07, 0x00, White);
  }

  /** The grey level of a pixel: the float weighting of the three channels,
      which is not part of this model, is the parameter `gray`. */
  function GrayPixel(gray: (int, int, int) -> byte, b0: byte, b1: byte): byte
  {
    gray(RedClassified(b0), GreenChannel(b0, b1), BlueChannel(b1))
  }

  /** The classification loop: pixel p's class is decided from bytes 2p
      and 2p + 1 of the camera image, and its grey level is written back
      over the first half of that same buffer. */
  method ClassifyAndGray(img: array<byte>, colour: array<PixelColour>, gray: (int, int, int) -> byte)
    requires img.Length == 2 * Pixels && colour.Length == Pixels
    modifies img, colour
    ensures forall p | 0 <= p < Pixels ::
              colour[p] == ClassifyPixel(old(img[2 * p]), old(img[2 * p + 1]), old(colour[p]))
    ensures forall p | 0 <= p < Pixels ::
              img[p] == GrayPixel(gray, old(img[2 * p]), old(img[2 * p + 1]))
    ensures forall p | Pixels <= p < img.Length :: img[p] == old(img[p])
  {
    ghost var src, before := img[..], colour[..];
    // p is i / 2 in the source
    var i, p := 0, 0;
    while i < 2 * Pixels
      invariant i == 2 * p && p <= Pixels
      invariant Classified(colour[..], img[..], src, before, gray, p)
    {
      ClassifiedStep(colour[..], img[..], src, before, gray, p);
      var b0, b1 := img[i], img[i + 1];
      colour[p] := ClassifyPixel(b0, b1, colour[p]);
      img[p] := GrayPixel(gray, b0, b1);
      i, p := i + 2, p + 1;
    }
  }

  /** After p steps of the classification loop: the first p classes and
      grey levels are computed from the original bytes, the rest of both
      buffers is as it was. */
  ghost predicate Classified(cs: seq<PixelColour>, im: seq<byte>, src: seq<byte>, before: seq<PixelColour>,
                             gray: (int, int, int) -> byte, p: nat)
  {
    && |cs| == |before| == Pixels && |im| == |src| == 2 * Pixels && p <= Pixels
    && (forall q | 0 <= q < p :: cs[q] == ClassifyPixel(src[2 * q], src[2 * q + 1], before[q]))
    && (forall q | p <= q < Pixels :: cs[q] == before[q])
    && (forall q | 0 <= q < p :: im[q] == GrayPixel(gray, src[2 * q], src[2 * q + 1]))
    && (forall q | p <= q < |im| :: im[q] == src[q])
  }

  /** One step of the classification loop keeps `Classified`. */
  lemma ClassifiedStep(cs: seq<PixelColour>, im: seq<byte>, src: seq<byte>, before: seq<PixelColour>,
                       gray: (int, int, int) -> byte, p: nat)
    requires Classified(cs, im, src, before, gray, p) && p < Pixels
    ensures Classified(cs[p := ClassifyPixel(im[2 * p], im[2 * p + 1], cs[p])],
                       im[p := GrayPixel(gray, im[2 * p], im[2 * p + 1])], src, before, gray, p + 1)
  {
  }

  // ---------------------------------------------------------------------
  // 5 × 5 Gaussian blur
  // ---------------------------------------------------------------------

  /** `Gaus5x5` and `KER_DIV` */
  const Gaus5x5: seq<nat> := [2, 4, 5, 4, 2,
                              4, 9, 12, 9, 4,
                              5, 12, 15, 12, 5,
                              4, 9, 12, 9, 4,
                              2, 4, 5, 4, 2]
  const KerDiv := 159

  /** Weight of the first n kernel entries. */
  function Weight(n: nat): nat
    requires n <= 25
  {
    if n == 0 then 0 else Weight(n - 1) + Gaus5x5[n - 1]
  }

  /** The kernel is normalised by its own sum. */
  lemma KernelSum()
    ensures Weight(25) == KerDiv
  {
    assert Weight(5) == 17;
    assert Weight(10) == 55;
    assert Weight(15) == 104;
    assert Weight(20) == 142;
  }

  /** Column offset `x_ker` of the k-th kernel entry: the outer loop runs
      `x_ker`, the inner one `y_ker`, and k counts both, so each block of
      five entries is one column to the right of the previous one (the
      column is k / 5 - 2). */
  function KernelColumn(k: nat): (c: int)
    requires k < 25
    ensures 5 * (c + 2) <= k < 5 * (c + 3)
  {
    if k < 5 then -2 else KernelColumn(k - 5) + 1
  }

  /** Offset in the image of the k-th kernel entry; its row offset
      `y_ker` is what is left of k within its block of five, minus 2. */
  function KernelOffset(k: nat): (r: int)
    requires k < 25
    ensures -2 - 2 * ImLength <= r <= 2 + 2 * ImLength
  {
    var c := KernelColumn(k);
    var row := k - 5 * (c + 2) - 2;
    assert -2 <= row <= 2;
    c + ImLength * row
  }

  /** The k-th entry is the one the two loops reach at (x_ker, y_ker). */
  lemma {:induction false} KernelOffsetAt(xKer: int, yKer: int)
    requires -2 <= xKer <= 2 && -2 <= yKer <= 2
    ensures KernelColumn(5 * (xKer + 2) + (yKer + 2)) == xKer
    ensures KernelOffset(5 * (xKer + 2) + (yKer + 2)) == xKer + yKer * ImLength
    decreases xKer + 2
  {
    if xKer > -2 {
      KernelOffsetAt(xKer - 1, yKer);
    }
  }

  /** A position whose whole 5 × 5 window lies inside the image. */
  predicate Inner(pos: int, size: nat)
  {
    2 * ImLength + 2 <= pos && pos + 2 * ImLength + 2 < size
  }

  /** The accumulator `conv` after the first n kernel entries. */
  function Conv(img: seq<byte>, pos: int, n: nat): nat
    requires n <= 25 && Inner(pos, |img|)
  {
    if n == 0 then 0 else Conv(img, pos, n - 1) + img[pos + KernelOffset(n - 1)] * Gaus5x5[n - 1]
  }

  /** The accumulator stays between the smallest and the largest value of
      the window times the weights used so far. */
  lemma {:induction false} ConvBounds(img: seq<byte>, pos: int, n: nat, lo: nat, hi: nat)
    requires n <= 25 && Inner(pos, |img|)
    requires forall k | 0 <= k < 25 :: lo <= img[pos + KernelOffset(k)] <= hi
    ensures lo * Weight(n) <= Conv(img, pos, n) <= hi * Weight(n)
  {
    if n > 0 {
      ConvBounds(img, pos, n - 1, lo, hi);
      BoundsStep(lo, hi, Weight(n - 1), Gaus5x5[n - 1], img[pos + KernelOffset(n - 1)], Conv(img, pos, n - 1),
                 Weight(n), Conv(img, pos, n));
    }
  }

  /** Adding g · v, for v between lo and hi, to a sum between lo · w and
      hi · w gives a sum between lo · (w + g) and hi · (w + g). */
  lemma BoundsStep(lo: nat, hi: nat, w: nat, g: nat, v: nat, sum: nat, w': nat, sum': nat)
    requires lo * w <= sum <= hi * w && lo <= v <= hi
    requires w' == w + g && sum' == sum + v * g
    ensures lo * w' <= sum' <= hi * w'
  {
    MulMonotone(lo, v, g);
    MulMonotone(v, hi, g);
    Distribute(lo, w, g);
    Distribute(hi, w, g);
  }

  lemma Distribute(a: nat, b: nat, c: nat)
    ensures a * (b + c) == a * b + a * c
  {
  }

  lemma MulMonotone(a: nat, b: nat, c: nat)
    requires a <= b
    ensures a * c <= b * c
  {
  }

  /** `img_temp_buffer[position]`: the blurred value of an inner pixel. */
  function Blurred(img: seq<byte>, pos: int): nat
    requires Inner(pos, |img|)
  {
    Conv(img, pos, 25) / KerDiv
  }

  /** The blurred value lies between the smallest and the largest value of
      its window, hence fits in a byte (the `uint8_t` cast loses nothing),
      and the 16-bit accumulator never exceeds 159 · 255. */
  lemma {:induction false} BlurWithinWindow(img: seq<byte>, pos: int, lo: nat, hi: nat)
    requires Inner(pos, |img|)
    requires forall k | 0 <= k < 25 :: lo <= img[pos + KernelOffset(k)] <= hi
    ensures lo <= Blurred(img, pos) <= hi
    ensures Blurred(img, pos) < 0x100
    ensures forall n | 0 <= n <= 25 :: Conv(img, pos, n) <= 255 * KerDiv < 0x1_0000
  {
    KernelSum();
    ConvBounds(img, pos, 25, lo, hi);
    var c := Conv(img, pos, 25);
    assert lo * KerDiv <= c <= hi * KerDiv;
    assert lo <= c / KerDiv <= hi;
    forall n | 0 <= n <= 25
      ensures Conv(img, pos, n) <= 255 * KerDiv
    {
      ConvBounds(img, pos, n, 0, 255);
      WeightBound(n);
    }
  }

  lemma {:induction false} WeightBound(n: nat)
    requires n <= 25
    ensures Weight(n) <= KerDiv
  {
    WeightMonotone(n, 25);
    KernelSum();
  }

  lemma {:induction false} WeightMonotone(m: nat, n: nat)
    requires m <= n <= 25
    ensures Weight(m) <= Weight(n)
    decreases n - m
  {
    if m < n {
      WeightMonotone(m, n - 1);
    }
  }

  /** A pixel and the window of its 5 × 5 neighbours. */
  lemma WindowOfInner(x: int, y: int, size: nat)
    requires 2 <= x < ImLength - 2 && 2 <= y < ImHeight - 2 && Pixels <= size
    ensures Inner(Position(x, y), size)
    ensures forall k | 0 <= k < 25 :: 0 <= Position(x, y) + KernelOffset(k) < Pixels
  {
  }

  /** The two kernel loops for one position, with the 16-bit accumulator. */
  method Convolve(img: array<byte>, pos: int) returns (conv: u16)
    requires Inner(pos, img.Length)
    ensures conv == Conv(img[..], pos, 25)
  {
    conv := 0;
    var xKer := -2;
    while xKer <= 2
      invariant -2 <= xKer <= 3
      invariant conv == Conv(img[..], pos, 5 * (xKer + 2))
    {
      conv := ConvolveColumn(img, pos, xKer, conv);
      xKer := xKer + 1;
    }
  }

  /** The inner kernel loop, over `y_ker`, for one column `x_ker`. */
  method ConvolveColumn(img: array<byte>, pos: int, xKer: int, conv0: u16) returns (conv: u16)
    requires Inner(pos, img.Length) && -2 <= xKer <= 2
    requires conv0 == Conv(img[..], pos, 5 * (xKer + 2))
    ensures conv == Conv(img[..], pos, 5 * (xKer + 3))
  {
    ghost var s := img[..];
    conv := conv0;
    var k := 5 * (xKer + 2);
    var yKer := -2;
    while yKer <= 2
      invariant -2 <= yKer <= 3 && k == 5 * (xKer + 2) + (yKer + 2)
      invariant conv == Conv(s, pos, k)
    {
      KernelOffsetAt(xKer, yKer);
      var index := pos + xKer + yKer * ImLength;
      assert index == pos + KernelOffset(k);
      var v := img[index];
      ConvStep(s, pos, k, v);
      conv := conv + v * Gaus5x5[k];
      k := k + 1;
      yKer := yKer + 1;
    }
    assert k == 5 * (xKer + 3);
  }

  /** One step of the kernel loops: the accumulator grows by the weighted
      value and still fits in 16 bits. */
  lemma ConvStep(s: seq<byte>, pos: int, k: nat, v: byte)
    requires Inner(pos, |s|) && k < 25 && v == s[pos + KernelOffset(k)]
    ensures Conv(s, pos, k + 1) == Conv(s, pos, k) + v * Gaus5x5[k] < 0x1_0000
  {
    BlurWithinWindow(s, pos, 0, 255);
  }

  /** The blur loops: every inner pixel of `temp` gets the blurred value of
      the grey image; the two-pixel border of `temp` is left as it was. */
  method GaussianBlur(img: array<byte>, temp: array<byte>)
    requires img.Length == 2 * Pixels && temp.Length == Pixels && img != temp
    modifies temp
    ensures forall x, y | 2 <= x < ImLength - 2 && 2 <= y < ImHeight - 2 ::
              Inner(Position(x, y), img.Length) && temp[Position(x, y)] == Blurred(img[..], Position(x, y))
    ensures forall x, y | 0 <= x < ImLength && 0 <= y < ImHeight && !(2 <= x < ImLength - 2 && 2 <= y < ImHeight - 2) ::
              temp[Position(x, y)] == old(temp[Position(x, y)])
  {
    var x := 2;
    while x < ImLength - 2
      invariant 2 <= x <= ImLength - 2
      invariant forall xx, yy | 2 <= xx < x && 2 <= yy < ImHeight - 2 ::
                  Inner(Position(xx, yy), img.Length) && temp[Position(xx, yy)] == Blurred(img[..], Position(xx, yy))
      invariant forall xx, yy | 0 <= xx < ImLength && 0 <= yy < ImHeight && !(2 <= xx < x && 2 <= yy < ImHeight - 2) ::
                  temp[Position(xx, yy)] == old(temp[Position(xx, yy)])
    {
      BlurColumn(img, temp, x);
      x := x + 1;
    }
  }

  /** The inner loop of the blur, over the rows of column x. */
  method BlurColumn(img: array<byte>, temp: array<byte>, x: int)
    requires img.Length == 2 * Pixels && temp.Length == Pixels && img != temp && 2 <= x < ImLength - 2
    modifies temp
    ensures forall yy | 2 <= yy < ImHeight - 2 ::
              Inner(Position(x, yy), img.Length) && temp[Position(x, yy)] == Blurred(img[..], Position(x, yy))
    ensures forall xx, yy | 0 <= xx < ImLength && 0 <= yy < ImHeight && !(xx == x && 2 <= yy < ImHeight - 2) ::
              temp[Position(xx, yy)] == old(temp[Position(xx, yy)])
  {
    var y := 2;
    while y < ImHeight - 2
      invariant 2 <= y <= ImHeight - 2
      invariant forall yy | 2 <= yy < y ::
                  Inner(Position(x, yy), img.Length) && temp[Position(x, yy)] == Blurred(img[..], Position(x, yy))
      invariant forall xx, yy | 0 <= xx < ImLength && 0 <= yy < ImHeight && !(xx == x && 2 <= yy < y) ::
                  temp[Position(xx, yy)] == old(temp[Position(xx, yy)])
    {
      var position := Position(x, y);
      WindowOfInner(x, y, img.Length);
      var conv := Convolve(img, position);
      BlurWithinWindow(img[..], position, 0, 255);
      temp[position] := conv / KerDiv;
      y := y + 1;
    }
  }

  // ---------------------------------------------------------------------
  // Double threshold
  // ---------------------------------------------------------------------

  /** `HIGH_THRESHOLD`, `LOW_THRESHOLD` */
  const HighThreshold: real := 0.3
  const LowThresholdRatio: real := 0.2

  /** The level a pixel of value v gets, `max` being the largest gradient
      magnitude: strong (255), weak (100) or none (0). */
  function Level(v: byte, max: real): (l: byte)
    ensures l == 0 || l == 100 || l == 255
    ensures l == 255 <==> v as real > HighThreshold * max
    ensures l == 0 <==> v as real <= LowThresholdRatio * max && v as real <= HighThreshold * max
  {
    if v as real > HighThreshold * max then 255
    else if v as real > LowThresholdRatio * max then 100
    else 0
  }

  /** For a non-negative maximum a brighter pixel never gets a lower level. */
  lemma LevelMonotone(v: byte, w: byte, max: real)
    requires v <= w && max >= 0.0
    ensures Level(v, max) <= Level(w, max)
  {
  }

  /** The double-threshold loops over every pixel. */
  method DoubleThreshold(img: array<byte>, max: real, temp: array<byte>)
    requires img.Length >= Pixels && temp.Length == Pixels && img != temp
    modifies temp
    ensures forall x, y | 0 <= x < ImLength && 0 <= y < ImHeight ::
              temp[Position(x, y)] == Level(img[Position(x, y)], max)
    ensures forall p | 0 <= p < Pixels :: temp[p] == 0 || temp[p] == 100 || temp[p] == 255
  {
    var x := 0;
    while x < ImLength
      invariant 0 <= x <= ImLength
      invariant forall xx, yy | 0 <= xx < x && 0 <= yy < ImHeight ::
                  temp[Position(xx, yy)] == Level(img[Position(xx, yy)], max)
    {
      var y := 0;
      while y < ImHeight
        invariant 0 <= y <= ImHeight
        invariant forall xx, yy | 0 <= xx < x && 0 <= yy < ImHeight ::
                    temp[Position(xx, yy)] == Level(img[Position(xx, yy)], max)
        invariant forall yy | 0 <= yy < y :: temp[Position(x, yy)] == Level(img[Position(x, yy)], max)
      {
        var position := Position(x, y);
        temp[position] := Level(img[position], max);
        y := y + 1;
      }
      x := x + 1;
    }
    forall p | 0 <= p < Pixels
      ensures temp[p] == 0 || temp[p] == 100 || temp[p] == 255
    {
      var xx, yy := p % ImLength, p / ImLength;
      assert p == Position(xx, yy);
    }
  }

  // ---------------------------------------------------------------------
  // Image frames
  // ---------------------------------------------------------------------

  /** `"START"`, written with an explicit size of 5. */
  const StartWord: seq<byte> := [0x53, 0x54, 0x41, 0x52, 0x54]

  /** One `chSequentialStreamWrite` of `size` bytes from `offset`. */
  datatype Chunk = Chunk(offset: nat, size: nat)

  const ImageChunks := [Chunk(0, 4000), Chunk(4000, 4000), Chunk(8000, 4000), Chunk(12000, 4000), Chunk(16000, 2000)]
  const HalfChunks := [Chunk(0, 4000), Chunk(4000, 4000), Chunk(8000, 1000)]

  /** The chunks follow one another without gap or overlap from `from` to
      `to`. */
  predicate Tiles(chunks: seq<Chunk>, from: nat, to: nat)
    decreases |chunks|
  {
    if chunks == [] then from == to
    else chunks[0].offset == from && Tiles(chunks[1..], from + chunks[0].size, to)
  }

  predicate Within(chunks: seq<Chunk>, size: nat)
  {
    forall i | 0 <= i < |chunks| :: chunks[i].offset + chunks[i].size <= size
  }

  /** The bytes of each write. */
  function ChunkWrites(buf: seq<byte>, chunks: seq<Chunk>): (ws: seq<seq<byte>>)
    requires Within(chunks, |buf|)
    ensures |ws| == |chunks|
    ensures forall i | 0 <= i < |chunks| :: |ws[i]| == chunks[i].size
  {
    seq(|chunks|, i requires 0 <= i < |chunks| => buf[chunks[i].offset .. chunks[i].offset + chunks[i].size])
  }

  /** What the host receives: the writes one after the other. */
  function Concat(ws: seq<seq<byte>>): seq<byte>
  {
    if ws == [] then [] else ws[0] + Concat(ws[1..])
  }

  /** Tiling chunks send exactly the bytes they tile, in order. */
  lemma {:induction false} TilesSendAll(buf: seq<byte>, chunks: seq<Chunk>, from: nat, to: nat)
    requires Tiles(chunks, from, to) && to <= |buf|
    ensures from <= to && Within(chunks, |buf|)
    ensures Concat(ChunkWrites(buf, chunks)) == buf[from..to]
    decreases |chunks|
  {
    if chunks != [] {
      var c := chunks[0];
      TilesSendAll(buf, chunks[1..], from + c.size, to);
      assert ChunkWrites(buf, chunks)[1..] == ChunkWrites(buf, chunks[1..]);
      assert buf[from..to] == buf[from..from + c.size] + buf[from + c.size..to];
    }
  }

  /** `send_image` covers the two bytes of every pixel, and
      `send_image_half` one byte of every pixel. */
  lemma ChunkLayouts()
    ensures Tiles(ImageChunks, 0, 2 * Pixels)
    ensures Tiles(HalfChunks, 0, Pixels)
  {
    assert ImageChunks[1..][1..][1..][1..][1..] == [];
    assert HalfChunks[1..][1..][1..] == [];
  }

  /** `send_image`: the marker, then the camera buffer in five writes of at
      most 4000 bytes. The sleeps between writes are left out. */
  method SendImage(img: array<byte>) returns (writes: seq<seq<byte>>)
    requires img.Length == 2 * Pixels
    ensures Within(ImageChunks, img.Length) && writes == [StartWord] + ChunkWrites(img[..], ImageChunks)
    ensures Concat(writes) == StartWord + img[..]
    ensures forall i | 0 <= i < |writes| :: |writes[i]| <= 4000
  {
    ChunkLayouts();
    TilesSendAll(img[..], ImageChunks, 0, 2 * Pixels);
    writes := [StartWord];
    writes := writes + [img[0..4000]];
    writes := writes + [img[4000..8000]];
    writes := writes + [img[8000..12000]];
    writes := writes + [img[12000..16000]];
    writes := writes + [img[16000..18000]];
    assert writes[1..] == ChunkWrites(img[..], ImageChunks);
    assert writes == [StartWord] + writes[1..];
  }

  /** `send_image_half`: the marker, then `img_temp_buffer` in writes of
      4000, 4000 and 1000 bytes. */
  method SendImageHalf(temp: array<byte>) returns (writes: seq<seq<byte>>)
    requires temp.Length == Pixels
    ensures Within(HalfChunks, temp.Length) && writes == [StartWord] + ChunkWrites(temp[..], HalfChunks)
    ensures Concat(writes) == StartWord + temp[..]
    ensures forall i | 0 <= i < |writes| :: |writes[i]| <= 4000
  {
    ChunkLayouts();
    TilesSendAll(temp[..], HalfChunks, 0, Pixels);
    writes := [StartWord];
    writes := writes + [temp[0..4000]];
    writes := writes + [temp[4000..8000]];
    writes := writes + [temp[8000..9000]];
    assert writes[1..] == ChunkWrites(temp[..], HalfChunks);
    assert writes == [StartWord] + writes[1..];
  }
}
