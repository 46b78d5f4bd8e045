/** The robot side of the serial protocol (src/modules/mod_communication.c).
    The serial stream is the sequence of bytes that arrive, read from a
    position onwards; a read past its end is `Starved`, which stands for the
    firmware blocking in `chSequentialStreamGet` until more bytes come. */
module Comm {
  import opened Types
  import opened Data
  import Host

  const ByteC: byte := 0x43
  const ByteM: byte := 0x4D
  const ByteD: byte := 0x44
  const ByteO: byte := 0x4F
  const ByteV: byte := 0x56
  const ByteE: byte := 0x45

  /** A value read from the stream and the position just after it, or the
      stream ran out first. */
  datatype Received<T> = Got(value: T, next: nat) | Starved

  /** The first position at or after `from` holding byte `b`. */
  function FirstFrom(input: seq<byte>, from: nat, b: byte): (r: Option<nat>)
    requires from <= |input|
    ensures r.Some? ==> from <= r.value < |input| && input[r.value] == b
    ensures r.Some? ==> forall j :: from <= j < r.value ==> input[j] != b
    ensures r.None? ==> forall j :: from <= j < |input| ==> input[j] != b
    decreases |input| - from
  {
    if from == |input| then None
    else if input[from] == b then Some(from)
    else FirstFrom(input, from + 1, b)
  }

  /** What `com_receive_command` returns: the byte right after the first `D`. */
  function CommandAt(input: seq<byte>, from: nat): Received<byte>
    requires from <= |input|
  {
    match FirstFrom(input, from, ByteD)
    case None => Starved
    case Some(k) => if k + 1 < |input| then Got(input[k + 1], k + 2) else Starved
  }

  /** `com_receive_command` as written: the state loop, then one more read. */
  method ReceiveCommand(input: seq<byte>, from: nat) returns (r: Received<byte>)
    requires from <= |input|
    ensures r == CommandAt(input, from)
  {
    var state: nat := 0;
    var i := from;
    while state != 3
      invariant from <= i <= |input|
      invariant state == 0 || state == 1 || state == 3
      invariant state != 3 ==> forall j :: from <= j < i ==> input[j] != ByteD
      invariant state == 3 ==> from < i && input[i - 1] == ByteD
      invariant state == 3 ==> forall j :: from <= j < i - 1 ==> input[j] != ByteD
      decreases |input| - i, state != 3
    {
      if i == |input| {
        return Starved;
      }
      var c := input[i];
      i := i + 1;
      var entry := state;
      if entry <= 0 {
        state := if c == ByteC then 1 else 0;
      }
      if entry <= 1 {
        state := if c == ByteM then 2 else if c == ByteC then 1 else 0;
      }
      if entry <= 2 {
        state := if c == ByteD then 3 else if c == ByteC then 1 else 0;
      }
    }
    if i == |input| {
      return Starved;
    }
    r := Got(input[i], i + 1);
  }

  /** Any `D` followed by a byte is taken as a command: the `C` and the `M`
      of the marker are never required. */
  lemma LoneDIsACommand(code: byte)
    ensures CommandAt([ByteD, code], 0) == Got(code, 2)
  {
  }

  /** A command frame built by the host decodes to its command byte, whatever
      follows it. */
  lemma CommandRoundTrip(command: string, rest: seq<byte>)
    requires Host.IsCommand(command)
    ensures CommandAt(Host.SendCommand(command) + rest, 0) == Got(command[0] as int, 4)
  {
    var input := Host.SendCommand(command) + rest;
    assert input[0] == ByteC && input[1] == ByteM && input[2] == ByteD;
    assert FirstFrom(input, 2, ByteD) == Some(2);
    assert FirstFrom(input, 1, ByteD) == Some(2);
  }

  /** Colours of the `n` five-byte records that start at `at`. */
  function RecordColours(input: seq<byte>, at: nat, n: nat): (r: seq<byte>)
    requires at + 5 * n <= |input|
    ensures |r| == n
  {
    seq(n, i requires 0 <= i < n => input[at + 5 * i])
  }

  /** Positions of the `n` five-byte records that start at `at`: x then y,
      each little-endian. */
  function RecordPositions(input: seq<byte>, at: nat, n: nat): (r: seq<Coord>)
    requires at + 5 * n <= |input|
    ensures |r| == n
  {
    seq(n, i requires 0 <= i < n =>
      Coord(Le16(input[at + 5 * i + 1], input[at + 5 * i + 2]),
            Le16(input[at + 5 * i + 3], input[at + 5 * i + 4])))
  }

  datatype MoveData = MoveData(colours: seq<byte>, positions: seq<Coord>)

  /** What follows the marker when both buffers could be allocated: a
      little-endian count at `at`, then `Clamp(count)` records. */
  function DecodePayload(input: seq<byte>, at: nat): (r: Received<MoveData>)
    requires at <= |input|
    ensures r.Got? ==> |r.value.colours| == |r.value.positions| <= MaxLength
  {
    if at + 2 > |input| then Starved
    else
      var n: nat := Clamp(Le16(input[at], input[at + 1]));
      if at + 2 + 5 * n > |input| then Starved
      else Got(MoveData(RecordColours(input, at + 2, n), RecordPositions(input, at + 2, n)), at + 2 + 5 * n)
  }

  /** The position right after the first `E` at or after `from`. */
  function MovePayloadAt(input: seq<byte>, from: nat): (r: Option<nat>)
    requires from <= |input|
    ensures r.Some? ==> from < r.value <= |input| && input[r.value - 1] == ByteE
  {
    match FirstFrom(input, from, ByteE)
    case None => None
    case Some(k) => Some(k + 1)
  }

  /** What `com_receive_data` reads when both buffers could be allocated:
      everything up to the first `E`, then the payload. */
  function DecodeMove(input: seq<byte>, from: nat): (r: Received<MoveData>)
    requires from <= |input|
    ensures r.Got? ==> |r.value.colours| == |r.value.positions| <= MaxLength
  {
    match MovePayloadAt(input, from)
    case None => Starved
    case Some(at) => DecodePayload(input, at)
  }

  /** Of `count` records laid out as the host writes them, the first `n`
      read back as the host's first `n` colours and positions. */
  lemma RecordsReadBack(input: seq<byte>, at: nat, colours: seq<byte>, positions: seq<Coord>, count: nat, n: nat)
    requires n <= count <= |colours| && count <= |positions| && at + 5 * count <= |input|
    requires input[at .. at + 5 * count] == Host.Records(colours, positions, count)
    ensures RecordColours(input, at, n) == colours[..n]
    ensures RecordPositions(input, at, n) == positions[..n]
  {
    forall i | 0 <= i < n
      ensures RecordColours(input, at, n)[i] == colours[i] && RecordPositions(input, at, n)[i] == positions[i]
    {
      Host.RecordAt(colours, positions, count, i);
      RecordIn(input, at, count, n, Host.Records(colours, positions, count), i, colours[i], positions[i]);
    }
  }

  /** Record `i` of a laid-out run reads back as the colour and position it
      was built from. */
  lemma RecordIn(input: seq<byte>, at: nat, count: nat, n: nat, recs: seq<byte>, i: nat, colour: byte, p: Coord)
    requires at + 5 * count <= |input| && |recs| == 5 * count && i < n <= count
    requires input[at .. at + 5 * count] == recs
    requires recs[5 * i .. 5 * i + 5] == Host.Record(colour, p)
    ensures RecordColours(input, at, n)[i] == colour && RecordPositions(input, at, n)[i] == p
  {
    SliceWithin(input, recs, at, 5 * i, 5 * i + 5);
    RecordReadBack(input, at + 5 * i, colour, p);
    RecordFields(input, at, n, i);
  }

  /** Record `i` of `n` is read from the five bytes at `at + 5i`. */
  lemma RecordFields(input: seq<byte>, at: nat, n: nat, i: nat)
    requires at + 5 * n <= |input| && i < n
    ensures var k := at + 5 * i;
            RecordColours(input, at, n)[i] == input[k] &&
            RecordPositions(input, at, n)[i] == Coord(Le16(input[k + 1], input[k + 2]), Le16(input[k + 3], input[k + 4]))
  {
  }

  /** One record laid out by the host reads back as its colour and position. */
  lemma RecordReadBack(input: seq<byte>, k: nat, colour: byte, p: Coord)
    requires k + 5 <= |input| && input[k .. k + 5] == Host.Record(colour, p)
    ensures input[k] == colour
    ensures Le16(input[k + 1], input[k + 2]) == p.x && Le16(input[k + 3], input[k + 4]) == p.y
  {
    assert input[k + 1] == Lo(p.x) && input[k + 2] == Hi(p.x);
    assert input[k + 3] == Lo(p.y) && input[k + 4] == Hi(p.y);
    LeBytesReadBack(p.x);
    LeBytesReadBack(p.y);
  }

  /** A piece of a slice is the same piece of the whole, moved by `at`. */
  lemma SliceWithin<T>(whole: seq<T>, part: seq<T>, at: nat, lo: nat, hi: nat)
    requires lo <= hi <= |part| && at + |part| <= |whole| && whole[at .. at + |part|] == part
    ensures whole[at + lo .. at + hi] == part[lo .. hi]
  {
    forall j | 0 <= j < hi - lo
      ensures whole[at + lo .. at + hi][j] == part[lo .. hi][j]
    {
      assert whole[at .. at + |part|][lo + j] == part[lo + j];
    }
  }

  /** Decoding a move frame built by the host yields the host's first
      `Clamp(N)` colours and positions and consumes 6 + 5·Clamp(N) bytes: all
      of them when N <= MaxLength. */
  lemma MoveRoundTrip(colours: seq<byte>, positions: seq<Coord>, rest: seq<byte>)
    requires !Host.MoveFrame(colours, positions).raised
    ensures var n: nat := Clamp(Host.MoveCount(positions));
            DecodeMove(Host.MoveFrame(colours, positions).written + rest, 0)
              == Got(MoveData(colours[..n], positions[..n]), 6 + 5 * n)
  {
    var count := Host.MoveCount(positions);
    var input := Host.MoveFrame(colours, positions).written + rest;
    Host.MoveFrameSent(colours, positions);
    assert input[..4] == Host.MoveMarker && Le16(input[4], input[5]) == count &&
           6 + 5 * (count as int) <= |input| &&
           input[6 .. 6 + 5 * (count as int)] == Host.Records(colours, positions, count) by {
      var head := Host.MoveMarker + Le16Bytes(count);
      var recs := Host.Records(colours, positions, count);
      assert input == head + recs + rest;
      assert input[4] == head[4] && input[5] == head[5];
    }
    MarkerAt(input);
    PayloadReadBack(input, 4, colours, positions, count);
  }

  /** A count and `count` records laid out by the host at `at` decode to the
      first `Clamp(count)` colours and positions. */
  lemma PayloadReadBack(input: seq<byte>, at: nat, colours: seq<byte>, positions: seq<Coord>, count: u16)
    requires count <= |colours| && count <= |positions| && at + 2 + 5 * (count as int) <= |input|
    requires Le16(input[at], input[at + 1]) == count
    requires input[at + 2 .. at + 2 + 5 * (count as int)] == Host.Records(colours, positions, count)
    ensures var n: nat := Clamp(count);
            DecodePayload(input, at) == Got(MoveData(colours[..n], positions[..n]), at + 2 + 5 * n)
  {
    var n: nat := Clamp(count);
    RecordsReadBack(input, at + 2, colours, positions, count, n);
    assert n == Clamp(Le16(input[at], input[at + 1]));
    assert DecodePayload(input, at)
             == Got(MoveData(RecordColours(input, at + 2, n), RecordPositions(input, at + 2, n)), at + 2 + 5 * n);
  }

  /** A stream that starts with `MOVE` has its payload at 4. */
  lemma MarkerAt(input: seq<byte>)
    requires |input| >= 4 && input[..4] == Host.MoveMarker
    ensures MovePayloadAt(input, 0) == Some(4)
  {
    assert input[0] == ByteM && input[1] == ByteO && input[2] == ByteV && input[3] == ByteE;
    assert FirstFrom(input, 3, ByteE) == Some(3);
    assert FirstFrom(input, 2, ByteE) == Some(3);
    assert FirstFrom(input, 1, ByteE) == Some(3);
  }

  /** What `com_receive_data` returns once the marker has been read up to
      `at`: nothing when the stream runs out, 0 when either buffer cannot be
      allocated, otherwise the clamped count once every record has arrived. */
  function PayloadResult(input: seq<byte>, at: nat, buffersOk: bool): (r: Received<u16>)
    requires at <= |input|
    ensures r.Got? && buffersOk ==>
              DecodePayload(input, at).Got? &&
              r.value == |DecodePayload(input, at).value.colours| &&
              r.next == DecodePayload(input, at).next
    ensures r.Got? && !buffersOk ==> r == Got(0, at + 2)
    ensures DecodePayload(input, at).Got? ==> r.Got?
  {
    if at + 2 > |input| then Starved
    else
      var n := Clamp(Le16(input[at], input[at + 1]));
      if !buffersOk then Got(0, at + 2)
      else if at + 2 + 5 * n > |input| then Starved
      else Got(n, at + 2 + 5 * n)
  }

  /** What `com_receive_data` returns, read from `from`. */
  function ReceiveResult(input: seq<byte>, from: nat, buffersOk: bool): (r: Received<u16>)
    requires from <= |input|
    ensures r.Got? && buffersOk ==>
              DecodeMove(input, from).Got? &&
              r.value == |DecodeMove(input, from).value.colours| &&
              r.next == DecodeMove(input, from).next
    ensures DecodeMove(input, from).Got? ==> r.Got?
  {
    match MovePayloadAt(input, from)
    case None => Starved
    case Some(at) => PayloadResult(input, at, buffersOk)
  }

  /** The marker loop of `com_receive_data`: the switch falls through, so
      the last case decides every pass and the loop ends at the first `E`.
      Returns the position right after it. */
  method AwaitMoveMarker(input: seq<byte>, from: nat) returns (r: Option<nat>)
    requires from <= |input|
    ensures r == MovePayloadAt(input, from)
  {
    var state: nat := 0;
    var i := from;
    while state != 4
      invariant from <= i <= |input|
      invariant state == 0 || state == 1 || state == 4
      invariant state != 4 ==> forall j :: from <= j < i ==> input[j] != ByteE
      invariant state == 4 ==> from < i && input[i - 1] == ByteE
      invariant state == 4 ==> forall j :: from <= j < i - 1 ==> input[j] != ByteE
      decreases |input| - i, state != 4
    {
      if i == |input| {
        return None;
      }
      var c1 := input[i];
      i := i + 1;
      var entry := state;
      if entry <= 0 {
        state := if c1 == ByteM then 1 else 0;
      }
      if entry <= 1 {
        state := if c1 == ByteO then 2 else if c1 == ByteM then 1 else 0;
      }
      if entry <= 2 {
        state := if c1 == ByteV then 3 else if c1 == ByteM then 1 else 0;
      }
      if entry <= 3 {
        state := if c1 == ByteE then 4 else if c1 == ByteM then 1 else 0;
      }
    }
    assert FirstFrom(input, from, ByteE) == Some(i - 1);
    r := Some(i);
  }

  /** The record loop of `com_receive_data`: fills both buffers from the
      five-byte records at `at`; false when the stream runs out first. */
  method ReadRecords(input: seq<byte>, at: nat, pos: array<Coord>, color: array<byte>) returns (complete: bool)
    requires pos.Length == color.Length && at <= |input|
    modifies pos, color
    ensures complete <==> at + 5 * pos.Length <= |input|
    ensures complete ==> color[..] == RecordColours(input, at, color.Length)
    ensures complete ==> pos[..] == RecordPositions(input, at, pos.Length)
  {
    var i := at;
    var j := 0;
    while j < pos.Length
      invariant 0 <= j <= pos.Length
      invariant i == at + 5 * j <= |input|
      invariant forall m :: 0 <= m < j ==> color[m] == input[at + 5 * m]
      invariant forall m :: 0 <= m < j ==>
                  pos[m] == Coord(Le16(input[at + 5 * m + 1], input[at + 5 * m + 2]),
                                  Le16(input[at + 5 * m + 3], input[at + 5 * m + 4]))
    {
      if i + 5 > |input| {
        return false;
      }
      color[j] := input[i];
      pos[j] := Coord(Le16(input[i + 1], input[i + 2]), Le16(input[i + 3], input[i + 4]));
      i := i + 5;
      j := j + 1;
    }
    assert color[..] == RecordColours(input, at, color.Length);
    assert pos[..] == RecordPositions(input, at, pos.Length);
    complete := true;
  }

  /** The module state of mod_communication.c. */
  class Link {
    /** `data_is_ready` */
    var dataIsReady: bool

    constructor ()
      ensures !dataIsReady
    {
      dataIsReady := false;
    }

    /** `data_ready` */
    function DataReady(): bool
      reads this
    {
      dataIsReady
    }

    /** `com_receive_data` as written. `xyOk` and `colorOk` are the answers of
        `malloc` inside the two allocators. If the stream ends before the
        marker nothing changes; once the marker is found the old data is
        freed and the ready flag cleared, and the rest is `ReceivePayload`. */
    method ReceiveData(input: seq<byte>, from: nat, store: DataStore, xyOk: bool, colorOk: bool)
      returns (r: Received<u16>)
      requires from <= |input|
      modifies this, store
      ensures r == ReceiveResult(input, from, xyOk && colorOk)
      ensures MovePayloadAt(input, from).None? ==> unchanged(this, store)
      ensures MovePayloadAt(input, from).Some? ==>
                (dataIsReady <==> r.Got? && xyOk && colorOk) &&
                (dataIsReady ==>
                   store.pos != null && store.color != null && fresh(store.pos) && fresh(store.color) &&
                   r.value == store.length == store.pos.Length &&
                   DecodeMove(input, from) == Got(MoveData(store.color[..], store.pos[..]), r.next))
    {
      var at := AwaitMoveMarker(input, from);
      if at.None? {
        return Starved;
      }
      r := ReceivePayload(input, at.value, store, xyOk, colorOk);
    }

    /** Everything `com_receive_data` does after the marker, read from `at`. */
    method ReceivePayload(input: seq<byte>, at: nat, store: DataStore, xyOk: bool, colorOk: bool)
      returns (r: Received<u16>)
      requires at <= |input|
      modifies this, store
      ensures r == PayloadResult(input, at, xyOk && colorOk)
      ensures dataIsReady <==> r.Got? && xyOk && colorOk
      ensures at + 2 > |input| ==> store.length == 0 && store.pos == null && store.color == null
      ensures at + 2 <= |input| ==> store.length == Clamp(Le16(input[at], input[at + 1]))
      ensures dataIsReady ==>
                store.pos != null && store.color != null && fresh(store.pos) && fresh(store.color) &&
                r.value == store.length == store.pos.Length &&
                DecodePayload(input, at) == Got(MoveData(store.color[..], store.pos[..]), r.next)
    {
      // reset data information and free buffers
      store.Free();
      dataIsReady := false;

      if at + 2 > |input| {
        return Starved;
      }
      var length := Le16(input[at], input[at + 1]);
      var i := at + 2;

      store.SetLength(length);
      length := store.GetLength();
      r := FillStore(input, i, store, xyOk, colorOk);
    }

    /** The allocations and the record loop of `com_receive_data`, with the
        clamped length already stored and the records starting at `i`. */
    method FillStore(input: seq<byte>, i: nat, store: DataStore, xyOk: bool, colorOk: bool)
      returns (r: Received<u16>)
      requires i <= |input| && !dataIsReady && store.length <= MaxLength
      modifies this, store`pos, store`color
      ensures store.length == old(store.length)
      ensures dataIsReady <==> r.Got? && xyOk && colorOk
      ensures !(xyOk && colorOk) ==> r == Got(0, i)
      ensures xyOk && colorOk ==>
                if i + 5 * store.length <= |input| then r == Got(store.length, i + 5 * store.length) else r.Starved?
      ensures dataIsReady ==>
                store.pos != null && store.color != null && fresh(store.pos) && fresh(store.color) &&
                store.length == store.pos.Length == store.color.Length &&
                store.color[..] == RecordColours(input, i, store.length) &&
                store.pos[..] == RecordPositions(input, i, store.length)
    {
      var length := store.GetLength();
      var pos := store.AllocXy(length, xyOk);
      var color := store.AllocColor(length, colorOk);

      if pos == null || color == null {
        return Got(0, i);
      }

      var complete := ReadRecords(input, i, pos, color);
      if !complete {
        return Starved;
      }
      dataIsReady := true;
      r := Got(length, i + 5 * (length as int));
    }
  }

  lemma {:induction false} FirstFromShift(input: seq<byte>, d: nat, from: nat, b: byte)
    requires d + from <= |input|
    ensures FirstFrom(input, d + from, b).None? <==> FirstFrom(input[d..], from, b).None?
    ensures FirstFrom(input, d + from, b).Some? ==>
              FirstFrom(input, d + from, b).value == FirstFrom(input[d..], from, b).value + d
    decreases |input| - from
  {
    if d + from < |input| && input[d + from] != b {
      FirstFromShift(input, d, from + 1, b);
    }
  }

  /** Decoding from position `d` is decoding the stream with its first `d`
      bytes dropped. */
  lemma DecodeShift(input: seq<byte>, d: nat)
    requires d <= |input|
    ensures DecodeMove(input, d).Got? <==> DecodeMove(input[d..], 0).Got?
    ensures DecodeMove(input, d).Got? ==>
              DecodeMove(input, d).value == DecodeMove(input[d..], 0).value &&
              DecodeMove(input, d).next == DecodeMove(input[d..], 0).next + d
  {
    FirstFromShift(input, d, 0, ByteE);
    var tail := input[d..];
    match MovePayloadAt(input, d)
    case None =>
    case Some(at) =>
      assert MovePayloadAt(tail, 0) == Some(at - d);
      PayloadShift(input, d, at);
  }

  /** Reading the payload at `at` does not depend on the first `d <= at` bytes. */
  lemma PayloadShift(input: seq<byte>, d: nat, at: nat)
    requires d <= at <= |input|
    ensures DecodePayload(input, at).Got? <==> DecodePayload(input[d..], at - d).Got?
    ensures DecodePayload(input, at).Got? ==>
              DecodePayload(input, at).value == DecodePayload(input[d..], at - d).value &&
              DecodePayload(input, at).next == DecodePayload(input[d..], at - d).next + d
  {
    var tail := input[d..];
    if at + 2 <= |input| {
      assert input[at] == tail[at - d] && input[at + 1] == tail[at - d + 1];
      var n: nat := Clamp(Le16(input[at], input[at + 1]));
      if at + 2 + 5 * n <= |input| {
        RecordsShift(input, d, at + 2, n);
      }
    }
  }

  /** Records read at `at` are the records read at `at - d` once the first
      `d` bytes are dropped. */
  lemma RecordsShift(input: seq<byte>, d: nat, at: nat, n: nat)
    requires d <= at && at + 5 * n <= |input|
    ensures RecordColours(input, at, n) == RecordColours(input[d..], at - d, n)
    ensures RecordPositions(input, at, n) == RecordPositions(input[d..], at - d, n)
  {
    var tail := input[d..];
    forall i | 0 <= i < n
      ensures RecordColours(input, at, n)[i] == RecordColours(tail, at - d, n)[i]
      ensures RecordPositions(input, at, n)[i] == RecordPositions(tail, at - d, n)[i]
    {
      RecordFields(input, at, n, i);
      RecordFields(tail, at - d, n, i);
      var k := at + 5 * i;
      assert tail[k - d] == input[k] && tail[k - d + 1] == input[k + 1] && tail[k - d + 2] == input[k + 2];
      assert tail[k - d + 3] == input[k + 3] && tail[k - d + 4] == input[k + 4];
    }
  }

  /** The firmware reads back exactly the frame the host sends after `G`,
      cut down to `MaxLength` records, and is then ready to draw. */
  lemma GetDataRoundTrip(colours: seq<byte>, positions: seq<Coord>, rest: seq<byte>)
    requires !Host.MoveFrame(colours, positions).raised
    ensures var input := Host.SessionStep("G", colours, positions).written + rest;
            var n: nat := Clamp(Host.MoveCount(positions));
            CommandAt(input, 0) == Got('G' as int, 4) &&
            DecodeMove(input, 4) == Got(MoveData(colours[..n], positions[..n]), 10 + 5 * n) &&
            ReceiveResult(input, 4, true) == Got(n, 10 + 5 * n)
  {
    GetDataCommand(colours, positions, rest);
    GetDataMove(colours, positions, rest);
  }

  /** Whatever happens to the move frame, a `G` step starts with the `G`
      command. */
  lemma GetDataCommand(colours: seq<byte>, positions: seq<Coord>, rest: seq<byte>)
    ensures CommandAt(Host.SessionStep("G", colours, positions).written + rest, 0) == Got('G' as int, 4)
  {
    var frame := Host.MoveFrame(colours, positions).written;
    Host.GetDataIsFollowedByMove(colours, positions);
    AppendAssoc(Host.SendCommand("G"), frame, rest);
    CommandRoundTrip("G", frame + rest);
  }

  /** After the `G` command, the move frame decodes to the host's first
      `Clamp(N)` colours and positions. */
  lemma GetDataMove(colours: seq<byte>, positions: seq<Coord>, rest: seq<byte>)
    requires !Host.MoveFrame(colours, positions).raised
    ensures var n: nat := Clamp(Host.MoveCount(positions));
            n <= |colours| && n <= |positions| &&
            DecodeMove(Host.SessionStep("G", colours, positions).written + rest, 4)
              == Got(MoveData(colours[..n], positions[..n]), 10 + 5 * n)
  {
    var command := Host.SendCommand("G");
    var frame := Host.MoveFrame(colours, positions).written;
    Host.GetDataIsFollowedByMove(colours, positions);
    AppendAssoc(command, frame, rest);
    Host.MoveFrameSent(colours, positions);
    MoveRoundTrip(colours, positions, rest);
    DecodeAfter(command, frame + rest);
  }

  lemma AppendAssoc<T>(a: seq<T>, b: seq<T>, c: seq<T>)
    ensures (a + b) + c == a + (b + c)
  {
  }

  /** A move frame decodes the same after any `d` bytes, shifted by `d`. */
  lemma DecodeAfter(front: seq<byte>, tail: seq<byte>)
    ensures DecodeMove(tail, 0).Got? ==>
              DecodeMove(front + tail, |front|) == Got(DecodeMove(tail, 0).value, DecodeMove(tail, 0).next + |front|)
  {
    assert (front + tail)[|front|..] == tail;
    DecodeShift(front + tail, |front|);
  }
}
