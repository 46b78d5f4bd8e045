/** The host side of the serial protocol (python/epuck-communication.py):
    the command frame `CMD` + code and the move-data frame `MOVE` + count +
    five-byte records. The serial port is abstracted to the bytes written. */
module Host {
  import opened Types

  /** `COMMANDS`: reset, pause, continue, begin calibration, get data, draw,
      interactive. */
  const Commands: seq<char> := ['R', 'P', 'C', 'B', 'G', 'D', 'I']

  /** `command in COMMANDS`: the typed string must be exactly one of the
      one-character command strings. */
  predicate IsCommand(command: string)
  {
    |command| == 1 && command[0] in Commands
  }

  /** `b'CMD'` */
  const CommandMarker: seq<byte> := [0x43, 0x4D, 0x44]
  /** `b'MOVE'` */
  const MoveMarker: seq<byte> := [0x4D, 0x4F, 0x56, 0x45]

  /** The bytes `send_command` writes: nothing for an unrecognised command,
      otherwise `CMD` followed by the command's single UTF-8 byte. */
  function SendCommand(command: string): (written: seq<byte>)
    ensures !IsCommand(command) ==> written == []
    ensures IsCommand(command) ==>
              |written| == 4 && written[..3] == CommandMarker && written[3] == command[0] as int
  {
    if IsCommand(command) then CommandMarker + [command[0] as int] else []
  }

  lemma AcceptedCommands(c: char)
    ensures IsCommand([c]) <==> c == 'R' || c == 'P' || c == 'C' || c == 'B' || c == 'G' || c == 'D' || c == 'I'
    ensures !IsCommand("H") && !IsCommand("V")
  {
  }

  /** The count `send_move_data` sends: `len(data_pos)` stored in a
      `np.uint16`, i.e. modulo 2^16. */
  function MoveCount(positions: seq<Coord>): u16
  {
    Wrap16(|positions|)
  }

  /** A length stored in a `np.uint16`, wrapped by taking 2^16 off until it
      fits. */
  function Wrap16(n: nat): (r: u16)
    ensures r <= n
    decreases n
  {
    if n < 0x1_0000 then n else Wrap16(n - 0x1_0000)
  }

  /** The wrap is reduction modulo 2^16, and leaves a length that already
      fits alone. */
  lemma {:induction false} Wrap16IsModulo(n: nat)
    ensures Wrap16(n) == n % 0x1_0000
    ensures n < 0x1_0000 ==> Wrap16(n) == n
  {
    if n >= 0x1_0000 {
      Wrap16IsModulo(n - 0x1_0000);
    }
  }

  /** One record: colour as `B`, then x and y as `<H`. */
  function Record(colour: byte, p: Coord): seq<byte>
  {
    [colour, Lo(p.x), Hi(p.x), Lo(p.y), Hi(p.y)]
  }

  /** The first `n` records, in index order. */
  function Records(colours: seq<byte>, positions: seq<Coord>, n: nat): (r: seq<byte>)
    requires n <= |colours| && n <= |positions|
    ensures |r| == 5 * n
  {
    if n == 0 then [] else Records(colours, positions, n - 1) + Record(colours[n - 1], positions[n - 1])
  }

  /** What a call of `send_move_data` leaves on the port, and whether it
      raised an exception. */
  datatype MoveOutcome = MoveOutcome(written: seq<byte>, raised: bool)

  /** `send_move_data`: an `IndexError` while the records are built (fewer
      colours than positions) writes nothing; a count that `struct.pack('<h')`
      cannot hold raises after `MOVE` was written; otherwise the frame is
      `MOVE`, the count, then the records. */
  function MoveFrame(colours: seq<byte>, positions: seq<Coord>): MoveOutcome
  {
    var n := MoveCount(positions);
    if |colours| < n then MoveOutcome([], true)
    else if n >= 0x8000 then MoveOutcome(MoveMarker, true)
    else MoveOutcome(MoveMarker + Le16Bytes(n) + Records(colours, positions, n), false)
  }

  /** Unfolds the branch of `MoveFrame` that raises nothing. */
  lemma MoveFrameSent(colours: seq<byte>, positions: seq<Coord>)
    requires !MoveFrame(colours, positions).raised
    ensures MoveCount(positions) <= |colours| && MoveCount(positions) < 0x8000
    ensures MoveFrame(colours, positions).written
              == MoveMarker + Le16Bytes(MoveCount(positions)) + Records(colours, positions, MoveCount(positions))
  {
  }

  /** `send_move_data` as written: grows `send_buffer` record by record in a
      while loop, then writes the marker, the count and the buffer. */
  method SendMoveData(colours: seq<byte>, positions: seq<Coord>) returns (written: seq<byte>, raised: bool)
    ensures MoveOutcome(written, raised) == MoveFrame(colours, positions)
    ensures raised <==> |colours| < MoveCount(positions) || MoveCount(positions) >= 0x8000
  {
    var size := MoveCount(positions);
    var sendBuffer: seq<byte> := [];
    var i := 0;
    while i < size
      invariant 0 <= i <= size
      invariant i <= |colours| ==> sendBuffer == Records(colours, positions, i)
      invariant i > |colours| ==> false
    {
      if i >= |colours| {
        // data_color[i] raises IndexError before anything was written
        return [], true;
      }
      sendBuffer := sendBuffer + Record(colours[i], positions[i]);
      i := i + 1;
    }
    written := MoveMarker;
    if size >= 0x8000 {
      // struct.pack('<h', size) raises once MOVE is on the wire
      return written, true;
    }
    written := written + Le16Bytes(size);
    written := written + sendBuffer;
    raised := false;
  }

  lemma {:induction false} RecordAt(colours: seq<byte>, positions: seq<Coord>, n: nat, i: nat)
    requires n <= |colours| && n <= |positions| && i < n
    ensures Records(colours, positions, n)[5 * i .. 5 * i + 5] == Record(colours[i], positions[i])
  {
    if i < n - 1 {
      RecordAt(colours, positions, n - 1, i);
      assert Records(colours, positions, n)[..5 * (n - 1)] == Records(colours, positions, n - 1);
    }
  }

  /** The first `m` of `n` records are the records of the first `m` entries. */
  lemma {:induction false} RecordsPrefix(colours: seq<byte>, positions: seq<Coord>, n: nat, m: nat)
    requires m <= n <= |colours| && n <= |positions|
    ensures Records(colours, positions, n)[..5 * m] == Records(colours, positions, m)
  {
    if m < n {
      RecordsPrefix(colours, positions, n - 1, m);
      assert Records(colours, positions, n)[..5 * (n - 1)] == Records(colours, positions, n - 1);
    }
  }

  /** A frame that was sent whole is `MOVE`, then the count N as two
      little-endian bytes, then record i at offset 6 + 5i, for 6 + 5N bytes;
      N is `len(data_pos)` itself whenever fewer than 2^16 positions are given. */
  lemma MoveFrameLayout(colours: seq<byte>, positions: seq<Coord>, i: nat)
    requires !MoveFrame(colours, positions).raised
    requires i < MoveCount(positions)
    ensures var w := MoveFrame(colours, positions).written;
            var n := MoveCount(positions);
            n < 0x8000 && |w| == 6 + 5 * n && w[..4] == MoveMarker &&
            Le16(w[4], w[5]) == n &&
            w[6 + 5 * i .. 11 + 5 * i] == Record(colours[i], positions[i])
    ensures |positions| < 0x1_0000 ==> MoveCount(positions) == |positions|
  {
    var n := MoveCount(positions);
    var recs := Records(colours, positions, n);
    var w := MoveMarker + Le16Bytes(n) + recs;
    assert w == MoveFrame(colours, positions).written;
    RecordAt(colours, positions, n, i);
    assert w[6..] == recs;
    assert w[6 + 5 * i .. 11 + 5 * i] == recs[5 * i .. 5 * i + 5];
  }

  /** What one round of `main` writes: the command frame and, right after a
      `G`, the move-data frame. */
  function SessionStep(command: string, colours: seq<byte>, positions: seq<Coord>): MoveOutcome
  {
    if command == "G" then
      var m := MoveFrame(colours, positions);
      MoveOutcome(SendCommand(command) + m.written, m.raised)
    else MoveOutcome(SendCommand(command), false)
  }

  /** Unfolds a `G` step of the session into its command and move frame. */
  lemma GetDataIsFollowedByMove(colours: seq<byte>, positions: seq<Coord>)
    ensures SendCommand("G") == CommandMarker + ['G' as int]
    ensures SessionStep("G", colours, positions).written == SendCommand("G") + MoveFrame(colours, positions).written
  {
  }
}
