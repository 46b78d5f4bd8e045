/** The data store of the firmware (src/modules/mod_data.c): one length and
    two heap buffers, the positions and the colours of the path to draw.
    A buffer is an array, and `null` stands for a pointer that is NULL. */
module Data {
  import opened Types

  const MaxAllocatedData := 100000
  /** `sizeof(cartesian_coord)` */
  const CoordSize := 4

  /** `MAX_LENGTH` as mod_data.c defines it. The macro body
      `MAX_ALLOCATED_DATA/SIZE_OF_DATA` pastes `sizeof(cartesian_coord) +
      sizeof(uint8_t)` without parentheses, so it reads 100000/4 + 1, that is 25001. */
  const MaxLength: u16 := MaxAllocatedData / CoordSize + 1

  /** `MAX_LENGTH` as mod_data.h defines it, parenthesised: 100000/(4 + 1).
      mod_data.c redefines the macro, so this value, 20000, is not the one it uses. */
  const HeaderMaxLength: u16 := MaxAllocatedData / (CoordSize + 1)

  /** The length a request for `length` elements is cut down to. */
  function Clamp(length: u16): (r: u16)
    ensures r <= MaxLength && r <= length
    ensures length <= MaxLength ==> r == length
    ensures length > MaxLength ==> r == MaxLength
  {
    if length > MaxLength then MaxLength else length
  }

  /** Setting the length it already holds changes nothing. */
  lemma ClampIdempotent(length: u16)
    ensures Clamp(Clamp(length)) == Clamp(length)
  {
  }

  class DataStore {
    /** `data_length` */
    var length: u16
    /** `pos` */
    var pos: array?<Coord>
    /** `color` */
    var color: array?<byte>

    constructor ()
      ensures length == 0 && pos == null && color == null
    {
      length, pos, color := 0, null, null;
    }

    /** `data_get_length`: the last stored length. */
    function GetLength(): u16
      reads this
    {
      length
    }

    /** `data_set_length`: stores the length cut down to `MaxLength`. */
    method SetLength(l: u16)
      modifies this`length
      ensures length == Clamp(l)
      ensures GetLength() <= MaxLength
    {
      if l > MaxLength {
        length := MaxLength;
      } else {
        length := l;
      }
    }

    /** `data_free`: both buffers released, the length back to 0. */
    method Free()
      modifies this
      ensures length == 0 && pos == null && color == null
    {
      length := 0;
      pos := null;
      color := null;
    }

    /** `data_alloc_xy`: a position buffer of `Clamp(l)` elements, or NULL
        when `malloc` fails (`ok` is the allocator's answer). The length is
        left alone. */
    method AllocXy(l: u16, ok: bool) returns (p: array?<Coord>)
      modifies this`pos
      ensures pos == p
      ensures ok ==> p != null && fresh(p) && p.Length == Clamp(l)
      ensures !ok ==> p == null
    {
      var tempLength := l;
      if l > MaxLength {
        tempLength := MaxLength;
      }
      pos := null;
      if ok {
        pos := new Coord[tempLength](_ => Coord(0, 0));
      }
      if pos == null {
        return null;
      }
      p := pos;
    }

    /** `data_alloc_color`: a colour buffer of `Clamp(l)` bytes, or NULL when
        `malloc` fails. The length is left alone. */
    method AllocColor(l: u16, ok: bool) returns (c: array?<byte>)
      modifies this`color
      ensures color == c
      ensures ok ==> c != null && fresh(c) && c.Length == Clamp(l)
      ensures !ok ==> c == null
    {
      var tempLength := l;
      if l > MaxLength {
        tempLength := MaxLength;
      }
      color := null;
      if ok {
        color := new byte[tempLength](_ => 0);
      }
      if color == null {
        return null;
      }
      c := color;
    }
  }
}
