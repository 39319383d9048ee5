/** The host side of the serial link and the byte readers that every host-side decoder
    uses. The four Python copies of `readInt4File`, `readFloat4File` and of the head
    and tail loops behave identically (each pair, ciaa_utils.py with player.py and
    tone_parser.py with visualize.py, is verbatim); they are modelled once here.

    A stream is the finite sequence of bytes that has arrived; `pos` counts the bytes
    read. The real port has no timeout, so a read past the end blocks forever: here
    it returns None and every reader gives up with None. */
module SerialInput {
  import opened Bytes
  import opened Framing

  class Stream {
    const data: seq<Byte>
    var pos: nat

    ghost predicate Valid()
      reads this
    {
      pos <= |data|
    }

    constructor (data: seq<Byte>)
      ensures Valid() && this.data == data && pos == 0
    {
      this.data := data;
      pos := 0;
    }

    /** `read(1)`: the next byte, if one has arrived. */
    method Read() returns (b: Option<Byte>)
      requires Valid()
      modifies this
      ensures Valid()
      ensures old(pos) < |data| ==> b == Some(data[old(pos)]) && pos == old(pos) + 1
      ensures old(pos) == |data| ==> b == None && pos == old(pos)
    {
      if pos < |data| {
        b := Some(data[pos]);
        pos := pos + 1;
      } else {
        b := None;
      }
    }
  }

  /** How many bytes `readInt4File(f, size)` consumes: it reads one byte before it
      first compares the length with size. */
  function Consumed(size: nat): (n: nat)
    ensures n >= 1 && n >= size
    ensures size >= 1 ==> n == size
  {
    if size == 0 then 1 else size
  }

  /** `int.from_bytes(raw, "little", signed=signed)`. */
  function IntValue(raw: seq<Byte>, signed: bool): int
  {
    if signed then Signed(raw) else Unsigned(raw)
  }

  /** `readInt4File(f, size, sign)`: consumes Consumed(size) bytes and returns their
      little-endian value. */
  method ReadInt(f: Stream, size: nat, signed: bool) returns (v: Option<int>)
    requires f.Valid()
    modifies f
    ensures f.Valid()
    ensures var p, n := old(f.pos), Consumed(size);
      if p + n <= |f.data| then f.pos == p + n && v == Some(IntValue(f.data[p..p + n], signed))
      else f.pos == |f.data| && v == None
  {
    var b := f.Read();
    if b.None? {
      return None;
    }
    var raw := [b.value];
    while |raw| < size
      invariant f.Valid() && 1 <= |raw| <= Consumed(size)
      invariant f.pos == old(f.pos) + |raw| && raw == f.data[old(f.pos)..f.pos]
      decreases size - |raw|
    {
      b := f.Read();
      if b.None? {
        return None;
      }
      raw := raw + [b.value];
    }
    v := Some(IntValue(raw, signed));
  }

  /** `readFloat4File(f)`: consumes 4 bytes; the IEEE single they encode is kept as
      those 4 bytes. */
  method ReadFloat(f: Stream) returns (v: Option<seq<Byte>>)
    requires f.Valid()
    modifies f
    ensures f.Valid()
    ensures var p := old(f.pos);
      if p + 4 <= |f.data| then f.pos == p + 4 && v == Some(f.data[p..p + 4])
      else f.pos == |f.data| && v == None
  {
    var b := f.Read();
    if b.None? {
      return None;
    }
    var raw := [b.value];
    while |raw| < 4
      invariant f.Valid() && 1 <= |raw| <= 4
      invariant f.pos == old(f.pos) + |raw| && raw == f.data[old(f.pos)..f.pos]
      decreases 4 - |raw|
    {
      b := f.Read();
      if b.None? {
        return None;
      }
      raw := raw + [b.value];
    }
    v := Some(raw);
  }

  /** The four unsigned fields both frame layouts start with, read one after the other:
      id (4 bytes), N (2), fs (2) and maxIndex (4). */
  method ReadCounts(f: Stream) returns (r: Option<(nat, nat, nat, nat)>)
    requires f.Valid()
    modifies f
    ensures f.Valid()
    ensures var p := old(f.pos);
      if p + 12 <= |f.data| then
        f.pos == p + 12 &&
        r == Some((Unsigned(f.data[p..p + 4]), Unsigned(f.data[p + 4..p + 6]),
                   Unsigned(f.data[p + 6..p + 8]), Unsigned(f.data[p + 8..p + 12])))
      else f.pos == |f.data| && r == None
  {
    var id := ReadInt(f, 4, false);
    if id.None? {
      return None;
    }
    var n := ReadInt(f, 2, false);
    if n.None? {
      return None;
    }
    var fs := ReadInt(f, 2, false);
    if fs.None? {
      return None;
    }
    var maxIndex := ReadInt(f, 4, false);
    if maxIndex.None? {
      return None;
    }
    r := Some((id.value as nat, n.value as nat, fs.value as nat, maxIndex.value as nat));
  }

  /** The head search: slide a window that starts as four zero bytes until it reads
      "head". Stops just after the first "head" (see Framing.FirstHead). */
  method SyncHead(f: Stream) returns (found: bool)
    requires f.Valid()
    modifies f
    ensures f.Valid()
    ensures found <==> SearchHead(f.data, old(f.pos), ZEROS).Some?
    ensures found ==> f.pos == SearchHead(f.data, old(f.pos), ZEROS).value
    ensures !found ==> f.pos == |f.data|
  {
    var data := ZEROS;
    while data != HEAD
      invariant f.Valid() && old(f.pos) <= f.pos && |data| == 4
      invariant SearchHead(f.data, old(f.pos), ZEROS) == SearchHead(f.data, f.pos, data)
      decreases |f.data| - f.pos
    {
      var b := f.Read();
      if b.None? {
        return false;
      }
      data := Shift(data, b.value);
    }
    found := true;
  }

  /** The tail check: four bytes are shifted into a window holding "1234", which
      then holds exactly those four bytes; reports whether they read "tail". */
  method CheckTail(f: Stream) returns (ok: Option<bool>)
    requires f.Valid()
    modifies f
    ensures f.Valid()
    ensures var p := old(f.pos);
      if p + 4 <= |f.data| then f.pos == p + 4 && ok == Some(f.data[p..p + 4] == TAIL)
      else f.pos == |f.data| && ok == None
  {
    var data: seq<Byte> := [0x31, 0x32, 0x33, 0x34];
    for j := 0 to 4
      invariant f.Valid() && f.pos == old(f.pos) + j && |data| == 4
      invariant data[4 - j..] == f.data[old(f.pos)..f.pos]
    {
      ghost var read := f.data[old(f.pos)..f.pos];
      var b := f.Read();
      if b.None? {
        return None;
      }
      assert f.data[old(f.pos)..f.pos] == read + [b.value];
      assert Shift(data, b.value)[3 - j..] == data[4 - j..] + [b.value];
      data := Shift(data, b.value);
    }
    ok := Some(data == TAIL);
  }

  /** `(raw * 1.65**2) / (2**4 * 512)`: the scaling applied to the raw maxValue. */
  function ScaledMaxValue(raw: int): real
  {
    raw as real * 1.65 * 1.65 / 8192.0
  }

  /** The scale factor is positive, so the scaled value has the raw value's sign. */
  lemma ScaledSign(raw: int)
    ensures ScaledMaxValue(raw) >= 0.0 <==> raw >= 0
    ensures ScaledMaxValue(raw) > 0.0 <==> raw > 0
  {
    var c := 1.65 * 1.65 / 8192.0;
    assert c > 0.0;
    assert ScaledMaxValue(raw) == raw as real * c;
    if raw > 0 {
      assert raw as real * c > 0.0;
    } else if raw < 0 {
      assert (-raw) as real * c > 0.0;
    }
  }
}
