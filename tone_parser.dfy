/** The host decoder for the 26-byte frame the firmware sends: `findHeader` in
    app/tone_parser.py (app/visualize.py holds a verbatim copy). Each attempt reads
    id (4 bytes), N (2), fs (2), maxIndex (4), maxValue (2, signed) and matchedTone
    (4) after "head", then checks the next four bytes against "tail". */
module ToneParser {
  import opened Bytes
  import opened Framing
  import opened SerialInput
  import Firmware

  /** Payload bytes between the markers. */
  const PAYLOAD := 18

  /** The fields `findHeader` returns. maxValue is the raw int16 (the float scaling is
      ScaledMaxValue); matchedTone is the four raw bytes of the IEEE single. */
  datatype Frame = Frame(id: nat, n: nat, fs: nat, maxIndex: nat, maxValue: int, matchedTone: seq<Byte>)

  /** Every field fits the width the decoder reads it with. */
  predicate Fits(fr: Frame)
  {
    fr.id < Pow256(4) && fr.n < Pow256(2) && fr.fs < Pow256(2) && fr.maxIndex < Pow256(4) &&
    -(Pow256(2) as int) <= 2 * fr.maxValue < Pow256(2) && |fr.matchedTone| == 4
  }

  /** The fields of a payload that starts at k. */
  function ParseAt(s: seq<Byte>, k: nat): (h: Frame)
    requires k + PAYLOAD <= |s|
  {
    Frame(Unsigned(s[k..k + 4]), Unsigned(s[k + 4..k + 6]), Unsigned(s[k + 6..k + 8]),
      Unsigned(s[k + 8..k + 12]), Signed(s[k + 12..k + 14]), s[k + 14..k + 18])
  }

  /** What `findHeader` returns when the stream holds s and it starts reading at from:
      the fields of the first frame whose tail matches, None when the bytes run out. */
  function DecodeFrame(s: seq<Byte>, from: nat): (r: Option<Frame>)
    requires from <= |s|
    ensures r.Some? <==> Decode(s, from, PAYLOAD).Some?
    ensures r.Some? ==> Fits(r.value)
  {
    match Decode(s, from, PAYLOAD)
    case None => None
    case Some((k, _)) =>
      DecodeSound(s, from, PAYLOAD);
      Some(ParseAt(s, k))
  }

  /** The six field reads after "head". */
  method ReadPayload(f: Stream) returns (h: Option<Frame>)
    requires f.Valid()
    modifies f
    ensures f.Valid()
    ensures var p := old(f.pos);
      if p + PAYLOAD <= |f.data| then f.pos == p + PAYLOAD && h == Some(ParseAt(f.data, p))
      else f.pos == |f.data| && h == None
  {
    var counts := ReadCounts(f);
    if counts.None? {
      return None;
    }
    var maxValue := ReadInt(f, 2, true);
    if maxValue.None? {
      return None;
    }
    var matchedTone := ReadFloat(f);
    if matchedTone.None? {
      return None;
    }
    var (id, n, fs, maxIndex) := counts.value;
    h := Some(Frame(id, n, fs, maxIndex, maxValue.value, matchedTone.value));
  }

  /** `findHeader(f, h)`: returns the fields of the first frame whose tail check succeeds
      and leaves the stream just after that frame's "tail". */
  method FindHeader(f: Stream) returns (h: Option<Frame>)
    requires f.Valid()
    modifies f
    ensures f.Valid()
    ensures h == DecodeFrame(f.data, old(f.pos))
    ensures match Decode(f.data, old(f.pos), PAYLOAD)
      case Some((_, e)) => f.pos == e
      case None => f.pos == |f.data|
  {
    var find := false;
    h := None;
    while !find
      invariant f.Valid() && old(f.pos) <= f.pos
      invariant !find ==> Decode(f.data, old(f.pos), PAYLOAD) == Decode(f.data, f.pos, PAYLOAD)
      invariant find ==>
        Decode(f.data, old(f.pos), PAYLOAD).Some? &&
        f.pos == Decode(f.data, old(f.pos), PAYLOAD).value.1 &&
        h == DecodeFrame(f.data, old(f.pos))
      decreases |f.data| - f.pos
    {
      var found := SyncHead(f);
      if !found {
        return None;
      }
      h := ReadPayload(f);
      if h.None? {
        return None;
      }
      var tail := CheckTail(f);
      if tail.None? {
        return None;
      }
      find := tail.value;
    }
  }

  /** A payload's fields depend only on its PAYLOAD bytes. */
  lemma ParseAtWindow(s: seq<Byte>, k: nat, w: seq<Byte>)
    requires k + PAYLOAD <= |s| && w == s[k..k + PAYLOAD]
    ensures ParseAt(s, k) == ParseAt(w, 0)
  {
    SliceOfSlice(s, k, w, 0, 4);
    SliceOfSlice(s, k, w, 4, 6);
    SliceOfSlice(s, k, w, 6, 8);
    SliceOfSlice(s, k, w, 8, 12);
    SliceOfSlice(s, k, w, 12, 14);
    SliceOfSlice(s, k, w, 14, 18);
  }

  /** Round trip with the firmware: a packed header anywhere in the stream, read from
      its first byte, decodes to exactly the fields that were packed. */
  lemma ReadsFirmwareFrame(pre: seq<Byte>, h: Firmware.Header, toneBits: seq<Byte>, rest: seq<Byte>)
    requires Firmware.WellFormed(h) && |toneBits| == 4
    ensures DecodeFrame(pre + Firmware.Pack(h, toneBits) + rest, |pre|) ==
      Some(Frame(h.id, h.n, h.fs, h.maxIndex, h.maxValue, toneBits))
  {
    var p := |pre|;
    var bs := Firmware.Pack(h, toneBits);
    var s := pre + bs + rest;
    assert s[p..p + 26] == bs;
    SliceOfSlice(s, p, bs, 0, 4);
    SliceOfSlice(s, p, bs, 22, 26);
    DecodeAligned(s, p, PAYLOAD);
    SliceOfSlice(s, p, bs, 4, 22);
    ParseAtWindow(s, p + 4, bs[4..22]);
    ParseAtWindow(bs, 4, bs[4..22]);
    Firmware.PackLayout(h, toneBits);
  }
}
