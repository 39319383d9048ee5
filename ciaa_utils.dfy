/** The host decoder of python_app/ciaa_utils.py (app/player.py holds a verbatim copy
    of both classes). `CIAACollector.wait_for_data` expects a 30-byte frame: the
    18 payload bytes of the firmware's header followed by a 4-byte toneIndex. The
    firmware sends no toneIndex (see FirmwareFrameRejected). `CIAADataSource` keeps
    the last tone index whose frame had a non-negative maxValue. */
module CiaaUtils {
  import opened Bytes
  import opened Framing
  import opened SerialInput
  import Firmware

  /** Payload bytes between the markers. */
  const PAYLOAD := 22

  /** The dictionary `self.h`, without its constant markers. maxValue is the raw int16
      (see ScaledMaxValue); matchedTone is the four raw bytes of the IEEE single. */
  datatype Frame = Frame(
    id: nat, n: nat, fs: nat, maxIndex: nat, maxValue: int, matchedTone: seq<Byte>, toneIndex: nat)

  /** The dictionary's initial contents for the dataclass field `sampling_f_hz` (8000 by
      default); 0.0 is four zero bytes as an IEEE single. */
  function InitialFrame(samplingFreqHz: nat): (fr: Frame)
    ensures fr.id == 0 && fr.n == 128 && fr.fs == samplingFreqHz && fr.toneIndex == 0
  {
    Frame(0, 128, samplingFreqHz, 0, 0, [0, 0, 0, 0], 0)
  }

  /** The fields of a payload that starts at k. */
  function ParseAt(s: seq<Byte>, k: nat): (h: Frame)
    requires k + PAYLOAD <= |s|
  {
    Frame(Unsigned(s[k..k + 4]), Unsigned(s[k + 4..k + 6]), Unsigned(s[k + 6..k + 8]),
      Unsigned(s[k + 8..k + 12]), Signed(s[k + 12..k + 14]), s[k + 14..k + 18],
      Unsigned(s[k + 18..k + 22]))
  }

  /** What `wait_for_data` returns when the stream holds s and reading starts at from. */
  function DecodeFrame(s: seq<Byte>, from: nat): (r: Option<Frame>)
    requires from <= |s|
    ensures r.Some? <==> Decode(s, from, PAYLOAD).Some?
    ensures r.Some? ==> Fits(r.value)
  {
    match Decode(s, from, PAYLOAD)
    case None => None
    case Some((k, _)) =>
      DecodeSound(s, from, PAYLOAD);
      Some(ParseAt(s, k))
  }

  /** Every field fits the width the decoder reads it with. */
  predicate Fits(fr: Frame)
  {
    fr.id < Pow256(4) && fr.n < Pow256(2) && fr.fs < Pow256(2) && fr.maxIndex < Pow256(4) &&
    -(Pow256(2) as int) <= 2 * fr.maxValue < Pow256(2) && |fr.matchedTone| == 4 &&
    fr.toneIndex < Pow256(4)
  }

  /** The frame layout the decoder expects: "head", the seven little-endian fields and "tail". */
  function Encode(fr: Frame): (bs: seq<Byte>)
    requires Fits(fr)
    ensures |bs| == PAYLOAD + 8
  {
    HEAD + EncodeUnsigned(fr.id, 4) + EncodeUnsigned(fr.n, 2) + EncodeUnsigned(fr.fs, 2) +
    EncodeUnsigned(fr.maxIndex, 4) + EncodeSigned(fr.maxValue, 2) + fr.matchedTone +
    EncodeUnsigned(fr.toneIndex, 4) + TAIL
  }

  /** A payload's fields depend only on its PAYLOAD bytes. */
  lemma ParseAtWindow(s: seq<Byte>, k: nat, w: seq<Byte>)
    requires k + PAYLOAD <= |s| && w == s[k..k + PAYLOAD]
    ensures ParseAt(s, k) == ParseAt(w, 0)
  {
    SliceOfSlice(s, k, w, 0, 4);
    SliceOfSlice(s, k, w, 4, 6);
    SliceOfSlice(s, k, w, 6, 8);
    SliceOfSlice(s, k, w, 8, 12);
    SliceOfSlice(s, k, w, 12, 14);
    SliceOfSlice(s, k, w, 14, 18);
    SliceOfSlice(s, k, w, 18, 22);
  }

  /** Each field of an encoded frame sits at its offset and reads back as written. */
  lemma EncodeLayout(fr: Frame)
    requires Fits(fr)
    ensures var bs := Encode(fr);
      bs[0..4] == HEAD && bs[26..30] == TAIL && ParseAt(bs, 4) == fr
  {
    var bs := Encode(fr);
    assert bs[4..8] == EncodeUnsigned(fr.id, 4);
    assert bs[8..10] == EncodeUnsigned(fr.n, 2);
    assert bs[10..12] == EncodeUnsigned(fr.fs, 2);
    assert bs[12..16] == EncodeUnsigned(fr.maxIndex, 4);
    assert bs[16..18] == EncodeSigned(fr.maxValue, 2);
    assert bs[18..22] == fr.matchedTone;
    assert bs[22..26] == EncodeUnsigned(fr.toneIndex, 4);
    RoundTripUnsigned(fr.id, 4);
    RoundTripUnsigned(fr.n, 2);
    RoundTripUnsigned(fr.fs, 2);
    RoundTripUnsigned(fr.maxIndex, 4);
    RoundTripSigned(fr.maxValue, 2);
    RoundTripUnsigned(fr.toneIndex, 4);
  }

  /** Round trip: a frame in the expected layout, read from its first byte, decodes to
      exactly the fields that were encoded. */
  lemma RoundTrip(pre: seq<Byte>, fr: Frame, rest: seq<Byte>)
    requires Fits(fr)
    ensures DecodeFrame(pre + Encode(fr) + rest, |pre|) == Some(fr)
  {
    var p := |pre|;
    var bs := Encode(fr);
    var s := pre + bs + rest;
    assert s[p..p + 30] == bs;
    EncodeLayout(fr);
    SliceOfSlice(s, p, bs, 0, 4);
    SliceOfSlice(s, p, bs, 26, 30);
    DecodeAligned(s, p, PAYLOAD);
    SliceOfSlice(s, p, bs, 4, 26);
    ParseAtWindow(s, p + 4, bs[4..26]);
    ParseAtWindow(bs, 4, bs[4..26]);
  }

  /** Against the firmware's 26-byte frames sent back to back, the first frame is never
      accepted: its toneIndex is read from its own "tail", the tail check reads the next
      frame's "head", and decoding continues as if the stream began 30 bytes later. */
  lemma FirmwareFrameRejected(
    h1: Firmware.Header, b1: seq<Byte>, h2: Firmware.Header, b2: seq<Byte>, rest: seq<Byte>)
    requires Firmware.WellFormed(h1) && |b1| == 4 && Firmware.WellFormed(h2) && |b2| == 4
    ensures var s := Firmware.Pack(h1, b1) + Firmware.Pack(h2, b2) + rest;
      ParseAt(s, 4).toneIndex == Unsigned(TAIL) && s[26..30] == HEAD &&
      Decode(s, 0, PAYLOAD) == Decode(s, 30, PAYLOAD) &&
      match Decode(s, 0, PAYLOAD)
      case Some((k, _)) => k >= 34
      case None => true
  {
    var p1, p2 := Firmware.Pack(h1, b1), Firmware.Pack(h2, b2);
    var s := p1 + p2 + rest;
    assert s[22..26] == p1[22..26];
    assert s[26..30] == p2[0..4];
    HeadThenHead(p1, p2, rest);
  }

  /** A 26-byte frame starting with "head" and followed by another "head": the tail
      check of the 30-byte layout reads that second "head". */
  lemma HeadThenHead(p1: seq<Byte>, p2: seq<Byte>, rest: seq<Byte>)
    requires |p1| == 26 && |p2| >= 4 && p1[0..4] == HEAD && p2[0..4] == HEAD
    ensures var s := p1 + p2 + rest;
      Decode(s, 0, PAYLOAD) == Decode(s, 30, PAYLOAD) &&
      match Decode(s, 0, PAYLOAD)
      case Some((k, _)) => k >= 34
      case None => true
  {
    var s := p1 + p2 + rest;
    assert s[0..4] == p1[0..4];
    assert s[26..30] == p2[0..4];
    HeadAtStart(s, 0);
    assert s[26] == HEAD[0] != TAIL[0];
    NoRescan(s, 0, PAYLOAD, 4);
  }

  /** `CIAACollector`: the serial stream and the dictionary `self.h`. */
  class Collector {
    const stream: Stream
    var h: Frame

    ghost predicate Valid()
      reads this, stream
    {
      stream.Valid()
    }

    /** `__post_init__`: the opened port and the initial dictionary. */
    constructor (stream: Stream, samplingFreqHz: nat)
      requires stream.Valid()
      ensures Valid() && this.stream == stream && h == InitialFrame(samplingFreqHz)
    {
      this.stream := stream;
      h := InitialFrame(samplingFreqHz);
    }

    /** The seven field reads after "head", stored into the dictionary. */
    method ReadPayload() returns (ok: bool)
      requires Valid()
      modifies this, stream
      ensures Valid()
      ensures var p := old(stream.pos);
        if p + PAYLOAD <= |stream.data| then
          ok && stream.pos == p + PAYLOAD && h == ParseAt(stream.data, p)
        else !ok && stream.pos == |stream.data|
    {
      var counts := ReadCounts(stream);
      if counts.None? {
        return false;
      }
      var maxValue := ReadInt(stream, 2, true);
      if maxValue.None? {
        return false;
      }
      var matchedTone := ReadFloat(stream);
      if matchedTone.None? {
        return false;
      }
      var toneIndex := ReadInt(stream, 4, false);
      if toneIndex.None? {
        return false;
      }
      var (id, n, fs, maxIndex) := counts.value;
      h := Frame(id, n, fs, maxIndex, maxValue.value, matchedTone.value, toneIndex.value as nat);
      ok := true;
    }

    /** One pass of the `while not header_found` loop: the head search, the payload
        and the tail check. None when the bytes run out, which happens exactly when no
        frame is accepted any more; Some(false) when the tail check fails and decoding
        starts over from where the stream now is; Some(true) when the frame is accepted. */
    method TryFrame() returns (r: Option<bool>)
      requires Valid()
      modifies this, stream
      ensures Valid() && old(stream.pos) <= stream.pos
      ensures r == None ==>
        Decode(stream.data, old(stream.pos), PAYLOAD) == None && stream.pos == |stream.data|
      ensures r.Some? ==> old(stream.pos) < stream.pos
      ensures r == Some(false) ==>
        Decode(stream.data, old(stream.pos), PAYLOAD) == Decode(stream.data, stream.pos, PAYLOAD)
      ensures r == Some(true) ==>
        Decode(stream.data, old(stream.pos), PAYLOAD) == Some((stream.pos - PAYLOAD - 4, stream.pos)) &&
        Some(h) == DecodeFrame(stream.data, old(stream.pos))
    {
      ghost var from := stream.pos;
      var found := SyncHead(stream);
      if !found {
        return None;
      }
      ghost var k := stream.pos;
      var ok := ReadPayload();
      if !ok {
        return None;
      }
      var tail := CheckTail(stream);
      if tail.None? {
        return None;
      }
      DecodeAttempt(stream.data, from, PAYLOAD, k);
      r := Some(tail.value);
    }

    /** `wait_for_data`: the fields of the first 30-byte frame whose tail check
        succeeds, left in the dictionary; the stream ends just after its "tail". */
    method WaitForData() returns (r: Option<Frame>)
      requires Valid()
      modifies this, stream
      ensures Valid()
      ensures r == DecodeFrame(stream.data, old(stream.pos))
      ensures r.Some? ==> h == r.value
      ensures match Decode(stream.data, old(stream.pos), PAYLOAD)
        case Some((_, e)) => stream.pos == e
        case None => stream.pos == |stream.data|
    {
      var headerFound := false;
      while !headerFound
        invariant Valid() && old(stream.pos) <= stream.pos
        invariant !headerFound ==>
          Decode(stream.data, old(stream.pos), PAYLOAD) == Decode(stream.data, stream.pos, PAYLOAD)
        invariant headerFound ==>
          Decode(stream.data, old(stream.pos), PAYLOAD) == Some((stream.pos - PAYLOAD - 4, stream.pos)) &&
          Some(h) == DecodeFrame(stream.data, old(stream.pos))
        decreases |stream.data| - stream.pos
      {
        var attempt := TryFrame();
        if attempt.None? {
          return None;
        }
        headerFound := attempt.value;
      }
      r := Some(h);
    }
  }

  /** `CIAADataSource`: the collector and the index last reported. */
  class DataSource {
    const ciaa: Collector
    var lastIndex: nat

    ghost predicate Valid()
      reads this, ciaa, ciaa.stream
    {
      ciaa.Valid()
    }

    constructor (collector: Collector)
      requires collector.Valid()
      ensures Valid() && ciaa == collector && lastIndex == 0
    {
      ciaa := collector;
      lastIndex := 0;
    }

    /** `wait_for_sample`: waits for a frame; when its scaled maxValue is non-negative
        (exactly when the raw value is), its toneIndex becomes the last index. Either
        way the last index is returned. */
    method WaitForSample() returns (r: Option<nat>)
      requires Valid()
      modifies this, ciaa, ciaa.stream
      ensures Valid()
      ensures match DecodeFrame(ciaa.stream.data, old(ciaa.stream.pos))
        case None => r == None && lastIndex == old(lastIndex)
        case Some(fr) =>
          r == Some(lastIndex) &&
          lastIndex == (if fr.maxValue >= 0 then fr.toneIndex else old(lastIndex))
    {
      var mp := ciaa.WaitForData();
      if mp.None? {
        return None;
      }
      ScaledSign(mp.value.maxValue);
      if ScaledMaxValue(mp.value.maxValue) >= 0.0 {
        lastIndex := mp.value.toneIndex;
        return Some(mp.value.toneIndex);
      } else {
        return Some(lastIndex);
      }
    }
  }
}
