/** The firmware's per-sample loop: each tick stores one converted ADC reading in the
    batch buffers; every BATCH_N ticks the batch is analysed (dominant bin, nearest
    tone) and the packed header is sent over the UART.

    The FFT and squared-magnitude primitives are foreign numeric code: their output,
    the BINS magnitudes of the batch, is a parameter of Tick. `arm_max_q15` and
    `arm_min_f32` are modelled by loops that meet the contracts the firmware relies
    on. Floats are modelled as reals, without rounding. */
module Firmware {
  import opened Bytes

  const MAX_TONES_N := 120
  const SAMPLING_FREQUENCY_HZ := 8000
  const ZERO_PADDING_SAMPS := 128
  /** header.N: the batch size, never changed after initialisation. */
  const BATCH_N := 128
  /** Length of adc[] and fftIn[]: the batch followed by its zero-padding slots. */
  const BUF_LEN := BATCH_N + ZERO_PADDING_SAMPS
  /** Number of magnitude bins searched for the maximum. */
  const BINS := BUF_LEN / 2 + 1
  const UINT32 := 0x1_0000_0000

  // ---------------------------------------------------------------------------
  // ADC conversion

  /** Conversion to int16_t: the value in [-32768, 32768) congruent to x modulo 2^16. */
  function Int16(x: int): (r: int)
    ensures -32768 <= r < 32768
    ensures (x - r) % 65536 == 0
    ensures -32768 <= x < 32768 ==> r == x
  {
    var m := x % 65536;
    DivModUnique(x, 65536, x / 65536, m);
    if m >= 32768 then
      DivModUnique(x - (m - 65536), 65536, x / 65536 + 1, 0);
      m - 65536
    else
      DivModUnique(x - m, 65536, x / 65536, 0);
      if -32768 <= x < 0 then DivModUnique(x, 65536, -1, x + 65536); m else m
  }

  /** `((int16_t)adcRead(CH1) - 512) << 6`, stored into an int16_t cell. */
  function AdcToQ15(reading: nat): (q: int)
    requires reading < 0x1_0000
    ensures -32768 <= q < 32768
  {
    Int16((Int16(reading) - 512) * 64)
  }

  /** A 10-bit reading is centred on 512 and scaled by 64 without any wrap-around: the
      result lies in [-32768, 32704], is a multiple of 64, and gives the reading back. */
  lemma AdcConversion(reading: nat)
    requires reading < 1024
    ensures AdcToQ15(reading) == (reading - 512) * 64
    ensures -32768 <= AdcToQ15(reading) <= 32704
    ensures AdcToQ15(reading) % 64 == 0 && AdcToQ15(reading) / 64 + 512 == reading
  {
    var q := (reading - 512) * 64;
    assert Int16(reading) == reading;
    assert -32768 <= q <= 32704;
    DivModUnique(q, 64, reading - 512, 0);
  }

  // ---------------------------------------------------------------------------
  // The vector primitives whose contracts the analysis relies on

  /** index is the first position of a largest value among src[0..n). */
  predicate IsFirstMax(src: seq<int>, n: nat, index: nat, value: int)
    requires n <= |src|
  {
    index < n && value == src[index] &&
    (forall k :: 0 <= k < n ==> src[k] <= value) &&
    (forall k :: 0 <= k < index ==> src[k] < value)
  }

  /** `arm_max_q15(src, blockSize, &result, &index)`. */
  method MaxQ15(src: seq<int>, blockSize: nat) returns (result: int, index: nat)
    requires 1 <= blockSize <= |src|
    ensures IsFirstMax(src, blockSize, index, result)
  {
    result, index := src[0], 0;
    for i := 1 to blockSize
      invariant index < i && result == src[index]
      invariant forall k :: 0 <= k < i ==> src[k] <= result
      invariant forall k :: 0 <= k < index ==> src[k] < result
    {
      if src[i] > result {
        result, index := src[i], i;
      }
    }
  }

  /** `arm_min_f32(src, blockSize, &result, &index)`: the first position of a smallest
      value among src[0..blockSize). */
  method MinF32(src: array<real>, blockSize: nat) returns (result: real, index: nat)
    requires 1 <= blockSize <= src.Length
    ensures index < blockSize && result == src[index]
    ensures forall k :: 0 <= k < blockSize ==> result <= src[k]
    ensures forall k :: 0 <= k < index ==> result < src[k]
  {
    result, index := src[0], 0;
    for i := 1 to blockSize
      invariant index < i && result == src[index]
      invariant forall k :: 0 <= k < i ==> result <= src[k]
      invariant forall k :: 0 <= k < index ==> result < src[k]
    {
      if src[i] < result {
        result, index := src[i], i;
      }
    }
  }

  // ---------------------------------------------------------------------------
  // Tone matching

  function Abs(x: real): real
  {
    if x < 0.0 then -x else x
  }

  /** ind is the first index of a tone at the least distance from freqHz. */
  predicate NearestAt(freqHz: real, tunes: seq<real>, ind: nat)
  {
    ind < |tunes| &&
    (forall j :: 0 <= j < |tunes| ==> Abs(tunes[ind] - freqHz) <= Abs(tunes[j] - freqHz)) &&
    (forall j :: 0 <= j < ind ==> Abs(tunes[j] - freqHz) > Abs(tunes[ind] - freqHz))
  }

  /** tone is the table entry nearest to freqHz, ties going to the lowest index. */
  ghost predicate IsClosestTone(freqHz: real, tunes: seq<real>, tone: real)
  {
    exists ind: nat :: NearestAt(freqHz, tunes, ind) && tone == tunes[ind]
  }

  /** The first-nearest index is unique, so the matched tone is determined. */
  lemma NearestUnique(freqHz: real, tunes: seq<real>, i: nat, j: nat)
    requires NearestAt(freqHz, tunes, i) && NearestAt(freqHz, tunes, j)
    ensures i == j
  {
    var di, dj := Abs(tunes[i] - freqHz), Abs(tunes[j] - freqHz);
    assert di <= dj && dj <= di;
  }

  /** `psf_closest_tune`: fill the static diff_vector with |t - f| for every tone t
      (`arm_offset_f32`, then `arm_abs_f32` in place), take the first minimum
      (`arm_min_f32`) and return that tone. diff_vector has MAX_TONES_N cells, so the
      table may not be longer; an empty table would leave the index unset. */
  method ClosestTune(freqHz: real, tunes: seq<real>) returns (tone: real)
    requires 1 <= |tunes| <= MAX_TONES_N
    ensures tone in tunes
    ensures forall j :: 0 <= j < |tunes| ==> Abs(tone - freqHz) <= Abs(tunes[j] - freqHz)
    ensures IsClosestTone(freqHz, tunes, tone)
  {
    var diffVector := new real[MAX_TONES_N];
    for k := 0 to |tunes|
      invariant forall j :: 0 <= j < k ==> diffVector[j] == tunes[j] - freqHz
    {
      diffVector[k] := tunes[k] + -freqHz;
    }
    for k := 0 to |tunes|
      invariant forall j :: 0 <= j < k ==> diffVector[j] == Abs(tunes[j] - freqHz)
      invariant forall j :: k <= j < |tunes| ==> diffVector[j] == tunes[j] - freqHz
    {
      diffVector[k] := Abs(diffVector[k]);
    }
    var res, ind := MinF32(diffVector, |tunes|);
    tone := tunes[ind];
    assert NearestAt(freqHz, tunes, ind);
  }

  /** `header.maxIndex * 62.857 / 2`: the frequency the firmware assigns to a bin. */
  function BinToHz(index: nat): (hz: real)
    ensures hz >= 0.0 && (index > 0 ==> hz > 0.0)
  {
    index as real * 62.857 / 2.0
  }

  // ---------------------------------------------------------------------------
  // The telemetry header

  /** `struct header_struct`, packed. matchedTone is the float's value. */
  datatype Header = Header(
    pre: seq<Byte>, id: nat, n: nat, fs: nat, maxIndex: nat, maxValue: int,
    matchedTone: real, pos: seq<Byte>)

  /** The markers and every field's value fit the struct's field widths. */
  predicate WellFormed(h: Header)
  {
    h.pre == HEAD && h.pos == TAIL &&
    h.id < UINT32 && h.n < 0x1_0000 && h.fs < 0x1_0000 && h.maxIndex < UINT32 &&
    -32768 <= h.maxValue < 32768
  }

  /** The header's initialiser. */
  const INITIAL_HEADER := Header(HEAD, 0, BATCH_N, SAMPLING_FREQUENCY_HZ, 0, 0, 0.0, TAIL)

  /** The bytes `uartWriteByteArray(UART_USB, (uint8_t*)&header, sizeof header)` sends:
      the packed struct as a little-endian core lays it out. toneBits is the IEEE
      single-precision layout of matchedTone, which this model does not compute. */
  function Pack(h: Header, toneBits: seq<Byte>): (bs: seq<Byte>)
    requires WellFormed(h) && |toneBits| == 4
    ensures |bs| == 26 && bs[0..4] == HEAD && bs[22..26] == TAIL
  {
    h.pre + EncodeUnsigned(h.id, 4) + EncodeUnsigned(h.n, 2) + EncodeUnsigned(h.fs, 2) +
    EncodeUnsigned(h.maxIndex, 4) + EncodeSigned(h.maxValue, 2) + toneBits + h.pos
  }

  /** The 26-byte frame: "head" at 0, id at 4, N at 8, fs at 10, maxIndex at 12,
      maxValue at 16, matchedTone at 18 and "tail" at 22, each read back as written. */
  lemma PackLayout(h: Header, toneBits: seq<Byte>)
    requires WellFormed(h) && |toneBits| == 4
    ensures var bs := Pack(h, toneBits);
      bs[0..4] == HEAD && Unsigned(bs[4..8]) == h.id && Unsigned(bs[8..10]) == h.n &&
      Unsigned(bs[10..12]) == h.fs && Unsigned(bs[12..16]) == h.maxIndex &&
      Signed(bs[16..18]) == h.maxValue && bs[18..22] == toneBits && bs[22..26] == TAIL
  {
    var bs := Pack(h, toneBits);
    assert bs[4..8] == EncodeUnsigned(h.id, 4);
    assert bs[8..10] == EncodeUnsigned(h.n, 2);
    assert bs[10..12] == EncodeUnsigned(h.fs, 2);
    assert bs[12..16] == EncodeUnsigned(h.maxIndex, 4);
    assert bs[16..18] == EncodeSigned(h.maxValue, 2);
    RoundTripUnsigned(h.id, 4);
    RoundTripUnsigned(h.n, 2);
    RoundTripUnsigned(h.fs, 2);
    RoundTripUnsigned(h.maxIndex, 4);
    RoundTripSigned(h.maxValue, 2);
  }

  lemma ModIncrement(a: nat, m: nat)
    requires m > 0
    ensures (a % m + 1) % m == (a + 1) % m
  {
    var q, r := a / m, a % m;
    if r + 1 < m {
      DivModUnique(a + 1, m, q, r + 1);
      DivModUnique(r + 1, m, 0, r + 1);
    } else {
      DivModUnique(a + 1, m, q + 1, 0);
      DivModUnique(r + 1, m, 1, 0);
    }
  }

  // ---------------------------------------------------------------------------
  // The FFT's input

  /** The zero-padding the 256-point FFT of a 128-sample batch assumes. */
  const ZERO_PAD: seq<int> := seq(ZERO_PADDING_SAMPS, _ => 0)

  /** The padding cells fftIn[N..] are never cleared: the FFT reads there whatever the
      previous in-place FFT left, or the uninitialised stack contents on the first batch.
      Once any value there is non-zero, the FFT input is not the zero-padded batch. */
  lemma StalePadding(samples: seq<int>, padding: seq<int>)
    requires |samples| == BATCH_N && |padding| == ZERO_PADDING_SAMPS && padding != ZERO_PAD
    ensures samples + padding != samples + ZERO_PAD
  {
    assert (samples + padding)[BATCH_N..] == padding;
    assert (samples + ZERO_PAD)[BATCH_N..] == ZERO_PAD;
  }

  /** `a[..] = contents`: what an in-place routine leaves in a buffer. */
  method Overwrite(a: array<int>, contents: seq<int>)
    requires |contents| == a.Length
    modifies a
    ensures a[..] == contents
  {
    forall k | 0 <= k < a.Length {
      a[k] := contents[k];
    }
  }

  // ---------------------------------------------------------------------------
  // The main loop's state

  /** The state `main` keeps across iterations: the write index `sample`, the buffers
      adc[] and fftIn[], the global header and the tone table. ticks and batches count
      loop iterations and analysed batches; batch holds the converted readings of the
      batch in progress, padding the contents of fftIn's padding cells, and fftInput the
      buffer the last FFT read. */
  class Pipeline {
    var sample: nat
    const adc: array<int>
    const fftIn: array<int>
    var header: Header
    const scale: seq<real>
    ghost var ticks: nat
    ghost var batches: nat
    ghost var batch: seq<int>
    ghost var padding: seq<int>
    ghost var fftInput: seq<int>

    /** The state between storing a sample and analysing a full batch. */
    ghost predicate Consistent()
      reads this, adc, fftIn
    {
      adc.Length == BUF_LEN && fftIn.Length == BUF_LEN && adc != fftIn &&
      WellFormed(header) && header.n == BATCH_N && header.fs == SAMPLING_FREQUENCY_HZ &&
      1 <= |scale| <= MAX_TONES_N &&
      sample <= BATCH_N && ticks == batches * BATCH_N + sample &&
      header.id == batches % UINT32 &&
      |batch| == sample && adc[..sample] == batch && fftIn[..sample] == batch &&
      fftIn[BATCH_N..] == padding
    }

    /** The state at the top of `while(1)`. */
    ghost predicate Valid()
      reads this, adc, fftIn
    {
      Consistent() && sample < BATCH_N
    }

    /** Start-up: the initialised header, index 0, and buffers of BUF_LEN cells whose
        contents are unspecified. */
    constructor (scale: seq<real>)
      requires 1 <= |scale| <= MAX_TONES_N
      ensures Valid() && fresh(adc) && fresh(fftIn)
      ensures this.scale == scale && header == INITIAL_HEADER
      ensures sample == 0 && ticks == 0 && batches == 0 && batch == [] && fftInput == []
      ensures |padding| == ZERO_PADDING_SAMPS
    {
      sample := 0;
      adc := new int[BUF_LEN];
      fftIn := new int[BUF_LEN];
      header := INITIAL_HEADER;
      this.scale := scale;
      ticks, batches, batch, fftInput := 0, 0, [], [];
      new;
      padding := fftIn[BATCH_N..];
    }

    /** Lines 88-90: store the converted reading at the write index in adc and fftIn,
        and advance the index. */
    method Store(reading: nat)
      requires Valid() && reading < 0x1_0000
      modifies this, adc, fftIn
      ensures Consistent() && sample == old(sample) + 1 && ticks == old(ticks) + 1
      ensures batch == old(batch) + [AdcToQ15(reading)]
      ensures adc[..] == old(adc[..])[old(sample) := AdcToQ15(reading)]
      ensures fftIn[..] == old(fftIn[..])[old(sample) := AdcToQ15(reading)]
      ensures header == old(header) && batches == old(batches)
      ensures padding == old(padding) && fftInput == old(fftInput)
    {
      adc[sample] := AdcToQ15(reading);
      fftIn[sample] := adc[sample];
      assert adc[..sample + 1] == batch + [adc[sample]];
      assert fftIn[..sample + 1] == batch + [adc[sample]];
      assert fftIn[BATCH_N..] == padding;
      batch := batch + [adc[sample]];
      sample := sample + 1;
      ticks := ticks + 1;
    }

    /** Lines 91-102, once the batch is full: wrap the index, run the FFT on fftIn (the
        batch followed by the padding cells as they are), which works in place and
        leaves `scratch` there, take the dominant bin of its squared magnitudes `mag`,
        match its frequency against the scale, increment id and send the header. */
    method EndBatch(mag: seq<int>, scratch: seq<int>) returns (sent: Header)
      requires Consistent() && sample == BATCH_N
      requires |mag| == BINS && forall k :: 0 <= k < BINS ==> -32768 <= mag[k] < 32768
      requires |scratch| == BUF_LEN
      modifies this, fftIn
      ensures Valid() && ticks == old(ticks)
      ensures fftInput == old(batch) + old(padding)
      ensures fftIn[..] == scratch && padding == scratch[BATCH_N..]
      ensures sample == 0 && batch == [] && batches == old(batches) + 1 && sent == header
      ensures header.id == (old(header.id) + 1) % UINT32
      ensures IsFirstMax(mag, BINS, header.maxIndex, header.maxValue)
      ensures IsClosestTone(BinToHz(header.maxIndex), scale, header.matchedTone)
      ensures header.n == old(header.n) && header.fs == old(header.fs)
    {
      assert fftIn[..] == fftIn[..BATCH_N] + fftIn[BATCH_N..];
      fftInput := fftIn[..];
      sample := 0;
      batch := [];
      batches := batches + 1;
      Overwrite(fftIn, scratch);
      padding := fftIn[BATCH_N..];
      var maxValue, maxIndex := MaxQ15(mag, BINS);
      header := header.(maxValue := maxValue, maxIndex := maxIndex);
      var tone := ClosestTune(BinToHz(header.maxIndex), scale);
      ModIncrement(batches - 1, UINT32);
      header := header.(matchedTone := tone, id := (header.id + 1) % UINT32);
      sent := header;
    }

    /** One iteration of `while(1)`: store the converted reading at the write index in
        adc and fftIn. When the index reaches N, wrap it to 0 and run the FFT on fftIn,
        which holds the batch followed by the padding cells as they are. The FFT works in
        place and leaves `scratch` in fftIn; its squared magnitudes are `mag`. Take the
        dominant bin, match its frequency against the scale, increment id and send the
        header. Only the cell at the old index of adc changes. */
    method Tick(reading: nat, mag: seq<int>, scratch: seq<int>) returns (sent: Option<Header>)
      requires Valid() && reading < 0x1_0000
      requires |mag| == BINS && forall k :: 0 <= k < BINS ==> -32768 <= mag[k] < 32768
      requires |scratch| == BUF_LEN
      modifies this, adc, fftIn
      ensures Valid() && ticks == old(ticks) + 1
      ensures adc[..] == old(adc[..])[old(sample) := AdcToQ15(reading)]
      ensures old(sample) + 1 < BATCH_N ==>
        fftIn[..] == old(fftIn[..])[old(sample) := AdcToQ15(reading)] &&
        sample == old(sample) + 1 && batch == old(batch) + [AdcToQ15(reading)] &&
        padding == old(padding) && fftInput == old(fftInput) &&
        header == old(header) && batches == old(batches) && sent == None
      ensures old(sample) + 1 == BATCH_N ==>
        fftInput == old(batch) + [AdcToQ15(reading)] + old(padding) &&
        fftIn[..] == scratch && padding == scratch[BATCH_N..] &&
        sample == 0 && batch == [] && batches == old(batches) + 1 && sent == Some(header) &&
        header.id == batches % UINT32 && header.id == (old(header.id) + 1) % UINT32 &&
        IsFirstMax(mag, BINS, header.maxIndex, header.maxValue) &&
        IsClosestTone(BinToHz(header.maxIndex), scale, header.matchedTone) &&
        header.n == old(header.n) && header.fs == old(header.fs)
    {
      Store(reading);
      if sample == header.n {
        var h := EndBatch(mag, scratch);
        sent := Some(h);
      } else {
        sent := None;
      }
    }

    /** The correction main.c lacks: clear the padding cells fftIn[N..] (main.c has no
        such step). */
    method ZeroPadding()
      requires Valid()
      modifies this, fftIn
      ensures Valid() && padding == ZERO_PAD
      ensures sample == old(sample) && batch == old(batch) && header == old(header)
      ensures ticks == old(ticks) && batches == old(batches) && fftInput == old(fftInput)
    {
      forall k | BATCH_N <= k < BUF_LEN {
        fftIn[k] := 0;
      }
      assert fftIn[..sample] == old(fftIn[..sample]);
      padding := fftIn[BATCH_N..];
    }

    /** The iteration with the padding cleared before the batch's last sample is stored,
        so that the FFT reads the batch followed by zeros. */
    method TickPadded(reading: nat, mag: seq<int>, scratch: seq<int>) returns (sent: Option<Header>)
      requires Valid() && reading < 0x1_0000
      requires |mag| == BINS && forall k :: 0 <= k < BINS ==> -32768 <= mag[k] < 32768
      requires |scratch| == BUF_LEN
      modifies this, adc, fftIn
      ensures Valid() && ticks == old(ticks) + 1
      ensures adc[..] == old(adc[..])[old(sample) := AdcToQ15(reading)]
      ensures old(sample) + 1 < BATCH_N ==>
        fftIn[..] == old(fftIn[..])[old(sample) := AdcToQ15(reading)] &&
        sample == old(sample) + 1 && batch == old(batch) + [AdcToQ15(reading)] &&
        padding == old(padding) && fftInput == old(fftInput) &&
        header == old(header) && batches == old(batches) && sent == None
      ensures old(sample) + 1 == BATCH_N ==>
        fftInput == old(batch) + [AdcToQ15(reading)] + ZERO_PAD &&
        fftIn[..] == scratch && padding == scratch[BATCH_N..] &&
        sample == 0 && batch == [] && batches == old(batches) + 1 && sent == Some(header) &&
        header.id == batches % UINT32 && header.id == (old(header.id) + 1) % UINT32 &&
        IsFirstMax(mag, BINS, header.maxIndex, header.maxValue) &&
        IsClosestTone(BinToHz(header.maxIndex), scale, header.matchedTone) &&
        header.n == old(header.n) && header.fs == old(header.fs)
    {
      if sample + 1 == BATCH_N {
        ZeroPadding();
      }
      sent := Tick(reading, mag, scratch);
    }
  }
}
