/** `readSamples` in app/visualize.py: N triples of signed 16-bit values (a sample and
    the real and imaginary parts of an FFT bin) are read from the port; a trigger state
    machine decides where each is stored. While waiting for the trigger every triple
    is written to cell 0; once sampling, the write index advances by one per triple.

    The firmware never sends these triples after its header; the decoder is modelled
    as written. `findHeader` of the same file is ToneParser.FindHeader. */
module Visualize {
  import opened Bytes
  import opened SerialInput

  datatype TriggerState = WaitLow | WaitHigh | Sampling

  /** The order in which the states may be visited. */
  function Rank(st: TriggerState): nat
  {
    match st
    case WaitLow => 0
    case WaitHigh => 1
    case Sampling => 2
  }

  /** The state table: waitLow leaves on a sample below th, waitHigh on one above. */
  function Step(st: TriggerState, x: real, th: real): (r: TriggerState)
    ensures Rank(r) == Rank(st) || Rank(r) == Rank(st) + 1
    ensures st == WaitLow && r == WaitHigh ==> x < th
    ensures st == WaitHigh && r == Sampling ==> x > th
  {
    match st
    case WaitLow => if x < th then WaitHigh else WaitLow
    case WaitHigh => if x > th then Sampling else WaitHigh
    case Sampling => Sampling
  }

  /** `"waitLow" if trigger else "sampling"`. */
  function InitialState(trigger: bool): TriggerState
  {
    if trigger then WaitLow else Sampling
  }

  /** How many of xs are read before the state machine is sampling: all of them when
      it never gets there. */
  function SampleStart(xs: seq<real>, st: TriggerState, th: real): (s0: nat)
    ensures s0 <= |xs|
    ensures st == Sampling ==> s0 == 0
  {
    if st == Sampling || xs == [] then 0
    else 1 + SampleStart(xs[1..], Step(st, xs[0], th), th)
  }

  /** Sampling begins only after a sample below th and then a sample above it: the last
      sample read while waiting is above th, and an earlier one is below it. */
  lemma {:induction false} TriggerFires(xs: seq<real>, th: real)
    requires SampleStart(xs, WaitLow, th) < |xs|
    ensures var s0 := SampleStart(xs, WaitLow, th);
      s0 >= 2 && xs[s0 - 1] > th && exists j :: 0 <= j < s0 - 1 && xs[j] < th
  {
    var s0 := SampleStart(xs, WaitLow, th);
    if xs[0] < th {
      ArmedFires(xs[1..], th);
      assert xs[1..][SampleStart(xs[1..], WaitHigh, th) - 1] == xs[s0 - 1];
    } else {
      TriggerFires(xs[1..], th);
      var j :| 0 <= j < s0 - 2 && xs[1..][j] < th;
      assert xs[j + 1] < th;
    }
  }

  /** From waitHigh, the last sample read before sampling is above th. */
  lemma {:induction false} ArmedFires(xs: seq<real>, th: real)
    requires SampleStart(xs, WaitHigh, th) < |xs|
    ensures var s1 := SampleStart(xs, WaitHigh, th);
      s1 >= 1 && xs[s1 - 1] > th
  {
    if xs[0] <= th {
      ArmedFires(xs[1..], th);
    }
  }

  /** `(raw * 1.65) / (2**6 * 512)`. */
  function SampleValue(raw: int): real
  {
    raw as real * 1.65 / 32768.0
  }

  /** The scaled signed 16-bit value at offset q (0.0 past the end, where nothing is read). */
  function ValueAt(s: seq<Byte>, q: nat): real
  {
    if q + 2 <= |s| then SampleValue(Signed(s[q..q + 2])) else 0.0
  }

  datatype Complex = Complex(re: real, im: real)

  /** The sample and the FFT bin of the triple at offset q. */
  function TripleAt(s: seq<Byte>, q: nat): (real, Complex)
  {
    (ValueAt(s, q), Complex(ValueAt(s, q + 2), ValueAt(s, q + 4)))
  }

  /** The samples of the n triples that start at p. */
  function Samples(s: seq<Byte>, p: nat, n: nat): (xs: seq<real>)
    ensures |xs| == n
  {
    seq(n, t requires 0 <= t < n => TripleAt(s, p + 6 * t).0)
  }

  /** The FFT bins of the n triples that start at p. */
  function Bins(s: seq<Byte>, p: nat, n: nat): (bs: seq<Complex>)
    ensures |bs| == n
  {
    seq(n, t requires 0 <= t < n => TripleAt(s, p + 6 * t).1)
  }

  /** The triple read at p + 6t gives the t-th sample and bin. */
  lemma TripleOf(s: seq<Byte>, p: nat, n: nat, t: nat, v: (real, Complex))
    requires t < n && v == TripleAt(s, p + 6 * t)
    ensures Samples(s, p, n)[t] == v.0 && Bins(s, p, n)[t] == v.1
  {
  }

  /** One triple: three signed 2-byte reads, the first the sample, the others one bin. */
  method ReadTriple(f: Stream) returns (r: Option<(real, Complex)>)
    requires f.Valid()
    modifies f
    ensures f.Valid()
    ensures var p := old(f.pos);
      if p + 6 <= |f.data| then
        f.pos == p + 6 && r == Some(TripleAt(f.data, p))
      else f.pos == |f.data| && r == None
  {
    var raw0 := ReadInt(f, 2, true);
    if raw0.None? {
      return None;
    }
    var raw1 := ReadInt(f, 2, true);
    if raw1.None? {
      return None;
    }
    var raw2 := ReadInt(f, 2, true);
    if raw2.None? {
      return None;
    }
    r := Some((SampleValue(raw0.value), Complex(SampleValue(raw1.value), SampleValue(raw2.value))));
  }

  /** Number of leading cells written after t triples, when sampling starts after s0. */
  function Written(t: nat, s0: nat): nat
  {
    if t == 0 then 0 else if t <= s0 then 1 else t - s0
  }

  /** The cell the t-th value is written to, when sampling starts after s0 values. */
  function Target(t: nat, s0: nat): (i: nat)
    ensures i <= t
  {
    if t < s0 then 0 else t - s0
  }

  /** A buffer that held orig, after the first t of the values vs were each written
      to their Target cell. */
  function Filled<T>(vs: seq<T>, s0: nat, t: nat, orig: seq<T>): (r: seq<T>)
    requires t <= |vs| && t <= |orig|
    ensures |r| == |orig|
  {
    if t == 0 then orig else Filled(vs, s0, t - 1, orig)[Target(t - 1, s0) := vs[t - 1]]
  }

  /** What the filled buffer holds: vs[s0..t) from cell 0 on, the last value read when
      sampling has not started yet in cell 0, and orig from cell Written(t, s0) on. */
  lemma {:induction false} FilledContents<T>(vs: seq<T>, s0: nat, t: nat, orig: seq<T>)
    requires t <= |vs| && t <= |orig|
    ensures var r := Filled(vs, s0, t, orig);
      (forall k :: 0 <= k < t - s0 ==> r[k] == vs[s0 + k]) &&
      (0 < t <= s0 ==> r[0] == vs[t - 1]) &&
      (forall k :: Written(t, s0) <= k < |r| ==> r[k] == orig[k])
  {
    if t > 0 {
      FilledContents(vs, s0, t - 1, orig);
    }
  }

  /** The write index i and state st after t of xs agree with sampling starting after s0. */
  ghost predicate IndexAt(xs: seq<real>, st: TriggerState, th: real, t: nat, s0: nat, i: nat)
  {
    t <= |xs| &&
    (st != Sampling ==> i == 0 && t + SampleStart(xs[t..], st, th) == s0) &&
    (st == Sampling ==> s0 <= t && i == t - s0)
  }

  /** Before anything is read, IndexAt holds with sampling starting after s0. */
  lemma IndexInit(xs: seq<real>, st: TriggerState, th: real)
    ensures IndexAt(xs, st, th, 0, SampleStart(xs, st, th), 0)
  {
    assert xs[0..] == xs;
  }

  /** One transition keeps IndexAt, and the index used is the value's Target. */
  lemma IndexStep(xs: seq<real>, st: TriggerState, th: real, t: nat, s0: nat, i: nat)
    requires IndexAt(xs, st, th, t, s0, i) && t < |xs|
    ensures i == Target(t, s0)
    ensures IndexAt(xs, Step(st, xs[t], th), th, t + 1, s0, if st == Sampling then i + 1 else 0)
  {
    if st != Sampling {
      assert xs[t..][1..] == xs[t + 1..];
    }
  }

  /** `adc[i] = sample; fft[i] = fftBin`. */
  method Put(adc: array<real>, fft: array<Complex>, i: nat, sample: real, fftBin: Complex)
    requires i < adc.Length && i < fft.Length
    modifies adc, fft
    ensures adc[..] == old(adc[..])[i := sample] && fft[..] == old(fft[..])[i := fftBin]
  {
    adc[i] := sample;
    fft[i] := fftBin;
  }

  /** One pass of the loop body: read the t-th triple, store it at the write index i
      and take one transition. The buffers go from t values filled to t + 1, and the
      state and index that come out agree with sampling starting after s0. */
  method ReadOne(f: Stream, adc: array<real>, fft: array<Complex>, state: TriggerState, i: nat, th: real,
                 ghost p: nat, ghost n: nat, ghost t: nat, ghost s0: nat,
                 ghost adc0: seq<real>, ghost fft0: seq<Complex>)
    returns (ok: bool, nextState: TriggerState, nextI: nat)
    requires f.Valid() && f.pos == p + 6 * t && t < n && adc.Length >= n && fft.Length >= n
    requires |adc0| == adc.Length && |fft0| == fft.Length
    requires IndexAt(Samples(f.data, p, n), state, th, t, s0, i)
    requires adc[..] == Filled(Samples(f.data, p, n), s0, t, adc0)
    requires fft[..] == Filled(Bins(f.data, p, n), s0, t, fft0)
    modifies f, adc, fft
    ensures f.Valid()
    ensures ok <==> p + 6 * (t + 1) <= |f.data|
    ensures !ok ==> f.pos == |f.data|
    ensures ok ==>
      var xs, bins := Samples(f.data, p, n), Bins(f.data, p, n);
      f.pos == p + 6 * (t + 1) && IndexAt(xs, nextState, th, t + 1, s0, nextI) &&
      adc[..] == Filled(xs, s0, t + 1, adc0) && fft[..] == Filled(bins, s0, t + 1, fft0)
  {
    var triple := ReadTriple(f);
    if triple.None? {
      return false, state, i;
    }
    TripleOf(f.data, p, n, t, triple.value);
    var (sample, fftBin) := triple.value;
    IndexStep(Samples(f.data, p, n), state, th, t, s0, i);
    nextI := if state == Sampling then i + 1 else 0;
    nextState := Step(state, sample, th);
    Put(adc, fft, i, sample, fftBin);
    ok := true;
  }

  /** `readSamples(adc, fft, N, trigger, th)`: consumes 6N bytes. With s0 the number of
      triples read before sampling starts, the triples from s0 on fill adc and fft from
      cell 0; triples read while waiting all land in cell 0, so when sampling never
      starts cell 0 holds the last one. Cells beyond those are not touched. ok is false
      when the bytes run out first. */
  method ReadSamples(f: Stream, adc: array<real>, fft: array<Complex>, n: nat, trigger: bool, th: real)
    returns (ok: bool)
    requires f.Valid() && adc.Length >= n && fft.Length >= n
    modifies f, adc, fft
    ensures f.Valid()
    ensures ok <==> old(f.pos) + 6 * n <= |f.data|
    ensures ok ==> f.pos == old(f.pos) + 6 * n
    ensures !ok ==> f.pos == |f.data|
    ensures ok ==>
      var xs, bins := Samples(f.data, old(f.pos), n), Bins(f.data, old(f.pos), n);
      var s0 := SampleStart(xs, InitialState(trigger), th);
      adc[..] == Filled(xs, s0, n, old(adc[..])) && fft[..] == Filled(bins, s0, n, old(fft[..]))
  {
    ghost var p := f.pos;
    ghost var adc0, fft0 := adc[..], fft[..];
    ghost var xs, bins := Samples(f.data, p, n), Bins(f.data, p, n);
    ghost var s0 := SampleStart(xs, InitialState(trigger), th);
    var state := InitialState(trigger);
    var i := 0;
    IndexInit(xs, state, th);
    for t := 0 to n
      invariant f.Valid() && f.pos == p + 6 * t
      invariant IndexAt(xs, state, th, t, s0, i)
      invariant adc[..] == Filled(xs, s0, t, adc0) && fft[..] == Filled(bins, s0, t, fft0)
    {
      var more;
      more, state, i := ReadOne(f, adc, fft, state, i, th, p, n, t, s0, adc0, fft0);
      if !more {
        return false;
      }
    }
    ok := true;
  }
}
