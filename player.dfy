/** The player of app/player.py, apart from its copy of the collector classes (those
    are CiaaUtils.Collector and CiaaUtils.DataSource): the melody generator behind
    `get_tone`, the tone table, and the main loop that switches the sound playing to
    every new non-zero tone index it receives. */
module Player {
  import opened Bytes

  // ---------------------------------------------------------------------------
  // The melody generator

  /** The values `melody_gen` yields, in order. */
  const MELODY: seq<nat> := [40, 42, 42, 44, 44]

  /** The value one `next(gen)` gives when the generator has `rest` left to yield;
      None once it is exhausted (the StopIteration that `get_tone` catches). */
  function Next(rest: seq<nat>): Option<nat>
  {
    if rest == [] then None else Some(rest[0])
  }

  /** What the generator has left after one `next(gen)`. */
  function Advance(rest: seq<nat>): seq<nat>
  {
    if rest == [] then [] else rest[1..]
  }

  /** The results of k successive `get_tone()` calls from a generator with `rest` left. */
  function Calls(rest: seq<nat>, k: nat): (r: seq<Option<nat>>)
    ensures |r| == k
  {
    if k == 0 then [] else [Next(rest)] + Calls(Advance(rest), k - 1)
  }

  /** From any point of the generator, the j-th call gives the j-th value left, or
      None once those are used up. */
  lemma {:induction false} CallsAt(rest: seq<nat>, k: nat, j: nat)
    requires j < k
    ensures Calls(rest, k)[j] == (if j < |rest| then Some(rest[j]) else None)
  {
    if j > 0 {
      CallsAt(Advance(rest), k - 1, j - 1);
      if j < |rest| {
        assert Advance(rest)[j - 1] == rest[j];
      }
    }
  }

  /** The first k calls at once. */
  lemma CallsYieldRest(rest: seq<nat>, k: nat)
    ensures forall j :: 0 <= j < k ==> Calls(rest, k)[j] == (if j < |rest| then Some(rest[j]) else None)
  {
    forall j | 0 <= j < k
      ensures Calls(rest, k)[j] == (if j < |rest| then Some(rest[j]) else None)
    {
      CallsAt(rest, k, j);
    }
  }

  /** The melody: 40, 42, 42, 44, 44, and None on every call after those five. */
  lemma MelodyCalls(k: nat)
    requires k >= 5
    ensures Calls(MELODY, k)[..5] == [Some(40), Some(42), Some(42), Some(44), Some(44)]
    ensures forall j :: 5 <= j < k ==> Calls(MELODY, k)[j] == None
  {
    CallsYieldRest(MELODY, k);
  }

  /** The module-level generator `gen`, as the values it has left to yield. */
  class ToneProvider {
    var rest: seq<nat>

    /** `gen = melody_gen()`. */
    constructor ()
      ensures rest == MELODY
    {
      rest := MELODY;
    }

    /** `get_tone()`: the generator's next value, or None once it is exhausted; the
        half-second sleep is not modelled. */
    method GetTone() returns (tone: Option<nat>)
      modifies this
      ensures tone == Next(old(rest)) && rest == Advance(old(rest))
    {
      if rest == [] {
        tone := None;
      } else {
        tone := Some(rest[0]);
        rest := rest[1..];
      }
    }
  }

  // ---------------------------------------------------------------------------
  // The tone table

  /** Every waveform in the table has this many samples. */
  const TONE_SAMPLES := 441000

  /** `gen_tone_table(gen, scale)`: one waveform per scale entry, in the scale's order,
      each generated with TONE_SAMPLES samples. */
  function GenToneTable<W>(gen: (real, nat) -> W, scale: seq<real>): (table: seq<W>)
    ensures |table| == |scale|
    ensures forall i :: 0 <= i < |scale| ==> table[i] == gen(scale[i], TONE_SAMPLES)
  {
    if scale == [] then [] else [gen(scale[0], TONE_SAMPLES)] + GenToneTable(gen, scale[1..])
  }

  // ---------------------------------------------------------------------------
  // The switching loop

  /** The indices the loop starts playing, in order, for the indices it receives when
      `last` is playing: every index that is non-zero and differs from the one playing. */
  function Switches(ind: seq<nat>, last: nat): (sw: seq<nat>)
    ensures |sw| <= |ind| && forall k :: 0 <= k < |sw| ==> sw[k] in ind
  {
    if ind == [] then []
    else if ind[0] != last && ind[0] != 0 then [ind[0]] + Switches(ind[1..], ind[0])
    else Switches(ind[1..], last)
  }

  /** The indices that are not 0. */
  function NonZero(s: seq<nat>): (r: seq<nat>)
    ensures forall k :: 0 <= k < |r| ==> r[k] != 0
  {
    if s == [] then [] else (if s[0] != 0 then [s[0]] else []) + NonZero(s[1..])
  }

  /** s with every run of equal neighbours collapsed to one element. */
  function Dedup(s: seq<nat>): (r: seq<nat>)
    ensures s != [] ==> r != [] && r[0] == s[0]
  {
    if |s| <= 1 then s
    else if s[0] == s[1] then Dedup(s[1..])
    else [s[0]] + Dedup(s[1..])
  }

  lemma {:induction false} SwitchesFrom(ind: seq<nat>, last: nat)
    requires last != 0
    ensures Switches(ind, last) == Dedup([last] + NonZero(ind))[1..]
  {
    if ind != [] {
      var x, rest := ind[0], ind[1..];
      assert ind == [x] + rest;
      SwitchesFrom(rest, if x != 0 then x else last);
      if x == 0 {
        assert NonZero(ind) == NonZero(rest);
      } else {
        assert NonZero(ind) == [x] + NonZero(rest);
        assert ([last] + NonZero(ind))[1..] == [x] + NonZero(rest);
        if x != last {
          var d := Dedup([x] + NonZero(rest));
          assert d == [x] + d[1..];
        }
      }
    }
  }

  /** The sounds played are the received indices with the zeros dropped and repeats
      collapsed: a reference definition independent of the loop's bookkeeping. */
  lemma {:induction false} SwitchesAreDedup(ind: seq<nat>)
    ensures Switches(ind, 0) == Dedup(NonZero(ind))
  {
    if ind != [] {
      var x, rest := ind[0], ind[1..];
      if x == 0 {
        assert NonZero(ind) == NonZero(rest);
        SwitchesAreDedup(rest);
      } else {
        assert NonZero(ind) == [x] + NonZero(rest);
        SwitchesFrom(rest, x);
        var d := Dedup([x] + NonZero(rest));
        assert d == [x] + d[1..];
      }
    }
  }

  /** No 0 is ever played, no index is played twice in a row, and the first one played
      differs from the one playing before. */
  lemma {:induction false} SwitchesChange(ind: seq<nat>, last: nat)
    ensures var sw := Switches(ind, last);
      (forall k :: 0 <= k < |sw| ==> sw[k] != 0) &&
      (|sw| > 0 ==> sw[0] != last) &&
      (forall k :: 0 < k < |sw| ==> sw[k] != sw[k - 1])
  {
    if ind != [] {
      if ind[0] != last && ind[0] != 0 {
        SwitchesChange(ind[1..], ind[0]);
      } else {
        SwitchesChange(ind[1..], last);
      }
    }
  }

  /** The last non-zero index in s, 0 when there is none. */
  function LastNonZero(s: seq<nat>): nat
  {
    if s == [] then 0
    else if s[|s| - 1] != 0 then s[|s| - 1]
    else LastNonZero(s[..|s| - 1])
  }

  /** One received index, as the loop body sees it at position t. */
  lemma SwitchesAt(ind: seq<nat>, t: nat, last: nat)
    requires t < |ind|
    ensures Switches(ind[t..], last) ==
      if ind[t] != last && ind[t] != 0 then [ind[t]] + Switches(ind[t + 1..], ind[t])
      else Switches(ind[t + 1..], last)
    ensures LastNonZero(ind[..t + 1]) == if ind[t] != 0 then ind[t] else LastNonZero(ind[..t])
  {
    assert ind[t..][1..] == ind[t + 1..];
    assert ind[..t + 1][..t] == ind[..t];
  }

  /** The main loop over the indices `wait_for_sample` returns: on a non-zero index
      different from `last`, stop `sounds[last]`, play `sounds[index]` and make it
      `last`. With soundCount sounds, ok is false when the loop stops with an
      IndexError, which happens at the first switch needing a sound that does not
      exist. The sound playing at the end is the last non-zero index received. */
  method SwitchLoop(ind: seq<nat>, soundCount: nat) returns (played: seq<nat>, last: nat, ok: bool)
    ensures forall k :: 0 <= k < |played| ==> played[k] < soundCount
    ensures ok ==> played == Switches(ind, 0) && last == LastNonZero(ind)
    ensures !ok ==>
      |played| < |Switches(ind, 0)| && played == Switches(ind, 0)[..|played|] &&
      (soundCount == 0 || Switches(ind, 0)[|played|] >= soundCount)
  {
    played, last := [], 0;
    for t := 0 to |ind|
      invariant Switches(ind, 0) == played + Switches(ind[t..], last)
      invariant last == LastNonZero(ind[..t])
      invariant forall k :: 0 <= k < |played| ==> played[k] < soundCount
      invariant last == 0 || last < soundCount
    {
      var tne := ind[t];
      SwitchesAt(ind, t, last);
      if last != tne && tne != 0 {
        if last >= soundCount || tne >= soundCount {
          return played, last, false;
        }
        played := played + [tne];
        last := tne;
      }
    }
    assert ind[..|ind|] == ind;
    ok := true;
  }
}
