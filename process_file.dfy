/** app/process_file.py: turns the logged sequence of matched tones back into audio.
    Consecutive equal tones are grouped, and each group becomes one chunk of
    `gen_tone` samples. Parsing the log file and playing the buffer are not modelled;
    the input is the sequence of logged tones.

    As written, the loop gives every group after a tone change one count fewer than its
    length (a leading run of 0 Hz tones keeps its full count) and never emits the last
    group; RenderIntended is the loop with both corrected. */
module ProcessFile {

  /** One sample `gen_tone` produces: 0, or `sin(2*pi*freq*k/8000) * 2**15` at index k. */
  datatype Audio = Zero | Sine(freq: real, k: nat)

  /** Samples per count of a silent chunk and of a sounding one (`samples * 512 / sr`
      seconds at sr = 8000). */
  const SILENT_PER_COUNT := 128
  const TONE_PER_COUNT := 512

  /** `np.zeros(n)`. */
  function Silence(n: nat): (r: seq<Audio>)
    ensures |r| == n && forall k :: 0 <= k < n ==> r[k] == Zero
  {
    if n == 0 then [] else Silence(n - 1) + [Zero]
  }

  /** The first n samples of the sine at f. */
  function Wave(f: real, n: nat): (r: seq<Audio>)
    ensures |r| == n && forall k :: 0 <= k < n ==> r[k] == Sine(f, k)
  {
    if n == 0 then [] else Wave(f, n - 1) + [Sine(f, n - 1)]
  }

  /** `gen_tone(f, samples)`: nothing for a zero count; zeros for a tone under 50 Hz;
      otherwise the sine at f. Floating-point rounding of `np.arange` is not modelled. */
  function GenTone(f: real, samples: nat): (r: seq<Audio>)
    ensures |r| == (if samples == 0 then 0 else if f < 50.0 then 128 * samples else 512 * samples)
  {
    if samples == 0 then []
    else if f < 50.0 then Silence(SILENT_PER_COUNT * samples)
    else Wave(f, TONE_PER_COUNT * samples)
  }

  /** A zero count gives nothing, a silent chunk is 128 zeros per count, and a sounding
      chunk is 512 samples of its sine per count. */
  lemma GenToneLength(f: real, samples: nat)
    ensures samples == 0 ==> GenTone(f, samples) == []
    ensures samples > 0 && f < 50.0 ==>
      |GenTone(f, samples)| == 128 * samples &&
      forall k :: 0 <= k < |GenTone(f, samples)| ==> GenTone(f, samples)[k] == Zero
    ensures samples > 0 && f >= 50.0 ==>
      |GenTone(f, samples)| == 512 * samples &&
      forall k :: 0 <= k < |GenTone(f, samples)| ==> GenTone(f, samples)[k] == Sine(f, k)
  {
  }

  // ---------------------------------------------------------------------------
  // Runs of equal tones

  /** A maximal group of `len` consecutive samples of the same tone. */
  datatype Run = Run(tone: real, len: nat)

  /** One more sample after the runs rs: the last run grows when the sample has its
      tone, and a new run of one starts otherwise. */
  function Extend(rs: seq<Run>, x: real): (r: seq<Run>)
    ensures r != [] && r[|r| - 1].tone == x
  {
    if rs != [] && rs[|rs| - 1].tone == x then rs[..|rs| - 1] + [Run(x, rs[|rs| - 1].len + 1)]
    else rs + [Run(x, 1)]
  }

  /** The run-length grouping of s, from left to right. */
  function Runs(s: seq<real>): (r: seq<Run>)
    ensures s == [] <==> r == []
  {
    if s == [] then [] else Extend(Runs(s[..|s| - 1]), s[|s| - 1])
  }

  /** Runs of s followed by one more sample. */
  lemma RunsSnoc(s: seq<real>, x: real)
    ensures Runs(s + [x]) == Extend(Runs(s), x)
  {
    assert (s + [x])[..|s + [x]| - 1] == s;
  }

  /** The samples of one run. */
  function Repeat(r: Run): seq<real>
  {
    seq(r.len, _ => r.tone)
  }

  /** The samples a sequence of runs stands for. */
  function Expand(rs: seq<Run>): seq<real>
  {
    if rs == [] then [] else Expand(rs[..|rs| - 1]) + Repeat(rs[|rs| - 1])
  }

  lemma ExpandSnoc(rs: seq<Run>, r: Run)
    ensures Expand(rs + [r]) == Expand(rs) + Repeat(r)
  {
    assert (rs + [r])[..|rs|] == rs;
  }

  lemma ExpandExtend(rs: seq<Run>, x: real)
    ensures Expand(Extend(rs, x)) == Expand(rs) + [x]
  {
    if rs != [] && rs[|rs| - 1].tone == x {
      var init, last := rs[..|rs| - 1], rs[|rs| - 1];
      assert rs == init + [last];
      ExpandSnoc(init, last);
      ExpandSnoc(init, Run(x, last.len + 1));
      assert Repeat(Run(x, last.len + 1)) == Repeat(last) + [x];
    } else {
      ExpandSnoc(rs, Run(x, 1));
      assert Repeat(Run(x, 1)) == [x];
    }
  }

  /** Extend on runs whose last run has tone l: that run grows, or a run of one follows. */
  lemma ExtendLast(chunks: seq<Run>, l: real, c: nat, x: real)
    ensures Extend(chunks + [Run(l, c)], x) ==
      if x == l then chunks + [Run(l, c + 1)] else chunks + [Run(l, c)] + [Run(x, 1)]
  {
    assert (chunks + [Run(l, c)])[..|chunks|] == chunks;
  }

  /** Runs loses nothing: expanding the runs of s gives s back. */
  lemma {:induction false} RunsExpand(s: seq<real>)
    ensures Expand(Runs(s)) == s
  {
    if s != [] {
      var init, x := s[..|s| - 1], s[|s| - 1];
      assert s == init + [x];
      calc {
        Expand(Runs(s));
        { RunsSnoc(init, x); }
        Expand(Extend(Runs(init), x));
        { ExpandExtend(Runs(init), x); }
        Expand(Runs(init)) + [x];
        { RunsExpand(init); }
        init + [x];
      }
    }
  }

  /** No run is empty and neighbouring runs have different tones. */
  predicate Maximal(rs: seq<Run>)
  {
    (forall k :: 0 <= k < |rs| ==> rs[k].len >= 1) &&
    (forall k :: 0 < k < |rs| ==> rs[k].tone != rs[k - 1].tone)
  }

  /** The runs are maximal. */
  lemma {:induction false} RunsMaximal(s: seq<real>)
    ensures Maximal(Runs(s))
  {
    if s != [] {
      RunsMaximal(s[..|s| - 1]);
      MaximalExtend(Runs(s[..|s| - 1]), s[|s| - 1]);
    }
  }

  lemma MaximalExtend(rs: seq<Run>, x: real)
    requires Maximal(rs)
    ensures Maximal(Extend(rs, x))
  {
    if rs != [] && rs[|rs| - 1].tone == x {
      var r := Extend(rs, x);
      assert forall k :: 0 <= k < |rs| - 1 ==> r[k] == rs[k];
    }
  }

  // ---------------------------------------------------------------------------
  // The grouping loop as written

  /** The audio for runs each emitted with one count fewer than its length. */
  function EmittedShort(rs: seq<Run>): seq<Audio>
  {
    if rs == [] then []
    else
      var r := rs[|rs| - 1];
      EmittedShort(rs[..|rs| - 1]) + GenTone(r.tone, if r.len > 0 then r.len - 1 else 0)
  }

  lemma EmittedShortSnoc(rs: seq<Run>, r: Run)
    requires r.len >= 1
    ensures EmittedShort(rs + [r]) == EmittedShort(rs) + GenTone(r.tone, r.len - 1)
  {
    assert (rs + [r])[..|rs|] == rs;
  }

  /** All but the last element. */
  function AllButLast<T>(s: seq<T>): seq<T>
  {
    if s == [] then [] else s[..|s| - 1]
  }

  /** The loop of lines 41-47: `last_tone` starts at 0, so the samples are grouped as
      if a 0 preceded them; every group but the last is emitted when a different tone
      arrives, with the count that was reset to 0 on the group's first sample. */
  method Render(tones: seq<real>) returns (music: seq<Audio>)
    ensures music == EmittedShort(AllButLast(Runs([0.0] + tones)))
  {
    var lastTone, sampleCount := 0.0, 0;
    music := [];
    ghost var chunks: seq<Run> := [];
    for t := 0 to |tones|
      invariant RunsAfter([Run(0.0, 1)], tones[..t]) == chunks + [Run(lastTone, sampleCount + 1)]
      invariant music == EmittedShort(chunks)
    {
      var tone := tones[t];
      assert tones[..t + 1][..t] == tones[..t];
      ExtendLast(chunks, lastTone, sampleCount + 1, tone);
      if tone != lastTone {
        EmittedShortSnoc(chunks, Run(lastTone, sampleCount + 1));
        music := music + GenTone(lastTone, sampleCount);
        chunks := chunks + [Run(lastTone, sampleCount + 1)];
        lastTone, sampleCount := tone, 0;
      } else {
        sampleCount := sampleCount + 1;
      }
    }
    assert tones[..|tones|] == tones;
    RunsAfterZero(tones);
    AllButLastSnoc(chunks, Run(lastTone, sampleCount + 1));
  }

  /** The runs of s when the runs rs came before it. */
  function RunsAfter(rs: seq<Run>, s: seq<real>): seq<Run>
  {
    if s == [] then rs else Extend(RunsAfter(rs, s[..|s| - 1]), s[|s| - 1])
  }

  /** Starting from one run of a single 0 is grouping with a 0 in front. */
  lemma {:induction false} RunsAfterZero(s: seq<real>)
    ensures RunsAfter([Run(0.0, 1)], s) == Runs([0.0] + s)
  {
    if s == [] {
      assert Runs([0.0]) == Extend(Runs([]), 0.0);
    } else {
      var init, x := s[..|s| - 1], s[|s| - 1];
      RunsAfterZero(init);
      assert [0.0] + s == ([0.0] + init) + [x];
      RunsSnoc([0.0] + init, x);
    }
  }

  lemma AllButLastSnoc<T>(s: seq<T>, x: T)
    ensures AllButLast(s + [x]) == s
  {
    assert (s + [x])[..|s|] == s;
  }

  /** Two samples of 440 Hz followed by 330 Hz: the 440 Hz group is emitted with a
      count of 1, half its length, and the 330 Hz group is not emitted at all. */
  lemma RenderCountsOneShort()
    ensures EmittedShort(AllButLast(Runs([0.0] + [440.0, 440.0, 330.0]))) == GenTone(440.0, 1)
  {
    var s1 := [0.0];
    assert Runs(s1) == [Run(0.0, 1)];
    var s2 := s1 + [440.0];
    RunsSnoc(s1, 440.0);
    assert Runs(s2) == [Run(0.0, 1), Run(440.0, 1)];
    var s3 := s2 + [440.0];
    RunsSnoc(s2, 440.0);
    assert Runs(s3) == [Run(0.0, 1), Run(440.0, 2)];
    var s4 := s3 + [330.0];
    RunsSnoc(s3, 330.0);
    assert Runs(s4) == [Run(0.0, 1), Run(440.0, 2), Run(330.0, 1)];
    assert [0.0] + [440.0, 440.0, 330.0] == s4;
    EmittedShortSnoc([], Run(0.0, 1));
    EmittedShortSnoc([Run(0.0, 1)], Run(440.0, 2));
    assert [Run(0.0, 1), Run(440.0, 2), Run(330.0, 1)][..2] == [Run(0.0, 1)] + [Run(440.0, 2)];
  }

  /** A single logged sample of 440 Hz produces no audio. */
  lemma RenderDropsLastRun()
    ensures EmittedShort(AllButLast(Runs([0.0] + [440.0]))) == []
  {
    assert Runs([0.0]) == [Run(0.0, 1)];
    RunsSnoc([0.0], 440.0);
    assert Runs([0.0] + [440.0]) == [Run(0.0, 1), Run(440.0, 1)];
    EmittedShortSnoc([], Run(0.0, 1));
  }

  // ---------------------------------------------------------------------------
  // The grouping loop as intended

  /** The audio for runs each emitted with its full length as the count. */
  function Emitted(rs: seq<Run>): seq<Audio>
  {
    if rs == [] then [] else Emitted(rs[..|rs| - 1]) + GenTone(rs[|rs| - 1].tone, rs[|rs| - 1].len)
  }

  lemma EmittedSnoc(rs: seq<Run>, r: Run)
    ensures Emitted(rs + [r]) == Emitted(rs) + GenTone(r.tone, r.len)
  {
    assert (rs + [r])[..|rs|] == rs;
  }

  /** One sample of the corrected loop: the runs so far, as closed chunks and an open
      run of c samples of l, either grow their open run or close it and open another. */
  lemma IntendedStep(tones: seq<real>, t: nat, chunks: seq<Run>, l: real, c: nat)
    requires t < |tones|
    requires t == 0 ==> chunks == [] && c == 0
    requires t > 0 ==> c >= 1 && Runs(tones[..t]) == chunks + [Run(l, c)]
    ensures tones[t] == l ==> Runs(tones[..t + 1]) == chunks + [Run(l, c + 1)]
    ensures tones[t] != l ==>
      Runs(tones[..t + 1]) == (if c > 0 then chunks + [Run(l, c)] else chunks) + [Run(tones[t], 1)]
  {
    assert tones[..t + 1] == tones[..t] + [tones[t]];
    RunsSnoc(tones[..t], tones[t]);
    if t > 0 {
      ExtendLast(chunks, l, c, tones[t]);
    }
  }

  /** The loop with a group's count starting at 1 and the last group flushed after the
      loop: every run of the input is emitted once, in order, with its full length,
      including a leading run of 0 Hz samples, which is silent. */
  method RenderIntended(tones: seq<real>) returns (music: seq<Audio>)
    ensures music == Emitted(Runs(tones))
  {
    var lastTone, sampleCount := 0.0, 0;
    music := [];
    ghost var chunks: seq<Run> := [];
    for t := 0 to |tones|
      invariant t == 0 ==> chunks == [] && sampleCount == 0
      invariant t > 0 ==> sampleCount >= 1 && Runs(tones[..t]) == chunks + [Run(lastTone, sampleCount)]
      invariant music == Emitted(chunks)
    {
      var tone := tones[t];
      IntendedStep(tones, t, chunks, lastTone, sampleCount);
      if tone != lastTone {
        if sampleCount > 0 {
          EmittedSnoc(chunks, Run(lastTone, sampleCount));
          music := music + GenTone(lastTone, sampleCount);
          chunks := chunks + [Run(lastTone, sampleCount)];
        }
        lastTone, sampleCount := tone, 1;
      } else {
        sampleCount := sampleCount + 1;
      }
    }
    assert tones[..|tones|] == tones;
    if sampleCount > 0 {
      EmittedSnoc(chunks, Run(lastTone, sampleCount));
      music := music + GenTone(lastTone, sampleCount);
    }
  }
}
