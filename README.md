# Whistle-Autotune-CIAA, modelled in Dafny

The system is a whistle tuner. Firmware on an EDU-CIAA board samples a microphone at 8 kHz in
batches of 128. For each batch it finds the dominant FFT bin and snaps that bin's frequency to
the nearest tone of a scale. It then sends a packed 26-byte telemetry header over a serial
link, framed by the ASCII markers "head" and "tail". Python programs on the host read the
stream:
- `tone_parser.py` and `visualize.py` decode the 26-byte frame;
- `ciaa_utils.py` decodes a 30-byte frame that adds a 4-byte `toneIndex`; `player.py` holds
  a copy of that decoder and switches the sound being played to the reported tone;
- `process_file.py` turns a log of matched tones back into audio.

This project models each of these in Dafny and proves what they compute.

- `bytes.dfy` (**Bytes**): bytes, the markers, and little-endian unsigned and two's-complement
  values. Includes encode/decode round trips.
- `framing.dfy` (**Framing**): the receivers' frame synchronisation as functions of the
  received bytes. The head search slides a window that starts as four zero bytes. It is
  followed by a fixed-size payload and a tail check; on a mismatch the search starts over
  after the four bytes compared.
- `serial_input.dfy` (**SerialInput**): the serial port as a finite byte stream with a read
  position, plus the byte-level readers (`readInt4File`, `readFloat4File`, the head and tail
  loops). The four Python copies of these readers behave identically and are modelled once.
  The copies in `ciaa_utils.py` and `player.py` match each other verbatim, and so do those in
  `tone_parser.py` and `visualize.py`.
  - Running out of bytes stands for the real port, which has no timeout and blocks forever;
    the readers then give up with None.
- `firmware.dfy` (**Firmware**): main.c.
  - The ADC conversion, `arm_max_q15`, and `psf_closest_tune` with `arm_min_f32`.
  - The packed header and its byte image.
  - The main loop, as a `Pipeline` object whose `Tick` is one loop iteration. This includes
    what the in-place FFT leaves in `fftIn` (see Findings).
- `tone_parser.dfy` (**ToneParser**): `findHeader` for 26-byte frames. `visualize.py` holds a
  verbatim copy. Includes a proof that it reads back every frame the firmware packs.
- `ciaa_utils.dfy` (**CiaaUtils**): `CIAACollector` and `CIAADataSource`, as classes.
  `player.py` holds verbatim copies. The firmware never sends the 30-byte frame these expect;
  `FirmwareFrameRejected` proves what they then do with the firmware's stream.
- `visualize.dfy` (**Visualize**): `readSamples`, with its trigger state machine and its
  writes into the sample and FFT arrays.
- `player.dfy` (**Player**): the melody generator behind `get_tone`, `gen_tone_table`, and the
  loop that switches sounds.
- `process_file.dfy` (**ProcessFile**): `gen_tone` and the loop that groups equal logged
  tones. It is modelled as written and as evidently intended (see Findings).

Three facts about the code shape the model:
- **Frame size:** `struct header_struct` (main.c lines 34-43) has no `toneIndex`. The firmware
  therefore sends 26 bytes, while the decoders in `ciaa_utils.py` and `player.py` read 4 more
  bytes as a `toneIndex` before the tail.
- **Bin frequency:** a bin's frequency is `maxIndex * 62.857 / 2` Hz (main.c line 97).
- **Analysis stages:** main.c has no gain control, filter or interpolation stage. Each batch
  goes straight from the ADC buffer to the FFT.

## Model

| member | source | states |
|---|---|---|
| Firmware.Int16 | app/src/main.c:88 | the `int16_t` conversion yields the value in [-32768, 32768) congruent to its argument modulo 2^16, and leaves in-range values unchanged |
| Firmware.AdcToQ15 | app/src/main.c:88 | the stored conversion of any 16-bit reading is an int16_t value |
| Firmware.AdcConversion | app/src/main.c:88 | for a 10-bit reading, `((int16_t)r - 512) << 6` stored as `int16_t` is exactly (r - 512) * 64, lies in [-32768, 32704], is a multiple of 64 and gives the reading back |
| Firmware.MaxQ15 | app/src/main.c:95 | `arm_max_q15` returns the first index of a largest value among the first blockSize entries, and that value |
| Firmware.MinF32 | app/src/main.c:29 | `arm_min_f32` returns the first index of a smallest value among the first blockSize entries, and that value |
| Firmware.ClosestTune | app/src/main.c:24-31 | `psf_closest_tune` returns a tone of the table at the least distance from the query, namely the first such tone; the table must be non-empty and at most MAX_TONES_N long |
| Firmware.NearestUnique | app/src/main.c:27-30 | the first index at the least distance is unique, so the matched tone is determined by the query and the table |
| Firmware.BinToHz | app/src/main.c:97 | the frequency assigned to bin maxIndex, `maxIndex * 62.857 / 2` Hz, is never negative and is positive for every bin above 0 |
| Firmware.Pack | app/src/main.c:34-43 | the packed header is 26 bytes, beginning with "head" and ending with "tail" |
| Firmware.PackLayout | app/src/main.c:34-54 | in the packed header, id, N, fs, maxIndex, maxValue and matchedTone sit at offsets 4, 8, 10, 12, 16 and 18, little-endian, and each reads back as stored |
| Firmware.Pipeline.constructor | app/src/main.c:45-78 | start-up state: the header initialiser (id 0, N 128, fs 8000, markers), write index 0, and two buffers of N + padding cells whose contents, the padding included, are unspecified |
| Firmware.Pipeline.Store | app/src/main.c:88-90 | the converted reading goes into adc and fftIn at the write index, no other cell changes, and the index advances |
| Firmware.Pipeline.EndBatch | app/src/main.c:91-102 | at a full batch the index wraps to 0. The FFT reads the batch followed by the padding cells as they stand, and its in-place work leaves its scratch contents in all of fftIn. The header gets the first largest bin and the closest scale tone for that bin's frequency, id goes up by one modulo 2^32, and that header is sent |
| Firmware.Pipeline.Tick | app/src/main.c:86-104 | one iteration changes exactly the adc cell at the write index. Before the N-th sample, fftIn changes only in that cell, the index advances and nothing is sent. On the N-th sample EndBatch runs: the FFT input is this batch's N samples followed by the padding the previous FFT left, and fftIn is left as the FFT leaves it. id always equals the number of batches analysed, modulo 2^32 |
| Firmware.StalePadding | app/src/main.c:75-93 | once the previous FFT leaves any non-zero value in the padding, the next FFT input differs from the batch followed by zeros |
| Firmware.Pipeline.ZeroPadding | app/src/main.c:75 | clearing the padding makes fftIn's padding cells all zero and changes nothing else that the loop relies on |
| Firmware.Pipeline.TickPadded | app/src/main.c:86-104 | with the padding cleared before a batch's last sample is stored, the FFT of every batch reads exactly its N samples followed by 128 zeros. Everything else Tick states holds as well: the adc cell, the fftIn frame, padding and batch count on earlier ticks, and on the N-th tick fftIn left as the FFT leaves it, the first max bin, the nearest tone and id equal to the batch count modulo 2^32 |
| Bytes.RoundTripUnsigned | python_app/ciaa_utils.py:57-61 | `int.from_bytes(..., "little")` inverts the little-endian encoding of any value that fits in n bytes |
| Bytes.RoundTripSigned | python_app/ciaa_utils.py:57-61 | `int.from_bytes(..., signed=True)` inverts the two's-complement encoding of any value in range |
| Bytes.EncodeOfUnsigned | python_app/ciaa_utils.py:61 | encoding the decoded value of any byte string in as many bytes gives that string back |
| SerialInput.Stream.Read | python_app/ciaa_utils.py:36 | `read(1)` gives the next byte and advances, or gives nothing when no byte is left |
| SerialInput.Consumed | python_app/ciaa_utils.py:57-60 | `readInt4File` reads max(size, 1) bytes, because it reads one byte before comparing the length with size |
| SerialInput.ReadInt | python_app/ciaa_utils.py:57-61 | consumes exactly Consumed(size) bytes and returns their little-endian value, signed or unsigned; when the bytes run out it returns None at the end of the stream |
| SerialInput.ReadFloat | python_app/ciaa_utils.py:64-68 | consumes exactly 4 bytes and returns them (the IEEE single they encode); None at the end of the stream otherwise |
| SerialInput.ReadCounts | python_app/ciaa_utils.py:39-42 | id, N, fs and maxIndex are the unsigned values of the 4, 2, 2 and 4 bytes after the head, read in that order |
| SerialInput.SyncHead | python_app/ciaa_utils.py:34-37 | the window loop stops just after the head search's position, and fails exactly when the search finds no "head" |
| SerialInput.CheckTail | python_app/ciaa_utils.py:48-52 | the tail loop consumes 4 bytes, and the window holds exactly those bytes; it reports whether they are "tail" |
| SerialInput.ScaledSign | python_app/ciaa_utils.py:43 | the scaling `raw * 1.65**2 / (2**4 * 512)` keeps the sign, so the scaled maxValue is >= 0 exactly when the raw int16 is |
| Framing.SearchHead | python_app/ciaa_utils.py:34-37 | the head search over the window, starting from a position, ends at or after that position and within the stream |
| Framing.WindowMatches | python_app/ciaa_utils.py:34-37 | the window reads "head" exactly when the last four bytes read are "head"; the initial zero bytes never form part of a match |
| Framing.FirstHead | python_app/ciaa_utils.py:34-37 | the head search stops at the first position whose four preceding bytes, all read during the search, are "head", and finds nothing only when there is no such position |
| Framing.Decode | python_app/ciaa_utils.py:31-53 | the synchronisation loop, given the read position, accepts a frame at or after it that ends within the stream, exactly payload + 4 bytes after the payload's first byte |
| Framing.DecodeSound | python_app/ciaa_utils.py:31-53 | an accepted frame has "head" read after the start, the payload, and "tail" right after the payload |
| Framing.DecodeAligned | python_app/ciaa_utils.py:31-53 | a frame that starts exactly at the read position, with both markers in place, is accepted as it stands |
| Framing.NoRescan | python_app/ciaa_utils.py:33-52 | after a tail mismatch, decoding restarts after the four compared bytes, and the next accepted frame lies wholly beyond them |
| ToneParser.DecodeFrame | app/tone_parser.py:19-40 | `findHeader` gives a frame exactly when synchronisation accepts one, and its fields fit their widths in the 26-byte frame |
| ToneParser.ReadPayload | app/tone_parser.py:27-32 | the six field reads consume the 18 payload bytes and give their fields, or None at the end of the stream |
| ToneParser.FindHeader | app/tone_parser.py:19-40 | `findHeader` returns the fields of the first frame whose tail check succeeds and leaves the stream just after its "tail"; it returns None, at the end of the stream, exactly when no frame is accepted |
| ToneParser.ReadsFirmwareFrame | app/tone_parser.py:19-40 | round trip with the firmware: a header packed by main.c, read from its first byte, decodes to exactly the packed id, N, fs, maxIndex, maxValue and matchedTone bytes |
| CiaaUtils.DecodeFrame | python_app/ciaa_utils.py:31-53 | `wait_for_data` gives a frame exactly when synchronisation accepts one, and its fields fit their widths in the 30-byte frame, the domain of Encode |
| CiaaUtils.EncodeLayout | python_app/ciaa_utils.py:39-52 | the 30-byte layout the collector expects places each field where the collector reads it, and each field reads back as written |
| CiaaUtils.RoundTrip | python_app/ciaa_utils.py:31-53 | a frame in the 30-byte layout, anywhere in the stream and read from its first byte, decodes to every field that was encoded |
| CiaaUtils.FirmwareFrameRejected | python_app/ciaa_utils.py:39-52 | against two of the firmware's 26-byte frames back to back, the collector never accepts the first: it reads toneIndex from the first frame's own "tail" (so toneIndex is the little-endian value of "tail"), compares the second frame's "head" with "tail", fails that check, and decodes as if the stream started 30 bytes later |
| CiaaUtils.Collector.constructor | python_app/ciaa_utils.py:11-29 | the collector starts with the initial dictionary: id 0, N 128, fs the dataclass field `sampling_f_hz`, and the rest 0 |
| CiaaUtils.Collector.ReadPayload | python_app/ciaa_utils.py:39-45 | the seven field reads consume 22 bytes and store exactly the fields those bytes encode |
| CiaaUtils.Collector.TryFrame | python_app/ciaa_utils.py:34-52 | one pass of the outer loop ends in one of three ways. It reaches the end of the stream only when no frame remains to be accepted. It fails the tail check with the decoding outcome unchanged. Or it accepts the frame decoding picks, with the dictionary holding its fields |
| CiaaUtils.Collector.WaitForData | python_app/ciaa_utils.py:31-53 | `wait_for_data` returns the fields of the first 30-byte frame whose tail check succeeds, leaves them in the dictionary, and stops just after its "tail" |
| CiaaUtils.DataSource.constructor | python_app/ciaa_utils.py:72-74 | the last index starts at 0 |
| CiaaUtils.DataSource.WaitForSample | python_app/ciaa_utils.py:76-82 | the returned index is the frame's toneIndex when its scaled maxValue is non-negative, and otherwise the index returned before, which is kept |
| Visualize.Step | app/visualize.py:89-93 | the trigger table only moves forward (waitLow, waitHigh, sampling); it arms on a sample strictly below th and fires on one strictly above |
| Visualize.SampleStart | app/visualize.py:82-93 | the number of triples read before the state machine is sampling: none when triggering is off, and at most the number of triples read |
| Visualize.TriggerFires | app/visualize.py:89-93 | when sampling starts after s0 triples, the last triple read while waiting is above th, some earlier one is below th, and s0 >= 2 |
| Visualize.ReadTriple | app/visualize.py:85-88 | three signed 2-byte reads give the scaled sample and the FFT bin of the triple at the read position, consuming 6 bytes |
| Visualize.Filled | app/visualize.py:94-96 | writing each read value to its target cell keeps the buffer's length |
| Visualize.FilledContents | app/visualize.py:94-96 | after t writes, the cells hold the values read from s0 on, starting at cell 0. While waiting, cell 0 holds the latest value. Cells from Written(t, s0) on keep their old contents |
| Visualize.IndexStep | app/visualize.py:89-96 | each iteration writes to the cell Target(t, s0) and keeps the write index in step with the state |
| Visualize.ReadOne | app/visualize.py:85-96 | one iteration reads a triple, writes it to its target cell and takes one transition |
| Visualize.ReadSamples | app/visualize.py:81-96 | `readSamples` consumes 6N bytes. It succeeds exactly when they are there, and then adc and fft are what Filled gives for the N samples and bins, with sampling starting where the trigger fires |
| Player.CallsYieldRest | app/player.py:103-108 | successive `get_tone` calls return the generator's remaining values in order, then None |
| Player.MelodyCalls | app/player.py:94-108 | the first five `get_tone` calls give 40, 42, 42, 44, 44 and every later call gives None |
| Player.ToneProvider.constructor | app/player.py:101 | a fresh generator has the whole melody left |
| Player.ToneProvider.GetTone | app/player.py:103-108 | `get_tone` gives the generator's next value and removes it, or None once it is exhausted |
| Player.GenToneTable | app/player.py:88-89 | one waveform per scale entry, in scale order, each generated with 441000 samples |
| Player.Switches | app/player.py:216-222 | the sounds the loop starts: no more than the indices received, each one of them |
| Player.SwitchesAreDedup | app/player.py:216-222 | the sequence of sounds started is the received indices with zeros dropped and runs of repeats collapsed |
| Player.SwitchesChange | app/player.py:216-222 | sound 0 is never started, no sound is started twice in a row, and the first one started differs from the one playing |
| Player.SwitchLoop | app/player.py:216-222 | with enough sounds, the loop starts exactly the sounds Switches gives and ends playing the last non-zero index received. Otherwise it stops, raising IndexError, at the first switch that names a missing sound |
| ProcessFile.Silence | app/process_file.py:35 | `np.zeros(n)` is n zero samples |
| ProcessFile.Wave | app/process_file.py:36 | the k-th sample of a sounding chunk is the sine at f at index k |
| ProcessFile.GenTone | app/process_file.py:31-36 | `gen_tone` gives 0 samples for a zero count, 128 per count below 50 Hz and 512 per count otherwise |
| ProcessFile.GenToneLength | app/process_file.py:31-36 | `gen_tone` gives nothing for a zero count, 128 zeros per count below 50 Hz, and otherwise 512 samples per count of the sine at f |
| ProcessFile.RunsExpand | app/process_file.py:41-47 | the grouping loses nothing: expanding the runs gives the logged tones back |
| ProcessFile.RunsMaximal | app/process_file.py:41-47 | the groups are maximal: none is empty and neighbouring groups have different tones |
| ProcessFile.Render | app/process_file.py:38-47 | the loop as written groups the tones as if a 0 preceded them. It emits every group but the last, each with one count fewer than its length |
| ProcessFile.RenderCountsOneShort | app/process_file.py:41-47 | 440, 440, 330 renders as `gen_tone(440, 1)`: the 440 Hz group gets half its length and the 330 Hz group nothing |
| ProcessFile.RenderDropsLastRun | app/process_file.py:41-47 | a single logged tone renders as no audio at all |
| ProcessFile.RenderIntended | app/process_file.py:38-47 | the corrected loop emits every group of the log once, in order, each with its full length as the count |

## Left out

- main.c, FFT primitives: `arm_rfft_init_q15`, `arm_rfft_q15` and `arm_cmplx_mag_squared_q15`
  are foreign numeric code. `Pipeline.Tick` takes the batch's bin magnitudes as a parameter,
  and also the contents the in-place FFT leaves in `fftIn`. How either depends on the FFT
  input is not modelled; the model records that input.
  `psf_fft` and `psf_get_main_freq_component` are never called and are not modelled.
- main.c, hardware: board, UART and ADC configuration, the cycle counter, and the busy-wait
  that paces each tick are hardware timing. The extra `adcRead(CH1)` after sending (main.c
  line 103) discards its result and is not modelled.
- `Firmware.AdcToQ15`: for readings below 512, `((int16_t)r - 512) << 6` left-shifts a
  negative `int`, which is undefined behaviour in C. The model takes the shift to be
  multiplication by 64, as GCC compiles it.
- main.c, floats: floats are reals, without rounding. The IEEE single layout of
  `matchedTone` is a 4-byte parameter of `Pack`, not computed from the value.
- main.c, the scale: `C_MAJOR_SCALE` (tone_frequencies.h) is not part of this model. The
  scale is a parameter of the `Pipeline` constructor.
- main.c, `diff_vector`: the static buffer of `psf_closest_tune` is allocated on each call.
  Its contents between calls are never read.
- Host side, floats: `struct.unpack('<f', ...)` is not modelled. The decoded matchedTone is
  the four raw bytes. The scaling of maxValue is a function on reals (`ScaledMaxValue`), and
  decoded frames keep the raw int16.
- Host side, I/O: opening the serial port (the collector's `port` and `baudrate` fields), `print`, redirecting stdout, `flushStream`, the
  matplotlib animation (`update`), pygame mixing and playback, `time.sleep`, and reading the
  log file in `process_file.py` are I/O. The model's inputs are the received bytes or the
  logged tones.
- `ToneParser.FindHeader`: the dictionary `h` it fills field by field is not modelled; the
  fields it returns are. On success the dictionary holds the same values.
- `CiaaUtils.Collector.WaitForData`: the dictionary is stored whole after a complete payload,
  not field by field. When the bytes run out in the middle of a payload, the model leaves
  the dictionary as it was and says nothing about it.
- `Visualize.ReadSamples`: when the bytes run out before N triples, the contract says nothing
  about the arrays (the real port would block forever).
- `Visualize.SampleValue`: the scaling `raw * 1.65 / (2**6 * 512)` is computed on exact reals,
  and the trigger compares those reals with th exactly; float rounding is not modelled. The
  only call, visualize.py line 108, passes trigger=False and th=0, so no comparison with th
  decides anything there.
- `Player.SwitchLoop`: the received indices are a finite sequence, and indices past the end
  of `sounds` end the loop with IndexError. The real loop runs forever.
- `Player.GenToneTable`: the square-wave generator is a parameter whose samples are not
  modelled. Only the table's shape and order are stated.
- `ProcessFile.GenTone`: `np.arange` with a float step is taken to give exactly 512 samples
  per count. Samples are symbolic (`Sine(f, k)`) rather than computed sines, and the int16
  cast before playback is not modelled.
- python_app/music_utils.py and python_app/main.py are not part of this model.

## Findings

| source | as written | input that shows it | evidently intended | confidence | as-written member | corrected member |
|---|---|---|---|---|---|---|
| app/process_file.py:41-47 | `sample_count` is reset to 0 on the first sample of a new tone, so every group after a tone change, apart from a leading run of 0 Hz samples, is generated with one count fewer than its length (a leading 0 Hz run continues the initial `last_tone` of 0 and keeps its full count) | logged tones 440, 440, 330: the 440 Hz group of two samples is emitted as gen_tone(440, 1) | each group emitted with its full length as the count | not executed | ProcessFile.RenderCountsOneShort | ProcessFile.RenderIntended |
| app/src/main.c:75-93 | the padding cells `fftIn[N..]` are never cleared. The stack buffer starts uninitialised, and each in-place `arm_rfft_q15` overwrites it, so the 256-point FFT does not see a zero-padded batch | any batch after one whose FFT left a non-zero value in `fftIn[128]`: its FFT reads that value at cell 128 instead of 0 | the padding cleared before each FFT, so that it reads the 128 samples followed by 128 zeros | not executed | Firmware.StalePadding | Firmware.Pipeline.TickPadded |
| app/process_file.py:41-47 | a chunk is emitted only when a different tone arrives, so the last group is never emitted | a single logged tone 440 gives no audio | the last group flushed after the loop | not executed | ProcessFile.RenderDropsLastRun | ProcessFile.RenderIntended |
