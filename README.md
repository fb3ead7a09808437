# PulsePatch ECG pipeline — a Dafny model

PulsePatch is an Android app that receives 12-lead ECG samples from a
Bluetooth LE patch. The model covers the sequential core of its activity:

- the dispatch of notifications by length;
- the reassembly of 13-byte half frames into 25-byte frames, keyed by their first (signed) byte;
- the decoding of each frame into twelve big-endian two's-complement 16-bit samples;
- the per-lead display lists and the lead-0 primary buffer, with their bounded FIFO rules;
- the R-peak selection step over an integrated signal and its threshold;
- the RR-interval filter with the sticky `lastValidRR` / `currentBpm` state.

Modules, one per component:

- `Optional` (option.dfy): `Option`, for Kotlin's nullable `Double?`.
- `Wire` (wire.dfy): signed `Byte`, the masks and `toShort` truncation, the lead decoder. It also has the sender's encoder, used as the decoder's inverse.
- `Reassembly` (reassembly.dfy): routing by length and half-frame combination, as pure functions of the pending map.
- `Buffers` (buffers.dfy): the display rule "remove the first entry if there are more than 200, then add", the primary rule "add, then drop the oldest if there are more than 1500", and the windows they keep.
- `Peaks` (peaks.dfy): the `indices.filter` of peak selection.
- `Rate` (rate.dfy): the `windowed`/`map`/`filter`/`average` chain, `lastValidRR` and the BPM.
- `Monitor` (monitor.dfy): the class `EcgMonitor`, holding the activity's fields. Its methods update them as the Kotlin methods do. A ghost history of processed frames, `frames`, ties every buffer to what the pushes produce, and lemmas show what that is: the last 201 points of each lead and the last 1500 lead-0 samples.

On these points the model follows the code:

- A display list settles at 201 entries: it is trimmed only when it already holds more than 200 (MainActivity.kt:186-189).
- Keys are `packet[0].toInt()` of a signed byte, so they range over -128..127 (MainActivity.kt:168).
- A reassembled frame is 25 bytes, and its byte 0 is the first half's key (MainActivity.kt:171).
- A 13-byte packet whose key is already pending always completes the frame. It never overwrites the stored half (MainActivity.kt:169-172).

## Model

| member | source | states |
|---|---|---|
| Wire.Unsigned | app/src/main/java/com/example/pulsepatch/MainActivity.kt:182-183 | `toInt() and 0xFF` lies in 0..255 and has the same low eight bits as the signed byte |
| Wire.ToShort | app/src/main/java/com/example/pulsepatch/MainActivity.kt:184 | `toShort()` lies in -32768..32767 and is congruent to its argument modulo 65536 |
| Wire.Decode16 | app/src/main/java/com/example/pulsepatch/MainActivity.kt:182-184 | the combined sample is in the 16-bit signed range and equals signed high byte * 256 + unsigned low byte |
| Wire.LeadValue | app/src/main/java/com/example/pulsepatch/MainActivity.kt:181-184 | lead l is read from bytes 1+2l and 2+2l as a big-endian signed 16-bit value in [-32768, 32767] |
| Wire.LeadIgnoresKeyByte | app/src/main/java/com/example/pulsepatch/MainActivity.kt:181-184 | frames that agree on bytes 1..24 decode to the same value on every lead, so byte 0 affects none |
| Wire.DecodeEncode | app/src/main/java/com/example/pulsepatch/MainActivity.kt:182-184 | decoding the big-endian byte pair of any 16-bit value gives that value back |
| Wire.EncodeDecode | app/src/main/java/com/example/pulsepatch/MainActivity.kt:182-184 | every byte pair is the encoding of the value it decodes to, so the decoder is a bijection |
| Wire.DecodeEncodeFrame | app/src/main/java/com/example/pulsepatch/MainActivity.kt:181-184 | decoding lead l of a frame built from twelve samples gives the l-th sample |
| Reassembly.Combine | app/src/main/java/com/example/pulsepatch/MainActivity.kt:167-176 | an absent key stores the packet unmodified and yields no frame; a present key is removed and yields `first ++ packet[1..13)`, 25 bytes starting with the key; other keys are untouched; well-formedness is kept |
| Reassembly.Route | app/src/main/java/com/example/pulsepatch/MainActivity.kt:159-165 | a 25-byte packet is a frame as it is, a 13-byte one is exactly Combine's result, and any other length changes nothing and yields nothing |
| Reassembly.HalvesComplete | app/src/main/java/com/example/pulsepatch/MainActivity.kt:167-176 | two halves with one key on a map without it: the first yields nothing, the second yields `first ++ second[1..]` (bytes 1..24 = `first[1..] ++ second[1..]`, byte 0 = key), and the map is as before |
| Reassembly.PendingBounded | app/src/main/java/com/example/pulsepatch/MainActivity.kt:168-174 | keys are signed bytes, so at most 256 halves can be pending |
| Buffers.DisplayPush | app/src/main/java/com/example/pulsepatch/MainActivity.kt:186-189 | the display rule: the list grows by one until it holds 201 points and then keeps 201, and the new point is last; ordered and bounded by DisplayPushBounded, windowed by DisplayPushWindow |
| Buffers.PrimaryPush | app/src/main/java/com/example/pulsepatch/MainActivity.kt:192-193 | the primary rule: the buffer grows by one until it holds 1500 samples and then keeps 1500, and the new sample is last; ordered and bounded by PrimaryPushBounded, windowed by PrimaryPushWindow |
| Buffers.DisplayPushBounded | app/src/main/java/com/example/pulsepatch/MainActivity.kt:186-189 | a list of at most 201 points stays at most 201; the new point is last; the old points keep their order, minus index 0 exactly when there were more than 200 |
| Buffers.PrimaryPushBounded | app/src/main/java/com/example/pulsepatch/MainActivity.kt:192-193 | the primary buffer stays at most 1500 and ends with the new sample; the oldest goes exactly when it was full |
| Buffers.DisplayPushWindow | app/src/main/java/com/example/pulsepatch/MainActivity.kt:186-189 | pushing onto the last 201 points of a history gives the last 201 points of the longer history |
| Buffers.PrimaryPushWindow | app/src/main/java/com/example/pulsepatch/MainActivity.kt:192-193 | pushing onto the last 1500 samples of a history gives the last 1500 of the longer history |
| Peaks.IsPeak | app/src/main/java/com/example/pulsepatch/MainActivity.kt:275-278 | the filter condition; SelectPeaks states that exactly the indices meeting it are selected, and PeaksSpaced that no two of them are adjacent |
| Peaks.PeaksFrom | app/src/main/java/com/example/pulsepatch/MainActivity.kt:274-279 | from a start index: every returned index qualifies, every qualifying index is returned, and the result is strictly increasing |
| Peaks.SelectPeaks | app/src/main/java/com/example/pulsepatch/MainActivity.kt:274-279 | exactly the indices 0 < i < size-1 with v[i] > threshold, v[i] > v[i-1] and v[i] > v[i+1], in strictly increasing order |
| Peaks.PeaksSpaced | app/src/main/java/com/example/pulsepatch/MainActivity.kt:274-279 | consecutive selected peaks differ by at least 2 |
| Rate.Differences | app/src/main/java/com/example/pulsepatch/MainActivity.kt:221 | `windowed(2, 1) { it[1] - it[0] }` gives size-1 differences of consecutive peaks, none for fewer than 2 |
| Rate.Seconds | app/src/main/java/com/example/pulsepatch/MainActivity.kt:222 | each difference is divided by the 500 Hz sample rate |
| Rate.Plausible | app/src/main/java/com/example/pulsepatch/MainActivity.kt:223 | `it in 0.4..1.5`; a plausible interval is positive, so 60 / RR is defined |
| Rate.KeepPlausible | app/src/main/java/com/example/pulsepatch/MainActivity.kt:223 | the filter keeps only intervals in [0.4, 1.5] s, each taken from the input, and every plausible input interval appears |
| Rate.KeepPlausibleCounts | app/src/main/java/com/example/pulsepatch/MainActivity.kt:223 | each plausible value occurs in the result as often as in the input, and no other value occurs, which fixes the mean taken at :225 |
| Rate.KeepPlausibleAppend | app/src/main/java/com/example/pulsepatch/MainActivity.kt:223 | filtering a concatenation is the concatenation of the filtered parts, so the kept intervals stay in input order |
| Rate.RRIntervals | app/src/main/java/com/example/pulsepatch/MainActivity.kt:221-223 | the `rrIntervals` chain: empty for fewer than 2 peaks, shorter than the peak list, every element in [0.4, 1.5] s; RRIntervalsNonEmpty says when it is non-empty |
| Rate.PlausibleSamples | app/src/main/java/com/example/pulsepatch/MainActivity.kt:222-223 | an interval of d samples is in [0.4, 1.5] s exactly when 200 <= d <= 750 |
| Rate.RRIntervalsNonEmpty | app/src/main/java/com/example/pulsepatch/MainActivity.kt:220-225 | some interval survives if and only if two consecutive peaks are 200 to 750 samples apart |
| Rate.Mean | app/src/main/java/com/example/pulsepatch/MainActivity.kt:225 | `average()`: the mean times the count is the sum, and a single value is its own mean; MeanWithin bounds it |
| Rate.MeanWithin | app/src/main/java/com/example/pulsepatch/MainActivity.kt:225 | `average()` of values in [lo, hi] lies in [lo, hi] |
| Rate.NextRR | app/src/main/java/com/example/pulsepatch/MainActivity.kt:220-226 | with no surviving interval `lastValidRR` is kept; otherwise it becomes their mean, which is itself in [0.4, 1.5] |
| Rate.NextRRSticky | app/src/main/java/com/example/pulsepatch/MainActivity.kt:220-226 | fewer than 2 peaks, or no consecutive pair 200..750 samples apart, leaves `lastValidRR` unchanged |
| Rate.Bpm | app/src/main/java/com/example/pulsepatch/MainActivity.kt:227 | BPM times the RR interval is 60 |
| Rate.BpmRange | app/src/main/java/com/example/pulsepatch/MainActivity.kt:223-227 | a plausible RR interval gives 40 to 150 BPM |
| Rate.RegularBeat | app/src/main/java/com/example/pulsepatch/MainActivity.kt:217-228 | peaks 100, 600, 1100 give intervals [1.0, 1.0] s, `lastValidRR` 1.0 and 60 BPM |
| Rate.LongIntervalExcluded | app/src/main/java/com/example/pulsepatch/MainActivity.kt:223-225 | a 2.0 s interval is left out of the mean |
| Monitor.LeadEntriesAt | app/src/main/java/com/example/pulsepatch/MainActivity.kt:179-189 | the i-th point of a lead's history has x = i and that frame's decoded sample |
| Monitor.LeadSamplesAt | app/src/main/java/com/example/pulsepatch/MainActivity.kt:191-192 | the i-th lead-0 sample of the history is that frame's lead 0 |
| Monitor.PushFromAt | app/src/main/java/com/example/pulsepatch/MainActivity.kt:181-189 | the lead loop pushes onto each lead's list that lead's point, with the shared x, and onto no other list |
| Monitor.PushAll | app/src/main/java/com/example/pulsepatch/MainActivity.kt:181-189 | the lead loop's effect on the display lists: still 12 lists; PushAllAt gives each list's new value |
| Monitor.PushAllAt | app/src/main/java/com/example/pulsepatch/MainActivity.kt:181-189 | after one frame, lead l's list is the display rule applied to its old list and the point (x, lead l's sample), for each of the 12 leads |
| Monitor.DisplaysWindow | app/src/main/java/com/example/pulsepatch/MainActivity.kt:179-189 | after any sequence of frames, each display list is the last 201 points of its lead, oldest first |
| Monitor.PrimaryWindow | app/src/main/java/com/example/pulsepatch/MainActivity.kt:191-193 | after any sequence of frames, the primary buffer is the last 1500 lead-0 samples in arrival order |
| Monitor.DisplayShape | app/src/main/java/com/example/pulsepatch/MainActivity.kt:179-189 | a display list holds min(n, 201) points and its last point is the newest frame's, at x = n-1 |
| Monitor.PrimaryShape | app/src/main/java/com/example/pulsepatch/MainActivity.kt:191-193 | the primary buffer holds min(n, 1500) samples and ends with the newest frame's lead 0 |
| Monitor.PushLeads | app/src/main/java/com/example/pulsepatch/MainActivity.kt:181-194 | the loop over the 12 leads pushes every lead's point by the display rule and lead 0 by the primary rule |
| Monitor.EcgMonitor.constructor | app/src/main/java/com/example/pulsepatch/MainActivity.kt:38-45 | empty lists, buffer and pending map; index 0; no RR interval; BPM 0.0 |
| Monitor.EcgMonitor.HandleNotification | app/src/main/java/com/example/pulsepatch/MainActivity.kt:159-165 | the state advances as Route says; any other length changes no buffer, no index and no pending entry; the rate state is untouched |
| Monitor.EcgMonitor.CombineHalfPacket | app/src/main/java/com/example/pulsepatch/MainActivity.kt:167-176 | the pending map becomes Combine's and the completed frame, if any, is processed |
| Monitor.EcgMonitor.ProcessFullPacket | app/src/main/java/com/example/pulsepatch/MainActivity.kt:178-194 | the index goes up by exactly 1; every lead list gets one point at the old index, last; lead 0 is pushed into the primary buffer; the window invariant is kept |
| Monitor.EcgMonitor.ComputeBpm | app/src/main/java/com/example/pulsepatch/MainActivity.kt:217-228 | `lastValidRR` becomes NextRR of its old value; `currentBpm` becomes 60 / `lastValidRR` when that is set, and is unchanged otherwise |

## Left out

- Bluetooth LE scanning, GATT connection, MTU request, service discovery, descriptor writes and `disconnect` (MainActivity.kt:113-157, 307-311): platform I/O.
- The Compose screen, `LineChart` setup, `Toast` and `format` (MainActivity.kt:62-111, 197-199, 313): UI.
- `runOnUiThread` and the 1 Hz `Handler`/`Looper` timer (MainActivity.kt:155, 204-213): scheduling. Their effect is calls to `HandleNotification` and `ComputeBpm` made one at a time.
- `applyBandpassFilter` (MainActivity.kt:234-261): a fixed-coefficient floating-point IIR recurrence.
- The derivative, square, 150-sample moving average and `mean * 1.2` threshold of `detectRPeaks` (MainActivity.kt:266-272): floating-point numerics. `Peaks.SelectPeaks` takes the integrated signal and the threshold as inputs.
- `detectAFib`, and the per-lead filter and AFib call inside the decode loop (MainActivity.kt:195-200, 281-306): floating point and `Math.sqrt`. The call changes no modelled state.
- Monitor.EcgMonitor.ComputeBpm: takes the detected peak indices as a parameter, because the steps that produce them from `ecgBuffer` are left out.
- Double arithmetic is idealised as exact reals. This affects the RR intervals, their mean and 60 / RR. The [0.4, 1.5] range check is exact in both: as doubles too, 200 / 500.0 and 750 / 500.0 are the endpoints.
- `globalIndex` is a Kotlin `Float`. It is modelled as an unbounded integer, which is exact only for the first 2^24 frames. Beyond that the float counter stops advancing. The decoded samples fit a `Float` exactly.
- Monitor.EcgMonitor.ProcessFullPacket: takes a 25-byte `Frame`; the source would throw on a shorter array, but its two callers only pass 25 bytes.
- The display lists are sequence values held in the `ecgData` field. They are not shared list objects; nothing else holds a reference to them here.
- The lead loop is a method over these values (`Monitor.PushLeads`), and `ProcessFullPacket` assigns its results to the fields.
- `Wire.Encode16` and `Wire.EncodeFrame` are the patch's side of the wire format. They are not in the source, and serve as the inverse against which decoding is proved.
