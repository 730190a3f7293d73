# A verified model of the voice gateway

This Dafny project models two parts of the Go voice gateway (`voice-gateway/`)
and proves properties of them for all inputs and all runs. `dafny verify
dfyconfig.toml` checks everything.

**The audio core.** Module `Fir` defines a plain FIR filter; `Resampler` is the
circular delay line with its three subfilters, proved to compute that filter;
`SharedLine` is what happens to the filter signal when both directions use one
delay line, and `SharedPipeline` what happens to the bytes.
`Framing` is the fixed-size framing law for any codec with state; `Pipeline` and
`FrameSenders` are the three objects that cut streams into frames.
`Interpolation` is the integer 16 kHz to 24 kHz path. `Mulaw` is the G.711 u-law
codec with its search-built table, `CartesiaUlaw` the second, algorithmic encoder
of the Cartesia renderer, `FloatPcm` the float conversions. `Pcm16`, `GoArith`
and `Seqs` hold the byte layout, Go's integer types and operators, and joining.

**The session.** `Booking` holds the slot functions, `QuestionText` the
clarification texts and the detector that maps a text to a slot, `Dialogue` the
handlers of caller transcripts and assistant questions as steps of runs and as a
class with the session's fields. `ManualVad` is the fallback turn detector, `Speech`
the buffer between text deltas and the renderer, `ProviderChannels` the channel
protocol between a provider's read loop and the session, `ConversationMachine` the
conversation states.

Objects that the gateway updates in place are classes. Each method is proved
against a function of the old state, and the theorems are about those functions. What a function means is stated a second time
without it: as a sum, a condition over the history, or a table read backward.
Float64 is modelled as `real`: going from a sample to a float and back is exact
in a float64, so the round-trip results carry over as they are; results about
arbitrary floats and about the filters hold up to float rounding.

## What the proofs show about the code

- The upsampler reads the oldest 16 of 48 delay-line entries
  (`voice-gateway/internal/audio/resampler.go:90-93`), so its output comes 96
  samples later than a minimal polyphase filter's. The comment at line 16 of that
  file gives the line a length of 16; it has 48.
- The inbound and outbound directions share one delay line, and a session drives
  both (`voice-gateway/internal/session/session.go:312` and `:422`). `OutboundCall`
  and `InboundCall` hold for a pipeline driven in one direction since its reset.
  For any interleaving there are two exact conditions. The filter signal of a
  direction is that of its own uninterrupted stream if and only if at each of its
  calls the shared line rings like its own line (`MixedDownsExactly`,
  `MixedUpsExactly`). The bytes are, if and only if the difference in ringing
  nowhere changes a code or a sample (`SentExactly`, `ReturnedExactly`,
  `MixedOutboundCall`, `MixedInboundCall`). A full frame of the other direction
  replaces the whole line. One sample of it other than zero disturbs the filter
  signal; it changes bytes if and only if one of its products with the filter rounds
  to a sample other than zero (`OneSampleSent`, `OneSampleReturned`).
- `encodeUlau` and the table encoder give different bytes for the samples 1 to 4, at
  the seams between segments and above 32635, and for no other sample.
- `encodeUlau` does not clip. Its error bound holds if and only if the magnitude is
  at most 32635; -32768 is negated onto itself and encoded as zero.
- The Cartesia sender is never flushed: the last partial u-law frame of a render
  is sent at the start of the next one. Whether a render is sent to its end depends
  on the bytes of all renders since the session began, not on its own length.
- The field detector reads a text of several sentences as asking for the earliest
  slot in asking order that any of them mentions, not for the first or last one in
  the text.
- The skip gate described at `voice-gateway/internal/session/session.go:650-653`
  never skips at its call site, because `noteAssistantBookingQuestion` has just
  recorded the same slot as asked.
- Five of the seven clarification texts are not recognised by the detector. This
  does no harm: a forced question never changes the dialogue state.
- A response that ends while assistant output is suppressed, or that is skipped, is
  not flushed. Its buffered text stays pending, and the first text cut out later,
  whatever comes in between, begins with it.
- A session that leaves its provider loop by stop never closes `doneCh`, for which
  `Run` and `Wait` wait, and the read loop can then block on a full event queue.

## Model

| member | source | states |
|---|---|---|
| `Resampler.UpsampledIsNaiveFilter` | voice-gateway/internal/audio/resampler.go:39-52 | For every coefficient set and every stream, output k of the polyphase ring buffer is the plain 48-tap FIR of the zero-stuffed stream at k - 96; the 96 is the extra delay that the reading offset of 32 causes |
| `Fir.Polyphase` | voice-gateway/internal/audio/resampler.go:160-171 | A subfilter on the signal equals the whole filter on the signal with two zeros stuffed after each sample, for any number of taps |
| `Fir.FilterIsConvolution` | voice-gateway/internal/audio/resampler.go:69-76 | The loop over the coefficients computes the convolution sum: each sample counts once, times the coefficient of its age, for every stream, coefficient set and time |
| `Resampler.UpsampledIsConvolution` | voice-gateway/internal/audio/resampler.go:87-101 | Output k is the sum over all samples i of sample times coefficient k - 96 - 3i, where there is one |
| `Resampler.UpsamplingIgnoresChunking` | voice-gateway/internal/audio/resampler.go:36-52 | However a stream is cut into calls, their outputs join up to the upsampling of the whole stream |
| `Resampler.DownsamplingIgnoresChunking` | voice-gateway/internal/audio/resampler.go:58-83 | Consecutive blocks whose lengths are multiples of 3 give the full FIR over the whole history at every third global index |
| `Resampler.Resampler.Upsample8to24` | voice-gateway/internal/audio/resampler.go:39-52 | The method with the circular delay line produces the specified block after any history, extends the history by the input and leaves the rest of `out` alone |
| `Resampler.Resampler.Downsample24to8` | voice-gateway/internal/audio/resampler.go:58-83 | Output i is the full filter over all samples pushed since the reset, at the global index of input 3i |
| `Resampler.Resampler.Locate` | voice-gateway/internal/audio/resampler.go:69-73 | The wrapped circular index always addresses the sample `back` steps before the newest one, zero before the start; the wrap loop ends |
| `Resampler.Resampler.ConvolvePhase` | voice-gateway/internal/audio/resampler.go:87-101 | The result is the phase subfilter over the 16 oldest entries of the delay line, that is 32 samples back |
| `Resampler.Resampler.Reset` | voice-gateway/internal/audio/resampler.go:104-109 | After a reset the object behaves as one that has received nothing |
| `Resampler.DecomposePolyphase` | voice-gateway/internal/audio/resampler.go:160-171 | For every number m of phases, phase p is every m-th coefficient from p on, and no index is out of range |
| `SharedLine.SameDownBlockExactly` | voice-gateway/internal/audio/pipeline.go:14-18 | After any two histories of the one delay line, an outbound block comes out the same if and only if the two histories ring alike at its output instants, whatever the block |
| `SharedLine.SameUpBlockExactly` | voice-gateway/internal/audio/pipeline.go:14-18 | The same for an inbound block and the subfilters |
| `SharedLine.MixedDownsExactly` | voice-gateway/internal/audio/pipeline.go:72-72 | For every interleaved series of calls: the outbound filter signal is that of the outbound calls on a line of their own if and only if no outbound call finds the shared line ringing differently from that one |
| `SharedLine.MixedUpsExactly` | voice-gateway/internal/audio/pipeline.go:138-138 | The same for the inbound filter signal of every interleaved series |
| `SharedLine.OutboundCleanExactly` | voice-gateway/internal/session/session.go:422-422 | From a reset, with outbound calls of multiples of 3 samples: the outbound filter signal is the decimated filter of the joined outbound stream under just that condition |
| `SharedLine.InboundCleanExactly` | voice-gateway/internal/session/session.go:312-312 | From a reset: the inbound filter signal is the upsampling of the joined inbound stream under just that condition |
| `SharedLine.CleanAfterFullFrame` | voice-gateway/internal/audio/resampler.go:14-18 | 47 samples of the other direction, so any full frame, replace the whole line: the next block is clean if and only if they happen to ring like the direction's own samples |
| `SharedLine.SharedDelayLineRecovers` | voice-gateway/internal/audio/resampler.go:36-83 | Outbound outputs from index 16 on and inbound outputs from index 141 on no longer depend on what was in the line |
| `SharedLine.OneSampleHeardOutbound` | voice-gateway/internal/audio/pipeline.go:208-216 | In the filter signal: the last sample of a 160-sample inbound frame, of any value but 0, disturbs the 480-sample frame of outbound silence that follows unless the coefficients 1, 4, ..., 46 are all zero |
| `SharedLine.OneSampleHeardInbound` | voice-gateway/internal/audio/pipeline.go:132-138 | In the filter signal: the last sample of a 480-sample outbound frame, of any value but 0, disturbs the frame of inbound silence that follows unless every coefficient is zero |
| `Pipeline.OutboundCall` | voice-gateway/internal/audio/pipeline.go:204-257 | From reset to flush, on an outbound-only pipeline: all u-law bytes sent are one filtering, decimation and encoding of the received bytes padded to a whole frame, for every chunking |
| `Pipeline.InboundCall` | voice-gateway/internal/audio/pipeline.go:132-146 | The bytes returned by a series of inbound calls are one upsampling, with gain 3, of the joined stream, for every chunking at sample bounds |
| `Pipeline.WidenedSample` | voice-gateway/internal/audio/pipeline.go:139-145 | Each sample returned is three times the filter output in steps of 1/32767, to the nearest, and full scale where that exceeds it |
| `Pipeline.CodeAccuracy` | voice-gateway/internal/audio/pipeline.go:218-222 | Each code sent decodes to the filter output up to rounding and the u-law error: 34 times the deviation is at most 150 more than the magnitude |
| `Pipeline.SilenceIsSilenceCode` | voice-gateway/internal/audio/mulaw.go:41-42 | Zero bytes come out as the standard silence code 0xFF, whatever the coefficients |
| `SharedPipeline.RunIsCalls` | voice-gateway/internal/audio/pipeline.go:204-257 | For every run of outbound chunks, flushes and inbound frames in any order: the bytes sent and returned are the coded filter signals of the frame-size calls that the run makes of the one resampler |
| `SharedPipeline.SentExactly` | voice-gateway/internal/session/session.go:422-422 | In bytes, for every such run from any state: the bytes sent are those of the same run without inbound audio if and only if at each output of each outbound frame the difference in ringing leaves the code as it is |
| `SharedPipeline.ReturnedExactly` | voice-gateway/internal/session/session.go:312-312 | The bytes returned are those of the same run without outbound audio if and only if at each output of each inbound frame the difference in ringing leaves the 16-bit sample as it is |
| `SharedPipeline.SignalSuffices` | voice-gateway/internal/audio/pipeline.go:14-18 | Calls that are undisturbed in the filter signal meet the condition on the bytes |
| `SharedPipeline.MixedOutboundCall` | voice-gateway/internal/audio/pipeline.go:204-257 | With inbound audio anywhere among the chunks and a flush at the end, the bytes sent are those of `OutboundCall` under exactly that condition |
| `SharedPipeline.MixedInboundCall` | voice-gateway/internal/audio/pipeline.go:132-146 | With outbound audio anywhere among inbound chunks of whole samples, the bytes returned are those of `InboundCall` under exactly that condition |
| `SharedPipeline.OneSampleSent` | voice-gateway/internal/audio/pipeline.go:208-225 | In bytes, for every 16-bit sample: as the last one of a silent inbound frame it changes the codes of the silent outbound frame that follows if and only if one of its 16 products with the filter rounds to a sample other than 0 |
| `SharedPipeline.OneSampleReturned` | voice-gateway/internal/audio/pipeline.go:132-146 | As the last one of a silent outbound frame it changes the samples returned for the silent inbound frame that follows if and only if one of its 48 products, tripled, rounds to a sample other than 0 |
| `Pipeline.Pipeline.ProcessOutboundBytes` | voice-gateway/internal/audio/pipeline.go:204-227 | The frames, the filter history and the residue after a call are those of framing the old residue followed by the new bytes |
| `Pipeline.Pipeline.FlushOutbound` | voice-gateway/internal/audio/pipeline.go:237-257 | The residue padded with silence is coded as one frame and the buffer emptied; nothing happens when it was empty |
| `Pipeline.Pipeline.ResamplePcm16From8kTo24k` | voice-gateway/internal/audio/pipeline.go:132-146 | The result is the upsampled block after the history so far, times 3, as clipped PCM bytes |
| `Pcm16.LittleEndian` | voice-gateway/internal/audio/pipeline.go:192-199 | The first byte of a sample is the low one and negative samples are in two's complement, in both directions |
| `Framing.ChunkingInvisible` | voice-gateway/internal/audio/pipeline.go:204-227 | For any frame size and any codec with state: two ways of cutting the same bytes into calls give the same frames, residue and codec state |
| `Framing.Frames` | voice-gateway/internal/audio/pipeline.go:208-225 | As many frames come out as fit into the bytes; with the residue's length this conserves the byte count |
| `Framing.CallsThenFlush` | voice-gateway/internal/audio/pipeline.go:237-246 | A flush adds exactly one frame if bytes were left over and none otherwise, and completes the framing of the padded stream |
| `FrameSenders.G722Encoder.ProcessPcm16Bytes` | voice-gateway/internal/audio/g722.go:46-59 | The frame-length error never occurs here; frames, codec state and residue are those of the framing law |
| `FrameSenders.G722Encoder.EncodePcm16Frame` | voice-gateway/internal/audio/g722.go:33-44 | A frame of any length but 640 bytes is refused and leaves the codec alone |
| `FrameSenders.G722Encoder.Flush` | voice-gateway/internal/audio/g722.go:61-69 | A residue is padded and coded as exactly one frame, no residue gives no frame; the buffer ends empty |
| `FrameSenders.CartesiaSender.SendMulaw` | voice-gateway/internal/session/session.go:1103-1125 | The messages sent are the 160-byte frames of old residue and new bytes that the provider can wrap, in order, and are counted |
| `FrameSenders.AcceptedAt` | voice-gateway/internal/session/session.go:1110-1122 | Every accepted frame is sent, in its place among the accepted ones, and no other is |
| `FrameSenders.FramesAreWhole` | voice-gateway/internal/session/session.go:1107-1109 | Every frame has 160 bytes |
| `FrameSenders.FramesCarryTheBytes` | voice-gateway/internal/session/session.go:1107-1109 | Frames and residue joined are the received bytes, unchanged |
| `FrameSenders.RenderSentExactly` | voice-gateway/internal/session/session.go:1103-1125 | Whatever residue a render finds, its frames carry the residue and its own bytes up to the last multiple of 160: all of them if and only if residue and render together are a multiple of 160 long |
| `FrameSenders.RendersRunTogether` | voice-gateway/internal/session/session.go:1556-1566 | Nothing flushes the sender after a render: after any earlier renders a render's frames begin with their leftover bytes, and it is sent to its end if and only if the number of all bytes since the session began is a multiple of 160 |
| `Interpolation.Between` | voice-gateway/internal/audio/pipeline.go:156-168 | No index is out of range, every output lies between its two neighbouring inputs, so the int16 conversion never wraps |
| `Interpolation.TruncatedMean` | voice-gateway/internal/audio/pipeline.go:166-167 | Wherever a next input exists the output is the mean of its two neighbours, weighted by distance, with the fraction cut off toward zero |
| `Interpolation.Ramp` | voice-gateway/internal/audio/pipeline.go:156-168 | A ramp c + 3di becomes c + 2dm at output m if and only if d is 0, m falls on an input, or a next input exists |
| `Interpolation.HeldSample` | voice-gateway/internal/audio/pipeline.go:161-164 | Only an even number of inputs has a held output off the input grid, and it is the last one |
| `Interpolation.SplitKeepsOthers` | voice-gateway/internal/audio/pipeline.go:149-170 | Cutting a stream after an even number of samples changes no output but the one before the cut |
| `Interpolation.SplitAtHeldSample` | voice-gateway/internal/audio/pipeline.go:161-167 | That output is unchanged if and only if the step over the cut is under 3 and does not lead towards zero |
| `Interpolation.OddSplitLosesASample` | voice-gateway/internal/audio/pipeline.go:154-154 | Cutting between two odd halves loses exactly one output sample |
| `Interpolation.ResamplePcm16From16kTo24k` | voice-gateway/internal/audio/pipeline.go:149-170 | The byte loop returns the specified interpolation of the samples, also for empty and odd-length input |
| `Mulaw.EncodeIsNearest` | voice-gateway/internal/audio/mulaw.go:23-42 | The table is a nearest-neighbour encoder for every 16-bit sample, and the lowest nearest code is taken except at zero |
| `Mulaw.SilenceCodeExactly` | voice-gateway/internal/audio/mulaw.go:41-42 | The silence code 0xFF is given for sample 0 and for no other |
| `Mulaw.DecodedRange` | voice-gateway/internal/audio/mulaw.go:47-66 | The codes 0x80 and 0x00 decode to 32124 and -32124, 0xFE and 0x7E to 8 and -8, the two zeros to 0 |
| `Mulaw.EncodeMonotone` | voice-gateway/internal/audio/mulaw.go:23-42 | A larger sample never decodes to a smaller value after encoding |
| `Mulaw.EncodeAccuracy` | voice-gateway/internal/audio/mulaw.go:23-42 | 34 times the error is at most abs(x) + 132, for every 16-bit sample |
| `Mulaw.EncodeAccuracyIsTight` | voice-gateway/internal/audio/mulaw.go:23-42 | Sample 4 meets that bound with equality |
| `Mulaw.DecodeInjective` | voice-gateway/internal/audio/mulaw.go:47-66 | Two codes decode alike only if they are equal or are the two zeros |
| `Mulaw.BufferRoundTrip` | voice-gateway/internal/audio/mulaw.go:84-99 | Decoding a buffer of any length to PCM bytes and re-encoding it returns it, 0x7F becoming 0xFF |
| `Mulaw.BufferAccuracy` | voice-gateway/internal/audio/mulaw.go:94-99 | The accuracy bound holds at every sample of a buffer of any length |
| `Mulaw.CodecIdempotent` | voice-gateway/internal/audio/mulaw.go:71-77 | A second pass through the codec changes no sample value |
| `Mulaw.Tables.constructor` | voice-gateway/internal/audio/mulaw.go:17-43 | The two table-building loops fill in decoding and nearest-code encoding for all codes and samples |
| `Mulaw.Tables.MulawToPcm16` | voice-gateway/internal/audio/mulaw.go:84-89 | The output bytes are the decoded samples, the rest of the buffer is kept |
| `Mulaw.Tables.Pcm16ToMulaw` | voice-gateway/internal/audio/mulaw.go:94-99 | The output bytes are the encoded samples, the rest of the buffer is kept |
| `CartesiaUlaw.Accuracy` | voice-gateway/internal/renderer/cartesia/renderer.go:225-245 | 32 times the error is at most abs(x) + 132 if and only if abs(x) <= 32635: the encoder does not clip, and -32768 even encodes to zero |
| `CartesiaUlaw.OverloadExactly` | voice-gateway/internal/renderer/cartesia/renderer.go:225-245 | Every sample beyond 32635 in magnitude decodes to 16764 of its sign, and -32768 to 0, with code 0x7F |
| `CartesiaUlaw.AccuracyIsTight` | voice-gateway/internal/renderer/cartesia/renderer.go:225-245 | Sample 124 meets that bound with equality |
| `CartesiaUlaw.NearestExactly` | voice-gateway/internal/renderer/cartesia/renderer.go:231-239 | In range, the algorithm returns a nearest code if and only if the biased magnitude is not in the lowest eighth of the bottom cell of a segment |
| `CartesiaUlaw.EncodeDecoded` | voice-gateway/internal/renderer/cartesia/renderer.go:225-245 | It undoes decoding up to the two zeros, and there agrees with the table encoder |
| `CartesiaUlaw.BufferRoundTrip` | voice-gateway/internal/renderer/cartesia/renderer.go:208-215 | The round trip holds for buffers of any length |
| `CartesiaUlaw.TableAtLeastAsClose` | voice-gateway/internal/renderer/cartesia/renderer.go:225-245 | At no sample is the algorithm closer than the table |
| `CartesiaUlaw.SameByteExactly` | voice-gateway/internal/renderer/cartesia/renderer.go:225-245 | Algorithm and table give the same byte if and only if abs(x) <= 32635, the biased magnitude is not at a seam between segments, and x is none of 1, 2, 3, 4 |
| `CartesiaUlaw.EncodeUlau` | voice-gateway/internal/renderer/cartesia/renderer.go:225-245 | The search loop with its break finds the first segment above the magnitude, the top one if none is |
| `CartesiaUlaw.Table.ConvertPcm16ToMulaw` | voice-gateway/internal/renderer/cartesia/renderer.go:208-215 | The result is a new buffer with every sample encoded |
| `FloatPcm.RoundTrip` | voice-gateway/internal/audio/mulaw.go:103-123 | To float and back is exact for abs(x) <= 16384 and one step toward zero otherwise |
| `FloatPcm.BufferRoundTrip` | voice-gateway/internal/audio/mulaw.go:103-123 | The same at every sample of a buffer of any length |
| `FloatPcm.FromReal` | voice-gateway/internal/audio/mulaw.go:112-120 | For any real input the sample lies in [-32767, 32767] |
| `FloatPcm.FromRealMonotone` | voice-gateway/internal/audio/mulaw.go:112-120 | Clipping and rounding preserve order |
| `FloatPcm.FromRealAccuracy` | voice-gateway/internal/audio/mulaw.go:112-120 | The result is within half a step of the clipped value |
| `FloatPcm.RoundAwayFromZero` | voice-gateway/internal/audio/mulaw.go:119-120 | Rounding goes to the nearest integer, halves away from zero, alike for both signs |
| `FloatPcm.Pcm16ToFloat64` | voice-gateway/internal/audio/mulaw.go:103-108 | The output floats are the samples over 32768 |
| `FloatPcm.Float64ToPcm16` | voice-gateway/internal/audio/mulaw.go:112-123 | The output bytes are the clipped, rounded samples, the rest of the buffer is kept |
| `Booking.MergeSlot` | voice-gateway/internal/session/booking_slots.go:40-57 | Slot by slot: an offered value is taken unless the caller gave one before and is not correcting it; nothing else changes |
| `Booking.MarkSlot` | voice-gateway/internal/session/booking_slots.go:275-313 | Slot by slot: a question fills exactly the empty slots before the one it asks for, with a placeholder |
| `Booking.PlaceholdersShown` | voice-gateway/internal/session/booking_slots.go:298-310 | Asking an empty booking for the phone leaves the texts `provided` and the size -1 in the other four slots |
| `Booking.HasAnyExactly` | voice-gateway/internal/session/booking_slots.go:20-22 | An update counts as an answer exactly if it offers one of the five slots |
| `Booking.FirstMissingSlot` | voice-gateway/internal/session/booking_slots.go:79-94 | The field named belongs to the first slot in asking order that holds nothing, and none is named exactly when no slot is empty |
| `Booking.FirstMissingIsHead` | voice-gateway/internal/session/sm/state_machine.go:42-65 | `firstMissingBookingField` and the head of `MissingFields` agree, and a booking is complete exactly when neither names a field |
| `Booking.MissingFieldsExactly` | voice-gateway/internal/session/sm/state_machine.go:42-60 | `MissingFields` reports exactly the slots that hold nothing, each once, in asking order, under its own names |
| `Booking.AnswerAndQuestionCommute` | voice-gateway/internal/session/booking_slots.go:40-57 | Recording an answer and noting a question commute, for every booking, update, overwrite flag and field |
| `Booking.NormalForm` | voice-gateway/internal/session/booking_slots.go:275-313 | Every interleaving of answers and questions ends in the answers merged in order with the furthest question marked once |
| `Booking.InterleavingInvisible` | voice-gateway/internal/session/booking_slots.go:40-57 | Two sequences with the same answers in order and the same slots asked for give the same booking |
| `QuestionText.ExpectedFieldExactly` | voice-gateway/internal/session/booking_slots.go:257-273 | For every text the detector names a slot if and only if the text mentions one of its phrases and none of a slot asked for earlier, and nothing if and only if it mentions none |
| `QuestionText.MentionsInAnyCase` | voice-gateway/internal/session/booking_slots.go:257-259 | A text mentions a slot if and only if one of its phrases stands in it letter by letter, in whatever case |
| `QuestionText.CaseIgnored` | voice-gateway/internal/session/booking_slots.go:258-258 | The answer stays the same when any letters of the text change their case |
| `QuestionText.SurroundingText` | voice-gateway/internal/session/booking_slots.go:257-273 | Text added before or after never moves the answer to a later slot, and keeps it if and only if no earlier slot is then mentioned |
| `QuestionText.EarliestSentenceWins` | voice-gateway/internal/session/booking_slots.go:257-273 | Of any text of sentences, each ended by a character of its own that is neither letter nor space, and a rest, the answer is the earliest slot in asking order that one of them asks for: no phrase is found across an ending |
| `QuestionText.UndetectedClarifications` | voice-gateway/internal/session/booking_slots.go:136-154 | Five of the seven clarification texts are recognised as asking for no slot at all |
| `QuestionText.ClarificationWords` | voice-gateway/internal/session/booking_slots.go:136-154 | Each clarification names what it asks for; for the name the first one asks to say it again and every later one to spell it |
| `Dialogue.ClarificationField` | voice-gateway/internal/session/booking_slots.go:257-273 | A clarification is recognised as asking for its own slot or for none |
| `Dialogue.ArrivalOrderInvisible` | voice-gateway/internal/session/session.go:914-976 | Two sessions with the same answers in order, asked for the same slots, end with the same booking, however transcripts and questions interleaved |
| `Dialogue.ForcedQuestionChangesNothing` | voice-gateway/internal/session/session.go:978-1019 | A question that the session forces never changes the dialogue state |
| `Dialogue.StepKeepsRank` | voice-gateway/internal/session/session.go:914-976 | No event lowers a slot's rank (missing, implied, caller-given), and a caller-given value changes only on a correcting transcript that offers the slot |
| `Dialogue.RankNeverDrops` | voice-gateway/internal/session/session.go:914-976 | Along every run, from any state, no slot's rank drops |
| `Dialogue.GivenChangesOnlyByCorrection` | voice-gateway/internal/session/session.go:919-930 | Along every run without a correcting transcript that offers the slot, a caller-given value stays as it is |
| `Dialogue.FirstMissingNeverRetreats` | voice-gateway/internal/session/booking_slots.go:79-94 | Along every run the first missing slot never moves backward |
| `Dialogue.ClarificationNeverRetreats` | voice-gateway/internal/session/session.go:934-946 | Along every run a new clarification is never for an earlier slot than the one before |
| `Dialogue.GivenComesFromCaller` | voice-gateway/internal/session/session.go:919-930 | A slot counts as caller-given exactly when a transcript of the run offered it, and then holds the first answer or the last correction |
| `Dialogue.InvariantAlways` | voice-gateway/internal/session/session.go:914-976 | In every reachable state: caller-given slots imply a live booking, the slot asked and the slot clarified are not past the first missing one, and the counter is zero exactly without a clarified slot |
| `Dialogue.CompleteMeansPhoneSpoken` | voice-gateway/internal/session/booking_slots.go:298-310 | A complete booking in a run has a phone number that a transcript supplied, and is live |
| `Dialogue.CompletionExactlyWhenComplete` | voice-gateway/internal/session/session.go:949-953 | In a run, a non-blank transcript triggers the completion line if and only if the merged booking is complete |
| `Dialogue.ReplyExactly` | voice-gateway/internal/session/session.go:914-957 | In every run a question is forced if and only if the transcript is not blank and either completes the booking or answers nothing in a live booking whose next missing slot is the one asked for |
| `Dialogue.LiveExactly` | voice-gateway/internal/session/session.go:920-928 | In every run the booking is live if and only if some non-blank transcript showed a booking intent or offered a slot |
| `Dialogue.AskedExactly` | voice-gateway/internal/session/session.go:960-976 | In every run the slot on record as asked is that of the last assistant text recognised; forced questions do not change it |
| `Dialogue.CounterIsStreak` | voice-gateway/internal/session/session.go:933-947 | In every run the counter is the number of clarifications of its slot in the event history since the last answer or the last clarification of another slot, and the slot is the one clarified last since the last answer |
| `Dialogue.ClarificationWording` | voice-gateway/internal/session/session.go:954-957 | A forced clarification is for the first missing slot and is worded by that count, itself included, so the second one in a row for the name asks to spell it |
| `Dialogue.SkipGateIsInert` | voice-gateway/internal/session/session.go:645-657 | Run right after the question was noted, as its only caller does, the skip gate never skips, in any state and for any text |
| `Dialogue.SkipGateBeforeNoting` | voice-gateway/internal/session/openai_cartesia_skip.go:30-63 | In any state, run before that, it would skip exactly the questions for the first missing slot of a live, incomplete booking not asked yet, and noting those changes only the asked slot |
| `Dialogue.Session.HandleCallerTranscript` | voice-gateway/internal/session/session.go:914-958 | The new state and the forced question are those of the specified handler, in every branch |
| `Dialogue.Session.NoteAssistantBookingQuestion` | voice-gateway/internal/session/session.go:960-976 | A recognised question becomes the asked slot and marks the earlier ones, any other text changes nothing |
| `Dialogue.Session.ForceBookingQuestion` | voice-gateway/internal/session/session.go:978-994 | A forced question is noted like the assistant's own |
| `Dialogue.Session.ShouldSkipCartesiaEnqueue` | voice-gateway/internal/session/openai_cartesia_skip.go:30-63 | The decision and the slot are those of the specified gate; no field changes |
| `ManualVad.FieldsTrackTurn` | voice-gateway/internal/session/session.go:799-846 | In every run the counters are the loud frames, the quiet tail and the server reports of the turn that the event history has open |
| `ManualVad.TurnStart` | voice-gateway/internal/session/session.go:803-809 | A turn starts with a loud frame that came when no turn was open |
| `ManualVad.CommitExactly` | voice-gateway/internal/session/session.go:826-832 | A frame commits if and only if it is the 35th quiet one in a row of an open turn with at least 3 loud frames and no server report, over 3 s after the last report of the history and over 1 s after its last commit, each only if there was one, and the other conditions hold |
| `ManualVad.CompleteTurnCommits` | voice-gateway/internal/session/session.go:799-835 | After any history without an open turn, loud frames and 34 quiet ones, the next quiet frame commits if and only if at least 3 were loud, the two waits are over and the other conditions hold |
| `ManualVad.FirstTurnCommits` | voice-gateway/internal/session/session.go:826-832 | So the first turn of a session commits |
| `ManualVad.CommitShape` | voice-gateway/internal/session/session.go:821-835 | A commit's last 35 events are quiet frames, the event before them a loud one, and the turn before it spans at least 38 frames without a server report |
| `ManualVad.CommitsApart` | voice-gateway/internal/session/session.go:799-846 | Two commits of a run are at least 38 frames apart |
| `ManualVad.NextCommitLater` | voice-gateway/internal/session/session.go:829-835 | A commit and the next one are more than a second apart |
| `ManualVad.UniformFrame` | voice-gateway/internal/session/session.go:877-892 | A frame with all samples on one side of the threshold is classified by that side |
| `ManualVad.LoudExactly` | voice-gateway/internal/session/session.go:800-803 | A frame is loud if and only if it is not empty and its magnitudes sum to at least 1501 for each sample |
| `ManualVad.AverageIsMean` | voice-gateway/internal/session/session.go:877-892 | The average is the mean magnitude without its fraction, and 0 for an empty frame |
| `ManualVad.SumJoins` | voice-gateway/internal/session/session.go:883-890 | The sum of magnitudes adds up over any cut of the frame |
| `ManualVad.SumOfOne` | voice-gateway/internal/session/session.go:884-888 | A single code adds its decoded sample with the sign dropped |
| `ManualVad.Detector.Observe` | voice-gateway/internal/session/session.go:799-875 | The new fields and the commit attempt are those of the specified step, and the two statistics count the attempts |
| `ManualVad.Detector.NoteServerSpeech` | voice-gateway/internal/session/session.go:675-690 | A server report is remembered and marks an open turn as seen |
| `ManualVad.Detector.Average` | voice-gateway/internal/session/session.go:877-892 | The loop over the decoded bytes returns the truncated mean of the absolute samples, 0 for an empty frame |
| `Speech.StreamIsCut` | voice-gateway/internal/session/session.go:1036-1072 | In every run the delta stream is cut into consecutive pieces plus the pending text, the texts offered are the trimmed non-blank pieces in order, and the pending text is under 100 bytes |
| `Speech.RendererGetsTheStream` | voice-gateway/internal/session/session.go:1060-1088 | In every run that ends with an unsuppressed response end: the texts offered from the stream are all deltas up to white space, and if fewer than 32 texts were queued and no stop was seen at each of those offers, each was rendered or is queued, in order, among whatever else was said |
| `Speech.InvariantAlways` | voice-gateway/internal/session/session.go:1036-1088 | In every run: rendered and queued texts are the accepted offers in order, an offer was accepted exactly if fewer than 32 were queued and no stop was seen, nothing of the stream is lost |
| `Speech.EnqueueExactly` | voice-gateway/internal/session/session.go:1074-1088 | From any state, an offer appends its trimmed text to the queue if and only if the text is not blank, fewer than 32 are queued and the session is not seen stopping; otherwise the queue stays |
| `Speech.DeltaCutsExactly` | voice-gateway/internal/session/session.go:1043-1052 | From any state, an unsuppressed delta is cut at once if and only if it holds one of the six ending characters with 20 bytes pending, or 100 bytes are pending; a suppressed one changes nothing |
| `Speech.ByteLenJoins` | voice-gateway/internal/session/session.go:1045-1046 | Byte lengths add up over any cut of a text |
| `Speech.ByteLenOfOne` | voice-gateway/internal/session/session.go:1045-1046 | A character takes one byte below 128, two below 2048, three below 65536 and else four |
| `Speech.SpacesListed` | voice-gateway/internal/session/session.go:1054-1057 | The characters trimmed are the 25 white space characters of Unicode |
| `Speech.EveryPieceHasItsEvent` | voice-gateway/internal/session/session.go:1043-1052 | In every run each piece was cut by one event out of what was pending then; a piece under 20 bytes only by an unsuppressed response end, any other by that or by a delta that ended a sentence or filled 100 bytes |
| `Speech.FallbackExactly` | voice-gateway/internal/session/session.go:661-666 | In every run an unsuppressed response end offers a text that is not from the stream if and only if no delta text ever reached the buffer in the session and the full transcript is not blank; it is then the trimmed transcript and the only offer |
| `Speech.HeldTextIsSpokenFirst` | voice-gateway/internal/session/session.go:646-667 | Pending text survives a response end if and only if that end is suppressed or skipped; then in every continuation the first piece cut begins with it, otherwise it is the next piece by itself |
| `Speech.PendingGoesFirst` | voice-gateway/internal/session/session.go:1036-1072 | From any state and along every continuation, the pieces added and the text then pending join up to the text pending at first and the deltas since |
| `Speech.FirstPiece` | voice-gateway/internal/session/session.go:1043-1056 | The first piece of a continuation is the text pending at first and every delta up to the event that cuts |
| `Speech.TrimMeaning` | voice-gateway/internal/session/session.go:1054-1057 | Trimming removes white space from the two ends and nothing else |
| `Speech.SpeechBuffer.BufferTranscript` | voice-gateway/internal/session/session.go:1036-1058 | The new state is that of the specified buffer step |
| `Speech.SpeechBuffer.FlushTranscript` | voice-gateway/internal/session/session.go:1060-1072 | The pending text is cut out; the result says whether text was queued or any delta was ever seen |
| `Speech.SpeechBuffer.EnqueueText` | voice-gateway/internal/session/session.go:1074-1088 | A non-blank text is queued trimmed, or dropped when the queue is full or the session stops |
| `Speech.SpeechBuffer.ResponseDone` | voice-gateway/internal/session/session.go:645-667 | The new state is that of the specified handler: nothing, a flush, or the fallback |
| `ProviderChannels.Safety` | voice-gateway/internal/session/session.go:288-356 | In every interleaving with either provider: frames received are a prefix of those queued, events received a prefix of those produced, a frame is left out exactly when 8 are queued, and the session leaves only by stop or after one disconnect, closing the done channel once |
| `ProviderChannels.ParsedFromStart` | voice-gateway/internal/provider/twilio/adapter.go:46-75 | In every run the events produced and the frames offered are exactly those read, in order, and a stop is pending exactly if it was requested |
| `ProviderChannels.FrameQueuedExactly` | voice-gateway/internal/provider/twilio/adapter.go:64-70 | A parsed frame is queued exactly if fewer than 8 are waiting, and dropped otherwise |
| `ProviderChannels.LeaveStep` | voice-gateway/internal/session/session.go:291-353 | A selecting session leaves exactly when it takes the stop, a stopped or disconnected event, or the closing of an emptied channel, and closes the done channel in all but the first and the closed event channel |
| `ProviderChannels.LeavesExactly` | voice-gateway/internal/session/session.go:350-353 | In every run a session that received a stopped or disconnected event is out, and is out by disconnect only then or after taking all frames of the closed frame channel |
| `ProviderChannels.BlockedExactly` | voice-gateway/internal/session/session.go:290-341 | The session blocks exactly while no stop is pending and both channels are open and empty, the read loop while it has an event to send and 16 are waiting |
| `ProviderChannels.InvariantRun` | voice-gateway/internal/provider/twilio/adapter.go:46-75 | Every run keeps the frame, event, closing-order and session-end invariants |
| `ProviderChannels.ClosedEventsUnseen` | voice-gateway/internal/session/session.go:338-341 | A selecting session never finds the event channel closed and empty: that branch is unreachable |
| `ProviderChannels.ClosingStep` | voice-gateway/internal/provider/telnyx/adapter.go:65-83 | The disconnect event comes before either close, and each channel is closed once, frames first |
| `ProviderChannels.EventsStep` | voice-gateway/internal/provider/telnyx/adapter.go:85-97 | Events received, queued and in flight are all events produced, in order |
| `ProviderChannels.StoppedIsNeverDone` | voice-gateway/internal/session/session.go:241-259 | After leaving by stop the session never closes the done channel that `Run` and `Wait` wait for |
| `ProviderChannels.FinishesExactlyWhenRoom` | voice-gateway/internal/provider/twilio/adapter.go:53-74 | Once the session has left, the read loop can still end if and only if the event queue has room for the events it owes |
| `ProviderChannels.StuckForever` | voice-gateway/internal/provider/twilio/adapter.go:71-73 | Without that room it blocks for good, in every continuation |
| `ProviderChannels.ReadLoopCanGetStuck` | voice-gateway/internal/provider/twilio/adapter.go:71-73 | Such a state is reached by a stop followed by enough messages |
| `ConversationMachine.InvariantRun` | voice-gateway/internal/session/sm/state_machine.go:160-184 | In every run, being in FAQ implies that the return state is the one left and is GREETING or COLLECT_BOOKING_DETAILS; no unknown state is entered |
| `ConversationMachine.FaqDetour` | voice-gateway/internal/session/sm/state_machine.go:168-184 | Whatever is tried in FAQ, the return leads back to the state it was entered from |
| `ConversationMachine.EnteredExactly` | voice-gateway/internal/session/sm/state_machine.go:187-206 | The transition table agrees with the table of the states from which each state is entered |
| `ConversationMachine.OfferedExactly` | voice-gateway/internal/session/sm/state_machine.go:218-243 | The tool table agrees with the table of the states that offer each tool |
| `ConversationMachine.RememberedExactly` | voice-gateway/internal/session/sm/state_machine.go:160-184 | In every run the previous state is the one that the last accepted move left, and the FAQ return state the one that the last move into FAQ left |
| `ConversationMachine.EveryStateReachable` | voice-gateway/internal/session/sm/state_machine.go:187-206 | Each of the ten states is reached in at most 3 moves from the greeting, by a shortest run |
| `ConversationMachine.CreateBookingNeedsCollecting` | voice-gateway/internal/session/sm/state_machine.go:218-243 | `create_booking` is offered exactly in CONFIRM_BOOKING, and only after COLLECT_BOOKING_DETAILS was visited |
| `ConversationMachine.CollectingComesFirst` | voice-gateway/internal/session/sm/state_machine.go:187-206 | Six of the states are entered only in conversations that have collected details |
| `ConversationMachine.ClosingIsFinal` | voice-gateway/internal/session/sm/state_machine.go:198-198 | CLOSING is never left |
| `ConversationMachine.ClosingWithinThreeMoves` | voice-gateway/internal/session/sm/state_machine.go:187-206 | From every reachable conversation CLOSING is at most 3 moves away, and no shorter way exists than the one given |
| `ConversationMachine.Machine.Transition` | voice-gateway/internal/session/sm/state_machine.go:160-173 | A move succeeds exactly when the table allows it and then updates all three state fields; a refused one changes nothing |
| `ConversationMachine.Machine.ReturnFromFaq` | voice-gateway/internal/session/sm/state_machine.go:176-184 | The return succeeds exactly in FAQ |
| `ConversationMachine.Machine.IsToolAllowed` | voice-gateway/internal/session/sm/state_machine.go:246-253 | The loop finds a tool exactly when the current state offers it |
| `ConversationMachine.GuardMatchesTools` | voice-gateway/internal/session/sm/state_machine.go:368-375 | In every run the guardrail that `ValidateResponse` decides agrees with the tool table: where `create_booking` is offered a response passes exactly after the success of an offered tool, elsewhere always, and a refusal implies that details were collected |

## Left out

- Filter design (`designKaiserFilter`, `besselI0`): the 48 coefficients are arbitrary reals.
- Float rounding, NaN and infinities: sums and products of the filter are exact reals here.
- Slices are values: no Go slice aliases the delay line, the tables or an output buffer.
- The G.722 codec itself: any function from state and samples to state and bytes.
- `ProcessOutbound`, which codes one base64 frame past the buffer: it repeats `CodeFrame`.
- A-law, codec-name normalisation, base64, JSON, WebSockets, HTTP, Redis, HMAC, configuration, logs, metrics and debug captures.
- Parsing of dates, times, sizes, names and phones by regular expressions: a transcript carries its parsed update. The parsers depend on the booking so far, so order-independence is stated for given updates and not for raw text.
- The transcript predicates `bookingIntent` and `correctionIntent` are inputs of a transcript.
- QuestionText.ExpectedField: lower-casing covers ASCII letters only, because Go's Unicode tables are not part of this model.
- `naturalBookingQuestion` and `nextBookingQuestion`, which no handler calls.
- FrameSenders.RendersRunTogether: is about the frames cut; a frame that the provider cannot wrap is not sent (`SendMulaw` models that).
- SharedPipeline.CallsOf: inbound G.722 frames are no events of its runs, because they go through `Interpolation` and never reach the resampler; nor is `Reset`, after which a run begins anew.
- SharedLine.OutboundCleanExactly: is about calls of multiples of 3 samples, which all calls of the pipeline are.
- Time: clock readings are parameters in milliseconds, read once per handler; suppression of assistant output is an input of the events of `Speech`.
- Echo suppression, frame pacing, barge-in, the silence supervisor and the tool calls.
- ProviderChannels.Safety: safety only; that a step is eventually taken, and data races below the level of channel operations, are not modelled.
- ProviderChannels.Next: the direction filter and the audio processing of received frames are left to the audio modules.
- Invalid UTF-8 in deltas, which JSON decoding rules out.
- `SetBookingData`, prompts and tool schemas of the conversation machine.
- The backend, the shared types and the scaffolded providers, renderers and agents.
