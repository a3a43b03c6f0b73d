# Live transcription service: verified model

This project models the stateful core of a live transcription service for Nextcloud Talk calls and
proves, with Dafny, what that core keeps over every run and every interleaving. The service joins a
call as a signaling client, subscribes to each speaker's audio over WebRTC, resamples it, streams it to
a speech-to-text server, and broadcasts the returned tokens to the room as captions.

| file | what it models |
|---|---|
| `Captions.dfy` | the caption state machine of one speaker and the viewer who replays its broadcasts |
| `Transcriber.dfy` | the same in imperative form: token handling, flushes, shutdown drain, main select loop |
| `Backoff.dfy` | the bounded reconnect to the speech-to-text server, the unbounded one to the signaling server |
| `Resampling.dfy` | linear-interpolation resampling, over reals, and decimation at the live rates |
| `Chunking.dfy` | fixed-size chunking: its meaning, and the slice and its storage |
| `Decoding.dfy` | clamping and downmixing of decoded audio |
| `LossyQueue.dfy` | a bounded channel whose sender drops instead of waiting |
| `AudioPath.dfy` | the two-goroutine audio path as an interleaved state machine |
| `AudioLoop.dfy` | the audio goroutine's loops, shown to make only steps of that machine |
| `Encoding.dfy` | the little-endian sample encoding on the wire |
| `ModalClient.dfy` | the speech-to-text client: connection flags, read loop, and what of the server's text reaches a viewer |
| `Membership.dfy`, `ParticipantsForm.dfy` | who is a speaker in a room, and the closed form of a participants event |
| `Room.dfy` | the room and the WebRTC manager as objects whose maps are updated in place |
| `Registry.dfy` | the registry of rooms under concurrent join, leave and close |
| `Options.dfy`, `Sequences.dfy` | optional values; flattening and subsequences |

Each stateful class is proved against a step function on values (`Step`, `Next`, `Handle`, `Ran`, ...), and
the main results are lemmas about all runs of that function. Calls into libraries and the network enter as
inputs: whether a connect succeeds, what the clock reads, which ready arm a `select` takes, what other
goroutines do in between. In the interleaved machines an action that is not enabled changes nothing, so
a list of actions stands for any interleaving.

Times are integers in nanoseconds, counted for captions from Go's zero time, so a transcriber that has
broadcast nothing has `last == 0`. Samples and rates are reals. Where the code converts a JSON number to
an integer the model cuts towards zero, as Go does.

## Where the code and its own words differ

- `broadcastMinInterval` is documented as the minimum time between sends of partials. A flush tick may send
  one sooner: `Captions.EarlyTickBreaksInterval` gives the input, `Captions.SlowTickBreaksInterval` one that
  the recorded times hide, `Captions.IntervalKeptExactly` says exactly when the interval is kept.
- `lastBroadcast` is documented as the time of the last partial; finals set it too:
  `Captions.FinalMovesLastBroadcast` and `Captions.LastBroadcastExactly`.
- The design asks for at most five tries to reconnect to the signaling server (the specification's session
  resumption); the code retries without limit: `Backoff.SixthTryHappens` and `Backoff.FiveTriesExactly`.
- The specification asks for 200 ms chunks; the code never sends more than 80 ms (1920 samples):
  `AudioPath.ChunkIsSent` and `AudioPath.DesignedChunksExactly`.
- The multiplier cap of 60 is never reached (`Backoff.ReconnectSchedule`).
- The specification asks that a room that ends loses its peers; an update that ends the call for everyone
  is ignored: `Membership.EndedCallCanLeaveSpeaker` and `Membership.EndedCallKeepsSpeakers`.
- A room event can mark our own session internal while it stays a speaker:
  `Membership.RoomEventCanOverlap` and `Membership.RoomEventDisjointExactly`.
- A session's own entries decide its membership unless the room refuses it:
  `ParticipantsForm.RefusedAdditionLeftOut` and `ParticipantsForm.ClosedFormExactly`. Past the capacity the
  order of an event's entries decides who speaks: `ParticipantsForm.OrderMattersBeyondCapacity`.
- Pings are cut to whole seconds, so a participant can be stale before its last ping is ten minutes old:
  `Membership.StaleBeforeTenMinutes` and `Membership.StaleExactly`.
- `Manager.Close` can return with a room registered by a join that ran beside it:
  `Registry.JoinDuringCloseSurvives`, and `Registry.CloseEmptiesTheRegistry` says exactly when.

## Model

| member | source | states |
|---|---|---|
| `Captions.ViewerShowsSpokenPrefix` | pkg/session/transcriber.go:133-192 | For every run, a viewer replaying the broadcasts sees a prefix of all text spoken, and all of it iff nothing is held back; text is held back iff the pending utterance differs from the line shown |
| `Captions.FlushTickShowsAll` | pkg/session/transcriber.go:168-177 | After a flush tick everything handled so far is visible |
| `Captions.ShownTextNeverShrinks` | pkg/session/transcriber.go:133-192 | Text once shown is never withdrawn or changed by later events |
| `Captions.StepSends` | pkg/session/transcriber.go:133-192 | An event sends the whole utterance so far, as a final at an end marker and otherwise as a partial that is due, and records it; or it sends nothing |
| `Captions.StepShowsMore` | pkg/session/transcriber.go:133-192 | One event sends at most one broadcast, and it only extends what is visible |
| `Captions.StepExactly` | pkg/session/transcriber.go:133-192 | In figures: a token is sent iff 80 ms have passed since the recorded time and is held back otherwise; a tick leaves nothing held back; every kind of end marker sends what is pending and clears it |
| `Captions.UtterancesSnoc` | pkg/session/transcriber.go:134-145 | Cutting the event stream at its end markers reacts to one more event by closing the open tail, or not at all |
| `Captions.FinalsAreUtterances` | pkg/session/transcriber.go:133-192 | For every run the finals sent are exactly the event stream cut at every end marker with empty pieces left out; the pending text is the open tail |
| `Captions.ShutdownLeavesNothingPending` | pkg/session/transcriber.go:179-192 | After the final flush nothing is pending and all spoken text is settled in finals |
| `Captions.MarkerSettlesAll` | pkg/session/transcriber.go:134-145 | So after any end marker, a normal close included |
| `Captions.PartialsGrowIntoTheFinal` | pkg/session/transcriber.go:152-177 | Partials of one utterance are non-empty, strictly growing prefixes of the final that ends it |
| `Captions.RunGrows` | pkg/session/transcriber.go:152-177 | Consecutive broadcasts of one utterance extend each other in every run |
| `Captions.RunThrottles` | pkg/session/transcriber.go:158-165 | Under a monotone clock each token-driven partial comes a full interval after everything recorded before it |
| `Captions.WindowBound` | pkg/session/transcriber.go:158-165 | Counting bound on token-driven partials in any window of a throttled log |
| `Captions.ThrottlingBound` | pkg/session/transcriber.go:116-118 | In any window of length T at most T / 80 ms + 1 token-driven partials are sent, and all partials exceed that by at most one per flush tick |
| `Captions.IntervalKeptExactly` | pkg/session/transcriber.go:171-177 | Any two partials are sent a full interval apart, as documented, iff no flush tick sends held-back text too soon after the latest partial was sent, however long calls take |
| `Captions.EarlyTickBreaksInterval` | pkg/session/transcriber.go:171-177 | A concrete run that sends two partials 20 ms apart |
| `Captions.SlowTickBreaksInterval` | pkg/session/transcriber.go:171-177 | One that sends two partials 70 ms apart and records them 90 ms apart, because the second call is slow |
| `Captions.LastBroadcastExactly` | pkg/session/manager.go:37 | The recorded time is that of the latest partial, as documented, iff since then no end marker has closed an utterance at a later clock reading |
| `Captions.FinalMovesLastBroadcast` | pkg/session/transcriber.go:134-143 | A concrete run in which a final did |
| `Captions.NoSinkNoBroadcast` | pkg/session/transcriber.go:138-158 | Without a callback nothing is broadcast |
| `Captions.NoSinkKeepsText` | pkg/session/transcriber.go:182-185 | Without a callback neither close nor shutdown ends an utterance: what is pending is the text since the last final transcript |
| `Transcriber.CaptionTranscriber.HandleTranscript` | pkg/session/transcriber.go:133-166 | The method makes exactly one transcript step |
| `Transcriber.CaptionTranscriber.FlushPendingBroadcast` | pkg/session/transcriber.go:171-177 | The method makes exactly one tick step |
| `Transcriber.CaptionTranscriber.FlushPendingFinal` | pkg/session/transcriber.go:182-192 | The method makes exactly one end-marker step |
| `Transcriber.CaptionTranscriber.DrainOnShutdown` | pkg/session/transcriber.go:220-246 | For any order of ready arms the drain handles the trailing transcripts, then a shutdown; it leaves nothing pending, and the trailing text is settled after all text before it |
| `Transcriber.CaptionTranscriber.HandleClientError` | pkg/session/transcriber.go:59-88 | A normal close only finishes the utterance; another error only advances the bounded retry |
| `Transcriber.ArmExactly` | pkg/session/transcriber.go:49-70 | What each arm of the select does to the captions: a token grows the utterance, a final transcript, a normal close or a cancellation leaves none, a tick holds nothing back, other errors and audio change nothing |
| `Transcriber.ReceivedTextIsSpoken` | pkg/session/transcriber.go:43-95 | The caption machine is told all token text received over any schedule, the drain included, in order |
| `Transcriber.ErrorsExactly` | pkg/session/transcriber.go:59-88 | Every error received reaches the retry, in order, and nothing else does |
| `Transcriber.DrainSettles` | pkg/session/transcriber.go:220-246 | After a drain all text, what trailed in during it included, is in finals |
| `Transcriber.CaptionTranscriber.RunLoop` | pkg/session/transcriber.go:43-95 | For any schedule of ready arms the loop handles arms up to the first cancellation; captions and retry evolve as their step functions say, independently; what is settled and pending is the token text received |
| `Backoff.ReconnectSchedule` | pkg/session/transcriber.go:34-87 | The multiplier is 2^failures, below its cap; each retry sleeps 2^failures; the sleep since a success never exceeds 31 s |
| `Backoff.RetriedExactly` | pkg/session/transcriber.go:69-87 | A reconnect is tried iff the connection is lost, the close was no normal one and fewer than five tries failed since the last success |
| `Backoff.RetryDelays` | pkg/session/transcriber.go:34-87 | Five failing tries sleep 1, 2, 4, 8 and 16 s, and there is no sixth |
| `Backoff.FiveFailuresAbsorb` | pkg/session/transcriber.go:72-87 | After five consecutive failures no later error is answered by a retry |
| `Backoff.ReconnectHPB` | pkg/session/manager.go:214-246 | The k-th turn sleeps min(2^failed connects, 30) s; it ends at the first cancellation or the first connect and rejoin that succeed, and only then; the number of tries is that of the schedule |
| `Backoff.TriedExactly` | pkg/session/manager.go:218-245 | More than n turns are tried iff there are that many, none up to then is cancelled and none before succeeds |
| `Backoff.FiveTriesExactly` | pkg/session/manager.go:214-246 | The designed bound of five tries holds iff a success comes within five turns or a cancellation before the sixth |
| `Backoff.SixthTryHappens` | pkg/session/manager.go:218-236 | Six failing connects in a row are all tried |
| `Backoff.DelayMonotone` | pkg/session/manager.go:228-235 | Those delays never shrink and never exceed 30 s |
| `Backoff.DelayFigures` | pkg/session/manager.go:214-235 | The first delay is 1 s, each failed connect doubles it up to 30 s, a failed rejoin leaves it |
| `Resampling.Resampler.Resample` | pkg/audio/pipeline.go:196-227 | The loop stays in bounds and fills the output the specification function describes, for any positive ratio |
| `Resampling.OutputLength` | pkg/audio/pipeline.go:201-205 | The output has floor(n * out / in) samples, for any rates |
| `Resampling.ResampledWithin` | pkg/audio/pipeline.go:210-224 | The output never leaves the range of the input |
| `Resampling.ResampledMonotone` | pkg/audio/pipeline.go:210-224 | A non-decreasing input gives a non-decreasing output |
| `Resampling.ResampledBetween` | pkg/audio/pipeline.go:210-224 | Between neighbouring input samples the output moves from the one to the other in proportion to its position, and is held after the last |
| `Resampling.ResampledAffine` | pkg/audio/pipeline.go:210-224 | A straight line is reproduced exactly up to the last input position and held there after it |
| `Resampling.ResampledIdentity` | pkg/audio/pipeline.go:150-153 | At equal rates resampling is the identity, so the shortcut changes nothing |
| `Resampling.ProcessFrame` | pkg/audio/pipeline.go:145-161 | All three branches return the resampled frame and leave the input alone |
| `Resampling.LiveResamplingDecimates` | pkg/audio/pipeline.go:210-224 | At 48000 to 24000 output i is exactly input 2i and the clamp at the end never fires |
| `Resampling.SplitResamplingExact` | pkg/audio/pipeline.go:196-227 | Two frames may be resampled apart, whatever they hold, iff the first has even length or the second is empty |
| `Resampling.FramingShortfall` | pkg/audio/pipeline.go:196-227 | Frame by frame the output is shorter than for the whole stream by exactly floor(odd frames / 2) |
| `Resampling.EvenFramesDecimate` | pkg/audio/pipeline.go:196-227 | With even frames framing does not matter |
| `Chunking.ChunksConserve` | pkg/audio/pipeline.go:257-272 | Chunks followed by the residue are the samples, in order |
| `Chunking.ChunksFull` | pkg/audio/pipeline.go:264-269 | Every chunk is full and the residue is shorter than a chunk |
| `Chunking.ChunkAt` | pkg/audio/pipeline.go:264-269 | Chunk i is the i-th window of the samples, and there are as many as fit |
| `Chunking.AddTwice` | pkg/audio/pipeline.go:257-272 | Adding a then b gives the chunks and residue of adding both at once |
| `Chunking.FramingIndependent` | pkg/audio/pipeline.go:257-272 | Any run of adds emits and keeps what a single add of all the samples would |
| `Chunking.AddTerminatesExactly` | pkg/audio/pipeline.go:243-269 | The emitting loop ends iff sample rate times duration is at least 1000 |
| `Chunking.ChunkBuffer.constructor` | pkg/audio/pipeline.go:238-254 | A new buffer is empty with the computed chunk size |
| `Chunking.ChunkBuffer.Append` | pkg/audio/pipeline.go:261 | Appending in place or after reallocation adds the samples at the end |
| `Chunking.ChunkBuffer.Add` | pkg/audio/pipeline.go:257-272 | Emits the complete chunks, keeps the residue; chunks have storage of their own, and no chunk handed out before changes |
| `Chunking.ChunkBuffer.Flush` | pkg/audio/pipeline.go:275-288 | Returns a copy of what is buffered and empties the buffer, keeping its array |
| `Chunking.ChunkBuffer.Reset` | pkg/audio/pipeline.go:291-295 | Empties the buffer, keeping its array |
| `Decoding.ClampAndDownmix` | pkg/webrtc/manager.go:250-279 | Clamps the packet in place, returns what `Delivered` says, the mean of the clamped channels per instant, all in [-1, 1], for any channel count |
| `Decoding.ClampPrefix` | pkg/webrtc/manager.go:250-257 | Clamps exactly the decoded samples |
| `Decoding.ClampNearest` | pkg/webrtc/manager.go:252-256 | A clamped sample is the unique nearest point of [-1, 1] |
| `Decoding.AverageChannels` | pkg/webrtc/manager.go:270-277 | The nested loops average the channels, in bounds |
| `Decoding.MonoWithin` | pkg/webrtc/manager.go:271-277 | The mean of in-range channels is in range |
| `Decoding.MonoIsMean` | pkg/webrtc/manager.go:270-277 | A mono sample is the sum over all channels at its instant, divided by their number |
| `Decoding.StereoMean` | pkg/webrtc/manager.go:270-277 | For stereo, half the sum of left and right, which alternate |
| `Decoding.DeliveredWithin` | pkg/webrtc/manager.go:250-279 | Whatever a packet holds, what is delivered for it is in range |
| `LossyQueues.LossyQueue.Send` | pkg/hpb/client.go:445-450 | Sending never waits: the item is queued, or dropped iff the channel is full or the select takes its cancellation arm |
| `LossyQueues.LossyQueue.Receive` | pkg/session/manager.go:204-205 | Receiving takes the oldest item |
| `LossyQueues.LossyQueue.ReceivedInOrder` | pkg/modal/client.go:186-192 | What is received is an order-preserving part of what was offered, and all of it if nothing was dropped |
| `AudioPath.AudioInOrder` | pkg/session/transcriber.go:249-310 | For every interleaving the queues hold at most 120 frames and 25 chunks, and chunks are sent in the order they were produced |
| `AudioPath.AudioConserved` | pkg/session/transcriber.go:249-269 | For every interleaving each chunk is sent, queued, being enqueued or counted as lost, and chunks plus buffer are the consumed frames, decimated |
| `AudioPath.LosslessAudioIsDecimation` | pkg/session/transcriber.go:249-269 | With nothing lost and even frames, sent and waiting audio is the 2:1 decimation of all frames consumed |
| `AudioPath.LossesExactly` | pkg/session/transcriber.go:285-310 | All frames offered are consumed or queued iff none met a full queue; all chunks are sent or waiting iff none was dropped, abandoned, refused as a tail or failed to be sent |
| `AudioPath.UndroppedAudioArrives` | pkg/session/transcriber.go:249-310 | With no such event and even frames, all audio offered is there, decimated and in order |
| `AudioPath.RoomIsUsed` | pkg/session/manager.go:606-622 | 120 frames and 25 chunks are kept: what finds fewer waiting joins the end of its queue |
| `AudioPath.NeverStuck` | pkg/session/transcriber.go:98-114 | In every interleaving the goroutine has a move unless it has stopped or, not cancelled, waits for a frame |
| `AudioPath.DrainedBeforeFlush` | pkg/session/transcriber.go:271-281 | It turns to its tail only once cancelled and with no frame waiting; if no frame was refused it has then consumed all that arrived |
| `AudioPath.CancelledExactly` | pkg/session/transcriber.go:102-106 | The path is cancelled iff somebody cancelled it |
| `AudioPath.TailExactly` | pkg/session/transcriber.go:285-296 | The tail is what is buffered, is queued iff it is not empty and there is room, and ends the goroutine |
| `AudioPath.StoppedHoldsNothing` | pkg/session/transcriber.go:271-296 | Once the audio goroutine has stopped it holds nothing back |
| `AudioPath.SentChunkSizes` | pkg/session/transcriber.go:283-296 | Every chunk sent has 1920 samples, except a non-empty tail after the goroutine has stopped |
| `AudioPath.DesignedChunksExactly` | pkg/session/transcriber.go:283-296 | All chunks sent hold 4800 samples, as designed, iff none was sent |
| `AudioPath.ChunkIsSent` | pkg/session/transcriber.go:249-310 | A run that sends one chunk, of 1920 samples |
| `AudioPath.SentSamplesInRange` | pkg/session/transcriber.go:249-268 | If every frame lies in [-1, 1], so does every sample in any queue and every sample sent |
| `AudioPath.DecodedAudioInRange` | pkg/webrtc/manager.go:250-279 | From packet to wire: whatever the decoder wrote, every sample sent lies in [-1, 1] |
| `AudioPath.TakeFrameKeeps` | pkg/session/transcriber.go:249-269 | Taking a frame keeps order, bounds and conservation |
| `AudioPath.StepKeeps` | pkg/session/transcriber.go:249-310 | So does every other atomic step |
| `AudioLoop.AudioTranscriber.OnAudio` | pkg/session/manager.go:616-622 | The decoder's callback is one arrival step |
| `AudioLoop.AudioTranscriber.SendAudioChunk` | pkg/session/transcriber.go:313-348 | Handling the audio arm is one send step |
| `AudioLoop.ChunkOfferedKeeps` | pkg/session/transcriber.go:299-310 | A chunk is queued when there is room and dropped when there is none; once cancelled the rest may be given up; frames and buffer stay as they are |
| `AudioLoop.AllChunksQueued` | pkg/session/transcriber.go:299-310 | Left alone and not cancelled the loop queues all chunks that fit, in order |
| `AudioLoop.ChunksOfferedKeeps` | pkg/session/transcriber.go:299-310 | With anything happening in between, offering makes only steps of the machine and touches no frame and no buffer |
| `AudioLoop.AudioTranscriber.EnqueueAudioChunks` | pkg/session/transcriber.go:299-310 | With anything happening in between, the loop does exactly what `ChunksOffered` says and leaves no chunk in its hands |
| `AudioLoop.FrameProcessedExactly` | pkg/session/transcriber.go:249-269 | Whatever others do meanwhile, one turn takes exactly the oldest frame, cuts the full chunks of the buffer followed by its resampling, and keeps the rest; it is made of steps of the machine |
| `AudioLoop.AudioTranscriber.ProcessInputFrame` | pkg/session/transcriber.go:249-269 | The method does exactly that: the oldest frame is consumed |
| `AudioLoop.AudioTranscriber.CutFrame` | pkg/session/transcriber.go:259-267 | Resampling and buffering one frame is one step of the machine |
| `AudioLoop.DrainEnds` | pkg/session/transcriber.go:272-281 | With no frame arriving the drain consumes the waiting frames in order and ends after one turn more than there are |
| `AudioLoop.DrainedKeeps` | pkg/session/transcriber.go:272-281 | Whatever arrives, what is consumed and waiting only grows at its end, and a drain that ends finds no frame waiting |
| `AudioLoop.AudioTranscriber.DrainAudioInput` | pkg/session/transcriber.go:272-281 | The drain does exactly what `Drained` says; when it ends the input is empty and all that was waiting has been consumed, in order |
| `AudioLoop.AudioTranscriber.FlushAudioCacheTail` | pkg/session/transcriber.go:285-296 | Flushing is one step of the machine: the tail is offered once and the buffer is empty afterwards |
| `AudioLoop.PlayedContinues` | pkg/session/transcriber.go:98-114 | What others do in between is a continuation of the run of the machine |
| `AudioLoop.OneFramePerTurn` | pkg/session/transcriber.go:98-114 | While not cancelled and fed, the goroutine takes exactly one frame per turn and does not stop |
| `AudioLoop.CancellationStops` | pkg/session/transcriber.go:104-107 | Once it sees the cancellation and no frame arrives any more it stops, after 121 turns of the drain at the latest, having consumed all that waited and flushed its tail |
| `AudioLoop.RanKeeps` | pkg/session/transcriber.go:98-114 | For any schedule it makes only steps of the machine |
| `AudioLoop.AudioTranscriber.ProcessAudioLoop` | pkg/session/transcriber.go:98-114 | For any schedule the goroutine does exactly what `Ran` says, keeps bounds, order and conservation, takes one frame per turn while fed, and has cut all it consumed once stopped |
| `Encoding.SendAudio` | pkg/modal/client.go:232-238 | The loop writes the encoding of the samples |
| `Encoding.RoundTrip` | pkg/modal/client.go:234-238 | Decoding recovers every binary32 bit pattern |
| `Encoding.LittleEndian` | pkg/modal/client.go:234-238 | The four bytes of a sample are its bit pattern, least significant first |
| `Encoding.EncodeConcat` | pkg/modal/client.go:234-238 | Encoding distributes over concatenation |
| `Encoding.ByteStreamIgnoresChunking` | pkg/modal/client.go:234-240 | The byte stream does not depend on chunk boundaries and carries every sample |
| `ModalClient.ViewerSeesServerText` | pkg/modal/client.go:176-206 | From the read loop's inputs to the viewer, through the bounded channel: a viewer sees a prefix of the server's token texts with some dropped; nothing is invented, repeated or reordered |
| `ModalClient.MarkersCarryNoText` | pkg/modal/client.go:194-206 | No end marker ever put on the channel carries text |
| `ModalClient.MessagesConverted` | pkg/modal/client.go:175-206 | Each token and each end of speech stands for one transcript, at its place among them |
| `ModalClient.ConversionExactly` | pkg/modal/client.go:175-206 | The transcripts carry all token text and nothing else, and one end marker per end of speech |
| `ModalClient.AllKept` | pkg/modal/client.go:186-192 | As long as no more than 50 are waiting and nothing is cancelled, all of them are on the channel |
| `ModalClient.TextsSubsequence` | pkg/modal/client.go:178-206 | Dropping transcripts drops texts and keeps their order |
| `ModalClient.Client.Connect` | pkg/modal/client.go:75-134 | Connects, or changes nothing |
| `ModalClient.Client.Close` | pkg/modal/client.go:261-274 | Afterwards the client is not connected |
| `ModalClient.Client.SendAudio` | pkg/modal/client.go:224-241 | Hands over the encoding of the whole chunk when connected and nothing otherwise; succeeds iff connected and the write succeeds |
| `ModalClient.Client.ReadLoop` | pkg/modal/client.go:137-221 | Offers each message's transcript once, in order, through the first read failure or message met by a cancellation; each is on the channel iff fewer than 50 waited and it met no cancellation; disconnects exactly on a failure |
| `Membership.CallFlagsExactly` | pkg/session/manager.go:392-399 | The flags are the integer next to the inCall number towards zero, an integer as it is, and 0 when it is absent or no number |
| `Membership.VerdictExactly` | pkg/session/manager.go:346-420 | Whom an entry admits, drops, marks internal or leaves alone, as equivalences over its JSON, ping and internal mark |
| `Membership.HangingUpDrops` | pkg/session/manager.go:416-417 | An entry whose flags are zero, missing or no number drops its session |
| `Membership.EntryDescribes` | pkg/session/manager.go:356-410 | Session, user and name of an entry: the first of displayname, displayName and userId that is not empty |
| `Membership.StaleExactly` | pkg/session/manager.go:377-390 | A participant is stale iff the true age of its last ping exceeds 600 s less the fraction of a second cut off: always above 600 s, never up to 599 s or without a positive ping |
| `Membership.StaleBeforeTenMinutes` | pkg/session/manager.go:377-390 | A ping 599.25 s old that is stale |
| `Membership.TruncateTowardsZero` | pkg/session/manager.go:392-399 | Number conversion drops the fraction and keeps the sign |
| `Membership.RunAgrees` | pkg/session/manager.go:194-211 | For every run speakers, Modal clients and peers have the same keys, at most 100, and every peer created is in the map and open or was closed exactly once |
| `Membership.AddSpeakerRollsBack` | pkg/session/manager.go:551-589 | An addition never overwrites a live peer; a peer is created iff the session does not speak, fewer than 100 do and the library succeeds; a failed addition changes no map and closes the peer it made; a session that speaks keeps its record |
| `Membership.HandleAgrees` | pkg/session/manager.go:249-264 | Every message keeps the agreement |
| `Membership.RemovePeerAccounts` | pkg/webrtc/manager.go:356-373 | Removing a peer keeps every peer's account: open in the map, or closed once |
| `Membership.CreatePeerAccounts` | pkg/webrtc/manager.go:76-125 | So does creating one for a session without a peer |
| `Membership.LeavingClosesEveryPeerOnce` | pkg/session/manager.go:705-730 | After any run and a leave with no handler in flight, every peer ever created was closed exactly once and all maps are empty |
| `Membership.ParticipantsExactly` | pkg/session/manager.go:322-344 | Which entries count: none for a nil update or the end of the call, else the users, or the changed ones if none are listed |
| `Membership.RoomEventExactly` | pkg/session/manager.go:294-310 | A room event removes exactly the sessions that leave and marks exactly our own that join |
| `Membership.ByeExactly` | pkg/session/manager.go:543-548 | A bye removes exactly its session; a reconnect changes nothing |
| `Membership.ParticipantsKeepDisjoint` | pkg/session/manager.go:361-421 | Participants events keep speakers and internal sessions apart |
| `Membership.RoomEventDisjointExactly` | pkg/session/manager.go:294-310 | A room event does so iff each session of ours that joins is no speaker or leaves in the same event |
| `Membership.RoomEventCanOverlap` | pkg/session/manager.go:294-310 | A run of two messages after which they overlap: the bot is admitted as a participant, then seen joining as our own session |
| `Membership.EndedCallKeepsSpeakers` | pkg/session/manager.go:329-335 | After an update that ends the call nobody is left speaking iff nobody was before, and no peer is closed |
| `Membership.EndedCallCanLeaveSpeaker` | pkg/session/manager.go:329-335 | A run after which the call has ended and a speaker with an open peer remains |
| `Membership.InternalForever` | pkg/session/manager.go:294-303 | Once internal, a session stays internal and never becomes a speaker, across any messages and reconnects |
| `ParticipantsForm.ClosedForm` | pkg/session/manager.go:346-421 | When the libraries succeed and the speakers with the sessions asked for fit into the room, a session's membership is the fold of its own entries, however many others the event lists |
| `ParticipantsForm.ClosedFormExactly` | pkg/session/manager.go:346-421 | For every event: internal marks are the fold of a session's own entries; so is its membership, iff its last entry that is not ignored is not a refused addition; otherwise it merely does not speak |
| `ParticipantsForm.RefusedAdditionLeftOut` | pkg/session/manager.go:346-421 | An event with one entry that admits its session, after which the session does not speak because its peer could not be created |
| `ParticipantsForm.OrderAcrossSessionsIrrelevant` | pkg/session/manager.go:346-421 | Events telling each session the same have the same outcome however they interleave sessions, when no addition is refused |
| `ParticipantsForm.OrderMattersBeyondCapacity` | pkg/session/manager.go:551-562 | Two orders of one event with 101 distinct sessions after which different sessions speak |
| `ParticipantsForm.MarksExactly` | pkg/session/manager.go:361-372 | For every event, whatever is refused, the internal sessions are the old ones and those some entry marks |
| `ParticipantsForm.MarksIgnoreOrder` | pkg/session/manager.go:361-372 | For every event, whatever is refused, order across sessions does not matter for the internal marks |
| `ParticipantsForm.RepeatedEventKeepsMarks` | pkg/session/manager.go:361-372 | Nor does repeating the event |
| `ParticipantsForm.PermutedEventSameOutcome` | pkg/session/manager.go:346-421 | Entries of distinct sessions may come in any order |
| `ParticipantsForm.RepeatedEventChangesNothing` | pkg/session/manager.go:346-421 | Repeating an event at the same time changes neither speakers nor internal sessions |
| `ParticipantsForm.RepeatedEventTouchesNothing` | pkg/session/manager.go:346-421 | With no session listed twice, repeating it opens and closes no peer either |
| `ParticipantsForm.OtherSessionUntouched` | pkg/session/manager.go:346-421 | An entry never affects another session's membership, name, client or peer |
| `Room.WebRTCManager.CreatePeer` | pkg/webrtc/manager.go:76-125 | Creates and maps a new peer, or changes nothing on failure |
| `Room.WebRTCManager.RemovePeer` | pkg/webrtc/manager.go:356-373 | Closes and unmaps the peer, if there is one |
| `Room.WebRTCManager.Close` | pkg/webrtc/manager.go:386-398 | Closes every mapped peer once, in any order, and empties the map |
| `Room.Room.AddSpeaker` | pkg/session/manager.go:551-663 | The method makes exactly the addition step, refusals and roll-back included |
| `Room.Room.RemoveSpeaker` | pkg/session/manager.go:667-692 | The method makes exactly the removal step |
| `Room.Room.HandleEntry` | pkg/session/manager.go:346-421 | One turn of the entry loop does what the entry's verdict says |
| `Room.Room.HandleParticipantsEvent` | pkg/session/manager.go:322-422 | The method handles nil updates, the end of the call, and the chosen list of entries in order |
| `Room.Room.HandleRoomEvent` | pkg/session/manager.go:294-310 | Joins mark our own sessions, then leaves remove speakers |
| `Room.Room.HandleBye` | pkg/session/manager.go:543-548 | A bye removes the speaker |
| `Room.Room.TearDown` | pkg/session/manager.go:708-725 | Leaves nothing in the room and every peer closed exactly once |
| `Registry.ClientsClosedAtMostOnce` | pkg/session/manager.go:694-730 | For every interleaving of joins, leaves and closes no signaling client is closed twice, registered ones are open, and every opened one is registered, being torn down or closed once |
| `Registry.NextKeeps` | pkg/session/manager.go:695-730 | Every lock-level step keeps each client in exactly one of these fates |
| `Registry.OneStepOnClients` | pkg/session/manager.go:131-162 | A join of a new token creates one client, which fails iff its connect does and is closed at once iff a later step of the join fails; only a leaver starts a teardown |
| `Registry.OpenedClientsAccounted` | pkg/session/manager.go:131-162 | When every connect succeeds every client created is registered, being torn down or closed once |
| `Registry.RegisteredRoomStays` | pkg/session/manager.go:125-129 | A registered token keeps its room, however often it is joined, until a leaver takes it |
| `Registry.CloseEmptiesTheRegistry` | pkg/session/manager.go:773-787 | Whatever runs beside it, when `Close` returns the registry holds exactly the tokens that a join registered after the snapshot and nobody took out again, so it is empty iff there are none; every older client that was opened is closed, unless somebody else is still tearing it down |
| `Registry.CloseClosesItsClients` | pkg/session/manager.go:773-787 | In particular, with no other leaver every older client is closed when it returns |
| `Registry.EveryCloseCanReturn` | pkg/session/manager.go:773-787 | From any state, `Close` can go on to its return |
| `Registry.CloseAmongLeaversEmpties` | pkg/session/manager.go:773-787 | In particular it is empty when no join interleaves |
| `Registry.RegisteredAfterRun` | pkg/session/manager.go:121-182 | After any interleaving a token is registered iff some join left it behind, or it was registered before and never taken |
| `Registry.JoinDuringCloseSurvives` | pkg/session/manager.go:773-787 | A concrete interleaving in which a joined room outlives `Close` |
| `Registry.Manager.JoinRoom` | pkg/session/manager.go:121-182 | The method makes exactly the join step and returns the registered room |
| `Registry.Manager.LeaveRoom` | pkg/session/manager.go:695-730 | Takes the room out, closes its client once, and fails without effect on an unknown token |
| `Registry.Manager.Close` | pkg/session/manager.go:773-787 | Run alone, it ends with an empty registry and every client that was registered closed once |

## Left out

- Rounding: samples, ratios and positions are reals, so float32 and float64 rounding is not captured. At the live rates every position is exact in float64 as well.
- Captions.IntervalKeptExactly: a token's callback is taken to be called at the clock reading that precedes it, because only a comparison lies in between.
- Membership.TruncateTowardsZero: does not cover floats outside the integer range, whose conversion Go leaves to the implementation.
- Resampling.ProcessFrame: takes the rates as parameters, because the pipeline object's other fields are not part of this model.
- AudioLoop.AudioTranscriber.ProcessAudioLoop: uses the chunk buffer's meaning on values (`Chunks`, `Residue`), because `Chunking.ChunkBuffer` already ties the stored form to it.
- AudioLoop.AudioTranscriber.DrainAudioInput: is run against a finite schedule, so it may return with frames still arriving; `AudioLoop.DrainEnds` says when it ends, and a decoder that never pauses can keep it busy.
- Backoff.ReconnectHPB: is run against a finite schedule of answers, because the loop has no bound of its own.
- Registry.Manager.Close: is the sequential form; concurrent closes are covered by `Registry.CloseEmptiesTheRegistry`.
- Speaker and peer agreement while a leave overlaps a handler in flight: the code does not establish it.
- A service-wide speaker bound: the code does not enforce one.
- Liveness: that goroutines exit, that waits return, that a disconnect is always answered, all depend on library blocking and scheduling.
- ModalClient.Client.Connect: the read loop it starts is run by the caller, and overlapping read loops of successive connections are not modelled.
- JSON parsing of server messages, the signaling client's hello variants and URL derivation: plumbing around the modelled channels.
- `Pipeline.Start` and its int16 conversion: not on the live path, which calls `ProcessFrame` only.
- Logging, level metering, the wire form of captions and signaling messages, WebRTC negotiation, the HTTP API and the configuration.
