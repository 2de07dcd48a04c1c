# webrtc-streamer: a verified model

This project models the part of webrtc-streamer that decides which peer is
connected to which stream, and what happens to video and audio on the way from
a camera to a peer, and proves what that part promises.

* **The registry** (`Registry`, `RegistryRuns`, `RegistryCapacity`,
  `RegistryThreads`, `RegistryRaces`, `RegistryBound`, `RegistryDrift`,
  `RegistryOrphans`, `RegistryLeaks`, `RegistrySerial`): the peer map and the
  stream map of `PeerConnectionManager`. First one request at a time, with the
  loops of the source working in place; then as a system of any number of
  threads that takes one step per section under the peer lock or the stream
  lock. Ownership of observers and sharing of sources hold under every
  interleaving; the capacity bound and the agreement of the two maps (labels in
  use are keys, keys are in use) do not: `RegistryRaces` gives runs that break
  each, and exact conditions name the steps that do. `RegistryBound` proves the
  bound for every interleaving in which one call at a time is between its
  search for a victim and its registration, and `RegistryDrift` that with two
  at a time there is no bound. `RegistryLeaks` says which observers are never
  deleted, and `RegistrySerial` that every serial run is one of the interleaved
  runs.
* **Video** (`AccessUnits`, `LiveVideoSource`, `VideoDecoder`, `DecoderQueue`,
  `EndToEnd`, `VideoScaler`, `NullCodec`): NAL units become delta frames and one
  key frame per buffer, travel through the decoder queue, and meet a decoder
  with a life cycle of its own. `EndToEnd` follows a key frame from its SPS to
  its decoder through every interleaving of capture, decoder thread and `Stop`.
* **Audio** (`LiveAudioSource`): chunks of any size become 10 ms segments for a
  changing set of sinks.
* **Text, arithmetic and time** (`OptionStrings`, `TrickleIce`, `ExtraHost`,
  `SessionPromise`, `Pacing`).

State that the source updates in place is a class whose methods are proved
equal to functions on values; the properties are lemmas about those functions
and about runs of them. What the libraries answer (whether a track attaches, a
decoder is made, an SPS parses, a candidate is accepted) and clock readings are
parameters, so every statement holds for every answer.

Where the code and its intention differ, the model follows the code:

* The empty peer id means "nobody" to the eviction, so a peer with that id is
  never evicted (`EmptyIdDefeatsTheBound`, `BoundAfterCall`).
* An offer whose streams cannot be added, and a call under a taken id, abandon
  their observer, which is then never deleted (`OfferLosesItsObserver`,
  `TakenIdLosesItsObserver`, `LostExactlyWhen`).
* A pair of null sources is kept in the stream map (`NullSourcesLeaveTheirLabel`,
  `ExactAfterCall`).
* The key frame of a buffer is posted after all its delta frames, and an SPS
  behind the IDR slice changes the decoder it meets (`LateSpsMismatch`,
  `KeyFrameMeetsItsFormat`).
* An audio segment is sent only when more than one segment is queued, so the
  last full segment waits (`NothingLost`).
* An option with an empty value at the very end of the string is dropped
  (`ParseUndoesPrint`), and configured options that do not end inside a non-empty
  value read differently once a request is appended (`AppendingWorksIffComplete`).
* The value of an `a=mid` line is cut at a fixed column wherever the attribute
  stands in the line (`CutAtFixedColumn`).
* The scaler passes a picture on uncropped, and not scaled to the configured size
  either, when only its width differs from the region and nothing is rotated
  (`CroppedExactlyWhen`, `HalfIsNotCropped`).
* A cancelled request can still see its promise fulfilled by the observer that
  a successful creation has spawned (`FulfilledAfterCancel`).

## Model

| member | source | states |
|---|---|---|
| `Registry.PeerConnectionManager.StreamStillUsed` | src/PeerConnectionManager.cpp:955-976 | True exactly when some registered peer has a sender whose first stream id is the label. |
| `Registry.PeerConnectionManager.HangUp` | src/PeerConnectionManager.cpp:981-1035 | Unregisters the peer, deletes its observer, and drops from the stream map exactly those of its labels that no remaining peer uses; every other peer, observer and entry is unchanged; true exactly when the peer was registered. |
| `Registry.PeerConnectionManager.GetOldestPeerConnection` | src/PeerConnectionManager.cpp:1174-1189 | Names, when the registry is full, a registered peer no younger than any other, of equally old ones the first in key order; and the empty id otherwise (also when no creation time is below the maximum of `uint64_t`). |
| `Registry.PeerConnectionManager.CreatePeerConnection` | src/PeerConnectionManager.cpp:1194-1242 | Hangs up the oldest peer of a full registry unless its id is empty, then makes an unregistered observer, or none without a factory. |
| `Registry.PeerConnectionManager.AddStreams` | src/PeerConnectionManager.cpp:1363-1434 | Leaves an existing stream entry alone and inserts the new source pair otherwise; each attached track gives the observer one sender under the label; the result counts a missing track object as success and a refused one as failure. |
| `Registry.PeerConnectionManager.GetAnswer` | src/PeerConnectionManager.cpp:837-919 | Evicts, creates, deletes the observer again if there is no connection, otherwise registers it under a new id only and then adds the streams, also when adding them fails. |
| `Registry.PeerConnectionManager.CreateOffer` | src/PeerConnectionManager.cpp:696-757 | Evicts, creates, adds the streams, and registers only if that worked. |
| `Registry.HangUpKeepsValid` | src/PeerConnectionManager.cpp:981-1035 | Hanging up keeps every map entry pointing at a live observer that carries the entry's own id. |
| `RegistryRuns.StillUsedAfterHangUp` | src/PeerConnectionManager.cpp:955-1035 | After a hangup a label is in use exactly when another peer used it before. |
| `RegistryRuns.ConnectedCall` | src/PeerConnectionManager.cpp:1363-1432 | After a call of either kind a label is in use exactly when it was after the eviction, or it is the call's label, its peer id is new and at least one track was attached. |
| `RegistryRuns.UsedAfterAnswer` | src/PeerConnectionManager.cpp:1383-1432 | Stated on the request: `getAnswer` puts the label to use if and only if the id is new and a video or an audio track is attached from the pair in the map, or else the pair just made. |
| `RegistryRuns.UsedAfterOffer` | src/PeerConnectionManager.cpp:1383-1432 | The same for `createOffer`. |
| `RegistryRuns.OneSenderPerTrack` | src/PeerConnectionManager.cpp:1397-1424 | Each attached track gives one sender under the label, and nothing else does. |
| `RegistryRuns.OfferRegistersExactlyWhen` | src/PeerConnectionManager.cpp:712-720 | An offer registers its observer if and only if the id is new and some source of the pair exists whose track was not refused; a missing track object counts as success. |
| `RegistryRuns.ExactAfterCall` | src/PeerConnectionManager.cpp:1363-1432 | From a stream map that holds exactly the labels in use, a call keeps it so if and only if its label was already in use, or its peer id is new and it attached a track. |
| `RegistryRuns.LabelsAreKeys` | src/PeerConnectionManager.cpp:955-1035 | In every serial run each label used by a registered peer is a key of the stream map. |
| `RegistryRuns.KeysAreLabels` | src/PeerConnectionManager.cpp:1008-1016 | In every serial run with new peer ids and at least one track per call the keys are exactly the labels of the registered peers. |
| `RegistryRuns.HangUpsUnregister` | src/PeerConnectionManager.cpp:981-1035 | Hanging up a list of peers removes exactly those and keeps the two maps in exact agreement. |
| `RegistryRuns.HangingUpEveryoneEmptiesBothMaps` | src/PeerConnectionManager.cpp:981-1035 | After such a run, hanging up everyone, in any order, empties the peer map and the stream map. |
| `RegistryRuns.NullSourcesLeaveTheirLabel` | src/PeerConnectionManager.cpp:1369-1381 | A pair of null sources is cached: its label is left in the stream map after the only peer hung up. |
| `RegistryCapacity.BoundAfterCall` | src/PeerConnectionManager.cpp:1174-1199 | A call breaks a bound that held before it if and only if the registry was full, the search answered the empty id and the call registered a new peer. |
| `RegistryCapacity.VictimIsHead` | src/PeerConnectionManager.cpp:1174-1189 | The peer evicted from a full registry is the head of the queue of peers in order of creation; a registry that is not full evicts nobody. |
| `RegistryCapacity.RunRefinesQueue` | src/PeerConnectionManager.cpp:1174-1199 | With a positive `maxpc`, non-empty ids and increasing creation times every serial run of calls and hangups refines a bounded queue: drop the head when full, append, remove by id. |
| `RegistryCapacity.NeverMoreThanMaxpc` | src/PeerConnectionManager.cpp:1174-1199 | In such a run the peer count never exceeds `maxpc`, and a call that meets a full registry removes its oldest peer. |
| `RegistryCapacity.EmptyIdDefeatsTheBound` | src/PeerConnectionManager.cpp:1196-1199 | With a bound of one, an oldest peer with the empty id is not evicted: two peers are registered. |
| `RegistryThreads.NextKeepsOwnership` | src/PeerConnectionManager.cpp:981-1035 | Every step of every thread keeps: each observer in the peer map or in a thread's sole care is live and has one keeper, and none was deleted twice. |
| `RegistryThreads.DeletedAtMostOnce` | src/PeerConnectionManager.cpp:981-1035 | Under every interleaving of hangups, evictions, ICE-failure threads and registrations each observer is deleted at most once, and no observer in the peer map has been deleted. |
| `RegistryThreads.RecordedThroughout` | src/PeerConnectionManager.cpp:1363-1381 | Under every interleaving the stream map is what its recorded history leaves, nothing is inserted over a present entry, and every attached track takes the entry that is present. |
| `RegistryThreads.OneSourcePairPerLifetime` | src/PeerConnectionManager.cpp:1363-1432 | Between the insertion of a label and its next erasure nothing is inserted under it, and all tracks attached under it share the inserted pair, also for threads that lost the race to create it. |
| `RegistryThreads.InUseAfterAttaching` | src/PeerConnectionManager.cpp:1383-1432 | Under interleaving, attaching to a registered observer puts exactly the label to use, and exactly when it is in the map and a video or an audio track is attached. |
| `RegistryThreads.AfterAttaching` | src/PeerConnectionManager.cpp:1397-1432 | One sender for each attached track; an offer goes on to its registration exactly when a source exists whose track was not refused. |
| `RegistryThreads.AgreementLostExactlyWhen` | src/PeerConnectionManager.cpp:1006-1016 | Under interleaving a step separates the two maps if and only if it erases a label that came into use after the check, or registers an offer one of whose labels was erased meanwhile. |
| `RegistryBound.BoundLostExactlyWhen` | src/PeerConnectionManager.cpp:856-860 | Under interleaving a step breaks a bound that held before it if and only if it registers a new peer in a full registry. |
| `RegistryBound.BoundHoldsIfSearchesAreSerial` | src/PeerConnectionManager.cpp:1174-1199 | In every interleaving in which at most one thread at a time stands between its search for the oldest peer and its registration, with non-empty ids and creation times below the maximum, the peer count never exceeds `maxpc`, whatever hangups, ICE-failure threads and other sections of calls happen in between. |
| `RegistryDrift.NoLimitWithTwoSearches` | src/PeerConnectionManager.cpp:1174-1199 | Under any positive `maxpc`, with never more than two threads between search and registration and whatever the clock shows, every number of peers is reached: one search at a time cannot be relaxed to two. |
| `RegistryLeaks.LostExactlyWhen` | src/PeerConnectionManager.cpp:712-720 | A step leaves a live observer without anybody responsible for it if and only if it registers under a taken id, or ends an offer whose streams could not be added; every other lost observer was lost before. |
| `RegistryLeaks.LostAreTheAbandoned` | src/PeerConnectionManager.cpp:696-757 | In every interleaving the live observers that are neither registered nor in a thread's care are exactly those abandoned by such an earlier step; they are never deleted. |
| `RegistryRaces.BoundFailsUnderInterleaving` | src/PeerConnectionManager.cpp:1196-1199 | A reachable state with a bound of one and two registered peers: both calls picked the same oldest peer. |
| `RegistryRaces.AgreementFailsUnderInterleaving` | src/PeerConnectionManager.cpp:1006-1016 | A reachable state in which a registered peer uses a label that is no longer in the stream map. |
| `RegistryRaces.KeyOrphanedUnderInterleaving` | src/PeerConnectionManager.cpp:1363-1432 | A reachable state with all threads finished, no peers, and a key in the stream map: the peer was hung up before its call added the streams. |
| `RegistryOrphans.OrphanedExactlyWhen` | src/PeerConnectionManager.cpp:1383-1432 | Under interleaving a step leaves a key that no registered peer uses and no thread is going to deal with if and only if nobody else uses or attends to it and the step attaches no sender under it to an observer that is registered or still awaited, or registers an observer that has it under a taken id. |
| `RegistryRaces.OfferLosesItsObserver` | src/PeerConnectionManager.cpp:712-715 | A reachable state in which an offer without sources is through and its observer is alive and nobody's. |
| `RegistryRaces.TakenIdLosesItsObserver` | src/PeerConnectionManager.cpp:856-860 | A reachable state in which a call under a taken id has left its observer alive and nobody's. |
| `RegistrySerial.HangsUp` | src/PeerConnectionManager.cpp:981-1035 | In the step system a thread that hangs up undisturbed, section by section, leaves the maps and the live observers exactly as one serial hangup does. |
| `RegistrySerial.PerformsAnswer` | src/PeerConnectionManager.cpp:837-919 | The same for an undisturbed call, from the search for a victim to the attached tracks. |
| `RegistrySerial.PerformsOffer` | src/PeerConnectionManager.cpp:696-757 | The same for an undisturbed offer, whose registration comes last. |
| `RegistrySerial.SerialRunsAreInterleavings` | src/PeerConnectionManager.cpp:837-1035 | Every state of every serial run is a reachable state of the step system, with the same maps, the same live observers, labels and creation times, so what holds under every interleaving holds of serial runs. |
| `AccessUnits.UnitsTileTheBuffer` | inc/livevideosource.h:109-185 | The units of a buffer, classified either way, hold every byte from the first start code on, once and in order. |
| `AccessUnits.H264Table` | inc/livevideosource.h:116-167 | By the type numbers of Table 7-1 of ITU-T H.264: 7 resets the cache and announces the size parsed behind the one-byte header (0 x 0 if unparsable), 8 extends it, 6 and empty units are ignored, 5 is an IDR slice, the rest are slices; each unit holds its bytes with the start code. |
| `AccessUnits.H265Table` | inc/livevideosource.h:194-240 | By the type numbers of Table 7-1 of ITU-T H.265: 32 resets, 33 extends and announces the size parsed behind the two-byte header, 34 extends, 19 and 20 are IDR slices, the rest are slices. |
| `AccessUnits.MessageTable` | inc/livevideosource.h:131-176 | What one unit posts at once: its announced format, or itself as a delta frame with the time of the buffer unless it is dropped, or nothing. |
| `AccessUnits.MessagesOfConcat` | inc/livevideosource.h:115-178 | Formats and delta frames are posted in the order of their units. |
| `AccessUnits.CacheFromLastReset` | inc/livevideosource.h:123-146 | The parameter-set cache is the last SPS followed by every later PPS (for H.265 the last VPS followed by every later SPS and PPS). |
| `AccessUnits.CacheIgnoresChunking` | inc/livevideosource.h:187-258 | Where the stream is cut into buffers makes no difference to the cache. |
| `AccessUnits.PostsOfABuffer` | inc/livevideosource.h:109-185 | A buffer posts the messages of its units in order and then, if it has an IDR slice, one key frame: the cache as it stood at the first IDR slice followed by all IDR slices in order. |
| `AccessUnits.NothingLostNothingTwice` | inc/livevideosource.h:109-185 | Without drops the delta frames are exactly the other slices in order, and a key frame exists exactly when there is an IDR slice, once and last. |
| `LiveVideoSource.LiveVideoSource.OnH264Data` | inc/livevideosource.h:109-185 | The loop leaves in the cache and appends to the queue what the assembly of the buffer's units says, including empty units, unparsable SPS and dropped slices. |
| `LiveVideoSource.LiveVideoSource.OnH265Data` | inc/livevideosource.h:187-258 | The same for the H.265 classification. |
| `LiveVideoSource.LiveVideoSource.OnData` | inc/livevideosource.h:303-334 | Chooses by the codec of the session; VP9 posts a format and one key frame, an unknown session is entered with an empty codec and posts nothing; the previous timestamp is the buffer's, as an unsigned number. |
| `LiveVideoSource.DroppedExactlyWhen` | inc/livevideosource.h:168-171 | A slice is dropped if and only if the decoder is FFmpeg, the previous timestamp is not zero, and the new one, negative ones wrapped around, is before it. |
| `LiveVideoSource.DropsFollowTheClock` | inc/livevideosource.h:332-332 | For timestamps that are not negative: dropped exactly with FFmpeg and a timestamp before that of the previous buffer. |
| `VideoDecoder.VideoDecoder.Turn` | inc/VideoDecoder.h:241-288 | One frame: a new format replaces the decoder, the same format keeps a live one, data is decoded by a live decoder only, a failed decode drops it. |
| `VideoDecoder.StoredIsLast` | inc/VideoDecoder.h:246-263 | Over every series of frames the stored format is the last one handled, and a live decoder was created for it. |
| `VideoDecoder.DecodedInOrder` | inc/VideoDecoder.h:265-286 | Decoded frames are an in-order subsequence of the non-empty frames taken, each decoded by a decoder created for the last format before it. |
| `VideoDecoder.NoDecoderAfterFailure` | inc/VideoDecoder.h:276-281 | After a failed decode there is no decoder until a format message is handled. |
| `VideoDecoder.FailureWaitsForFormat` | inc/VideoDecoder.h:276-281 | Between a failed decode and any later decode a format message was handled. |
| `VideoDecoder.DecodedExactlyWhen` | inc/VideoDecoder.h:246-286 | A frame taken is decoded if and only if it is not empty and an earlier format message brought a decoder that is still there: the name was H264, H265 or VP9, a decoder was made, and no other format and no failed decode has come since. |
| `VideoDecoder.BroughtIsAlive` | inc/VideoDecoder.h:255-281 | A format message that brought a decoder, with nothing since to take it away, has left one made for it. |
| `VideoDecoder.ResultsAreRecorded` | inc/VideoDecoder.h:277-281 | Each call of the decoder counts with its own result. |
| `VideoDecoder.NothingIsSkipped` | inc/VideoDecoder.h:264-286 | When decoders can be made and do not fail, every non-empty frame behind the first supported format is decoded. |
| `DecoderQueue.OrderThroughout` | inc/VideoDecoder.h:143-159 | However producers, thread and stop interleave, what was taken followed by what waits is what was posted, and the decoder state is that of the frames handled so far. |
| `DecoderQueue.DecodedAsPosted` | inc/VideoDecoder.h:229-288 | The decoder lifecycle stated over what was posted, under every interleaving. |
| `DecoderQueue.DecodedExactlyWhenPosted` | inc/VideoDecoder.h:229-288 | However the threads interleave, a posted frame the thread is done with has been decoded under exactly that condition on what was posted before it. |
| `DecoderQueue.ShutdownIsNotMissed` | inc/VideoDecoder.h:297-308 | After the stop flag is set at most one more frame is taken; once the sentinel is pushed the thread never waits on an empty queue, and once notified it does not sleep. |
| `DecoderQueue.ThreadLeaves` | inc/VideoDecoder.h:297-308 | Once notified the thread can always move until it is gone, each of its moves brings it closer, and nobody else sends it back: at most three moves. |
| `EndToEnd.UnitsAreWellFormed` | inc/livevideosource.h:109-258 | The units of any buffer are non-empty; in H.264 exactly the units that reset the cache announce a format, in H.265 none of those does. |
| `EndToEnd.FormatOfSession` | inc/livevideosource.h:123-141 | The last format a session has posted is the one announced last, for either codec. |
| `EndToEnd.KeyFrameMeetsItsFormat` | inc/livevideosource.h:109-185 | A key frame starts with the unit that had reset the cache last at its first IDR slice, and the last format posted before it is the one announced last at that slice if and only if the units behind the slice in the same buffer announce none, or end with the same one. |
| `EndToEnd.KeyFramesAreHeaded` | inc/livevideosource.h:109-258 | Where no resetting or announcing unit follows an IDR slice inside one buffer, every key frame of a session closes a buffer, starts with the unit that reset the cache last, and is preceded by the format announced last. |
| `EndToEnd.KeyFramesMeetTheirDecoder` | inc/VideoDecoder.h:241-288 | For either codec, however capture, decoder thread and stop interleave: a key frame starts with the latest unit that reset the cache (H.265 VPS, H.264 SPS) and is only ever decoded by a decoder created for the dimensions of the latest SPS up to its buffer. |
| `EndToEnd.H264KeyFramesMeetTheirSps` | inc/livevideosource.h:109-185 | For H.264: every key frame that is decoded has an SPS before it, starts with the latest one, and meets a decoder created for that one's dimensions. |
| `EndToEnd.LateSpsMismatch` | inc/livevideosource.h:109-185 | A buffer of three NAL units, SPS, IDR slice and SPS: the key frame starts with the first SPS and follows the format of the second. |
| `EndToEnd.H264BufferIsItsKeyFrame` | inc/livevideosource.h:109-185 | An H.264 buffer of an SPS, a PPS and an IDR slice of any lengths posts one format and one key frame that is the whole buffer, whatever the cache held. |
| `EndToEnd.H265BufferIsItsKeyFrame` | inc/livevideosource.h:187-258 | An H.265 buffer of a VPS, an SPS, a PPS and an IDR slice likewise. |
| `VideoScaler.VideoScaler.constructor` | inc/VideoScaler.h:25-83 | A region with no negative member whatever the options; other rotations than 90, 180 and 270 are none. |
| `VideoScaler.VideoScaler.OnFrame` | inc/VideoScaler.h:108-168 | Passes native buffers of any size on untouched; brings the region inside a frame of positive size, with positive size itself; crops a picture exactly when the clamped region is not the whole of it and is lower than it or a rotation is configured; never divides by zero. |
| `VideoScaler.CroppedExactlyWhen` | inc/VideoScaler.h:140-152 | A picture of which the region is only part is cropped if and only if the clamped region is lower than the picture or a rotation is configured; otherwise it goes on uncropped and unscaled; it is only scaled exactly when the region is the whole picture. |
| `VideoScaler.HalfIsNotCropped` | inc/VideoScaler.h:140-143 | The left half of a 640 x 480 picture, to be scaled to 160 x 120: the whole picture goes on at its own size. |
| `VideoScaler.RegionFollowsFrames` | inc/VideoScaler.h:110-138 | After any series of frames of positive size the region has positive size and lies inside the last one; a frame of the same size or larger leaves it unchanged. |
| `VideoScaler.ClampExactly` | inc/VideoScaler.h:110-138 | On either axis an offset inside the frame is kept and one beyond it becomes 0; an extent that is set and fits is kept, and one that is unset or too long reaches exactly the far edge. |
| `VideoScaler.ClampExtremes` | inc/VideoScaler.h:110-138 | An unconfigured region becomes the whole frame, so that nothing is cropped; a region inside the frame stays as it is. |
| `VideoScaler.ConfiguredSizes` | inc/VideoScaler.h:89-106 | With both sides configured the output has that size, with neither the size of the region. |
| `VideoScaler.RouteSizes` | inc/VideoScaler.h:146-157 | What is cropped is the clamped region, and what is cropped or scaled gets the size of the output buffer. |
| `VideoScaler.DerivedSideKeepsAspect` | inc/VideoScaler.h:89-106 | For a positive configured side the derived one keeps the aspect ratio up to a remainder smaller than the divisor. |
| `NullCodec.Forward` | inc/NullEncoder.h:42-89 | A frame handed to a null decoder passes the scaler and is sent exactly when both callbacks are registered and the format names agree, with its bytes, type and RTP time; H.264 packetization mode 1 is forwarded exactly when negotiated. The scaler is ready for the next frame, whatever the size of this one. |
| `NullCodec.ForwardIsTransparent` | inc/VideoScaler.h:140-143 | Decoder, scaler and encoder together: one frame is sent as it was or not at all, and the region follows its size. |
| `NullCodec.SentInOrder` | inc/NullDecoder.h:38-59 | For any log of decodes of the encoder's format, any configuration of the scaler and any region it starts from, every frame passes the scaler untouched: as many images leave as there were decodes, in that order, with the bytes and the types of the frames. |
| `NullCodec.TransparentThroughout` | inc/VideoDecoder.h:265-286 | However the threads interleave: if every posted format names the encoder's codec, the images that leave decoder, scaler and encoder are the frames given to a live null decoder, byte for byte, in posting order. |
| `NullCodec.NothingIsLost` | inc/VideoDecoder.h:264-286 | With callbacks registered, decoders made and one supported format name throughout: every non-empty frame behind the first format message, once the thread is done with it, has left the encoder with identical bytes and type. |
| `NullCodec.EncodeAnswers` | inc/NullEncoder.h:42-89 | Not registered, not a native buffer or another format, or sent: each answer exactly then, with the codec-specific information of the format. |
| `NullCodec.NarrowIsCongruent` | inc/EncodedVideoFrameBuffer.h:31-38 | The time of the image is the frame's modulo 32 bits, and the same if it fits. |
| `NullCodec.StampOnlyFillsIn` | inc/VideoDecoder.h:170-172 | A missing timestamp is filled in from the RTP time, any other kept; a null decoder's frame leaves with its own. |
| `LiveAudioSource.LiveAudioSource.RemoveSink` | inc/liveaudiosource.h:38-43 | Removes every occurrence of the sink and keeps the order of the others. |
| `LiveAudioSource.LiveAudioSource.OnData` | inc/liveaudiosource.h:82-146 | Queues what was decoded, hands segments of `freq / 100` samples for each channel to every sink in list order while more than one is queued, and keeps the leftover, at most one segment. |
| `LiveAudioSource.LoopEnds` | inc/liveaudiosource.h:131-146 | The loop ends if and only if the frequency is at least 100 and there is a channel, or nothing is queued. |
| `LiveAudioSource.HundredSegmentsAreASecond` | inc/liveaudiosource.h:85-85 | With a frequency that is a multiple of 100, a hundred segments hold exactly one second of every channel. |
| `LiveAudioSource.CutKeepsEverything` | inc/liveaudiosource.h:131-146 | Segments followed by the leftover are the queue, every segment is full, and the leftover is at most one segment and empty only for an empty queue. |
| `LiveAudioSource.ChunkingIsInvisible` | inc/liveaudiosource.h:114-146 | Segments sent and leftover depend on all that was fed, not on how it was cut into chunks. |
| `LiveAudioSource.NothingLost` | inc/liveaudiosource.h:114-146 | Over any run the segments followed by the queue are all decoded samples in order, unchanged by the detour through `uint16_t`; of T > 0 samples exactly floor((T - 1) / S) segments have gone out. |
| `LiveAudioSource.HearsWhileRegistered` | inc/liveaudiosource.h:141-145 | From any moment on, while its registrations are left alone, a sink hears every segment sent since, once for each registration. |
| `LiveAudioSource.EachSinkHearsItsStretch` | inc/liveaudiosource.h:32-43 | A sink that is removed and not added again has heard exactly the contiguous stretch of segments sent up to the removal, each once for each registration. |
| `LiveAudioSource.EverySinkHearsItsShare` | inc/liveaudiosource.h:141-145 | For every series of registrations, removals and segments each sink hears every segment as often as it is registered at the time, in order, and nothing else; an addition counts one more, a removal takes back all. |
| `LiveAudioSource.AddedOnce` | inc/liveaudiosource.h:32-43 | A sink added once and later removed has heard exactly what was sent in between, once each. |
| `LiveAudioSource.DeliveriesAreSends` | inc/liveaudiosource.h:131-146 | What one call delivers is a series of such sends. |
| `OptionStrings.ParseOptions` | src/PeerConnectionManager.cpp:1305-1312 | The nested line reading yields the map of the pairs the string stands for, later ones overriding earlier ones. |
| `OptionStrings.GetOptionValue` | src/PeerConnectionManager.cpp:245-254 | Returns the value of the first pair with the key, or the empty string. |
| `OptionStrings.ParseUndoesPrint` | src/PeerConnectionManager.cpp:1305-1312 | For keys without `=` and values without `&`, parsing undoes printing if and only if there are no pairs or the last value is not empty. |
| `OptionStrings.AppendingWorksIffComplete` | src/PeerConnectionManager.cpp:1292-1303 | Configured options followed by `&` and any request read as the one then the other if and only if the configured options end inside a non-empty value. |
| `OptionStrings.OptionsInEffect` | src/PeerConnectionManager.cpp:1292-1303 | A request without options has the configured ones, one that begins with `&` adds to them, any other has its own. |
| `OptionStrings.RequestOverridesConfig` | src/PeerConnectionManager.cpp:1292-1312 | Then the parsed map is the configured map overridden by the request's. |
| `OptionStrings.FirstIsLast` | src/PeerConnectionManager.cpp:245-254 | `getOptionValue` and the parsed map agree on every name if and only if, for each key, the first and the last pair with it carry the same value. |
| `OptionStrings.DistinctKeysAgree` | src/PeerConnectionManager.cpp:1305-1312 | In particular they agree when the keys are distinct. |
| `OptionStrings.RepeatedKeyDisagrees` | src/PeerConnectionManager.cpp:245-254 | A key given twice with different values: one takes the first, the other the last. |
| `TrickleIce.Patch` | src/PeerConnectionManager.cpp:446-475 | The candidates offered are those of the lines that parse and find their peer, and the status is 200 exactly when a candidate was applied or the end of candidates was seen, else 501. |
| `TrickleIce.AcceptedExactlyWhen` | src/PeerConnectionManager.cpp:446-475 | The status is 200 if and only if some line ends the candidates or is a candidate that was applied. |
| `TrickleIce.ClassifiedExactlyWhen` | src/PeerConnectionManager.cpp:453-473 | A line is taken for the first of the three attributes that stands in it with no null character before its end, and six or two characters are cut off its front. |
| `TrickleIce.ReturnsVanish` | src/PeerConnectionManager.cpp:452-452 | No carriage return is left in a line, nothing else is lost and the order stays. |
| `TrickleIce.OfferedUnderNearestMid` | src/PeerConnectionManager.cpp:451-457 | A candidate goes out under the mid of the nearest `a=mid` line before it, or under the empty mid if there is none. |
| `TrickleIce.OffersInOrder` | src/PeerConnectionManager.cpp:455-471 | Every offer stems from its own candidate line, in the order of the lines. |
| `TrickleIce.CutAtFixedColumn` | src/PeerConnectionManager.cpp:453-454 | The mid is cut at a fixed column: it is what follows the attribute if and only if the attribute starts the line. |
| `TrickleIce.ReadsFragment` | src/PeerConnectionManager.cpp:448-452 | A body of any length, with carriage returns or without and with a final newline or without, is read line by line as written, if and only if it does not end in an empty line without a newline. |
| `TrickleIce.EveryBodyIsAFragment` | src/PeerConnectionManager.cpp:448-452 | Every body is what its lines, read and written again, give. |
| `TrickleIce.CandidateGetsNearestMid` | src/PeerConnectionManager.cpp:446-475 | In any body a candidate at column 0 that parses and finds its peer is offered with the mid of the nearest `a=mid` line before it, and if it is applied the request succeeds. |
| `TrickleIce.CandidateOfRawLines` | src/PeerConnectionManager.cpp:446-475 | The same on the raw lines of a body whose lines end with carriage returns: the mid and the candidate come without them. |
| `TrickleIce.EndOfCandidatesSucceeds` | src/PeerConnectionManager.cpp:471-474 | Any body with an `a=end-of-candidates` line succeeds, whatever became of its candidates. |
| `ExtraHost.CandidateList.OnIceCandidate` | src/PeerConnectionManager.cpp:1440-1483 | Appends the candidate and, for a host candidate of at least seven tokens and a configured host, a copy with the address replaced. |
| `ExtraHost.OnlyTheAddressChanges` | src/PeerConnectionManager.cpp:1459-1473 | Re-tokenised, the injected candidate has the original tokens with only the address replaced, if and only if the host is free of white space. |
| `ExtraHost.InjectedExactlyWhen` | src/PeerConnectionManager.cpp:1457-1467 | A copy is made if and only if an extra host is configured, the candidate says "typ host" somewhere and has at least seven tokens. |
| `ExtraHost.TokensKeepEverything` | src/PeerConnectionManager.cpp:1460-1465 | The tokens hold all characters but white space, in order. |
| `ExtraHost.InjectionOnlyAdds` | src/PeerConnectionManager.cpp:1447-1482 | Without the injected entries the list is every candidate since the last clear, in order. |
| `ExtraHost.InjectedBehindOriginal` | src/PeerConnectionManager.cpp:1455-1481 | Each injected entry stands right behind the candidate it was made from, with its media section, and every candidate that qualifies has one. |
| `SessionPromise.FulfilledAtMostOnce` | inc/PeerConnectionManager.h:80-155 | In every order of callbacks and cancels the promise is fulfilled at most once, across the create observer and the set observer it spawns. |
| `SessionPromise.FulfilsExactlyWhen` | inc/PeerConnectionManager.h:88-141 | A step fulfils the promise if and only if an observer acts on a failure, or a set observer on a success with a description; a successful creation spawns the set observer; a callback after a cancel does nothing. |
| `SessionPromise.CancelIsFinal` | inc/PeerConnectionManager.h:88-114 | A cancelled request with no observer past its test of the flag and none spawned is never fulfilled any more. |
| `SessionPromise.LateFulfilment` | inc/PeerConnectionManager.h:130-138 | From every state of every run in which an observer has passed its test of the flag or has been spawned, cancelled or not, the run can go on to a fulfilment. |
| `SessionPromise.CancelledIsFulfillableIff` | inc/PeerConnectionManager.h:88-141 | After a cancel an unfulfilled promise can still be fulfilled if and only if an observer has passed its test of the flag or has been spawned. |
| `SessionPromise.FulfilledAfterCancel` | inc/PeerConnectionManager.h:130-138 | A run in which the creation succeeds, the request is cancelled, and the spawned observer fulfils the promise. |
| `Pacing.Pacer.OnFrame` | inc/VideoDecoder.h:175-191 | Sleeps the computed delay when it lies strictly between 0 and 1000 ms; with waiting on, at least the source time has then passed since the previous frame. |
| `Pacing.NotAheadIff` | inc/liveaudiosource.h:99-112 | Whatever the clock does, a paced frame is not done ahead of its source if and only if the computed delay is below 1000 ms. |
| `Pacing.SleepsNoLonger` | inc/VideoDecoder.h:175-186 | A paced frame sleeps just until the source time has passed, not at all for a delay of a second or more; other frames sleep the fixed time. |
| `Pacing.NeverAhead` | inc/VideoDecoder.h:175-191 | Over any run without such delays, at least the source time passes between any two frames. |

## Left out

- HTTP, WebSocket and Prometheus handlers, command-line parsing, statistics: I/O plumbing.
- The insides of WebRTC, live555, libyuv and librtmp. `FindNaluIndices` has the contract of Annex B of ITU-T H.264 (adjacent slices from the first start code to the end of the buffer); SPS parsing, codecs, SDP and candidate parsing are arbitrary answers.
- RTMP, V4L2, desktop, window and ALSA capture: device input.
- `sanitizeLabel` and the making of labels: a label is any string, and different streams may share one, as in the source.
- `RemoveTrackOrError` on an observer that is being hung up: it is unregistered and about to be deleted, so nobody reads its senders again.
- Raw observer pointers used outside the peer lock, such as the wait for ICE gathering: the locks do not protect them.
- Weak memory: the stop flag and the cancel flag are read and written in some sequential order.
- JPEG conversion, `onNewSession` and `getInitFrames`: init frames reach the model as further buffers.
- Monotone timestamps of posted delta frames: the source compares only with the previous buffer, so they need not be.
- The broadcaster and the WebRTC stack between scaler and encoder; a frame is assumed to reach the encoder as the scaler passed it on.
- Numbers that do not fit 32 bits in the scaler's and the audio source's products, and option values that are not numbers (`std::stoi` throws).
- Registry.PeerConnectionManager.CreateOffer: requires that a peer connection was made, because the source dereferences it without looking.
- Registry.PeerConnectionManager.AddStreams: the label, the options and the bitrate are not computed here; the lookup, the second look and the insertion follow each other without interference (they interleave in `RegistryThreads`).
- LiveVideoSource.LiveVideoSource.OnH265Data: requires that each unit has a byte to read and an SPS its two-byte header, because the source reads them without looking.
- LiveVideoSource.LiveVideoSource.OnData: whether the decoder thread holds an FFmpeg decoder at each unit is a parameter; the previous timestamp, which the source does not initialise, is a parameter of the constructor; the picture made from a JPEG buffer is not stated.
- LiveAudioSource.LiveAudioSource.OnData: requires that the loop ends (`LoopEnds` says exactly when); sinks do not come and go inside one call here, but do in `EverySinkHearsItsShare`.
- ExtraHost.CandidateList.OnIceCandidate: each entry carries a mark that tells injected ones apart, which the source does not store.
- TrickleIce.Patch: the lines of the body are computed by a function instead of a stream and read by another; `CreateIceCandidate`, the peer lookup and `AddIceCandidate` are one verdict per line.
- Pacing.Pacer.OnFrame: video and audio share one class; they differ in what happens without waiting (1 ms, or nothing). The source timestamp is taken after `Decoded` has replaced a missing one.
