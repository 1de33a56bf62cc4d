# Building Blocks: a verified model

A Dafny model of the parts of the Building Blocks firmware whose correctness is a matter of
interleavings, of text that must survive a round trip, or of whole histories: the frame pools and the
three-thread audio pipeline on top of them, the message bus, the persisted records and files, the two
JSON writers and the JSON reader, and the A/B boot slots. `dafny verify dfyconfig.toml` verifies every
file.

## How the code is modelled

**Frame pools** (`SpRing`, `MpPool`, `FramePool`). Every atomic operation of `libbb/bb_pool.c` is one
step of a state machine; a thread's program counter carries the index values it loaded, stale or not.
The properties hold in every interleaving of the steps; sequentially consistent atomics, the C
default, make interleaving the right meaning. The indices are unbounded integers. `FramePool` has the
operations again as methods over shared state, with arbitrary steps of the other threads in each gap.

**Audio pipeline** (`AudioStream` and the other `Audio` files). The loops of the three threads and
`bb_audio_stream_stop` are program-counter steps over both pools. A device read or write returns
anything it may: an xrun, another error, or any number of frames up to one period. Byte counts and
counters wrap at 32 bits as in the code; a valid configuration is one whose period fits 32 bits. The
store of the error flag is merged with the step that leaves the loop. A stream that has been stopped
can be started again, any number of times: flags and counters are reset, both pools stay as they are.
What the last run left behind is therefore part of the next one, and `CleanStart` says when that does
harm. Because the counters wrap and start from zero again, `pb_frames <= cap_frames` is stated for a
first start and for as long as the capture total has not passed 2^32 frames, about a day at 48 kHz;
after a later start playback can be ahead by what was captured and not yet played before, and the
totals over all starts never cross.

**Message bus** (`LineBuffer`, `BusText`, `Broker`, `BusDaemon`, `BusClient`, `BusRoundTrip`,
`BusHistory`). The line buffer is an array cut and shifted in place, proved against one function that splits a text at
newlines. The subscription table is proved against a set of (pattern, descriptor) pairs. The C
strings of the protocol are sequences without NUL; `recv` delivers the stream in arbitrary chunks.
Three limits of the code are stated rather than hidden: a topic of more than 127 characters is stored
truncated, so that every SUB inserts it again, and from then on a client gets a copy for every entry
that lists it and an UNSUB takes it out of one entry only; a payload of white space only is dropped by the
daemon, because its `sscanf` finds no second word; and the receive buffer of `bb_bus_poll` is static,
one for all connections of a process and kept across reconnects, so that a new stream is read behind
whatever was left in it. What the buffer kept is a parameter of the results about receiving.

**Records and files** (`Crc`, `CrcRemainder`, `MfgRecord`, `TextLines`, `ConfigFile`, `ConfigStore`, `BootLog`). A
32-bit word and a byte are sequences of their bits, lowest first, so that a little-endian field is the
bits of its bytes one after the other; the CRC is a linear, invertible step on them, and the remainder
of a division of polynomials modulo 2 (`CrcRemainder`). A file is its text; `fgets` cuts it into lines of at most 511 (255) characters, and the string
functions see each line up to its first NUL. The rewrite of a configuration file goes through file
operations that record what the name stood for after each one.

**JSON** (`Json`, `JsonCode`, `JsonBuilder`, `JsonEscape`, `GpioForm`). The text of an object is
defined on its own; the buffer writer is proved to produce it, and the substring search of the
getters is characterised on it completely. A write of the buffer writer beyond its buffer, where the
room left wraps around, only sets a mark: what it hits is not modelled. The one-flag builder is compared
with a builder that keeps a flag for every level and with the rendering of a tree. The numbers of a
form are accumulated in an int that wraps around; C leaves the overflow undefined.

**Boot slots** (`BootSlots`). The boot script, the handshake service and the installer are
transitions of one machine; its histories are sequences of boots, handshakes and installs.

## Model

| member | source | states |
|---|---|---|
| SpRing.StepInv | libbb/bb_pool.c:69-105 | Every atomic step keeps: each owned frame has one owner, refcounts say exactly which frames are owned, queued and held frames keep their committed contents, stale indices stay within bounds |
| SpRing.RunInv | libbb/bb_pool.c:69-105 | The invariant holds after every interleaving |
| SpRing.Fifo | libbb/bb_pool.c:69-105 | From an empty ring, in every interleaving: the dequeued contents are a prefix of the committed ones, and 0 <= r <= w <= r + count |
| SpRing.ExclusiveFrames | libbb/bb_pool.c:69-100 | A queued or held frame still has its committed contents and is never the frame the producer fills |
| SpRing.CheckPasses | libbb/bb_pool.c:95-98 | The refcount test of dequeue never fails |
| SpRing.StepSingleHolder | libbb/bb_pool.c:89-105 | A consumer that releases before it dequeues again holds at most the frame just before the read index |
| SpRing.TakeRefusal | libbb/bb_pool.c:91-93 | The window test of dequeue refuses exactly a ring that was empty when the write index was loaded |
| SpRing.WindowRefusal | libbb/bb_pool.c:71-74 | The window test of acquire refuses exactly a ring that is full at that moment, although its write index may be old |
| SpRing.CasRefusal | libbb/bb_pool.c:76-81 | The compare-and-swap of acquire fails exactly when the consumer holds a frame and the ring is one short of full; it is then that frame |
| SpRing.FramesConserved | libbb/bb_pool.c:69-105 | The frames in use number queued + held + owned by the producer: none leaks and none counts twice |
| MpPool.StepInv | libbb/bb_pool.c:109-150 | Every step of any producer or of the consumer keeps ownership, mutex discipline, the scan's success, no lost wakeup and the counting equation |
| MpPool.RunInv | libbb/bb_pool.c:109-150 | The same over whole runs |
| MpPool.PendingCountsFrames | libbb/bb_pool.c:119-142 | In every run with any number of producers: published frames not held by the consumer = mp_pending + enqueues between their two bumps; mp_pending is never negative |
| MpPool.DequeueNeverNull | libbb/bb_pool.c:134-145 | The scan always finds a frame: the NULL exit cannot be reached |
| MpPool.WaitingMeansEmpty | libbb/bb_pool.c:119-132 | If the consumer waits with work pending, the mutex owner is just about to signal: no wakeup is lost |
| MpPool.FramesConserved | libbb/bb_pool.c:109-150 | The frames in use number filled by producers + published + held by the consumer |
| FramePool.SharedRing.ConsumerRuns | libbb/bb_pool.c:89-105 | Whatever the consumer does in a gap, the producer's index, frame contents and log are untouched and the read index does not go back |
| FramePool.SharedRing.ProducerRuns | libbb/bb_pool.c:69-87 | Whatever the producer does in a gap, the consumer's index and log are untouched and the commit log only grows |
| FramePool.SharedRing.SpAcquire | libbb/bb_pool.c:69-82 | A returned frame is the one at the write index, owned; it succeeds whenever two frames were not queued at the call, whatever the consumer does meanwhile |
| FramePool.SharedRing.TestWindow | libbb/bb_pool.c:71-74 | The two loads let the call go on exactly when the ring is not full at the second load |
| FramePool.SharedRing.ClaimFrame | libbb/bb_pool.c:76-81 | The swap fails exactly when a frame is held and the ring is one short of full |
| FramePool.SharedRing.SpCommit | libbb/bb_pool.c:84-87 | Commit appends the frame's contents to the log and moves the write index by one |
| FramePool.SharedRing.SpDequeue | libbb/bb_pool.c:89-100 | Returns a frame exactly when one was committed at the call, namely the oldest, with the contents it was committed with |
| FramePool.SharedRing.SpRelease | libbb/bb_pool.c:102-105 | Release frees the held frame and moves no index |
| FramePool.SharedPool.OthersRun | libbb/bb_pool.c:109-150 | Whatever the others do, a producer's own program counter does not move |
| FramePool.SharedPool.MpAcquire | libbb/bb_pool.c:109-117 | A returned frame was free when it was looked at, all before it were in use when they were, and it belongs to this producer alone; NULL comes back exactly when every frame was in use when it was looked at, whatever the others do between the probes |
| FramePool.QuietAcquire | libbb/bb_pool.c:109-117 | While nobody takes or gives back a frame, acquire returns the lowest free one, and NULL exactly when none is free |
| FramePool.SharedPool.ProducersRun | libbb/bb_pool.c:109-126 | Whatever the producers do, a consumer that is not waiting stays where it is |
| FramePool.SharedPool.MpScan | libbb/bb_pool.c:134-140 | Once the pending test has passed the scan ends on the first frame that is published when it is looked at, whatever the producers do meanwhile |
| AudioInvariant.CapturePools | middleware/bb_audio_stream.c:52-94 | Every capture step is a legal use of the ring and keeps both pools' invariants |
| AudioInvariant.CodecPools | middleware/bb_audio_stream.c:112-164 | The same for every codec step, drain and sentinel included |
| AudioInvariant.PlaybackPools | middleware/bb_audio_stream.c:181-216 | The same for every playback step |
| AudioIntegrity.BytesExact | middleware/bb_audio_stream.c:25-32 | For up to a period, frames_to_bytes does not wrap and the bytes fit a frame: two, three or four bytes a sample |
| AudioIntegrity.FramesRecovered | middleware/bb_audio_stream.c:190-192 | Playback's division recovers the frame count from the byte size |
| AudioIntegrity.CopyCarries | middleware/bb_audio_stream.c:138-139 | The copy puts the captured bytes, and no more, at the start of the pool frame |
| AudioIntegrity.CaptureKeepsData | middleware/bb_audio_stream.c:73-93 | Every committed frame carries its captured period, whatever capture does next |
| AudioIntegrity.CopyKeepsData | middleware/bb_audio_stream.c:137-140 | The codec's copy keeps the data invariant and fits the destination |
| AudioOnce.CopyKeepsOnce | middleware/bb_audio_stream.c:138-140 | Copying keeps it true that no two full frames carry the same period |
| AudioOnce.OutputKeepsOnce | middleware/bb_audio_stream.c:185-215 | Giving a frame to the device keeps it true that no period was given twice and none given is still on its way |
| AudioCounts.WrappedIsProduct | middleware/bb_audio_stream.c:55 | Adding the period once per drop leaves period x drops modulo 2^32 in the counter |
| AudioCounts.PlayedAtMostCaptured | middleware/bb_audio_stream.c:92-93 | The frames played never exceed the frames captured |
| AudioStop.ProbeKeepsStop | middleware/bb_audio_stream.c:156-164 | A failed probe for the sentinel leaves ready frames for a playback thread that still wants one |
| AudioStop.NotStranded | middleware/bb_audio_stream.c:149-164 | When the codec has returned and playback still wants a frame, one is pending and playback is not asleep |
| AudioJoin.NoDeadlock | middleware/bb_audio_stream.c:340-348 | Until every thread has returned and been joined, some step other than a spurious wakeup is possible |
| AudioTheorems.StepInv | middleware/bb_audio_stream.c:39-221 | Every step of every thread, of stop and every spurious wakeup keeps the whole invariant |
| AudioTheorems.StarterInv | middleware/bb_audio_stream.c:283-288 | A start after a stop, with whatever the pools still hold, keeps the whole invariant |
| AudioTheorems.Reachable | middleware/bb_audio_stream.c:283-338 | The invariant holds in every state reachable from the first start, through any number of stops and further starts |
| AudioTheorems.PassThrough | middleware/bb_audio_stream.c:39-221 | Every buffer given to the device is byte for byte one captured period, and no period is given twice |
| AudioTheorems.CopyFits | middleware/bb_audio_stream.c:138 | In every reachable state the copy between the pools fits the destination frame |
| AudioTheorems.SentinelMeansStop | middleware/bb_audio_stream.c:155-164 | While running, playback meets an empty frame only if the device delivered an empty read or the last start found an empty ready frame in the pool |
| AudioRestart.CleanStart | middleware/bb_audio_stream.c:283-288 | A start is clean - playback leaves a running stream only with the error flag up or after an empty read - exactly when no ready frame of size 0 is in the second pool, or an empty period is still in the ring |
| AudioRestart.PlaybackLeaves | middleware/bb_audio_stream.c:181-188 | With a ready frame of size 0 in the pool, playback on its own reaches its exit while the stream runs without an error |
| AudioWitness.StaleSentinel | middleware/bb_audio_stream.c:155-188 | Every configuration has a run whose stop leaves the sentinel in the pool, so that the next start is not clean |
| AudioWitness.EmptyReadEnds | middleware/bb_audio_stream.c:73-188 | Every configuration has a run in which an empty read of the device ends playback, with no error flag up |
| AudioTheorems.Statistics | middleware/bb_audio_stream.c:374-379 | Each counter is its total since the last start modulo 2^32; over all starts playback never gets ahead of capture, and since the last start by no more than what was captured and not played before it, which is nothing for a first start; drops are a period per miss and per codec drop |
| AudioTheorems.PeriodsConserved | middleware/bb_audio_stream.c:112-153 | Committed periods = in the ring + in the codec's hands + dropped + drained + forwarded |
| AudioForward.ForwardedConserved | middleware/bb_audio_stream.c:137-216 | Periods copied by the codec = buffers given to the device + frames on their way there + empty periods playback took for the sentinel, of which there is one at most for each start |
| AudioTheorems.FramesConserved | middleware/bb_audio_stream.c:52-216 | Every frame of both pools is free or in exactly one stage's hands, in every reachable state |
| AudioTheorems.MissMeansFull | middleware/bb_audio_stream.c:53-55 | A capture miss means the ring is full, or one short of full while the codec holds the frame in between |
| AudioTheorems.DequeuesSucceed | middleware/bb_audio_stream.c:113-183 | In the pipeline the codec's dequeue fails exactly on a ring that was empty when it loaded the write index, its refcount test passes, and playback's dequeue never fails |
| AudioExit.NoSilentExit | middleware/bb_audio_stream.c:57-88 | While the stream runs no thread has left silently: capture only with the error flag up, playback only with the flag up, after an empty read or on an empty frame that the last start found in the pool, the codec not at all; more than ten xruns raise the flag |
| AudioTheorems.StopNeverStrands | middleware/bb_audio_stream.c:149-164 | Once the codec thread has returned, playback is not asleep, and if it still wants a frame one is pending |
| AudioTheorems.RunCosts | middleware/bb_audio_stream.c:340-348 | After running became false every step up to the next start spends from a finite budget that only spurious wakeups refill |
| AudioTheorems.StopReturns | middleware/bb_audio_stream.c:340-348 | Stop returns: runs after it and up to the next start are bounded, and one that can go no further has all three threads returned and joined |
| AudioTrace.RunIsTrace | middleware/bb_audio_stream.c:39-221 | Every run is a sequence of states, each the next step of the one before |
| AudioDrops.NoRoomMeansBusy | middleware/bb_audio_stream.c:119-124 | The codec drops a period, or gives up an attempt to post the sentinel, only after it has looked at every frame of the second pool and found it published or in playback's hands at that moment |
| AudioDrops.SentinelTries | middleware/bb_audio_stream.c:155-164 | A stopping codec leaves without posting the sentinel exactly when a hundred attempts found no frame |
| AudioDrain.DrainLeavesNothing | middleware/bb_audio_stream.c:149-153 | Once the codec has left its drain loop, every period committed up to some moment of that loop has left the ring |
| AudioFaults.FlagMeansFault | middleware/bb_audio_stream.c:57-88 | The error flag is up exactly when, since the last start, a device error or more than ten xruns in a row have ended capture or playback; while the stream runs nothing else ends capture |
| AudioFaults.ReadXrunRecovers | middleware/bb_audio_stream.c:74-84 | One of up to ten xruns in a row gives the frame back and goes on with the loop, and changes nothing else |
| AudioFaults.WriteXrunRecovers | middleware/bb_audio_stream.c:194-202 | Likewise in playback |
| AudioTally.CountedFromOutside | middleware/bb_audio_stream.c:53-93 | Between two rounds of its loop each thread has counted what happened to it: the periods the device delivered, the acquires that failed, the frames the playback device took |
| LineBuffer.SplitAppend | services/bb-busd.c:193-207 | Splitting a text at newlines is splitting its first part, keeping the tail, and splitting tail and rest |
| LineBuffer.ChunkingIndependent | services/bb-busd.c:186-207 | However a stream is cut, the lines handed out are those of the whole stream and the buffer keeps exactly the unfinished one |
| LineBuffer.RoomToReceive | services/bb-busd.c:187-191 | For a stream without NUL the room asked of recv is at least one byte wherever the stream is cut, so that the client is not dropped, exactly when its lines fit the buffer |
| LineBuffer.Buffer.FindNewline | services/bb-busd.c:198 | Finds the first newline from the start on and before any NUL, as strchr does |
| LineBuffer.Buffer.Append | services/bb-busd.c:187-194 | The chunk is behind what was kept, and a NUL behind it |
| LineBuffer.Buffer.CutLine | services/bb-busd.c:199-201 | Hands out one line and leaves what follows it as it was |
| LineBuffer.Buffer.CutLines | services/bb-busd.c:196-202 | The loop hands out the complete lines of the buffer and stops at the unfinished one |
| LineBuffer.Buffer.Shift | services/bb-busd.c:203-207 | The unfinished line moves to the front |
| LineBuffer.Buffer.Receive | services/bb-busd.c:187-207 | One chunk in: the lines and the kept tail are the split of what was kept plus the chunk |
| BusText.ParseInvertsPub | services/bb-busd.c:78-85 | A formatted publish line parses to the same topic and payload, leading blanks included, except that a blank payload is ignored |
| BusText.ParsePubLine | services/bb-busd.c:78-85 | Any PUB line: its first word up to 255 characters is the topic, and it is dropped when nothing but blanks follows a whole word |
| BusText.PayloadTaken | services/bb-busd.c:80-82 | The payload is what follows the first blank behind the command, so that a second blank there makes the topic part of it |
| BusText.ParseInvertsSub | services/bb-busd.c:86-103 | SUB and UNSUB lines are read back with their topic |
| BusText.ParseSubLine | services/bb-busd.c:86-103 | Any SUB or UNSUB line names its first word up to 255 characters, whatever blanks stand before it and whatever follows |
| BusText.NothingAsked | services/bb-busd.c:78-118 | A request without a word and a line that is no request are dropped |
| BusText.SpaceCodes | services/bb-busd.c:79 | White space is codes 9 to 13 and 32 |
| BusText.DeliveryInvertsPub | libbb/bb_bus.c:99-107 | A delivered line splits back into the same topic and payload |
| BusText.ClippedLine | libbb/bb_bus.c:42-43 | A line is formatted up to 4287 characters |
| Broker.FindSub | services/bb-busd.c:44-49 | The first entry with the topic, or none |
| Broker.StoredIs | services/bb-busd.c:91 | Of a topic the first 127 characters are stored |
| Broker.PlainMatch | services/bb-busd.c:51-52 | Without a final '#' a pattern matches itself and nothing else |
| Broker.WildMatch | services/bb-busd.c:53-55 | With one it matches exactly the topics that begin with what stands before it |
| Broker.PurgeCounts | services/bb-busd.c:124-129 | The loop with its j-- removes every occurrence of the descriptor and keeps all else, as a multiset |
| Broker.RemoveFirstCounts | services/bb-busd.c:106-111 | UNSUB's swap-remove takes out one occurrence and keeps all else, as a multiset |
| Broker.FullListsEveryone | services/bb-busd.c:93 | An entry without room already lists every connected client: nobody is refused silently |
| Broker.SubscribeRelation | services/bb-busd.c:86-102 | SUB adds exactly one pair, unless the topic is new and the table is full |
| Broker.SubscribeDistinct | services/bb-busd.c:88-91 | Topics stay distinct exactly when the topic fits its field, or nothing is inserted, or its stored prefix is new |
| Broker.LongTopicDuplicates | services/bb-busd.c:88-91 | A topic of 128 characters is inserted twice by two SUBs |
| Broker.UnsubscribeRelation | services/bb-busd.c:103-113 | UNSUB changes one pair at most, and that pair is gone exactly when no entry of the topic behind the one found lists the client |
| Broker.PurgeRelation | services/bb-busd.c:120-130 | A disconnect removes every pair of its descriptor and nothing else |
| Broker.RunValid | services/bb-busd.c:86-140 | Over every run, topics of any length included, the client lists are duplicate-free and name only connected clients |
| Broker.NeverRefused | services/bb-busd.c:86-101 | In every run a SUB whose topic has an entry or finds room leaves its client listed: nobody is refused silently |
| Broker.TableRefinesRelation | services/bb-busd.c:86-140 | Over every run of connects, disconnects, SUBs and UNSUBs, topics of any length and the 256-topic limit included, the table denotes the abstract relation exactly when its topics are distinct at the end |
| Broker.FittingStaysDistinct | services/bb-busd.c:86-102 | Over every run whose SUB topics fit their field the topics stay distinct |
| Broker.RecycledStartsEmpty | services/bb-busd.c:120-130 | In every run, topics of any length included, a descriptor that is not connected has no subscription, so a reused number starts with none |
| Broker.PublishExact | services/bb-busd.c:51-73 | For any duplicate-free lists: each descriptor but the sender gets one copy per matching entry that lists it, the sender none, and nothing else is sent; that is one copy per matching pattern exactly when no such pattern stands in the table twice |
| Broker.WhoReceives | services/bb-busd.c:51-73 | A publish reaches exactly the clients, other than the sender, that are subscribed to its topic or to '#' behind a part that the topic begins with |
| Broker.PatternsAgainstEntries | services/bb-busd.c:51-73 | A client has at most as many matching patterns as matching entries, and as many exactly when none is repeated |
| Broker.RepeatedTopicFails | services/bb-busd.c:88-113 | After two SUBs for a topic of 128 characters, its 127-character prefix is published twice to that client for one pattern, and an UNSUB of the prefix leaves the client subscribed to it |
| BusDaemon.ServedPublish | services/bb-busd.c:58-73 | The same for a PUB line, with the message's text and its limit of 8191 bytes |
| BusDaemon.PongOnlyToPing | services/bb-busd.c:115-118 | A pong goes to the client whose line is PING, and to nobody on any other line |
| BusDaemon.Daemon.FindSub | services/bb-busd.c:44-49 | The loop finds the first entry with the topic or returns -1 |
| BusDaemon.Daemon.HandleSub | services/bb-busd.c:86-101 | The SUB branch is find-or-insert followed by a duplicate-free append |
| BusDaemon.Daemon.HandleUnsub | services/bb-busd.c:103-112 | The UNSUB branch swap-removes the first occurrence |
| BusDaemon.Daemon.SendTo | services/bb-busd.c:65-70 | The inner loop sends to every listed client but the sender, in order |
| BusDaemon.Daemon.Publish | services/bb-busd.c:58-73 | Sends to the clients of every matching entry, or to nobody when the message does not fit |
| BusDaemon.Daemon.HandleLine | services/bb-busd.c:75-118 | What one line sends and how it changes the table, for every kind of line and for lines that are none |
| BusDaemon.Daemon.PurgeIds | services/bb-busd.c:124-129 | The in-place loop computes the purge |
| BusDaemon.Daemon.RemoveClient | services/bb-busd.c:120-140 | Every list is purged of the descriptor and the client array closes the gap |
| BusDaemon.Daemon.Accept | services/bb-busd.c:172-181 | A connection becomes a client while there are fewer than 64: the table's Connect |
| BusDaemon.ShiftIsRemoval | services/bb-busd.c:135-139 | Shifting the array down is removing the one client |
| BusClient.Connection.Publish | libbb/bb_bus.c:41-45 | Publishing puts one clipped line and its newline on the stream |
| BusClient.Connection.constructor | libbb/bb_bus.c:86-87 | A new connection reads into the shared buffer as it was left |
| BusClient.Connection.Poll | libbb/bb_bus.c:86-118 | One poll calls the handler for exactly the deliveries among the lines completed by the chunk behind what the shared buffer kept, and keeps the tail |
| BusRoundTrip.CopiesFit | services/bb-busd.c:61 | A stream of copies of a sendable message never fills the receiver's buffer |
| BusRoundTrip.PublishArrives | services/bb-busd.c:186-201 | However the stream is cut, one publish is one request with the same topic and payload |
| BusRoundTrip.ReceivedBehind | libbb/bb_bus.c:86-111 | Behind a tail that an earlier or other connection left, the messages received are never the ones sent: the first is spliced |
| BusRoundTrip.SubscriberReceives | libbb/bb_bus.c:86-111 | With any table, repeated topics included, a subscriber's handler is called once per matching entry that lists it with the same topic and payload exactly when the shared buffer held nothing before, or nothing is due |
| BusRoundTrip.EndToEnd | libbb/bb_bus.c:41-111 | From one client's publish through the daemon to another's handler: same topic, same payload, once per matching entry that lists it and never for a blank payload, exactly when the receiver's buffer held nothing before or nothing is due |
| BusRoundTrip.PingRoundTrip | libbb/bb_bus.c:59-68 | However a ping's line is cut, it is answered with a pong, and the client's one receive counts as success exactly when it got four of the five bytes |
| BusHistory.HistoryDelivered | services/bb-busd.c:51-140 | Over any history of requests, SUBs of any topic included, joins and leaves, a client that stays has its handler called with exactly what each publish owed it, in order, exactly when its buffer held nothing before, or nothing was sent, or what it held neither takes a message from the first line nor makes one, nor hides messages behind a NUL |
| BusHistory.CalledBehind | libbb/bb_bus.c:86-111 | Whole lines behind a kept text call the handler as they do without it exactly under that condition |
| Crc.BitStepInjective | libbb/bb_persist.c:257 | The bit step can be undone: no two registers merge |
| Crc.BitStepLinear | libbb/bb_persist.c:257 | The bit step is linear over exclusive or |
| CrcRemainder.GeneratorBits | libbb/bb_persist.c:257 | The source's constant has, in reverse, the coefficients of the generator of section 3.2.9 of IEEE 802.3 below x^32 |
| CrcRemainder.RegisterIsRemainder | libbb/bb_persist.c:252-258 | The register after a string of bits is the remainder on division by that generator of the bits' polynomial times x^32 |
| Crc.AtOnce | libbb/bb_persist.c:254-258 | Adding up to 32 bits to the register at once and stepping once for each is taking them bit by bit |
| Crc.CrcIsBitwise | libbb/bb_persist.c:252-258 | The byte loop computes what the bits of the record alone decide |
| Crc.AbsorbDifference | libbb/bb_persist.c:252-258 | The register after the difference of two bit strings is the difference of the registers |
| Crc.BurstLeavesTrace | libbb/bb_persist.c:252-258 | A difference within 32 consecutive bits, zeros around it, clears the register only if it is none |
| Crc.PassesIffWholeIsZero | libbb/bb_persist.c:252-259 | A record passes exactly when the CRC over all 192 bytes, stored value included, is zero |
| CrcRemainder.PassesIffRemainder | libbb/bb_persist.c:252-259 | A record passes exactly when its last four bytes are the remainder of the 188 before them |
| CrcRemainder.OneBitPasses | libbb/bb_persist.c:252-259 | A record that passes: one bit at the end of the body and the generator's bits for its check value |
| Crc.BurstDetected | libbb/bb_persist.c:252-259 | Two different passing records never differ only within 32 consecutive bits, wherever these begin, the stored value included |
| Crc.AllZeroPasses | libbb/bb_persist.c:252-259 | An erased record of zeros passes |
| Crc.StepLoop | libbb/bb_persist.c:256-257 | The inner loop is that many bit steps |
| Crc.AddByte | libbb/bb_persist.c:255-257 | One byte is added and stepped through |
| Crc.CrcLoop | libbb/bb_persist.c:252-258 | The accumulator loop computes the CRC of the bytes |
| Crc.Check | libbb/bb_persist.c:252-259 | The check accepts exactly the records whose CRC over all bytes is zero |
| MfgRecord.Store.Read | libbb/bb_persist.c:237-264 | The return value; only a record that passes marks the store as loaded and is served with success; later reads serve the same bytes, also when the caller's record is the cache itself |
| MfgRecord.Store.Serial | libbb/bb_persist.c:266-270 | The serial belongs to a passing record exactly when the store ends up loaded, and to the failed record otherwise |
| TextLines.CutWhole | libbb/bb_persist.c:76 | fgets gives back whole any line that ends in a newline and fits |
| TextLines.CutLong | libbb/bb_persist.c:72-76 | Without a newline the buffer size alone decides where fgets stops |
| TextLines.LinesOfJoined | libbb/bb_persist.c:107-109 | Whole lines written one after the other are read back as the same lines, each up to its first NUL |
| ConfigFile.SetLines | libbb/bb_persist.c:105-122 | A set replaces the key's lines where they stand or adds one at the end; all other lines keep their bytes and order; the key may hold equals signs |
| ConfigFile.StripEndLongest | libbb/bb_persist.c:80-81 | A value is cut to its longest part from the start that ends in neither a newline nor a return |
| ConfigFile.GetAfterSet | libbb/bb_persist.c:64-127 | After a set the key has the value less returns at its end, and every other key apart from it (neither with its equals sign starts the other) what it had |
| ConfigFile.FileIsMap | libbb/bb_persist.c:64-127 | From no file, after any sequence of sets of keys that are apart from it, a key reads as it was last set, or as nothing |
| ConfigFile.TwoKeys | libbb/bb_persist.c:64-127 | Two different keys each read as they were set last, after every sequence of sets of the two, exactly when neither followed by an equals sign is the start of the other |
| ConfigFile.LengthLimit | libbb/bb_persist.c:72-82 | A value set in a fresh file comes back exactly when key, equals sign and value are at most 511 characters |
| ConfigFile.EqualsSignMisread | libbb/bb_persist.c:77 | Where one key with its equals sign starts another: setting the shorter to a suitable value answers for the longer |
| ConfigFile.LongerAnswers | libbb/bb_persist.c:77 | Where one key with its equals sign starts another: setting the longer to any value answers for the shorter |
| ConfigStore.Store.ConfigGet | libbb/bb_persist.c:64-88 | The reading loop computes the lookup |
| ConfigStore.Store.CopyLines | libbb/bb_persist.c:106-118 | The copying loop writes the rewritten lines to the temporary file and does not touch the named one |
| ConfigStore.Store.ConfigSet | libbb/bb_persist.c:90-127 | The new file, the return value, and: after every file operation the name stands for the whole old file or the whole new one |
| BootLog.LineScans | libbb/bb_persist.c:149-168 | A log line reads back to its entry exactly when the slot letter is neither white space nor NUL |
| BootLog.LineExample | libbb/bb_persist.c:150-151 | The fields stand in the order time, slot, success, boot time |
| BootLog.LogReads | libbb/bb_persist.c:156-178 | Reading a log gives its first entries in order, as many as asked for, passing over those with a NUL for a slot letter |
| BootLog.WholeLogReads | libbb/bb_persist.c:144-178 | For room enough, a whole log reads back as its entries exactly when no slot letter is white space or NUL |
| BootLog.Log.Add | libbb/bb_persist.c:144-154 | Adding appends one line: the log of some entries becomes the log of those and the new one |
| BootLog.Log.Read | libbb/bb_persist.c:156-178 | The loop collects the lines that scan until there are enough |
| Json.DecimalParses | libbb/bb_json.c:34-38 | atoi undoes %d before any non-digit |
| Json.AtoiReads | libbb/bb_json.c:84-88 | atoi reads white space, a sign of either kind or none, and the digits up to the first other character |
| Json.SkipPadding | libbb/bb_json.c:60 | Any blanks and colons behind the key are passed over |
| Json.AfterIsFirst | libbb/bb_json.c:56-58 | The search finds the first occurrence and fails only when there is none |
| Json.AfterRest | libbb/bb_json.c:52-58 | In the text of an object the quoted key is found at the first key or string value that equals it |
| Json.FindKeyCases | libbb/bb_json.c:52-61 | find_key points at the value of the first such field, or behind a string value that reads like the key, or nowhere |
| Json.LongKeyIsClipped | libbb/bb_json.c:54-56 | Of a key of 126 characters and more the first 126 are searched for, without a closing mark |
| Json.GetStringOfObject | libbb/bb_json.c:63-82 | The string getter returns a string exactly when the first field with the key holds one and no earlier string value equals the key; it is the string written exactly when that has no backslash and at most 255 characters, and without a backslash its first 255 |
| Json.DecodeExact | libbb/bb_json.c:65-81 | A string without quotation marks is read as itself exactly when it has no backslash and at most 255 characters |
| Json.GetIntOfObject | libbb/bb_json.c:84-88 | The integer getter in all cases: the number, the default, or 0 |
| Json.GetBoolOfObject | libbb/bb_json.c:90-96 | The boolean getter in all cases: the value or the default |
| Json.ShadowHides | libbb/bb_json.c:52-58 | An object where an earlier string value hides the field asked for |
| JsonCode.ClosedIsObject | libbb/bb_json.c:17-21 | Removing the last comma and adding the brace gives the object's text |
| JsonCode.Writer.constructor | libbb/bb_json.c:6-11 | An empty text in the caller's buffer |
| JsonCode.Writer.StartObject | libbb/bb_json.c:13-15 | The brace is appended if there is room, and otherwise nothing changes |
| JsonCode.Writer.Print | libbb/bb_json.c:24-25 | snprintf into the room left: appended whole, or cut to the room, while the position moves by the full length; beyond the buffer it is marked as a wild write |
| JsonCode.Writer.AddString | libbb/bb_json.c:28-32 | Appends the field with its comma when it fits; NULL becomes the empty string; the write is wild exactly when its key reaches beyond the buffer |
| JsonCode.Writer.AddInt | libbb/bb_json.c:34-38 | Appends the field with its comma when it fits; the write is wild exactly when its key reaches beyond the buffer |
| JsonCode.Writer.AddBool | libbb/bb_json.c:40-44 | Appends the field with its comma when it fits; the write is wild exactly when its key reaches beyond the buffer |
| JsonCode.Writer.EndObject | libbb/bb_json.c:17-21 | Closes the text over the trailing comma, or leaves it when there is no room for the brace; beyond the buffer it reads a stray character and writes nothing |
| JsonCode.Writer.WriteObject | libbb/bb_json.c:6-44 | Fields written into a buffer they fit leave exactly the object's text, terminated; an access is wild exactly when the fields' text is longer than the buffer |
| JsonCode.ReadKey | libbb/bb_json.c:52-61 | The skipping loop computes find_key |
| JsonCode.DecodeLoop | libbb/bb_json.c:67-81 | The decoding loop computes the decoding and stays within its buffer |
| JsonCode.ReadString | libbb/bb_json.c:63-82 | The string getter as a method |
| JsonCode.WriteThenRead | libbb/bb_json.c:6-82 | Writing fields and reading one back returns a string exactly when there is one unshadowed, and the same string exactly when it has no backslash and at most 255 characters |
| JsonBuilder.RunEmits | services/bb-webd.c:119-127 | While the whole text fits the buffer no piece is left out |
| JsonBuilder.OneFlagIsAStack | services/bb-webd.c:123-127 | The single flag emits the same text as a flag per level, for all calls that put a comma before each nested start |
| JsonBuilder.FlagExact | services/bb-webd.c:123-127 | For all calls: the single flag and a flag per level emit the same text exactly when no comma comes to a level that has had nested starts but no comma |
| JsonBuilder.FlagExactWitness | services/bb-webd.c:123-127 | Calls on which the two differ: a comma behind a nested start that was not announced |
| JsonBuilder.UnannouncedText | services/bb-webd.c:287-318 | Objects started inside an object without a comma come out side by side; that is the rendering exactly when there is at most one |
| JsonBuilder.UnannouncedOnStack | services/bb-webd.c:287-318 | On those calls a flag per level emits the same text: nobody asks for the comma |
| JsonBuilder.DocumentRendered | services/bb-webd.c:115-137 | A document's calls leave its rendering: square brackets or braces around the members, a comma between any two at every depth and nowhere else |
| JsonEscape.EscapedIsContent | services/bb-webd.c:146-160 | The escaped text is the inside of a JSON string (section 7 of RFC 8259) exactly when newline, return and tab are the only control characters |
| JsonEscape.EscapeReadsBack | libbb/bb_json.c:65-81 | Escaping and reading back is the identity on strings of up to 255 characters exactly without a return |
| JsonEscape.EscapeFits | services/bb-webd.c:146-160 | An escaped string that fits is in the buffer between quotation marks |
| JsonEscape.StringFits | services/bb-webd.c:128-131 | A string member that fits is in the buffer as its comma, the key, a colon and the value, each of the two between quotation marks |
| JsonEscape.IntFits | services/bb-webd.c:132-137 | A number member likewise, in decimal |
| JsonEscape.ObjectBuilt | services/bb-webd.c:115-137 | An object of string and number members built call by call is exactly that object's text |
| JsonEscape.BuiltReadsBack | services/bb-webd.c:115-137 | The getters of the library read the members of an object so built back from its text |
| JsonEscape.Builder.constructor | services/bb-webd.c:115-118 | An empty builder with its flag up |
| JsonEscape.Builder.RawText | services/bb-webd.c:119-122 | The piece is appended when it fits and left out otherwise |
| JsonEscape.Builder.ObjStart | services/bb-webd.c:123 | The builder's step for a start |
| JsonEscape.Builder.ObjEnd | services/bb-webd.c:124 | The builder's step for an end |
| JsonEscape.Builder.ArrStart | services/bb-webd.c:125 | The builder's step for an array start |
| JsonEscape.Builder.ArrEnd | services/bb-webd.c:126 | The builder's step for an array end |
| JsonEscape.Builder.WriteComma | services/bb-webd.c:127 | A comma unless the flag is up, which it lowers |
| JsonEscape.Builder.KvStr | services/bb-webd.c:128-131 | A key with a string, as the sequence of its pieces |
| JsonEscape.Builder.KvInt | services/bb-webd.c:132-137 | A key with a number, as the sequence of its pieces |
| JsonEscape.Builder.EscapeStr | services/bb-webd.c:146-160 | The loop writes the escapes of the characters one by one, each whole or not at all |
| GpioForm.FormReadsBack | services/bb-webd.c:627-638 | Any pairs joined by ampersands are read back: each number is that of the key's last pair as an int holds it, or unset |
| GpioForm.NumberBack | services/bb-webd.c:493-498 | A decimal number is read as itself exactly when an int can hold it |
| GpioForm.NumberWraps | services/bb-webd.c:493-498 | Any number is read as an int that differs from it by a multiple of 2^32 |
| GpioForm.WellFormedForm | services/bb-webd.c:624-659 | A form naming chip, line and a level of 0 or 1 is taken as written exactly when both numbers fit an int |
| GpioForm.AtoiLen | services/bb-webd.c:493-498 | The loop reads the leading digits within the length into an int that wraps around |
| GpioForm.ControlGpio | services/bb-webd.c:624-651 | The verdict on a body, numbers that wrapped around included: missing, bad level, or the command |
| BootSlots.FallbackAfterThree | deploy/boot/boot.cmd:17-32 | A slot is left by fallback only after three boots of it in a row, with no handshake and no install between or behind them |
| BootSlots.HealthyStays | deploy/system/bb-boot-ok.service:7-10 | A slot that always reaches the handshake is never left |
| BootSlots.OkMeansHandshake | deploy/system/bb-boot-ok.service:7-10 | In every history boot_ok is set exactly when a handshake has come since the last install, or was set before and no install has come |
| BootSlots.BootChooses | deploy/boot/boot.cmd:8-32 | A boot with attempts left keeps the slot and uses one up, otherwise it takes the other slot with three; an unknown slot counts as the first |
| BootSlots.DeadSlotGivesWay | deploy/boot/boot.cmd:8-32 | A dead slot boots exactly as often as attempts are left; then a healthy other slot boots and stays for good |
| BootSlots.InstallTarget | tools/bb-update/bb_update.c:142-154 | An install leaves the running slot alone exactly when the installs since the boot are even in number |
| BootSlots.InstallRollsBack | tools/bb-update/bb_update.c:194-198 | After the first install a dead new slot boots exactly three times; from the fourth boot on the slot that was running is back |
| BootSlots.Environment.BootScript | deploy/boot/boot.cmd:8-32 | The script's assignments are the boot transition, and the partition loaded from is that of the slot chosen |
| BootSlots.Environment.BootOk | deploy/system/bb-boot-ok.service:7-10 | The handshake transition |
| BootSlots.Environment.InstallPackage | tools/bb-update/bb_update.c:133-205 | The install transition when the package verifies and unpacks, and no change otherwise |

## Left out

- The hardware layer: device reads and writes are nondeterministic results, and sockets, files and clocks are parameters.
- The thread loops of `middleware/bb_audio_stream.c` as methods: their properties are about interleavings, so the loops are program-counter steps on a state value; frames are named by index, and aliasing of frame pointers is not modelled.
- The codec path of the pipeline (`middleware/bb_audio_stream.c:126-136`): encoding with an output capacity that is the frame's previous size, and the size 0 of a failed encode, which looks like the sentinel.
- Start-up when a thread cannot be spawned: all three threads are taken to run. A start of a stream that has not been stopped.
- Index overflow of the SPSC ring beyond 2^31 commits.
- The order in which the MPSC pool hands out frames: the scan takes the lowest ready index, so newer frames can overtake older ones, and no order is claimed.
- `bb_frame_ref` and `bb_frame_unref`: a release stores 0 whatever the count.
- Capture and playback devices of different channel counts, and write positions within a period: a short write is counted and its rest dropped, as the code does.
- Epoll dispatch by client index, which goes stale when the client array shifts: clients are parameters here.
- Delivery of messages with a line of more than 4286 characters, which the client's formatting buffer or receive buffer cuts; likewise a first line too long for the room behind a kept tail.
- A client descriptor that leaves and comes back within one history of `HistoryDelivered`: its stream begins anew, as `SubscriberReceives` says.
- Failing sends and partial sends on the bus.
- What a wild write of the JSON writer hits: `wild` says when one happens and nothing more.
- Floating-point fields of both JSON writers.
- The file system figures that `handle_api_partitions` prints; its calls are those of `UnannouncedText`.
- Where a key of more than 125 characters is found in an object, its search text being clipped (`LongKeyIsClipped`).
- Text that a builder buffer cannot hold: which pieces are left out is modelled, the damage to the text is not characterised.
- `atoi` on numbers beyond an int, and scanning of numbers beyond 64 bits.
- Failed or short writes of the configuration file, file names that are too long, and the permission bits of its directory.
- The update log, whose success field is written as a digit and read as a letter.
- The kernel command line of the boot script: its `${rootfs_part}` is set nowhere, so the root file system does not follow the slot; the model speaks of the boot partition and the slot variable.
- The image files: bb_update_install copies the kernel to `/boot` under a name with the slot's letter and leaves the root file system to a printed instruction.
- An unreadable `boot_slot` at install time, where the installer assumes slot a.
- HTTP serving, the dashboard, the LED form and block, logging, thread priorities and the command-line tools.
