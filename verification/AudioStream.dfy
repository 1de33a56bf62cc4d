/**
 The audio pipeline of `middleware/bb_audio_stream.c` in pass-through mode (`codec_ops == NULL`):
 capture thread -> SPSC ring -> codec thread -> MPSC pool -> playback thread, plus the thread that
 calls stop.  Every atomic operation, device call and frame access of a thread is one step, and a
 run interleaves the steps of the four threads arbitrarily.  Device results are inputs of the steps.
 */
module AudioStream {
  import S = SpRing
  import M = MpPool

  newtype byte = x: int | 0 <= x < 256

  const U32: nat := 0x1_0000_0000
  const MAX_XRUNS: nat := 10
  const SENTINEL_RETRIES: nat := 100

  datatype Fmt = S16 | S24 | S32

  datatype Config = Config(channels: nat, fmt: Fmt, period: nat, poolFrames: nat) {
    // The bytes of one sample on every channel
    function FrameBytes(): (n: nat)
      ensures channels > 0 ==> n > 0
    {
      match fmt case S16 => channels * 2 case S24 => channels * 3 case S32 => channels * 4
    }

    // What the drivers guarantee: a period of the negotiated format has a 32-bit byte count.
    predicate Valid() {
      channels > 0 && poolFrames > 0 && period * FrameBytes() < U32
    }

    function PeriodBytes(): nat { period * FrameBytes() }
  }

  // frames_to_bytes, in uint32_t arithmetic
  function FramesToBytes(cfg: Config, frames: nat): nat {
    (frames * cfg.FrameBytes()) % U32
  }

  function Quotient(n: nat, k: nat): nat
    requires k > 0
  {
    n / k
  }

  // The playback thread's inverse: size / (channels * sample bytes)
  function BytesToFrames(cfg: Config, size: nat): nat
    requires cfg.channels > 0
  {
    Quotient(size, cfg.FrameBytes())
  }

  // A buffer and its size field, which says how much of the buffer is meaningful.
  datatype Frame = Frame(buf: seq<byte>, size: nat) {
    function Payload(): seq<byte> { Prefix(buf, size) }
  }

  function Prefix(buf: seq<byte>, n: nat): seq<byte> {
    if n <= |buf| then buf[..n] else buf
  }

  // A write of `pcm` at the start of `buf`; past the end it would grow the buffer.
  function Overwrite(buf: seq<byte>, pcm: seq<byte>): seq<byte> {
    if |pcm| <= |buf| then pcm + buf[|pcm|..] else pcm
  }

  // What one successful device read delivered: n frames and their bytes.
  datatype Period = Period(n: nat, pcm: seq<byte>)

  datatype ReadResult = Got(p: Period) | ReadXrun | ReadError
  datatype WriteResult = Wrote(n: nat) | WriteXrun | WriteError

  datatype Capture =
    | CTop                       // tests running
    | CAcquire                   // inside bb_pool_sp_acquire
    | CMiss                      // no frame: counts the drop
    | CDiscard                   // no frame: reads into a throw-away buffer
    | CRead                      // reads into the acquired frame
    | CFail(device: bool)        // read failed, by a device error or an xrun: releases the frame
    | CFilled(p: Period)         // sets the size and counts the frames
    | CCounted(p: Period)        // commits
    | CExit

  datatype Codec =
    | KTop                       // tests running
    | KTake                      // inside bb_pool_sp_dequeue
    | KAcquire                   // inside bb_pool_mp_acquire
    | KNoRoom                    // counts the drop
    | KDropped                   // releases the ring frame
    | KCopy                      // copies the payload and its size
    | KCopied                    // releases the ring frame
    | KSend                      // inside bb_pool_mp_enqueue
    | KDrain                     // inside bb_pool_sp_dequeue of the drain loop
    | KDrained                   // releases the drained frame
    | KProbe(retry: nat)         // inside bb_pool_mp_acquire for the sentinel
    | KZero                      // sets the sentinel's size
    | KSendLast                  // inside bb_pool_mp_enqueue for the sentinel
    | KExit

  datatype Playback =
    | PTop                       // tests running
    | PTake                      // inside bb_pool_mp_dequeue
    | PHold                      // tests the size and writes to the device
    | PWrote(n: nat)             // counts the frames
    | PRelease(last: bool)       // releases the frame, then leaves or loops
    | PExit

  datatype Stopper = SRun | SJoinCapture | SJoinCodec | SJoinPlayback | SDone

  // A buffer handed to bb_audio_write and the captured period it came from.
  datatype Given = Given(origin: int, pcm: seq<byte>)

  // What the last of `starts` starts found: the totals of frames captured, frames played and drops until
  // then, the ring's read index, and whether a ready frame of the second pool was empty.
  datatype Since = Since(starts: nat, cap: nat, pb: nat, drops: nat, ring: nat, stale: bool)

  /**
   `captured` to `since` are history: the periods read from the device and committed, the period each
   pool frame carries (-1 for the sentinel), the buffers given to the device, how many periods
   went which way, the frame totals before 32-bit wrap-around, the frames played of each period,
   how many empty periods playback took for the sentinel, and what the last start found.
   */
  datatype Stream = Stream(
    running: bool, error: bool,
    capFrames: nat, pbFrames: nat, dropFrames: nat,
    sp: S.Ring<Frame>, mp: M.Pool, mpData: seq<Frame>,
    cap: Capture, capXruns: nat, codec: Codec, play: Playback, playXruns: nat, stopper: Stopper,
    captured: seq<Period>, origin: seq<int>, given: seq<Given>,
    misses: nat, codecDrops: nat, drained: nat, forwarded: nat,
    capTotal: nat, pbTotal: nat, playedBy: seq<nat>, mistaken: nat, since: Since)

  // The state in which bb_audio_stream_start leaves the threads.
  function Init(cfg: Config): Stream
    requires cfg.Valid()
  {
    var blank := Frame(seq(cfg.PeriodBytes(), i => 0), cfg.PeriodBytes());
    Stream(true, false, 0, 0, 0,
           S.Init(cfg.poolFrames, blank), M.Init(cfg.poolFrames, 1), seq(cfg.poolFrames, i => blank),
           CTop, 0, KTop, PTop, 0, SRun,
           [], seq(cfg.poolFrames, i => -1), [], 0, 0, 0, 0, 0, 0, [], 0, Since(1, 0, 0, 0, 0, false))
  }

  datatype Step =
    | Capture(read: ReadResult)
    | Codec
    | Playback(write: WriteResult)
    | Spurious
    | Stop
    | Start

  // Both pools have the configured number of frames, and the codec is the only producer of the second.
  predicate Sized(cfg: Config, s: Stream) {
    && cfg.channels > 0 && cfg.poolFrames > 0
    && s.sp.Count() == |s.sp.data| == cfg.poolFrames
    && s.mp.Count() == |s.mpData| == |s.origin| == cfg.poolFrames
    && |s.mp.prods| == 1
    && |s.playedBy| == |s.captured|
  }

  // The frame the capture thread owns.
  function CaptureFrame(cfg: Config, s: Stream): Frame
    requires Sized(cfg, s)
  {
    s.sp.data[s.sp.Slot(s.sp.w)]
  }

  // The frame the codec thread dequeued last.
  function CodecFrame(cfg: Config, s: Stream): Frame
    requires Sized(cfg, s)
  {
    s.sp.data[s.sp.Slot(Last(s))]
  }

  function Last(s: Stream): nat {
    if s.sp.r == 0 then 0 else s.sp.r - 1
  }

  // ---- The pool operation a thread inside a pool call performs next ----

  function AcquireStep(sp: S.Ring<Frame>): S.Step<Frame> {
    match sp.prod case PIdle => S.LoadW case PSawW(_) => S.LoadR case _ => S.Cas
  }

  function TakeStep(sp: S.Ring<Frame>): S.Step<Frame> {
    match sp.cons
    case CIdle => S.TakeLoadW
    case CSawW(_) => S.TakeLoadR
    case CSawR(_) => S.TakeCheck
    case CPassed(_) => S.TakeBump
  }

  function ClaimStep(mp: M.Pool): M.Step
    requires |mp.prods| == 1
  {
    if mp.prods[0].Probing? then (if mp.prods[0].i < mp.Count() then M.Cas(0) else M.GiveUp(0)) else M.Start(0)
  }

  function EnqueueStep(mp: M.Pool): M.Step
    requires |mp.prods| == 1
  {
    match mp.prods[0]
    case Owns(_) => M.Bump(0)
    case Bumped => M.Lock(0)
    case Inside => M.CountUp(0)
    case Counted => M.Signal(0)
    case _ => M.Unlock(0)
  }

  function DequeueStep(mp: M.Pool): M.Step {
    match mp.cons
    case Resting => M.Enter
    case Locking => M.TakeLock
    case Waking => M.TakeLock
    case Checking => M.Check
    case Scanning(i) => if i < mp.Count() then M.Scan else M.MissLower
    case Picked(_) => M.Lower
    case Leaving(_) => M.Leave
    case _ => M.MissLeave
  }

  // ---- Steps of the threads ----

  // What a device read may deliver: at most one period, whole frames.
  predicate ValidRead(cfg: Config, read: ReadResult) {
    read.Got? ==> read.p.n <= cfg.period && |read.p.pcm| == FramesToBytes(cfg, read.p.n)
  }

  // A thread that has not returned can take its next step unless it is blocked in a lock, a wait or a join.
  predicate CaptureEnabled(cfg: Config, s: Stream, read: ReadResult) {
    && Sized(cfg, s)
    && match s.cap
       case CAcquire => S.Enabled(s.sp, AcquireStep(s.sp))
       case CRead => s.sp.prod.POwns? && ValidRead(cfg, read)
       case CFail(_) => s.sp.prod.POwns?
       case CFilled(_) => s.sp.prod.POwns?
       case CCounted(_) => s.sp.prod.POwns?
       case CExit => false
       case _ => true
  }

  predicate CodecEnabled(cfg: Config, s: Stream) {
    && Sized(cfg, s)
    && match s.codec
       case KTake => S.Enabled(s.sp, TakeStep(s.sp))
       case KDrain => S.Enabled(s.sp, TakeStep(s.sp))
       case KDropped => S.Enabled(s.sp, S.Release(Last(s)))
       case KCopied => S.Enabled(s.sp, S.Release(Last(s)))
       case KDrained => S.Enabled(s.sp, S.Release(Last(s)))
       case KAcquire => M.Enabled(s.mp, ClaimStep(s.mp))
       case KProbe(_) => M.Enabled(s.mp, ClaimStep(s.mp))
       case KSend => M.Enabled(s.mp, EnqueueStep(s.mp))
       case KSendLast => M.Enabled(s.mp, EnqueueStep(s.mp))
       case KCopy => M.Enabled(s.mp, M.Bump(0))
       case KZero => M.Enabled(s.mp, M.Bump(0))
       case KExit => false
       case _ => true
  }

  predicate PlaybackEnabled(cfg: Config, s: Stream, write: WriteResult) {
    && Sized(cfg, s)
    && match s.play
       case PTake => !s.mp.cons.Waiting? && M.Enabled(s.mp, DequeueStep(s.mp))
       case PHold =>
         && M.Enabled(s.mp, M.Release)
         && (write.Wrote? ==> write.n <= BytesToFrames(cfg, s.mpData[s.mp.cons.f].size))
       case PRelease(_) => M.Enabled(s.mp, M.Release)
       case PExit => false
       case _ => true
  }

  predicate SpuriousEnabled(cfg: Config, s: Stream) {
    Sized(cfg, s) && s.play.PTake? && s.mp.cons.Waiting?
  }

  predicate StopEnabled(cfg: Config, s: Stream) {
    && Sized(cfg, s)
    && match s.stopper
       case SRun => s.running
       case SJoinCapture => s.cap.CExit?
       case SJoinCodec => s.codec.KExit?
       case SJoinPlayback => s.play.PExit?
       case SDone => false
  }

  // bb_audio_stream_start after a stop: the three threads of the last run have been joined.
  predicate StartEnabled(cfg: Config, s: Stream) {
    Sized(cfg, s) && s.stopper.SDone?
  }

  predicate Enabled(cfg: Config, s: Stream, a: Step) {
    match a
    case Capture(read) => CaptureEnabled(cfg, s, read)
    case Codec => CodecEnabled(cfg, s)
    case Playback(write) => PlaybackEnabled(cfg, s, write)
    case Spurious => SpuriousEnabled(cfg, s)
    case Stop => StopEnabled(cfg, s)
    case Start => StartEnabled(cfg, s)
  }

  function CaptureStep(cfg: Config, s: Stream, read: ReadResult): Stream
    requires CaptureEnabled(cfg, s, read)
  {
    match s.cap
    case CTop => s.(cap := if s.running then CAcquire else CExit)
    case CAcquire =>
      var sp := S.Apply(s.sp, AcquireStep(s.sp));
      s.(sp := sp, cap := if sp.prod.POwns? then CRead else if sp.prod.PIdle? then CMiss else CAcquire)
    case CMiss => s.(dropFrames := (s.dropFrames + cfg.period) % U32, misses := s.misses + 1, cap := CDiscard)
    case CDiscard =>
      var fatal := read.ReadXrun? && s.capXruns + 1 > MAX_XRUNS;
      s.(capXruns := if fatal then s.capXruns + 1 else 0, error := s.error || fatal, cap := if fatal then CExit else CTop)
    case CRead =>
      if read.Got? then
        var frame := CaptureFrame(cfg, s);
        s.(sp := S.Apply(s.sp, S.Fill(frame.(buf := Overwrite(frame.buf, read.p.pcm)))),
           capXruns := 0, cap := CFilled(read.p))
      else s.(cap := CFail(read.ReadError?))
    case CFail(device) =>
      var fatal := device || s.capXruns + 1 > MAX_XRUNS;
      s.(sp := S.Apply(s.sp, S.Abort), capXruns := if device then s.capXruns else s.capXruns + 1,
         error := s.error || fatal, cap := if fatal then CExit else CTop)
    case CFilled(p) =>
      s.(sp := S.Apply(s.sp, S.Fill(CaptureFrame(cfg, s).(size := FramesToBytes(cfg, p.n)))),
         capFrames := (s.capFrames + p.n) % U32, capTotal := s.capTotal + p.n, cap := CCounted(p))
    case CCounted(p) =>
      s.(sp := S.Apply(s.sp, S.Commit), captured := s.captured + [p], playedBy := s.playedBy + [0], cap := CTop)
  }

  function CodecStep(cfg: Config, s: Stream): Stream
    requires CodecEnabled(cfg, s)
  {
    match s.codec
    case KTop => s.(codec := if s.running then KTake else KDrain)
    case KTake =>
      var sp := S.Apply(s.sp, TakeStep(s.sp));
      s.(sp := sp, codec := if sp.held != {} then KAcquire else if sp.cons.CIdle? then KTop else KTake)
    case KAcquire =>
      var mp := M.Apply(s.mp, ClaimStep(s.mp));
      s.(mp := mp, codec := if mp.prods[0].Owns? then KCopy else if mp.prods[0].Idle? then KNoRoom else KAcquire)
    case KNoRoom =>
      s.(dropFrames := (s.dropFrames + cfg.period) % U32, codecDrops := s.codecDrops + 1, codec := KDropped)
    case KDropped => s.(sp := S.Apply(s.sp, S.Release(Last(s))), codec := KTop)
    case KCopy =>
      var f, frame := s.mp.prods[0].f, CodecFrame(cfg, s);
      s.(mpData := s.mpData[f := Frame(Overwrite(s.mpData[f].buf, frame.Payload()), frame.size)],
         origin := s.origin[f := Last(s)], codec := KCopied)
    case KCopied =>
      s.(sp := S.Apply(s.sp, S.Release(Last(s))), forwarded := s.forwarded + 1, codec := KSend)
    case KSend =>
      var mp := M.Apply(s.mp, EnqueueStep(s.mp));
      s.(mp := mp, codec := if mp.prods[0].Idle? then KTop else KSend)
    case KDrain =>
      var sp := S.Apply(s.sp, TakeStep(s.sp));
      s.(sp := sp, codec := if sp.held != {} then KDrained else if sp.cons.CIdle? then KProbe(0) else KDrain)
    case KDrained =>
      s.(sp := S.Apply(s.sp, S.Release(Last(s))), drained := s.drained + 1, codec := KDrain)
    case KProbe(retry) =>
      var mp := M.Apply(s.mp, ClaimStep(s.mp));
      s.(mp := mp,
         codec := if mp.prods[0].Owns? then KZero
                  else if !mp.prods[0].Idle? then KProbe(retry)
                  else if retry + 1 < SENTINEL_RETRIES then KProbe(retry + 1) else KExit)
    case KZero =>
      var f := s.mp.prods[0].f;
      s.(mpData := s.mpData[f := s.mpData[f].(size := 0)], origin := s.origin[f := -1], codec := KSendLast)
    case KSendLast =>
      var mp := M.Apply(s.mp, EnqueueStep(s.mp));
      s.(mp := mp, codec := if mp.prods[0].Idle? then KExit else KSendLast)
  }

  function PlaybackStep(cfg: Config, s: Stream, write: WriteResult): Stream
    requires PlaybackEnabled(cfg, s, write)
  {
    match s.play
    case PTop => s.(play := if s.running then PTake else PExit)
    case PTake =>
      var mp := M.Apply(s.mp, DequeueStep(s.mp));
      s.(mp := mp, play := if mp.cons.Holding? then PHold else if mp.cons.Resting? then PTop else PTake)
    case PHold => OutputStep(cfg, s, write)
    case PWrote(n) => s.(pbFrames := (s.pbFrames + n) % U32, pbTotal := s.pbTotal + n, play := PRelease(false))
    case PRelease(last) => s.(mp := M.Apply(s.mp, M.Release), play := if last then PExit else PTop)
  }

  // An empty frame is the sentinel; anything else goes to the device.
  function OutputStep(cfg: Config, s: Stream, write: WriteResult): Stream
    requires PlaybackEnabled(cfg, s, write) && s.play.PHold?
  {
    var frame, k := s.mpData[s.mp.cons.f], s.origin[s.mp.cons.f];
    var sentinel := frame.size == 0;
    var fatal := !sentinel && (write.WriteError? || (write.WriteXrun? && s.playXruns + 1 > MAX_XRUNS));
    var out := Given(k, Prefix(frame.buf, FramesToBytes(cfg, BytesToFrames(cfg, frame.size))));
    s.(given := if sentinel then s.given else s.given + [out],
       playXruns := if sentinel || write.WriteError? then s.playXruns else if write.Wrote? then 0 else s.playXruns + 1,
       error := s.error || fatal,
       mistaken := if sentinel && k >= 0 then s.mistaken + 1 else s.mistaken,
       playedBy := if !sentinel && write.Wrote? && 0 <= k < |s.playedBy| then s.playedBy[k := write.n] else s.playedBy,
       play := if sentinel then PRelease(true) else if write.Wrote? then PWrote(write.n) else PRelease(fatal))
  }

  function SpuriousStep(cfg: Config, s: Stream): Stream
    requires SpuriousEnabled(cfg, s)
  {
    s.(mp := M.Apply(s.mp, M.Spurious))
  }

  function StopStep(cfg: Config, s: Stream): Stream
    requires StopEnabled(cfg, s)
  {
    match s.stopper
    case SRun => s.(running := false, stopper := SJoinCapture)
    case SJoinCapture => s.(stopper := SJoinCodec)
    case SJoinCodec => s.(stopper := SJoinPlayback)
    case SJoinPlayback => s.(stopper := SDone)
  }

  // A ready frame of the second pool is empty.
  predicate EmptyReady(cfg: Config, s: Stream)
    requires Sized(cfg, s)
  {
    exists i :: 0 <= i < cfg.poolFrames && s.mp.refs[i] >= 2 && s.mpData[i].size == 0
  }

  // Flags and counters begin anew; both pools stay as the last run left them.
  function StartStep(cfg: Config, s: Stream): Stream
    requires StartEnabled(cfg, s)
  {
    s.(running := true, error := false, capFrames := 0, pbFrames := 0, dropFrames := 0,
       cap := CTop, capXruns := 0, codec := KTop, play := PTop, playXruns := 0, stopper := SRun,
       since := Since(s.since.starts + 1, s.capTotal, s.pbTotal, s.misses + s.codecDrops, s.sp.r, EmptyReady(cfg, s)))
  }

  function Apply(cfg: Config, s: Stream, a: Step): Stream
    requires Enabled(cfg, s, a)
  {
    match a
    case Capture(read) => CaptureStep(cfg, s, read)
    case Codec => CodecStep(cfg, s)
    case Playback(write) => PlaybackStep(cfg, s, write)
    case Spurious => SpuriousStep(cfg, s)
    case Stop => StopStep(cfg, s)
    case Start => StartStep(cfg, s)
  }

  predicate Possible(cfg: Config, s: Stream, steps: seq<Step>)
    decreases |steps|
  {
    steps == [] || (Enabled(cfg, s, steps[0]) && Possible(cfg, Apply(cfg, s, steps[0]), steps[1..]))
  }

  function Exec(cfg: Config, s: Stream, steps: seq<Step>): Stream
    requires Possible(cfg, s, steps)
    decreases |steps|
  {
    if steps == [] then s else Exec(cfg, Apply(cfg, s, steps[0]), steps[1..])
  }
}
