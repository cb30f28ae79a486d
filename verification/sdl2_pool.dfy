/**
 The frame pool of the SDL2 display (src/video_display/sdl2.cpp): the
 free-frame queue the decoder takes buffers from (`display_sdl2_getf`),
 the ways a buffer comes back (`display_sdl2_putf`, `display_frame`), and
 the rebuild of the pool on reconfiguration (`cleanup_frames`,
 `recreate_textures`).

 Threads and locks are not modelled. A wait on `frame_consumed_cv` becomes a
 precondition that the queue is non-empty, and each call sees the state as
 it is once the wait has returned. The SDL event queue holding new-frame
 events becomes the `posted` sequence; `None` stands for the NULL frame
 that asks the display thread to stop. SDL texture calls, rendering and
 deinterlacing are left out. Whether `SDL_CreateTexture` succeeds is an
 input.

 As written, `display_frame` tells a window-resize redraw from a new frame
 only by comparing the frame with `last_frame`. A new frame that happens to
 be the frame displayed last is therefore never queued again, and the pool
 loses it (`LeakAsWritten`). `DisplayNewFrame` and `Redraw` keep the two cases
 apart, and the pool keeps every buffer (`RunKeepsBuffers`).
 */
module Sdl2Pool {
  import opened Text
  import C = Codecs

  const BUFFER_COUNT: nat := 2

  /** The `video_desc` fields the pool uses. */
  datatype VideoDesc = VideoDesc(width: nat, height: nat, colorSpec: C.Codec)

  /** A `video_frame` with its streaming texture; `id` is its identity
      (the pointer the source compares). */
  datatype Frame = Frame(id: nat, desc: VideoDesc)

  /** `free_frame_queue`, `last_frame`, the new-frame events waiting in the
      SDL queue, and the identity the next allocated frame gets. */
  datatype Pool = Pool(free: seq<Frame>, last: Option<Frame>, posted: seq<Option<Frame>>, nextId: nat)

  // ---------------------------------------------------------------------
  // Ownership

  /** The frames travelling in the SDL queue. */
  function PostedFrames(events: seq<Option<Frame>>): multiset<Frame>
    decreases |events|
  {
    if |events| == 0 then multiset{}
    else (if events[0].Some? then multiset{events[0].value} else multiset{}) + PostedFrames(events[1..])
  }

  lemma {:induction false} PostedAppend(a: seq<Option<Frame>>, b: seq<Option<Frame>>)
    ensures PostedFrames(a + b) == PostedFrames(a) + PostedFrames(b)
    decreases |a|
  {
    if |a| == 0 {
      assert a + b == b;
    } else {
      assert (a + b)[0] == a[0];
      assert (a + b)[1..] == a[1..] + b;
      PostedAppend(a[1..], b);
    }
  }

  function Single(f: Option<Frame>): multiset<Frame> {
    if f.Some? then multiset{f.value} else multiset{}
  }

  lemma PostedOne(a: seq<Option<Frame>>, f: Option<Frame>)
    ensures PostedFrames(a + [f]) == PostedFrames(a) + Single(f)
  {
    PostedAppend(a, [f]);
    assert [f][1..] == [];
  }

  /** Every buffer is in exactly one place: free, held by the decoder
      between `getf` and `putf`, or posted to the display thread. */
  function Owned(p: Pool, held: multiset<Frame>): multiset<Frame> {
    multiset(p.free) + held + PostedFrames(p.posted)
  }

  // ---------------------------------------------------------------------
  // getf / putf

  /** `display_sdl2_getf`: the wait returns once the queue is non-empty,
      and the front frame leaves it. */
  function Getf(p: Pool): (r: (Pool, Frame))
    requires |p.free| > 0
    ensures multiset(r.0.free) + multiset{r.1} == multiset(p.free)
    ensures r.1 == p.free[0] && r.0.free == p.free[1..]
    ensures r.0.last == p.last && r.0.posted == p.posted && r.0.nextId == p.nextId
  {
    assert p.free == [p.free[0]] + p.free[1..];
    (p.(free := p.free[1..]), p.free[0])
  }

  /** The `timeout_ns` of `display_sdl2_putf`: `PUTF_DISCARD`,
      `PUTF_BLOCKING`, or a time; a positive time waits at most that long
      for a free buffer, any other does not wait. */
  datatype Timeout = Discard | Blocking | Nanoseconds(ns: int)

  /** `display_sdl2_putf`: a discarded frame goes straight back to the
      queue. A frame that finds the queue empty after the wait is dropped:
      it goes back to the queue and 1 is returned. Any other frame, and the
      NULL frame, is posted to the display thread. */
  function Putf(p: Pool, frame: Option<Frame>, t: Timeout): (r: (Pool, int))
    requires t.Discard? ==> frame.Some?
    requires t.Blocking? && frame.Some? ==> |p.free| > 0
    ensures r.1 == 1 <==> !t.Discard? && frame.Some? && |p.free| == 0
    ensures r.1 == 0 || r.1 == 1
    ensures (t.Discard? || r.1 == 1) ==> r.0 == p.(free := p.free + [frame.value])
    ensures !t.Discard? && r.1 == 0 ==> r.0 == p.(posted := p.posted + [frame])
  {
    if t.Discard? then (p.(free := p.free + [frame.value]), 0)
    else if frame.Some? && |p.free| == 0 then (p.(free := p.free + [frame.value]), 1)
    else (p.(posted := p.posted + [frame]), 0)
  }

  // ---------------------------------------------------------------------
  // display_frame

  /** `display_frame` as written: nothing for NULL; a frame equal to
      `last_frame` is taken for a redraw and not queued; any other frame
      is queued and becomes `last_frame`. */
  function DisplayFrameAsWritten(p: Pool, frame: Option<Frame>): (r: Pool)
    ensures frame.None? || frame == p.last ==> r == p
    ensures frame.Some? && frame != p.last ==>
              r.free == p.free + [frame.value] && r.last == frame
    ensures r.posted == p.posted && r.nextId == p.nextId
  {
    if frame.None? || frame == p.last then p
    else p.(free := p.free + [frame.value], last := frame)
  }

  /** A new frame from the decoder: shown, queued again at the back of the
      free queue, remembered. */
  function DisplayNewFrame(p: Pool, f: Frame): (r: Pool)
    ensures r.free == p.free + [f] && multiset(r.free) == multiset(p.free) + multiset{f}
    ensures r.last == Some(f) && r.posted == p.posted && r.nextId == p.nextId
  {
    p.(free := p.free + [f], last := Some(f))
  }

  /** The `SDL_WINDOWEVENT_EXPOSED` / `SIZE_CHANGED` branch: the last frame
      is drawn twice more and nothing is queued. */
  function Redraw(p: Pool): (r: Pool)
    ensures r == p
  {
    DisplayFrameAsWritten(DisplayFrameAsWritten(p, p.last), p.last)
  }

  /** The new-frame branch of `display_sdl2_run` as written: the next event
      is displayed, or stops the loop when it carries NULL. */
  function OnNewFrameAsWritten(p: Pool): (r: (Pool, bool))
    requires |p.posted| > 0
    ensures r.1 <==> p.posted[0].None?
  {
    var p1 := p.(posted := p.posted[1..]);
    match p.posted[0]
    case Some(f) => (DisplayFrameAsWritten(p1, Some(f)), false)
    case None => (p1, true)
  }

  /** The new-frame branch with new frames and redraws kept apart. */
  function OnNewFrame(p: Pool): (r: (Pool, bool))
    requires |p.posted| > 0
    ensures r.1 <==> p.posted[0].None?
  {
    var p1 := p.(posted := p.posted[1..]);
    match p.posted[0]
    case Some(f) => (DisplayNewFrame(p1, f), false)
    case None => (p1, true)
  }

  /** The two differ exactly when the event carries the frame displayed
      last; then the frame is lost to the pool as written. */
  lemma AsWrittenDiffersOnRepeat(p: Pool, held: multiset<Frame>)
    requires |p.posted| > 0
    ensures OnNewFrameAsWritten(p) != OnNewFrame(p) <==> p.posted[0].Some? && p.posted[0] == p.last
    ensures p.posted[0].Some? && p.posted[0] == p.last ==>
              Owned(OnNewFrameAsWritten(p).0, held) + multiset{p.last.value} == Owned(p, held)
  {
    assert p.posted == [p.posted[0]] + p.posted[1..];
    if p.posted[0].Some? && p.posted[0] == p.last {
      var f := p.last.value;
      assert multiset(p.free + [f])[f] == multiset(p.free)[f] + 1;
    }
  }

  // ---------------------------------------------------------------------
  // cleanup_frames / recreate_textures

  /** `cleanup_frames`: `last_frame` is forgotten and every queued frame is
      destroyed (returned in queue order). */
  function CleanupFrames(p: Pool): (r: (Pool, seq<Frame>))
    ensures r.0.free == [] && r.0.last.None?
    ensures r.1 == p.free
    ensures r.0.posted == p.posted && r.0.nextId == p.nextId
  {
    (p.(free := [], last := None), p.free)
  }

  /** How many textures `SDL_CreateTexture` makes before the first failure. */
  function LeadingOk(oks: seq<bool>): (n: nat)
    ensures n <= |oks|
    ensures forall i :: 0 <= i < n ==> oks[i]
    ensures n < |oks| ==> !oks[n]
  {
    if |oks| == 0 || !oks[0] then 0 else 1 + LeadingOk(oks[1..])
  }

  /** `n` fresh frames for `desc`, numbered from `base`. */
  function NewFrames(base: nat, desc: VideoDesc, n: nat): (fs: seq<Frame>)
    ensures |fs| == n
    ensures forall i :: 0 <= i < n ==> fs[i] == Frame(base + i, desc)
  {
    if n == 0 then [] else NewFrames(base, desc, n - 1) + [Frame(base + n - 1, desc)]
  }

  /** `recreate_textures`: after `cleanup_frames`, one frame per texture
      created; the first failure returns false and keeps the frames made
      before it. `textureOk[i]` is whether the i-th texture is created. */
  function RecreateTextures(p: Pool, desc: VideoDesc, textureOk: seq<bool>): (r: (Pool, bool))
    requires |textureOk| == BUFFER_COUNT
    ensures r.1 <==> forall i :: 0 <= i < BUFFER_COUNT ==> textureOk[i]
    ensures r.1 ==> |r.0.free| == BUFFER_COUNT
    ensures !r.1 ==> |r.0.free| < BUFFER_COUNT && !textureOk[|r.0.free|]
    ensures forall i :: 0 <= i < |r.0.free| ==> textureOk[i]
    ensures forall i :: 0 <= i < |r.0.free| ==> r.0.free[i].desc == desc && r.0.free[i].id >= p.nextId
    ensures forall i, j :: 0 <= i < j < |r.0.free| ==> r.0.free[i] != r.0.free[j]
    ensures r.0.last.None? && r.0.posted == p.posted
    ensures r.0.nextId == p.nextId + |r.0.free|
    ensures forall f :: f in r.0.free ==> f.id < r.0.nextId
  {
    var cleaned := CleanupFrames(p).0;
    var n := LeadingOk(textureOk);
    (cleaned.(free := NewFrames(p.nextId, desc, n), nextId := p.nextId + n), n == BUFFER_COUNT)
  }

  // ---------------------------------------------------------------------
  // The pool as a whole

  /** The pool, the frames the decoder holds, the buffers that exist, and
      whether the display loop has stopped. */
  datatype Sys = Sys(pool: Pool, held: multiset<Frame>, buffers: multiset<Frame>, stopped: bool)

  datatype Step =
    | GetfStep
    | PutfStep(frame: Option<Frame>, timeout: Timeout)
    | EventStep
    | RedrawStep
    | ReconfigureStep(desc: VideoDesc, textureOk: seq<bool>)

  /** When each step can happen. A decoder hands back only frames it holds.
      A reconfiguration event is processed after every new-frame event
      posted before it (the SDL queue is FIFO) and while the decoder holds
      no frame. */
  predicate Enabled(s: Sys, st: Step) {
    match st
    case GetfStep => |s.pool.free| > 0
    case PutfStep(frame, t) =>
      (t.Discard? ==> frame.Some?) &&
      (t.Blocking? && frame.Some? ==> |s.pool.free| > 0) &&
      (frame.Some? ==> frame.value in s.held)
    case EventStep => |s.pool.posted| > 0 && !s.stopped
    case RedrawStep => true
    case ReconfigureStep(_, oks) => |oks| == BUFFER_COUNT && s.pool.posted == [] && s.held == multiset{}
  }

  /** One step; `asWritten` selects the source's `display_frame`. */
  function Next(s: Sys, st: Step, asWritten: bool): (r: Sys)
    requires Enabled(s, st)
  {
    match st
    case GetfStep =>
      var (p, f) := Getf(s.pool);
      s.(pool := p, held := s.held + multiset{f})
    case PutfStep(frame, t) =>
      var (p, _) := Putf(s.pool, frame, t);
      s.(pool := p, held := s.held - Single(frame))
    case EventStep =>
      var (p, stop) := if asWritten then OnNewFrameAsWritten(s.pool) else OnNewFrame(s.pool);
      s.(pool := p, stopped := stop)
    case RedrawStep => s.(pool := Redraw(s.pool))
    case ReconfigureStep(desc, oks) =>
      var (p, _) := RecreateTextures(s.pool, desc, oks);
      s.(pool := p, buffers := multiset(p.free))
  }

  /** Every buffer that exists is in exactly one place. */
  predicate Conserved(s: Sys) {
    Owned(s.pool, s.held) == s.buffers
  }

  lemma GetfKeepsBuffers(p: Pool, held: multiset<Frame>)
    requires |p.free| > 0
    ensures Owned(Getf(p).0, held + multiset{Getf(p).1}) == Owned(p, held)
  {
  }

  lemma PutfKeepsBuffers(p: Pool, held: multiset<Frame>, frame: Option<Frame>, t: Timeout)
    requires t.Discard? ==> frame.Some?
    requires t.Blocking? && frame.Some? ==> |p.free| > 0
    requires frame.Some? ==> frame.value in held
    ensures Owned(Putf(p, frame, t).0, held - Single(frame)) == Owned(p, held)
  {
    PostedOne(p.posted, frame);
    if frame.Some? {
      assert held == held - Single(frame) + multiset{frame.value};
    }
  }

  lemma EventKeepsBuffers(p: Pool, held: multiset<Frame>)
    requires |p.posted| > 0
    ensures Owned(OnNewFrame(p).0, held) == Owned(p, held)
  {
    assert p.posted == [p.posted[0]] + p.posted[1..];
  }

  /** With new frames and redraws kept apart, every step keeps every
      buffer in exactly one place. */
  lemma StepKeepsBuffers(s: Sys, st: Step)
    requires Enabled(s, st) && Conserved(s)
    ensures Conserved(Next(s, st, false))
  {
    match st
    case GetfStep => GetfKeepsBuffers(s.pool, s.held);
    case PutfStep(frame, t) => PutfKeepsBuffers(s.pool, s.held, frame, t);
    case EventStep => EventKeepsBuffers(s.pool, s.held);
    case RedrawStep =>
    case ReconfigureStep(desc, oks) =>
  }

  function Run(s: Sys, steps: seq<Step>, asWritten: bool): Option<Sys>
    decreases |steps|
  {
    if |steps| == 0 then Some(s)
    else if !Enabled(s, steps[0]) then None
    else Run(Next(s, steps[0], asWritten), steps[1..], asWritten)
  }

  /** Buffer conservation for any run of enabled steps. */
  lemma {:induction false} RunKeepsBuffers(s: Sys, steps: seq<Step>)
    requires Conserved(s)
    requires Run(s, steps, false).Some?
    ensures Conserved(Run(s, steps, false).value)
    decreases |steps|
  {
    if |steps| > 0 {
      StepKeepsBuffers(s, steps[0]);
      RunKeepsBuffers(Next(s, steps[0], false), steps[1..]);
    }
  }

  /** A frame listed once is counted once. */
  lemma {:induction false} DistinctOnce(fs: seq<Frame>, f: Frame)
    requires forall i, j :: 0 <= i < j < |fs| ==> fs[i] != fs[j]
    requires f in fs
    ensures multiset(fs)[f] == 1
    decreases |fs|
  {
    assert fs == [fs[0]] + fs[1..];
    if fs[0] == f {
      assert f !in fs[1..] by {
        forall k | 0 <= k < |fs[1..]| ensures fs[1..][k] != f {
          assert fs[1..][k] == fs[k + 1];
        }
      }
    } else {
      DistinctOnce(fs[1..], f);
    }
  }

  /** A successful reconfiguration leaves exactly `BUFFER_COUNT` distinct
      buffers, all free. */
  lemma ReconfigureMakesBuffers(s: Sys, desc: VideoDesc, oks: seq<bool>)
    requires Enabled(s, ReconfigureStep(desc, oks))
    requires forall i :: 0 <= i < BUFFER_COUNT ==> oks[i]
    ensures var r := Next(s, ReconfigureStep(desc, oks), false);
            Conserved(r) && |r.buffers| == BUFFER_COUNT && r.held == multiset{} &&
            forall f :: f in r.buffers ==> r.buffers[f] == 1 && f.desc == desc
  {
    var fs := RecreateTextures(s.pool, desc, oks).0.free;
    forall f: Frame | f in multiset(fs) ensures multiset(fs)[f] == 1 && f.desc == desc {
      DistinctOnce(fs, f);
    }
  }

  // ---------------------------------------------------------------------
  // The leak as written

  const DESC0: VideoDesc := VideoDesc(1920, 1080, C.UYVY)
  const FRAME_A: Frame := Frame(0, DESC0)
  const FRAME_B: Frame := Frame(1, DESC0)

  /** The pool right after a successful reconfiguration. */
  const START: Sys := Sys(Pool([FRAME_A, FRAME_B], None, [], 2), multiset{}, multiset{FRAME_A, FRAME_B}, false)

  /** A's frame is displayed; B is taken and discarded; A is taken and
      posted again while it is still the last frame displayed. */
  const LEAK_STEPS: seq<Step> := [
    GetfStep, PutfStep(Some(FRAME_A), Nanoseconds(0)), EventStep,
    GetfStep, PutfStep(Some(FRAME_B), Discard),
    GetfStep, PutfStep(Some(FRAME_A), Nanoseconds(0)), EventStep]

  /** One step of a run, at position `i`. */
  lemma RunFrom(s: Sys, steps: seq<Step>, i: nat, asWritten: bool)
    requires i < |steps| && Enabled(s, steps[i])
    ensures Run(s, steps[i..], asWritten) == Run(Next(s, steps[i], asWritten), steps[i + 1..], asWritten)
  {
    assert steps[i..][0] == steps[i];
    assert steps[i..][1..] == steps[i + 1..];
  }

  const BUFFERS: multiset<Frame> := multiset{FRAME_A, FRAME_B}

  // The steps of the run, for any state they apply to.

  lemma GetfNext(s: Sys, asWritten: bool)
    requires |s.pool.free| > 0
    ensures Next(s, GetfStep, asWritten) ==
              s.(pool := s.pool.(free := s.pool.free[1..]), held := s.held + multiset{s.pool.free[0]})
  {
  }

  lemma PostNext(s: Sys, f: Frame, asWritten: bool)
    requires |s.pool.free| > 0 && f in s.held
    ensures Next(s, PutfStep(Some(f), Nanoseconds(0)), asWritten) ==
              s.(pool := s.pool.(posted := s.pool.posted + [Some(f)]), held := s.held - multiset{f})
  {
  }

  lemma DiscardNext(s: Sys, f: Frame, asWritten: bool)
    requires f in s.held
    ensures Next(s, PutfStep(Some(f), Discard), asWritten) ==
              s.(pool := s.pool.(free := s.pool.free + [f]), held := s.held - multiset{f})
  {
  }

  lemma ShowNext(s: Sys, f: Frame, asWritten: bool)
    requires s.pool.posted == [Some(f)] && !s.stopped && s.pool.last != Some(f)
    ensures Next(s, EventStep, asWritten) ==
              s.(pool := s.pool.(free := s.pool.free + [f], last := Some(f), posted := []))
  {
    assert s.pool.posted[1..] == [];
  }

  lemma RepeatNext(s: Sys, f: Frame)
    requires s.pool.posted == [Some(f)] && !s.stopped && s.pool.last == Some(f)
    ensures Next(s, EventStep, true) == s.(pool := s.pool.(posted := []))
    ensures Next(s, EventStep, false) == s.(pool := s.pool.(free := s.pool.free + [f], posted := []))
  {
    assert s.pool.posted[1..] == [];
  }

  // The states along the run.

  const S1: Sys := Sys(Pool([FRAME_B], None, [], 2), multiset{FRAME_A}, BUFFERS, false)
  const S2: Sys := Sys(Pool([FRAME_B], None, [Some(FRAME_A)], 2), multiset{}, BUFFERS, false)
  const S3: Sys := Sys(Pool([FRAME_B, FRAME_A], Some(FRAME_A), [], 2), multiset{}, BUFFERS, false)
  const S4: Sys := Sys(Pool([FRAME_A], Some(FRAME_A), [], 2), multiset{FRAME_B}, BUFFERS, false)
  const S5: Sys := Sys(Pool([FRAME_A, FRAME_B], Some(FRAME_A), [], 2), multiset{}, BUFFERS, false)
  const S6: Sys := Sys(Pool([FRAME_B], Some(FRAME_A), [], 2), multiset{FRAME_A}, BUFFERS, false)
  /** A is posted again, B is free, and A is still `last_frame`. */
  const S7: Sys := Sys(Pool([FRAME_B], Some(FRAME_A), [Some(FRAME_A)], 2), multiset{}, BUFFERS, false)

  lemma Leak1(asWritten: bool)
    ensures Run(START, LEAK_STEPS, asWritten) == Run(S1, LEAK_STEPS[1..], asWritten)
  {
    GetfNext(START, asWritten);
    assert [FRAME_A, FRAME_B][1..] == [FRAME_B];
    assert LEAK_STEPS[0..] == LEAK_STEPS;
    RunFrom(START, LEAK_STEPS, 0, asWritten);
  }

  lemma Leak2(asWritten: bool)
    ensures Run(S1, LEAK_STEPS[1..], asWritten) == Run(S2, LEAK_STEPS[2..], asWritten)
  {
    PostNext(S1, FRAME_A, asWritten);
    assert [] + [Some(FRAME_A)] == [Some(FRAME_A)];
    RunFrom(S1, LEAK_STEPS, 1, asWritten);
  }

  lemma Leak3(asWritten: bool)
    ensures Run(S2, LEAK_STEPS[2..], asWritten) == Run(S3, LEAK_STEPS[3..], asWritten)
  {
    ShowNext(S2, FRAME_A, asWritten);
    RunFrom(S2, LEAK_STEPS, 2, asWritten);
  }

  lemma Leak4(asWritten: bool)
    ensures Run(S3, LEAK_STEPS[3..], asWritten) == Run(S4, LEAK_STEPS[4..], asWritten)
  {
    GetfNext(S3, asWritten);
    assert [FRAME_B, FRAME_A][1..] == [FRAME_A];
    RunFrom(S3, LEAK_STEPS, 3, asWritten);
  }

  lemma Leak5(asWritten: bool)
    ensures Run(S4, LEAK_STEPS[4..], asWritten) == Run(S5, LEAK_STEPS[5..], asWritten)
  {
    DiscardNext(S4, FRAME_B, asWritten);
    RunFrom(S4, LEAK_STEPS, 4, asWritten);
  }

  lemma Leak6(asWritten: bool)
    ensures Run(S5, LEAK_STEPS[5..], asWritten) == Run(S6, LEAK_STEPS[6..], asWritten)
  {
    GetfNext(S5, asWritten);
    assert [FRAME_A, FRAME_B][1..] == [FRAME_B];
    RunFrom(S5, LEAK_STEPS, 5, asWritten);
  }

  lemma Leak7(asWritten: bool)
    ensures Run(S6, LEAK_STEPS[6..], asWritten) == Run(S7, LEAK_STEPS[7..], asWritten)
  {
    PostNext(S6, FRAME_A, asWritten);
    assert [] + [Some(FRAME_A)] == [Some(FRAME_A)];
    RunFrom(S6, LEAK_STEPS, 6, asWritten);
  }

  /** The first seven steps are the same for both versions of
      `display_frame`: no frame repeats the last one displayed. */
  lemma LeakPrefix(asWritten: bool)
    ensures Run(START, LEAK_STEPS, asWritten) == Run(S7, LEAK_STEPS[7..], asWritten)
  {
    Leak1(asWritten);
    Leak2(asWritten);
    Leak3(asWritten);
    Leak4(asWritten);
    Leak5(asWritten);
    Leak6(asWritten);
    Leak7(asWritten);
  }

  /** The last step of a run of eight. */
  lemma LeakLast(asWritten: bool)
    ensures Run(S7, LEAK_STEPS[7..], asWritten) == Some(Next(S7, EventStep, asWritten))
  {
    RunFrom(S7, LEAK_STEPS, 7, asWritten);
    assert LEAK_STEPS[8..] == [];
  }

  /** As written, the run ends with one free buffer and nothing held or
      posted: A is gone for good, since no step can bring it back. */
  lemma LeakAsWritten()
    ensures Conserved(START)
    ensures var r := Run(START, LEAK_STEPS, true);
            r.Some? && r.value.pool.free == [FRAME_B] && r.value.held == multiset{} &&
            r.value.pool.posted == [] && !Conserved(r.value)
  {
    assert multiset([FRAME_A, FRAME_B]) == BUFFERS;
    LeakPrefix(true);
    LeakLast(true);
    RepeatNext(S7, FRAME_A);
    var end := Next(S7, EventStep, true);
    assert Owned(end.pool, end.held) == multiset{FRAME_B};
  }

  /** With the correction the same run ends with both buffers free. */
  lemma NoLeakCorrected()
    ensures var r := Run(START, LEAK_STEPS, false);
            r.Some? && r.value.pool.free == [FRAME_B, FRAME_A] && Conserved(r.value)
  {
    LeakPrefix(false);
    LeakLast(false);
    RepeatNext(S7, FRAME_A);
    assert multiset([FRAME_B, FRAME_A]) == BUFFERS;
  }
}
