/**
 `display_sdl2_reconfigure_real` of src/video_display/sdl2.cpp: on a new
 video format the window, renderer and textures are made again. When the
 size is fixed and a window exists, only the renderer's logical size and
 the textures change.

 SDL is outside the model. Whether `SDL_CreateWindow`,
 `SDL_CreateRenderer` and each `SDL_CreateTexture` succeed is an input
 (`Outcome`), and so is the `window-title` command-line parameter. A
 created window is recorded with the arguments it was created with.
 */
module Sdl2Reconfigure {
  import opened Text
  import opened Sdl2Options
  import opened Sdl2Pool

  // SDL_video.h
  const SDL_WINDOW_RESIZABLE: bv32 := 0x20
  const SDL_WINDOW_ALLOW_HIGHDPI: bv32 := 0x2000
  const SDL_WINDOW_FULLSCREEN_DESKTOP: bv32 := 0x1001

  const DEFAULT_TITLE: string := "UltraGrid - SDL2 Display"

  /** `SDL_WINDOWPOS_CENTERED_DISPLAY(X)`: the unsigned mask 0x2FFF0000
      or-ed with `X`, stored back into an `int`. The mask's low half is
      zero, so only the high halves are or-ed. */
  function CenteredDisplay(idx: int): int
  {
    var u := idx % 0x1_0000_0000;
    var high := (0x2FFF as bv16 | (u / 0x1_0000) as bv16) as int;
    Wrap32(high * 0x1_0000 + u % 0x1_0000)
  }

  /** For every display index SDL can have, the centred position is the
      mask plus the index, distinct from the undefined position. */
  lemma CenteredSmallDisplay(idx: int)
    requires 0 <= idx < 0x1_0000
    ensures CenteredDisplay(idx) == 0x2FFF_0000 + idx
    ensures CenteredDisplay(idx) != SDL_WINDOWPOS_UNDEFINED
  {
    assert idx % 0x1_0000_0000 == idx;
    assert idx / 0x1_0000 == 0;
    assert (0x2FFF as bv16 | 0 as bv16) as int == 0x2FFF;
  }

  /** The arguments of `SDL_CreateWindow`. */
  datatype Window = Window(title: string, x: int, y: int, width: int, height: int, flags: bv32)

  /** The display state the reconfiguration reads and writes. */
  datatype Display = Display(
    cfg: Config,
    window: Option<Window>,
    hasRenderer: bool,
    logicalSize: Option<(nat, nat)>,
    pool: Pool,
    current: VideoDesc)

  /** What SDL and the command line answer during one reconfiguration. */
  datatype Outcome = Outcome(windowOk: bool, rendererOk: bool, textureOk: seq<bool>, titleParam: Option<string>)

  /** The flags the window is created with: the user's, resizable and
      high-DPI, and full-screen desktop when requested. */
  function WindowFlags(cfg: Config): (f: bv32)
    ensures f & cfg.windowFlags == cfg.windowFlags
    ensures f & SDL_WINDOW_RESIZABLE != 0 && f & SDL_WINDOW_ALLOW_HIGHDPI != 0
    ensures cfg.fullscreen ==> f & SDL_WINDOW_FULLSCREEN_DESKTOP == SDL_WINDOW_FULLSCREEN_DESKTOP
    ensures !cfg.fullscreen ==> f == cfg.windowFlags | SDL_WINDOW_RESIZABLE | SDL_WINDOW_ALLOW_HIGHDPI
  {
    var flags := cfg.windowFlags | SDL_WINDOW_RESIZABLE | SDL_WINDOW_ALLOW_HIGHDPI;
    if cfg.fullscreen then flags | SDL_WINDOW_FULLSCREEN_DESKTOP else flags
  }

  /** The window a reconfiguration to `desc` asks SDL for. */
  function NewWindow(cfg: Config, desc: VideoDesc, titleParam: Option<string>): (w: Window)
    ensures w.title == (if titleParam.Some? then titleParam.value else DEFAULT_TITLE)
    ensures w.width == (if cfg.fixedW != 0 then cfg.fixedW else desc.width)
    ensures w.height == (if cfg.fixedH != 0 then cfg.fixedH else desc.height)
    ensures cfg.x != SDL_WINDOWPOS_UNDEFINED ==> w.x == cfg.x
    ensures cfg.y != SDL_WINDOWPOS_UNDEFINED ==> w.y == cfg.y
    ensures cfg.x == SDL_WINDOWPOS_UNDEFINED ==> w.x == CenteredDisplay(cfg.displayIdx)
    ensures cfg.y == SDL_WINDOWPOS_UNDEFINED ==> w.y == CenteredDisplay(cfg.displayIdx)
    ensures w.flags == WindowFlags(cfg)
  {
    var title := match titleParam case Some(t) => t case None => DEFAULT_TITLE;
    var width := if cfg.fixedW != 0 then cfg.fixedW else desc.width;
    var height := if cfg.fixedH != 0 then cfg.fixedH else desc.height;
    var x := if cfg.x == SDL_WINDOWPOS_UNDEFINED then CenteredDisplay(cfg.displayIdx) else cfg.x;
    var y := if cfg.y == SDL_WINDOWPOS_UNDEFINED then CenteredDisplay(cfg.displayIdx) else cfg.y;
    Window(title, x, y, width, height, WindowFlags(cfg))
  }

  /** The branch `display_sdl2_reconfigure_real` takes. */
  predicate KeepsWindow(d: Display) {
    d.cfg.fixedSize && d.window.Some?
  }

  /** `display_sdl2_reconfigure_real`: the new state and its status. */
  function ReconfigureReal(d: Display, desc: VideoDesc, o: Outcome): (r: (Display, bool))
    requires |o.textureOk| == BUFFER_COUNT
    ensures r.0.cfg == d.cfg
    ensures KeepsWindow(d) ==>
              r.0.window == d.window && r.0.current == d.current &&
              r.0.logicalSize == Some((desc.width, desc.height)) &&
              (r.1 <==> forall i :: 0 <= i < BUFFER_COUNT ==> o.textureOk[i])
    ensures !KeepsWindow(d) ==>
              (r.1 <==> o.windowOk && o.rendererOk && forall i :: 0 <= i < BUFFER_COUNT ==> o.textureOk[i])
    ensures !KeepsWindow(d) ==>
              (r.0.window.Some? <==> o.windowOk) &&
              (o.windowOk ==> r.0.window == Some(NewWindow(d.cfg, desc, o.titleParam)))
    ensures !KeepsWindow(d) && r.1 ==> r.0.current == desc
    ensures !r.1 ==> r.0.current == d.current
    ensures KeepsWindow(d) || (o.windowOk && o.rendererOk) ==>
              r.0.pool == RecreateTextures(d.pool, desc, o.textureOk).0
    ensures !KeepsWindow(d) && !(o.windowOk && o.rendererOk) ==> r.0.pool == d.pool
  {
    if KeepsWindow(d) then
      var (pool, ok) := RecreateTextures(d.pool, desc, o.textureOk);
      (d.(logicalSize := Some((desc.width, desc.height)), pool := pool), ok)
    else if !o.windowOk then
      (d.(window := None), false)
    else
      var d1 := d.(window := Some(NewWindow(d.cfg, desc, o.titleParam)));
      if !o.rendererOk then
        (d1.(hasRenderer := false), false)
      else
        var d2 := d1.(hasRenderer := true, logicalSize := Some((desc.width, desc.height)));
        var (pool, ok) := RecreateTextures(d2.pool, desc, o.textureOk);
        var d3 := d2.(pool := pool);
        if ok then (d3.(current := desc), true) else (d3, false)
  }

  const ALL_OK: seq<bool> := [true, true]

  /** With `fixed_size`, the first successful reconfiguration creates the
      window and every later one keeps it: the window's size never follows
      the video. */
  lemma FixedSizeKeepsWindow(d: Display, desc1: VideoDesc, desc2: VideoDesc, o1: Outcome, o2: Outcome)
    requires d.cfg.fixedSize
    requires |o1.textureOk| == BUFFER_COUNT && |o2.textureOk| == BUFFER_COUNT
    requires ReconfigureReal(d, desc1, o1).1
    ensures var d1 := ReconfigureReal(d, desc1, o1).0;
            d1.window.Some? && ReconfigureReal(d1, desc2, o2).0.window == d1.window
  {
  }

  /** Without `fixed_size` and `fixed_w`/`fixed_h`, a successful
      reconfiguration makes a window of the video's size. */
  lemma WindowFollowsVideo(d: Display, desc: VideoDesc, o: Outcome)
    requires !d.cfg.fixedSize && d.cfg.fixedW == 0 && d.cfg.fixedH == 0
    requires |o.textureOk| == BUFFER_COUNT
    requires ReconfigureReal(d, desc, o).1
    ensures var w := ReconfigureReal(d, desc, o).0.window;
            w.Some? && w.value.width == desc.width && w.value.height == desc.height
  {
  }

  /** A successful reconfiguration leaves exactly `BUFFER_COUNT` free
      frames of the new format, none of them displayed yet. */
  lemma ReconfigureFillsPool(d: Display, desc: VideoDesc, o: Outcome)
    requires |o.textureOk| == BUFFER_COUNT
    requires ReconfigureReal(d, desc, o).1
    ensures var p := ReconfigureReal(d, desc, o).0.pool;
            |p.free| == BUFFER_COUNT && p.last.None? &&
            (forall i :: 0 <= i < |p.free| ==> p.free[i].desc == desc) &&
            p.free[0] != p.free[1]
  {
  }

  /** On the full path, success means the new format is displayed; a
      failing window keeps nothing of the old window and leaves the pool
      alone, and a failing renderer leaves the pool alone too. */
  lemma ReconfigureStatus(d: Display, desc: VideoDesc, o: Outcome)
    requires !KeepsWindow(d)
    requires |o.textureOk| == BUFFER_COUNT
    ensures var (d1, ok) := ReconfigureReal(d, desc, o);
            (o.windowOk && o.rendererOk && o.textureOk == ALL_OK ==> ok && d1.current == desc) &&
            (!o.windowOk ==> !ok && d1.current == d.current && d1.window.None? && d1.pool == d.pool) &&
            (o.windowOk && !o.rendererOk ==> !ok && !d1.hasRenderer && d1.pool == d.pool)
  {
    if o.textureOk == ALL_OK {
      assert forall i :: 0 <= i < BUFFER_COUNT ==> o.textureOk[i];
    }
  }
}
