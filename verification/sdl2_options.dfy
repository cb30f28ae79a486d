/**
 The option string of the SDL2 display, `-d sdl[:opt[:opt...]]`, as
 `display_sdl2_init` in src/video_display/sdl2.cpp reads it: `strtok_r`
 over ':' and one branch per option, the first failing option ending the
 parse. `show_help` and the SDL initialisation after the loop are left out;
 "help" yields `Help`.

 The source sets deinterlacing to *off* for `dforce`, although its help
 text describes `d[force]` as deinterlacing forced even for progressive
 video. `ParseOptionsAsWritten` keeps that behaviour; `ParseOptions`
 selects `Force`, and is the parser the rest of the model uses.
 */
module Sdl2Options {
  import opened Text
  import opened Sdl2Control

  // SDL_video.h
  const SDL_WINDOWPOS_UNDEFINED: int := 0x1FFF_0000
  const SDL_WINDOW_BORDERLESS: bv32 := 0x10

  /** The `state_sdl2` fields the options set, and `driver`. */
  datatype Config = Config(
    deint: Deint,
    displayIdx: int,
    driver: Option<string>,
    fullscreen: bool,
    vsync: bool,
    windowFlags: bv32,
    keepAspect: bool,
    fixedSize: bool,
    fixedW: int,
    fixedH: int,
    x: int,
    y: int,
    rendererIdx: int)

  /** The member initialisers of `state_sdl2` and `driver = NULL`. */
  const DEFAULT_CONFIG: Config :=
    Config(Off, 0, None, false, true, 0, false, false, 0, 0,
           SDL_WINDOWPOS_UNDEFINED, SDL_WINDOWPOS_UNDEFINED, -1)

  datatype Parsed = Parsed(cfg: Config) | Help | Failed(token: string)

  /** An `int` stored into a `uint32_t`: its low 32 bits. */
  function U32(v: int): bv32
  {
    (v % 0x1_0000_0000) as bv32
  }

  /** Which branch of the option loop a token takes, tested in the
      source's order. */
  datatype OptionKind =
    | DeintOption | DisplayOption | DriverOption | FullscreenOption | HelpOption
    | NovsyncOption | NodecorateOption | KeepAspectOption | FixedSizeOption
    | WindowFlagsOption | PosOption | RendererOption | WrongOption

  /** A token with a prefix agrees with it on its first characters. */
  lemma PrefixHead(tok: string, p: string)
    requires |p| >= 3
    ensures StartsWith(tok, p) ==> tok[0] == p[0] && tok[1] == p[1] && tok[2] == p[2]
  {
    if StartsWith(tok, p) {
      assert tok[..|p|][0] == tok[0] && tok[..|p|][1] == tok[1] && tok[..|p|][2] == tok[2];
    }
  }

  /** No token has two of the recognised shapes. */
  lemma ShapeHeads(tok: string)
    ensures StartsWith(tok, "display=") ==> tok[0] == 'd' && tok[1] == 'i'
    ensures StartsWith(tok, "driver=") ==> tok[0] == 'd' && tok[1] == 'r'
    ensures StartsWith(tok, "fixed_size") ==> tok[0] == 'f' && tok[1] == 'i'
    ensures StartsWith(tok, "window_flags=") ==> tok[0] == 'w'
    ensures StartsWith(tok, "pos=") ==> tok[0] == 'p'
    ensures StartsWith(tok, "renderer=") ==> tok[0] == 'r'
  {
    PrefixHead(tok, "display=");
    PrefixHead(tok, "driver=");
    PrefixHead(tok, "fixed_size");
    PrefixHead(tok, "window_flags=");
    PrefixHead(tok, "pos=");
    PrefixHead(tok, "renderer=");
  }

  /** The twelve token shapes the option loop recognises. */
  predicate KnownOption(tok: string) {
    tok == "d" || tok == "dforce" || StartsWith(tok, "display=") || StartsWith(tok, "driver=") ||
    tok == "fs" || tok == "help" || tok == "novsync" || tok == "nodecorate" || tok == "keep-aspect" ||
    StartsWith(tok, "fixed_size") || StartsWith(tok, "window_flags=") || StartsWith(tok, "pos=") ||
    StartsWith(tok, "renderer=")
  }

  /** Every token of one of the shapes takes that shape's branch; any
      other token is a wrong option. */
  function KindOf(tok: string): (k: OptionKind)
    ensures k == DeintOption ==> tok == "d" || tok == "dforce"
    ensures k == DisplayOption ==> StartsWith(tok, "display=")
    ensures k == DriverOption ==> StartsWith(tok, "driver=")
    ensures k == FullscreenOption ==> tok == "fs"
    ensures k == HelpOption <==> tok == "help"
    ensures k == NovsyncOption ==> tok == "novsync"
    ensures k == NodecorateOption ==> tok == "nodecorate"
    ensures k == KeepAspectOption ==> tok == "keep-aspect"
    ensures k == FixedSizeOption ==> StartsWith(tok, "fixed_size")
    ensures k == WindowFlagsOption ==> StartsWith(tok, "window_flags=")
    ensures k == PosOption ==> StartsWith(tok, "pos=")
    ensures k == RendererOption ==> StartsWith(tok, "renderer=")
    ensures tok == "d" || tok == "dforce" ==> k == DeintOption
    ensures StartsWith(tok, "display=") ==> k == DisplayOption
    ensures StartsWith(tok, "driver=") ==> k == DriverOption
    ensures tok == "fs" ==> k == FullscreenOption
    ensures tok == "novsync" ==> k == NovsyncOption
    ensures tok == "nodecorate" ==> k == NodecorateOption
    ensures tok == "keep-aspect" ==> k == KeepAspectOption
    ensures StartsWith(tok, "fixed_size") ==> k == FixedSizeOption
    ensures StartsWith(tok, "window_flags=") ==> k == WindowFlagsOption
    ensures StartsWith(tok, "pos=") ==> k == PosOption
    ensures StartsWith(tok, "renderer=") ==> k == RendererOption
    ensures k == WrongOption <==> !KnownOption(tok)
  {
    ShapeHeads(tok);
    if tok == "d" || tok == "dforce" then DeintOption
    else if StartsWith(tok, "display=") then DisplayOption
    else if StartsWith(tok, "driver=") then DriverOption
    else if tok == "fs" then FullscreenOption
    else if tok == "help" then HelpOption
    else if tok == "novsync" then NovsyncOption
    else if tok == "nodecorate" then NodecorateOption
    else if tok == "keep-aspect" then KeepAspectOption
    else if StartsWith(tok, "fixed_size") then FixedSizeOption
    else if Find(tok, "window_flags=") == Some(0) then WindowFlagsOption
    else if Find(tok, "pos=") == Some(0) then PosOption
    else if StartsWith(tok, "renderer=") then RendererOption
    else WrongOption
  }

  /** Two numbers around the first `sep`, as `atoi(s)` and
      `atoi(strchr(s, sep) + 1)` read them; `None` without a `sep`. */
  function ParsePair(s: string, sep: char): (r: Option<(int, int)>)
    ensures r.None? <==> sep !in s
  {
    match IndexOf(s, sep)
    case Some(i) => Some((Atoi(s), Atoi(s[i + 1..])))
    case None => None
  }

  /** `fixed_size[=WxH]`: the size is read only when an 'x' is present. */
  function ApplyFixedSize(cfg: Config, tok: string): (c: Config)
    ensures c == cfg.(fixedSize := true, fixedW := c.fixedW, fixedH := c.fixedH)
    ensures c.fixedW != cfg.fixedW || c.fixedH != cfg.fixedH ==>
              StartsWith(tok, "fixed_size=") && ParsePair(tok[|"fixed_size="|..], 'x').Some?
  {
    var fixed := cfg.(fixedSize := true);
    if StartsWith(tok, "fixed_size=") then
      match ParsePair(tok[|"fixed_size="|..], 'x')
      case Some((w, h)) => fixed.(fixedW := w, fixedH := h)
      case None => fixed
    else fixed
  }

  /** `window_flags=F`: F as `sscanf("%i")` reads it is or-ed into the
      flags; the token fails when no number can be read. */
  function ApplyWindowFlags(cfg: Config, tok: string): (r: Parsed)
    requires StartsWith(tok, "window_flags=")
    ensures r.Failed? <==> !ScansInteger(tok[|"window_flags="|..])
    ensures r.Failed? ==> r.token == tok
    ensures r.Parsed? ==>
              r.cfg == cfg.(windowFlags := cfg.windowFlags | U32(ScanfInt(tok[|"window_flags="|..])))
  {
    var v := tok[|"window_flags="|..];
    if !ScansInteger(v) then Failed(tok)
    else Parsed(cfg.(windowFlags := cfg.windowFlags | U32(ScanfInt(v))))
  }

  /** `pos=X,Y`: fails without a ','. */
  function ApplyPos(cfg: Config, tok: string): (r: Parsed)
    requires StartsWith(tok, "pos=")
    ensures r.Failed? <==> ',' !in tok[|"pos="|..]
    ensures r.Failed? ==> r.token == tok
    ensures r.Parsed? ==> r.cfg == cfg.(x := r.cfg.x, y := r.cfg.y)
  {
    match ParsePair(tok[|"pos="|..], ',')
    case None => Failed(tok)
    case Some(xy) => Parsed(cfg.(x := xy.0, y := xy.1))
  }

  /** One token of the `strtok_r` loop. `dforce` is what the token "dforce"
      selects: `Off` as written, `Force` as documented. */
  function ApplyToken(cfg: Config, tok: string, dforce: Deint): (r: Parsed)
    ensures r.Failed? ==> KindOf(tok) == WrongOption || KindOf(tok) == WindowFlagsOption || KindOf(tok) == PosOption
    ensures KindOf(tok) == WrongOption ==> r == Failed(tok)
    ensures r.Failed? ==> r.token == tok
    ensures r.Help? <==> KindOf(tok) == HelpOption
    ensures r.Parsed? ==> (r.cfg.fullscreen <==> cfg.fullscreen || KindOf(tok) == FullscreenOption)
    ensures r.Parsed? ==> (r.cfg.vsync <==> cfg.vsync && KindOf(tok) != NovsyncOption)
    ensures r.Parsed? ==> (r.cfg.keepAspect <==> cfg.keepAspect || KindOf(tok) == KeepAspectOption)
    ensures r.Parsed? ==> (r.cfg.fixedSize <==> cfg.fixedSize || KindOf(tok) == FixedSizeOption)
    ensures r.Parsed? && KindOf(tok) != DeintOption ==> r.cfg.deint == cfg.deint
  {
    ApplyKind(cfg, KindOf(tok), tok, dforce)
  }

  /** The options that cannot fail: they only set their own fields. */
  predicate SettingKind(k: OptionKind) {
    k != HelpOption && k != WindowFlagsOption && k != PosOption && k != WrongOption
  }

  /** The branch of a setting option `k` applied to `tok`. */
  function ApplySetting(cfg: Config, k: OptionKind, tok: string, dforce: Deint): (c: Config)
    requires SettingKind(k)
    requires k == DisplayOption ==> StartsWith(tok, "display=")
    requires k == DriverOption ==> StartsWith(tok, "driver=")
    requires k == RendererOption ==> StartsWith(tok, "renderer=")
    ensures c.fullscreen <==> cfg.fullscreen || k == FullscreenOption
    ensures c.vsync <==> cfg.vsync && k != NovsyncOption
    ensures c.keepAspect <==> cfg.keepAspect || k == KeepAspectOption
    ensures c.fixedSize <==> cfg.fixedSize || k == FixedSizeOption
    ensures k != DeintOption ==> c.deint == cfg.deint
  {
    match k
    case DeintOption => cfg.(deint := if tok == "d" then On else dforce)
    case DisplayOption => cfg.(displayIdx := Atoi(tok[|"display="|..]))
    case DriverOption => cfg.(driver := Some(tok[|"driver="|..]))
    case FullscreenOption => cfg.(fullscreen := true)
    case NovsyncOption => cfg.(vsync := false)
    case NodecorateOption => cfg.(windowFlags := cfg.windowFlags | SDL_WINDOW_BORDERLESS)
    case KeepAspectOption => cfg.(keepAspect := true)
    case FixedSizeOption => ApplyFixedSize(cfg, tok)
    case RendererOption => cfg.(rendererIdx := Atoi(tok[|"renderer="|..]))
  }

  /** The branch for kind `k` applied to `tok`. */
  function ApplyKind(cfg: Config, k: OptionKind, tok: string, dforce: Deint): (r: Parsed)
    requires k == DisplayOption ==> StartsWith(tok, "display=")
    requires k == DriverOption ==> StartsWith(tok, "driver=")
    requires k == WindowFlagsOption ==> StartsWith(tok, "window_flags=")
    requires k == PosOption ==> StartsWith(tok, "pos=")
    requires k == RendererOption ==> StartsWith(tok, "renderer=")
    ensures r.Failed? ==> k == WrongOption || k == WindowFlagsOption || k == PosOption
    ensures k == WrongOption ==> r == Failed(tok)
    ensures r.Failed? ==> r.token == tok
    ensures r.Help? <==> k == HelpOption
    ensures r.Parsed? ==> (r.cfg.fullscreen <==> cfg.fullscreen || k == FullscreenOption)
    ensures r.Parsed? ==> (r.cfg.vsync <==> cfg.vsync && k != NovsyncOption)
    ensures r.Parsed? ==> (r.cfg.keepAspect <==> cfg.keepAspect || k == KeepAspectOption)
    ensures r.Parsed? ==> (r.cfg.fixedSize <==> cfg.fixedSize || k == FixedSizeOption)
    ensures r.Parsed? && k != DeintOption ==> r.cfg.deint == cfg.deint
  {
    if SettingKind(k) then Parsed(ApplySetting(cfg, k, tok, dforce))
    else match k
      case HelpOption => Help
      case WindowFlagsOption => ApplyWindowFlags(cfg, tok)
      case PosOption => ApplyPos(cfg, tok)
      case WrongOption => Failed(tok)
  }

  /** The `while ((tok = strtok_r(...)))` loop from a given state. */
  function ApplyTokens(cfg: Config, toks: seq<string>, dforce: Deint): (r: Parsed)
    ensures r.Failed? ==> r.token in toks
    ensures r.Help? ==> "help" in toks
    decreases |toks|
  {
    if |toks| == 0 then Parsed(cfg)
    else
      match ApplyToken(cfg, toks[0], dforce)
      case Parsed(c) => ApplyTokens(c, toks[1..], dforce)
      case stop => stop
  }

  function OptionTokens(fmt: Option<string>): seq<string> {
    Tokens(if fmt.None? then "" else fmt.value, ':')
  }

  /** The option loop exactly as `display_sdl2_init` runs it. */
  function ParseOptionsAsWritten(fmt: Option<string>): (r: Parsed)
    ensures fmt.None? || fmt == Some("") ==> r == Parsed(DEFAULT_CONFIG)
  {
    ApplyTokens(DEFAULT_CONFIG, OptionTokens(fmt), Off)
  }

  /** The option loop with `dforce` forcing deinterlacing. */
  function ParseOptions(fmt: Option<string>): (r: Parsed)
    ensures fmt.None? || fmt == Some("") ==> r == Parsed(DEFAULT_CONFIG)
  {
    ApplyTokens(DEFAULT_CONFIG, OptionTokens(fmt), Force)
  }

  /** The two parsers differ only in what "dforce" selects. */
  lemma {:induction false} ParsersAgreeWithoutDforce(cfg: Config, toks: seq<string>)
    requires "dforce" !in toks
    ensures ApplyTokens(cfg, toks, Off) == ApplyTokens(cfg, toks, Force)
    decreases |toks|
  {
    if |toks| > 0 {
      assert toks[0] != "dforce";
      assert "dforce" !in toks[1..];
      match ApplyToken(cfg, toks[0], Off)
      case Parsed(c) => ParsersAgreeWithoutDforce(c, toks[1..]);
      case _ =>
    }
  }

  /** Running the loop over two lists of tokens is running it over the
      first and continuing with the second from where it stopped. */
  lemma {:induction false} ApplyTokensAppend(cfg: Config, a: seq<string>, b: seq<string>, dforce: Deint)
    ensures ApplyTokens(cfg, a + b, dforce) ==
              match ApplyTokens(cfg, a, dforce)
              case Parsed(c) => ApplyTokens(c, b, dforce)
              case stop => stop
    decreases |a|
  {
    if |a| == 0 {
      assert a + b == b;
    } else {
      assert (a + b)[0] == a[0];
      assert (a + b)[1..] == a[1..] + b;
      match ApplyToken(cfg, a[0], dforce)
      case Parsed(c) => ApplyTokensAppend(c, a[1..], b, dforce);
      case _ =>
    }
  }

  /** "help" ends the parse with the help text, whatever follows, once the
      options before it were accepted. */
  lemma HelpStopsParsing(cfg: Config, a: seq<string>, rest: seq<string>, dforce: Deint)
    requires ApplyTokens(cfg, a, dforce).Parsed?
    ensures ApplyTokens(cfg, a + ["help"] + rest, dforce) == Help
  {
    ApplyTokensAppend(cfg, a, ["help"] + rest, dforce);
    assert a + ["help"] + rest == a + (["help"] + rest);
    var c := ApplyTokens(cfg, a, dforce).cfg;
    assert KindOf("help") == HelpOption;
    assert (["help"] + rest)[0] == "help";
    assert ApplyToken(c, "help", dforce) == Help;
  }

  /** An option the parser does not know makes the whole parse fail,
      whatever follows. */
  lemma UnknownOptionFails(cfg: Config, a: seq<string>, tok: string, rest: seq<string>, dforce: Deint)
    requires ApplyTokens(cfg, a, dforce).Parsed?
    requires ApplyToken(ApplyTokens(cfg, a, dforce).cfg, tok, dforce).Failed?
    ensures ApplyTokens(cfg, a + [tok] + rest, dforce) == Failed(tok)
  {
    ApplyTokensAppend(cfg, a, [tok] + rest, dforce);
    assert a + [tok] + rest == a + ([tok] + rest);
    var c := ApplyTokens(cfg, a, dforce).cfg;
    assert ([tok] + rest)[0] == tok;
    assert ApplyTokens(c, [tok] + rest, dforce) == ApplyToken(c, tok, dforce);
  }

  /** As written, "dforce" switches deinterlacing off, even after "d". */
  lemma DforceTurnsDeinterlacingOff(cfg: Config)
    ensures ApplyToken(cfg, "dforce", Off) == Parsed(cfg.(deint := Off))
    ensures ApplyTokens(cfg, ["d", "dforce"], Off) == Parsed(cfg.(deint := Off))
    ensures ParseOptionsAsWritten(Some("dforce")) == Parsed(DEFAULT_CONFIG)
  {
    assert KindOf("dforce") == DeintOption;
    assert KindOf("d") == DeintOption;
    TokensOfJoin(["dforce"], ':');
    assert Join(["dforce"], ':') == "dforce";
    assert OptionTokens(Some("dforce")) == ["dforce"];
    SingleToken(DEFAULT_CONFIG, "dforce", Off);
    assert ParseOptionsAsWritten(Some("dforce")) == ApplyTokens(DEFAULT_CONFIG, ["dforce"], Off);
    assert ["d", "dforce"][0] == "d";
    assert ["d", "dforce"][1..] == ["dforce"];
    SingleToken(cfg.(deint := On), "dforce", Off);
  }

  /** The corrected parser forces deinterlacing for "dforce". */
  lemma DforceForcesDeinterlacing(cfg: Config)
    ensures ApplyToken(cfg, "dforce", Force) == Parsed(cfg.(deint := Force))
    ensures ParseOptions(Some("dforce")) == Parsed(DEFAULT_CONFIG.(deint := Force))
  {
    assert KindOf("dforce") == DeintOption;
    TokensOfJoin(["dforce"], ':');
    assert Join(["dforce"], ':') == "dforce";
    assert OptionTokens(Some("dforce")) == ["dforce"];
    SingleToken(DEFAULT_CONFIG, "dforce", Force);
    assert ParseOptions(Some("dforce")) == ApplyTokens(DEFAULT_CONFIG, ["dforce"], Force);
  }

  // ---------------------------------------------------------------------
  // Rendering a configuration as an option string

  predicate Int32(v: int) { INT32_MIN <= v <= INT32_MAX }

  /** The configurations an option string can express. */
  predicate Expressible(c: Config) {
    Int32(c.displayIdx) && Int32(c.x) && Int32(c.y) && Int32(c.rendererIdx) &&
    Int32(c.fixedW) && Int32(c.fixedH) &&
    (c.driver.Some? ==> ':' !in c.driver.value) &&
    (!c.fixedSize ==> c.fixedW == 0 && c.fixedH == 0)
  }

  function Flag(on: bool, tok: string): seq<string> {
    if on then [tok] else []
  }

  function DeintTokens(d: Deint): seq<string> {
    match d
    case Off => []
    case On => ["d"]
    case Force => ["dforce"]
  }

  function DriverTokens(driver: Option<string>): seq<string> {
    if driver.None? then [] else ["driver=" + driver.value]
  }

  function DisplayToken(c: Config): string { "display=" + IntToDec(c.displayIdx) }

  function FlagsToken(c: Config): string { "window_flags=" + NatToDec(c.windowFlags as int) }

  function FixedTokens(c: Config): seq<string> {
    Flag(c.fixedSize, "fixed_size=" + (IntToDec(c.fixedW) + "x" + IntToDec(c.fixedH)))
  }

  function PosToken(c: Config): string { "pos=" + IntToDec(c.x) + "," + IntToDec(c.y) }

  function RendererToken(c: Config): string { "renderer=" + IntToDec(c.rendererIdx) }

  /** One option per field that differs from what the parser can start
      from, in the order the parser tests them. */
  function ConfigTokens(c: Config): seq<string> {
    DeintTokens(c.deint) + ([DisplayToken(c)] + (DriverTokens(c.driver) +
    (Flag(c.fullscreen, "fs") + (Flag(!c.vsync, "novsync") + ([FlagsToken(c)] +
    (Flag(c.keepAspect, "keep-aspect") + (FixedTokens(c) + [PosToken(c), RendererToken(c)])))))))
  }

  /** The `-d sdl:...` option text of a configuration. */
  function ConfigText(c: Config): string {
    Join(ConfigTokens(c), ':')
  }

  /** Every configuration an option string can express comes back from the
      text rendered for it. */
  lemma ConfigRoundTrip(c: Config)
    requires Expressible(c)
    ensures ParseOptions(Some(ConfigText(c))) == Parsed(c)
  {
    var ts := ConfigTokens(c);
    TokensClean(c);
    TokensOfJoin(ts, ':');
    var c1 := DEFAULT_CONFIG.(deint := c.deint);
    var c2 := c1.(displayIdx := c.displayIdx);
    var c3 := c2.(driver := c.driver);
    var c4 := c3.(fullscreen := c.fullscreen);
    var c5 := c4.(vsync := c.vsync);
    var c6 := c5.(windowFlags := c.windowFlags);
    var c7 := c6.(keepAspect := c.keepAspect);
    var c8 := c7.(fixedSize := c.fixedSize, fixedW := c.fixedW, fixedH := c.fixedH);
    var c9 := c8.(x := c.x, y := c.y, rendererIdx := c.rendererIdx);
    assert c9 == c;
    var r9 := [PosToken(c), RendererToken(c)];
    var r8 := FixedTokens(c) + r9;
    var r7 := Flag(c.keepAspect, "keep-aspect") + r8;
    var r6 := [FlagsToken(c)] + r7;
    var r5 := Flag(!c.vsync, "novsync") + r6;
    var r4 := Flag(c.fullscreen, "fs") + r5;
    var r3 := DriverTokens(c.driver) + r4;
    var r2 := [DisplayToken(c)] + r3;
    assert ts == DeintTokens(c.deint) + r2;
    PosRendererStep(c8, c);
    Step(c7, FixedTokens(c), r9, c8) by { FixedStep(c7, c); }
    Step(c6, Flag(c.keepAspect, "keep-aspect"), r8, c7) by { KeepAspectStep(c6, c.keepAspect); }
    Step(c5, [FlagsToken(c)], r7, c6) by { FlagsStep(c5, c); }
    Step(c4, Flag(!c.vsync, "novsync"), r6, c5) by { VsyncStep(c4, c.vsync); }
    Step(c3, Flag(c.fullscreen, "fs"), r5, c4) by { FullscreenStep(c3, c.fullscreen); }
    Step(c2, DriverTokens(c.driver), r4, c3) by { DriverStep(c2, c.driver); }
    Step(c1, [DisplayToken(c)], r3, c2) by { DisplayStep(c1, c); }
    Step(DEFAULT_CONFIG, DeintTokens(c.deint), r2, c1) by { DeintStep(DEFAULT_CONFIG, c.deint); }
  }

  /** A list of one token is that token. */
  lemma SingleToken(cfg: Config, tok: string, dforce: Deint)
    ensures ApplyTokens(cfg, [tok], dforce) == ApplyToken(cfg, tok, dforce)
  {
    var rest: seq<string> := [tok][1..];
    assert rest == [];
  }

  /** Chaining: a list that turns `a` into `b` followed by `rest`. */
  lemma Step(a: Config, toks: seq<string>, rest: seq<string>, b: Config)
    requires ApplyTokens(a, toks, Force) == Parsed(b)
    ensures ApplyTokens(a, toks + rest, Force) == ApplyTokens(b, rest, Force)
  {
    ApplyTokensAppend(a, toks, rest, Force);
  }

  predicate Clean(ts: seq<string>) {
    forall k :: 0 <= k < |ts| ==> |ts[k]| > 0 && ':' !in ts[k]
  }

  lemma CleanAppend(a: seq<string>, b: seq<string>)
    requires Clean(a) && Clean(b)
    ensures Clean(a + b)
  {
    forall k | 0 <= k < |a + b| ensures |(a + b)[k]| > 0 && ':' !in (a + b)[k] {
      if k < |a| { assert (a + b)[k] == a[k]; } else { assert (a + b)[k] == b[k - |a|]; }
    }
  }

  /** A literal prefix followed by a `%d` rendering has no ':'. */
  lemma CleanDecimalToken(prefix: string, v: int)
    requires ':' !in prefix
    ensures |prefix + IntToDec(v)| > 0 && ':' !in prefix + IntToDec(v)
  {
    DecimalChars(v, ':');
  }

  /** The last options: fixed size, position and renderer. */
  lemma TailTokensClean(c: Config)
    requires Expressible(c)
    ensures Clean(FixedTokens(c) + [PosToken(c), RendererToken(c)])
  {
    CleanDecimalToken("renderer=", c.rendererIdx);
    CleanDecimalToken("pos=", c.x);
    CleanDecimalToken(",", c.y);
    assert PosToken(c) == ("pos=" + IntToDec(c.x)) + ("," + IntToDec(c.y));
    if c.fixedSize {
      CleanDecimalToken("fixed_size=", c.fixedW);
      CleanDecimalToken("x", c.fixedH);
      assert FixedTokens(c)[0] == ("fixed_size=" + IntToDec(c.fixedW)) + ("x" + IntToDec(c.fixedH));
    }
    CleanAppend(FixedTokens(c), [PosToken(c), RendererToken(c)]);
  }

  /** The options from `window_flags=` on. */
  lemma MiddleTokensClean(c: Config)
    requires Expressible(c)
    ensures Clean([FlagsToken(c)] + (Flag(c.keepAspect, "keep-aspect") + (FixedTokens(c) + [PosToken(c), RendererToken(c)])))
  {
    CleanDecimalToken("window_flags=", c.windowFlags as int);
    assert FlagsToken(c) == "window_flags=" + IntToDec(c.windowFlags as int);
    var r8 := FixedTokens(c) + [PosToken(c), RendererToken(c)];
    TailTokensClean(c);
    CleanAppend(Flag(c.keepAspect, "keep-aspect"), r8);
    CleanAppend([FlagsToken(c)], Flag(c.keepAspect, "keep-aspect") + r8);
  }

  /** Every rendered token is a non-empty ':'-free `strtok_r` token. */
  lemma TokensClean(c: Config)
    requires Expressible(c)
    ensures Clean(ConfigTokens(c))
  {
    CleanDecimalToken("display=", c.displayIdx);
    var r6 := [FlagsToken(c)] + (Flag(c.keepAspect, "keep-aspect") + (FixedTokens(c) + [PosToken(c), RendererToken(c)]));
    MiddleTokensClean(c);
    var r5 := Flag(!c.vsync, "novsync") + r6;
    CleanAppend(Flag(!c.vsync, "novsync"), r6);
    var r4 := Flag(c.fullscreen, "fs") + r5;
    CleanAppend(Flag(c.fullscreen, "fs"), r5);
    var r3 := DriverTokens(c.driver) + r4;
    assert Clean(DriverTokens(c.driver));
    CleanAppend(DriverTokens(c.driver), r4);
    var r2 := [DisplayToken(c)] + r3;
    CleanAppend([DisplayToken(c)], r3);
    CleanAppend(DeintTokens(c.deint), r2);
  }

  lemma DeintStep(b: Config, d: Deint)
    requires b.deint == Off
    ensures ApplyTokens(b, DeintTokens(d), Force) == Parsed(b.(deint := d))
  {
    if d != Off {
      var tok := DeintTokens(d)[0];
      SingleToken(b, tok, Force);
    }
  }

  lemma DisplayStep(b: Config, c: Config)
    requires Int32(c.displayIdx)
    ensures ApplyTokens(b, [DisplayToken(c)], Force) == Parsed(b.(displayIdx := c.displayIdx))
  {
    var tok := DisplayToken(c);
    NotPrefixAt(tok, "dforce", 1);
    assert tok[..|"display="|] == "display=";
    assert KindOf(tok) == DisplayOption;
    assert tok[|"display="|..] == IntToDec(c.displayIdx) + "";
    AtoiOfIntToDec(c.displayIdx, "");
      SingleToken(b, tok, Force);
  }

  lemma DriverStep(b: Config, driver: Option<string>)
    requires b.driver.None?
    ensures ApplyTokens(b, DriverTokens(driver), Force) == Parsed(b.(driver := driver))
  {
    if driver.Some? {
      var tok := "driver=" + driver.value;
      NotPrefixAt(tok, "dforce", 1);
      NotPrefixAt(tok, "display=", 1);
      assert tok[..|"driver="|] == "driver=";
      assert KindOf(tok) == DriverOption;
      assert tok[|"driver="|..] == driver.value;
      assert DriverTokens(driver) == [tok];
      SingleToken(b, tok, Force);
    }
  }

  lemma FullscreenStep(b: Config, fs: bool)
    requires !b.fullscreen
    ensures ApplyTokens(b, Flag(fs, "fs"), Force) == Parsed(b.(fullscreen := fs))
  {
    if fs {
      assert KindOf("fs") == FullscreenOption;
      SingleToken(b, "fs", Force);
    }
  }

  lemma VsyncStep(b: Config, vsync: bool)
    requires b.vsync
    ensures ApplyTokens(b, Flag(!vsync, "novsync"), Force) == Parsed(b.(vsync := vsync))
  {
    if !vsync {
      NotPrefixAt("novsync", "driver=", 0);
      assert KindOf("novsync") == NovsyncOption;
      SingleToken(b, "novsync", Force);
    }
  }

  lemma KeepAspectStep(b: Config, keep: bool)
    requires !b.keepAspect
    ensures ApplyTokens(b, Flag(keep, "keep-aspect"), Force) == Parsed(b.(keepAspect := keep))
  {
    if keep {
      NotPrefixAt("keep-aspect", "display=", 0);
      NotPrefixAt("keep-aspect", "driver=", 0);
      assert KindOf("keep-aspect") == KeepAspectOption;
      SingleToken(b, "keep-aspect", Force);
    }
  }

  /** The `window_flags=` token kind of a rendered flags token. */
  lemma FlagsKind(tok: string, v: string)
    requires tok == "window_flags=" + v
    ensures KindOf(tok) == WindowFlagsOption
    ensures tok[|"window_flags="|..] == v
  {
    NotPrefixAt(tok, "d", 0);
    NotPrefixAt(tok, "dforce", 0);
    NotPrefixAt(tok, "display=", 0);
    NotPrefixAt(tok, "driver=", 0);
    NotPrefixAt(tok, "fs", 0);
    NotPrefixAt(tok, "help", 0);
    NotPrefixAt(tok, "novsync", 0);
    NotPrefixAt(tok, "nodecorate", 0);
    NotPrefixAt(tok, "keep-aspect", 0);
    NotPrefixAt(tok, "fixed_size", 0);
    assert tok[..|"window_flags="|] == "window_flags=";
  }

  /** `window_flags=` followed by a printed unsigned value reads it back. */
  lemma FlagsValue(n: nat)
    requires n < 0x1_0000_0000
    ensures ScansInteger(NatToDec(n)) && U32(ScanfInt(NatToDec(n))) == n as bv32
  {
    var v := NatToDec(n);
    assert ScansInteger(v) by {
      assert SignPrefix(v) == (false, 0);
    }
    assert ScanfInt(v) == Wrap32(Clamp(n, INT64_MIN, INT64_MAX)) by {
      Strtol0OfDecimal(n);
    }
    U32OfWrap32(n);
  }

  /** What a `window_flags=` token does on top of no flags. */
  lemma WindowFlagsApply(b: Config, tok: string, w: bv32)
    requires StartsWith(tok, "window_flags=")
    requires ScansInteger(tok[|"window_flags="|..]) && U32(ScanfInt(tok[|"window_flags="|..])) == w
    requires b.windowFlags == 0
    ensures ApplyWindowFlags(b, tok) == Parsed(b.(windowFlags := w))
  {
    assert b.windowFlags | w == w;
  }

  lemma FlagsApply(b: Config, c: Config)
    requires b.windowFlags == 0
    ensures ApplyToken(b, FlagsToken(c), Force) == Parsed(b.(windowFlags := c.windowFlags))
  {
    var tok := FlagsToken(c);
    var n := c.windowFlags as int;
    FlagsKind(tok, NatToDec(n));
    FlagsValue(n);
    WindowFlagsApply(b, tok, c.windowFlags);
    assert ApplyToken(b, tok, Force) == ApplyKind(b, WindowFlagsOption, tok, Force);
  }

  lemma FlagsStep(b: Config, c: Config)
    requires b.windowFlags == 0
    ensures ApplyTokens(b, [FlagsToken(c)], Force) == Parsed(b.(windowFlags := c.windowFlags))
  {
    FlagsApply(b, c);
    SingleToken(b, FlagsToken(c), Force);
  }

  /** Cutting an unsigned 32-bit value to `int` and storing it back into a
      `uint32_t` gives the value back. */
  lemma U32OfWrap32(n: nat)
    requires n < 0x1_0000_0000
    ensures U32(Wrap32(Clamp(n, INT64_MIN, INT64_MAX))) == n as bv32
  {
    var w := Wrap32(n);
    assert (w - n) % 0x1_0000_0000 == 0;
    assert w % 0x1_0000_0000 == n;
  }

  /** The `fixed_size` token kind of a rendered size token. */
  lemma FixedKind(tok: string, size: string)
    requires tok == "fixed_size=" + size
    ensures KindOf(tok) == FixedSizeOption
    ensures StartsWith(tok, "fixed_size=") && tok[|"fixed_size="|..] == size
  {
    NotPrefixAt(tok, "d", 0);
    NotPrefixAt(tok, "dforce", 0);
    NotPrefixAt(tok, "display=", 0);
    NotPrefixAt(tok, "driver=", 0);
    NotPrefixAt(tok, "fs", 1);
    NotPrefixAt(tok, "help", 0);
    NotPrefixAt(tok, "novsync", 0);
    NotPrefixAt(tok, "nodecorate", 0);
    NotPrefixAt(tok, "keep-aspect", 0);
    assert tok[..|"fixed_size"|] == "fixed_size";
    assert tok[..|"fixed_size="|] == "fixed_size=";
  }

  /** The separator after a printed `int` is the first one. */
  lemma PairSplit(a: int, b: int, sep: char)
    requires !IsDigit(sep) && sep != '-'
    ensures var s := IntToDec(a) + [sep] + IntToDec(b);
            IndexOf(s, sep) == Some(|IntToDec(a)|) && s[|IntToDec(a)| + 1..] == IntToDec(b)
  {
    var as_ := IntToDec(a);
    var s := as_ + [sep] + IntToDec(b);
    DecimalChars(a, sep);
    assert s[..|as_|] == as_;
    assert s[|as_|] == sep;
    assert s[|as_| + 1..] == IntToDec(b);
  }

  /** Two `int`s printed around a separator read back. */
  lemma PairRoundTrip(a: int, b: int, sep: char)
    requires Int32(a) && Int32(b)
    requires !IsDigit(sep) && sep != '-'
    ensures ParsePair(IntToDec(a) + [sep] + IntToDec(b), sep) == Some((a, b))
  {
    var s := IntToDec(a) + [sep] + IntToDec(b);
    PairSplit(a, b, sep);
    assert s == IntToDec(a) + ([sep] + IntToDec(b));
    AtoiOfIntToDec(a, [sep] + IntToDec(b));
    assert IntToDec(b) == IntToDec(b) + "";
    AtoiOfIntToDec(b, "");
  }

  /** `fixed_size=WxH` sets the flag and both dimensions. */
  lemma FixedApply(b: Config, w: int, h: int)
    requires Int32(w) && Int32(h)
    ensures var tok := "fixed_size=" + (IntToDec(w) + "x" + IntToDec(h));
            ApplyToken(b, tok, Force) == Parsed(b.(fixedSize := true, fixedW := w, fixedH := h))
  {
    var size := IntToDec(w) + "x" + IntToDec(h);
    var tok := "fixed_size=" + size;
    FixedKind(tok, size);
    PairRoundTrip(w, h, 'x');
    assert ParsePair(tok[|"fixed_size="|..], 'x') == Some((w, h));
  }

  lemma FixedStep(b: Config, c: Config)
    requires Expressible(c)
    requires !b.fixedSize && b.fixedW == 0 && b.fixedH == 0
    ensures ApplyTokens(b, FixedTokens(c), Force) ==
              Parsed(b.(fixedSize := c.fixedSize, fixedW := c.fixedW, fixedH := c.fixedH))
  {
    if c.fixedSize {
      var tok := "fixed_size=" + (IntToDec(c.fixedW) + "x" + IntToDec(c.fixedH));
      assert FixedTokens(c) == [tok];
      FixedApply(b, c.fixedW, c.fixedH);
      SingleToken(b, tok, Force);
    }
  }

  /** The `pos=` token kind of a rendered position token. */
  lemma PosKind(tok: string, p: string)
    requires tok == "pos=" + p
    ensures KindOf(tok) == PosOption
    ensures tok[|"pos="|..] == p
  {
    NotPrefixAt(tok, "d", 0);
    NotPrefixAt(tok, "dforce", 0);
    NotPrefixAt(tok, "display=", 0);
    NotPrefixAt(tok, "driver=", 0);
    NotPrefixAt(tok, "fs", 0);
    NotPrefixAt(tok, "help", 0);
    NotPrefixAt(tok, "novsync", 0);
    NotPrefixAt(tok, "nodecorate", 0);
    NotPrefixAt(tok, "keep-aspect", 0);
    NotPrefixAt(tok, "fixed_size", 0);
    NotPrefixAt(tok, "window_flags=", 0);
    assert tok[..|"pos="|] == "pos=";
  }

  /** The `renderer=` token kind of a rendered renderer token. */
  lemma RendererKind(tok: string, v: string)
    requires tok == "renderer=" + v
    ensures KindOf(tok) == RendererOption
    ensures tok[|"renderer="|..] == v
  {
    NotPrefixAt(tok, "d", 0);
    NotPrefixAt(tok, "dforce", 0);
    NotPrefixAt(tok, "display=", 0);
    NotPrefixAt(tok, "driver=", 0);
    NotPrefixAt(tok, "fs", 0);
    NotPrefixAt(tok, "help", 0);
    NotPrefixAt(tok, "novsync", 0);
    NotPrefixAt(tok, "nodecorate", 0);
    NotPrefixAt(tok, "keep-aspect", 0);
    NotPrefixAt(tok, "fixed_size", 0);
    NotPrefixAt(tok, "window_flags=", 0);
    NotPrefixAt(tok, "pos=", 0);
    assert tok[..|"renderer="|] == "renderer=";
  }

  /** `pos=X,Y` sets both coordinates. */
  lemma PosApply(b: Config, x: int, y: int)
    requires Int32(x) && Int32(y)
    ensures ApplyToken(b, "pos=" + IntToDec(x) + "," + IntToDec(y), Force) == Parsed(b.(x := x, y := y))
  {
    var p := IntToDec(x) + "," + IntToDec(y);
    var tok := "pos=" + p;
    assert tok == "pos=" + IntToDec(x) + "," + IntToDec(y);
    PosKind(tok, p);
    PairRoundTrip(x, y, ',');
    assert ParsePair(tok[|"pos="|..], ',') == Some((x, y));
  }

  /** `renderer=N` sets the renderer index. */
  lemma RendererApply(b: Config, r: int)
    requires Int32(r)
    ensures ApplyToken(b, "renderer=" + IntToDec(r), Force) == Parsed(b.(rendererIdx := r))
  {
    var rt := "renderer=" + IntToDec(r);
    RendererKind(rt, IntToDec(r));
    assert rt[|"renderer="|..] == IntToDec(r) + "";
    AtoiOfIntToDec(r, "");
  }

  lemma PosRendererStep(b: Config, c: Config)
    requires Int32(c.x) && Int32(c.y) && Int32(c.rendererIdx)
    ensures ApplyTokens(b, [PosToken(c), RendererToken(c)], Force) ==
              Parsed(b.(x := c.x, y := c.y, rendererIdx := c.rendererIdx))
  {
    var tok := PosToken(c);
    var b1 := b.(x := c.x, y := c.y);
    PosApply(b, c.x, c.y);
    var rt := RendererToken(c);
    RendererApply(b1, c.rendererIdx);
    assert [tok, rt][0] == tok;
    assert [tok, rt][1..] == [rt];
    SingleToken(b1, rt, Force);
  }
}
