/**
 The local keyboard and control-message handling of
 src/video_display/sdl2.cpp: `display_sdl2_process_key`, the text commands
 answered in the message branch of `display_sdl2_run`, and its key-down
 branch.

 `exit_uv(0)` becomes the `exitRequested` flag, `SDL_SetWindowTitle` the
 `title` field and `SDL_SetWindowFullscreen` the `fullscreen` flag; the
 response objects become `Response` values.
 */
module Sdl2Control {
  import opened Text
  import opened Sdl2Keys

  /** `state_sdl2::deint`. */
  datatype Deint = Off | On | Force

  /** The part of the display state that keys and control messages change. */
  datatype Controls = Controls(deint: Deint, fullscreen: bool, exitRequested: bool, title: Option<string>)

  /** The keys `display_sdl2_process_key` handles itself. */
  predicate LocalKey(key: int) {
    key == 'd' as int || key == 'f' as int || key == 'q' as int
  }

  /** `display_sdl2_process_key`: 'd' cycles deinterlacing between off and
      on (from force it goes to off), 'f' toggles full screen, 'q' asks the
      program to exit; any other key is refused and changes nothing. */
  function ProcessKey(st: Controls, key: int): (r: (bool, Controls))
    ensures r.0 <==> LocalKey(key)
    ensures !r.0 ==> r.1 == st
    ensures r.1.title == st.title
    ensures r.1.exitRequested <==> st.exitRequested || key == 'q' as int
    ensures r.1.fullscreen <==> (st.fullscreen != (key == 'f' as int))
    ensures key == 'd' as int ==> r.1.deint != Force && (r.1.deint == On <==> st.deint == Off)
    ensures key != 'd' as int ==> r.1.deint == st.deint
  {
    if key == 'd' as int then (true, st.(deint := if st.deint == Off then On else Off))
    else if key == 'f' as int then (true, st.(fullscreen := !st.fullscreen))
    else if key == 'q' as int then (true, st.(exitRequested := true))
    else (false, st)
  }

  /** Two 'd' presses restore off and on, but force comes back as on. */
  lemma DeinterlaceTwice(st: Controls)
    ensures var d2 := ProcessKey(ProcessKey(st, 'd' as int).1, 'd' as int).1.deint;
            d2 == (if st.deint == Force then On else st.deint)
  {
  }

  /** Two 'f' presses restore the window mode. */
  lemma FullscreenTwice(st: Controls)
    ensures ProcessKey(ProcessKey(st, 'f' as int).1, 'f' as int).1 == st
  {
  }

  // ---------------------------------------------------------------------
  // Control messages

  const WIN_TITLE_PREFIX: string := "win-title "
  const UNSUPPORTED_KEY: string := "Unsupported key for SDL"
  const WRONG_COMMAND: string := "Wrong command"

  datatype Command = SetTitle(title: string) | KeyCommand(key: int) | WrongCommand

  datatype Response = Ok | BadRequest(reason: string)

  /** How a message text is classified: `strstr(text, "win-title ") == text`
      first, then `sscanf(text, "%d", &key) == 1`. */
  function ParseCommand(text: string): (c: Command)
    ensures c.SetTitle? <==> StartsWith(text, WIN_TITLE_PREFIX)
    ensures c.SetTitle? ==> text == WIN_TITLE_PREFIX + c.title
    ensures c.KeyCommand? <==> !StartsWith(text, WIN_TITLE_PREFIX) && ScansDecimal(text)
    ensures c.KeyCommand? ==> INT32_MIN <= c.key <= INT32_MAX
  {
    if Find(text, WIN_TITLE_PREFIX) == Some(0) then
      SetTitle(text[|WIN_TITLE_PREFIX|..])
    else if ScansDecimal(text) then KeyCommand(Atoi(text))
    else WrongCommand
  }

  /** The text a sender writes for a command. */
  function CommandText(c: Command): string
    requires !c.WrongCommand?
  {
    match c
    case SetTitle(t) => WIN_TITLE_PREFIX + t
    case KeyCommand(k) => IntToDec(k)
  }

  /** Every title and every `int` key survives the trip through text. */
  lemma CommandRoundTrip(c: Command)
    requires !c.WrongCommand?
    requires c.KeyCommand? ==> INT32_MIN <= c.key <= INT32_MAX
    ensures ParseCommand(CommandText(c)) == c
  {
    var text := CommandText(c);
    if c.KeyCommand? {
      AtoiOfIntToDec(c.key, "");
      assert IntToDec(c.key) + "" == text;
      assert text[0] == '-' || IsDigit(text[0]);
    } else {
      assert text[..|WIN_TITLE_PREFIX|] == WIN_TITLE_PREFIX;
      assert text[|WIN_TITLE_PREFIX|..] == c.title;
    }
  }

  /** One message of the message branch of `display_sdl2_run`: the new
      state and the response it is freed with. */
  function HandleMessage(st: Controls, text: string): (r: (Controls, Response))
    ensures r.1 == Ok <==>
              StartsWith(text, WIN_TITLE_PREFIX) || (ScansDecimal(text) && LocalKey(Atoi(text)))
    ensures r.1 == BadRequest(WRONG_COMMAND) <==>
              !StartsWith(text, WIN_TITLE_PREFIX) && !ScansDecimal(text)
    ensures r.1.BadRequest? ==> r.0 == st && (r.1.reason == WRONG_COMMAND || r.1.reason == UNSUPPORTED_KEY)
    ensures StartsWith(text, WIN_TITLE_PREFIX) ==>
              r.0 == st.(title := Some(text[|WIN_TITLE_PREFIX|..]))
  {
    match ParseCommand(text)
    case SetTitle(t) => (st.(title := Some(t)), Ok)
    case KeyCommand(k) =>
      var (accepted, st') := ProcessKey(st, k);
      (st', if accepted then Ok else BadRequest(UNSUPPORTED_KEY))
    case WrongCommand => (st, BadRequest(WRONG_COMMAND))
  }

  /** The `while (check_message(...))` loop: every queued message in order. */
  function HandleMessages(st: Controls, msgs: seq<string>): (r: (Controls, seq<Response>))
    ensures |r.1| == |msgs|
    ensures |msgs| > 0 ==> r.1[0] == HandleMessage(st, msgs[0]).1
    decreases |msgs|
  {
    if |msgs| == 0 then (st, [])
    else
      var (st1, r1) := HandleMessage(st, msgs[0]);
      var (st2, rs) := HandleMessages(st1, msgs[1..]);
      (st2, [r1] + rs)
  }

  /** Processing a batch of messages is processing its two halves in turn;
      the responses follow the messages one for one. */
  lemma {:induction false} HandleMessagesSplit(st: Controls, a: seq<string>, b: seq<string>)
    ensures var (st1, ra) := HandleMessages(st, a);
            var (st2, rb) := HandleMessages(st1, b);
            HandleMessages(st, a + b) == (st2, ra + rb)
    decreases |a|
  {
    if |a| > 0 {
      assert (a + b)[1..] == a[1..] + b;
      assert (a + b)[0] == a[0];
      var (s1, r1) := HandleMessage(st, a[0]);
      HandleMessagesSplit(s1, a[1..], b);
      var (s2, ra) := HandleMessages(s1, a[1..]);
      var (s3, rb) := HandleMessages(s2, b);
      assert HandleMessages(st, a) == (s2, [r1] + ra);
      assert HandleMessages(st, a + b) == (s3, [r1] + (ra + rb));
      assert [r1] + (ra + rb) == ([r1] + ra) + rb;
    } else {
      assert a + b == b;
      assert HandleMessages(st, a) == (st, []);
      assert [] + HandleMessages(st, b).1 == HandleMessages(st, b).1;
    }
  }

  /** A message that is answered with an error leaves the state as it was,
      however many messages came before it. */
  lemma {:induction false} RejectedMessageChangesNothing(st: Controls, a: seq<string>, m: string)
    requires HandleMessage(HandleMessages(st, a).0, m).1.BadRequest?
    ensures HandleMessages(st, a + [m]).0 == HandleMessages(st, a).0
  {
    HandleMessagesSplit(st, a, [m]);
  }

  /** The message "<n>" acts on the display exactly like the key `n`. */
  lemma KeyMessageIsKeyPress(st: Controls, n: int)
    requires INT32_MIN <= n <= INT32_MAX
    ensures HandleMessage(st, IntToDec(n)).0 == ProcessKey(st, n).1
    ensures HandleMessage(st, IntToDec(n)).1 == Ok <==> LocalKey(n)
  {
    CommandRoundTrip(KeyCommand(n));
  }

  // ---------------------------------------------------------------------
  // Key presses

  datatype KeyAction = Consumed | Forwarded(key: UgKey) | Ignored | Warned

  /** The `SDL_KEYDOWN` branch of `display_sdl2_run`: a positive key is
      offered to `display_sdl2_process_key` and passed on to keyboard
      control when refused; 0 is ignored and -1 is reported. */
  function OnKeyDown(st: Controls, k: Keysym): (r: (Controls, KeyAction))
    ensures r.1 == Consumed <==> TranslateKey(k).Plain? && LocalKey(TranslateKey(k).code)
    ensures r.1 == Warned <==> TranslateKey(k).Untranslatable?
    ensures r.1.Forwarded? ==> r.1.key == TranslateKey(k)
    ensures r.1 != Consumed ==> r.0 == st
  {
    var u := TranslateKey(k);
    match u
    case NoKey => (st, Ignored)
    case Untranslatable => (st, Warned)
    case Plain(c) =>
      if c > 0 then
        var (accepted, st') := ProcessKey(st, c);
        if accepted then (st', Consumed) else (st, Forwarded(u))
      else (st, Ignored)
    case Ctrl(_) => (st, Forwarded(u))
    case Nav(_) => (st, Forwarded(u))
  }

  /** Pressing a character key and sending its code as a control message
      have the same effect, and the key is consumed exactly when the message
      is answered OK. */
  lemma KeyDownMatchesMessage(st: Controls, k: Keysym)
    requires TranslateKey(k).Plain? && TranslateKey(k).code > 0
    ensures var n := TranslateKey(k).code;
            OnKeyDown(st, k).0 == HandleMessage(st, IntToDec(n)).0 &&
            (OnKeyDown(st, k).1 == Consumed <==> HandleMessage(st, IntToDec(n)).1 == Ok)
  {
    var n := TranslateKey(k).code;
    assert n < SDLK_SCANCODE_MASK;
    KeyMessageIsKeyPress(st, n);
  }

  /** Shift+d is 'D', which the display does not handle itself. */
  lemma ShiftDIsForwarded(st: Controls)
    ensures OnKeyDown(st, Keysym('d' as int, KMOD_LSHIFT)) == (st, Forwarded(Plain('D' as int)))
  {
  }
}
