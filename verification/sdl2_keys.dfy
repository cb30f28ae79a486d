/**
 `translate_sdl_key_to_ug` of src/video_display/sdl2.cpp: an SDL key event
 (key code and modifier bits) becomes an UltraGrid key.

 The numeric values of UltraGrid's `K_*` codes are declared in
 keyboard_control.h, which is not part of this model, so the translated key
 is a datatype: `Plain(c)` is the code `c` itself, `Ctrl(c)` is `K_CTRL(c)`,
 `Nav(n)` one of the arrow / page keys, `NoKey` the 0 the source returns for
 a lone Ctrl key and `Untranslatable` its -1.
 */
module Sdl2Keys {
  import opened Text

  // SDL_keycode.h modifier bits (`SDL_Keymod`, 16 bits wide).
  const KMOD_LSHIFT: bv16 := 0x0001
  const KMOD_RSHIFT: bv16 := 0x0002
  const KMOD_LCTRL: bv16 := 0x0040
  const KMOD_RCTRL: bv16 := 0x0080
  const KMOD_NUM: bv16 := 0x1000
  const KMOD_CAPS: bv16 := 0x2000
  const KMOD_CTRL: bv16 := KMOD_LCTRL | KMOD_RCTRL
  const KMOD_SHIFT: bv16 := KMOD_LSHIFT | KMOD_RSHIFT
  /** The lock keys the translation strips first. */
  const KMOD_LOCKS: bv16 := KMOD_NUM | KMOD_CAPS

  /** Key codes without a character carry this bit (`SDLK_SCANCODE_MASK`). */
  const SDLK_SCANCODE_MASK: int := 0x4000_0000

  /** `SDL_SCANCODE_TO_KEYCODE` for a scan code below the mask bit. */
  function ScancodeKey(scancode: nat): (k: int)
    requires scancode < SDLK_SCANCODE_MASK
    ensures k >= SDLK_SCANCODE_MASK
  {
    scancode + SDLK_SCANCODE_MASK
  }

  const SDLK_PAGEUP: int := ScancodeKey(75)
  const SDLK_PAGEDOWN: int := ScancodeKey(78)
  const SDLK_RIGHT: int := ScancodeKey(79)
  const SDLK_LEFT: int := ScancodeKey(80)
  const SDLK_DOWN: int := ScancodeKey(81)
  const SDLK_UP: int := ScancodeKey(82)
  const SDLK_LCTRL: int := ScancodeKey(224)
  const SDLK_RCTRL: int := ScancodeKey(228)

  /** `SDL_Keycode`: SDL's key codes are non-negative 32-bit values. */
  type Keycode = k: int | 0 <= k < 0x8000_0000

  datatype Keysym = Keysym(sym: Keycode, mod: bv16)

  datatype NavKey = Right | Left | Down | Up | PageDown | PageUp

  datatype UgKey =
    | NoKey
    | Untranslatable
    | Plain(code: int)
    | Ctrl(code: int)
    | Nav(nav: NavKey)

  /** The SDL key code of each navigation key. */
  function NavSym(n: NavKey): (k: int)
    ensures k >= SDLK_SCANCODE_MASK
  {
    match n
    case Right => SDLK_RIGHT
    case Left => SDLK_LEFT
    case Down => SDLK_DOWN
    case Up => SDLK_UP
    case PageDown => SDLK_PAGEDOWN
    case PageUp => SDLK_PAGEUP
  }

  /** The `switch` over scan-code keys: only arrows and page keys. */
  function NavOf(sym: int): (r: Option<NavKey>)
    ensures r.Some? ==> NavSym(r.value) == sym
    ensures r.None? ==> forall n: NavKey :: NavSym(n) != sym
  {
    if sym == SDLK_RIGHT then Some(Right)
    else if sym == SDLK_LEFT then Some(Left)
    else if sym == SDLK_DOWN then Some(Down)
    else if sym == SDLK_UP then Some(Up)
    else if sym == SDLK_PAGEDOWN then Some(PageDown)
    else if sym == SDLK_PAGEUP then Some(PageUp)
    else None
  }

  /** C `toupper` in the "C" locale: only 'a'..'z' change. */
  function ToUpper(c: int): (r: int)
    ensures 'a' as int <= c <= 'z' as int ==> r == c - 32 && 'A' as int <= r <= 'Z' as int
    ensures !('a' as int <= c <= 'z' as int) ==> r == c
  {
    if 'a' as int <= c <= 'z' as int then c - 32 else c
  }

  /** Some modifier other than Ctrl, Shift and the two locks is held. */
  predicate OtherModifier(mod: bv16) {
    mod & !(KMOD_LOCKS | KMOD_CTRL | KMOD_SHIFT) != 0
  }

  predicate CtrlHeld(mod: bv16) { mod & KMOD_CTRL != 0 }

  predicate ShiftHeld(mod: bv16) { mod & KMOD_SHIFT != 0 }

  /** `translate_sdl_key_to_ug`. */
  function TranslateKey(k: Keysym): (r: UgKey)
    ensures r.NoKey? <==> k.sym == SDLK_LCTRL || k.sym == SDLK_RCTRL
    ensures (r.Plain? || r.Ctrl?) ==>
              k.sym < SDLK_SCANCODE_MASK && !OtherModifier(k.mod) &&
              r.code == (if ShiftHeld(k.mod) then ToUpper(k.sym) else k.sym)
    ensures r.Plain? || r.Ctrl? ==> (r.Ctrl? <==> CtrlHeld(k.mod))
    ensures r.Nav? ==> k.sym == NavSym(r.nav) && !OtherModifier(k.mod)
  {
    var mod := k.mod & !KMOD_LOCKS;
    if k.sym == SDLK_LCTRL || k.sym == SDLK_RCTRL then NoKey
    else
      var ctrl := mod & KMOD_CTRL != 0;
      var shift := mod & KMOD_SHIFT != 0;
      var rest := mod & !KMOD_CTRL & !KMOD_SHIFT;
      if rest != 0 then Untranslatable
      else if k.sym < SDLK_SCANCODE_MASK then
        var c := if shift then ToUpper(k.sym) else k.sym;
        if ctrl then Ctrl(c) else Plain(c)
      else
        match NavOf(k.sym)
        case Some(n) => Nav(n)
        case None => Untranslatable
  }

  /** Num Lock and Caps Lock never change the translation, whether they are
      pressed or released. */
  lemma LocksIgnored(k: Keysym, locks: bv16)
    requires locks & !KMOD_LOCKS == 0
    ensures TranslateKey(k.(mod := k.mod | locks)) == TranslateKey(k)
    ensures TranslateKey(k.(mod := k.mod & !locks)) == TranslateKey(k)
  {
    assert (k.mod | locks) & !KMOD_LOCKS == k.mod & !KMOD_LOCKS;
    assert (k.mod & !locks) & !KMOD_LOCKS == k.mod & !KMOD_LOCKS;
  }

  /** A lone Ctrl key is a no-op whatever else is held. */
  lemma LoneCtrlIsNoKey(mod: bv16)
    ensures TranslateKey(Keysym(SDLK_LCTRL, mod)) == NoKey
    ensures TranslateKey(Keysym(SDLK_RCTRL, mod)) == NoKey
  {
  }

  /** Alt, GUI, AltGr and the other modifiers make every key other than the
      Ctrl keys untranslatable. */
  lemma OtherModifierUntranslatable(k: Keysym)
    requires k.sym != SDLK_LCTRL && k.sym != SDLK_RCTRL
    requires OtherModifier(k.mod)
    ensures TranslateKey(k) == Untranslatable
  {
    assert k.mod & !KMOD_LOCKS & !KMOD_CTRL & !KMOD_SHIFT == k.mod & !(KMOD_LOCKS | KMOD_CTRL | KMOD_SHIFT);
  }

  /** Which key events produce a character key: exactly the character key
      codes, upper-cased when Shift is held, without modifiers besides Shift
      and the locks. */
  lemma PlainIff(k: Keysym, c: int)
    requires k.sym != SDLK_LCTRL && k.sym != SDLK_RCTRL
    ensures TranslateKey(k) == Plain(c) <==>
              k.sym < SDLK_SCANCODE_MASK && !OtherModifier(k.mod) && !CtrlHeld(k.mod) &&
              c == (if ShiftHeld(k.mod) then ToUpper(k.sym) else k.sym)
  {
    assert k.mod & !KMOD_LOCKS & !KMOD_CTRL & !KMOD_SHIFT == k.mod & !(KMOD_LOCKS | KMOD_CTRL | KMOD_SHIFT);
    assert (k.mod & !KMOD_LOCKS) & KMOD_CTRL == k.mod & KMOD_CTRL;
    assert (k.mod & !KMOD_LOCKS) & KMOD_SHIFT == k.mod & KMOD_SHIFT;
  }

  /** Among the scan-code keys only the six navigation keys translate. */
  lemma ScancodeKeys(k: Keysym)
    requires k.sym >= SDLK_SCANCODE_MASK && k.sym != SDLK_LCTRL && k.sym != SDLK_RCTRL
    requires !OtherModifier(k.mod)
    ensures TranslateKey(k).Untranslatable? <==> NavOf(k.sym).None?
    ensures forall n: NavKey :: TranslateKey(k) == Nav(n) <==> k.sym == NavSym(n)
  {
    assert k.mod & !KMOD_LOCKS & !KMOD_CTRL & !KMOD_SHIFT == k.mod & !(KMOD_LOCKS | KMOD_CTRL | KMOD_SHIFT);
  }

  /** A canonical key event for every key the translation can produce. */
  function EventFor(u: UgKey): (k: Keysym)
    requires u.Plain? || u.Ctrl? ==> 0 <= u.code < SDLK_SCANCODE_MASK
    requires !u.NoKey? && !u.Untranslatable?
  {
    match u
    case Plain(c) => Keysym(c, 0)
    case Ctrl(c) => Keysym(c, KMOD_LCTRL)
    case Nav(n) => Keysym(NavSym(n), 0)
  }

  /** The translation is onto: the canonical event of each key translates
      back to it. */
  lemma EventForRoundTrip(u: UgKey)
    requires u.Plain? || u.Ctrl? ==> 0 <= u.code < SDLK_SCANCODE_MASK
    requires !u.NoKey? && !u.Untranslatable?
    ensures TranslateKey(EventFor(u)) == u
  {
  }

  /** Shift upper-cases letters, with or without Ctrl. */
  lemma ShiftUppercases(c: char, ctrl: bool)
    requires 'a' <= c <= 'z'
    ensures TranslateKey(Keysym(c as int, if ctrl then KMOD_LCTRL | KMOD_LSHIFT else KMOD_LSHIFT)) ==
              if ctrl then Ctrl(c as int - 32) else Plain(c as int - 32)
  {
  }
}
