/**
 The option validator of the Windows screen capture, in
 src/video_capture/screen_win.c (`vidcap_screen_win_process_params`):
 `:`-separated `width=`, `height=` and `fps=` assignments, each stored by
 `set_key` in the registry of the screen-capture-recorder filter.

 The registry is a sink that may refuse a write: `sinkOk(n)` says whether
 the `n`-th call of `set_key` (counted from 0) succeeds. `long` is 32 bits
 on Windows, so `strtol` saturates at the bounds of a 32-bit integer.
 */
module ScreenWin {
  import opened Text

  /** The registry values the options set. */
  datatype RegKey = CaptureWidth | CaptureHeight | DefaultMaxFps

  function KeyName(k: RegKey): (name: string)
    ensures |name| > 0
  {
    match k
    case CaptureWidth => "capture_width"
    case CaptureHeight => "capture_height"
    case DefaultMaxFps => "default_max_fps"
  }

  /** What one token asks for: a registry write, or nothing valid. */
  datatype Verdict = Assign(key: RegKey, value: int) | Invalid

  /** `strtol(v, &end, 0)` with `long` of 32 bits, accepted only when it
      reads the whole text. An empty text is accepted as 0: with no digits
      `end` stays at the start, which is already the terminator. */
  function ParseValue(v: string): (r: Option<int>)
    ensures r.Some? ==> INT32_MIN <= r.value <= INT32_MAX
    ensures r.Some? <==> Strtol0(v).consumed == |v|
    ensures |v| == 0 ==> r == Some(0)
  {
    var scan := Strtol0(v);
    if scan.consumed == |v| then Some(Clamp(scan.value, INT32_MIN, INT32_MAX)) else None
  }

  /** The per-token test as written: the key is chosen by `strstr`, in the
      order width, height, fps, but the value is taken at the fixed offset
      of the key's length from the start of the token. */
  function ParseToken(tok: string): (v: Verdict)
    ensures v.Assign? ==> Contains(tok, "width=") || Contains(tok, "height=") || Contains(tok, "fps=")
    ensures !Contains(tok, "width=") && !Contains(tok, "height=") && !Contains(tok, "fps=") ==> v == Invalid
  {
    var (key, keyLen) :=
      if Contains(tok, "width=") then (Some(CaptureWidth), 6)
      else if Contains(tok, "height=") then (Some(CaptureHeight), 7)
      else if Contains(tok, "fps=") then (Some(DefaultMaxFps), 4)
      else (None, 0);
    if key.None? then Invalid
    else match ParseValue(tok[keyLen..])
      case Some(n) => Assign(key.value, n)
      case None => Invalid
  }

  /** The option text, read as prefixes: `width=<n>`, `height=<n>` or
      `fps=<n>`, with `<n>` a whole `strtol` number. */
  function ParseTokenByPrefix(tok: string): (v: Verdict)
  {
    if StartsWith(tok, "width=") then ValueFor(CaptureWidth, tok[6..])
    else if StartsWith(tok, "height=") then ValueFor(CaptureHeight, tok[7..])
    else if StartsWith(tok, "fps=") then ValueFor(DefaultMaxFps, tok[4..])
    else Invalid
  }

  function ValueFor(key: RegKey, v: string): (r: Verdict)
    ensures r.Assign? <==> ParseValue(v).Some?
    ensures r.Assign? ==> r.key == key && r.value == ParseValue(v).value
  {
    match ParseValue(v)
    case Some(n) => Assign(key, n)
    case None => Invalid
  }

  /** A value containing '=' never parses. */
  lemma EqualsRejected(v: string, i: nat)
    requires i < |v| && v[i] == '='
    ensures ParseValue(v).None?
  {
    Strtol0StopsBefore(v, '=');
  }

  /** A key found later in the token than its start puts its '=' inside
      the value, which then cannot parse: so the `strstr` test with a fixed
      offset accepts exactly the tokens that start with a key, and
      means the same as the prefix reading. */
  lemma ParseTokenIsPrefixReading(tok: string)
    ensures ParseToken(tok) == ParseTokenByPrefix(tok)
  {
    if Contains(tok, "width=") {
      var p := Find(tok, "width=").value;
      if p != 0 {
        assert tok[p + 5] == tok[p..p + 6][5] == '=';
        EqualsRejected(tok[6..], p - 1);
        FoundLater(tok, "width=", p);
      }
    } else if Contains(tok, "height=") {
      NotFoundNotPrefix(tok, "width=");
      var p := Find(tok, "height=").value;
      if p != 0 {
        assert tok[p + 6] == tok[p..p + 7][6] == '=';
        EqualsRejected(tok[7..], p - 1);
        FoundLater(tok, "height=", p);
      }
    } else if Contains(tok, "fps=") {
      NotFoundNotPrefix(tok, "width=");
      NotFoundNotPrefix(tok, "height=");
      var p := Find(tok, "fps=").value;
      if p != 0 {
        assert tok[p + 3] == tok[p..p + 4][3] == '=';
        EqualsRejected(tok[4..], p - 1);
        FoundLater(tok, "fps=", p);
      }
    } else {
      NotFoundNotPrefix(tok, "width=");
      NotFoundNotPrefix(tok, "height=");
      NotFoundNotPrefix(tok, "fps=");
    }
  }

  lemma NotFoundNotPrefix(s: string, p: string)
    requires !Contains(s, p)
    ensures !StartsWith(s, p)
  {
  }

  /** When a key occurs only after the start, whichever key the token does
      start with (if any) leaves that later '=' inside its value. */
  lemma FoundLater(tok: string, key: string, p: nat)
    requires key == "width=" || key == "height=" || key == "fps="
    requires p > 0 && p + |key| <= |tok| && tok[p..p + |key|] == key
    ensures ParseTokenByPrefix(tok) == Invalid
  {
    var eq := p + |key| - 1;
    assert tok[eq] == tok[p..p + |key|][|key| - 1] == '=';
    assert tok[p] == tok[p..p + |key|][0] == key[0];
    if StartsWith(tok, "width=") {
      assert tok[..6] == "width=";
      assert eq >= 6;
      assert tok[6..][eq - 6] == tok[eq];
      EqualsRejected(tok[6..], eq - 6);
    } else if StartsWith(tok, "height=") {
      assert tok[..7] == "height=";
      assert eq >= 7;
      assert tok[7..][eq - 7] == tok[eq];
      EqualsRejected(tok[7..], eq - 7);
    } else if StartsWith(tok, "fps=") {
      assert tok[..4] == "fps=";
      assert eq >= 4;
      assert tok[4..][eq - 4] == tok[eq];
      EqualsRejected(tok[4..], eq - 4);
    }
  }

  // ---------------------------------------------------------------------
  // The loop over the tokens

  /** The registry writes that took effect and the returned flag. */
  datatype Outcome = Outcome(writes: seq<(RegKey, int)>, ok: bool)

  /** Whether the `i`-th verdict is an assignment whose `set_key` call, the
      `calls + i`-th, succeeds. */
  predicate Stored(vs: seq<Verdict>, i: nat, sinkOk: nat -> bool, calls: nat)
    requires i < |vs|
  {
    vs[i].Assign? && sinkOk(calls + i)
  }

  function WriteOf(v: Verdict): (RegKey, int)
    requires v.Assign?
  {
    (v.key, v.value)
  }

  /** The body of the `strtok_r` loop over the tokens' verdicts: stop at
      the first invalid token or refused write, keeping the writes already
      made. */
  function ProcessVerdicts(vs: seq<Verdict>, sinkOk: nat -> bool, calls: nat): (r: Outcome)
    ensures |r.writes| <= |vs|
    ensures forall i :: 0 <= i < |r.writes| ==> Stored(vs, i, sinkOk, calls) && r.writes[i] == WriteOf(vs[i])
    ensures r.ok <==> |r.writes| == |vs|
    ensures !r.ok ==> !Stored(vs, |r.writes|, sinkOk, calls)
    decreases |vs|
  {
    if |vs| == 0 then Outcome([], true)
    else
      match vs[0]
      case Invalid => Outcome([], false)
      case Assign(key, value) =>
        if !sinkOk(calls) then Outcome([], false)
        else
          var rest := ProcessVerdicts(vs[1..], sinkOk, calls + 1);
          ShiftStored(vs, sinkOk, calls, |rest.writes|);
          Outcome([(key, value)] + rest.writes, rest.ok)
  }

  /** Verdicts past the first, seen from the first or from the rest. */
  lemma ShiftStored(vs: seq<Verdict>, sinkOk: nat -> bool, calls: nat, n: nat)
    requires 0 < |vs| && n < |vs|
    ensures forall j :: 0 <= j < n ==>
              vs[1..][j] == vs[j + 1] && (Stored(vs[1..], j, sinkOk, calls + 1) <==> Stored(vs, j + 1, sinkOk, calls))
    ensures n + 1 < |vs| ==>
              (Stored(vs[1..], n, sinkOk, calls + 1) <==> Stored(vs, n + 1, sinkOk, calls))
  {
    forall j | 0 <= j < n
      ensures vs[1..][j] == vs[j + 1] && (Stored(vs[1..], j, sinkOk, calls + 1) <==> Stored(vs, j + 1, sinkOk, calls))
    {
      assert calls + 1 + j == calls + (j + 1);
    }
  }

  /** The verdict of each token. */
  function Verdicts(toks: seq<string>): (vs: seq<Verdict>)
    ensures |vs| == |toks|
    ensures forall i :: 0 <= i < |toks| ==> vs[i] == ParseToken(toks[i])
  {
    seq(|toks|, i requires 0 <= i < |toks| => ParseToken(toks[i]))
  }

  /** `vidcap_screen_win_process_params`: nothing to do for a missing or
      empty option text; otherwise the tokens between ':' are processed in
      order. */
  function ProcessParams(fmt: Option<string>, sinkOk: nat -> bool): (r: Outcome)
    ensures fmt.None? || fmt == Some("") ==> r == Outcome([], true)
    ensures fmt.Some? ==> r == ProcessVerdicts(Verdicts(Tokens(fmt.value, ':')), sinkOk, 0)
  {
    match fmt
    case None => Outcome([], true)
    case Some(s) => if |s| == 0 then Outcome([], true) else ProcessVerdicts(Verdicts(Tokens(s, ':')), sinkOk, 0)
  }

  /** Every verdict is an assignment whose write succeeds. */
  predicate AllStored(vs: seq<Verdict>, sinkOk: nat -> bool)
  {
    forall i :: 0 <= i < |vs| ==> Stored(vs, i, sinkOk, 0)
  }

  /** True exactly when every token is a valid assignment and every write
      succeeds; then every token was written, in order. */
  lemma ProcessOkIffAllStored(fmt: string, sinkOk: nat -> bool)
    ensures var vs := Verdicts(Tokens(fmt, ':'));
            var r := ProcessParams(Some(fmt), sinkOk);
            && (r.ok <==> AllStored(vs, sinkOk))
            && (r.ok ==> forall i :: 0 <= i < |vs| ==> r.writes[i] == WriteOf(vs[i]))
  {
    VerdictsOkIffAllStored(Verdicts(Tokens(fmt, ':')), sinkOk);
  }

  lemma VerdictsOkIffAllStored(vs: seq<Verdict>, sinkOk: nat -> bool)
    ensures var r := ProcessVerdicts(vs, sinkOk, 0);
            && (r.ok <==> AllStored(vs, sinkOk))
            && (r.ok ==> forall i :: 0 <= i < |vs| ==> r.writes[i] == WriteOf(vs[i]))
  {
    var r := ProcessVerdicts(vs, sinkOk, 0);
    if !r.ok {
      assert !Stored(vs, |r.writes|, sinkOk, 0);
    }
  }

  /** A failure after some tokens leaves their writes in place: processing
      is not atomic. */
  lemma WritesBeforeFailureStay(fmt: string, sinkOk: nat -> bool, k: nat)
    requires k < |Tokens(fmt, ':')|
    requires forall i :: 0 <= i < k ==> Stored(Verdicts(Tokens(fmt, ':')), i, sinkOk, 0)
    requires !Stored(Verdicts(Tokens(fmt, ':')), k, sinkOk, 0)
    ensures var vs := Verdicts(Tokens(fmt, ':'));
            ProcessParams(Some(fmt), sinkOk) == Outcome(seq(k, i requires 0 <= i < k => WriteOf(vs[i])), false)
  {
    var vs := Verdicts(Tokens(fmt, ':'));
    var r := ProcessParams(Some(fmt), sinkOk);
    assert |r.writes| == k;
  }

  /** A registry that accepts every write. */
  function AlwaysOk(n: nat): bool { true }

  /** A height followed by a bad token: the height is written, then the
      loop stops and returns false. */
  lemma HeightThenBadToken(n: nat, b: string)
    requires n <= INT32_MAX
    requires |b| > 0 && ':' !in b && ParseToken(b) == Invalid
    ensures ProcessParams(Some("height=" + NatToDec(n) + [':'] + b), AlwaysOk) == Outcome([(CaptureHeight, n)], false)
  {
    HeightToken(n);
    assert ':' !in NatToDec(n);
    WrittenThenStopped("height=" + NatToDec(n), b, CaptureHeight, n);
  }

  /** A good token followed by a bad one: one write, then false. */
  lemma WrittenThenStopped(a: string, b: string, key: RegKey, value: int)
    requires |a| > 0 && |b| > 0 && ':' !in a && ':' !in b
    requires ParseToken(a) == Assign(key, value) && ParseToken(b) == Invalid
    ensures ProcessParams(Some(a + [':'] + b), AlwaysOk) == Outcome([(key, value)], false)
  {
    TwoTokens(a, b, ':');
    var vs := [Assign(key, value), Invalid];
    assert Verdicts([a, b]) == vs;
    assert vs[1..] == [Invalid];
    assert ProcessVerdicts([Invalid], AlwaysOk, 1) == Outcome([], false);
    assert ProcessVerdicts(vs, AlwaysOk, 0) == Outcome([(key, value)], false);
  }

  lemma TwoTokens(a: string, b: string, sep: char)
    requires |a| > 0 && |b| > 0 && sep !in a && sep !in b
    ensures Tokens(a + [sep] + b, sep) == [a, b]
  {
    TokensOfJoin([a, b], sep);
    assert Join([a, b], sep) == a + [sep] + b;
  }

  lemma HeightToken(n: nat)
    requires n <= INT32_MAX
    ensures ParseToken("height=" + NatToDec(n)) == Assign(CaptureHeight, n)
  {
    var tok := "height=" + NatToDec(n);
    ParseTokenIsPrefixReading(tok);
    assert tok[..7] == "height=";
    assert tok[0] != "width="[0];
    assert tok[7..] == NatToDec(n);
    Strtol0OfDecimal(n);
  }

  /** "fps=x" names a key but its value does not parse. */
  lemma FpsXToken()
    ensures ParseToken("fps=x") == Invalid
  {
    ParseTokenIsPrefixReading("fps=x");
    assert StartsWith("fps=x", "fps=");
    assert !StartsWith("fps=x", "width=") && !StartsWith("fps=x", "height=");
    assert "fps=x"[4..] == "x";
    assert Strtol0("x").consumed == 0;
  }
}
