/**
 The C string primitives the modelled sources lean on, stated once:
 prefix and substring tests (`strncmp`, `strstr`), `strtok_r` splitting,
 the numeric conversions of the C library (`atoi`, `strtol` with base 10 or
 base 0, `sscanf` with `%d` and `%i`) and decimal printing (`%u`/`%d`).

 C strings cannot hold NUL, so a `string` here is the text before the
 terminating NUL. Integer widths are written out: `long` is 64 bits on the
 LP64 platforms and 32 bits on Windows, `int` is 32 bits.
 */
module Text {

  datatype Option<+T> = None | Some(value: T)

  // ---------------------------------------------------------------------
  // Integer widths

  const INT32_MIN: int := -0x8000_0000
  const INT32_MAX: int := 0x7FFF_FFFF
  const INT64_MIN: int := -0x8000_0000_0000_0000
  const INT64_MAX: int := 0x7FFF_FFFF_FFFF_FFFF

  /** What `strtol` does on overflow: saturate at the bounds of `long`. */
  function Clamp(x: int, lo: int, hi: int): (r: int)
    requires lo <= hi
    ensures lo <= r <= hi
    ensures lo <= x <= hi ==> r == x
    ensures x < lo ==> r == lo
    ensures x > hi ==> r == hi
  {
    if x < lo then lo else if x > hi then hi else x
  }

  /** Conversion to a two's complement 32-bit `int` (GCC keeps the low 32 bits). */
  function Wrap32(x: int): (r: int)
    ensures INT32_MIN <= r <= INT32_MAX
    ensures (r - x) % 0x1_0000_0000 == 0
    ensures INT32_MIN <= x <= INT32_MAX ==> r == x
  {
    (x - INT32_MIN) % 0x1_0000_0000 + INT32_MIN
  }

  // ---------------------------------------------------------------------
  // Characters

  predicate IsDigit(c: char) { '0' <= c <= '9' }

  /** `isspace` in the C locale. */
  predicate IsSpace(c: char) {
    c == ' ' || c == '\t' || c == '\n' || c == '\r' || c == '\U{B}' || c == '\U{C}'
  }

  /** Whether `c` is a digit of the given base (8, 10 or 16). */
  predicate IsDigitIn(c: char, base: nat)
    requires base == 8 || base == 10 || base == 16
  {
    if base == 8 then '0' <= c <= '7'
    else if base == 10 then IsDigit(c)
    else IsDigit(c) || 'a' <= c <= 'f' || 'A' <= c <= 'F'
  }

  function DigitOf(c: char, base: nat): (d: nat)
    requires base == 8 || base == 10 || base == 16
    requires IsDigitIn(c, base)
    ensures d < base
  {
    if IsDigit(c) then c as int - '0' as int
    else if 'a' <= c <= 'f' then c as int - 'a' as int + 10
    else c as int - 'A' as int + 10
  }

  function DecimalDigit(d: nat): (c: char)
    requires d < 10
    ensures IsDigit(c) && DigitOf(c, 10) == d
  {
    ('0' as int + d) as char
  }

  // ---------------------------------------------------------------------
  // Prefixes, substrings, searching

  predicate StartsWith(s: string, p: string) {
    |p| <= |s| && s[..|p|] == p
  }

  /** `p` occurs in `s` starting at index `i`. */
  predicate OccursAt(s: string, p: string, i: int) {
    0 <= i && i + |p| <= |s| && s[i..i + |p|] == p
  }

  /** `strstr(s, p)`, as the index of the first occurrence of `p` in `s`:
      none exactly when `p` occurs nowhere. */
  function Find(s: string, p: string): (r: Option<nat>)
    ensures r.Some? ==> OccursAt(s, p, r.value) && forall j :: 0 <= j < r.value ==> !OccursAt(s, p, j)
    ensures r.None? <==> forall i :: !OccursAt(s, p, i)
    ensures r == Some(0) <==> StartsWith(s, p)
  {
    if StartsWith(s, p) then Some(0)
    else if |s| == 0 then
      assert forall i :: !OccursAt(s, p, i);
      None
    else
      ShiftedOccurrence(s, p);
      match Find(s[1..], p)
      case None =>
        assert forall i :: !OccursAt(s, p, i) by {
          forall i ensures !OccursAt(s, p, i) {
            if i > 0 { assert !OccursAt(s[1..], p, i - 1); }
          }
        }
        None
      case Some(i) =>
        assert forall j :: 0 <= j < i + 1 ==> !OccursAt(s, p, j) by {
          forall j | 0 < j < i + 1 ensures !OccursAt(s, p, j) {
            assert !OccursAt(s[1..], p, j - 1);
          }
        }
        Some(i + 1)
  }

  /** An occurrence in the tail is an occurrence one further on. */
  lemma ShiftedOccurrence(s: string, p: string)
    requires |s| > 0
    ensures forall i :: 0 <= i ==> (OccursAt(s[1..], p, i) <==> OccursAt(s, p, i + 1))
    ensures OccursAt(s, p, 0) <==> StartsWith(s, p)
  {
    forall i | 0 <= i
      ensures OccursAt(s[1..], p, i) <==> OccursAt(s, p, i + 1)
    {
      if i + |p| <= |s| - 1 {
        assert s[1..][i..i + |p|] == s[i + 1..i + 1 + |p|];
      }
    }
  }

  /** `strstr(s, p) != NULL`. */
  predicate Contains(s: string, p: string) {
    Find(s, p).Some?
  }

  /** Length of the longest prefix of `s` free of `c`: the index of the first
      `c`, or `|s|` when there is none. */
  function Until(s: string, c: char): (n: nat)
    ensures n <= |s|
    ensures forall i :: 0 <= i < n ==> s[i] != c
    ensures n < |s| ==> s[n] == c
  {
    if |s| == 0 || s[0] == c then 0 else 1 + Until(s[1..], c)
  }

  /** `strchr(s, c)`, as an index. */
  function IndexOf(s: string, c: char): (r: Option<nat>)
    ensures r.None? <==> c !in s
    ensures r.Some? ==> r.value < |s| && s[r.value] == c && c !in s[..r.value]
  {
    var n := Until(s, c);
    if n == |s| then None else Some(n)
  }

  // ---------------------------------------------------------------------
  // strtok_r

  /** The tokens `strtok_r(s, sep)` returns one after another: maximal
      non-empty runs free of `sep`; runs of separators, leading and trailing
      ones included, yield no empty token. */
  function Tokens(s: string, sep: char): (ts: seq<string>)
    ensures forall k :: 0 <= k < |ts| ==> |ts[k]| > 0 && sep !in ts[k]
    decreases |s|
  {
    if |s| == 0 then []
    else if s[0] == sep then Tokens(s[1..], sep)
    else
      var n := Until(s, sep);
      [s[..n]] + Tokens(s[n..], sep)
  }

  /** The inverse direction: tokens glued with one separator each. */
  function Join(ts: seq<string>, sep: char): string
  {
    if |ts| == 0 then []
    else if |ts| == 1 then ts[0]
    else ts[0] + [sep] + Join(ts[1..], sep)
  }

  lemma {:induction false} TokensOfJoin(ts: seq<string>, sep: char)
    requires forall k :: 0 <= k < |ts| ==> |ts[k]| > 0 && sep !in ts[k]
    ensures Tokens(Join(ts, sep), sep) == ts
    decreases |ts|
  {
    if |ts| == 0 {
    } else {
      var s := Join(ts, sep);
      UntilPast(ts[0], sep, if |ts| == 1 then [] else [sep] + Join(ts[1..], sep));
      if |ts| == 1 {
        assert s == ts[0] + [];
        assert s[|ts[0]|..] == [];
      } else {
        var rest := Join(ts[1..], sep);
        assert s == ts[0] + ([sep] + rest);
        assert s[|ts[0]|..] == [sep] + rest;
        assert ([sep] + rest)[1..] == rest;
        TokensOfJoin(ts[1..], sep);
      }
    }
  }

  /** Splitting distributes over a concatenation whose first part is empty
      or ends with the separator. */
  lemma {:induction false} TokensAppend(a: string, b: string, sep: char)
    requires |a| == 0 || a[|a| - 1] == sep
    ensures Tokens(a + b, sep) == Tokens(a, sep) + Tokens(b, sep)
    decreases |a|
  {
    if |a| == 0 {
      assert a + b == b;
    } else if a[0] == sep {
      assert (a + b)[0] == sep;
      assert (a + b)[1..] == a[1..] + b;
      TokensAppend(a[1..], b, sep);
    } else {
      var n := Until(a, sep);
      assert Until(a + b, sep) == n by {
        UntilPast(a[..n], sep, a[n..] + b);
        assert a[..n] + (a[n..] + b) == a + b;
      }
      assert (a + b)[..n] == a[..n];
      assert (a + b)[n..] == a[n..] + b;
      assert Tokens(a + b, sep) == [a[..n]] + Tokens(a[n..] + b, sep);
      assert Tokens(a, sep) == [a[..n]] + Tokens(a[n..], sep);
      TokensAppend(a[n..], b, sep);
      ConsAppend(a[..n], Tokens(a[n..], sep), Tokens(b, sep));
    }
  }

  lemma ConsAppend<T>(x: T, p: seq<T>, q: seq<T>)
    ensures [x] + (p + q) == ([x] + p) + q
  {
  }

  /** A single separator-terminated line splits into that line. */
  lemma TokensOfLine(l: string, sep: char)
    requires |l| > 0 && sep !in l
    ensures Tokens(l + [sep], sep) == [l]
  {
    UntilPast(l, sep, [sep]);
    assert (l + [sep])[|l|..] == [sep];
    assert [sep][1..] == [];
    assert Tokens([sep], sep) == Tokens([], sep) == [];
    assert (l + [sep])[..|l|] == l;
  }

  /** `Until` stops at the end of a separator-free prefix. */
  lemma UntilPast(a: string, c: char, b: string)
    requires |a| > 0 && c !in a
    requires |b| == 0 || b[0] == c
    ensures Until(a + b, c) == |a|
    ensures (a + b)[0] != c
    ensures (a + b)[..|a|] == a
  {
    assert (a + b)[0] == a[0];
    if |a| > 1 {
      assert (a + b)[1..] == a[1..] + b;
      UntilPast(a[1..], c, b);
    } else {
      assert (a + b)[1..] == b;
    }
  }

  // ---------------------------------------------------------------------
  // Digit runs and their values

  /** Number of leading characters of `s` that are digits of `base`. */
  function DigitRun(s: string, base: nat): (n: nat)
    requires base == 8 || base == 10 || base == 16
    ensures n <= |s|
    ensures forall i :: 0 <= i < n ==> IsDigitIn(s[i], base)
    ensures n < |s| ==> !IsDigitIn(s[n], base)
  {
    if |s| == 0 || !IsDigitIn(s[0], base) then 0 else 1 + DigitRun(s[1..], base)
  }

  predicate AllDigits(s: string, base: nat)
    requires base == 8 || base == 10 || base == 16
  {
    forall i :: 0 <= i < |s| ==> IsDigitIn(s[i], base)
  }

  /** Positional value of a digit string, most significant digit first. */
  function ValueOf(ds: string, base: nat): nat
    requires base == 8 || base == 10 || base == 16
    requires AllDigits(ds, base)
  {
    if |ds| == 0 then 0
    else ValueOf(ds[..|ds| - 1], base) * base + DigitOf(ds[|ds| - 1], base)
  }

  /** Decimal rendering of a natural number, as `%u` / `%d` print it. */
  function NatToDec(n: nat): (s: string)
    ensures |s| > 0 && AllDigits(s, 10)
    ensures n > 0 ==> s[0] != '0'
  {
    if n < 10 then [DecimalDigit(n)] else NatToDec(n / 10) + [DecimalDigit(n % 10)]
  }

  /** Decimal rendering of a signed integer, as `%d` prints it. */
  function IntToDec(x: int): (s: string)
    ensures |s| > 0
  {
    if x < 0 then "-" + NatToDec(-x) else NatToDec(x)
  }

  lemma {:induction false} ValueOfNatToDec(n: nat)
    ensures ValueOf(NatToDec(n), 10) == n
  {
    var s := NatToDec(n);
    if n >= 10 {
      ValueOfNatToDec(n / 10);
      assert s[..|s| - 1] == NatToDec(n / 10);
    }
  }

  // ---------------------------------------------------------------------
  // strtol, atoi, sscanf

  /** How much of a string `strtol` reads and the exact (unsaturated) value
      it denotes; `consumed == 0` means no conversion took place. */
  datatype Scan = Scan(value: int, consumed: nat)

  function SpaceRun(s: string): (n: nat)
    ensures n <= |s|
    ensures forall i :: 0 <= i < n ==> IsSpace(s[i])
    ensures n < |s| ==> !IsSpace(s[n])
  {
    if |s| == 0 || !IsSpace(s[0]) then 0 else 1 + SpaceRun(s[1..])
  }

  /** Leading white space and an optional sign, as both `strtol` and
      `scanf` accept them: returns the sign and the length of this prefix. */
  function SignPrefix(s: string): (r: (bool, nat))
    ensures r.1 <= |s|
  {
    var ws := SpaceRun(s);
    if ws < |s| && (s[ws] == '+' || s[ws] == '-') then (s[ws] == '-', ws + 1) else (false, ws)
  }

  function Signed(negative: bool, v: nat): int {
    if negative then -(v as int) else v
  }

  /** `strtol(s, &end, 10)` before saturation. */
  function Strtol10(s: string): (r: Scan)
    ensures r.consumed <= |s|
  {
    var (neg, k) := SignPrefix(s);
    var n := DigitRun(s[k..], 10);
    if n == 0 then Scan(0, 0)
    else Scan(Signed(neg, ValueOf(s[k..k + n], 10)), k + n)
  }

  /** `strtol(s, &end, 0)` before saturation: a `0x`/`0X` prefix followed by
      a hexadecimal digit selects base 16, a leading `0` base 8, anything
      else base 10. */
  function Strtol0(s: string): (r: Scan)
    ensures r.consumed <= |s|
  {
    var (neg, k) := SignPrefix(s);
    var u := s[k..];
    if |u| >= 3 && u[0] == '0' && (u[1] == 'x' || u[1] == 'X') && IsDigitIn(u[2], 16) then
      var n := DigitRun(u[2..], 16);
      Scan(Signed(neg, ValueOf(u[2..2 + n], 16)), k + 2 + n)
    else if |u| >= 1 && u[0] == '0' then
      var n := DigitRun(u, 8);
      Scan(Signed(neg, ValueOf(u[..n], 8)), k + n)
    else if |u| >= 1 && IsDigit(u[0]) then
      var n := DigitRun(u, 10);
      Scan(Signed(neg, ValueOf(u[..n], 10)), k + n)
    else Scan(0, 0)
  }

  /** glibc's `atoi`: `(int) strtol(s, NULL, 10)`, the `long` saturated at
      64 bits and then cut to a 32-bit `int`. */
  function Atoi(s: string): (r: int)
    ensures INT32_MIN <= r <= INT32_MAX
  {
    Wrap32(Clamp(Strtol10(s).value, INT64_MIN, INT64_MAX))
  }

  /** `strtol` reads back what `%u` printed, whatever non-digit text follows. */
  lemma Strtol10OfDecimal(n: nat, s: string)
    requires |s| == 0 || !IsDigit(s[0])
    ensures Strtol10(NatToDec(n) + s) == Scan(n, |NatToDec(n)|)
  {
    var d := NatToDec(n);
    var t := d + s;
    assert t[0] == d[0];
    assert SignPrefix(t) == (false, 0);
    assert t[0..] == t;
    DigitRunOfPrefix(d, s);
    assert t[..|d|] == d;
    ValueOfNatToDec(n);
  }

  /** `strtol` in base 0 also reads back what `%u` printed: the only
      leading zero `%u` prints is the number 0, which reads as octal 0. */
  lemma Strtol0OfDecimal(n: nat)
    ensures Strtol0(NatToDec(n)) == Scan(n, |NatToDec(n)|)
  {
    var d := NatToDec(n);
    assert SignPrefix(d) == (false, 0);
    assert d[0..] == d;
    if n == 0 {
      assert d == "0";
      assert DigitRun(d, 8) == 1;
      assert d[..1] == d;
      assert d[..0] == "";
      assert ValueOf(d, 8) == 0;
    } else {
      Strtol10OfDecimal(n, "");
      assert d + "" == d;
    }
  }

  /** `atoi` reads back what `%u` printed, modulo 2^32 for large numbers. */
  lemma AtoiOfDecimal(n: nat, s: string)
    requires n <= INT64_MAX
    requires |s| == 0 || !IsDigit(s[0])
    ensures Atoi(NatToDec(n) + s) == Wrap32(n)
    ensures n <= INT32_MAX ==> Atoi(NatToDec(n) + s) == n
  {
    Strtol10OfDecimal(n, s);
  }

  /** `strtol` reads back a negative number `%d` printed, whatever
      non-digit text follows. */
  lemma Strtol10OfNegative(n: nat, s: string)
    requires |s| == 0 || !IsDigit(s[0])
    ensures Strtol10("-" + NatToDec(n) + s) == Scan(-(n as int), 1 + |NatToDec(n)|)
  {
    var d := NatToDec(n);
    var t := "-" + d + s;
    NegativeSign(d, s);
    assert t[1..] == d + s;
    DigitRunOfPrefix(d, s);
    assert t[1..1 + |d|] == d;
    ValueOfNatToDec(n);
    Strtol10Negative(t, |d|, n);
  }

  lemma NegativeSign(d: string, s: string)
    requires |d| > 0 && IsDigit(d[0])
    ensures SignPrefix("-" + d + s) == (true, 1)
  {
    assert SpaceRun("-" + d + s) == 0;
  }

  /** `strtol` on a minus sign followed by `k` digits worth `n`. */
  lemma Strtol10Negative(t: string, k: nat, n: nat)
    requires SignPrefix(t) == (true, 1)
    requires 0 < k && 1 + k <= |t|
    requires DigitRun(t[1..], 10) == k
    requires AllDigits(t[1..1 + k], 10) && ValueOf(t[1..1 + k], 10) == n
    ensures Strtol10(t) == Scan(-(n as int), 1 + k)
  {
  }

  /** `sscanf("%d")` and `atoi` read back any `int` that `%d` printed,
      whatever non-digit text follows. */
  lemma AtoiOfIntToDec(x: int, s: string)
    requires INT32_MIN <= x <= INT32_MAX
    requires |s| == 0 || !IsDigit(s[0])
    ensures ScansDecimal(IntToDec(x) + s)
    ensures Atoi(IntToDec(x) + s) == x
  {
    if x < 0 {
      AtoiOfNegative(-x, s);
    } else {
      AtoiOfDecimal(x, s);
      ScansNonNegative(x, s);
    }
  }

  lemma AtoiOfNegative(n: nat, s: string)
    requires 0 < n <= -INT32_MIN
    requires |s| == 0 || !IsDigit(s[0])
    ensures ScansDecimal("-" + NatToDec(n) + s)
    ensures Atoi("-" + NatToDec(n) + s) == -(n as int)
  {
    var t := "-" + NatToDec(n) + s;
    Strtol10OfNegative(n, s);
    ScansDecimalConsumes(t);
  }

  lemma ScansNonNegative(n: nat, s: string)
    ensures ScansDecimal(NatToDec(n) + s)
  {
    var t := NatToDec(n) + s;
    assert t[0] == NatToDec(n)[0];
    assert SignPrefix(t) == (false, 0);
  }

  /** `%d` prints only digits and a minus sign. */
  lemma DecimalChars(x: int, c: char)
    requires !IsDigit(c) && c != '-'
    ensures c !in IntToDec(x)
  {
    var d := NatToDec(if x < 0 then -x else x);
    assert forall i :: 0 <= i < |d| ==> d[i] != c;
  }

  /** A string that differs from `p` at some position neither equals it
      nor starts with it. */
  lemma NotPrefixAt(s: string, p: string, i: nat)
    requires i < |s| && i < |p| && s[i] != p[i]
    ensures !StartsWith(s, p) && s != p
  {
  }

  /** A digit run over an all-digit prefix stops exactly where it ends. */
  lemma DigitRunOfPrefix(d: string, s: string)
    requires AllDigits(d, 10)
    requires |s| == 0 || !IsDigit(s[0])
    ensures DigitRun(d + s, 10) == |d|
  {
    if |d| > 0 {
      assert (d + s)[0] == d[0];
      assert (d + s)[1..] == d[1..] + s;
      DigitRunOfPrefix(d[1..], s);
    }
  }

  /** `sscanf(s, "%d", &x) == 1`: after optional white space and sign there
      is a decimal digit. */
  predicate ScansDecimal(s: string) {
    var k := SignPrefix(s).1;
    k < |s| && IsDigit(s[k])
  }

  /** `sscanf(s, "%i", &x) == 1`: after optional white space and sign there
      is a decimal digit (a leading `0` already counts as one). */
  predicate ScansInteger(s: string) {
    ScansDecimal(s)
  }

  /** The value `sscanf(s, "%i", &x)` stores: `strtol` in base 0, then cut
      to a 32-bit `int` as `atoi` does. */
  function ScanfInt(s: string): (r: int)
    ensures INT32_MIN <= r <= INT32_MAX
  {
    Wrap32(Clamp(Strtol0(s).value, INT64_MIN, INT64_MAX))
  }

  lemma ScansDecimalConsumes(s: string)
    ensures ScansDecimal(s) <==> Strtol10(s).consumed > 0
  {
    var k := SignPrefix(s).1;
    if k < |s| && IsDigit(s[k]) {
      assert s[k..][0] == s[k];
    } else if k < |s| {
      assert s[k..][0] == s[k];
    }
  }

  /** A character that can be neither white space, a sign, a digit nor the
      `x` of a hexadecimal prefix ends what `strtol` reads in base 0. */
  lemma Strtol0StopsBefore(s: string, c: char)
    requires !IsSpace(c) && c != '+' && c != '-' && !IsDigitIn(c, 16) && c != 'x' && c != 'X'
    ensures c !in s[..Strtol0(s).consumed]
  {
    var (neg, k) := SignPrefix(s);
    var u := s[k..];
    var n := Strtol0(s).consumed;
    assert c !in s[..k] by {
      var ws := SpaceRun(s);
      assert forall i :: 0 <= i < ws ==> s[i] != c;
    }
    forall i | k <= i < n ensures s[i] != c {
      assert s[i] == u[i - k];
      if |u| >= 3 && u[0] == '0' && (u[1] == 'x' || u[1] == 'X') && IsDigitIn(u[2], 16) {
        if i - k >= 2 { assert u[i - k] == u[2..][i - k - 2]; }
      }
    }
  }
}
