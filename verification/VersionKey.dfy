/** The normalised version string images are ordered by (image/version_key.py). */
module VersionKeys {
  import opened Order
  import opened Decimal

  /** A parsed version; `pre` is empty for a release. */
  datatype Semver = Semver(major: nat, minor: nat, patch: nat, pre: string)

  // ---- parsing -----------------------------------------------------------------------

  predicate IsSpace(c: char) { '\t' <= c <= '\r' || '\U{1c}' <= c <= ' ' }

  /** `str.strip`, on ASCII white space. */
  function Strip(s: string): string {
    if s != [] && IsSpace(s[0]) then Strip(s[1..])
    else if s != [] && IsSpace(s[|s| - 1]) then Strip(s[..|s| - 1])
    else s
  }

  /** The longest prefix of digits, and the rest. */
  function TakeDigits(s: string): (r: (string, string))
    ensures r.0 + r.1 == s && AllDigits(r.0)
  {
    if s == [] || !('0' <= s[0] <= '9') then ([], s)
    else var (d, rest) := TakeDigits(s[1..]); ([s[0]] + d, rest)
  }

  /** `(\d+)` followed by a literal. */
  function TakeNumber(s: string, stop: char): Option<(nat, string)> {
    var (d, rest) := TakeDigits(s);
    if d == [] || rest == [] || rest[0] != stop then None else Some((Value(d), rest[1..]))
  }

  /** `(\d+)(?:-(.+))?$` */
  function TakeLast(s: string): Option<(nat, string)> {
    var (d, rest) := TakeDigits(s);
    if d == [] then None
    else if rest == [] then Some((Value(d), []))
    else if rest[0] == '-' && |rest| > 1 && '\n' !in rest then Some((Value(d), rest[1..]))
    else None
  }

  /** The regular expression match on the stripped string. */
  function Parse(text: string): Option<Semver> {
    var s := Strip(text);
    var s1 := if s != [] && s[0] == 'v' then s[1..] else s;
    var major := TakeNumber(s1, '.');
    if major.None? then None
    else
      var minor := TakeNumber(major.value.1, '.');
      if minor.None? then None
      else
        var patch := TakeLast(minor.value.1);
        if patch.None? then None
        else Some(Semver(major.value.0, minor.value.0, patch.value.0, patch.value.1))
  }

  // ---- the key --------------------------------------------------------------------------

  function Zeros(n: nat): string { seq(n, _ => '0') }

  /** `{n:05d}` */
  function Pad(n: nat): string {
    var d := Digits(n);
    if |d| < 5 then Zeros(5 - |d|) + d else d
  }

  function Key(v: Semver): string {
    Pad(v.major) + "." + Pad(v.minor) + "." + Pad(v.patch) + if v.pre != [] then "-" + v.pre else "~"
  }

  const NO_VERSION: string := "00000.00000.00000"

  /** `version_key` */
  function VersionKey(text: string): string {
    var v := Parse(text);
    if v.None? then NO_VERSION else Key(v.value)
  }

  // ---- the order it stands for ---------------------------------------------------------------

  /** Numeric order of the three numbers, a pre-release below its release, pre-releases by text. */
  predicate Older(a: Semver, b: Semver) {
    || a.major < b.major
    || (a.major == b.major && (a.minor < b.minor
        || (a.minor == b.minor && (a.patch < b.patch
            || (a.patch == b.patch && a.pre != [] && (b.pre == [] || StrLess(a.pre, b.pre)))))))
  }

  predicate Below(v: Semver, n: nat) { v.major < n && v.minor < n && v.patch < n }

  function Pow10(w: nat): (r: nat)
    ensures r >= 1
  {
    if w == 0 then 1 else 10 * Pow10(w - 1)
  }

  /** The last `w` digits. */
  function Fixed(n: nat, w: nat): string {
    if w == 0 then [] else Fixed(n / 10, w - 1) + [Digit(n % 10)]
  }

  lemma {:induction false} FixedIsPadded(n: nat, w: nat)
    requires 1 <= w && n < Pow10(w)
    ensures |Digits(n)| <= w && Fixed(n, w) == Zeros(w - |Digits(n)|) + Digits(n)
  {
    if w == 1 {
      assert Fixed(n / 10, 0) == [];
    } else if n < 10 {
      FixedIsPadded(0, w - 1);
      assert Zeros(w - 2) + Digits(0) == Zeros(w - 1);
    } else {
      FixedIsPadded(n / 10, w - 1);
    }
  }

  lemma PadIsFixed(n: nat)
    requires n < 100000
    ensures Pad(n) == Fixed(n, 5)
  {
    assert Pow10(5) == 100000 by { assert Pow10(2) == 100 && Pow10(4) == 10000; }
    FixedIsPadded(n, 5);
  }

  /** With fixed width, the smaller number comes first whatever follows. */
  lemma {:induction false} FixedOrder(n: nat, m: nat, w: nat, x: string, y: string)
    requires n < m < Pow10(w)
    ensures StrLess(Fixed(n, w) + x, Fixed(m, w) + y)
  {
    if n / 10 == m / 10 {
      StrFirstDifference(Fixed(n / 10, w - 1), Digit(n % 10), x, Digit(m % 10), y);
    } else {
      FixedOrder(n / 10, m / 10, w - 1, [Digit(n % 10)] + x, [Digit(m % 10)] + y);
      assert Fixed(n, w) + x == Fixed(n / 10, w - 1) + ([Digit(n % 10)] + x);
      assert Fixed(m, w) + y == Fixed(m / 10, w - 1) + ([Digit(m % 10)] + y);
    }
  }

  /** One padded component decides, or leaves the decision to what follows. */
  lemma PadOrder(n: nat, m: nat, x: string, y: string)
    requires n < 100000 && m < 100000
    ensures StrLess(Pad(n) + x, Pad(m) + y) <==> n < m || (n == m && StrLess(x, y))
  {
    hide Pad, Digits;
    PadIsFixed(n);
    PadIsFixed(m);
    assert Pow10(5) == 100000 by { assert Pow10(2) == 100 && Pow10(4) == 10000; }
    if n < m {
      FixedOrder(n, m, 5, x, y);
    } else if m < n {
      FixedOrder(m, n, 5, y, x);
      StrAsymmetric(Pad(m) + y, Pad(n) + x);
    } else {
      StrPrefix(Pad(n), x, y);
    }
  }

  lemma DotOrder(n: nat, m: nat, x: string, y: string)
    requires n < 100000 && m < 100000
    ensures StrLess(Pad(n) + "." + x, Pad(m) + "." + y) <==> n < m || (n == m && StrLess(x, y))
  {
    hide Pad;
    assert Pad(n) + "." + x == Pad(n) + ("." + x) && Pad(m) + "." + y == Pad(m) + ("." + y);
    PadOrder(n, m, "." + x, "." + y);
    StrPrefix(".", x, y);
  }

  function Tail(v: Semver): string { if v.pre != [] then "-" + v.pre else "~" }

  lemma TailOrder(a: Semver, b: Semver)
    ensures StrLess(Tail(a), Tail(b)) <==> a.pre != [] && (b.pre == [] || StrLess(a.pre, b.pre))
  {
  }

  /** String order of the keys is the order of the versions, as long as every number has at most five digits. */
  lemma KeyOrder(a: Semver, b: Semver)
    requires Below(a, 100000) && Below(b, 100000)
    ensures StrLess(Key(a), Key(b)) <==> Older(a, b)
  {
    hide Pad, StrLess;
    var a3, b3 := Pad(a.patch) + Tail(a), Pad(b.patch) + Tail(b);
    var a2, b2 := Pad(a.minor) + "." + a3, Pad(b.minor) + "." + b3;
    assert Key(a) == Pad(a.major) + "." + a2 && Key(b) == Pad(b.major) + "." + b2;
    DotOrder(a.major, b.major, a2, b2);
    DotOrder(a.minor, b.minor, a3, b3);
    PadOrder(a.patch, b.patch, Tail(a), Tail(b));
    TailOrder(a, b);
  }

  lemma NoVersionParts()
    ensures NO_VERSION == Pad(0) + "." + (Pad(0) + "." + (Pad(0) + ""))
  {
  }

  /** From 10 to the power `w` on a number has more than `w` digits, and the first is no zero. */
  lemma {:induction false} LongNumber(n: nat, w: nat)
    requires n >= Pow10(w) && n > 0
    ensures |Digits(n)| > w && '0' < Digits(n)[0]
  {
    if n >= 10 { LongNumber(n / 10, if w == 0 then 0 else w - 1); }
  }

  /** Zero comes first among the padded components of any length. */
  lemma ZeroFirst(n: nat, x: string, y: string)
    ensures StrLess(Pad(0) + x, Pad(n) + y) <==> n > 0 || StrLess(x, y)
  {
    if n < 100000 {
      PadOrder(0, n, x, y);
    } else {
      assert Pow10(5) == 100000 by { assert Pow10(2) == 100 && Pow10(4) == 10000; }
      LongNumber(n, 5);
      assert Pad(0)[0] == '0' by { assert Digits(0) == "0"; }
      hide Digits, Zeros;
      assert Pad(n) == Digits(n);
    }
  }

  lemma ZeroDotFirst(n: nat, x: string, y: string)
    ensures StrLess(Pad(0) + "." + x, Pad(n) + "." + y) <==> n > 0 || StrLess(x, y)
  {
    hide Pad;
    assert Pad(0) + "." + x == Pad(0) + ("." + x) && Pad(n) + "." + y == Pad(n) + ("." + y);
    ZeroFirst(n, "." + x, "." + y);
    StrPrefix(".", x, y);
  }

  /** A text that is no version comes before every version, however long its components. */
  lemma NoVersionFirst(v: Semver)
    ensures StrLess(NO_VERSION, Key(v))
  {
    assert StrLess("", Tail(v));
    hide Pad, StrLess;
    NoVersionParts();
    var v3 := Pad(v.patch) + Tail(v);
    var v2 := Pad(v.minor) + "." + v3;
    assert Key(v) == Pad(v.major) + "." + v2;
    ZeroFirst(v.patch, "", Tail(v));
    ZeroDotFirst(v.minor, Pad(0) + "", v3);
    ZeroDotFirst(v.major, Pad(0) + "." + (Pad(0) + ""), v2);
  }

  // ---- exactly how far the width reaches -----------------------------------------------------

  ghost predicate OrdersBelow(n: nat) {
    forall a: Semver, b: Semver | Below(a, n) && Below(b, n) :: StrLess(Key(a), Key(b)) <==> Older(a, b)
  }

  /** 100000.0.0 sorts below 99999.0.0. */
  lemma SixDigitsMisordered()
    ensures StrLess(Key(Semver(100000, 0, 0, "")), Key(Semver(99999, 0, 0, "")))
    ensures Older(Semver(99999, 0, 0, ""), Semver(100000, 0, 0, ""))
  {
  }

  /** The keys order all versions with components below `n` if and only if `n` is at most 100000. */
  lemma WidthExact(n: nat)
    ensures OrdersBelow(n) <==> n <= 100000
  {
    if n <= 100000 {
      forall a: Semver, b: Semver | Below(a, n) && Below(b, n) ensures StrLess(Key(a), Key(b)) <==> Older(a, b) {
        KeyOrder(a, b);
      }
    } else {
      SixDigitsMisordered();
      var a, b := Semver(100000, 0, 0, ""), Semver(99999, 0, 0, "");
      assert Below(a, n) && Below(b, n) && StrLess(Key(a), Key(b)) && !Older(a, b);
    }
  }

  // ---- parsing undoes printing ------------------------------------------------------------------

  /** The usual way to write a version. */
  function Format(v: Semver): string {
    "v" + Digits(v.major) + "." + Digits(v.minor) + "." + Digits(v.patch) + if v.pre != [] then "-" + v.pre else ""
  }

  lemma {:induction false} TakeDigitsOf(d: string, rest: string)
    requires AllDigits(d) && (rest == [] || !('0' <= rest[0] <= '9'))
    ensures TakeDigits(d + rest) == (d, rest)
  {
    if d == [] {
      assert d + rest == rest;
    } else {
      TakeDigitsOf(d[1..], rest);
      assert (d + rest)[1..] == d[1..] + rest;
      assert d == [d[0]] + d[1..];
    }
  }

  lemma TakeNumberOf(n: nat, stop: char, rest: string)
    requires !('0' <= stop <= '9')
    ensures TakeNumber(Digits(n) + ([stop] + rest), stop) == Some((n, rest))
  {
    TakeDigitsOf(Digits(n), [stop] + rest);
    ValueOfDigits(n);
  }

  lemma TakeLastOf(n: nat, pre: string)
    requires '\n' !in pre
    ensures TakeLast(Digits(n) + if pre != [] then "-" + pre else "") == Some((n, pre))
  {
    var tail := if pre != [] then "-" + pre else "";
    TakeDigitsOf(Digits(n), tail);
    ValueOfDigits(n);
    assert tail != [] ==> tail[1..] == pre;
  }

  /** Every version is read back from the way it is written. */
  lemma ParseUndoesFormat(v: Semver)
    requires v.pre != [] ==> '\n' !in v.pre && !IsSpace(v.pre[|v.pre| - 1])
    ensures Parse(Format(v)) == Some(v)
  {
    var tail := if v.pre != [] then "-" + v.pre else "";
    var s3 := Digits(v.patch) + tail;
    var s2 := Digits(v.minor) + (['.'] + s3);
    var s1 := Digits(v.major) + (['.'] + s2);
    var s := Format(v);
    assert !IsSpace(s3[|s3| - 1]) && !IsSpace('v');
    hide Digits, TakeNumber, TakeLast, IsSpace;
    assert s == "v" + s1;
    assert s[|s| - 1] == s3[|s3| - 1];
    assert Strip(s) == s && s[1..] == s1;
    TakeNumberOf(v.major, '.', s2);
    TakeNumberOf(v.minor, '.', s3);
    TakeLastOf(v.patch, v.pre);
  }

  /** Nothing else is a version: what parses is, after stripping, an optional "v" and three numbers with an optional suffix. */
  lemma OnlyVersionsParse(text: string) returns (x: string, y: string, z: string)
    requires Parse(text).Some?
    ensures var v := Parse(text).value;
      && AllDigits(x) && AllDigits(y) && AllDigits(z) && x != "" && y != "" && z != ""
      && Value(x) == v.major && Value(y) == v.minor && Value(z) == v.patch && '\n' !in v.pre
      && var bare := x + "." + y + "." + z + (if v.pre != "" then "-" + v.pre else "");
         Strip(text) == bare || Strip(text) == "v" + bare
  {
    hide Strip, Value, TakeNumber, TakeLast;
    var s := Strip(text);
    var s1 := if s != [] && s[0] == 'v' then s[1..] else s;
    x := NumberTaken(s1, '.');
    var r1 := TakeNumber(s1, '.').value.1;
    y := NumberTaken(r1, '.');
    var r2 := TakeNumber(r1, '.').value.1;
    z := LastTaken(r2);
    var pre := TakeLast(r2).value.1;
    var tail := if pre != "" then "-" + pre else "";
    hide Parse, AllDigits;
    JoinDots(x, y, z, tail);
    assert s == s1 || s == "v" + s1;
  }

  lemma JoinDots(x: string, y: string, z: string, tail: string)
    ensures x + ("." + (y + ("." + (z + tail)))) == x + "." + y + "." + z + tail
  {
  }

  lemma NumberTaken(s: string, stop: char) returns (d: string)
    requires TakeNumber(s, stop).Some?
    ensures AllDigits(d) && d != "" && Value(d) == TakeNumber(s, stop).value.0
    ensures s == d + ([stop] + TakeNumber(s, stop).value.1)
  {
    hide Value, AllDigits;
    var (digits, rest) := TakeDigits(s);
    hide TakeDigits;
    d := digits;
    assert rest == [stop] + rest[1..];
  }

  lemma LastTaken(s: string) returns (d: string)
    requires TakeLast(s).Some?
    ensures AllDigits(d) && d != "" && Value(d) == TakeLast(s).value.0 && '\n' !in TakeLast(s).value.1
    ensures s == d + if TakeLast(s).value.1 != "" then "-" + TakeLast(s).value.1 else ""
  {
    hide Value, AllDigits;
    var (digits, rest) := TakeDigits(s);
    hide TakeDigits;
    d := digits;
    if rest != [] { assert rest == "-" + rest[1..]; }
  }

  /** The documented keys. */
  lemma DocumentedKeys()
    ensures VersionKey("v0.2.0") == "00000.00002.00000~"
    ensures VersionKey("v0.10.0") == "00000.00010.00000~"
    ensures VersionKey("v0.2.0-beta") == "00000.00002.00000-beta"
    ensures VersionKey("nightly") == "00000.00000.00000"
  {
    SmallNumbers();
    NightlyIsNoVersion();
    hide Digits, Pad, Parse, Zeros;
    ParseUndoesFormat(Semver(0, 2, 0, ""));
    ParseUndoesFormat(Semver(0, 10, 0, ""));
    ParseUndoesFormat(Semver(0, 2, 0, "beta"));
    assert Format(Semver(0, 2, 0, "")) == "v0.2.0";
    assert Format(Semver(0, 10, 0, "")) == "v0.10.0";
    assert Format(Semver(0, 2, 0, "beta")) == "v0.2.0-beta";
  }

  lemma SmallNumbers()
    ensures Digits(0) == "0" && Digits(2) == "2" && Digits(10) == "10"
    ensures Pad(0) == "00000" && Pad(2) == "00002" && Pad(10) == "00010"
  {
  }

  lemma NightlyIsNoVersion()
    ensures Parse("nightly").None?
  {
    assert Strip("nightly") == "nightly";
  }
}
