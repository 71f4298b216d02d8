/** The JavaScript string primitives the supervisor is built on: `split` with a
    one-character separator, `trim`, `parseInt`, and the canonical numeric keys
    under which an array stores its elements. JavaScript strings are sequences
    of UTF-16 code units; they are modelled as sequences of code points. No
    result changes: every character the code tests (space, comma, digits, ASCII
    letters, the white-space set) lies in the Basic Multilingual Plane, and the
    only position the patterns read comes after the ASCII verb. */
module JsStrings {
  import opened Base

  // ---------------------------------------------------------------------------
  // split / join
  // ---------------------------------------------------------------------------

  /** `s.split(sep)` for a one-character separator: the maximal separator-free
      pieces, in order, including empty ones; `"".split(sep)` is `[""]`. */
  function Split(s: string, sep: char): (parts: seq<string>)
    ensures |parts| >= 1
    ensures forall i :: 0 <= i < |parts| ==> sep !in parts[i]
    ensures |parts| == Count(s, sep) + 1
    decreases |s|
  {
    if |s| == 0 then [""]
    else
      var rest := Split(s[1..], sep);
      if s[0] == sep then [""] + rest
      else [[s[0]] + rest[0]] + rest[1..]
  }

  /** Number of occurrences of `c` in `s`. */
  function Count(s: string, c: char): nat
    decreases |s|
  {
    if |s| == 0 then 0 else (if s[0] == c then 1 else 0) + Count(s[1..], c)
  }

  /** `parts.join(sep)`: the inverse of `Split`. */
  function Join(parts: seq<string>, sep: char): string
    decreases |parts|
  {
    if |parts| == 0 then ""
    else if |parts| == 1 then parts[0]
    else parts[0] + [sep] + Join(parts[1..], sep)
  }

  /** Joining the pieces of a split gives back the original string. */
  lemma {:induction false} JoinSplit(s: string, sep: char)
    ensures Join(Split(s, sep), sep) == s
    decreases |s|
  {
    if |s| > 0 {
      var rest := Split(s[1..], sep);
      JoinSplit(s[1..], sep);
      if s[0] == sep {
        assert Split(s, sep) == [""] + rest;
        assert ([""] + rest)[1..] == rest;
      } else {
        var parts := [[s[0]] + rest[0]] + rest[1..];
        assert Split(s, sep) == parts;
        if |rest| == 1 {
          assert Join(parts, sep) == [s[0]] + rest[0];
        } else {
          assert parts[1..] == rest[1..];
          assert Join(parts, sep) == [s[0]] + rest[0] + [sep] + Join(rest[1..], sep);
          assert Join(rest, sep) == rest[0] + [sep] + Join(rest[1..], sep);
        }
        assert s == [s[0]] + s[1..];
      }
    }
  }

  /** A separator-free prefix glues onto the first piece of what follows. */
  lemma {:induction false} SplitGlue(p: string, t: string, sep: char)
    requires sep !in p
    ensures Split(p + t, sep) == [p + Split(t, sep)[0]] + Split(t, sep)[1..]
    decreases |p|
  {
    if |p| > 0 {
      assert (p + t)[1..] == p[1..] + t;
      assert (p + t)[0] == p[0];
      SplitGlue(p[1..], t, sep);
      var st := Split(t, sep);
      var rest := Split(p[1..] + t, sep);
      assert rest[0] == p[1..] + st[0];
      assert rest[1..] == st[1..];
      assert p[0] != sep;
      assert Split(p + t, sep) == [[p[0]] + rest[0]] + rest[1..];
      assert [p[0]] + (p[1..] + st[0]) == p + st[0];
    } else {
      assert p + t == t && p + Split(t, sep)[0] == Split(t, sep)[0];
      assert Split(t, sep) == [Split(t, sep)[0]] + Split(t, sep)[1..];
    }
  }

  /** Splitting a join of separator-free pieces recovers the pieces. */
  lemma {:induction false} SplitJoin(parts: seq<string>, sep: char)
    requires |parts| >= 1
    requires forall i :: 0 <= i < |parts| ==> sep !in parts[i]
    ensures Split(Join(parts, sep), sep) == parts
    decreases |parts|
  {
    if |parts| == 1 {
      SplitGlue(parts[0], "", sep);
      assert parts[0] + "" == parts[0];
    } else {
      var tail := Join(parts[1..], sep);
      SplitJoin(parts[1..], sep);
      assert Join(parts, sep) == parts[0] + ([sep] + tail);
      SplitGlue(parts[0], [sep] + tail, sep);
      assert ([sep] + tail)[1..] == tail;
      assert Split([sep] + tail, sep) == [""] + parts[1..];
      assert parts[0] + "" == parts[0];
      assert parts == [parts[0]] + parts[1..];
    }
  }

  // ---------------------------------------------------------------------------
  // trim
  // ---------------------------------------------------------------------------

  /** The WhiteSpace and LineTerminator code points of ECMA-262 (sections 12.2
      and 12.3), which `trim` removes and `parseInt` skips. */
  predicate IsJsWhitespace(c: char) {
    c == '\t' || c == '\n' || c == '\U{000B}' || c == '\U{000C}' || c == '\r' || c == ' '
    || c == '\U{00A0}' || c == '\U{1680}' || ('\U{2000}' <= c <= '\U{200A}')
    || c == '\U{2028}' || c == '\U{2029}' || c == '\U{202F}' || c == '\U{205F}'
    || c == '\U{3000}' || c == '\U{FEFF}'
  }

  predicate AllWhitespace(s: string) {
    forall k :: 0 <= k < |s| ==> IsJsWhitespace(s[k])
  }

  /** Neither end of `s` is whitespace (vacuously true of the empty string). */
  predicate Untrimmable(s: string) {
    |s| == 0 || (!IsJsWhitespace(s[0]) && !IsJsWhitespace(s[|s| - 1]))
  }

  /** `s.trimStart()`: drops the leading whitespace. */
  function TrimStart(s: string): (r: string)
    ensures |r| <= |s|
    ensures r == s[|s| - |r|..]
    ensures AllWhitespace(s[..|s| - |r|])
    ensures |r| > 0 ==> !IsJsWhitespace(r[0])
    decreases |s|
  {
    if |s| > 0 && IsJsWhitespace(s[0]) then TrimStart(s[1..]) else s
  }

  /** `s.trimEnd()`: drops the trailing whitespace. */
  function TrimEnd(s: string): (r: string)
    ensures |r| <= |s|
    ensures r == s[..|r|]
    ensures AllWhitespace(s[|r|..])
    ensures |r| > 0 ==> !IsJsWhitespace(r[|r| - 1])
    decreases |s|
  {
    if |s| > 0 && IsJsWhitespace(s[|s| - 1]) then TrimEnd(s[..|s| - 1]) else s
  }

  /** `s.trim()`. */
  function Trim(s: string): (r: string)
    ensures Untrimmable(r)
    ensures |r| <= |s|
  {
    TrimEnd(TrimStart(s))
  }

  /** Only whitespace lies outside the window `[i, j)` of `s`. */
  predicate WhitespaceOutside(s: string, i: nat, j: nat)
    requires i <= j <= |s|
  {
    && (forall k :: 0 <= k < i ==> IsJsWhitespace(s[k]))
    && (forall k :: j <= k < |s| ==> IsJsWhitespace(s[k]))
  }

  /** What `TrimStart` drops is whitespace. */
  lemma TrimStartDropsWhitespace(s: string)
    ensures forall k :: 0 <= k < |s| - |TrimStart(s)| ==> IsJsWhitespace(s[k])
  {
    var a := |s| - |TrimStart(s)|;
    forall k | 0 <= k < a ensures IsJsWhitespace(s[k]) {
      assert s[..a][k] == s[k];
    }
  }

  /** What `TrimEnd` drops is whitespace. */
  lemma TrimEndDropsWhitespace(s: string)
    ensures forall k :: |TrimEnd(s)| <= k < |s| ==> IsJsWhitespace(s[k])
  {
    var b := |TrimEnd(s)|;
    forall k | b <= k < |s| ensures IsJsWhitespace(s[k]) {
      assert s[b..][k - b] == s[k];
    }
  }

  /** `Trim` cuts a window out of `s` with only whitespace outside it. */
  lemma TrimBounds(s: string) returns (a: nat, b: nat)
    ensures a <= b <= |s|
    ensures Trim(s) == s[a..b]
    ensures WhitespaceOutside(s, a, b)
  {
    var u := TrimStart(s);
    var v := TrimEnd(u);
    a := |s| - |u|;
    b := a + |v|;
    assert u == s[a..];
    assert v == s[a..b] by {
      assert v == u[..|v|];
    }
    TrimStartDropsWhitespace(s);
    TrimEndDropsWhitespace(u);
    forall k | b <= k < |s| ensures IsJsWhitespace(s[k]) {
      assert u[k - a] == s[k];
    }
  }

  /** An untrimmable window with only whitespace outside it is unique up to
      its contents. */
  lemma WindowUnique(s: string, i: nat, j: nat, a: nat, b: nat)
    requires i <= j <= |s| && a <= b <= |s|
    requires WhitespaceOutside(s, i, j) && Untrimmable(s[i..j])
    requires WhitespaceOutside(s, a, b) && Untrimmable(s[a..b])
    ensures s[i..j] == s[a..b]
  {
    if i < j && a < b {
      assert !IsJsWhitespace(s[i]) && !IsJsWhitespace(s[j - 1]);
      assert !IsJsWhitespace(s[a]) && !IsJsWhitespace(s[b - 1]);
      assert i == a && j == b;
    }
  }

  /** A non-empty trimmed window is pinned down by its non-whitespace ends. */
  lemma SameNonEmptyWindow(s: string, i: nat, j: nat, a: nat, b: nat)
    requires i <= j <= |s| && a < b <= |s|
    requires s[i..j] == s[a..b] && Untrimmable(s[a..b])
    requires WhitespaceOutside(s, a, b)
    ensures i == a && j == b
  {
    assert |s[i..j]| == b - a;
    assert s[i] == s[a] && s[j - 1] == s[b - 1];
  }

  /** A window that `Trim` returns has only whitespace outside it. */
  lemma TrimmedWindowOutside(s: string, i: nat, j: nat)
    requires i <= j <= |s| && Trim(s) == s[i..j]
    ensures WhitespaceOutside(s, i, j)
  {
    var a, b := TrimBounds(s);
    if a < b {
      SameNonEmptyWindow(s, i, j, a, b);
    } else {
      assert forall k :: 0 <= k < |s| ==> IsJsWhitespace(s[k]);
    }
  }

  /** `Trim` keeps exactly the window of `s` that has only whitespace outside
      it and no whitespace at its ends. */
  lemma TrimWindow(s: string, i: nat, j: nat)
    requires i <= j <= |s|
    ensures Trim(s) == s[i..j] <==> WhitespaceOutside(s, i, j) && Untrimmable(s[i..j])
  {
    if WhitespaceOutside(s, i, j) && Untrimmable(s[i..j]) {
      var a, b := TrimBounds(s);
      WindowUnique(s, i, j, a, b);
    }
    if Trim(s) == s[i..j] {
      TrimmedWindowOutside(s, i, j);
    }
  }

  /** Trimming twice is trimming once. */
  lemma TrimIdempotent(s: string)
    ensures Trim(Trim(s)) == Trim(s)
  {
    var t := Trim(s);
    TrimWindow(t, 0, |t|);
    assert t[0..|t|] == t;
  }

  // ---------------------------------------------------------------------------
  // parseInt
  // ---------------------------------------------------------------------------

  predicate IsDecimalDigit(c: char) { '0' <= c <= '9' }

  /** A digit of the given radix, which is 10 or 16. */
  predicate IsRadixDigit(c: char, hex: bool) {
    IsDecimalDigit(c) || (hex && ('a' <= c <= 'f' || 'A' <= c <= 'F'))
  }

  /** Every character of `s` is a digit of the radix. */
  predicate AllDigits(s: string, hex: bool) {
    forall k :: 0 <= k < |s| ==> IsRadixDigit(s[k], hex)
  }

  function DigitValue(c: char): (v: nat)
    ensures v < 16
  {
    if '0' <= c <= '9' then c as int - '0' as int
    else if 'a' <= c <= 'f' then c as int - 'a' as int + 10
    else if 'A' <= c <= 'F' then c as int - 'A' as int + 10
    else 0
  }

  function Radix(hex: bool): nat { if hex then 16 else 10 }

  /** The value of a digit string, most significant digit first. */
  function DigitsValue(z: string, hex: bool): nat
    decreases |z|
  {
    if |z| == 0 then 0
    else DigitsValue(z[..|z| - 1], hex) * Radix(hex) + DigitValue(z[|z| - 1])
  }

  /** Length of the longest prefix of `s` made of digits of the radix. */
  function DigitPrefixLength(s: string, hex: bool): (n: nat)
    ensures n <= |s|
    ensures AllDigits(s[..n], hex)
    ensures n < |s| ==> !IsRadixDigit(s[n], hex)
    decreases |s|
  {
    if |s| > 0 && IsRadixDigit(s[0], hex) then 1 + DigitPrefixLength(s[1..], hex) else 0
  }

  /** `parseInt(s)` with no radix (section 19.2.5 of ECMA-262): skip leading
      whitespace, take an optional sign, switch to base 16 on a `0x`/`0X`
      prefix, then read the longest run of digits; no digits gives `NaN`,
      written `None`. Precision loss above 2^53 is not modelled. */
  function ParseInt(s: string): (r: Option<int>)
  {
    ParseSigned(TrimStart(s))
  }

  /** `parseInt` after the white space: an optional sign, then the magnitude. */
  function ParseSigned(t: string): Option<int>
  {
    var negative := |t| > 0 && t[0] == '-';
    var u := if |t| > 0 && (t[0] == '-' || t[0] == '+') then t[1..] else t;
    match ParseMagnitude(u)
    case None => None
    case Some(m) => var v: int := m; Some(if negative then -v else v)
  }

  /** `parseInt` after the sign: a `0x`/`0X` prefix selects base 16, then the
      longest run of digits is read; no digits gives `None`. */
  function ParseMagnitude(u: string): Option<nat>
  {
    var hex := |u| >= 2 && u[0] == '0' && (u[1] == 'x' || u[1] == 'X');
    var body := if hex then u[2..] else u;
    var z := body[..DigitPrefixLength(body, hex)];
    if |z| == 0 then None else Some(DigitsValue(z, hex))
  }

  // ---------------------------------------------------------------------------
  // canonical array-index keys
  // ---------------------------------------------------------------------------

  /** The property key `t` names array element `n`: `t` is the canonical
      decimal form of `n` (digits only, no leading zero unless `t` is "0"). */
  function ArrayIndexKey(t: string): Option<nat>
  {
    if |t| > 0 && AllDigits(t, false) && (|t| == 1 || t[0] != '0')
    then Some(DigitsValue(t, false)) else None
  }

  /** `String(n)` for a natural number. */
  function DecimalString(n: nat): (t: string)
    ensures |t| > 0 && AllDigits(t, false)
    ensures n > 0 ==> t[0] != '0'
    decreases n
  {
    if n < 10 then [('0' as int + n) as char]
    else DecimalString(n / 10) + [('0' as int + n % 10) as char]
  }

  /** A canonical decimal key with more than one digit has a non-zero value. */
  lemma {:induction false} LeadingDigitPositive(t: string)
    requires |t| > 0 && AllDigits(t, false) && t[0] != '0'
    ensures DigitsValue(t, false) >= 1
    decreases |t|
  {
    if |t| > 1 {
      LeadingDigitPositive(t[..|t| - 1]);
    }
  }

  /** `String(n)` is a key under which element `n` is stored. */
  lemma {:induction false} KeyOfDecimalString(n: nat)
    ensures ArrayIndexKey(DecimalString(n)) == Some(n)
    decreases n
  {
    var t := DecimalString(n);
    if n < 10 {
      assert DigitsValue(t, false) == DigitsValue(t[..0], false) * 10 + DigitValue(t[0]);
    } else {
      var p := DecimalString(n / 10);
      assert t[..|t| - 1] == p;
      KeyOfDecimalString(n / 10);
    }
  }

  /** ... and it is the only one: a key names element `n` only if it is `String(n)`. */
  lemma {:induction false} DecimalStringOfKey(t: string, n: nat)
    requires ArrayIndexKey(t) == Some(n)
    ensures t == DecimalString(n)
    decreases |t|
  {
    var p := t[..|t| - 1];
    if |t| == 1 {
      assert DigitsValue(t, false) == DigitValue(t[0]);
      assert t == [t[0]];
    } else {
      LeadingDigitPositive(p);
      var m := DigitsValue(p, false);
      assert n == m * 10 + DigitValue(t[|t| - 1]);
      assert n / 10 == m && n >= 10;
      assert ArrayIndexKey(p) == Some(m);
      DecimalStringOfKey(p, m);
      assert t == p + [t[|t| - 1]];
    }
  }

  /** The canonical key of element `n` is exactly `String(n)`. */
  lemma ArrayIndexKeyIsDecimalString(t: string, n: nat)
    ensures ArrayIndexKey(t) == Some(n) <==> t == DecimalString(n)
  {
    if ArrayIndexKey(t) == Some(n) {
      DecimalStringOfKey(t, n);
    }
    if t == DecimalString(n) {
      KeyOfDecimalString(n);
    }
  }

  /** `parseInt` reads a canonical key as the element number it names, so the
      two lookups in the supervisor agree on canonical keys. */
  lemma ParseIntOfArrayIndexKey(t: string, n: nat)
    requires ArrayIndexKey(t) == Some(n)
    ensures ParseInt(t) == Some(n)
  {
    assert IsDecimalDigit(t[0]);
    assert !IsJsWhitespace(t[0]);
    assert TrimStart(t) == t;
    assert t[0] != '-' && t[0] != '+';
    assert |t| >= 2 ==> IsDecimalDigit(t[1]);
    assert DigitPrefixLength(t, false) == |t| by {
      DigitPrefixAll(t, false);
    }
    assert t[..|t|] == t;
  }

  /** `parseInt` skips a leading zero that makes a key non-canonical:
      `parseInt("0" + c)` is the digit `c`, while `"0" + c` is no element's
      key. */
  lemma ParseIntLeadingZero(c: char)
    requires IsDecimalDigit(c)
    ensures ParseInt(['0', c]) == Some(DigitValue(c))
    ensures ArrayIndexKey(['0', c]).None?
  {
    var d := ['0', c];
    assert DigitsValue(d, false) == DigitValue(c) by {
      assert d[..1] == ['0'] && ['0'][..0] == [];
    }
    assert "" + "" + d + "" == d;
    ParseIntDecimal("", "", d, "");
  }

  /** `trimStart` removes a white-space prefix and stops at the first other
      character. */
  lemma {:induction false} TrimStartPrefix(w: string, t: string)
    requires AllWhitespace(w)
    requires t == "" || !IsJsWhitespace(t[0])
    ensures TrimStart(w + t) == t
    decreases |w|
  {
    if |w| == 0 {
      assert w + t == t;
    } else {
      assert (w + t)[0] == w[0];
      assert (w + t)[1..] == w[1..] + t;
      TrimStartPrefix(w[1..], t);
    }
  }

  /** The digit run at the front of `d + r` is exactly `d` when `r` does not
      continue it. */
  lemma {:induction false} DigitPrefixOfRun(d: string, r: string, hex: bool)
    requires AllDigits(d, hex)
    requires r == "" || !IsRadixDigit(r[0], hex)
    ensures DigitPrefixLength(d + r, hex) == |d|
    decreases |d|
  {
    if |d| == 0 {
      assert d + r == r;
    } else {
      assert (d + r)[0] == d[0];
      assert (d + r)[1..] == d[1..] + r;
      DigitPrefixOfRun(d[1..], r, hex);
    }
  }

  /** An optional sign as `parseInt` reads it, and its effect on a magnitude. */
  predicate IsSign(sign: string) { sign == "" || sign == "+" || sign == "-" }

  function Signed(sign: string, magnitude: int): int {
    if sign == "-" then -magnitude else magnitude
  }

  lemma Regroup(a: string, b: string, c: string, d: string)
    ensures a + b + c + d == a + (b + (c + d))
  {
  }

  /** Leading white space is skipped. */
  lemma ParseIntSkipsWhitespace(s: string, w: string, t: string)
    requires s == w + t && AllWhitespace(w)
    requires t == "" || !IsJsWhitespace(t[0])
    ensures ParseInt(s) == ParseSigned(t)
  {
    TrimStartPrefix(w, t);
  }

  /** One optional sign is read, then the magnitude after it. */
  lemma ParseSignedSign(sign: string, u: string)
    requires IsSign(sign)
    requires sign == "" && |u| > 0 ==> u[0] != '+' && u[0] != '-'
    ensures ParseSigned(sign + u) ==
              match ParseMagnitude(u)
              case None => None
              case Some(m) => Some(Signed(sign, m))
  {
    if sign != "" {
      assert (sign + u)[0] == sign[0];
      assert (sign + u)[1..] == u;
    } else {
      assert sign + u == u;
    }
  }

  /** A run of decimal digits that does not open a `0x` prefix is read in
      base 10, up to the first character that is not a digit. */
  lemma ParseMagnitudeDecimal(d: string, r: string)
    requires |d| > 0 && AllDigits(d, false)
    requires r == "" || !IsDecimalDigit(r[0])
    requires !(d == "0" && |r| > 0 && (r[0] == 'x' || r[0] == 'X'))
    ensures ParseMagnitude(d + r) == Some(DigitsValue(d, false))
  {
    var u := d + r;
    assert !(|u| >= 2 && u[0] == '0' && (u[1] == 'x' || u[1] == 'X')) by {
      if |d| >= 2 {
        assert u[1] == d[1];
      } else if |u| >= 2 {
        assert u[1] == r[0];
      }
    }
    DigitPrefixOfRun(d, r, false);
    assert u[..|d|] == d;
  }

  /** After `0x`/`0X`, the run of hexadecimal digits is read in base 16. */
  lemma ParseMagnitudeHex(p: string, h: string, r: string)
    requires p == "0x" || p == "0X"
    requires AllDigits(h, true)
    requires r == "" || !IsRadixDigit(r[0], true)
    ensures ParseMagnitude(p + (h + r)) == if |h| == 0 then None else Some(DigitsValue(h, true))
  {
    var u := p + (h + r);
    assert u[0] == '0' && (u[1] == 'x' || u[1] == 'X');
    assert u[2..] == h + r;
    assert (h + r)[..DigitPrefixLength(h + r, true)] == h by {
      DigitPrefixOfRun(h, r, true);
    }
  }

  /** Leading white space, then one optional sign: `parseInt` reads the
      magnitude of the text after the sign and applies the sign. Without a
      sign, the text must not itself start with white space or a sign. */
  lemma ParseIntSigned(w: string, sign: string, u: string)
    requires AllWhitespace(w) && IsSign(sign)
    requires sign == "" && |u| > 0 ==> !IsJsWhitespace(u[0]) && u[0] != '+' && u[0] != '-'
    ensures ParseInt(w + sign + u) ==
              match ParseMagnitude(u)
              case None => None
              case Some(m) => Some(Signed(sign, m))
  {
    assert w + sign + u == w + (sign + u);
    if sign + u != "" {
      assert (sign + u)[0] == if sign == "" then u[0] else sign[0];
    }
    ParseIntSkipsWhitespace(w + sign + u, w, sign + u);
    ParseSignedSign(sign, u);
  }

  /** Leading white space, an optional sign and a run of decimal digits that
      does not open a `0x` prefix: `parseInt` reads exactly those digits,
      whatever follows them. */
  lemma ParseIntDecimal(w: string, sign: string, d: string, r: string)
    requires AllWhitespace(w) && IsSign(sign)
    requires |d| > 0 && AllDigits(d, false)
    requires r == "" || !IsDecimalDigit(r[0])
    requires !(d == "0" && |r| > 0 && (r[0] == 'x' || r[0] == 'X'))
    ensures ParseInt(w + sign + d + r) == Some(Signed(sign, DigitsValue(d, false)))
  {
    assert w + sign + d + r == w + sign + (d + r);
    ParseIntSigned(w, sign, d + r);
    ParseMagnitudeDecimal(d, r);
  }

  /** The same with a `0x`/`0X` prefix: the run of hexadecimal digits after
      it is read in base 16, and no such digit gives `NaN`. */
  lemma ParseIntHex(w: string, sign: string, p: string, h: string, r: string)
    requires AllWhitespace(w) && IsSign(sign) && (p == "0x" || p == "0X")
    requires AllDigits(h, true)
    requires r == "" || !IsRadixDigit(r[0], true)
    ensures ParseInt(w + sign + p + h + r) ==
              if |h| == 0 then None else Some(Signed(sign, DigitsValue(h, true)))
  {
    Regroup(w + sign, p, h, r);
    ParseIntSigned(w, sign, p + (h + r));
    ParseMagnitudeHex(p, h, r);
  }

  /** Leading white space and an optional sign followed by no digit: `parseInt`
      gives `NaN`. */
  lemma ParseIntNaN(w: string, sign: string, r: string)
    requires AllWhitespace(w) && IsSign(sign)
    requires r == "" || !IsDecimalDigit(r[0])
    requires sign == "" && |r| > 0 ==> !IsJsWhitespace(r[0]) && r[0] != '+' && r[0] != '-'
    ensures ParseInt(w + sign + r) == None
  {
    assert w + sign + r == w + (sign + r);
    if sign + r != "" {
      assert (sign + r)[0] == if sign == "" then r[0] else sign[0];
    }
    ParseIntSkipsWhitespace(w + sign + r, w, sign + r);
    ParseSignedSign(sign, r);
    if |r| > 0 {
      assert DigitPrefixLength(r, false) == 0;
    }
  }

  lemma {:induction false} DigitPrefixAll(t: string, hex: bool)
    requires AllDigits(t, hex)
    ensures DigitPrefixLength(t, hex) == |t|
    decreases |t|
  {
    if |t| > 0 {
      DigitPrefixAll(t[1..], hex);
    }
  }

  // ---------------------------------------------------------------------------
  // ASCII case folding, as a non-Unicode `/i` regular expression performs it
  // ---------------------------------------------------------------------------

  function LowerAscii(c: char): char {
    if 'A' <= c <= 'Z' then (c as int + 32) as char else c
  }

  function LowerAsciiString(s: string): (r: string)
    ensures |r| == |s|
    ensures forall k :: 0 <= k < |s| ==> r[k] == LowerAscii(s[k])
  {
    seq(|s|, k requires 0 <= k < |s| => LowerAscii(s[k]))
  }
}
