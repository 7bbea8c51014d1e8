/** The JavaScript string and number conversions the app relies on:
    `toUpperCase`, `trim`, `split`, `padStart(2, '0')`, `String(n)`,
    `n.toString(16)`, `Number(s)`, `parseInt(s)` and `parseInt(s, 16)`,
    and the code-unit ordering of strings. */
module Text {
  import opened Seqs

  // ---------------------------------------------------------------------
  // Case and whitespace

  /** toUpperCase on one character (ASCII letters only). */
  function UpperChar(c: char): char
  {
    if 'a' <= c <= 'z' then (c as int - 32) as char else c
  }

  /** String.prototype.toUpperCase, on the ASCII range. */
  function ToUpper(s: string): (r: string)
    ensures |r| == |s|
    ensures forall i :: 0 <= i < |s| ==> r[i] == UpperChar(s[i])
  {
    seq(|s|, i requires 0 <= i < |s| => UpperChar(s[i]))
  }

  lemma ToUpperIdempotent(s: string)
    ensures ToUpper(ToUpper(s)) == ToUpper(s)
  {
  }

  /** The characters `trim` and `parseInt` skip (WhiteSpace and LineTerminator). */
  predicate IsSpace(c: char)
  {
    c == ' ' || c == '\t' || c == '\n' || c == '\r' || c == '\U{000B}' || c == '\U{000C}' ||
    c == '\U{00A0}' || c == '\U{1680}' || ('\U{2000}' <= c <= '\U{200A}') || c == '\U{2028}' ||
    c == '\U{2029}' || c == '\U{202F}' || c == '\U{205F}' || c == '\U{3000}' || c == '\U{FEFF}'
  }

  function TrimStart(s: string): (r: string)
    ensures |r| <= |s| && r == s[|s| - |r|..]
    ensures r == [] || !IsSpace(r[0])
    ensures forall i :: 0 <= i < |s| - |r| ==> IsSpace(s[i])
  {
    if s != [] && IsSpace(s[0]) then TrimStart(s[1..]) else s
  }

  function TrimEnd(s: string): (r: string)
    ensures |r| <= |s| && r == s[..|r|]
    ensures r == [] || !IsSpace(r[|r| - 1])
    ensures forall i :: |r| <= i < |s| ==> IsSpace(s[i])
  {
    if s != [] && IsSpace(s[|s| - 1]) then TrimEnd(s[..|s| - 1]) else s
  }

  /** String.prototype.trim. */
  function Trim(s: string): (r: string)
    ensures r == [] || (!IsSpace(r[0]) && !IsSpace(r[|r| - 1]))
  {
    TrimEnd(TrimStart(s))
  }

  lemma {:induction false} TrimOfTrimmed(s: string)
    requires s == [] || (!IsSpace(s[0]) && !IsSpace(s[|s| - 1]))
    ensures Trim(s) == s
  {
  }

  /** Trimming an upper-case text leaves it upper-case. */
  lemma TrimKeepsUpper(u: string)
    requires ToUpper(u) == u
    ensures ToUpper(Trim(u)) == Trim(u)
  {
    var v := TrimStart(u);
    UpperSlice(u, |u| - |v|, |u|);
    var w := TrimEnd(v);
    UpperSlice(v, 0, |w|);
  }

  /** Any slice of an upper-case text is upper-case. */
  lemma UpperSlice(u: string, i: nat, j: nat)
    requires ToUpper(u) == u && i <= j <= |u|
    ensures ToUpper(u[i..j]) == u[i..j]
  {
    forall k | 0 <= k < j - i ensures UpperChar(u[i..j][k]) == u[i..j][k] {
      assert u[i..j][k] == u[i + k];
    }
  }

  lemma TrimIdempotent(s: string)
    ensures Trim(Trim(s)) == Trim(s)
  {
    TrimOfTrimmed(Trim(s));
  }

  // ---------------------------------------------------------------------
  // Digits, String(n), n.toString(16) and padStart(2, '0')

  /** The radixes the app uses: `parseInt(s)` (base 10, a "0x" prefix
      switches to 16) and `parseInt(s, 16)` / `toString(16)`. */
  type Radix = r: nat | r == 10 || r == 16 witness 10

  /** A digit of `radix`, as the lowercase character `toString` prints. */
  function DigitChar(d: nat): (c: char)
    requires d < 16
    ensures IsDigitIn(c, 16) && CharValue(c) == d
    ensures d < 10 ==> IsDigitIn(c, 10)
  {
    if d < 10 then ('0' as int + d) as char else ('a' as int + d - 10) as char
  }

  predicate IsDigitIn(c: char, radix: Radix)
  {
    ('0' <= c <= '9') || (radix == 16 && ('a' <= c <= 'f' || 'A' <= c <= 'F'))
  }

  function CharValue(c: char): (v: nat)
    requires IsDigitIn(c, 16)
    ensures v < 16
    ensures IsDigitIn(c, 10) ==> v < 10
  {
    if '0' <= c <= '9' then c as int - '0' as int
    else if 'a' <= c <= 'f' then c as int - 'a' as int + 10
    else c as int - 'A' as int + 10
  }

  predicate AllDigits(s: string, radix: Radix)
  {
    forall i :: 0 <= i < |s| ==> IsDigitIn(s[i], radix)
  }

  /** The value of a run of digits, most significant first. */
  function ValueOf(s: string, radix: Radix): nat
    requires AllDigits(s, radix)
  {
    if s == [] then 0 else ValueOf(s[..|s| - 1], radix) * radix + CharValue(s[|s| - 1])
  }

  /** `String(n)` (radix 10) and `n.toString(16)` for a non-negative integer. */
  function Digits(n: nat, radix: Radix): (r: string)
    ensures |r| >= 1 && AllDigits(r, radix)
  {
    if n < radix then [DigitChar(n)] else Digits(n / radix, radix) + [DigitChar(n % radix)]
  }

  /** Printing and reading back digits are inverse. */
  lemma {:induction false} DigitsRoundTrip(n: nat, radix: Radix)
    ensures ValueOf(Digits(n, radix), radix) == n
  {
    if n >= radix {
      var d := Digits(n, radix);
      assert d[..|d| - 1] == Digits(n / radix, radix);
      DigitsRoundTrip(n / radix, radix);
    }
  }

  /** `Number.prototype.toString(radix)` for any integer. */
  function IntToString(x: int, radix: Radix): string
  {
    if x < 0 then "-" + Digits(-x, radix) else Digits(x, radix)
  }

  /** `k` zero characters. */
  function Zeros(k: nat): (r: string)
    ensures |r| == k && AllDigits(r, 10)
    ensures forall i :: 0 <= i < k ==> r[i] == '0'
  {
    if k == 0 then [] else Zeros(k - 1) + ['0']
  }

  /** padStart(width, '0'). */
  function PadStart(s: string, width: nat): (r: string)
    ensures |r| == if |s| >= width then |s| else width
  {
    if |s| >= width then s else Zeros(width - |s|) + s
  }

  /** `String(n).padStart(width, '0')` for a non-negative integer. */
  function Pad(n: nat, width: nat): string
  {
    PadStart(Digits(n, 10), width)
  }

  /** Leading zeros do not change the value of a run of digits. */
  lemma {:induction false} LeadingZeros(k: nat, s: string, radix: Radix)
    requires AllDigits(s, radix)
    ensures AllDigits(Zeros(k) + s, radix) && ValueOf(Zeros(k) + s, radix) == ValueOf(s, radix)
  {
    if s == [] {
      assert Zeros(k) + s == Zeros(k);
      ZerosValue(k, radix);
    } else {
      var t := Zeros(k) + s;
      assert t[..|t| - 1] == Zeros(k) + s[..|s| - 1];
      LeadingZeros(k, s[..|s| - 1], radix);
    }
  }

  lemma {:induction false} ZerosValue(k: nat, radix: Radix)
    ensures ValueOf(Zeros(k), radix) == 0
  {
    if k > 0 {
      var z := Zeros(k);
      assert z[..k - 1] == Zeros(k - 1);
      ZerosValue(k - 1, radix);
      assert CharValue(z[k - 1]) == 0;
      assert ValueOf(z, radix) == 0 * radix + 0;
    }
  }

  /** A zero-padded number reads back as the number. */
  lemma PadRoundTrip(n: nat, width: nat)
    ensures AllDigits(Pad(n, width), 10) && ValueOf(Pad(n, width), 10) == n
  {
    DigitsRoundTrip(n, 10);
    var d := Digits(n, 10);
    if |d| < width {
      LeadingZeros(width - |d|, d, 10);
    }
  }

  /** Below 100, a two-wide Pad is exactly the two decimal digits of n. */
  lemma Pad2Digits(n: nat)
    requires n < 100
    ensures Pad(n, 2) == [DigitChar(n / 10), DigitChar(n % 10)]
  {
    if n >= 10 {
      assert Digits(n / 10, 10) == [DigitChar(n / 10)];
    }
  }

  // ---------------------------------------------------------------------
  // Number(s), parseInt(s) and parseInt(s, 16)

  /** A JavaScript number as the app can meet it here: an integer or NaN. */
  datatype JsNumber = Num(value: int) | NaN

  /** `Number(s)`: blank is 0, a run of decimal digits is its value, anything
      else is NaN (signs, fractions and exponents are read as NaN here). */
  function ToNumber(s: string): JsNumber
  {
    var t := Trim(s);
    if t == [] then Num(0)
    else if AllDigits(t, 10) then Num(ValueOf(t, 10))
    else NaN
  }

  /** The longest prefix of `s` made of digits of `radix`. */
  function DigitRun(s: string, radix: Radix): (r: string)
    ensures |r| <= |s| && r == s[..|r|] && AllDigits(r, radix)
    ensures |r| == |s| || !IsDigitIn(s[|r|], radix)
  {
    if s != [] && IsDigitIn(s[0], radix) then [s[0]] + DigitRun(s[1..], radix) else []
  }

  /** The text parseInt reads digits from: leading space and one sign
      skipped. */
  function Unsigned(s: string): (u: string)
    ensures |u| <= |s|
    ensures HasMinus(s) ==> |u| + 1 <= |s|
  {
    var t := TrimStart(s);
    if |t| > 0 && (t[0] == '-' || t[0] == '+') then t[1..] else t
  }

  predicate HasMinus(s: string)
  {
    var t := TrimStart(s);
    |t| > 0 && t[0] == '-'
  }

  /** A "0x"/"0X" prefix, which makes parseInt read hex digits. */
  predicate HexPrefixed(u: string)
  {
    |u| >= 2 && u[0] == '0' && (u[1] == 'x' || u[1] == 'X')
  }

  /** `parseInt(s)` (radix 10, a "0x"/"0X" prefix switching to 16) and
      `parseInt(s, 16)` (radix 16, the prefix skipped). None is NaN. */
  function ParseInt(s: string, radix: Radix): (r: Option<int>)
  {
    var u := Unsigned(s);
    var base: Radix := if HexPrefixed(u) then 16 else radix;
    var run := DigitRun(if HexPrefixed(u) then u[2..] else u, base);
    if run == [] then None
    else var value: int := ValueOf(run, base); Some(if HasMinus(s) then -value else value)
  }

  lemma ParseIntDigits(s: string, radix: Radix)
    requires |s| >= 1 && AllDigits(s, radix)
    requires !(|s| >= 2 && s[0] == '0' && (s[1] == 'x' || s[1] == 'X'))
    ensures ParseInt(s, radix) == Some(ValueOf(s, radix))
  {
    assert TrimStart(s) == s by { assert !IsSpace(s[0]); }
    DigitRunAll(s, radix);
  }

  lemma {:induction false} DigitRunAll(s: string, radix: Radix)
    requires AllDigits(s, radix)
    ensures DigitRun(s, radix) == s
  {
    if s != [] {
      DigitRunAll(s[1..], radix);
    }
  }

  // ---------------------------------------------------------------------
  // split

  /** String.prototype.split with a one-character separator. */
  function Split(s: string, sep: char): (r: seq<string>)
    ensures |r| >= 1
  {
    if s == [] then [""]
    else if s[0] == sep then [""] + Split(s[1..], sep)
    else var t := Split(s[1..], sep); [[s[0]] + t[0]] + t[1..]
  }

  /** The first field of a split is everything up to the first separator. */
  lemma {:induction false} SplitFirst(a: string, sep: char, b: string)
    requires sep !in a
    ensures Split(a + [sep] + b, sep) == [a] + Split(b, sep)
  {
    if a == [] {
      assert a + [sep] + b == [sep] + b;
      assert ([sep] + b)[1..] == b;
    } else {
      assert (a + [sep] + b)[0] == a[0];
      assert (a + [sep] + b)[1..] == a[1..] + [sep] + b;
      SplitFirst(a[1..], sep, b);
      assert [a[0]] + a[1..] == a;
    }
  }

  lemma {:induction false} SplitNone(a: string, sep: char)
    requires sep !in a
    ensures Split(a, sep) == [a]
  {
    if a != [] {
      SplitNone(a[1..], sep);
      assert [a[0]] + a[1..] == a;
    }
  }

  // ---------------------------------------------------------------------
  // Ordering

  /** Code-unit lexicographic order, the order `localeCompare` gives the
      digit-and-dash keys it is used on. */
  predicate Less(a: string, b: string)
  {
    if a == [] then b != []
    else if b == [] then false
    else if a[0] != b[0] then a[0] < b[0]
    else Less(a[1..], b[1..])
  }

  lemma {:induction false} LessIrreflexive(a: string)
    ensures !Less(a, a)
  {
    if a != [] { LessIrreflexive(a[1..]); }
  }

  lemma {:induction false} LessTransitive(a: string, b: string, c: string)
    requires Less(a, b) && Less(b, c)
    ensures Less(a, c)
  {
    if a != [] && b != [] && c != [] && a[0] == b[0] == c[0] {
      LessTransitive(a[1..], b[1..], c[1..]);
    }
  }

  lemma {:induction false} LessTotal(a: string, b: string)
    requires a != b
    ensures Less(a, b) || Less(b, a)
  {
    if a != [] && b != [] && a[0] == b[0] {
      assert a == [a[0]] + a[1..] && b == [b[0]] + b[1..];
      LessTotal(a[1..], b[1..]);
    }
  }

  lemma {:induction false} LessAsymmetric(a: string, b: string)
    requires Less(a, b)
    ensures !Less(b, a)
  {
    if a != [] && b != [] && a[0] == b[0] {
      LessAsymmetric(a[1..], b[1..]);
    }
  }
}
