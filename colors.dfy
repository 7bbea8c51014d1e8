/** The colour conversions of TacticalColorPicker (components/CalendarTab.tsx):
    "#rrggbb" text to channels and back, and the clamped channel inputs. */
module ColorPicker {
  import opened Seqs
  import opened Text

  datatype Rgb = Rgb(r: int, g: int, b: int)

  datatype Channel = R | G | B

  /** `s.slice(from, to)` for 0 <= from <= to: indices past the end are
      clamped to the length. */
  function Slice(s: string, from: nat, to: nat): (r: string)
    requires from <= to
    ensures |r| <= to - from
  {
    var a := if from <= |s| then from else |s|;
    var b := if to <= |s| then to else |s|;
    s[a..b]
  }

  /** `parseInt(x, 16) || 0`: NaN (and 0) give 0. */
  function OrZero(v: Option<int>): int
  {
    if v.Some? then v.value else 0
  }

  /** hexToRgb: each channel from its two characters of "#rrggbb". */
  function HexToRgb(hex: string): Rgb
  {
    Rgb(OrZero(ParseInt(Slice(hex, 1, 3), 16)),
        OrZero(ParseInt(Slice(hex, 3, 5), 16)),
        OrZero(ParseInt(Slice(hex, 5, 7), 16)))
  }

  /** `x.toString(16).padStart(2, '0')`. */
  function ChannelText(x: int): string
  {
    PadStart(IntToString(x, 16), 2)
  }

  /** rgbToHex. */
  function RgbToHex(r: int, g: int, b: int): string
  {
    "#" + ChannelText(r) + ChannelText(g) + ChannelText(b)
  }

  function Get(c: Rgb, ch: Channel): int
  {
    match ch
    case R => c.r
    case G => c.g
    case B => c.b
  }

  function Set(c: Rgb, ch: Channel, v: int): Rgb
  {
    match ch
    case R => c.(r := v)
    case G => c.(g := v)
    case B => c.(b := v)
  }

  /** `Math.max(0, Math.min(255, x))`. */
  function Clamp(x: int): (n: int)
    ensures 0 <= n <= 255
    ensures 0 <= x <= 255 ==> n == x
    ensures x < 0 ==> n == 0
    ensures x > 255 ==> n == 255
  {
    if x < 0 then 0 else if x > 255 then 255 else x
  }

  /** handleRgbChange: the typed channel value, read by `parseInt` (non-
      numbers become 0) and clamped to 0..255, replaces one channel of the
      current colour. */
  function HandleRgbChange(hex: string, ch: Channel, val: string): string
  {
    var n := Clamp(OrZero(ParseInt(val, 10)));
    var c := Set(HexToRgb(hex), ch, n);
    RgbToHex(c.r, c.g, c.b)
  }

  // ---------------------------------------------------------------------
  // Properties

  predicate IsLowerHex(c: char)
  {
    '0' <= c <= '9' || 'a' <= c <= 'f'
  }

  /** A channel in 0..255 is written as its two lower-case hex digits. */
  lemma ChannelDigits(x: int)
    requires 0 <= x <= 255
    ensures ChannelText(x) == [DigitChar(x / 16), DigitChar(x % 16)]
  {
    if x >= 16 {
      assert Digits(x / 16, 16) == [DigitChar(x / 16)];
    } else {
      assert Zeros(1) == ['0'];
    }
  }

  /** Two hex digits read back as their value. */
  lemma ParseTwoDigits(hi: nat, lo: nat)
    requires hi < 16 && lo < 16
    ensures ParseInt([DigitChar(hi), DigitChar(lo)], 16) == Some(16 * hi + lo)
  {
    TwoDigitValue(hi, lo);
    ParseDigitPair(DigitChar(hi), DigitChar(lo));
  }

  /** Two hex digits are read whole: the second is never an 'x'. */
  lemma ParseDigitPair(a: char, b: char)
    requires IsDigitIn(a, 16) && IsDigitIn(b, 16)
    ensures ParseInt([a, b], 16) == Some(ValueOf([a, b], 16))
  {
    var s := [a, b];
    assert AllDigits(s, 16);
    ParseIntDigits(s, 16);
  }

  lemma TwoDigitValue(hi: nat, lo: nat)
    requires hi < 16 && lo < 16
    ensures ValueOf([DigitChar(hi), DigitChar(lo)], 16) == 16 * hi + lo
  {
    var s, h := [DigitChar(hi), DigitChar(lo)], [DigitChar(hi)];
    assert s[..1] == h;
    assert h[..0] == [];
    assert ValueOf(h, 16) == hi;
    assert ValueOf(s, 16) == ValueOf(h, 16) * 16 + CharValue(DigitChar(lo));
  }

  /** A small negative channel, -15..-1, is written "-d" and read back. */
  lemma NegativeChannel(x: int)
    requires -15 <= x < 0
    ensures ChannelText(x) == ['-', DigitChar(-x)]
    ensures ParseInt(ChannelText(x), 16) == Some(x)
  {
    var s := ['-', DigitChar(-x)];
    assert ChannelText(x) == s;
    assert TrimStart(s) == s by { assert !IsSpace(s[0]); }
    assert s[1..] == [DigitChar(-x)];
    DigitRunAll([DigitChar(-x)], 16);
    assert [DigitChar(-x)][..0] == [];
    assert ValueOf([DigitChar(-x)], 16) == -x;
  }

  /** Every channel text of -15..255 reads back as the channel, and has two
      characters. */
  lemma ChannelRoundTrip(x: int)
    requires -15 <= x <= 255
    ensures |ChannelText(x)| == 2
    ensures ParseInt(ChannelText(x), 16) == Some(x)
  {
    if x < 0 {
      NegativeChannel(x);
    } else {
      PositiveChannel(x);
    }
  }

  lemma PositiveChannel(x: int)
    requires 0 <= x <= 255
    ensures |ChannelText(x)| == 2
    ensures ParseInt(ChannelText(x), 16) == Some(x)
  {
    ChannelDigits(x);
    ParseTwoDigits(x / 16, x % 16);
  }

  /** hexToRgb undoes rgbToHex for every channel hexToRgb itself can
      produce. */
  lemma RgbRoundTrip(r: int, g: int, b: int)
    requires -15 <= r <= 255 && -15 <= g <= 255 && -15 <= b <= 255
    ensures HexToRgb(RgbToHex(r, g, b)) == Rgb(r, g, b)
  {
    ChannelRoundTrip(r);
    ChannelRoundTrip(g);
    ChannelRoundTrip(b);
    HexFields(ChannelText(r), ChannelText(g), ChannelText(b));
  }

  /** hexToRgb reads the three two-character fields after the '#'. */
  lemma HexFields(x: string, y: string, z: string)
    requires |x| == 2 && |y| == 2 && |z| == 2
    ensures HexToRgb("#" + x + y + z) ==
            Rgb(OrZero(ParseInt(x, 16)), OrZero(ParseInt(y, 16)), OrZero(ParseInt(z, 16)))
  {
    var hex := "#" + x + y + z;
    assert Slice(hex, 1, 3) == x;
    assert Slice(hex, 3, 5) == y;
    assert Slice(hex, 5, 7) == z;
  }

  /** rgbToHex of channels in 0..255 is '#' and six lower-case hex digits. */
  lemma HexShape(r: int, g: int, b: int)
    requires 0 <= r <= 255 && 0 <= g <= 255 && 0 <= b <= 255
    ensures var hex := RgbToHex(r, g, b);
            |hex| == 7 && hex[0] == '#' && forall i :: 1 <= i < 7 ==> IsLowerHex(hex[i])
  {
    ChannelDigits(r);
    ChannelDigits(g);
    ChannelDigits(b);
  }

  /** At most two hex digits are worth at most 255, one at most 15. */
  lemma ShortValue(run: string)
    requires AllDigits(run, 16) && |run| <= 2
    ensures ValueOf(run, 16) <= 255
    ensures |run| <= 1 ==> ValueOf(run, 16) <= 15
  {
    if |run| == 2 {
      assert run[..1][..0] == [];
    } else if |run| == 1 {
      assert run[..0] == [];
    }
  }

  /** The digits parseInt reads. */
  function DigitsRead(s: string): (run: string)
    ensures |run| <= |Unsigned(s)| && AllDigits(run, 16)
  {
    var u := Unsigned(s);
    DigitRun(if HexPrefixed(u) then u[2..] else u, 16)
  }

  /** parseInt(s, 16) is the signed value of the digits it reads, and NaN
      when there are none. */
  lemma ParseHexSigned(s: string)
    ensures var run := DigitsRead(s);
            var m: int := ValueOf(run, 16);
            ParseInt(s, 16) == if run == [] then None else Some(if HasMinus(s) then -m else m)
  {
    var u := Unsigned(s);
    var v := if HexPrefixed(u) then u[2..] else u;
    assert DigitsRead(s) == DigitRun(v, 16);
  }

  /** A hex reading of at most two characters lies in -15..255: the sign
      leaves room for a single digit. */
  lemma ParseShortRange(s: string)
    requires |s| <= 2
    ensures InChannelRange(OrZero(ParseInt(s, 16)))
  {
    ParseHexSigned(s);
    var run := DigitsRead(s);
    if run != [] {
      ShortValue(run);
    }
  }

  /** The channel values hexToRgb can return. */
  predicate InChannelRange(x: int)
  {
    -15 <= x <= 255
  }

  lemma HexToRgbRange(hex: string)
    ensures var c := HexToRgb(hex);
            -15 <= c.r <= 255 && -15 <= c.g <= 255 && -15 <= c.b <= 255
  {
    ParseShortRange(Slice(hex, 1, 3));
    ParseShortRange(Slice(hex, 3, 5));
    ParseShortRange(Slice(hex, 5, 7));
  }

  /** Typing into one channel box sets that channel to the clamped value and
      leaves the colour's other two channels as they read before. */
  lemma RgbChangeSetsOneChannel(hex: string, ch: Channel, val: string)
    ensures HexToRgb(HandleRgbChange(hex, ch, val)) ==
            Set(HexToRgb(hex), ch, Clamp(OrZero(ParseInt(val, 10))))
  {
    HexToRgbRange(hex);
    var c := Set(HexToRgb(hex), ch, Clamp(OrZero(ParseInt(val, 10))));
    RgbRoundTrip(c.r, c.g, c.b);
  }

  /** Input that is not a number sets the channel to 0. */
  lemma NonNumericIsZero(hex: string, ch: Channel, val: string)
    requires ParseInt(val, 10).None?
    ensures Get(HexToRgb(HandleRgbChange(hex, ch, val)), ch) == 0
  {
    RgbChangeSetsOneChannel(hex, ch, val);
  }
}
