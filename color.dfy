/**
 * The colour string of a scene record (`color.toString()`). This module assumes
 * that the scene's colour arrives as the ableton-js colour wrapper over a
 * 24-bit RGB value, and that the wrapper's `toString()` renders it as
 * `#rrggbb`: a hash sign followed by six lower-case hexadecimal digits,
 * zero-padded. The wrapper itself belongs to ableton-js and is not modelled.
 */
module Color {
  import opened Wrappers

  /** A 24-bit RGB colour value. */
  type Rgb = n: nat | n < 0x100_0000

  predicate IsHexDigit(c: char) {
    '0' <= c <= '9' || 'a' <= c <= 'f'
  }

  function HexChar(d: nat): (c: char)
    requires d < 16
    ensures IsHexDigit(c)
  {
    "0123456789abcdef"[d]
  }

  function HexCharValue(c: char): (d: nat)
    requires IsHexDigit(c)
    ensures d < 16
  {
    if c <= '9' then c as int - '0' as int else c as int - 'a' as int + 10
  }

  function Pow16(width: nat): (p: nat)
    ensures p >= 1
  {
    if width == 0 then 1 else 16 * Pow16(width - 1)
  }

  /** The lowest `width` hexadecimal digits of `n`, most significant first. */
  function HexDigits(n: nat, width: nat): (s: string)
    ensures |s| == width && forall i :: 0 <= i < width ==> IsHexDigit(s[i])
  {
    if width == 0 then [] else HexDigits(n / 16, width - 1) + [HexChar(n % 16)]
  }

  /** The colour string of a scene record. */
  function HexString(rgb: Rgb): (s: string)
    ensures |s| == 7 && s[0] == '#'
    ensures forall i :: 1 <= i < 7 ==> IsHexDigit(s[i])
  {
    "#" + HexDigits(rgb, 6)
  }

  /** The number a string of hexadecimal digits denotes. */
  function HexValue(s: string): nat
    requires forall i :: 0 <= i < |s| ==> IsHexDigit(s[i])
  {
    if s == [] then 0 else HexValue(s[..|s| - 1]) * 16 + HexCharValue(s[|s| - 1])
  }

  /** The colour a `#rrggbb` string denotes, if it has that form. */
  function ParseHexColor(s: string): Option<nat> {
    if |s| == 7 && s[0] == '#' && forall i :: 1 <= i < 7 ==> IsHexDigit(s[i]) then Some(HexValue(s[1..])) else None
  }

  lemma HexCharRoundTrip(d: nat)
    requires d < 16
    ensures HexCharValue(HexChar(d)) == d
  {
  }

  /** `width` digits are enough for every number below `16^width`, and they read back to it. */
  lemma {:induction false} HexDigitsRoundTrip(n: nat, width: nat)
    requires n < Pow16(width)
    ensures HexValue(HexDigits(n, width)) == n
  {
    var s := HexDigits(n, width);
    if width > 0 {
      assert n / 16 < Pow16(width - 1);
      HexDigitsRoundTrip(n / 16, width - 1);
      assert s[..|s| - 1] == HexDigits(n / 16, width - 1);
      HexCharRoundTrip(n % 16);
    }
  }

  /** Reading the colour string back gives the colour: no information is lost. */
  lemma HexColorRoundTrip(rgb: Rgb)
    ensures ParseHexColor(HexString(rgb)) == Some(rgb)
  {
    assert Pow16(6) == 0x100_0000;
    HexDigitsRoundTrip(rgb, 6);
    assert HexString(rgb)[1..] == HexDigits(rgb, 6);
  }

  /** Distinct colours are rendered as distinct strings. */
  lemma HexStringInjective(a: Rgb, b: Rgb)
    ensures HexString(a) == HexString(b) ==> a == b
  {
    HexColorRoundTrip(a);
    HexColorRoundTrip(b);
  }
}
