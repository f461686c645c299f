/** The colour-string helpers of the palette popover: the preset colours, the
    hex check on typed input, `hexToRgb` (including the way JavaScript's
    `parseInt(_, 16)` and the bit operators treat any six characters), the
    integer-to-hex formatting that ends `hslToHex`, and `hexToHue`. */
module ColorPalette {
  import opened Wrappers

  /** The six preset swatches, in display order. */
  const Presets: seq<string> := ["#FF0000", "#ffd500", "#00bbff", "#a2ff00", "#e600ff", "#00eaff"]

  // ---------------------------------------------------------------------
  // Hex digits

  predicate IsHexDigit(c: char) {
    '0' <= c <= '9' || 'a' <= c <= 'f' || 'A' <= c <= 'F'
  }

  function HexDigitValue(c: char): (v: nat)
    requires IsHexDigit(c)
    ensures v < 16
  {
    if '0' <= c <= '9' then (c - '0') as nat
    else if 'a' <= c <= 'f' then (c - 'a') as nat + 10
    else (c - 'A') as nat + 10
  }

  /** The lower-case digit JavaScript's `toString(16)` writes for `d`. */
  function LowerHexChar(d: nat): (c: char)
    requires d < 16
    ensures IsHexDigit(c) && HexDigitValue(c) == d
  {
    if d < 10 then ('0' as int + d) as char else ('a' as int + d - 10) as char
  }

  predicate AllHexDigits(s: string) {
    forall i :: 0 <= i < |s| ==> IsHexDigit(s[i])
  }

  /** The number a string of hex digits denotes, most significant first. */
  function HexValue(s: string): nat
    requires AllHexDigits(s)
  {
    if s == [] then 0 else 16 * HexValue(s[..|s| - 1]) + HexDigitValue(s[|s| - 1])
  }

  /** `toUpperCase` on the characters it can meet here (ASCII letters). */
  function UpperChar(c: char): char {
    if 'a' <= c <= 'z' then (c as int - 32) as char else c
  }

  function ToUpper(s: string): (r: string)
    ensures |r| == |s|
    ensures forall i :: 0 <= i < |s| ==> r[i] == UpperChar(s[i])
  {
    seq(|s|, i requires 0 <= i < |s| => UpperChar(s[i]))
  }

  /** Upper-casing hex digits changes neither their being digits nor their value. */
  lemma {:induction false} ToUpperHexValue(s: string)
    requires AllHexDigits(s)
    ensures AllHexDigits(ToUpper(s))
    ensures HexValue(ToUpper(s)) == HexValue(s)
    decreases |s|
  {
    if s != [] {
      var n := |s| - 1;
      assert ToUpper(s)[..n] == ToUpper(s[..n]);
      ToUpperHexValue(s[..n]);
    }
  }

  // ---------------------------------------------------------------------
  // Number.prototype.toString(16) and the fixed-width tail of hslToHex

  function Pow16(k: nat): (p: nat)
    ensures p >= 1
  {
    if k == 0 then 1 else 16 * Pow16(k - 1)
  }

  /** `n.toString(16)` for a non-negative integer: lower-case digits, no
      leading zero. */
  function ToHexString(n: nat): (s: string)
    ensures |s| >= 1 && AllHexDigits(s)
  {
    if n < 16 then [LowerHexChar(n)] else ToHexString(n / 16) + [LowerHexChar(n % 16)]
  }

  /** The `k` low hex digits of `v`, leading zeros kept. */
  function FixedHex(v: nat, k: nat): (s: string)
    ensures |s| == k && AllHexDigits(s)
  {
    if k == 0 then [] else FixedHex(v / 16, k - 1) + [LowerHexChar(v % 16)]
  }

  lemma {:induction false} FixedHexValue(v: nat, k: nat)
    requires v < Pow16(k)
    ensures HexValue(FixedHex(v, k)) == v
  {
    if k > 0 {
      FixedHexValue(v / 16, k - 1);
      var s := FixedHex(v, k);
      assert s[..k - 1] == FixedHex(v / 16, k - 1);
    }
  }

  /** Writing `16^k + v` in hex gives a `1` followed by `v` padded to `k`
      digits: this is why adding `1 << 24` before `toString(16)` and slicing
      off the first character keeps leading zeros. */
  lemma {:induction false} ToHexStringOfPadded(v: nat, k: nat)
    requires v < Pow16(k)
    ensures ToHexString(Pow16(k) + v) == "1" + FixedHex(v, k)
  {
    if k > 0 {
      var n := Pow16(k) + v;
      assert n == 16 * (Pow16(k - 1) + v / 16) + v % 16;
      assert n / 16 == Pow16(k - 1) + v / 16 && n % 16 == v % 16;
      ToHexStringOfPadded(v / 16, k - 1);
    }
  }

  /** The formatting tail of `hslToHex`: from rounded channels to
      `"#" + ((1 << 24) + (r << 16) + (g << 8) + b).toString(16).slice(1).toUpperCase()`. */
  function FormatHex(r: nat, g: nat, b: nat): (s: string)
    requires r < 256 && g < 256 && b < 256
    ensures |s| == 7 && s[0] == '#'
    ensures AllHexDigits(s[1..])
    ensures forall i :: 1 <= i < 7 ==> !('a' <= s[i] <= 'z')
    ensures HexValue(s[1..]) == r * 65536 + g * 256 + b
  {
    var v := r * 65536 + g * 256 + b;
    var digits := ToHexString(16777216 + v);
    assert Pow16(6) == 16777216;
    ToHexStringOfPadded(v, 6);
    FixedHexValue(v, 6);
    ToUpperHexValue(FixedHex(v, 6));
    assert digits[1..] == FixedHex(v, 6);
    "#" + ToUpper(digits[1..])
  }

  // ---------------------------------------------------------------------
  // parseInt(_, 16)

  /** JavaScript's StrWhiteSpaceChar: WhiteSpace and LineTerminator. */
  predicate IsJsWhitespace(c: char) {
    c == '\t' || c == '\n' || c == '\U{0B}' || c == '\U{0C}' || c == '\r' || c == ' '
    || c == '\U{A0}' || c == '\U{1680}' || ('\U{2000}' <= c <= '\U{200A}')
    || c == '\U{2028}' || c == '\U{2029}' || c == '\U{202F}' || c == '\U{205F}'
    || c == '\U{3000}' || c == '\U{FEFF}'
  }

  function TrimStart(s: string): (r: string)
    ensures |r| <= |s| && r == s[|s| - |r|..]
    ensures r == [] || !IsJsWhitespace(r[0])
    ensures forall i :: 0 <= i < |s| - |r| ==> IsJsWhitespace(s[i])
  {
    if s != [] && IsJsWhitespace(s[0]) then TrimStart(s[1..]) else s
  }

  /** The length of the longest prefix of hex digits. */
  function HexPrefixLength(s: string): (n: nat)
    ensures n <= |s| && AllHexDigits(s[..n])
    ensures n < |s| ==> !IsHexDigit(s[n])
  {
    if s != [] && IsHexDigit(s[0]) then
      var n := 1 + HexPrefixLength(s[1..]);
      assert s[..n] == [s[0]] + s[1..][..n - 1];
      n
    else 0
  }

  /** `parseInt(s, 16)`; `None` stands for NaN. */
  function ParseIntHex(s: string): (r: Option<int>)
  {
    var t := TrimStart(s);
    var negative := t != [] && t[0] == '-';
    var u := if t != [] && (t[0] == '-' || t[0] == '+') then t[1..] else t;
    var w := if |u| >= 2 && u[0] == '0' && (u[1] == 'x' || u[1] == 'X') then u[2..] else u;
    var v := HexPrefixValue(w);
    if v.None? then None else Some(if negative then -v.value else v.value)
  }

  /** The value of the longest prefix of hex digits; `None` when there is none. */
  function HexPrefixValue(w: string): Option<int> {
    var n := HexPrefixLength(w);
    if n == 0 then None else Some(HexValue(w[..n]) as int)
  }

  /** A string of hex digits parses to its value. */
  lemma ParseIntHexOfDigits(s: string)
    requires |s| >= 1 && AllHexDigits(s)
    requires !(|s| >= 2 && s[0] == '0' && (s[1] == 'x' || s[1] == 'X'))
    ensures ParseIntHex(s) == Some(HexValue(s) as int)
  {
    assert !IsJsWhitespace(s[0]) && s[0] != '-' && s[0] != '+';
    assert TrimStart(s) == s;
    HexPrefixValueOfDigits(s);
  }

  lemma HexPrefixValueOfDigits(s: string)
    requires |s| >= 1 && AllHexDigits(s)
    ensures HexPrefixValue(s) == Some(HexValue(s) as int)
  {
    HexPrefixOfDigits(s);
    assert s[..|s|] == s;
  }

  lemma {:induction false} HexPrefixOfDigits(s: string)
    requires AllHexDigits(s)
    ensures HexPrefixLength(s) == |s|
  {
    if s != [] { HexPrefixOfDigits(s[1..]); }
  }

  // ---------------------------------------------------------------------
  // hexToRgb and hexToHue

  datatype Rgb = Rgb(r: int, g: int, b: int)

  /** `(v >> 16) & 255`, `(v >> 8) & 255` and `v & 255` for a value that fits
      in 32 bits; NaN behaves as 0 under the bit operators. */
  function Channels(parsed: Option<int>): (c: Rgb)
    requires parsed.Some? ==> -0x8000_0000 <= parsed.value < 0x8000_0000
    ensures 0 <= c.r < 256 && 0 <= c.g < 256 && 0 <= c.b < 256
  {
    var v := parsed.GetOr(0);
    Rgb((v / 65536) % 256, (v / 256) % 256, v % 256)
  }

  /** Removes one leading `#`, as `replace(/^#/, '')` does. */
  function StripHash(hex: string): (r: string)
    ensures r == if hex != [] && hex[0] == '#' then hex[1..] else hex
  {
    if hex != [] && hex[0] == '#' then hex[1..] else hex
  }

  lemma {:induction false} HexValueBound(s: string)
    requires AllHexDigits(s)
    ensures HexValue(s) < Pow16(|s|)
    decreases |s|
  {
    if s != [] { HexValueBound(s[..|s| - 1]); }
  }

  lemma {:induction false} Pow16Monotone(j: nat, k: nat)
    requires j <= k
    ensures Pow16(j) <= Pow16(k)
  {
    if j < k { Pow16Monotone(j, k - 1); }
  }

  lemma SixHexDigitsFit(s: string)
    requires |s| <= 6 && AllHexDigits(s)
    ensures HexValue(s) < 0x100_0000
  {
    HexValueBound(s);
    Pow16Monotone(|s|, 6);
    assert Pow16(6) == 0x100_0000;
  }

  function HexToRgb(hex: string): (c: Option<Rgb>)
    ensures c.None? <==> |StripHash(hex)| != 6
    ensures c.Some? ==> 0 <= c.value.r < 256 && 0 <= c.value.g < 256 && 0 <= c.value.b < 256
  {
    var h := StripHash(hex);
    if |h| != 6 then None
    else
      var parsed := ParseIntHex(h);
      ParseIntHexBounded(h);
      Some(Channels(parsed))
  }

  lemma ParseIntHexBounded(h: string)
    requires |h| == 6
    ensures ParseIntHex(h).Some? ==> -0x100_0000 < ParseIntHex(h).value < 0x100_0000
  {
    var t := TrimStart(h);
    var u := if t != [] && (t[0] == '-' || t[0] == '+') then t[1..] else t;
    var w := if |u| >= 2 && u[0] == '0' && (u[1] == 'x' || u[1] == 'X') then u[2..] else u;
    SixHexDigitsFit(w[..HexPrefixLength(w)]);
  }

  /** The check `handleHexChange` applies to typed input: `^#[0-9A-Fa-f]{6}$`. */
  predicate MatchesHexPattern(s: string) {
    |s| == 7 && s[0] == '#' && AllHexDigits(s[1..])
  }

  /** Any string that passes the check converts: each channel is its byte of
      the six-digit value. */
  lemma HexToRgbOfPattern(s: string)
    requires MatchesHexPattern(s)
    ensures HexToRgb(s).Some?
    ensures var v := HexValue(s[1..]);
      HexToRgb(s).value == Rgb(v / 65536, (v / 256) % 256, v % 256)
  {
    var h := s[1..];
    assert StripHash(s) == h;
    SixHexDigitsFit(h);
    if h[0] == '0' { assert !IsHexDigit('x') && !IsHexDigit('X'); }
    ParseIntHexOfDigits(h);
    ChannelsOfValue(HexValue(h));
  }

  /** The channels of a 24-bit value are its three bytes. */
  lemma ChannelsOfValue(v: nat)
    requires v < 0x100_0000
    ensures Channels(Some(v)) == Rgb(v / 65536, (v / 256) % 256, v % 256)
  {
    assert v / 65536 < 256;
  }

  /** Formatting channels and converting back returns the same channels. */
  lemma FormatHexRoundTrip(r: nat, g: nat, b: nat)
    requires r < 256 && g < 256 && b < 256
    ensures MatchesHexPattern(FormatHex(r, g, b))
    ensures HexToRgb(FormatHex(r, g, b)) == Some(Rgb(r, g, b))
  {
    var s := FormatHex(r, g, b);
    HexToRgbOfPattern(s);
    ByteFields(r, g, b);
  }

  lemma ByteFields(r: nat, g: nat, b: nat)
    requires r < 256 && g < 256 && b < 256
    ensures var v := r * 65536 + g * 256 + b;
      v / 65536 == r && (v / 256) % 256 == g && v % 256 == b
  {
    var v := r * 65536 + g * 256 + b;
    assert v / 256 == r * 256 + g;
    assert v / 65536 == r;
  }

  /** `hexToHue`: 0 when `hexToRgb` rejects the input, otherwise the rounded
      hue of the channels (`hue` stands for the floating-point `rgbToHsl`). */
  function HexToHue(hex: string, hue: Rgb -> int): (h: int)
    ensures HexToRgb(hex).None? ==> h == 0
    ensures HexToRgb(hex).Some? ==> h == hue(HexToRgb(hex).value)
  {
    match HexToRgb(hex)
    case None => 0
    case Some(c) => hue(c)
  }

  /** What `handleHexChange` does with typed text: the new hue and the colour
      passed on to the caller, or nothing when the text fails the check. */
  datatype HexInput = HexInput(hue: int, selected: Option<string>)

  function HandleHexChange(value: string, currentHue: int, hue: Rgb -> int): (r: HexInput)
    ensures r.selected.Some? <==> MatchesHexPattern(value)
    ensures r.selected.Some? ==>
      r.selected.value == value && HexToRgb(value).Some? && r.hue == hue(HexToRgb(value).value)
    ensures r.selected.None? ==> r.hue == currentHue
  {
    if MatchesHexPattern(value) then
      HexToRgbOfPattern(value);
      HexInput(HexToHue(value, hue), Some(value))
    else HexInput(currentHue, None)
  }

  /** Every preset passes the typed-input check. */
  lemma PresetsMatchHexPattern()
    ensures |Presets| == 6
    ensures forall p :: p in Presets ==> MatchesHexPattern(p)
  {
    forall p | p in Presets ensures MatchesHexPattern(p) {
      assert AllHexDigits(p[1..]);
    }
  }
}
