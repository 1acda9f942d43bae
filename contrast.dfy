/**
 * `getContrastColor` of the color card: picks black or white text for a
 * background given as a hex string, by the BT.601 luma of its three
 * channels. Each channel is read with JavaScript's `parseInt(slice, 16)` on a
 * two-character slice; `None` stands for the NaN that `parseInt` returns when
 * it reads no digit.
 */
module Contrast {
  import opened Wrappers
  import opened JsString

  const TextBlack: string := "text-black"
  const TextWhite: string := "text-white"

  predicate IsHexDigit(c: char) {
    '0' <= c <= '9' || 'a' <= c <= 'f' || 'A' <= c <= 'F'
  }

  predicate AllHexDigits(s: string) {
    forall i :: 0 <= i < |s| ==> IsHexDigit(s[i])
  }

  predicate NoHexDigit(s: string) {
    forall i :: 0 <= i < |s| ==> !IsHexDigit(s[i])
  }

  function DigitValue(c: char): (v: nat)
    requires IsHexDigit(c)
    ensures v < 16
  {
    if '0' <= c <= '9' then c as int - '0' as int
    else if 'a' <= c <= 'f' then c as int - 'a' as int + 10
    else c as int - 'A' as int + 10
  }

  /** The upper-case digit for a value below 16: the inverse of DigitValue. */
  function DigitChar(d: nat): (c: char)
    requires d < 16
    ensures IsHexDigit(c) && DigitValue(c) == d
  {
    if d < 10 then ('0' as int + d) as char else ('A' as int + d - 10) as char
  }

  function Pow16(n: nat): (p: nat)
    ensures p >= 1
  {
    if n == 0 then 1 else 16 * Pow16(n - 1)
  }

  /** Length of the longest run of hex digits at the start of `s`. */
  function HexRunLength(s: string): (n: nat)
    ensures n <= |s|
    ensures AllHexDigits(s[..n])
    ensures n < |s| ==> !IsHexDigit(s[n])
  {
    if s == [] || !IsHexDigit(s[0]) then 0 else 1 + HexRunLength(s[1..])
  }

  /** The number a string of hex digits denotes, most significant digit first. */
  function HexValue(digits: string): (v: nat)
    requires AllHexDigits(digits)
    ensures v < Pow16(|digits|)
  {
    if digits == [] then 0
    else HexValue(digits[..|digits| - 1]) * 16 + DigitValue(digits[|digits| - 1])
  }

  /** Drops one leading `+` or `-`. */
  function StripSign(t: string): string {
    if t != [] && (t[0] == '+' || t[0] == '-') then t[1..] else t
  }

  /** Drops a leading `0x` or `0X`, which radix 16 allows. */
  function StripHexPrefix(u: string): string {
    if |u| >= 2 && u[0] == '0' && (u[1] == 'x' || u[1] == 'X') then u[2..] else u
  }

  /**
   * `parseInt(s, 16)`: skip leading whitespace, take an optional sign, drop an
   * optional `0x`/`0X` prefix, then read the longest run of hex digits; no
   * digit gives NaN (None). A negative zero is represented by 0, and the
   * value is exact: JavaScript's rounding to a double from 2^53 on is not
   * modelled.
   */
  function ParseInt16(s: string): (r: Option<int>)
    ensures r.Some? && r.value < 0 ==> TrimStart(s) != [] && TrimStart(s)[0] == '-'
  {
    var t := TrimStart(s);
    var digits := StripHexPrefix(StripSign(t));
    var n := HexRunLength(digits);
    if n == 0 then None
    else
      var magnitude: int := HexValue(digits[..n]);
      Some(if t != [] && t[0] == '-' then -magnitude else magnitude)
  }

  /** The two-character slice holding channel `k` (0 red, 1 green, 2 blue):
      `hex.substring(1).substring(2k, 2k + 2)`. */
  function ChannelSlice(hex: string, k: nat): (s: string)
    ensures |s| <= 2
    ensures |hex| >= 2 * k + 3 ==> s == hex[2 * k + 1..2 * k + 3]
    ensures |hex| == 2 * k + 2 ==> s == [hex[2 * k + 1]]
    ensures |hex| <= 2 * k + 1 ==> s == []
  {
    var hexColor := Substring(hex, 1, |hex|);
    assert |hex| >= 1 ==> hexColor == hex[1..];
    assert |hex| >= 2 * k + 3 ==> hexColor[2 * k..2 * k + 2] == hex[2 * k + 1..2 * k + 3];
    Substring(hexColor, 2 * k, 2 * k + 2)
  }

  function Channel(hex: string, k: nat): Option<int> {
    ParseInt16(ChannelSlice(hex, k))
  }

  /** `(r * 299 + g * 587 + b * 114) / 1000 >= 128`, in integers; any NaN makes it false. */
  predicate LumaAtLeast128(r: Option<int>, g: Option<int>, b: Option<int>) {
    r.Some? && g.Some? && b.Some? && 299 * r.value + 587 * g.value + 114 * b.value >= 128000
  }

  function GetContrastColor(hex: string): (c: string)
    ensures c == TextBlack || c == TextWhite
    ensures (hex == [] || hex[0] != '#') ==> c == TextBlack
  {
    if hex == [] || hex[0] != '#' then TextBlack
    else if LumaAtLeast128(Channel(hex, 0), Channel(hex, 1), Channel(hex, 2)) then TextBlack
    else TextWhite
  }

  // ---------------------------------------------------------------------
  // Reading digits

  /** A non-empty string of hex digits parses to the number it denotes. */
  lemma ParseDigits(s: string)
    requires s != [] && AllHexDigits(s)
    ensures ParseInt16(s) == Some(HexValue(s))
  {
    assert TrimStart(s) == s;
    assert StripHexPrefix(StripSign(s)) == s;
    assert HexRunLength(s) == |s|;
    assert s[..|s|] == s;
  }

  lemma HexValueTwoDigits(hi: char, lo: char)
    requires IsHexDigit(hi) && IsHexDigit(lo)
    ensures HexValue([hi, lo]) == 16 * DigitValue(hi) + DigitValue(lo)
  {
    assert [hi, lo][..1] == [hi] && [hi][..0] == [];
  }

  /** Two hex digits parse to the byte they denote. */
  lemma ParseTwoDigits(hi: char, lo: char)
    requires IsHexDigit(hi) && IsHexDigit(lo)
    ensures ParseInt16([hi, lo]) == Some(16 * DigitValue(hi) + DigitValue(lo))
  {
    ParseDigits([hi, lo]);
    HexValueTwoDigits(hi, lo);
  }

  /** The value of a two-character channel slice lies in -15..255. */
  lemma ChannelRange(s: string)
    requires |s| <= 2
    ensures ParseInt16(s).Some? ==> -15 <= ParseInt16(s).value <= 255
  {
    var t := TrimStart(s);
    var digits := StripHexPrefix(StripSign(t));
    var n := HexRunLength(digits);
    if n > 0 {
      var m := HexValue(digits[..n]);
      if StripSign(t) != t {
        assert n <= 1 && m < Pow16(n) <= 16;
      } else {
        assert n <= 2 && m < Pow16(n) <= 256;
      }
    }
  }

  // ---------------------------------------------------------------------
  // The luma rule on well-formed input

  /** The value of the two hex digits at positions i and i + 1. */
  function ByteAt(hex: string, i: nat): (v: nat)
    requires i + 1 < |hex| && IsHexDigit(hex[i]) && IsHexDigit(hex[i + 1])
    ensures v < 256
  {
    16 * DigitValue(hex[i]) + DigitValue(hex[i + 1])
  }

  lemma ChannelOfDigits(hex: string, k: nat)
    requires |hex| >= 2 * k + 3 && IsHexDigit(hex[2 * k + 1]) && IsHexDigit(hex[2 * k + 2])
    ensures Channel(hex, k) == Some(ByteAt(hex, 2 * k + 1))
  {
    var hi, lo := hex[2 * k + 1], hex[2 * k + 2];
    assert ChannelSlice(hex, k) == [hi, lo];
    ParseTwoDigits(hi, lo);
  }

  /** For `#RRGGBB` with six hex digits (any case, anything may follow), the
      text is black exactly when 299 R + 587 G + 114 B reaches 128000. */
  lemma SixDigitContrast(hex: string)
    requires |hex| >= 7 && hex[0] == '#' && AllHexDigits(hex[1..7])
    ensures GetContrastColor(hex) ==
      if 299 * ByteAt(hex, 1) + 587 * ByteAt(hex, 3) + 114 * ByteAt(hex, 5) >= 128000
      then TextBlack else TextWhite
  {
    assert forall i | 1 <= i < 7 :: hex[i] == hex[1..7][i - 1];
    ChannelOfDigits(hex, 0);
    ChannelOfDigits(hex, 1);
    ChannelOfDigits(hex, 2);
  }

  lemma WhiteBackgroundGetsBlackText()
    ensures GetContrastColor("#FFFFFF") == TextBlack
  {
    SixDigitContrast("#FFFFFF");
  }

  lemma BlackBackgroundGetsWhiteText()
    ensures GetContrastColor("#000000") == TextWhite
  {
    SixDigitContrast("#000000");
  }

  /** #808080 has luma exactly 128; the tie goes to black text. */
  lemma MidGrayTieGetsBlackText()
    ensures GetContrastColor("#808080") == TextBlack
  {
    SixDigitContrast("#808080");
  }

  // ---------------------------------------------------------------------
  // Colors written from channel values

  /** Two upper-case hex digits for a channel value below 256. */
  function HexByte(v: nat): (s: string)
    requires v < 256
    ensures |s| == 2 && AllHexDigits(s) && 16 * DigitValue(s[0]) + DigitValue(s[1]) == v
  {
    [DigitChar(v / 16), DigitChar(v % 16)]
  }

  function RgbHex(r: nat, g: nat, b: nat): (hex: string)
    requires r < 256 && g < 256 && b < 256
    ensures |hex| == 7 && hex[0] == '#' && AllHexDigits(hex[1..])
  {
    "#" + HexByte(r) + HexByte(g) + HexByte(b)
  }

  lemma RgbHexContrast(r: nat, g: nat, b: nat)
    requires r < 256 && g < 256 && b < 256
    ensures GetContrastColor(RgbHex(r, g, b)) ==
      if 299 * r + 587 * g + 114 * b >= 128000 then TextBlack else TextWhite
  {
    var hex := RgbHex(r, g, b);
    assert hex[1..7] == hex[1..];
    assert hex[1] == HexByte(r)[0] && hex[2] == HexByte(r)[1];
    assert hex[3] == HexByte(g)[0] && hex[4] == HexByte(g)[1];
    assert hex[5] == HexByte(b)[0] && hex[6] == HexByte(b)[1];
    SixDigitContrast(hex);
  }

  /** Raising any channel never turns black text into white text. */
  lemma ContrastMonotone(r: nat, g: nat, b: nat, r': nat, g': nat, b': nat)
    requires r <= r' < 256 && g <= g' < 256 && b <= b' < 256
    requires GetContrastColor(RgbHex(r, g, b)) == TextBlack
    ensures GetContrastColor(RgbHex(r', g', b')) == TextBlack
  {
    RgbHexContrast(r, g, b);
    RgbHexContrast(r', g', b');
  }

  // ---------------------------------------------------------------------
  // Malformed input

  lemma {:induction false} TrimStartKeepsNoHexDigit(s: string)
    requires NoHexDigit(s)
    ensures NoHexDigit(TrimStart(s))
  {
    if s != [] && IsWhitespace(s[0]) {
      assert forall i :: 0 <= i < |s| - 1 ==> s[1..][i] == s[i + 1];
      TrimStartKeepsNoHexDigit(s[1..]);
    }
  }

  /** `parseInt` reads no digit from a string that contains none. */
  lemma DigitlessIsNaN(s: string)
    requires NoHexDigit(s)
    ensures ParseInt16(s) == None
  {
    TrimStartKeepsNoHexDigit(s);
    var t := TrimStart(s);
    var u := StripSign(t);
    assert NoHexDigit(u) by {
      assert forall i :: 0 <= i < |t| - 1 ==> t[1..][i] == t[i + 1];
    }
    var d := StripHexPrefix(u);
    assert NoHexDigit(d) by {
      assert forall i :: 0 <= i < |u| - 2 ==> u[2..][i] == u[i + 2];
    }
    assert HexRunLength(d) == 0;
  }

  // ---------------------------------------------------------------------
  // What parseInt reads: whitespace, one sign, an optional prefix, digits

  /** NaN stays NaN under unary minus; a number is negated. */
  function Negated(o: Option<int>): Option<int> {
    if o.Some? then Some(-o.value) else None
  }

  /** Leading whitespace is skipped. */
  lemma ParseSkipsWhitespace(ws: string, s: string)
    requires AllWhitespace(ws)
    ensures ParseInt16(ws + s) == ParseInt16(s)
  {
    TrimStartSkipsWhitespace(ws, s);
  }

  /** One sign is read: `+` keeps the value and `-` negates it, when what
      follows starts with neither whitespace nor another sign. */
  lemma ParseSign(u: string)
    requires u == [] || (!IsWhitespace(u[0]) && u[0] != '+' && u[0] != '-')
    ensures ParseInt16("+" + u) == ParseInt16(u)
    ensures ParseInt16("-" + u) == Negated(ParseInt16(u))
  {
    assert ("+" + u)[1..] == u && ("-" + u)[1..] == u;
    assert TrimStart("+" + u) == "+" + u && TrimStart("-" + u) == "-" + u;
  }

  /** The run of digits read from `d + rest` is exactly `d`. */
  lemma {:induction false} HexRunOfDigits(d: string, rest: string)
    requires AllHexDigits(d)
    requires rest == [] || !IsHexDigit(rest[0])
    ensures HexRunLength(d + rest) == |d|
    ensures (d + rest)[..|d|] == d
  {
    if d != [] {
      assert (d + rest)[1..] == d[1..] + rest;
      assert AllHexDigits(d[1..]) by {
        assert forall i :: 0 <= i < |d| - 1 ==> d[1..][i] == d[i + 1];
      }
      HexRunOfDigits(d[1..], rest);
    } else {
      assert d + rest == rest;
    }
  }

  lemma ParseWithPrefix(p: string, d: string, rest: string)
    requires p == "0x" || p == "0X"
    requires AllHexDigits(d)
    requires rest == [] || !IsHexDigit(rest[0])
    ensures ParseInt16(p + d + rest) == (if d == [] then None else Some(HexValue(d)))
  {
    var s := p + d + rest;
    assert s[0] == '0' && s[1] == p[1];
    assert TrimStart(s) == s;
    assert StripSign(s) == s;
    assert s[2..] == d + rest;
    HexRunOfDigits(d, rest);
  }

  /** After `0x` or `0X` the longest run of digits is read; an empty run is NaN. */
  lemma ParsePrefixed(d: string, rest: string)
    requires AllHexDigits(d)
    requires rest == [] || !IsHexDigit(rest[0])
    ensures ParseInt16("0x" + d + rest) == (if d == [] then None else Some(HexValue(d)))
    ensures ParseInt16("0X" + d + rest) == (if d == [] then None else Some(HexValue(d)))
  {
    ParseWithPrefix("0x", d, rest);
    ParseWithPrefix("0X", d, rest);
  }

  /** Without a prefix the longest leading run of digits is read, unless a
      lone `0` followed by `x` or `X` forms the prefix itself. */
  lemma ParseLeadingRun(d: string, rest: string)
    requires d != [] && AllHexDigits(d)
    requires rest == [] || !IsHexDigit(rest[0])
    requires !(d == "0" && rest != [] && (rest[0] == 'x' || rest[0] == 'X'))
    ensures ParseInt16(d + rest) == Some(HexValue(d))
  {
    var s := d + rest;
    assert s[0] == d[0];
    assert TrimStart(s) == s;
    assert StripSign(s) == s;
    if |d| == 1 {
      assert d == [d[0]];
    } else {
      assert s[1] == d[1];
    }
    assert StripHexPrefix(s) == s;
    HexRunOfDigits(d, rest);
  }

  /** Text that starts with neither a digit, whitespace nor a sign reads as
      NaN, on its own and after `0x` or `0X`. */
  lemma ParseNaNUnsigned(u: string)
    requires u == [] || (!IsHexDigit(u[0]) && !IsWhitespace(u[0]) && u[0] != '+' && u[0] != '-')
    ensures ParseInt16(u) == None
    ensures ParseInt16("0x" + u) == None && ParseInt16("0X" + u) == None
  {
    assert TrimStart(u) == u;
    assert StripSign(u) == u;
    assert StripHexPrefix(u) == u;
    assert HexRunLength(u) == 0;
    ParsePrefixed([], u);
    assert "0x" + [] + u == "0x" + u && "0X" + [] + u == "0X" + u;
  }

  /** After one sign, with or without a prefix, no digit gives NaN, whatever
      non-digit follows: another sign or whitespace is not read either. */
  lemma ParseSignedNoDigit(sign: string, p: string, u: string)
    requires sign == "+" || sign == "-"
    requires p == "" || p == "0x" || p == "0X"
    requires u == [] || !IsHexDigit(u[0])
    ensures ParseInt16(sign + p + u) == None
  {
    var s := sign + p + u;
    assert s[0] == sign[0];
    assert TrimStart(s) == s;
    assert s[1..] == p + u;
    if p == "" {
      assert p + u == u;
    } else {
      assert (p + u)[0] == '0' && (p + u)[1] == p[1] && (p + u)[2..] == u;
    }
    assert StripHexPrefix(p + u) == u;
    assert HexRunLength(u) == 0;
  }

  lemma NaNWithPrefix(ws: string, sign: string, p: string, u: string)
    requires AllWhitespace(ws)
    requires sign == "" || sign == "+" || sign == "-"
    requires p == "" || p == "0x" || p == "0X"
    requires u == [] || !IsHexDigit(u[0])
    requires p != "" || sign != "" || u == [] || (!IsWhitespace(u[0]) && u[0] != '+' && u[0] != '-')
    ensures ParseInt16(ws + sign + p + u) == None
  {
    assert ws + sign + p + u == ws + (sign + p + u);
    ParseSkipsWhitespace(ws, sign + p + u);
    if sign != "" {
      ParseSignedNoDigit(sign, p, u);
    } else if p == "" {
      assert sign + p + u == u;
      ParseNaNUnsigned(u);
    } else {
      assert sign + p + u == p + [] + u;
      ParseWithPrefix(p, [], u);
    }
  }

  /** No digit right after the whitespace, the one sign and the optional
      prefix: `parseInt` gives NaN. Without sign and prefix, what follows must
      not itself be whitespace or a sign, which would be read in their place. */
  lemma ParseNaN(ws: string, sign: string, u: string)
    requires AllWhitespace(ws)
    requires sign == "" || sign == "+" || sign == "-"
    requires u == [] || !IsHexDigit(u[0])
    ensures (sign != "" || u == [] || (!IsWhitespace(u[0]) && u[0] != '+' && u[0] != '-')) ==>
      ParseInt16(ws + sign + u) == None
    ensures ParseInt16(ws + sign + "0x" + u) == None
    ensures ParseInt16(ws + sign + "0X" + u) == None
  {
    if sign != "" || u == [] || (!IsWhitespace(u[0]) && u[0] != '+' && u[0] != '-') {
      NaNWithPrefix(ws, sign, "", u);
      assert ws + sign + "" + u == ws + sign + u;
    }
    NaNWithPrefix(ws, sign, "0x", u);
    NaNWithPrefix(ws, sign, "0X", u);
  }

  /** `- 5`: no whitespace is skipped after the sign. */
  lemma SignThenSpaceIsNaN()
    ensures ParseInt16("- 5") == None
  {
    ParseNaN("", "-", " 5");
    assert "" + "-" + " 5" == "- 5";
  }

  /** `+-5`: only one sign is read. */
  lemma DoubleSignIsNaN()
    ensures ParseInt16("+-5") == None
  {
    ParseNaN("", "+", "-5");
    assert "" + "+" + "-5" == "+-5";
  }

  /** A channel that reads as NaN makes the text white. */
  lemma NaNChannelGivesWhite(hex: string, k: nat)
    requires hex != [] && hex[0] == '#' && k < 3
    requires Channel(hex, k) == None
    ensures GetContrastColor(hex) == TextWhite
  {
    if k == 0 {
      assert Channel(hex, 0) == None;
    } else if k == 1 {
      assert Channel(hex, 1) == None;
    } else {
      assert Channel(hex, 2) == None;
    }
  }

  /** `#0x0000`: the red slice is the bare prefix `0x`, which reads as NaN. */
  lemma PrefixOnlyChannelGivesWhite()
    ensures GetContrastColor("#0x0000") == TextWhite
  {
    assert ChannelSlice("#0x0000", 0) == "0x";
    ParseNaN("", "", "");
    assert "" + "" + "0x" + "" == "0x";
    NaNChannelGivesWhite("#0x0000", 0);
  }

  /** `#x5FFFF`: the red slice `x5` starts with a letter that is no hex digit. */
  lemma LetterFirstChannelGivesWhite()
    ensures GetContrastColor("#x5FFFF") == TextWhite
  {
    assert ChannelSlice("#x5FFFF", 0) == "x5";
    ParseNaN("", "", "x5");
    assert "" + "" + "x5" == "x5";
    NaNChannelGivesWhite("#x5FFFF", 0);
  }

  /** A channel slice with no hex digit in it reads as NaN, which makes the text white. */
  lemma DigitlessChannelGivesWhite(hex: string, k: nat)
    requires hex != [] && hex[0] == '#' && k < 3
    requires NoHexDigit(ChannelSlice(hex, k))
    ensures GetContrastColor(hex) == TextWhite
  {
    DigitlessIsNaN(ChannelSlice(hex, k));
    NaNChannelGivesWhite(hex, k);
  }

  /** `#` followed by at most four characters (`#`, the shorthand `#FFF`, ...)
      leaves the blue slice empty, so the text is white. */
  lemma ShortHexGivesWhite(hex: string)
    requires hex != [] && hex[0] == '#' && |hex| <= 5
    ensures GetContrastColor(hex) == TextWhite
  {
    assert ChannelSlice(hex, 2) == [];
    DigitlessChannelGivesWhite(hex, 2);
  }

  lemma ShorthandWhiteGetsWhiteText()
    ensures GetContrastColor("#FFF") == TextWhite
  {
    ShortHexGivesWhite("#FFF");
  }

  /** Only the characters at positions 0..6 matter. */
  lemma ContrastIgnoresTail(hex: string, tail: string)
    requires |hex| >= 7
    ensures GetContrastColor(hex + tail) == GetContrastColor(hex)
  {
    var ext := hex + tail;
    assert ext[0] == hex[0];
    forall k: nat | k < 3 ensures ChannelSlice(ext, k) == ChannelSlice(hex, k) {
      assert ext[2 * k + 1..2 * k + 3] == hex[2 * k + 1..2 * k + 3];
    }
  }

  // ---------------------------------------------------------------------
  // Letter case

  /** ASCII lower-casing. */
  function FoldCase(c: char): (d: char)
    ensures 'A' <= c <= 'Z' ==> 'a' <= d <= 'z'
    ensures !('A' <= c <= 'Z') ==> d == c
  {
    if 'A' <= c <= 'Z' then (c as int + 32) as char else c
  }

  /** Equal up to the case of ASCII letters. */
  predicate SameUpToCase(s: string, t: string) {
    |s| == |t| && forall i :: 0 <= i < |s| ==> FoldCase(s[i]) == FoldCase(t[i])
  }

  lemma CharUpToCase(c: char, d: char)
    requires FoldCase(c) == FoldCase(d)
    ensures IsWhitespace(c) == IsWhitespace(d) && IsHexDigit(c) == IsHexDigit(d)
    ensures IsHexDigit(c) ==> DigitValue(c) == DigitValue(d)
    ensures (c == '#') == (d == '#') && (c == '+') == (d == '+') && (c == '-') == (d == '-')
    ensures (c == '0') == (d == '0') && (c == 'x' || c == 'X') == (d == 'x' || d == 'X')
  {
  }

  lemma SliceUpToCase(s: string, t: string, i: nat, j: nat)
    requires SameUpToCase(s, t) && i <= j <= |s|
    ensures SameUpToCase(s[i..j], t[i..j])
  {
    forall k | 0 <= k < j - i ensures FoldCase(s[i..j][k]) == FoldCase(t[i..j][k]) {
      assert s[i..j][k] == s[i + k] && t[i..j][k] == t[i + k];
    }
  }

  lemma {:induction false} TrimStartUpToCase(s: string, t: string)
    requires SameUpToCase(s, t)
    ensures SameUpToCase(TrimStart(s), TrimStart(t))
  {
    if s != [] {
      CharUpToCase(s[0], t[0]);
      if IsWhitespace(s[0]) {
        SliceUpToCase(s, t, 1, |s|);
        TrimStartUpToCase(s[1..], t[1..]);
      }
    }
  }

  lemma {:induction false} HexRunUpToCase(s: string, t: string)
    requires SameUpToCase(s, t)
    ensures HexRunLength(s) == HexRunLength(t)
  {
    if s != [] {
      CharUpToCase(s[0], t[0]);
      if IsHexDigit(s[0]) {
        SliceUpToCase(s, t, 1, |s|);
        HexRunUpToCase(s[1..], t[1..]);
      }
    }
  }

  lemma {:induction false} HexValueUpToCase(s: string, t: string)
    requires SameUpToCase(s, t) && AllHexDigits(s) && AllHexDigits(t)
    ensures HexValue(s) == HexValue(t)
  {
    if s != [] {
      var n := |s| - 1;
      CharUpToCase(s[n], t[n]);
      SliceUpToCase(s, t, 0, n);
      HexValueUpToCase(s[..n], t[..n]);
    }
  }

  lemma StripSignUpToCase(t: string, t': string)
    requires SameUpToCase(t, t')
    ensures SameUpToCase(StripSign(t), StripSign(t'))
  {
    if t != [] {
      CharUpToCase(t[0], t'[0]);
      SliceUpToCase(t, t', 1, |t|);
    }
  }

  lemma StripHexPrefixUpToCase(u: string, u': string)
    requires SameUpToCase(u, u')
    ensures SameUpToCase(StripHexPrefix(u), StripHexPrefix(u'))
  {
    if |u| >= 2 {
      CharUpToCase(u[0], u'[0]);
      CharUpToCase(u[1], u'[1]);
      SliceUpToCase(u, u', 2, |u|);
    }
  }

  lemma ParseUpToCase(s: string, s': string)
    requires SameUpToCase(s, s')
    ensures ParseInt16(s) == ParseInt16(s')
  {
    var t, t' := TrimStart(s), TrimStart(s');
    TrimStartUpToCase(s, s');
    if t != [] {
      CharUpToCase(t[0], t'[0]);
    }
    StripSignUpToCase(t, t');
    var d, d' := StripHexPrefix(StripSign(t)), StripHexPrefix(StripSign(t'));
    StripHexPrefixUpToCase(StripSign(t), StripSign(t'));
    HexRunUpToCase(d, d');
    var n := HexRunLength(d);
    SliceUpToCase(d, d', 0, n);
    if n > 0 {
      HexValueUpToCase(d[..n], d'[..n]);
    }
  }

  lemma SubstringUpToCase(s: string, t: string, start: int, end: int)
    requires SameUpToCase(s, t)
    ensures SameUpToCase(Substring(s, start, end), Substring(t, start, end))
  {
    var a, b := Clamp(start, |s|), Clamp(end, |s|);
    if a <= b {
      SliceUpToCase(s, t, a, b);
    } else {
      SliceUpToCase(s, t, b, a);
    }
  }

  /** Hex digits are read case-insensitively: changing the case of any ASCII
      letters of the input never changes the chosen text color. */
  lemma ContrastCaseInsensitive(hex: string, other: string)
    requires SameUpToCase(hex, other)
    ensures GetContrastColor(hex) == GetContrastColor(other)
  {
    if hex != [] {
      CharUpToCase(hex[0], other[0]);
      SubstringUpToCase(hex, other, 1, |hex|);
      forall k: nat | k < 3 ensures Channel(hex, k) == Channel(other, k) {
        SubstringUpToCase(Substring(hex, 1, |hex|), Substring(other, 1, |other|), 2 * k, 2 * k + 2);
        ParseUpToCase(ChannelSlice(hex, k), ChannelSlice(other, k));
      }
    }
  }

  lemma LowerAndUpperCaseAgree()
    ensures GetContrastColor("#abcdef") == GetContrastColor("#ABCDEF")
  {
    ContrastCaseInsensitive("#abcdef", "#ABCDEF");
  }
}
