/** The colour value of the engine (ColorEntry): validated RGB components, an alpha in
    [0, 1], an optional name, the "#RRGGBB" code with its parser (which also takes "RRGGBB"
    and the "#RGB" shorthand), the HSL view over the reals, and the abstract LAB space that
    every colour distance of the engine is measured in. */
module ColorModel {
  import opened Wrappers

  // ---------------------------------------------------------------------------------------
  // Values
  // ---------------------------------------------------------------------------------------

  datatype Rgb = Rgb(red: int, green: int, blue: int)

  /** What a ColorEntry holds: alpha is 1.0 unless a constructor sets it, name may be null. */
  datatype Color = Color(rgb: Rgb, alpha: real, name: Option<string>)

  datatype Component = Red | Green | Blue

  datatype ColorError =
    | ComponentOutOfRange(component: Component, value: int)
    | AlphaOutOfRange(alpha: real)
    | HexNullOrEmpty
    | HexBadLength(hex: string)
    | HexBadDigits(hex: string)

  const DefaultAlpha: real := 1.0

  predicate InByteRange(v: int)
  {
    0 <= v <= 255
  }

  predicate ValidRgb(c: Rgb)
  {
    InByteRange(c.red) && InByteRange(c.green) && InByteRange(c.blue)
  }

  predicate ValidAlpha(a: real)
  {
    0.0 <= a <= 1.0
  }

  predicate ValidColor(c: Color)
  {
    ValidRgb(c.rgb) && ValidAlpha(c.alpha)
  }

  /** setRGB's three validateRGBValue calls: red first, then green, then blue. */
  function ValidateRgb(red: int, green: int, blue: int): (o: Outcome<ColorError>)
    ensures o.Pass? <==> ValidRgb(Rgb(red, green, blue))
    ensures !InByteRange(red) ==> o == Fail(ComponentOutOfRange(Red, red))
    ensures InByteRange(red) && !InByteRange(green) ==> o == Fail(ComponentOutOfRange(Green, green))
    ensures InByteRange(red) && InByteRange(green) && !InByteRange(blue) ==> o == Fail(ComponentOutOfRange(Blue, blue))
  {
    if !InByteRange(red) then Fail(ComponentOutOfRange(Red, red))
    else if !InByteRange(green) then Fail(ComponentOutOfRange(Green, green))
    else if !InByteRange(blue) then Fail(ComponentOutOfRange(Blue, blue))
    else Pass
  }

  /** setAlpha: everything outside [0.0, 1.0] is refused. */
  function ValidateAlpha(alpha: real): (o: Outcome<ColorError>)
    ensures o.Pass? <==> ValidAlpha(alpha)
    ensures o.Fail? ==> o.error == AlphaOutOfRange(alpha)
  {
    if alpha < 0.0 || alpha > 1.0 then Fail(AlphaOutOfRange(alpha)) else Pass
  }

  /** The value the five-argument constructor builds: setRGB, then setAlpha, then the name.
      The shorter constructors pass a null name and alpha 1.0. */
  function NewColor(red: int, green: int, blue: int, name: Option<string>, alpha: real): (r: Result<Color, ColorError>)
    ensures r.Success? <==> ValidRgb(Rgb(red, green, blue)) && ValidAlpha(alpha)
    ensures r.Success? ==> r.value == Color(Rgb(red, green, blue), alpha, name) && ValidColor(r.value)
    ensures !ValidRgb(Rgb(red, green, blue)) ==> r == Failure(ValidateRgb(red, green, blue).error)
    ensures ValidRgb(Rgb(red, green, blue)) && !ValidAlpha(alpha) ==> r == Failure(AlphaOutOfRange(alpha))
  {
    match ValidateRgb(red, green, blue)
    case Fail(e) => Failure(e)
    case Pass =>
      match ValidateAlpha(alpha)
      case Fail(e) => Failure(e)
      case Pass => Success(Color(Rgb(red, green, blue), alpha, name))
  }

  // ---------------------------------------------------------------------------------------
  // Hex code
  // ---------------------------------------------------------------------------------------

  /** The digits "%X" prints: 0-9 and upper-case A-F. */
  predicate IsUpperHexDigit(c: char)
  {
    '0' <= c <= '9' || 'A' <= c <= 'F'
  }

  /** The upper-case digit of a value below 16. */
  function HexChar(d: int): (c: char)
    requires 0 <= d < 16
    ensures IsUpperHexDigit(c)
  {
    if d < 10 then ('0' as int + d) as char else ('A' as int + d - 10) as char
  }

  /** Character.digit(c, 16) restricted to ASCII: 0-9, A-F and a-f. */
  function DigitValue(c: char): (d: Option<int>)
    ensures d.Some? <==> ('0' <= c <= '9' || 'A' <= c <= 'F' || 'a' <= c <= 'f')
    ensures d.Some? ==> 0 <= d.value < 16
  {
    if '0' <= c <= '9' then Some(c as int - '0' as int)
    else if 'A' <= c <= 'F' then Some(c as int - 'A' as int + 10)
    else if 'a' <= c <= 'f' then Some(c as int - 'a' as int + 10)
    else None
  }

  lemma HexDigitValue(i: int)
    requires 0 <= i < 16
    ensures DigitValue(HexChar(i)) == Some(i)
  {
  }

  /** Integer.parseInt(p, 16) on a two-character string: a leading '+' or '-' is a sign,
      otherwise both characters are digits. */
  function ParseHexPair(p: string): (v: Option<int>)
    requires |p| == 2
    ensures v.Some? ==> -15 <= v.value <= 255
    ensures p[0] != '+' && p[0] != '-' ==>
      (v.Some? <==> DigitValue(p[0]).Some? && DigitValue(p[1]).Some?)
    ensures (p[0] == '+' || p[0] == '-') ==> (v.Some? <==> DigitValue(p[1]).Some?)
  {
    if p[0] == '+' || p[0] == '-' then
      match DigitValue(p[1])
      case None => None
      case Some(d) => Some(if p[0] == '-' then -d else d)
    else
      match (DigitValue(p[0]), DigitValue(p[1]))
      case (Some(hi), Some(lo)) => Some(16 * hi + lo)
      case _ => None
  }

  /** String.format("%02X", v) for a byte. */
  function HexByte(v: int): (s: string)
    requires InByteRange(v)
    ensures |s| == 2 && IsUpperHexDigit(s[0]) && IsUpperHexDigit(s[1])
    ensures ParseHexPair(s) == Some(v)
  {
    HexDigitValue(v / 16);
    HexDigitValue(v % 16);
    [HexChar(v / 16), HexChar(v % 16)]
  }

  lemma PairAt(s: string, i: nat, v: int)
    requires InByteRange(v) && i + 2 <= |s| && s[i..i + 2] == HexByte(v)
    ensures ParseHexPair(s[i..i + 2]) == Some(v)
  {
  }

  /** getHex: '#' and six upper-case digits, two for each of red, green and blue. */
  function FormatHex(c: Rgb): (s: string)
    requires ValidRgb(c)
    ensures |s| == 7 && s[0] == '#'
    ensures forall i :: 1 <= i < 7 ==> IsUpperHexDigit(s[i])
    ensures ParseHexPair(s[1..3]) == Some(c.red)
    ensures ParseHexPair(s[3..5]) == Some(c.green)
    ensures ParseHexPair(s[5..7]) == Some(c.blue)
  {
    var s := "#" + HexByte(c.red) + HexByte(c.green) + HexByte(c.blue);
    PairAt(s, 1, c.red);
    PairAt(s, 3, c.green);
    PairAt(s, 5, c.blue);
    s
  }

  predicate IsSpace(c: char)
  {
    c <= ' '
  }

  /** The first index at or after i that holds no white space, or |s|. */
  function SkipSpaces(s: string, i: nat): (k: nat)
    requires i <= |s|
    ensures i <= k <= |s|
    ensures forall j :: i <= j < k ==> IsSpace(s[j])
    ensures k < |s| ==> !IsSpace(s[k])
    decreases |s| - i
  {
    if i < |s| && IsSpace(s[i]) then SkipSpaces(s, i + 1) else i
  }

  /** The end of s[lo..hi] once its trailing white space is dropped. */
  function SkipSpacesBack(s: string, lo: nat, hi: nat): (k: nat)
    requires lo <= hi <= |s|
    ensures lo <= k <= hi
    ensures forall j :: k <= j < hi ==> IsSpace(s[j])
    ensures lo < k ==> !IsSpace(s[k - 1])
    decreases hi
  {
    if lo < hi && IsSpace(s[hi - 1]) then SkipSpacesBack(s, lo, hi - 1) else hi
  }

  /** String.trim: strips the leading and trailing characters up to U+0020. */
  function Trim(s: string): (r: string)
    ensures r == [] <==> forall j :: 0 <= j < |s| ==> IsSpace(s[j])
    ensures r != [] ==> !IsSpace(r[0]) && !IsSpace(r[|r| - 1])
    ensures exists i, j ::
              && 0 <= i <= j <= |s| && r == s[i..j]
              && (forall k :: 0 <= k < i ==> IsSpace(s[k]))
              && (forall k :: j <= k < |s| ==> IsSpace(s[k]))
  {
    var start := SkipSpaces(s, 0);
    var end := SkipSpacesBack(s, start, |s|);
    var r := s[start..end];
    assert r != [] ==> r[0] == s[start] && r[|r| - 1] == s[end - 1];
    assert forall k :: end <= k < |s| ==> IsSpace(s[k]);
    r
  }

  lemma TrimNothing(s: string)
    requires forall k :: 0 <= k < |s| ==> !IsSpace(s[k])
    ensures Trim(s) == s
  {
  }

  /** The "#RGB" shorthand: each of the three characters doubled. */
  function ExpandShort(h: string): (r: string)
    requires |h| == 3
    ensures |r| == 6
    ensures r[0] == r[1] == h[0] && r[2] == r[3] == h[1] && r[4] == r[5] == h[2]
  {
    [h[0], h[0], h[1], h[1], h[2], h[2]]
  }

  /** The digits parseHexToRGB works on: the trimmed text less one leading '#', expanded
      when it is three characters long. */
  function HexBody(trimmed: string): string
  {
    var h := if |trimmed| > 0 && trimmed[0] == '#' then trimmed[1..] else trimmed;
    if |h| == 3 then ExpandShort(h) else h
  }

  /** The three Integer.parseInt calls on the pairs of a six-character body. */
  function ParseDigits(h: string): (c: Option<Rgb>)
    requires |h| == 6
    ensures c.Some? <==>
      ParseHexPair(h[0..2]).Some? && ParseHexPair(h[2..4]).Some? && ParseHexPair(h[4..6]).Some?
    ensures c.Some? ==> c.value == Rgb(ParseHexPair(h[0..2]).value, ParseHexPair(h[2..4]).value, ParseHexPair(h[4..6]).value)
  {
    match (ParseHexPair(h[0..2]), ParseHexPair(h[2..4]), ParseHexPair(h[4..6]))
    case (Some(red), Some(green), Some(blue)) => Some(Rgb(red, green, blue))
    case _ => None
  }

  /** parseHexToRGB. The components are not range-checked here: a signed pair such as "-F"
      gets through, and setRGB refuses it afterwards. */
  function ParseHexToRgb(hex: Option<string>): (r: Result<Rgb, ColorError>)
    ensures hex.None? ==> r == Failure(HexNullOrEmpty)
    ensures hex.Some? && Trim(hex.value) == [] ==> r == Failure(HexNullOrEmpty)
    ensures hex.Some? && Trim(hex.value) != [] && |HexBody(Trim(hex.value))| != 6 ==>
      r == Failure(HexBadLength(hex.value))
    ensures hex.Some? && Trim(hex.value) != [] && |HexBody(Trim(hex.value))| == 6 ==>
      r == (match ParseDigits(HexBody(Trim(hex.value)))
            case Some(c) => Success(c)
            case None => Failure(HexBadDigits(hex.value)))
    ensures r.Success? ==> -15 <= r.value.red <= 255 && -15 <= r.value.green <= 255 && -15 <= r.value.blue <= 255
  {
    match hex
    case None => Failure(HexNullOrEmpty)
    case Some(text) =>
      var trimmed := Trim(text);
      if trimmed == [] then Failure(HexNullOrEmpty)
      else
        var h := HexBody(trimmed);
        if |h| != 6 then Failure(HexBadLength(text))
        else
          match ParseDigits(h)
          case Some(c) => Success(c)
          case None => Failure(HexBadDigits(text))
  }

  /** The hex constructors and setHex: parse, then the setRGB validation. */
  function RgbFromHex(hex: Option<string>): (r: Result<Rgb, ColorError>)
    ensures r.Success? <==> ParseHexToRgb(hex).Success? && ValidRgb(ParseHexToRgb(hex).value)
    ensures r.Success? ==> r.value == ParseHexToRgb(hex).value
    ensures ParseHexToRgb(hex).Failure? ==> r == ParseHexToRgb(hex)
  {
    match ParseHexToRgb(hex)
    case Failure(e) => Failure(e)
    case Success(c) =>
      match ValidateRgb(c.red, c.green, c.blue)
      case Fail(e) => Failure(e)
      case Pass => Success(c)
  }

  /** Parsing what getHex prints gives back the colour. */
  lemma {:induction false} HexRoundTrip(c: Rgb)
    requires ValidRgb(c)
    ensures ParseHexToRgb(Some(FormatHex(c))) == Success(c)
    ensures RgbFromHex(Some(FormatHex(c))) == Success(c)
  {
    var s := FormatHex(c);
    assert forall k :: 0 <= k < |s| ==> !IsSpace(s[k]);
    TrimNothing(s);
    var h := HexBody(s);
    assert h == s[1..];
    assert h[0..2] == s[1..3] && h[2..4] == s[3..5] && h[4..6] == s[5..7];
    assert ParseDigits(h) == Some(c);
  }

  predicate IsCanonicalHex(s: string)
  {
    |s| == 7 && s[0] == '#' && forall i :: 1 <= i < 7 ==> IsUpperHexDigit(s[i])
  }

  lemma HexPairCanonical(p: string)
    requires |p| == 2 && IsUpperHexDigit(p[0]) && IsUpperHexDigit(p[1])
    ensures ParseHexPair(p).Some? && InByteRange(ParseHexPair(p).value)
    ensures HexByte(ParseHexPair(p).value) == p
  {
    var hi := DigitValue(p[0]).value;
    var lo := DigitValue(p[1]).value;
    assert ParseHexPair(p).value == 16 * hi + lo;
    HexByteDigits(hi, lo);
    DigitChar(p[0]);
    DigitChar(p[1]);
    assert p == [p[0], p[1]];
  }

  /** The two digits getHex prints for a byte are its high and low nibbles. */
  lemma HexByteDigits(hi: int, lo: int)
    requires 0 <= hi < 16 && 0 <= lo < 16
    ensures HexByte(16 * hi + lo) == [HexChar(hi), HexChar(lo)]
  {
    assert (16 * hi + lo) / 16 == hi && (16 * hi + lo) % 16 == lo;
  }

  /** An upper-case digit is printed back as itself. */
  lemma DigitChar(c: char)
    requires IsUpperHexDigit(c)
    ensures HexChar(DigitValue(c).value) == c
  {
  }

  /** The other direction: every canonical "#RRGGBB" code is what getHex prints for the
      colour it parses to, so the printed form is unique. */
  lemma {:induction false} CanonicalHexRoundTrip(s: string)
    requires IsCanonicalHex(s)
    ensures RgbFromHex(Some(s)).Success?
    ensures FormatHex(RgbFromHex(Some(s)).value) == s
  {
    HexPairCanonical(s[1..3]);
    HexPairCanonical(s[3..5]);
    HexPairCanonical(s[5..7]);
    var c := Rgb(ParseHexPair(s[1..3]).value, ParseHexPair(s[3..5]).value, ParseHexPair(s[5..7]).value);
    FormatIs(c, s);
    HexRoundTrip(c);
  }

  /** Two upper-case pairs with the same value are the same text. */
  lemma SamePair(p: string, q: string)
    requires |p| == 2 && IsUpperHexDigit(p[0]) && IsUpperHexDigit(p[1])
    requires |q| == 2 && IsUpperHexDigit(q[0]) && IsUpperHexDigit(q[1])
    requires ParseHexPair(p) == ParseHexPair(q)
    ensures p == q
  {
    HexPairCanonical(p);
    HexPairCanonical(q);
  }

  lemma SameCode(s: string, t: string)
    requires |s| == 7 && |t| == 7 && s[0] == t[0]
    requires s[1..3] == t[1..3] && s[3..5] == t[3..5] && s[5..7] == t[5..7]
    ensures s == t
  {
    assert s[1] == s[1..3][0] && s[2] == s[1..3][1];
    assert s[3] == s[3..5][0] && s[4] == s[3..5][1];
    assert s[5] == s[5..7][0] && s[6] == s[5..7][1];
    assert t[1] == t[1..3][0] && t[2] == t[1..3][1];
    assert t[3] == t[3..5][0] && t[4] == t[3..5][1];
    assert t[5] == t[5..7][0] && t[6] == t[5..7][1];
  }

  /** Only the digits left after trimming, dropping the '#' and expanding decide the
      outcome of a parse that gets as far as the digits. */
  lemma SameDigitsSameColor(s: string, t: string)
    requires Trim(s) != [] && Trim(t) != []
    requires HexBody(Trim(s)) == HexBody(Trim(t)) && |HexBody(Trim(s))| == 6
    ensures ParseHexToRgb(Some(s)).Success? == ParseHexToRgb(Some(t)).Success?
    ensures ParseHexToRgb(Some(s)).Success? ==> ParseHexToRgb(Some(s)).value == ParseHexToRgb(Some(t)).value
  {
  }

  lemma TrimCode(d: string)
    requires forall k :: 0 <= k < |d| ==> !IsSpace(d[k])
    ensures Trim("#" + d) == "#" + d
  {
    var code := "#" + d;
    assert forall k :: 0 <= k < |code| ==> !IsSpace(code[k]);
    TrimNothing(code);
  }

  /** The digits of "#" + d, for d of three characters and no white space. */
  lemma {:induction false} ShortCodeDigits(d: string)
    requires |d| == 3 && forall k :: 0 <= k < |d| ==> !IsSpace(d[k])
    ensures Trim("#" + d) != []
    ensures HexBody(Trim("#" + d)) == ExpandShort(d)
  {
    TrimCode(d);
    assert ("#" + d)[1..] == d;
  }

  /** The digits of "#" + d, for d of six characters and no white space. */
  lemma {:induction false} LongCodeDigits(d: string)
    requires |d| == 6 && forall k :: 0 <= k < |d| ==> !IsSpace(d[k])
    ensures Trim("#" + d) != []
    ensures HexBody(Trim("#" + d)) == d
  {
    TrimCode(d);
    assert ("#" + d)[1..] == d;
  }

  /** "#RGB" reads as "#RRGGBB". */
  lemma {:induction false} ShorthandMeansDoubled(d: string)
    requires |d| == 3 && forall k :: 0 <= k < 3 ==> !IsSpace(d[k])
    ensures RgbFromHex(Some("#" + d)).Success? == RgbFromHex(Some("#" + ExpandShort(d))).Success?
    ensures RgbFromHex(Some("#" + d)).Success? ==>
      RgbFromHex(Some("#" + d)).value == RgbFromHex(Some("#" + ExpandShort(d))).value
  {
    var long := ExpandShort(d);
    assert forall k :: 0 <= k < 6 ==> !IsSpace(long[k]) by {
      assert long[0] == long[1] == d[0] && long[2] == long[3] == d[1] && long[4] == long[5] == d[2];
    }
    ShortCodeDigits(d);
    LongCodeDigits(long);
    SameDigitsSameColor("#" + d, "#" + long);
  }

  /** getHex(171, 205, 239) is "#ABCDEF". */
  lemma FormatExampleLong()
    ensures FormatHex(Rgb(171, 205, 239)) == "#ABCDEF"
  {
    FormatParts(Rgb(171, 205, 239));
    HexByteDigits(10, 11);
    HexByteDigits(12, 13);
    HexByteDigits(14, 15);
  }

  /** getHex(0, 0, 255) is "#0000FF". */
  lemma FormatExampleBlue()
    ensures FormatHex(Rgb(0, 0, 255)) == "#0000FF"
  {
    FormatParts(Rgb(0, 0, 255));
    HexByteDigits(0, 0);
    HexByteDigits(15, 15);
  }

  /** getHex(0, 255, 0) is "#00FF00". */
  lemma FormatExampleGreen()
    ensures FormatHex(Rgb(0, 255, 0)) == "#00FF00"
  {
    FormatParts(Rgb(0, 255, 0));
    HexByteDigits(0, 0);
    HexByteDigits(15, 15);
  }

  lemma FormatParts(c: Rgb)
    requires ValidRgb(c)
    ensures FormatHex(c) == "#" + HexByte(c.red) + HexByte(c.green) + HexByte(c.blue)
  {
  }

  /** getHex prints the one canonical code whose pairs parse to the colour's components. */
  lemma FormatIs(c: Rgb, s: string)
    requires ValidRgb(c) && IsCanonicalHex(s)
    requires ParseHexPair(s[1..3]) == Some(c.red)
    requires ParseHexPair(s[3..5]) == Some(c.green)
    requires ParseHexPair(s[5..7]) == Some(c.blue)
    ensures FormatHex(c) == s
  {
    var t := FormatHex(c);
    SamePair(s[1..3], t[1..3]);
    SamePair(s[3..5], t[3..5]);
    SamePair(s[5..7], t[5..7]);
    SameCode(s, t);
  }

  /** setHex("#ABCDEF") gives 171, 205, 239. */
  lemma HexExampleLong()
    ensures RgbFromHex(Some("#ABCDEF")) == Success(Rgb(171, 205, 239))
  {
    FormatExampleLong();
    HexRoundTrip(Rgb(171, 205, 239));
  }

  /** "#00F" is the shorthand of "#0000FF". */
  lemma HexExampleShort()
    ensures RgbFromHex(Some("#00F")) == Success(Rgb(0, 0, 255))
  {
    assert "#" + "00F" == "#00F";
    assert ExpandShort("00F") == "0000FF";
    assert "#" + ExpandShort("00F") == "#0000FF";
    ShorthandMeansDoubled("00F");
    FormatExampleBlue();
    HexRoundTrip(Rgb(0, 0, 255));
  }

  /** Surrounding white space and a missing '#' are accepted. */
  /** Trimming " 00FF00\n" leaves the six digits. */
  lemma TrimBare()
    ensures Trim(" 00FF00\n") == "00FF00"
  {
    var bare := " 00FF00\n";
    assert SkipSpaces(bare, 0) == 1;
    assert SkipSpacesBack(bare, 1, 8) == 7;
    assert bare[1..7] == "00FF00";
  }

  /** " 00FF00\n" reads the same digits as "#00FF00". */
  lemma BareReadsAsHashed()
    ensures ParseHexToRgb(Some(" 00FF00\n")).Success? == ParseHexToRgb(Some("#00FF00")).Success?
    ensures ParseHexToRgb(Some(" 00FF00\n")).Success? ==>
      ParseHexToRgb(Some(" 00FF00\n")).value == ParseHexToRgb(Some("#00FF00")).value
  {
    TrimBare();
    TrimGreen();
    assert HexBody("00FF00") == "00FF00";
    assert HexBody("#00FF00") == "#00FF00"[1..] == "00FF00";
    SameDigitsSameColor(" 00FF00\n", "#00FF00");
  }

  /** "#00FF00" has nothing to trim. */
  lemma TrimGreen()
    ensures Trim("#00FF00") == "#00FF00"
  {
    var code := "#00FF00";
    assert SkipSpaces(code, 0) == 0;
    assert SkipSpacesBack(code, 0, 7) == 7;
    assert code[0..7] == code;
  }

  lemma HexExampleBare()
    ensures RgbFromHex(Some(" 00FF00\n")) == Success(Rgb(0, 255, 0))
  {
    BareReadsAsHashed();
    FormatExampleGreen();
    HexRoundTrip(Rgb(0, 255, 0));
  }

  lemma HexRejectsNull()
    ensures RgbFromHex(None) == Failure(HexNullOrEmpty)
  {
  }

  lemma HexRejectsBlank()
    ensures RgbFromHex(Some(" \t ")) == Failure(HexNullOrEmpty)
  {
    assert forall j :: 0 <= j < 3 ==> IsSpace(" \t "[j]);
  }

  /** Four digits after the '#': neither the short nor the long form. */
  lemma HexRejectsFourDigits()
    ensures RgbFromHex(Some("#1234")) == Failure(HexBadLength("#1234"))
  {
    TrimNothing("#1234");
    assert HexBody("#1234") == "1234";
  }

  /** Only one '#' is dropped. */
  lemma HexRejectsDoubleHash()
    ensures RgbFromHex(Some("##FFF")) == Failure(HexBadLength("##FFF"))
  {
    TrimNothing("##FFF");
    assert HexBody("##FFF") == "#FFF";
  }

  lemma HexRejectsDigits()
    ensures RgbFromHex(Some("#GG0000")) == Failure(HexBadDigits("#GG0000"))
  {
    TrimNothing("#GG0000");
    assert HexBody("#GG0000")[0..2] == "GG";
  }

  /** Integer.parseInt reads "+F" as 15, so "+F+F+F" is a valid code. */
  lemma HexAcceptsPlusSign()
    ensures RgbFromHex(Some("+F+F+F")) == Success(Rgb(15, 15, 15))
  {
    TrimNothing("+F+F+F");
    var h := HexBody("+F+F+F");
    assert h[0..2] == "+F" && h[2..4] == "+F" && h[4..6] == "+F";
  }

  /** "-F" parses to -15, which only the range check of setRGB then refuses. */
  lemma HexMinusSignCaughtByRange()
    ensures ParseHexToRgb(Some("-F0000")) == Success(Rgb(-15, 0, 0))
    ensures RgbFromHex(Some("-F0000")) == Failure(ComponentOutOfRange(Red, -15))
  {
    TrimNothing("-F0000");
    var h := HexBody("-F0000");
    assert h == "-F0000";
    assert h[0..2] == "-F" && h[2..4] == "00" && h[4..6] == "00";
  }

  // ---------------------------------------------------------------------------------------
  // HSL
  // ---------------------------------------------------------------------------------------

  /** Hue in degrees, saturation and lightness in percent. */
  datatype Hsl = Hsl(hue: real, saturation: real, lightness: real)

  function Max(x: real, y: real): real { if x >= y then x else y }

  function Min(x: real, y: real): real { if x <= y then x else y }

  function Unit(v: int): real { v as real / 255.0 }

  /** The hue sector in [0, 6) of a chromatic colour whose largest channel is max. */
  function HueSector(r: real, g: real, b: real, max: real, delta: real): real
    requires delta != 0.0
  {
    if max == r then (g - b) / delta + (if g < b then 6.0 else 0.0)
    else if max == g then (b - r) / delta + 2.0
    else (r - g) / delta + 4.0
  }

  /** Saturation as a fraction: the spread over the lightness-dependent denominator. */
  function Saturation(max: real, min: real): real
    requires 0.0 <= min < max <= 1.0
  {
    var delta := max - min;
    if (max + min) / 2.0 > 0.5 then delta / (2.0 - max - min) else delta / (max + min)
  }

  /** getHSL: the hexcone formula on the channels scaled to [0, 1]. */
  function HslOf(c: Rgb): Hsl
    requires ValidRgb(c)
  {
    var r, g, b := Unit(c.red), Unit(c.green), Unit(c.blue);
    var max := Max(r, Max(g, b));
    var min := Min(r, Min(g, b));
    var l := (max + min) / 2.0;
    if max - min == 0.0 then Hsl(0.0, 0.0, l * 100.0)
    else Hsl(HueSector(r, g, b, max, max - min) / 6.0 * 360.0, Saturation(max, min) * 100.0, l * 100.0)
  }

  /** Greys have no hue and no saturation; their lightness is the channel's share of 255. */
  lemma HslAchromatic(v: int)
    requires InByteRange(v)
    ensures HslOf(Rgb(v, v, v)) == Hsl(0.0, 0.0, v as real / 255.0 * 100.0)
  {
  }

  lemma DivWithin(x: real, d: real)
    requires 0.0 < d && -d <= x <= d
    ensures -1.0 <= x / d <= 1.0
  {
  }

  lemma DivBelowOne(x: real, d: real)
    requires 0.0 < d && x < d
    ensures x / d < 1.0
  {
    assert x / d * d == x;
  }

  lemma {:induction false} HueSectorRange(r: real, g: real, b: real)
    requires 0.0 <= r <= 1.0 && 0.0 <= g <= 1.0 && 0.0 <= b <= 1.0
    requires Max(r, Max(g, b)) - Min(r, Min(g, b)) != 0.0
    ensures 0.0 <= HueSector(r, g, b, Max(r, Max(g, b)), Max(r, Max(g, b)) - Min(r, Min(g, b))) < 6.0
  {
    var max := Max(r, Max(g, b));
    var min := Min(r, Min(g, b));
    var delta := max - min;
    assert delta > 0.0;
    if max == r {
      DivWithin(g - b, delta);
      if g < b {
        assert (g - b) / delta < 0.0;
      }
    } else if max == g {
      DivWithin(b - r, delta);
    } else {
      assert max == b && b > r && min <= g;
      DivWithin(r - g, delta);
      DivBelowOne(r - g, delta);
    }
  }

  lemma {:induction false} SaturationRange(max: real, min: real)
    requires 0.0 <= min < max <= 1.0
    ensures 0.0 <= Saturation(max, min) <= 1.0
  {
    var delta := max - min;
    if (max + min) / 2.0 > 0.5 {
      DivWithin(delta, 2.0 - max - min);
    } else {
      DivWithin(delta, max + min);
    }
  }

  /** Hue in [0, 360), saturation and lightness in [0, 100]. */
  lemma {:induction false} HslBounds(c: Rgb)
    requires ValidRgb(c)
    ensures 0.0 <= HslOf(c).hue < 360.0
    ensures 0.0 <= HslOf(c).saturation <= 100.0
    ensures 0.0 <= HslOf(c).lightness <= 100.0
  {
    var r, g, b := Unit(c.red), Unit(c.green), Unit(c.blue);
    var max := Max(r, Max(g, b));
    var min := Min(r, Min(g, b));
    if max - min != 0.0 {
      HueSectorRange(r, g, b);
      SaturationRange(max, min);
    }
  }

  // ---------------------------------------------------------------------------------------
  // LAB space and Delta E
  // ---------------------------------------------------------------------------------------

  datatype Lab = Lab(l: real, a: real, b: real)

  /** The floating-point colour science the engine calls but the model leaves abstract:
      getLAB (toLab), ColorEntry.fromLAB (fromLab) and Math.sqrt (sqrt). */
  datatype ColorSpace = ColorSpace(toLab: Rgb -> Lab, fromLab: Lab -> Color, sqrt: real -> real)

  function SquaredLabDistance(p: Lab, q: Lab): (d: real)
    ensures d >= 0.0
    ensures p == q ==> d == 0.0
  {
    (p.l - q.l) * (p.l - q.l) + (p.a - q.a) * (p.a - q.a) + (p.b - q.b) * (p.b - q.b)
  }

  /** calculateLabDistance: Euclidean distance between two LAB points. */
  function LabDistance(cs: ColorSpace, p: Lab, q: Lab): real
  {
    cs.sqrt(SquaredLabDistance(p, q))
  }

  /** CIE76 Delta E between two colours: the LAB distance of their RGB values. */
  function DeltaE(cs: ColorSpace, c1: Color, c2: Color): real
  {
    LabDistance(cs, cs.toLab(c1.rgb), cs.toLab(c2.rgb))
  }

  lemma {:induction false} LabDistanceSymmetric(cs: ColorSpace, p: Lab, q: Lab)
    ensures LabDistance(cs, p, q) == LabDistance(cs, q, p)
  {
    assert (p.l - q.l) * (p.l - q.l) == (q.l - p.l) * (q.l - p.l);
    assert (p.a - q.a) * (p.a - q.a) == (q.a - p.a) * (q.a - p.a);
    assert (p.b - q.b) * (p.b - q.b) == (q.b - p.b) * (q.b - p.b);
  }

  /** Delta E does not depend on the order of its arguments, nor on alpha or name. */
  lemma {:induction false} DeltaESymmetric(cs: ColorSpace, c1: Color, c2: Color)
    ensures DeltaE(cs, c1, c2) == DeltaE(cs, c2, c1)
  {
    LabDistanceSymmetric(cs, cs.toLab(c1.rgb), cs.toLab(c2.rgb));
  }

  // ---------------------------------------------------------------------------------------
  // The mutable ColorEntry
  // ---------------------------------------------------------------------------------------

  /** A ColorEntry object: RGB is the source of truth, the hex, HSL and LAB views are
      cached on first use and dropped whenever the RGB changes. */
  class ColorEntry {
    var red: int
    var green: int
    var blue: int
    var alpha: real
    var name: Option<string>
    var cachedHex: Option<string>
    var cachedHsl: Option<Hsl>
    var cachedLab: Option<Lab>

    function Components(): Rgb
      reads this
    {
      Rgb(red, green, blue)
    }

    function Value(): Color
      reads this
    {
      Color(Components(), alpha, name)
    }

    /** The fields are in range and every cached view agrees with the RGB. */
    predicate Valid()
      reads this
    {
      ValidColor(Value())
      && (cachedHex.Some? ==> cachedHex.value == FormatHex(Components()))
      && (cachedHsl.Some? ==> cachedHsl.value == HslOf(Components()))
    }

    constructor Init(c: Color)
      requires ValidColor(c)
      ensures Valid() && Value() == c
      ensures cachedHex.None? && cachedHsl.None? && cachedLab.None?
    {
      red, green, blue := c.rgb.red, c.rgb.green, c.rgb.blue;
      alpha := c.alpha;
      name := c.name;
      cachedHex, cachedHsl, cachedLab := None, None, None;
    }

    /** ColorEntry(red, green, blue, name, alpha); the shorter overloads pass a null name
        and alpha 1.0. An IllegalArgumentException becomes a Failure. */
    static method Of(red: int, green: int, blue: int, name: Option<string>, alpha: real)
      returns (r: Result<ColorEntry, ColorError>)
      ensures r.Success? <==> NewColor(red, green, blue, name, alpha).Success?
      ensures r.Failure? ==> r.error == NewColor(red, green, blue, name, alpha).error
      ensures r.Success? ==>
        fresh(r.value) && r.value.Valid() && r.value.Value() == NewColor(red, green, blue, name, alpha).value
    {
      var made := NewColor(red, green, blue, name, alpha);
      if made.Failure? {
        r := Failure(made.error);
      } else {
        var entry := new ColorEntry.Init(made.value);
        r := Success(entry);
      }
    }

    /** ColorEntry(hexColor, name): alpha keeps its default 1.0. */
    static method FromHex(hex: Option<string>, name: Option<string>)
      returns (r: Result<ColorEntry, ColorError>)
      ensures r.Success? <==> RgbFromHex(hex).Success?
      ensures r.Failure? ==> r.error == RgbFromHex(hex).error
      ensures r.Success? ==>
        fresh(r.value) && r.value.Valid() && r.value.Value() == Color(RgbFromHex(hex).value, DefaultAlpha, name)
    {
      var parsed := RgbFromHex(hex);
      if parsed.Failure? {
        r := Failure(parsed.error);
      } else {
        var entry := new ColorEntry.Init(Color(parsed.value, DefaultAlpha, name));
        r := Success(entry);
      }
    }

    /** setRGB: validates all three components before touching anything, then assigns
        them and drops the three cached views. */
    method SetRgb(r: int, g: int, b: int) returns (o: Outcome<ColorError>)
      requires Valid()
      modifies this
      ensures Valid()
      ensures o == ValidateRgb(r, g, b)
      ensures o.Fail? ==> unchanged(this)
      ensures o.Pass? ==> Value() == Color(Rgb(r, g, b), old(alpha), old(name))
      ensures o.Pass? ==> cachedHex.None? && cachedHsl.None? && cachedLab.None?
    {
      o := ValidateRgb(r, g, b);
      if o.Pass? {
        red, green, blue := r, g, b;
        cachedHex, cachedHsl, cachedLab := None, None, None;
      }
    }

    /** setAlpha: only alpha changes, and only when it lies in [0.0, 1.0]. */
    method SetAlpha(a: real) returns (o: Outcome<ColorError>)
      requires Valid()
      modifies this
      ensures Valid()
      ensures o == ValidateAlpha(a)
      ensures o.Fail? ==> unchanged(this)
      ensures o.Pass? ==> alpha == a && unchanged(this`red, this`green, this`blue, this`name)
      ensures o.Pass? ==> unchanged(this`cachedHex, this`cachedHsl, this`cachedLab)
    {
      o := ValidateAlpha(a);
      if o.Pass? {
        alpha := a;
      }
    }

    /** setHex: parse, then setRGB. */
    method SetHex(hex: Option<string>) returns (o: Outcome<ColorError>)
      requires Valid()
      modifies this
      ensures Valid()
      ensures o.Pass? <==> RgbFromHex(hex).Success?
      ensures o.Fail? ==> o.error == RgbFromHex(hex).error && unchanged(this)
      ensures o.Pass? ==> Value() == Color(RgbFromHex(hex).value, old(alpha), old(name))
      ensures o.Pass? ==> cachedHex.None? && cachedHsl.None? && cachedLab.None?
    {
      match ParseHexToRgb(hex)
      case Failure(e) =>
        o := Fail(e);
      case Success(c) =>
        o := SetRgb(c.red, c.green, c.blue);
    }

    /** getHex: the cached code when there is one, else the freshly formatted one, cached. */
    method GetHex() returns (h: string)
      requires Valid()
      modifies this`cachedHex
      ensures Valid()
      ensures h == FormatHex(Components())
      ensures cachedHex == Some(h)
    {
      if cachedHex.None? {
        cachedHex := Some(FormatHex(Components()));
      }
      h := cachedHex.value;
    }

    /** getHSL, cached like getHex. */
    method GetHsl() returns (h: Hsl)
      requires Valid()
      modifies this`cachedHsl
      ensures Valid()
      ensures h == HslOf(Components())
      ensures cachedHsl == Some(h)
    {
      if cachedHsl.None? {
        cachedHsl := Some(HslOf(Components()));
      }
      h := cachedHsl.value;
    }

    /** equals: same RGB, same alpha and same name; the caches play no part. */
    method Equals(other: ColorEntry) returns (b: bool)
      ensures b <==> Value() == other.Value()
    {
      b := red == other.red && green == other.green && blue == other.blue
        && alpha == other.alpha && name == other.name;
    }
  }

  /** After setRGB the hex code is that of the new colour, whatever was cached before. */
  method SetRgbThenHex(e: ColorEntry, r: int, g: int, b: int) returns (h: string)
    requires e.Valid() && ValidRgb(Rgb(r, g, b))
    modifies e
    ensures e.Valid()
    ensures h == FormatHex(Rgb(r, g, b))
  {
    var o := e.SetRgb(r, g, b);
    h := e.GetHex();
  }
}
