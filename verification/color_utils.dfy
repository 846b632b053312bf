/**
 * The colour derivation helpers of src/utils/colorUtils.ts: hex encoding and
 * decoding of channel triples, the `rgb(r, g, b)` display string, the
 * black/white foreground choice and the coarse colour-name classifier.
 */
module ColorUtils {
  import opened Wrappers
  import opened Bits
  import opened Radix
  import opened ColorTypes

  /** An 8-bit colour channel, as a canvas pixel read delivers it. */
  type Channel = x: int | 0 <= x < 256

  /** The `{ r, g, b }` object `hexToRgb` returns. */
  datatype Rgb = Rgb(r: Channel, g: Channel, b: Channel)

  // ---------------------------------------------------------------------
  // rgbToHex
  // ---------------------------------------------------------------------

  /**
   * `(1 << 24) | (r << 16) | (g << 8) | b`: the channels land in disjoint
   * bytes under a leading 1 bit.
   */
  function Pack(r: Channel, g: Channel, b: Channel): (n: nat)
    ensures n == 0x100_0000 + r * 0x1_0000 + g * 0x100 + b
  {
    assert Pow2(8) == 0x100 && Pow2(16) == 0x1_0000 && Pow2(24) == 0x100_0000;
    BitOrDisjoint(1, ShiftLeft(r, 16), 24);
    BitOrDisjoint(0x100 + r, ShiftLeft(g, 8), 16);
    BitOrDisjoint(0x1_0000 + r * 0x100 + g, b, 8);
    BitOr(BitOr(BitOr(ShiftLeft(1, 24), ShiftLeft(r, 16)), ShiftLeft(g, 8)), b)
  }

  /**
   * `rgbToHex`: '#' followed by the hex rendering of the packed number with
   * its leading digit (the guard bit) sliced off. The result is '#' and two
   * zero-padded lower-case hex digits per channel, in the order r, g, b.
   */
  function RgbToHex(r: Channel, g: Channel, b: Channel): (s: string)
    ensures s == "#" + ByteHex(r) + ByteHex(g) + ByteHex(b)
    ensures |s| == 7
  {
    PackedHexDigits(r, g, b);
    "#" + ToHexString(Pack(r, g, b))[1..]
  }

  /** The number of hex digits below the guard digit: two per channel. */
  const ChannelDigitCount: nat := 6

  /** The packed number prints as the guard digit '1' and then the six channel digits. */
  lemma PackedHexDigits(r: Channel, g: Channel, b: Channel)
    ensures var h := ToHexString(0x100_0000 + r * 0x1_0000 + g * 0x100 + b);
      |h| == 7 && h[0] == '1' && h[1..] == ByteHex(r) + ByteHex(g) + ByteHex(b)
  {
    var low := r * 0x1_0000 + g * 0x100 + b;
    var digits := ByteHex(r) + ByteHex(g) + ByteHex(b);
    assert ToHexString(0x100_0000 + low) == "1" + digits by {
      assert Pow16(6) == 0x100_0000;
      ToHexStringLeadingOne(low, ChannelDigitCount);
      ChannelDigits(r, g, b);
      assert ByteHex(r) + (ByteHex(g) + ByteHex(b)) == digits;
    }
    assert ("1" + digits)[1..] == digits;
  }

  /** The low 24 bits of the packed number, as six digits, are the three bytes in order. */
  lemma ChannelDigits(r: Channel, g: Channel, b: Channel)
    ensures PaddedHex(r * 0x1_0000 + g * 0x100 + b, ChannelDigitCount) == ByteHex(r) + (ByteHex(g) + ByteHex(b))
  {
    var gb := g * 0x100 + b;
    TwoByteDigits(g, b);
    ByteAboveDigits(r, gb, 4);
    assert Pow16(4) == 0x1_0000;
    Shift16IsProduct(r, 4);
  }

  /** Two bytes side by side, as four digits. */
  lemma TwoByteDigits(hi: Channel, lo: Channel)
    ensures hi * 0x100 + lo < 0x1_0000
    ensures PaddedHex(hi * 0x100 + lo, 4) == ByteHex(hi) + ByteHex(lo)
  {
    assert Pow16(2) == 0x100;
    PaddedHexByte(lo);
    ByteAboveDigits(hi, lo, 2);
    Shift16IsProduct(hi, 2);
  }

  /** A byte moved up above `k` digits of `low`: its two digits, then those `k`. */
  lemma ByteAboveDigits(x: Channel, low: nat, k: nat)
    requires low < Pow16(k)
    ensures PaddedHex(Shift16(x, k) + low, 2 + k) == ByteHex(x) + PaddedHex(low, k)
  {
    PaddedHexSplit(x, low, 2, k);
    PaddedHexByte(x);
  }

  // ---------------------------------------------------------------------
  // String.prototype.trim
  // ---------------------------------------------------------------------

  /**
   * The characters `trim` removes: ECMAScript WhiteSpace (tab, vertical tab,
   * form feed, space, no-break space, byte order mark and the other Unicode
   * space separators) and LineTerminator (LF, CR, U+2028, U+2029).
   */
  predicate IsJsWhitespace(c: char) {
    var n := c as int;
    n == 0x09 || n == 0x0A || n == 0x0B || n == 0x0C || n == 0x0D || n == 0x20
    || n == 0xA0 || n == 0x1680 || (0x2000 <= n <= 0x200A)
    || n == 0x2028 || n == 0x2029 || n == 0x202F || n == 0x205F
    || n == 0x3000 || n == 0xFEFF
  }

  function TrimStart(s: string): (t: string)
    ensures |t| <= |s| && t == s[|s| - |t|..]
    ensures forall i :: 0 <= i < |s| - |t| ==> IsJsWhitespace(s[i])
    ensures t != [] ==> !IsJsWhitespace(t[0])
  {
    if s != [] && IsJsWhitespace(s[0]) then TrimStart(s[1..]) else s
  }

  function TrimEnd(s: string): (t: string)
    ensures |t| <= |s| && t == s[..|t|]
    ensures forall i :: |t| <= i < |s| ==> IsJsWhitespace(s[i])
    ensures t != [] ==> !IsJsWhitespace(t[|t| - 1])
  {
    if s != [] && IsJsWhitespace(s[|s| - 1]) then TrimEnd(s[..|s| - 1]) else s
  }

  /** `s.trim()`: whitespace removed from both ends. */
  function Trim(s: string): (t: string)
    ensures |t| <= |s|
    ensures t != [] ==> !IsJsWhitespace(t[0]) && !IsJsWhitespace(t[|t| - 1])
  {
    TrimEnd(TrimStart(s))
  }

  /**
   * `trim` keeps one contiguous run of `s` and drops only whitespace, before
   * and after that run.
   */
  lemma TrimDropsOnlyWhitespace(s: string) returns (k: nat)
    ensures k + |Trim(s)| <= |s| && Trim(s) == s[k..k + |Trim(s)|]
    ensures forall i :: 0 <= i < k ==> IsJsWhitespace(s[i])
    ensures forall i :: k + |Trim(s)| <= i < |s| ==> IsJsWhitespace(s[i])
  {
    var u := TrimStart(s);
    k := |s| - |u|;
    TrimEndWithin(s, k, u);
  }

  /** Trimming the end of a suffix `s[k..]` keeps a run of `s` and drops only whitespace after it. */
  lemma TrimEndWithin(s: string, k: nat, u: string)
    requires k <= |s| && u == s[k..]
    ensures var t := TrimEnd(u);
      k + |t| <= |s| && t == s[k..k + |t|]
      && forall i :: k + |t| <= i < |s| ==> IsJsWhitespace(s[i])
  {
    var t := TrimEnd(u);
    assert t == s[k..k + |t|] by {
      assert t == u[..|t|];
    }
    forall i | k + |t| <= i < |s| ensures IsJsWhitespace(s[i]) {
      assert s[i] == u[i - k];
    }
  }

  /** `trim` leaves a string alone when neither end is whitespace. */
  lemma TrimUnpadded(s: string)
    requires s != [] ==> !IsJsWhitespace(s[0]) && !IsJsWhitespace(s[|s| - 1])
    ensures Trim(s) == s
  {
  }

  // ---------------------------------------------------------------------
  // hexToRgb
  // ---------------------------------------------------------------------

  predicate IsSixHexDigits(d: string) {
    |d| == 6 && forall i :: 0 <= i < 6 ==> IsHexChar(d[i])
  }

  /**
   * The strings `/^#?([a-f\d]{2})([a-f\d]{2})([a-f\d]{2})$/i` matches: six
   * hex digits in either case, optionally preceded by '#'.
   */
  predicate IsHexColorText(t: string) {
    IsSixHexDigits(t) || (|t| == 7 && t[0] == '#' && IsSixHexDigits(t[1..]))
  }

  /** `parseInt` of two hex digit characters in base 16. */
  function ParseHexPair(hi: char, lo: char): (v: Channel)
    requires IsHexChar(hi) && IsHexChar(lo)
    ensures ByteHex(v) == [LowerHex(hi), LowerHex(lo)]
  {
    HexDigitOfValue(hi);
    HexDigitOfValue(lo);
    ByteOfDigits(HexValue(hi), HexValue(lo));
    16 * HexValue(hi) + HexValue(lo)
  }

  /**
   * `hexToRgb`: matches the trimmed text against the pattern (the optional
   * '#' is consumed when present) and parses the three digit pairs; `None`
   * when there is no match.
   */
  function HexToRgb(hex: string): (o: Option<Rgb>)
  {
    var t := Trim(hex);
    var d := if |t| > 0 && t[0] == '#' then t[1..] else t;
    if IsSixHexDigits(d)
    then Some(DigitsRgb(d))
    else None
  }

  /** `hexToRgb` accepts exactly the trimmed strings the pattern describes. */
  lemma HexToRgbAccepts(hex: string)
    ensures HexToRgb(hex).Some? <==> IsHexColorText(Trim(hex))
  {
  }

  /** Parsing the two digits of a byte gives the byte back. */
  lemma ParseByteHex(x: Channel)
    ensures var d := ByteHex(x); IsHexChar(d[0]) && IsHexChar(d[1]) && ParseHexPair(d[0], d[1]) == x
  {
  }

  /** Round trip: decoding an encoded triple gives the triple back. */
  lemma HexToRgbOfRgbToHex(r: Channel, g: Channel, b: Channel)
    ensures HexToRgb(RgbToHex(r, g, b)) == Some(Rgb(r, g, b))
  {
    var s := RgbToHex(r, g, b);
    var d := ByteHex(r) + ByteHex(g) + ByteHex(b);
    assert s == "#" + d;
    TrimUnpadded(s);
    assert s[1..] == d;
    BytePairs(r, g, b);
    assert HexToRgb(s) == Some(Rgb(ParseHexPair(d[0], d[1]), ParseHexPair(d[2], d[3]), ParseHexPair(d[4], d[5])));
  }

  /** The six digits of three bytes are hex digits, and each pair parses back to its byte. */
  lemma BytePairs(r: Channel, g: Channel, b: Channel)
    ensures var d := ByteHex(r) + ByteHex(g) + ByteHex(b);
      IsSixHexDigits(d) &&
      ParseHexPair(d[0], d[1]) == r && ParseHexPair(d[2], d[3]) == g && ParseHexPair(d[4], d[5]) == b
  {
    var d := ByteHex(r) + ByteHex(g) + ByteHex(b);
    ParseByteHex(r);
    ParseByteHex(g);
    ParseByteHex(b);
    assert d[0] == ByteHex(r)[0] && d[1] == ByteHex(r)[1];
    assert d[2] == ByteHex(g)[0] && d[3] == ByteHex(g)[1];
    assert d[4] == ByteHex(b)[0] && d[5] == ByteHex(b)[1];
  }

  /** The lower-case form of a string of hex digits. */
  function Lowered(d: string): (l: string)
    requires forall i :: 0 <= i < |d| ==> IsHexChar(d[i])
    ensures |l| == |d| && forall i :: 0 <= i < |d| ==> l[i] == LowerHex(d[i])
  {
    if d == [] then [] else [LowerHex(d[0])] + Lowered(d[1..])
  }

  /**
   * Reverse round trip: re-encoding whatever `hexToRgb` accepted gives '#'
   * and the six digits it read, lower-cased.
   */
  lemma RgbToHexOfHexToRgb(hex: string)
    ensures HexToRgb(hex).Some? ==>
      var t := Trim(hex); var c := HexToRgb(hex).value;
      |t| >= 6 && RgbToHex(c.r, c.g, c.b) == "#" + Lowered(t[|t| - 6..])
  {
    if HexToRgb(hex).Some? {
      var t := Trim(hex);
      var d := if |t| > 0 && t[0] == '#' then t[1..] else t;
      assert IsSixHexDigits(d);
      assert d == t[|t| - 6..];
      assert HexToRgb(hex).value == DigitsRgb(d);
      ReencodeDigits(d);
    }
  }

  /** The triple three digit pairs denote. */
  function DigitsRgb(d: string): Rgb
    requires IsSixHexDigits(d)
  {
    Rgb(ParseHexPair(d[0], d[1]), ParseHexPair(d[2], d[3]), ParseHexPair(d[4], d[5]))
  }

  /** Encoding the triple six digits denote gives '#' and those digits lower-cased. */
  lemma ReencodeDigits(d: string)
    requires IsSixHexDigits(d)
    ensures var c := DigitsRgb(d); RgbToHex(c.r, c.g, c.b) == "#" + Lowered(d)
  {
    var c := DigitsRgb(d);
    LoweredPairs(d);
    assert RgbToHex(c.r, c.g, c.b) == "#" + (ByteHex(c.r) + ByteHex(c.g) + ByteHex(c.b));
  }

  /** Three parsed digit pairs print back as the lower-cased digits. */
  lemma LoweredPairs(d: string)
    requires IsSixHexDigits(d)
    ensures ByteHex(ParseHexPair(d[0], d[1])) + ByteHex(ParseHexPair(d[2], d[3])) + ByteHex(ParseHexPair(d[4], d[5]))
      == Lowered(d)
  {
    var l := Lowered(d);
    assert ByteHex(ParseHexPair(d[0], d[1])) == l[0..2];
    assert ByteHex(ParseHexPair(d[2], d[3])) == l[2..4];
    assert ByteHex(ParseHexPair(d[4], d[5])) == l[4..6];
    assert l == l[0..2] + l[2..4] + l[4..6];
  }

  // ---------------------------------------------------------------------
  // formatRgb
  // ---------------------------------------------------------------------

  /** `formatRgb`: the template literal `rgb(${r}, ${g}, ${b})`. */
  function FormatRgb(r: Channel, g: Channel, b: Channel): (s: string)
    ensures |s| >= 12 && s[..4] == "rgb(" && s[|s| - 1] == ')'
  {
    "rgb(" + ToDecimalString(r) + ", " + ToDecimalString(g) + ", " + ToDecimalString(b) + ")"
  }

  /** The display string determines the triple: distinct triples never render alike. */
  lemma FormatRgbInjective(r: Channel, g: Channel, b: Channel, r': Channel, g': Channel, b': Channel)
    requires FormatRgb(r, g, b) == FormatRgb(r', g', b')
    ensures r == r' && g == g' && b == b'
  {
    RgbTemplateFields(ToDecimalString(r), ToDecimalString(g), ToDecimalString(b),
                      ToDecimalString(r'), ToDecimalString(g'), ToDecimalString(b'));
    DecimalInjective(r, r');
    DecimalInjective(g, g');
    DecimalInjective(b, b');
  }

  /** The template `rgb(R, G, B)` filled with digit runs can be split back into its three fields. */
  lemma RgbTemplateFields(R: string, G: string, B: string, R': string, G': string, B': string)
    requires AllDecimal(R) && AllDecimal(G) && AllDecimal(B)
    requires AllDecimal(R') && AllDecimal(G') && AllDecimal(B')
    requires "rgb(" + R + ", " + G + ", " + B + ")" == "rgb(" + R' + ", " + G' + ", " + B' + ")"
    ensures R == R' && G == G' && B == B'
  {
    var s, s' := "rgb(" + R + ", " + G + ", " + B + ")", "rgb(" + R' + ", " + G' + ", " + B' + ")";
    var t2, t2' := ", " + B + ")", ", " + B' + ")";
    var t1, t1' := ", " + G + t2, ", " + G' + t2';
    assert s[4..] == R + t1;
    assert s'[4..] == R' + t1';
    DigitRunUnique(R, t1, R', t1');
    assert t1[2..] == G + t2;
    assert t1'[2..] == G' + t2';
    DigitRunUnique(G, t2, G', t2');
    assert t2[2..] == B + ")";
    assert t2'[2..] == B' + ")";
    DigitRunUnique(B, ")", B', ")");
  }

  /** 255 interpolates as "255": one digit peeled off per step of the rendering. */
  lemma DecimalOf255()
    ensures ToDecimalString(255) == "255"
  {
    assert ToDecimalString(2) == "2";
    assert ToDecimalString(25) == ToDecimalString(2) + [DecDigit(5)];
    assert ToDecimalString(255) == ToDecimalString(25) + [DecDigit(5)];
  }

  /** The display strings of pure red and pure white. */
  lemma RgbTextExamples()
    ensures FormatRgb(255, 0, 0) == "rgb(255, 0, 0)"
    ensures FormatRgb(255, 255, 255) == "rgb(255, 255, 255)"
  {
    DecimalOf255();
    assert ToDecimalString(0) == "0";
  }

  // ---------------------------------------------------------------------
  // getContrastYIQ
  // ---------------------------------------------------------------------

  /** 1000 times the broadcast luma of a triple. */
  function LumaTimes1000(c: Rgb): int {
    299 * c.r + 587 * c.g + 114 * c.b
  }

  /**
   * `getContrastYIQ`: black for unparsable input; otherwise black exactly when
   * the luma `(299 r + 587 g + 114 b) / 1000` reaches 128.
   */
  function GetContrastYiq(hexcolor: string): (f: string)
    ensures f == "black" || f == "white"
    ensures HexToRgb(hexcolor).None? ==> f == "black"
    ensures HexToRgb(hexcolor).Some? ==>
      (f == "black" <==> LumaTimes1000(HexToRgb(hexcolor).value) >= 128000)
  {
    match HexToRgb(hexcolor)
    case None => "black"
    case Some(c) =>
      var yiq := (c.r * 299 + c.g * 587 + c.b * 114) as real / 1000.0;
      if yiq >= 128.0 then "black" else "white"
  }

  /** The two digits of the extreme channel values. */
  lemma ByteHexExtremes()
    ensures ByteHex(0) == "00" && ByteHex(255) == "ff"
  {
    assert HexDigit(15) == 'f';
  }

  /** The hex string of pure red. */
  lemma RedHex()
    ensures RgbToHex(255, 0, 0) == "#ff0000"
  {
    ByteHexExtremes();
    SpelledHex(255, 0, 0, "#ff0000");
  }

  /** The hex string of pure white. */
  lemma WhiteHex()
    ensures RgbToHex(255, 255, 255) == "#ffffff"
  {
    ByteHexExtremes();
    SpelledHex(255, 255, 255, "#ffffff");
  }

  /** A seven-character string spelling '#' and the three bytes is the hex string. */
  lemma SpelledHex(r: Channel, g: Channel, b: Channel, s: string)
    requires |s| == 7 && s[0] == '#'
    requires s[1..3] == ByteHex(r) && s[3..5] == ByteHex(g) && s[5..] == ByteHex(b)
    ensures RgbToHex(r, g, b) == s
  {
    assert s == [s[0]] + s[1..3] + s[3..5] + s[5..];
  }

  /** Pure red reads better with white text, pure white with black text. */
  lemma ContrastExamples()
    ensures GetContrastYiq("#ff0000") == "white"
    ensures GetContrastYiq("#ffffff") == "black"
  {
    RedHex();
    WhiteHex();
    HexToRgbOfRgbToHex(255, 0, 0);
    HexToRgbOfRgbToHex(255, 255, 255);
  }

  // ---------------------------------------------------------------------
  // getColorName
  // ---------------------------------------------------------------------

  datatype ColorName =
    | White | Black | Red | Orange | Yellow | Green | Teal | Blue | Purple | Brown
    | RedIsh | GreenIsh | BlueIsh | Gray | Unknown

  /** The label string `getColorName` returns for each name. */
  function Label(n: ColorName): string {
    match n
    case White => "White"
    case Black => "Black"
    case Red => "Red"
    case Orange => "Orange"
    case Yellow => "Yellow"
    case Green => "Green"
    case Teal => "Teal"
    case Blue => "Blue"
    case Purple => "Purple"
    case Brown => "Brown"
    case RedIsh => "Red-ish"
    case GreenIsh => "Green-ish"
    case BlueIsh => "Blue-ish"
    case Gray => "Gray"
    case Unknown => "Unknown"
  }

  /** No two names share a label. */
  lemma LabelInjective(m: ColorName, n: ColorName)
    requires Label(m) == Label(n)
    ensures m == n
  {
  }

  /** The if-chain of `getColorName` on a parsed triple; the first test that holds wins. */
  function Classify(c: Rgb): (n: ColorName)
    ensures n != Unknown
  {
    var r, g, b := c.r, c.g, c.b;
    if r > 200 && g > 200 && b > 200 then White
    else if r < 50 && g < 50 && b < 50 then Black
    else if r > 200 && g < 100 && b < 100 then Red
    else if r > 200 && g > 150 && b < 100 then Orange
    else if r > 200 && g > 200 && b < 100 then Yellow
    else if r < 100 && g > 150 && b < 100 then Green
    else if r < 100 && g > 150 && b > 150 then Teal
    else if r < 100 && g < 100 && b > 150 then Blue
    else if r > 150 && g < 100 && b > 150 then Purple
    else if r > 150 && g < 100 && b < 100 then Brown
    else if r > g && r > b then RedIsh
    else if g > r && g > b then GreenIsh
    else if b > r && b > g then BlueIsh
    else Gray
  }

  /** The fifteen strings `getColorName` can return. */
  const NameLabels: seq<string> := ["White", "Black", "Red", "Orange", "Yellow", "Green", "Teal", "Blue",
                                    "Purple", "Brown", "Red-ish", "Green-ish", "Blue-ish", "Gray", "Unknown"]

  lemma LabelListed(n: ColorName)
    ensures Label(n) in NameLabels
  {
  }

  /** `getColorName`: 'Unknown' for unparsable input, else the label of the first matching rule. */
  function GetColorName(hex: string): (s: string)
    ensures HexToRgb(hex).None? ==> s == "Unknown"
    ensures s in NameLabels
  {
    match HexToRgb(hex)
    case None => Label(Unknown)
    case Some(c) => LabelListed(Classify(c)); Label(Classify(c))
  }

  // The same rules as data: an independent reading of the if-chain as an
  // ordered rule list searched front to back.

  /** A one-sided threshold on a channel: strictly above or strictly below. */
  datatype Bound = Above(t: int) | Below(t: int)

  datatype Primary = R | G | B

  /** A range test on each channel, or "this channel exceeds both others". */
  datatype Rule =
    | Box(rb: Bound, gb: Bound, bb: Bound, name: ColorName)
    | Dominant(p: Primary, name: ColorName)

  predicate InBound(x: int, bound: Bound) {
    match bound
    case Above(t) => x > t
    case Below(t) => x < t
  }

  predicate Holds(rule: Rule, c: Rgb) {
    match rule
    case Box(rb, gb, bb, _) => InBound(c.r, rb) && InBound(c.g, gb) && InBound(c.b, bb)
    case Dominant(R, _) => c.r > c.g && c.r > c.b
    case Dominant(G, _) => c.g > c.r && c.g > c.b
    case Dominant(B, _) => c.b > c.r && c.b > c.g
  }

  /** The thirteen rules of `getColorName`, in source order; Gray is the fallback. */
  const NameRules: seq<Rule> := [
    Box(Above(200), Above(200), Above(200), White),
    Box(Below(50), Below(50), Below(50), Black),
    Box(Above(200), Below(100), Below(100), Red),
    Box(Above(200), Above(150), Below(100), Orange),
    Box(Above(200), Above(200), Below(100), Yellow),
    Box(Below(100), Above(150), Below(100), Green),
    Box(Below(100), Above(150), Above(150), Teal),
    Box(Below(100), Below(100), Above(150), Blue),
    Box(Above(150), Below(100), Above(150), Purple),
    Box(Above(150), Below(100), Below(100), Brown),
    Dominant(R, RedIsh),
    Dominant(G, GreenIsh),
    Dominant(B, BlueIsh)
  ]

  /** The name of the first rule at or after index `from` that holds, or Gray when none does. */
  function FirstMatch(rules: seq<Rule>, from: nat, c: Rgb): ColorName
    decreases |rules| - from
  {
    if from >= |rules| then Gray
    else if Holds(rules[from], c) then rules[from].name
    else FirstMatch(rules, from + 1, c)
  }

  /** A rule that holds, preceded only by rules that fail, decides the name. */
  lemma {:induction false} FirstMatchPicksFirst(rules: seq<Rule>, from: nat, c: Rgb, i: nat)
    requires from <= i < |rules| && Holds(rules[i], c)
    requires forall j :: from <= j < i ==> !Holds(rules[j], c)
    ensures FirstMatch(rules, from, c) == rules[i].name
    decreases i - from
  {
    if from < i {
      FirstMatchPicksFirst(rules, from + 1, c, i);
    }
  }

  /** With no rule named Gray, the fallback is reached exactly when no rule holds. */
  lemma {:induction false} FirstMatchFallback(rules: seq<Rule>, from: nat, c: Rgb)
    requires forall j :: 0 <= j < |rules| ==> rules[j].name != Gray
    ensures FirstMatch(rules, from, c) == Gray <==> forall j :: from <= j < |rules| ==> !Holds(rules[j], c)
    decreases |rules| - from
  {
    if from < |rules| {
      FirstMatchFallback(rules, from + 1, c);
    }
  }

  /** The if-chain and the rule list agree on every triple. */
  lemma ClassifyIsFirstMatch(c: Rgb)
    ensures Classify(c) == FirstMatch(NameRules, 0, c)
  {
    DominantRulesMatch(c);
    BoxRulesMatch(c);
    FrontRulesMatch(c);
  }

  /** Rules 0 to 4 of the table: the White, Black, Red, Orange and Yellow boxes. */
  lemma FrontRulesMatch(c: Rgb)
    ensures FirstMatch(NameRules, 0, c) ==
      if c.r > 200 && c.g > 200 && c.b > 200 then White
      else if c.r < 50 && c.g < 50 && c.b < 50 then Black
      else if c.r > 200 && c.g < 100 && c.b < 100 then Red
      else if c.r > 200 && c.g > 150 && c.b < 100 then Orange
      else if c.r > 200 && c.g > 200 && c.b < 100 then Yellow
      else FirstMatch(NameRules, 5, c)
  {
    var rs := NameRules;
    assert FirstMatch(rs, 0, c) == (if Holds(rs[0], c) then White
      else if Holds(rs[1], c) then Black
      else if Holds(rs[2], c) then Red
      else if Holds(rs[3], c) then Orange
      else if Holds(rs[4], c) then Yellow
      else FirstMatch(rs, 5, c));
  }

  /** The last three rules of the table, then the Gray fallback. */
  lemma DominantRulesMatch(c: Rgb)
    ensures FirstMatch(NameRules, 10, c) ==
      if c.r > c.g && c.r > c.b then RedIsh
      else if c.g > c.r && c.g > c.b then GreenIsh
      else if c.b > c.r && c.b > c.g then BlueIsh
      else Gray
  {
    assert FirstMatch(NameRules, 13, c) == Gray;
  }

  /** Rules 5 to 9 of the table: the Green, Teal, Blue, Purple and Brown boxes. */
  lemma BoxRulesMatch(c: Rgb)
    ensures FirstMatch(NameRules, 5, c) ==
      if c.r < 100 && c.g > 150 && c.b < 100 then Green
      else if c.r < 100 && c.g > 150 && c.b > 150 then Teal
      else if c.r < 100 && c.g < 100 && c.b > 150 then Blue
      else if c.r > 150 && c.g < 100 && c.b > 150 then Purple
      else if c.r > 150 && c.g < 100 && c.b < 100 then Brown
      else FirstMatch(NameRules, 10, c)
  {
    var rs := NameRules;
    assert FirstMatch(rs, 5, c) == (if Holds(rs[5], c) then Green
      else if Holds(rs[6], c) then Teal
      else if Holds(rs[7], c) then Blue
      else if Holds(rs[8], c) then Purple
      else if Holds(rs[9], c) then Brown
      else FirstMatch(rs, 10, c));
  }

  /** First match wins: the earliest rule that holds gives the name. */
  lemma FirstRuleWins(c: Rgb, i: nat)
    requires i < |NameRules| && Holds(NameRules[i], c)
    requires forall j :: 0 <= j < i ==> !Holds(NameRules[j], c)
    ensures Classify(c) == NameRules[i].name
  {
    ClassifyIsFirstMatch(c);
    FirstMatchPicksFirst(NameRules, 0, c, i);
  }

  /** 'Gray' is returned exactly when none of the thirteen rules holds. */
  lemma GrayExactlyWhenNoRuleHolds(c: Rgb)
    ensures Classify(c) == Gray <==> forall j :: 0 <= j < |NameRules| ==> !Holds(NameRules[j], c)
  {
    NoRuleNamedGray();
    FirstMatchFallback(NameRules, 0, c);
    ClassifyIsFirstMatch(c);
  }

  /** Gray is only the fallback: no rule of the table carries it. */
  lemma NoRuleNamedGray()
    ensures forall j :: 0 <= j < |NameRules| ==> NameRules[j].name != Gray
  {
  }

  /** The Yellow rule is shadowed: every triple it accepts, the earlier Orange rule accepts. */
  lemma YellowShadowedByOrange(c: Rgb)
    ensures NameRules[4].name == Yellow && NameRules[3].name == Orange
    ensures Holds(NameRules[4], c) ==> Holds(NameRules[3], c)
  {
  }

  /** Hence the classifier never picks Yellow... */
  lemma ClassifyNeverYellow(c: Rgb)
    ensures Classify(c) != Yellow
  {
    YellowShadowedByOrange(c);
    ClassifyIsFirstMatch(c);
  }

  /** ...and 'Yellow' is never returned, for any input string. */
  lemma YellowNeverReturned(hex: string)
    ensures GetColorName(hex) != "Yellow"
  {
    if HexToRgb(hex).Some? {
      var n := Classify(HexToRgb(hex).value);
      ClassifyNeverYellow(HexToRgb(hex).value);
      if Label(n) == "Yellow" {
        LabelInjective(n, Yellow);
      }
    }
  }

  /** Every other label is returned for some triple. */
  lemma EveryOtherNameReachable(n: ColorName)
    requires n != Yellow && n != Unknown
    ensures exists c :: Classify(c) == n
  {
    var c :=
      if n == White then Rgb(255, 255, 255)
      else if n == Black then Rgb(0, 0, 0)
      else if n == Red then Rgb(255, 0, 0)
      else if n == Orange then Rgb(255, 255, 0)
      else if n == Green then Rgb(0, 255, 0)
      else if n == Teal then Rgb(0, 255, 255)
      else if n == Blue then Rgb(0, 0, 255)
      else if n == Purple then Rgb(255, 0, 255)
      else if n == Brown then Rgb(160, 0, 0)
      else if n == RedIsh then Rgb(150, 100, 100)
      else if n == GreenIsh then Rgb(100, 150, 100)
      else if n == BlueIsh then Rgb(100, 100, 150)
      else Rgb(100, 100, 100);
    assert Classify(c) == n;
  }

  /** The name of a triple given as its hex string. */
  lemma NameOfHex(r: Channel, g: Channel, b: Channel)
    ensures GetColorName(RgbToHex(r, g, b)) == Label(Classify(Rgb(r, g, b)))
  {
    HexToRgbOfRgbToHex(r, g, b);
  }

  /**
   * Rule order on concrete triples: yellow (255, 255, 0) is named Orange,
   * mid-grey Gray, light grey White. By NameOfHex these are also the names
   * `getColorName` gives their hex strings.
   */
  lemma ColorNameExamples()
    ensures Label(Classify(Rgb(255, 255, 0))) == "Orange"
    ensures Label(Classify(Rgb(100, 100, 100))) == "Gray"
    ensures Label(Classify(Rgb(220, 220, 220))) == "White"
    ensures GetColorName("") == "Unknown"
  {
    assert Trim("") == "";
  }

  // ---------------------------------------------------------------------
  // Deriving a ColorInfo from a sampled pixel (the picker's click handler)
  // ---------------------------------------------------------------------

  /**
   * The ColorInfo the picker builds from a sampled pixel: its hex string,
   * its rgb string and the name `getColorName` gives that hex string. The
   * name is the classification of the very triple sampled.
   */
  function DeriveColorInfo(c: Rgb): (info: ColorInfo)
    ensures info.hex == "#" + ByteHex(c.r) + ByteHex(c.g) + ByteHex(c.b)
    ensures info.name == Some(Label(Classify(c)))
    ensures info.timestamp == None
  {
    var hex := RgbToHex(c.r, c.g, c.b);
    HexToRgbOfRgbToHex(c.r, c.g, c.b);
    ColorInfo(hex, FormatRgb(c.r, c.g, c.b), Some(GetColorName(hex)), None)
  }
}
