/**
 * The class list of the segmenter: the hex colour decoder behind the
 * colour picker and the guarded append that adds a named class.
 */
module ClassManager {
  import opened Results

  // ---------------------------------------------------------------------
  // hexToRgb
  // ---------------------------------------------------------------------

  /** A class display colour: three integer channels, red, green and blue. */
  datatype Rgb8 = Rgb8(red: int, green: int, blue: int)

  /** True when `x` fits in one byte. */
  predicate IsByte(x: int) {
    0 <= x < 256
  }

  /** True when all three channels fit in one byte. */
  predicate IsRgb8(c: Rgb8) {
    IsByte(c.red) && IsByte(c.green) && IsByte(c.blue)
  }

  /** A digit `parseInt` accepts in base 16. */
  predicate IsHexDigit(c: char) {
    '0' <= c <= '9' || 'a' <= c <= 'f' || 'A' <= c <= 'F'
  }

  /** The value of one hexadecimal digit. */
  function DigitValue(c: char): (v: nat)
    requires IsHexDigit(c)
    ensures v < 16
  {
    if '0' <= c <= '9' then c as int - '0' as int
    else if 'a' <= c <= 'f' then c as int - 'a' as int + 10
    else c as int - 'A' as int + 10
  }

  /** True when every character of `s` is a hexadecimal digit. */
  predicate AllHex(s: string) {
    forall i :: 0 <= i < |s| ==> IsHexDigit(s[i])
  }

  /** 16 to the power `n`. */
  function Pow16(n: nat): (p: nat)
    ensures p > 0
  {
    if n == 0 then 1 else 16 * Pow16(n - 1)
  }

  /** The number of leading hexadecimal digits of `s`. */
  function HexRun(s: string): (n: nat)
    ensures n <= |s|
    ensures AllHex(s[..n])
    ensures n < |s| ==> !IsHexDigit(s[n])
  {
    if |s| == 0 || !IsHexDigit(s[0]) then 0
    else
      var rest := HexRun(s[1..]);
      assert s[..1 + rest] == [s[0]] + s[1..][..rest];
      1 + rest
  }

  /** The value of a string of hexadecimal digits, most significant first. */
  function HexValue(s: string): (v: nat)
    requires AllHex(s)
    ensures v < Pow16(|s|)
  {
    if |s| == 0 then 0
    else HexValue(s[..|s| - 1]) * 16 + DigitValue(s[|s| - 1])
  }

  /**
   * `parseInt(s, 16)`: the value of the leading run of hexadecimal digits,
   * or NaN (`None`) when `s` does not start with one.
   */
  function ParseHex(s: string): (v: Option<nat>)
    ensures v.None? <==> |s| == 0 || !IsHexDigit(s[0])
  {
    var n := HexRun(s);
    if n == 0 then None else Some(HexValue(s[..n]))
  }

  const TwoTo31: int := 0x8000_0000
  const TwoTo32: int := 0x1_0000_0000

  /**
   * ToInt32, which `>>` applies to its left operand: the value modulo 2^32
   * read as a two's complement 32-bit integer; NaN becomes 0.
   */
  function ToInt32(x: Option<nat>): (n: int)
    ensures -TwoTo31 <= n < TwoTo31
    ensures x.None? ==> n == 0
    ensures x.Some? ==> (n - x.value) % TwoTo32 == 0
  {
    match x
    case None => 0
    case Some(v) =>
      var w := v % TwoTo32;
      if w >= TwoTo31 then w - TwoTo32 else w
  }

  /** `n >> 16` and `n >> 8` on a 32-bit integer: an arithmetic shift, which rounds towards minus infinity. */
  function ShiftRight(n: int, bits: nat): (r: int)
    requires bits == 8 || bits == 16
    ensures bits == 8 ==> 256 * r <= n < 256 * r + 256
    ensures bits == 16 ==> 65536 * r <= n < 65536 * r + 65536
  {
    n / (if bits == 8 then 256 else 65536)
  }

  /** `n & 255`: the low byte of the two's complement representation of `n`. */
  function LowByte(n: int): (b: int)
    ensures IsByte(b)
    ensures (n - b) % 256 == 0
  {
    n % 256
  }

  /**
   * `hexToRgb(hex)`: drop the first character (the `#`), parse the rest as
   * base 16, and cut the 32-bit result into its three low bytes.
   */
  function HexToRgb(hex: string): (c: Rgb8)
    ensures IsRgb8(c)
  {
    var n := ToInt32(ParseHex(if |hex| == 0 then hex else hex[1..]));
    Rgb8(LowByte(ShiftRight(n, 16)), LowByte(ShiftRight(n, 8)), LowByte(n))
  }

  /**
   * The channels in terms of the parsed value `v`, taken modulo 2^32 and
   * 0 for NaN: red is bits 16..23 of `v`, green bits 8..15, blue bits 0..7.
   */
  lemma HexToRgbChannels(hex: string)
    ensures var p := ParseHex(if |hex| == 0 then hex else hex[1..]);
      var v := if p.None? then 0 else p.value % TwoTo32;
      HexToRgb(hex) == Rgb8((v / 65536) % 256, (v / 256) % 256, v % 256)
  {
    var p := ParseHex(if |hex| == 0 then hex else hex[1..]);
    if p.Some? {
      var w := p.value % TwoTo32;
      if w >= TwoTo31 {
        ShiftWrap(w);
      }
    }
  }

  /** A helper for `HexToRgbChannels`: subtracting 2^32 does not change bits 0..23. */
  lemma ShiftWrap(w: int)
    ensures ((w - TwoTo32) / 65536) % 256 == (w / 65536) % 256
    ensures ((w - TwoTo32) / 256) % 256 == (w / 256) % 256
    ensures (w - TwoTo32) % 256 == w % 256
  {
    assert (w - TwoTo32) / 65536 == w / 65536 - 65536;
    assert (w - TwoTo32) / 256 == w / 256 - 16777216;
  }

  /** `#` followed by exactly six hexadecimal digits. */
  predicate IsHexColour(hex: string) {
    |hex| == 7 && hex[0] == '#' && AllHex(hex[1..])
  }

  /** For a well-formed colour, the three channels recompose the parsed 24-bit value. */
  lemma HexToRgbRecomposes(hex: string)
    requires IsHexColour(hex)
    ensures var c := HexToRgb(hex);
      c.red * 65536 + c.green * 256 + c.blue == HexValue(hex[1..])
  {
    var digits := hex[1..];
    assert HexRun(digits) == 6;
    assert digits[..6] == digits;
    var v := HexValue(digits);
    assert Pow16(6) == 16777216;
    HexToRgbChannels(hex);
    assert v % TwoTo32 == v;
    Recompose(v);
  }

  /** A helper for `HexToRgbRecomposes`: a 24-bit value is the sum of its three bytes. */
  lemma Recompose(v: int)
    requires 0 <= v < 16777216
    ensures ((v / 65536) % 256) * 65536 + ((v / 256) % 256) * 256 + v % 256 == v
  {
    var hi, lo := v / 65536, v % 65536;
    assert v == hi * 65536 + lo;
    assert hi % 256 == hi;
    assert v / 256 == hi * 256 + lo / 256;
    assert (v / 256) % 256 == lo / 256;
    assert v % 256 == lo % 256;
  }

  // ---------------------------------------------------------------------
  // The inverse: formatting a colour as the picker does
  // ---------------------------------------------------------------------

  /** The lower-case digit for a value below 16. */
  function HexDigit(d: nat): (c: char)
    requires d < 16
    ensures IsLowerHexDigit(c) && IsHexDigit(c) && DigitValue(c) == d
  {
    if d < 10 then ('0' as int + d) as char else ('a' as int + d - 10) as char
  }

  /** Two lower-case digits for a byte. */
  function ByteHex(b: int): (s: string)
    requires IsByte(b)
    ensures |s| == 2 && AllHex(s) && HexValue(s) == b
    ensures IsLowerHexDigit(s[0]) && IsLowerHexDigit(s[1])
  {
    var s := [HexDigit(b / 16), HexDigit(b % 16)];
    assert s[..1] == [HexDigit(b / 16)];
    assert [HexDigit(b / 16)][..0] == [];
    s
  }

  /** `#rrggbb` in lower case, the format the colour input produces. */
  function RgbToHex(c: Rgb8): (hex: string)
    requires IsRgb8(c)
    ensures IsHexColour(hex) && IsPickerValue(hex)
  {
    "#" + ByteHex(c.red) + ByteHex(c.green) + ByteHex(c.blue)
  }

  /** Hex values of a concatenation: the first part shifted left by the length of the second. */
  lemma {:induction false} HexValueAppend(s: string, t: string)
    requires AllHex(s) && AllHex(t)
    ensures AllHex(s + t)
    ensures HexValue(s + t) == HexValue(s) * Pow16(|t|) + HexValue(t)
    decreases |t|
  {
    if |t| == 0 {
      assert s + t == s;
    } else {
      var n := |t| - 1;
      var front, c := t[..n], t[n];
      assert t == front + [c];
      assert s + t == (s + front) + [c];
      HexValueAppend(s, front);
      HexValueSnoc(s + front, c);
      HexValueSnoc(front, c);
      ShiftDigit(HexValue(s), Pow16(n), HexValue(front), DigitValue(c));
    }
  }

  /** Appending one digit multiplies the value by 16 and adds the digit. */
  lemma HexValueSnoc(s: string, c: char)
    requires AllHex(s) && IsHexDigit(c)
    ensures AllHex(s + [c])
    ensures HexValue(s + [c]) == HexValue(s) * 16 + DigitValue(c)
  {
    assert (s + [c])[..|s|] == s;
  }

  /** A helper for `HexValueAppend`: appending one digit to the shifted sum. */
  lemma ShiftDigit(a: int, p: int, b: int, d: int)
    ensures (a * p + b) * 16 + d == a * (16 * p) + (b * 16 + d)
  {
  }

  /** The six digits of three formatted bytes have the value of the 24-bit colour. */
  lemma ThreeBytesValue(r: int, g: int, b: int)
    requires IsByte(r) && IsByte(g) && IsByte(b)
    ensures AllHex(ByteHex(r) + ByteHex(g) + ByteHex(b))
    ensures HexValue(ByteHex(r) + ByteHex(g) + ByteHex(b)) == r * 65536 + g * 256 + b
  {
    var rs, gs, bs := ByteHex(r), ByteHex(g), ByteHex(b);
    HexValueAppend(rs, gs);
    HexValueAppend(rs + gs, bs);
    assert Pow16(2) == 256;
    assert HexValue(rs + gs) == r * 256 + g;
    assert HexValue(rs + gs + bs) == (r * 256 + g) * 256 + b;
  }

  /** Decoding a formatted colour gives the colour back. */
  lemma HexToRgbInvertsRgbToHex(c: Rgb8)
    requires IsRgb8(c)
    ensures HexToRgb(RgbToHex(c)) == c
  {
    var hex := RgbToHex(c);
    assert hex[1..] == ByteHex(c.red) + ByteHex(c.green) + ByteHex(c.blue);
    ThreeBytesValue(c.red, c.green, c.blue);
    HexToRgbRecomposes(hex);
    Decompose(c.red, c.green, c.blue, HexToRgb(hex));
  }

  /** A helper for `HexToRgbInvertsRgbToHex`: bytes recomposing the same value are the same bytes. */
  lemma Decompose(r: int, g: int, b: int, d: Rgb8)
    requires IsByte(r) && IsByte(g) && IsByte(b) && IsRgb8(d)
    requires d.red * 65536 + d.green * 256 + d.blue == r * 65536 + g * 256 + b
    ensures d == Rgb8(r, g, b)
  {
    var x, y := r * 256 + g, d.red * 256 + d.green;
    assert x * 256 == r * 65536 + g * 256;
    assert y * 256 == d.red * 65536 + d.green * 256;
    ByteUnique(x, b, y, d.blue);
    ByteUnique(r, g, d.red, d.green);
  }

  /** A helper for `Decompose`: a value has one high part and one low byte. */
  lemma ByteUnique(x: int, b: int, y: int, c: int)
    requires IsByte(b) && IsByte(c) && x * 256 + b == y * 256 + c
    ensures x == y && b == c
  {
    var e := y - x;
    assert e * 256 == b - c;
    assert e > 0 ==> e * 256 >= 256;
    assert e < 0 ==> e * 256 <= -256;
  }

  /** A digit as the colour input writes it: 0-9 or lower-case a-f. */
  predicate IsLowerHexDigit(c: char) {
    '0' <= c <= '9' || 'a' <= c <= 'f'
  }

  /** A value the colour input can hold: `#` and six lower-case digits. */
  predicate IsPickerValue(hex: string) {
    |hex| == 7 && hex[0] == '#' && forall i :: 1 <= i < 7 ==> IsLowerHexDigit(hex[i])
  }

  /** Formatting a lower-case digit's value gives the digit back. */
  lemma DigitRoundTrip(c: char)
    requires IsLowerHexDigit(c)
    ensures HexDigit(DigitValue(c)) == c
  {
  }

  /** Formatting the value of two lower-case digits gives the two digits back. */
  lemma ByteHexOfDigits(s: string)
    requires |s| == 2 && IsLowerHexDigit(s[0]) && IsLowerHexDigit(s[1])
    ensures AllHex(s) && IsByte(HexValue(s)) && ByteHex(HexValue(s)) == s
  {
    assert s[..1] == [s[0]];
    assert [s[0]][..0] == [];
    assert HexValue([s[0]]) == DigitValue(s[0]);
    var v := HexValue(s);
    assert v == DigitValue(s[0]) * 16 + DigitValue(s[1]);
    assert v / 16 == DigitValue(s[0]) && v % 16 == DigitValue(s[1]);
    DigitRoundTrip(s[0]);
    DigitRoundTrip(s[1]);
  }

  /** Formatting a decoded picker value gives the same string back. */
  lemma RgbToHexInvertsHexToRgb(hex: string)
    requires IsPickerValue(hex)
    ensures RgbToHex(HexToRgb(hex)) == hex
  {
    var d := hex[1..];
    var rs, gs, bs := d[..2], d[2..4], d[4..];
    ByteHexOfDigits(rs);
    ByteHexOfDigits(gs);
    ByteHexOfDigits(bs);
    var r, g, b := HexValue(rs), HexValue(gs), HexValue(bs);
    assert ByteHex(r) + ByteHex(g) + ByteHex(b) == d;
    ThreeBytesValue(r, g, b);
    HexToRgbRecomposes(hex);
    Decompose(r, g, b, HexToRgb(hex));
    assert hex == "#" + d;
  }

  /** The picker's initial value `#ff0000` decodes to pure red. */
  lemma DefaultColourIsRed()
    ensures HexToRgb(InitialColour) == Rgb8(255, 0, 0)
  {
    assert RgbToHex(Rgb8(255, 0, 0)) == InitialColour;
    HexToRgbInvertsRgbToHex(Rgb8(255, 0, 0));
  }

  /** When no hexadecimal digit follows the first character, `parseInt` gives NaN and the colour is black. */
  lemma UnparsableIsBlack(hex: string)
    requires |hex| <= 1 || !IsHexDigit(hex[1])
    ensures HexToRgb(hex) == Rgb8(0, 0, 0)
  {
  }

  // ---------------------------------------------------------------------
  // addClass
  // ---------------------------------------------------------------------

  /** A class: its name and display colour.  Its index is its position in the list. */
  datatype ClassDef = ClassDef(name: string, color: Rgb8)

  /** The state of the class manager: the class list and the two input fields. */
  datatype Form = Form(classes: seq<ClassDef>, newClassName: string, color: string)

  /** The colour field's initial value. */
  const InitialColour := "#ff0000"

  /**
   * `addClass`: an empty name does nothing; otherwise the class is appended
   * with the decoded colour and the name field is cleared.
   */
  function AddClass(f: Form): (g: Form)
    ensures f.newClassName == "" ==> g == f
    ensures f.newClassName != "" ==>
      && |g.classes| == |f.classes| + 1
      && g.classes[..|f.classes|] == f.classes
      && g.classes[|f.classes|].name == f.newClassName
      && g.classes[|f.classes|].color == HexToRgb(f.color)
      && g.newClassName == ""
      && g.color == f.color
  {
    if f.newClassName == "" then f
    else Form(f.classes + [ClassDef(f.newClassName, HexToRgb(f.color))], "", f.color)
  }

  /** A user action: type a name, pick a colour, press "Add Class". */
  datatype Submission = Submission(name: string, color: string)

  /** A sequence of submissions, applied in order. */
  function SubmitAll(f: Form, subs: seq<Submission>): Form
    decreases |subs|
  {
    if |subs| == 0 then f
    else
      var last := subs[|subs| - 1];
      AddClass(SubmitAll(f, subs[..|subs| - 1]).(newClassName := last.name, color := last.color))
  }

  /** Reference definition: the classes the submissions with a name create, in order. */
  function Accepted(subs: seq<Submission>): seq<ClassDef>
  {
    if |subs| == 0 then []
    else
      var last := subs[|subs| - 1];
      var earlier := Accepted(subs[..|subs| - 1]);
      if last.name == "" then earlier else earlier + [ClassDef(last.name, HexToRgb(last.color))]
  }

  /**
   * After any sequence of submissions the class list is the old list
   * followed by one class per named submission, in submission order: no
   * class moves, so every index stays valid.
   */
  lemma {:induction false} SubmitAllAppends(f: Form, subs: seq<Submission>)
    ensures SubmitAll(f, subs).classes == f.classes + Accepted(subs)
    decreases |subs|
  {
    if |subs| > 0 {
      SubmitAllAppends(f, subs[..|subs| - 1]);
    }
  }

  /** True when every class colour fits in bytes. */
  predicate ValidClasses(classes: seq<ClassDef>) {
    forall i :: 0 <= i < |classes| ==> IsRgb8(classes[i].color)
  }

  /** Adding a class keeps every colour of the list in byte range. */
  lemma AddClassKeepsColours(f: Form)
    requires ValidClasses(f.classes)
    ensures ValidClasses(AddClass(f).classes)
  {
  }
}
