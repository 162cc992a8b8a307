/** How the creator shows colours: the 0-255 triple `int(c*255)` per channel,
    the `#rrggbb` string built with `'{:02x}'`, and the black-or-white text
    colour of each row of the keypoint list. */
module Display {
  import opened Outcomes
  import opened Keypoints

  /** Python's int() on a float: truncation toward zero. */
  function Trunc(x: real): (n: int)
    ensures 0.0 <= x ==> n as real <= x < n as real + 1.0
    ensures x < 0.0 ==> n as real - 1.0 < x <= n as real
  {
    if x >= 0.0 then x.Floor else -((-x).Floor)
  }

  /** The 0-255 value shown for a normalized channel. */
  function Channel255(c: real): (n: int)
    ensures InUnit(c) ==> 0 <= n <= 255
    ensures 0.0 <= c ==> n as real <= c * 255.0 < n as real + 1.0
    ensures c == 1.0 ==> n == 255
    ensures c == 0.0 ==> n == 0
  {
    Trunc(c * 255.0)
  }

  /** The `color_255` triple of a colour. */
  function Rgb255(c: Rgb): (int, int, int) {
    (Channel255(c.r), Channel255(c.g), Channel255(c.b))
  }

  predicate IsHexDigit(ch: char) {
    '0' <= ch <= '9' || 'a' <= ch <= 'f'
  }

  predicate AllHexDigits(s: string) {
    forall i :: 0 <= i < |s| ==> IsHexDigit(s[i])
  }

  function HexDigit(d: nat): (ch: char)
    requires d < 16
    ensures IsHexDigit(ch) && DigitValue(ch) == d
  {
    "0123456789abcdef"[d]
  }

  function DigitValue(ch: char): (d: nat)
    requires IsHexDigit(ch)
    ensures d < 16
  {
    if ch <= '9' then (ch - '0') as nat else (ch - 'a') as nat + 10
  }

  /** Reads a string of hexadecimal digits, most significant first. */
  function ParseHex(s: string): nat
    requires AllHexDigits(s)
  {
    if |s| == 0 then 0 else ParseHex(s[..|s| - 1]) * 16 + DigitValue(s[|s| - 1])
  }

  /** Lower-case hexadecimal digits of `n` without leading zeros ("0" for 0). */
  function HexNat(n: nat): (s: string)
    ensures AllHexDigits(s)
    ensures ParseHex(s) == n
    ensures n < 16 ==> |s| == 1
    ensures 16 <= n < 256 ==> |s| == 2
    ensures 0 < n ==> s[0] != '0'
  {
    if n < 16 then [HexDigit(n)]
    else
      var s := HexNat(n / 16) + [HexDigit(n % 16)];
      assert s[..|s| - 1] == HexNat(n / 16);
      s
  }

  /** Python's `'{:02x}'.format(n)`: lower-case hexadecimal, zero-padded to at
      least two characters, with a leading '-' for a negative value. */
  function Hex02(n: int): (s: string)
    ensures 0 <= n ==> 2 <= |s| && AllHexDigits(s) && ParseHex(s) == n
    ensures 0 <= n < 256 ==> |s| == 2
    ensures n < 0 ==> 2 <= |s| && s[0] == '-' && AllHexDigits(s[1..]) && ParseHex(s[1..]) == -n
    ensures 16 <= n ==> s[0] != '0'
    ensures n < 0 ==> s[1] != '0'
  {
    if n < 0 then
      var s := "-" + HexNat(-n);
      assert s[1..] == HexNat(-n);
      s
    else if n < 16 then
      var s := "0" + HexNat(n);
      assert s[..|s| - 1] == "0";
      assert ParseHex("0") == 0;
      s
    else HexNat(n)
  }

  /** Reads a `#rrggbb` string back into its 0-255 triple; None when the
      string is not of that shape. */
  function ParseHexColor(s: string): Option<(int, int, int)> {
    if |s| == 7 && s[0] == '#' && AllHexDigits(s[1..]) then
      Some((ParseHex(s[1..3]), ParseHex(s[3..5]), ParseHex(s[5..7])))
    else None
  }

  /** The `'#{:02x}{:02x}{:02x}'` string of a colour. For channels in [0, 1]
      it is '#' and six lower-case hex digits that read back as the colour's
      0-255 triple. */
  function HexColor(c: Rgb): (s: string)
    ensures ValidRgb(c) ==> |s| == 7 && s[0] == '#' && AllHexDigits(s[1..])
    ensures ValidRgb(c) ==> ParseHexColor(s) == Some(Rgb255(c))
  {
    var t := Rgb255(c);
    assert ValidRgb(c) ==> ParseHexColor("#" + Hex02(t.0) + Hex02(t.1) + Hex02(t.2)) == Some(t) by {
      if ValidRgb(c) {
        HexTripleReadsBack(t.0, t.1, t.2);
      }
    }
    "#" + Hex02(t.0) + Hex02(t.1) + Hex02(t.2)
  }

  lemma HexTripleReadsBack(r: int, g: int, b: int)
    requires 0 <= r < 256 && 0 <= g < 256 && 0 <= b < 256
    ensures var s := "#" + Hex02(r) + Hex02(g) + Hex02(b);
            |s| == 7 && s[0] == '#' && AllHexDigits(s[1..])
            && ParseHexColor(s) == Some((r, g, b))
  {
    var x, y, z := Hex02(r), Hex02(g), Hex02(b);
    var s := "#" + x + y + z;
    assert s[1..3] == x;
    assert s[3..5] == y;
    assert s[5..7] == z;
    assert s[1..] == x + y + z;
  }

  /** Perceived brightness of a colour with the 299/587/114 weights. */
  function Brightness(c: Rgb): (y: real)
    ensures ValidRgb(c) ==> 0.0 <= y <= 1.0
  {
    (c.r * 299.0 + c.g * 587.0 + c.b * 114.0) / 1000.0
  }

  datatype TextColor = BlackText | WhiteText

  /** Text colour of a list row: black on a bright background, white otherwise. */
  function TextOn(c: Rgb): TextColor {
    if Brightness(c) > 0.5 then BlackText else WhiteText
  }

  /** Raising every channel can only turn white text to black, never back. */
  lemma TextOnMonotone(c: Rgb, d: Rgb)
    requires c.r <= d.r && c.g <= d.g && c.b <= d.b
    ensures TextOn(c) == BlackText ==> TextOn(d) == BlackText
    ensures TextOn(d) == WhiteText ==> TextOn(c) == WhiteText
  {
    assert Brightness(c) <= Brightness(d);
  }

  /** One row of the keypoint list: the 0-255 triple shown in the label, the
      background hex string and the text colour. The `{:.2f}` position label
      is not modelled. */
  datatype Row = Row(rgb255: (int, int, int), background: string, text: TextColor)

  function ListRow(k: Keypoint): Row {
    Row(Rgb255(k.color), HexColor(k.color), TextOn(k.color))
  }

  /** The rows update_color_list shows: one per keypoint, in list order, each
      painted with the colour whose triple its label shows. */
  function ColorList(s: seq<Keypoint>): (rows: seq<Row>)
    ensures |rows| == |s|
    ensures forall i :: 0 <= i < |s| ==> rows[i].rgb255 == Rgb255(s[i].color)
    ensures AllValid(s) ==> forall i :: 0 <= i < |s| ==>
              ParseHexColor(rows[i].background) == Some(rows[i].rgb255)
    ensures forall i :: 0 <= i < |s| ==>
              (rows[i].text == BlackText <==> Brightness(s[i].color) > 0.5)
  {
    seq(|s|, i requires 0 <= i < |s| => ListRow(s[i]))
  }
}
