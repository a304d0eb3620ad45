// How Python reads an integer from text, and the fixed-width numerals archives are written in,
// in base ten and in base sixteen.
module Numerals {
  import opened Basics

  /** White space of Latin-1 text, or only that of ASCII when the bytes are not decoded. */
  predicate IsSpace(text: bool, b: Byte) {
    9 <= b <= 13 || b == 32 || (text && (28 <= b <= 31 || b == 133 || b == 160))
  }

  function RStrip(text: bool, s: Bytes): (r: Bytes)
    ensures r <= s
  {
    if s != [] && IsSpace(text, s[|s| - 1]) then RStrip(text, s[..|s| - 1]) else s
  }

  function LStrip(text: bool, s: Bytes): Bytes {
    if s != [] && IsSpace(text, s[0]) then LStrip(text, s[1..]) else s
  }

  function Strip(text: bool, s: Bytes): Bytes {
    RStrip(text, LStrip(text, s))
  }

  datatype Base = Ten | Sixteen {
    function Value(): nat {
      if Ten? then 10 else 16
    }

    /** One more digit. */
    function Shift(n: nat, d: nat): nat {
      if Ten? then 10 * n + d else 16 * n + d
    }
  }

  function DigitOf(b: Byte): Option<nat> {
    if 48 <= b <= 57 then Some(b - 48)
    else if 97 <= b <= 102 then Some(b - 87)
    else if 65 <= b <= 70 then Some(b - 55)
    else None
  }

  const UNDERSCORE: Byte := 95

  /** Digits, single underscores allowed between them. */
  function ReadDigits(base: Base, s: Bytes): Option<nat>
    decreases |s|
  {
    if s == [] then None
    else
      var d := DigitOf(s[|s| - 1]);
      if d.None? || d.value >= base.Value() then None
      else if |s| == 1 then d
      else
        var before := if s[|s| - 2] == UNDERSCORE then s[..|s| - 2] else s[..|s| - 1];
        match ReadDigits(base, before) case None => None case Some(n) => Some(base.Shift(n, d.value))
  }

  /** After the sign: base sixteen may say `0x`, with one underscore after it. */
  function ReadMagnitude(base: Base, s: Bytes): Option<nat> {
    if base.Sixteen? && |s| >= 2 && s[0] == 48 && (s[1] == 120 || s[1] == 88)
    then ReadDigits(base, if |s| > 2 && s[2] == UNDERSCORE then s[3..] else s[2..])
    else ReadDigits(base, s)
  }

  function Negated(n: Option<nat>): Option<int> {
    match n
    case None => None
    case Some(m) => Some(0 as int - m)
  }

  /** `int(s)` of text, `int(s, 16)` of bytes. */
  function ReadInt(base: Base, s: Bytes): Option<int> {
    var t := Strip(base.Ten?, s);
    if t == [] then None
    else if t[0] == 45 then Negated(ReadMagnitude(base, t[1..]))
    else ReadMagnitude(base, if t[0] == 43 then t[1..] else t)
  }

  // ---- writing ------------------------------------------------------------------------------

  function HexDigit(d: nat): Byte
    requires d < 16
  {
    if d < 10 then 48 + d else 87 + d
  }

  /** `%0<width>x`, keeping the low digits. */
  function Hex(n: nat, width: nat): (r: Bytes)
    ensures |r| == width
  {
    if width == 0 then [] else Hex(n / 16, width - 1) + [HexDigit(n % 16)]
  }

  function Pow16(width: nat): nat {
    if width == 0 then 1 else 16 * Pow16(width - 1)
  }

  /** `%d`. */
  function Decimal(n: nat): (r: Bytes)
    ensures r != []
  {
    if n < 10 then [48 + n] else Decimal(n / 10) + [48 + n % 10]
  }

  lemma {:induction false} HexDigitsRead(n: nat, width: nat)
    requires width > 0 && n < Pow16(width)
    ensures ReadDigits(Sixteen, Hex(n, width)) == Some(n)
  {
    var s := Hex(n, width);
    assert DigitOf(s[|s| - 1]) == Some(n % 16);
    if width == 1 {
      assert Pow16(1) == 16 * Pow16(0) == 16;
    } else {
      HexDigitsRead(n / 16, width - 1);
      HexShape(n / 16, width - 1);
      assert s[..|s| - 1] == Hex(n / 16, width - 1);
      assert s[|s| - 2] == Hex(n / 16, width - 1)[width - 2];
    }
  }

  predicate IsHexDigit(b: Byte) {
    48 <= b <= 57 || 97 <= b <= 102
  }

  lemma {:induction false} HexShape(n: nat, width: nat)
    ensures forall i | 0 <= i < width :: IsHexDigit(Hex(n, width)[i])
  {
    if width == 0 {
    } else {
      HexShape(n / 16, width - 1);
    }
  }

  predicate IsDecimalDigit(b: Byte) {
    48 <= b <= 57
  }

  lemma {:induction false} DecimalShape(n: nat)
    ensures forall i | 0 <= i < |Decimal(n)| :: IsDecimalDigit(Decimal(n)[i])
  {
    if n >= 10 {
      DecimalShape(n / 10);
    }
  }

  lemma {:induction false} DecimalDigitsRead(n: nat)
    ensures ReadDigits(Ten, Decimal(n)) == Some(n)
  {
    var s := Decimal(n);
    assert DigitOf(s[|s| - 1]) == Some(n % 10);
    if n >= 10 {
      DecimalDigitsRead(n / 10);
      DecimalShape(n / 10);
      assert s[..|s| - 1] == Decimal(n / 10);
      assert s[|s| - 2] == Decimal(n / 10)[|s| - 2];
    }
  }

  function Pow10(width: nat): nat {
    if width == 0 then 1 else 10 * Pow10(width - 1)
  }

  lemma {:induction false} DecimalLength(n: nat, width: nat)
    requires width > 0 && n < Pow10(width)
    ensures |Decimal(n)| <= width
  {
    if n >= 10 {
      DecimalLength(n / 10, width - 1);
    }
  }

  function Spaces(n: nat): (r: Bytes)
    ensures |r| == n
  {
    seq(n, _ => 32)
  }

  lemma {:induction false} StripPadded(text: bool, s: Bytes, n: nat)
    requires s != [] && !IsSpace(text, s[|s| - 1])
    ensures RStrip(text, s + Spaces(n)) == s
  {
    if n == 0 {
      assert s + Spaces(0) == s;
    } else {
      assert (s + Spaces(n))[..|s| + n - 1] == s + Spaces(n - 1);
      StripPadded(text, s, n - 1);
    }
  }

  /** A fixed-width hexadecimal field reads back. */
  lemma {:induction false} HexRead(n: nat, width: nat)
    requires width > 0 && n < Pow16(width)
    ensures ReadInt(Sixteen, Hex(n, width)) == Some(n)
  {
    HexDigitsRead(n, width);
    HexShape(n, width);
    var s := Hex(n, width);
    assert IsHexDigit(s[0]) && IsHexDigit(s[|s| - 1]);
    assert |s| >= 2 ==> IsHexDigit(s[1]);
    assert LStrip(false, s) == s && RStrip(false, s) == s;
  }

  /** A decimal field padded with spaces reads back, whatever its sign. */
  lemma {:induction false} DecimalRead(n: nat, pad: nat)
    ensures ReadInt(Ten, Decimal(n) + Spaces(pad)) == Some(n)
    ensures ReadInt(Ten, [45] + Decimal(n) + Spaces(pad)) == Negated(Some(n))
  {
    DecimalDigitsRead(n);
    DecimalShape(n);
    var s, t := Decimal(n), [45] + Decimal(n);
    assert IsDecimalDigit(s[0]) && IsDecimalDigit(s[|s| - 1]) && t[|t| - 1] == s[|s| - 1];
    StripPadded(true, s, pad);
    StripPadded(true, t, pad);
    assert (s + Spaces(pad))[0] == s[0] && (t + Spaces(pad))[0] == 45;
    assert LStrip(true, s + Spaces(pad)) == s + Spaces(pad) && LStrip(true, t + Spaces(pad)) == t + Spaces(pad);
    assert t[1..] == s;
  }

  // ---- what is read ---------------------------------------------------------------------------

  const LOWER: Bytes := [48, 49, 50, 51, 52, 53, 54, 55, 56, 57, 97, 98, 99, 100, 101, 102]
  const UPPER: Bytes := [48, 49, 50, 51, 52, 53, 54, 55, 56, 57, 65, 66, 67, 68, 69, 70]

  /** The digits of both bases, in both cases. */
  lemma {:induction false} OneDigitIff(base: Base, b: Byte, d: nat)
    ensures ReadDigits(base, [b]) == Some(d)
       <==> d < (if base.Ten? then 10 else 16) && (b == LOWER[d] || b == UPPER[d])
  {
    if ReadDigits(base, [b]) == Some(d) {
      assert d < 16;
    }
  }

  /** Digits are read from the left, with single underscores between them. */
  lemma {:induction false} MoreDigits(base: Base, s: Bytes, b: Byte, d: nat, n: nat)
    requires s != [] && s[|s| - 1] != UNDERSCORE && ReadDigits(base, s) == Some(n) && ReadDigits(base, [b]) == Some(d)
    ensures ReadDigits(base, s + [b]) == Some((if base.Ten? then 10 else 16) * n + d)
    ensures ReadDigits(base, s + [UNDERSCORE] + [b]) == Some((if base.Ten? then 10 else 16) * n + d)
  {
    assert (s + [b])[..|s + [b]| - 1] == s;
    assert (s + [UNDERSCORE] + [b])[..|s + [UNDERSCORE] + [b]| - 2] == s;
  }

  /** White space around a number does not count: tab to carriage return and the space. */
  lemma PaddingIgnored(base: Base, s: Bytes, b: Byte)
    requires 9 <= b <= 13 || b == 32
    ensures ReadInt(base, [b] + s) == ReadInt(base, s) && ReadInt(base, s + [b]) == ReadInt(base, s)
  {
    assert ([b] + s)[1..] == s;
    LStripEnd(base.Ten?, s, b);
  }

  lemma {:induction false} LStripEnd(text: bool, s: Bytes, b: Byte)
    requires IsSpace(text, b)
    ensures Strip(text, s + [b]) == Strip(text, s)
    decreases |s|
  {
    var t := s + [b];
    if s == [] {
      assert t[1..] == [];
    } else if IsSpace(text, s[0]) {
      assert t[1..] == s[1..] + [b];
      LStripEnd(text, s[1..], b);
    } else {
      assert LStrip(text, t) == t && t[..|t| - 1] == s;
    }
  }

  /** Digits alone, and behind a sign. */
  lemma SignsRead(base: Base, s: Bytes, n: nat)
    requires s != [] && ReadMagnitude(base, s) == Some(n) && IsHexDigit(s[0]) && IsHexDigit(s[|s| - 1])
    ensures ReadInt(base, s) == Some(n) && ReadInt(base, [43] + s) == Some(n)
    ensures ReadInt(base, [45] + s) == Some(-(n as int))
  {
    var text := base.Ten?;
    assert ([45] + s)[1..] == s && ([43] + s)[1..] == s;
    Unstripped(text, s);
    Unstripped(text, [43] + s);
    Unstripped(text, [45] + s);
  }

  /** In base sixteen `0x` and `0X` may stand before the digits, and nothing in base ten. */
  lemma {:induction false} PrefixRead(s: Bytes, x: Byte)
    requires s != [] && s[0] != UNDERSCORE && (x == 120 || x == 88)
    ensures ReadMagnitude(Sixteen, [48, x] + s) == ReadDigits(Sixteen, s)
    ensures ReadMagnitude(Ten, s) == ReadDigits(Ten, s)
    ensures s[0] != 48 || |s| == 1 || (s[1] != 120 && s[1] != 88)
            ==> ReadMagnitude(Sixteen, s) == ReadDigits(Sixteen, s)
  {
    assert ([48, x] + s)[2..] == s;
  }

  lemma Unstripped(text: bool, s: Bytes)
    requires s != [] && !IsSpace(text, s[0]) && !IsSpace(text, s[|s| - 1])
    ensures Strip(text, s) == s
  {
  }
}
