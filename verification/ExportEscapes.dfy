/** The escaped candidate name read back by the rules of JSON strings, section 7 of RFC 8259. */
module ExportEscapes {
  import opened Numbers
  import opened ExportText

  function HexValue(c: char): Option<nat> {
    if '0' <= c <= '9' then Some(c as int - '0' as int)
    else if 'a' <= c <= 'f' then Some(c as int - 'a' as int + 10)
    else if 'A' <= c <= 'F' then Some(c as int - 'A' as int + 10)
    else None
  }

  /** The value of four hexadecimal digits. */
  function Hex4Value(s: string): Option<nat>
    requires |s| == 4
  {
    match (HexValue(s[0]), HexValue(s[1]), HexValue(s[2]), HexValue(s[3]))
    case (Some(a), Some(b), Some(c), Some(d)) => Some(0x1000 * a + 0x100 * b + 0x10 * c + d)
    case _ => None
  }

  /** The characters that a backslash and one letter stand for. */
  function ShortEscape(c: char): Option<char> {
    if c == '\"' || c == '\\' || c == '/' then Some(c)
    else if c == 'b' then Some(8 as char)
    else if c == 'f' then Some(12 as char)
    else if c == 'n' then Some('\n')
    else if c == 'r' then Some('\r')
    else if c == 't' then Some('\t')
    else None
  }

  function Prepend(c: char, rest: Option<string>): Option<string> {
    match rest
    case None => None
    case Some(s) => Some([c] + s)
  }

  /** The text a JSON string stands for. Quotes and control characters below 0x20 must not stand in
      it unescaped; escaped surrogates are not read. */
  function Unescape(s: string): Option<string>
    decreases |s|
  {
    if s == "" then Some("")
    else if s[0] == '\"' || s[0] as int < 0x20 then None
    else if s[0] != '\\' then Prepend(s[0], Unescape(s[1..]))
    else if |s| < 2 then None
    else if s[1] == 'u' then
      if |s| < 6 then None
      else
        match Hex4Value(s[2..6])
        case None => None
        case Some(value) =>
          if value < 0xd800 then Prepend(value as char, Unescape(s[6..])) else None
    else
      match ShortEscape(s[1])
      case None => None
      case Some(c) => Prepend(c, Unescape(s[2..]))
  }

  lemma HexDigitReadsBack(d: nat)
    requires d < 16
    ensures HexValue(HexDigit(d)) == Some(d)
  {
  }

  lemma HexParts(value: nat)
    requires value < 0x1_0000
    ensures value / 0x1000 < 16
    ensures 0x1000 * (value / 0x1000) + 0x100 * (value / 0x100 % 0x10) + 0x10 * (value / 0x10 % 0x10) + value % 0x10
         == value
  {
    var q1, q2, q3 := value / 0x10, value / 0x100, value / 0x1000;
    assert q2 == q1 / 0x10 && q3 == q2 / 0x10;
    assert value == 0x10 * q1 + value % 0x10 && q1 == 0x10 * q2 + q1 % 0x10 && q2 == 0x10 * q3 + q2 % 0x10;
  }

  lemma Hex4ReadsBack(value: nat)
    requires value < 0x1_0000
    ensures |Hex4(value)| == 4 && Hex4Value(Hex4(value)) == Some(value)
  {
    HexParts(value);
    var a, b, c, d := value / 0x1000, value / 0x100 % 0x10, value / 0x10 % 0x10, value % 0x10;
    HexDigitReadsBack(a);
    HexDigitReadsBack(b);
    HexDigitReadsBack(c);
    HexDigitReadsBack(d);
    hide HexDigit, HexValue;
    assert Hex4(value) == [HexDigit(a), HexDigit(b), HexDigit(c), HexDigit(d)];
    hide Hex4;
  }

  lemma EscapedCharReadsBack(c: char, rest: string)
    ensures Unescape(EscapeChar(c) + rest) == Prepend(c, Unescape(rest))
  {
    var s := EscapeChar(c) + rest;
    if |EscapeChar(c)| == 1 {
      assert s[1..] == rest;
    } else if |EscapeChar(c)| == 2 {
      assert s[2..] == rest;
    } else {
      Hex4ReadsBack(c as int);
      hide Hex4, Hex4Value;
      assert s[2..6] == Hex4(c as int) && s[6..] == rest;
    }
  }

  /** Only quotes, backslashes and control characters are escaped, and what is written is printable. */
  lemma EscapesExactly(c: char)
    ensures EscapeChar(c) == [c]
            <==> c != '\"' && c != '\\' && 0x20 <= c as int && !(0x7f <= c as int < 0xa0)
    ensures forall i :: 0 <= i < |EscapeChar(c)| ==> 0x20 <= EscapeChar(c)[i] as int
  {
    if IsControl(c) {
      Hex4IsPrintable(c as int);
      hide Hex4;
    }
  }

  lemma Hex4IsPrintable(value: nat)
    requires value < 0x1_0000
    ensures |Hex4(value)| == 4 && forall i :: 0 <= i < 4 ==> 0x20 <= Hex4(value)[i] as int
  {
    HexParts(value);
    var digits := [value / 0x1000, value / 0x100 % 0x10, value / 0x10 % 0x10, value % 0x10];
    assert forall i :: 0 <= i < 4 ==> Hex4(value)[i] == HexDigit(digits[i]) && HexDigit(digits[i]) as int >= 0x30;
  }

  /** Every name reads back: whatever characters it holds, its escaped form is a JSON string that
      stands for it. */
  lemma {:induction false} EscapeReadsBack(s: string)
    ensures Unescape(Escape(s)) == Some(s)
  {
    if s != "" {
      EscapeUnfolds(s);
      EscapedCharReadsBack(s[0], Escape(s[1..]));
      EscapeReadsBack(s[1..]);
      hide EscapeChar, Unescape, Escape;
      assert s == [s[0]] + s[1..];
    }
  }
}
