/** JavaScript's number-to-hex printing and `parseInt(_, 16)`, as far as the image codec uses them. */
module Hex {

  /** A JavaScript number that is either an integer or NaN. */
  datatype Num = NaN | Val(n: int)

  const HEX_DIGITS := "0123456789abcdef"

  /** `n.toString(16)` for a non-negative n. */
  function Digits16(n: nat): string {
    if n < 16 then [HEX_DIGITS[n]] else Digits16(n / 16) + [HEX_DIGITS[n % 16]]
  }

  /** `c.toString(16)` */
  function ToString16(c: int): string {
    if c < 0 then "-" + Digits16(-c) else Digits16(c)
  }

  function PadStart(s: string, pad: nat): string {
    if |s| >= pad then s else seq(pad - |s|, _ => '0') + s
  }

  function ToPaddedHex(c: int, pad: nat := 2): string {
    PadStart(ToString16(c), pad)
  }

  function RgbToHex(r: nat, g: nat, b: nat): string {
    ToPaddedHex(r) + ToPaddedHex(g) + ToPaddedHex(b)
  }

  // ----- parseInt(s, 16) -----

  predicate IsSpace(c: char) {
    c in "\t\n\r \U{000B}\U{000C}\U{00A0}\U{1680}\U{2028}\U{2029}\U{202F}\U{205F}\U{3000}\U{FEFF}"
    || '\U{2000}' <= c <= '\U{200A}'
  }

  predicate IsHexDigit(c: char) {
    '0' <= c <= '9' || 'a' <= c <= 'f' || 'A' <= c <= 'F'
  }

  function DigitValue(c: char): nat
    requires IsHexDigit(c)
  {
    if c <= '9' then (c - '0') as nat
    else if c <= 'F' then (c - 'A') as nat + 10
    else (c - 'a') as nat + 10
  }

  function TrimStart(s: string): string {
    if s != [] && IsSpace(s[0]) then TrimStart(s[1..]) else s
  }

  /** Value of the longest prefix of hex digits, in front of which `acc` has been read. */
  function ReadDigits(s: string, acc: nat): nat {
    if s == [] || !IsHexDigit(s[0]) then acc else ReadDigits(s[1..], 16 * acc + DigitValue(s[0]))
  }

  function DropPrefix(unsigned: string): string {
    if |unsigned| >= 2 && unsigned[0] == '0' && (unsigned[1] == 'x' || unsigned[1] == 'X')
    then unsigned[2..] else unsigned
  }

  /** What follows the sign: an optional prefix, then the digits. */
  function ParseUnsigned(unsigned: string): Num {
    var digits := DropPrefix(unsigned);
    if digits == [] || !IsHexDigit(digits[0]) then NaN else Val(ReadDigits(digits, 0))
  }

  function ParseInt16(s: string): Num {
    var trimmed := TrimStart(s);
    var signed := trimmed != [] && (trimmed[0] == '+' || trimmed[0] == '-');
    var number := ParseUnsigned(if signed then trimmed[1..] else trimmed);
    if number.Val? && signed && trimmed[0] == '-' then Val(-number.n) else number
  }

  // ----- properties -----

  /** The digits that printing uses. */
  predicate IsPrintedDigit(c: char) {
    '0' <= c <= '9' || 'a' <= c <= 'f'
  }

  ghost predicate AllDigits(s: string) {
    forall i :: 0 <= i < |s| ==> IsPrintedDigit(s[i])
  }

  lemma PrintedDigit(k: nat)
    requires k < 16
    ensures IsPrintedDigit(HEX_DIGITS[k]) && DigitValue(HEX_DIGITS[k]) == k
  {
  }

  lemma PrintedDigitIsNotSpace(c: char)
    requires IsPrintedDigit(c)
    ensures !IsSpace(c)
  {
  }

  lemma {:induction false} Digits16AreDigits(n: nat)
    ensures AllDigits(Digits16(n)) && |Digits16(n)| >= 1
    decreases n
  {
    PrintedDigit(n % 16);
    if n >= 16 {
      Digits16AreDigits(n / 16);
    }
  }

  lemma {:induction false} ReadDigitsAppend(s: string, c: char, acc: nat)
    requires AllDigits(s) && IsHexDigit(c)
    ensures ReadDigits(s + [c], acc) == 16 * ReadDigits(s, acc) + DigitValue(c)
    decreases s
  {
    if s == [] {
      assert s + [c] == [c];
      assert [c][1..] == [];
    } else {
      assert (s + [c])[1..] == s[1..] + [c];
      ReadDigitsAppend(s[1..], c, 16 * acc + DigitValue(s[0]));
    }
  }

  /** Reading back the printed digits gives the number. */
  lemma {:induction false} ReadPrinted(n: nat)
    ensures ReadDigits(Digits16(n), 0) == n
    decreases n
  {
    if n >= 16 {
      Digits16AreDigits(n / 16);
      ReadPrinted(n / 16);
      PrintedDigit(n % 16);
      ReadDigitsAppend(Digits16(n / 16), HEX_DIGITS[n % 16], 0);
    } else {
      PrintedDigit(n);
      assert [HEX_DIGITS[n]][1..] == [];
    }
  }

  lemma ReadZeros(s: string)
    ensures ReadDigits(['0'] + s, 0) == ReadDigits(s, 0)
  {
    assert (['0'] + s)[1..] == s;
  }

  lemma DigitStringParses(s: string)
    requires AllDigits(s) && s != []
    ensures ParseInt16(s) == Val(ReadDigits(s, 0))
  {
    PrintedDigitIsNotSpace(s[0]);
    assert TrimStart(s) == s;
  }

  lemma NegatedDigitStringParses(s: string)
    requires AllDigits(s) && s != []
    ensures ParseInt16("-" + s) == Val(-(ReadDigits(s, 0) as int))
  {
    var t := "-" + s;
    assert t[0] == '-' && t[1..] == s;
    MinusIsNotSpace();
    assert TrimStart(t) == t;
  }

  lemma MinusIsNotSpace()
    ensures !IsSpace('-')
  {
  }

  /** Printing any integer and parsing it back is the identity, with or without padding to two places. */
  lemma ParsePrinted(c: int)
    ensures ParseInt16(ToString16(c)) == Val(c)
    ensures ParseInt16(ToPaddedHex(c)) == Val(c)
  {
    var n: nat := if c < 0 then -c else c;
    var digits := Digits16(n);
    Digits16AreDigits(n);
    ReadPrinted(n);
    DigitStringParses(digits);
    NegatedDigitStringParses(digits);
    if c >= 0 && |digits| < 2 {
      ReadZeros(digits);
      DigitStringParses(['0'] + digits);
      assert ToPaddedHex(c) == ['0'] + digits;
    }
  }

  lemma OneDigit(n: nat)
    ensures |Digits16(n)| == 1 <==> n < 16
  {
    if n >= 16 {
      Digits16AreDigits(n / 16);
    }
  }

  lemma OneDigitMore(n: nat)
    requires n >= 16
    ensures |Digits16(n)| == |Digits16(n / 16)| + 1
  {
  }

  /** Numbers below 16 have one digit, those below 256 two, all others more. */
  lemma DigitsOfByte(n: nat)
    ensures |Digits16(n)| >= 1
    ensures |Digits16(n)| == 1 <==> n < 16
    ensures |Digits16(n)| <= 2 <==> n < 256
  {
    Digits16AreDigits(n);
    OneDigit(n);
    OneDigit(n / 16);
    if n >= 16 {
      OneDigitMore(n);
      Digits16AreDigits(n / 16);
    }
    hide Digits16;
  }

  /** Exactly the values up to one byte are printed in two characters, -1 to -15 being the signed ones. */
  lemma TwoCharacters(c: int)
    ensures |ToPaddedHex(c)| == 2 <==> -15 <= c <= 255
    ensures |ToPaddedHex(c)| >= 2
  {
    DigitsOfByte(if c < 0 then -c else c);
    hide Digits16;
  }

  lemma PrintedIsHex(c: nat)
    ensures AllDigits(ToPaddedHex(c))
  {
    Digits16AreDigits(c);
  }

  // ----- texts that were not printed -----

  /** The value of a digit is its place in either alphabet. */
  lemma DigitValues(k: nat)
    requires k < 16
    ensures IsHexDigit("0123456789abcdef"[k]) && DigitValue("0123456789abcdef"[k]) == k
    ensures IsHexDigit("0123456789ABCDEF"[k]) && DigitValue("0123456789ABCDEF"[k]) == k
  {
  }

  lemma {:induction false} SpacesAreSkipped(spaces: string, rest: string)
    requires forall i :: 0 <= i < |spaces| ==> IsSpace(spaces[i])
    requires rest == [] || !IsSpace(rest[0])
    ensures TrimStart(spaces + rest) == rest
    decreases spaces
  {
    if spaces == [] {
      assert spaces + rest == rest;
    } else {
      assert (spaces + rest)[1..] == spaces[1..] + rest;
      SpacesAreSkipped(spaces[1..], rest);
    }
  }

  lemma {:induction false} ReadingStops(digits: string, rest: string, acc: nat)
    requires forall i :: 0 <= i < |digits| ==> IsHexDigit(digits[i])
    requires rest == [] || !IsHexDigit(rest[0])
    ensures ReadDigits(digits + rest, acc) == ReadDigits(digits, acc)
    decreases digits
  {
    if digits == [] {
      assert digits + rest == rest;
    } else {
      assert (digits + rest)[1..] == digits[1..] + rest;
      ReadingStops(digits[1..], rest, 16 * acc + DigitValue(digits[0]));
    }
  }

  /** No prefix, or one of the two that `parseInt` skips; without one, the text after it does not look like one. */
  predicate IsPrefix(prefix: string, body: string) {
    prefix == "0x" || prefix == "0X"
    || (prefix == "" && !(|body| >= 2 && body[0] == '0' && (body[1] == 'x' || body[1] == 'X')))
  }

  predicate IsSign(sign: string) {
    sign == "" || sign == "+" || sign == "-"
  }

  /**
   * Any text is read as spaces, a sign, a prefix, hexadecimal digits in either case, and a rest that does not matter.
   * Without digits it is not a number.
   */
  lemma ParseIntReads(spaces: string, sign: string, prefix: string, digits: string, rest: string)
    requires forall i :: 0 <= i < |spaces| ==> IsSpace(spaces[i])
    requires IsSign(sign) && IsPrefix(prefix, digits + rest)
    requires forall i :: 0 <= i < |digits| ==> IsHexDigit(digits[i])
    requires rest == [] || !IsHexDigit(rest[0])
    requires sign == prefix == "" && digits == [] ==> rest == [] || (!IsSpace(rest[0]) && !IsSign(rest[..1]))
    ensures ParseInt16(spaces + (sign + (prefix + (digits + rest))))
         == if digits == [] then NaN
            else Val(if sign == "-" then -(ReadDigits(digits, 0) as int) else ReadDigits(digits, 0))
  {
    hide ReadDigits, TrimStart, IsSpace, ParseUnsigned, IsHexDigit, IsPrefix, IsSign;
    SignedFront(sign, prefix, digits, rest);
    SpacesAreSkipped(spaces, sign + (prefix + (digits + rest)));
    UnsignedReads(prefix, digits, rest);
  }

  lemma UnsignedReads(prefix: string, digits: string, rest: string)
    requires IsPrefix(prefix, digits + rest)
    requires forall i :: 0 <= i < |digits| ==> IsHexDigit(digits[i])
    requires rest == [] || !IsHexDigit(rest[0])
    ensures ParseUnsigned(prefix + (digits + rest)) == if digits == [] then NaN else Val(ReadDigits(digits, 0))
  {
    hide ReadDigits, IsHexDigit, DropPrefix, IsPrefix;
    PrefixIsDropped(prefix, digits + rest);
    ReadingStops(digits, rest, 0);
    assert digits == [] ==> digits + rest == rest;
  }

  lemma PrefixIsDropped(prefix: string, body: string)
    requires IsPrefix(prefix, body)
    ensures DropPrefix(prefix + body) == body
  {
    if prefix == "" {
      assert prefix + body == body;
    } else {
      assert (prefix + body)[2..] == body;
    }
  }

  lemma SignedFront(sign: string, prefix: string, digits: string, rest: string)
    requires IsSign(sign) && IsPrefix(prefix, digits + rest)
    requires forall i :: 0 <= i < |digits| ==> IsHexDigit(digits[i])
    requires sign == prefix == "" && digits == [] ==> rest == [] || (!IsSpace(rest[0]) && !IsSign(rest[..1]))
    ensures var trimmed := sign + (prefix + (digits + rest));
      var signed := trimmed != [] && (trimmed[0] == '+' || trimmed[0] == '-');
      && (trimmed == [] || !IsSpace(trimmed[0]))
      && (signed <==> sign != "") && (signed && trimmed[0] == '-' <==> sign == "-")
      && (if signed then trimmed[1..] else trimmed) == prefix + (digits + rest)
  {
    var unsigned := prefix + (digits + rest);
    if sign == prefix == "" && digits == [] {
      assert unsigned == rest;
      if rest != [] {
        assert rest[..1] == [rest[0]];
      }
    } else if sign == prefix == "" {
      assert unsigned[0] == digits[0];
    }
    if sign == "" {
      assert sign + unsigned == unsigned;
    } else {
      assert (sign + unsigned)[0] == sign[0] && (sign + unsigned)[1..] == unsigned;
    }
  }

  // ----- colour texts -----

  /** Six printed digits. */
  predicate IsColorText(text: string) {
    |text| == 6 && forall i :: 0 <= i < |text| ==> IsPrintedDigit(text[i])
  }

  /** The text is a colour, and its three pairs of digits are read as red, green and blue, in this order. */
  predicate Names(text: string, red: nat, green: nat, blue: nat) {
    && IsColorText(text)
    && ParseInt16(text[..2]) == Val(red) && ParseInt16(text[2..4]) == Val(green) && ParseInt16(text[4..]) == Val(blue)
  }

  lemma DigitValueIsOnto(c: char)
    requires IsPrintedDigit(c)
    ensures DigitValue(c) < 16 && HEX_DIGITS[DigitValue(c)] == c
  {
  }

  /** Two digits are read as their place values, and printed again as themselves. */
  lemma TwoDigitsRead(text: string)
    requires |text| == 2 && AllDigits(text)
    ensures ParseInt16(text).Val? && 0 <= ParseInt16(text).n < 256
    ensures ToPaddedHex(ParseInt16(text).n) == text
  {
    var a, b := DigitValue(text[0]), DigitValue(text[1]);
    DigitValueIsOnto(text[0]);
    DigitValueIsOnto(text[1]);
    DigitStringParses(text);
    assert text == [text[0]] + [text[1]];
    assert [text[0]][1..] == [];
    ReadDigitsAppend([text[0]], text[1], 0);
    var n := 16 * a + b;
    assert ReadDigits(text, 0) == n && n / 16 == a && n % 16 == b;
    assert Digits16(n) == if a == 0 then [text[1]] else text;
  }

  lemma RgbToHexNames(r: nat, g: nat, b: nat)
    requires r < 256 && g < 256 && b < 256
    ensures Names(RgbToHex(r, g, b), r, g, b)
  {
    hide ToPaddedHex, ParseInt16, IsPrintedDigit, IsColorText;
    TwoCharacters(r); TwoCharacters(g); TwoCharacters(b);
    ParsePrinted(r); ParsePrinted(g); ParsePrinted(b);
    PrintedIsHex(r); PrintedIsHex(g); PrintedIsHex(b);
    ThreePairs(ToPaddedHex(r), ToPaddedHex(g), ToPaddedHex(b));
  }

  lemma NamedIsPrinted(text: string, r: nat, g: nat, b: nat)
    requires Names(text, r, g, b)
    ensures text == RgbToHex(r, g, b)
  {
    hide ToPaddedHex, ParseInt16, IsPrintedDigit;
    TwoDigitsRead(text[..2]);
    TwoDigitsRead(text[2..4]);
    TwoDigitsRead(text[4..]);
    assert text == text[..2] + text[2..4] + text[4..];
  }

  /** The text made from three bytes, and no other, names them. */
  lemma RgbToHexIff(text: string, r: nat, g: nat, b: nat)
    requires r < 256 && g < 256 && b < 256
    ensures text == RgbToHex(r, g, b) <==> Names(text, r, g, b)
  {
    hide Names, RgbToHex;
    RgbToHexNames(r, g, b);
    if Names(text, r, g, b) {
      NamedIsPrinted(text, r, g, b);
    }
  }

  lemma ThreePairs(a: string, b: string, c: string)
    requires |a| == |b| == |c| == 2 && AllDigits(a) && AllDigits(b) && AllDigits(c)
    ensures var s := a + b + c; IsColorText(s) && s[..2] == a && s[2..4] == b && s[4..] == c
  {
    hide IsPrintedDigit;
  }

  /** Every colour text names some colour. */
  lemma ColorTextNames(text: string) returns (r: nat, g: nat, b: nat)
    requires IsColorText(text)
    ensures r < 256 && g < 256 && b < 256 && Names(text, r, g, b)
  {
    TwoDigitsRead(text[..2]);
    TwoDigitsRead(text[2..4]);
    TwoDigitsRead(text[4..]);
    r, g, b := ParseInt16(text[..2]).n, ParseInt16(text[2..4]).n, ParseInt16(text[4..]).n;
  }

  /** On byte channels the colour text determines the colour. */
  lemma RgbToHexInjective(r: nat, g: nat, b: nat, r': nat, g': nat, b': nat)
    requires r < 256 && g < 256 && b < 256 && r' < 256 && g' < 256 && b' < 256
    requires RgbToHex(r, g, b) == RgbToHex(r', g', b')
    ensures r == r' && g == g' && b == b'
  {
    RgbToHexIff(RgbToHex(r, g, b), r, g, b);
    RgbToHexIff(RgbToHex(r, g, b), r', g', b');
  }

  lemma {:induction false} ReadDigitsBound(s: string, acc: nat, bound: nat)
    requires |s| <= 2
    requires 1 <= bound && acc < bound
    ensures ReadDigits(s, acc) < bound * 256
    ensures |s| <= 1 ==> ReadDigits(s, acc) < bound * 16
    decreases s
  {
    if s != [] && IsHexDigit(s[0]) {
      ReadDigitsBound(s[1..], 16 * acc + DigitValue(s[0]), 16 * bound);
    }
  }

  lemma {:induction false} TrimStartShortens(s: string)
    ensures |TrimStart(s)| <= |s|
    decreases s
  {
    if s != [] && IsSpace(s[0]) {
      TrimStartShortens(s[1..]);
    }
  }

  /** Two characters never denote more than one byte. */
  lemma TwoCharactersAreOneByte(s: string)
    requires |s| <= 2
    ensures ParseInt16(s).Val? ==> -15 <= ParseInt16(s).n <= 255
  {
    TrimStartShortens(s);
    var trimmed := TrimStart(s);
    var signed := trimmed != [] && (trimmed[0] == '+' || trimmed[0] == '-');
    var unsigned := if signed then trimmed[1..] else trimmed;
    ReadDigitsBound(unsigned, 0, 1);
  }
}
