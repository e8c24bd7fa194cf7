/** The move token the client sends: the piece letter, the orientation
    code, then the 1-based column and row, each written in uppercase
    hexadecimal.  Also the orientation numbering of gen_action. */
module Codec {
  import opened Board

  /** gen_action: (rotation, flip) numbered rotation * 2 + (1 if flipped).
      The if / elif chain has no final else, so any rotation outside 0..3
      falls through to Python's implicit None. */
  function GenAction(rotation: int, flip: bool): (r: Option<nat>)
    ensures r.Some? <==> 0 <= rotation < 4
    ensures r.Some? ==> r.value < 8
  {
    if rotation == 0 && !flip then Some(0)
    else if rotation == 0 && flip then Some(1)
    else if rotation == 1 && !flip then Some(2)
    else if rotation == 1 && flip then Some(3)
    else if rotation == 2 && !flip then Some(4)
    else if rotation == 2 && flip then Some(5)
    else if rotation == 3 && !flip then Some(6)
    else if rotation == 3 && flip then Some(7)
    else None
  }

  /** The (rotation, flip) pair an orientation code stands for. */
  function ActionLabels(action: nat): (int, bool) {
    (action / 2, action % 2 == 1)
  }

  /** The eight codes are exactly the eight (rotation, flip) pairs, one each. */
  lemma GenActionInverse(rotation: int, flip: bool, action: nat)
    ensures GenAction(rotation, flip) == Some(action) <==>
            action < 8 && ActionLabels(action) == (rotation, flip)
  {
  }

  /** A digit value below 16 written as the character Python's `X` format
      uses: '0'..'9', then 'A'..'F'. */
  function Digit(d: nat): (ch: char)
    requires d < 16
  {
    if d < 10 then ('0' as int + d) as char else ('A' as int + d - 10) as char
  }

  /** The value of an uppercase hexadecimal digit character; None for
      anything else (lower-case letters included). */
  function DigitValue(ch: char): (r: Option<nat>)
    ensures r.Some? ==> r.value < 16
  {
    if '0' <= ch <= '9' then Some(ch as int - '0' as int)
    else if 'A' <= ch <= 'F' then Some(ch as int - 'A' as int + 10)
    else None
  }

  /** Digit and DigitValue invert each other. */
  lemma DigitRoundTrip(d: nat, ch: char)
    requires d < 16
    ensures DigitValue(Digit(d)) == Some(d)
    ensures DigitValue(ch) == Some(d) ==> Digit(d) == ch
  {
  }

  /** Splitting off the last digit of a number of two or more digits. */
  lemma LastDigit(n: nat, base: nat)
    requires 2 <= base <= n
    ensures 1 <= n / base < n
    ensures n == n / base * base + n % base
    ensures n % base < base
  {
    var q, r := n / base, n % base;
    assert n == base * q + r && 0 <= r < base;
    assert base * q > 0;
    assert q > 0 by {
      ProductSign(base, q);
    }
    assert base * q >= 2 * q by {
      ProductSign(base - 2, q);
    }
  }

  lemma ProductSign(a: nat, q: int)
    ensures q <= 0 ==> a * q <= 0
    ensures q >= 0 ==> a * q >= 0
  {
  }

  /** n written in the given base with no leading zeros, most significant
      digit first, as `format(n, 'X')` does for base 16 and `str` for 10. */
  function Numeral(n: nat, base: nat): (s: string)
    requires 2 <= base <= 16
    ensures |s| >= 1
    ensures n < base <==> |s| == 1
    ensures n > 0 ==> s[0] != '0'
    ensures forall k :: 0 <= k < |s| ==> DigitValue(s[k]).Some? && DigitValue(s[k]).value < base
    decreases n
  {
    if n < base then [Digit(n)]
    else
      LastDigit(n, base);
      Numeral(n / base, base) + [Digit(n % base)]
  }

  /** Reads a numeral back: every character a digit below base, at least one. */
  function ParseNumeral(s: string, base: nat): (r: Option<nat>)
    requires 2 <= base <= 16
    decreases |s|
  {
    if |s| == 0 then None
    else
      var last := DigitValue(s[|s| - 1]);
      if last.None? || last.value >= base then None
      else if |s| == 1 then Some(last.value)
      else
        match ParseNumeral(s[..|s| - 1], base)
        case None => None
        case Some(high) => Some(high * base + last.value)
  }

  /** Reading a numeral gives back the number written. */
  lemma {:induction false} NumeralRoundTrip(n: nat, base: nat)
    requires 2 <= base <= 16
    ensures ParseNumeral(Numeral(n, base), base) == Some(n)
    decreases n
  {
    var s := Numeral(n, base);
    DigitRoundTrip(n % base, s[|s| - 1]);
    if n >= base {
      LastDigit(n, base);
      var high := Numeral(n / base, base);
      assert s == high + [Digit(n % base)];
      assert s[..|s| - 1] == high;
      NumeralRoundTrip(n / base, base);
    }
  }

  /** `f'{n:X}'`: a minus sign for negative numbers, then the digits. */
  function Hex(n: int): (s: string)
    ensures |s| >= 1
    ensures 0 <= n < 16 ==> s == [Digit(n)]
    ensures n >= 16 ==> |s| >= 2
  {
    if n < 0 then "-" + Numeral(-n, 16) else Numeral(n, 16)
  }

  /** `f'{n}'` for an integer. */
  function Decimal(n: int): (s: string)
    ensures |s| >= 1
    ensures 0 <= n < 10 ==> s == [Digit(n)]
  {
    if n < 0 then "-" + Numeral(-n, 10) else Numeral(n, 10)
  }

  /** The placement token `f'{block_type}{action}{hx}{hy}'` with
      hx = x + 1 and hy = y + 1 in uppercase hexadecimal: it starts with the
      piece letter, has at least one character per field, and for a
      one-digit code and coordinates 0..14 it is exactly those four digits. */
  function EncodeMove(piece: char, action: int, x: int, y: int): (r: string)
    ensures |r| >= 4 && r[0] == piece
    ensures 0 <= action < 10 && 0 <= x < 15 && 0 <= y < 15 ==>
              r == [piece, Digit(action), Digit(x + 1), Digit(y + 1)]
  {
    [piece] + Decimal(action) + Hex(x + 1) + Hex(y + 1)
  }

  /** The fields a placement token carries. */
  datatype MoveFields = MoveFields(piece: char, action: nat, x: int, y: int)

  /** Reads a four-character placement token.  Coordinates are 1-based on
      the wire, so a coordinate digit 0 is not a placement. */
  function DecodeMove(t: string): (r: Option<MoveFields>)
    ensures r.Some? ==> |t| == 4 && r.value.action < 10
    ensures r.Some? ==> 0 <= r.value.x < 15 && 0 <= r.value.y < 15
  {
    if |t| != 4 then None
    else
      var a, hx, hy := DigitValue(t[1]), DigitValue(t[2]), DigitValue(t[3]);
      if a.None? || a.value >= 10 || hx.None? || hx.value == 0 || hy.None? || hy.value == 0 then None
      else Some(MoveFields(t[0], a.value, hx.value - 1, hy.value - 1))
  }

  /** Every in-range placement is a four-character token that reads back
      as the same fields. */
  lemma EncodeDecode(piece: char, action: nat, x: int, y: int)
    requires action < 10 && 0 <= x < 15 && 0 <= y < 15
    ensures |EncodeMove(piece, action, x, y)| == 4
    ensures DecodeMove(EncodeMove(piece, action, x, y)) == Some(MoveFields(piece, action, x, y))
  {
    DigitRoundTrip(action, 'A');
    DigitRoundTrip(x + 1, 'A');
    DigitRoundTrip(y + 1, 'A');
  }

  /** Every token that reads as a placement is the encoding of what it
      reads as: the encoding is onto the valid tokens. */
  lemma DecodeEncode(t: string)
    requires DecodeMove(t).Some?
    ensures var m := DecodeMove(t).value;
            EncodeMove(m.piece, m.action, m.x, m.y) == t
  {
    var m := DecodeMove(t).value;
    DigitRoundTrip(m.action, t[1]);
    DigitRoundTrip(m.x + 1, t[2]);
    DigitRoundTrip(m.y + 1, t[3]);
    assert EncodeMove(m.piece, m.action, m.x, m.y) == [t[0], t[1], t[2], t[3]];
  }

  /** A column or row of 15 or more would need two hex digits, so the token
      only has its four-character shape on boards up to 15 wide. */
  lemma WideCoordinate(piece: char, action: nat, x: int, y: int)
    requires action < 10 && x >= 15 && y >= 0
    ensures |EncodeMove(piece, action, x, y)| > 4
    ensures DecodeMove(EncodeMove(piece, action, x, y)).None?
  {
  }

  /** The pass token is never read as a placement. */
  const Pass: string := "X000"

  lemma PassIsNotAPlacement()
    ensures DecodeMove(Pass).None?
  {
  }
}
