/** Characters and hexadecimal digits as the text routines of `iwlib.c` use them ("C" locale). */
module Hex {
  import opened Basics

  /** A value below 16. */
  type nibble = x: int | 0 <= x < 16

  /** isxdigit */
  predicate IsHex(c: byte) {
    48 <= c <= 57 || 65 <= c <= 70 || 97 <= c <= 102
  }

  function Value(c: byte): nibble
    requires IsHex(c)
  {
    if c <= 57 then c - 48 else if c <= 70 then c - 55 else c - 87
  }

  /** The digit %X prints. */
  function Digit(v: nibble): (c: byte)
    ensures IsHex(c) && Value(c) == v && 48 <= c <= 70
  {
    if v < 10 then 48 + v else 55 + v
  }

  function Join(h: nibble, l: nibble): byte {
    16 * h + l
  }

  /** What "%02X" prints for a byte. */
  function Digits(b: byte): (t: seq<byte>)
    ensures |t| == 2 && IsHex(t[0]) && IsHex(t[1]) && Join(Value(t[0]), Value(t[1])) == b
  {
    [Digit(b / 16), Digit(b % 16)]
  }

  /** The capital form of a hexadecimal digit; other characters stay as they are. */
  function Capital(c: byte): byte {
    if 97 <= c <= 102 then c - 32 else c
  }

  /** Printing what two digits stand for gives them back in capitals. */
  lemma DigitsOfJoin(h: byte, l: byte)
    requires IsHex(h) && IsHex(l)
    ensures Digits(Join(Value(h), Value(l))) == [Capital(h), Capital(l)]
  {
    var b := Join(Value(h), Value(l));
    assert b / 16 == Value(h) && b % 16 == Value(l);
  }

  /** The digits are the characters '0' to '9', 'A' to 'F' and 'a' to 'f', and stand for 0 to 15. */
  lemma HexDigits(c: byte)
    ensures IsHex(c) <==> 48 <= c <= 57 || 65 <= c <= 70 || 97 <= c <= 102
    ensures IsHex(c) ==> Value(c) == if c <= 57 then c - 48 else if c <= 70 then 10 + (c - 65) else 10 + (c - 97)
  {
  }
}
