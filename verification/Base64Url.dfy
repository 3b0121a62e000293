/** The URL-safe base64 text of bytes, without padding (section 5 of RFC 4648). */
module Base64Url {
  import opened Text

  type Byte = b: int | 0 <= b < 256

  function Digit(n: nat): char
    requires n < 64
  {
    if n < 26 then ('A' as int + n) as char
    else if n < 52 then ('a' as int + n - 26) as char
    else if n < 62 then ('0' as int + n - 52) as char
    else if n == 62 then '-' else '_'
  }

  /** The value of a digit; None for a character that is none. */
  function Sextet(c: char): (n: Option<nat>)
    ensures n.Some? ==> n.value < 64
  {
    if 'A' <= c <= 'Z' then Some(c as int - 'A' as int)
    else if 'a' <= c <= 'z' then Some(c as int - 'a' as int + 26)
    else if '0' <= c <= '9' then Some(c as int - '0' as int + 52)
    else if c == '-' then Some(62)
    else if c == '_' then Some(63)
    else None
  }

  lemma DigitBack(n: nat)
    requires n < 64
    ensures Sextet(Digit(n)) == Some(n)
  {
  }

  function Encode(b: seq<Byte>): string {
    if |b| == 0 then ""
    else if |b| == 1 then [Digit(b[0] / 4), Digit(b[0] % 4 * 16)]
    else if |b| == 2 then [Digit(b[0] / 4), Digit(b[0] % 4 * 16 + b[1] / 16), Digit(b[1] % 16 * 4)]
    else Quad(b[0], b[1], b[2]) + Encode(b[3..])
  }

  function Quad(a: Byte, b: Byte, c: Byte): string {
    [Digit(a / 4), Digit(a % 4 * 16 + b / 16), Digit(b % 16 * 4 + c / 64), Digit(c % 64)]
  }

  /** Padded to a multiple of four and decoded: a single left-over digit fails, left-over bits are dropped. */
  function Decode(s: string): Option<seq<Byte>> {
    if |s| == 0 then Some([])
    else if |s| == 1 then None
    else
      var x, y := Sextet(s[0]), Sextet(s[1]);
      if x.None? || y.None? then None
      else if |s| == 2 then Some([x.value * 4 + y.value / 16])
      else
        var z := Sextet(s[2]);
        if z.None? then None
        else if |s| == 3 then Some([x.value * 4 + y.value / 16, y.value % 16 * 16 + z.value / 4])
        else
          var w, rest := Sextet(s[3]), Decode(s[4..]);
          if w.None? || rest.None? then None
          else Some([x.value * 4 + y.value / 16, y.value % 16 * 16 + z.value / 4, z.value % 4 * 64 + w.value]
                    + rest.value)
  }

  lemma FourDigits(a: Byte, b: Byte, c: Byte)
    ensures var x, y, z, w := a / 4, a % 4 * 16 + b / 16, b % 16 * 4 + c / 64, c % 64;
            && x < 64 && y < 64 && z < 64 && w < 64
            && x * 4 + y / 16 == a && y % 16 * 16 + z / 4 == b && z % 4 * 64 + w == c
  {
  }

  predicate IsDigit(c: char) {
    Sextet(c).Some?
  }

  lemma {:induction false} EncodeMeans(b: seq<Byte>)
    ensures |Encode(b)| == (4 * |b| + 2) / 3 && forall i | 0 <= i < |Encode(b)| :: IsDigit(Encode(b)[i])
  {
    if |b| >= 3 {
      EncodeMeans(b[3..]);
    }
  }

  lemma DecodeFour(s: string, x: nat, y: nat, z: nat, w: nat)
    requires |s| >= 4 && x < 64 && y < 64 && z < 64 && w < 64
    requires Sextet(s[0]) == Some(x) && Sextet(s[1]) == Some(y) && Sextet(s[2]) == Some(z) && Sextet(s[3]) == Some(w)
    ensures Decode(s) == if Decode(s[4..]).None? then None
                         else Some([x * 4 + y / 16, y % 16 * 16 + z / 4, z % 4 * 64 + w] + Decode(s[4..]).value)
  {
    hide Sextet;
  }

  /** Decoding one group, and the two short ones. */
  lemma DecodeQuad(a: Byte, b: Byte, c: Byte, rest: string)
    ensures Decode(Quad(a, b, c) + rest) == if Decode(rest).None? then None else Some([a, b, c] + Decode(rest).value)
  {
    hide Digit, Sextet, Decode;
    var s, x, y, z, w := Quad(a, b, c) + rest, a / 4, a % 4 * 16 + b / 16, b % 16 * 4 + c / 64, c % 64;
    FourDigits(a, b, c);
    DigitBack(x);
    DigitBack(y);
    DigitBack(z);
    DigitBack(w);
    assert s[4..] == rest;
    DecodeFour(s, x, y, z, w);
  }

  lemma DecodeShort(a: Byte, b: Byte)
    ensures Decode([Digit(a / 4), Digit(a % 4 * 16)]) == Some([a])
    ensures Decode([Digit(a / 4), Digit(a % 4 * 16 + b / 16), Digit(b % 16 * 4)]) == Some([a, b])
  {
    hide Digit, Sextet;
    DigitBack(a / 4);
    DigitBack(a % 4 * 16);
    DigitBack(a % 4 * 16 + b / 16);
    DigitBack(b % 16 * 4);
    FourDigits(a, b, 0);
  }

  lemma {:induction false} DecodeEncode(b: seq<Byte>)
    ensures Decode(Encode(b)) == Some(b)
  {
    hide Decode, Digit, Quad;
    if b == [] {
      assert Decode("") == Some([]) by { DecodeNone(); }
    } else if |b| < 3 {
      DecodeShort(b[0], if |b| == 2 then b[1] else 0);
      assert b == if |b| == 1 then [b[0]] else [b[0], b[1]];
    } else {
      DecodeQuad(b[0], b[1], b[2], Encode(b[3..]));
      DecodeEncode(b[3..]);
      assert b == [b[0], b[1], b[2]] + b[3..];
    }
  }

  lemma DecodeNone()
    ensures Decode("") == Some([])
  {
  }
}
