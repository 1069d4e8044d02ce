/** Base64 with the standard alphabet and `=` padding, as section 4 of RFC 4648
    defines it and as `btoa` and `Buffer#toString("base64")` produce it. */
module Base64 {
  import opened Wrappers
  import opened Utf8

  /** The alphabet character of a 6-bit value (Table 1 of RFC 4648:
      `A`-`Z`, `a`-`z`, `0`-`9`, `+`, `/`). */
  function Digit(v: nat): (c: char)
    requires v < 64
    ensures IsDigit(c)
  {
    if v < 26 then ('A' as int + v) as char
    else if v < 52 then ('a' as int + (v - 26)) as char
    else if v < 62 then ('0' as int + (v - 52)) as char
    else if v == 62 then '+'
    else '/'
  }

  predicate IsDigit(c: char) {
    ('A' <= c <= 'Z') || ('a' <= c <= 'z') || ('0' <= c <= '9') || c == '+' || c == '/'
  }

  /** The 6-bit value of an alphabet character. */
  function DigitValue(c: char): (v: nat)
    requires IsDigit(c)
    ensures v < 64 && Digit(v) == c
  {
    if 'A' <= c <= 'Z' then c as int - 'A' as int
    else if 'a' <= c <= 'z' then c as int - 'a' as int + 26
    else if '0' <= c <= '9' then c as int - '0' as int + 52
    else if c == '+' then 62
    else 63
  }

  lemma DigitIsDigit(v: nat)
    requires v < 64
    ensures IsDigit(Digit(v)) && DigitValue(Digit(v)) == v
  {
  }

  /** Three bytes as four characters. */
  function EncodeGroup(a: Byte, b: Byte, c: Byte): (r: string)
    ensures |r| == 4 && IsDigit(r[0]) && IsDigit(r[1]) && IsDigit(r[2]) && IsDigit(r[3])
  {
    var a, b, c := a as int, b as int, c as int;
    [Digit(a / 4), Digit((a % 4) * 16 + b / 16), Digit((b % 16) * 4 + c / 64), Digit(c % 64)]
  }

  /** One byte as two characters and two pad characters. */
  function EncodeOne(a: Byte): (r: string)
    ensures |r| == 4 && IsDigit(r[0]) && IsDigit(r[1]) && r[2] == '=' && r[3] == '='
  {
    var a := a as int;
    [Digit(a / 4), Digit((a % 4) * 16), '=', '=']
  }

  /** Two bytes as three characters and one pad character. */
  function EncodeTwo(a: Byte, b: Byte): (r: string)
    ensures |r| == 4 && IsDigit(r[0]) && IsDigit(r[1]) && IsDigit(r[2]) && r[3] == '='
  {
    var a, b := a as int, b as int;
    [Digit(a / 4), Digit((a % 4) * 16 + b / 16), Digit((b % 16) * 4), '=']
  }

  /** Encodes a byte string, padding the final group with `=` (section 4 of RFC 4648). */
  function Encode(bs: seq<Byte>): string
  {
    if |bs| == 0 then ""
    else if |bs| == 1 then EncodeOne(bs[0])
    else if |bs| == 2 then EncodeTwo(bs[0], bs[1])
    else EncodeGroup(bs[0], bs[1], bs[2]) + Encode(bs[3..])
  }

  /** Every started group of three bytes becomes four characters. */
  lemma {:induction false} EncodeLength(bs: seq<Byte>)
    ensures |Encode(bs)| == 4 * ((|bs| + 2) / 3)
  {
    if |bs| >= 3 {
      EncodeLength(bs[3..]);
      assert (|bs| + 2) / 3 == (|bs[3..]| + 2) / 3 + 1;
    }
  }

  /** Decodes four 6-bit values to three bytes. */
  function DecodeGroup(w: nat, x: nat, y: nat, z: nat): seq<Byte>
    requires w < 64 && x < 64 && y < 64 && z < 64
  {
    [w * 4 + x / 16, (x % 16) * 16 + y / 4, (y % 4) * 64 + z]
  }

  /** Decodes one quad of four characters. Padding (`xx==` for one byte, `xxx=` for two)
      is accepted only when the quad is the `last` one. */
  function DecodeQuad(q: string, last: bool): Option<seq<Byte>>
    requires |q| == 4
  {
    if !IsDigit(q[0]) || !IsDigit(q[1]) then None
    else
      var w, x := DigitValue(q[0]), DigitValue(q[1]);
      if last && q[2] == '=' && q[3] == '=' then Some([w * 4 + x / 16])
      else if !IsDigit(q[2]) then None
      else
        var y := DigitValue(q[2]);
        if last && q[3] == '=' then Some([w * 4 + x / 16, (x % 16) * 16 + y / 4])
        else if !IsDigit(q[3]) then None
        else Some(DecodeGroup(w, x, y, DigitValue(q[3])))
  }

  /** Decodes a padded Base64 string; fails on a length that is not a multiple of
      four, a character outside the alphabet, or padding before the last quad. */
  function Decode(s: string): Option<seq<Byte>>
    decreases |s|
  {
    if |s| == 0 then Some([])
    else if |s| < 4 then None
    else match DecodeQuad(s[..4], |s| == 4)
      case None => None
      case Some(head) =>
        match Decode(s[4..])
        case None => None
        case Some(rest) => Some(head + rest)
  }

  lemma GroupRoundTrip(a: Byte, b: Byte, c: Byte)
    ensures var a, b, c := a as int, b as int, c as int;
      DecodeGroup(a / 4, (a % 4) * 16 + b / 16, (b % 16) * 4 + c / 64, c % 64) == [a, b, c]
  {
    var a, b, c := a as int, b as int, c as int;
    assert ((a % 4) * 16 + b / 16) / 16 == a % 4;
    assert ((a % 4) * 16 + b / 16) % 16 == b / 16;
    assert ((b % 16) * 4 + c / 64) / 4 == b % 16;
    assert ((b % 16) * 4 + c / 64) % 4 == c / 64;
  }

  lemma DecodeOne(a: Byte)
    ensures DecodeQuad(EncodeOne(a), true) == Some([a])
  {
    var a := a as int;
    DigitIsDigit(a / 4);
    DigitIsDigit((a % 4) * 16);
    assert ((a % 4) * 16) / 16 == a % 4;
  }

  lemma DecodeTwo(a: Byte, b: Byte)
    ensures DecodeQuad(EncodeTwo(a, b), true) == Some([a, b])
  {
    var a, b := a as int, b as int;
    DigitIsDigit(a / 4);
    DigitIsDigit((a % 4) * 16 + b / 16);
    DigitIsDigit((b % 16) * 4);
    assert ((a % 4) * 16 + b / 16) / 16 == a % 4;
    assert ((a % 4) * 16 + b / 16) % 16 == b / 16;
    assert ((b % 16) * 4) / 4 == b % 16;
  }

  /** A full group decodes to its three bytes, last or not. */
  lemma DecodeThree(a: Byte, b: Byte, c: Byte, last: bool)
    ensures DecodeQuad(EncodeGroup(a, b, c), last) == Some([a, b, c])
  {
    var a', b', c' := a as int, b as int, c as int;
    DigitIsDigit(a' / 4);
    DigitIsDigit((a' % 4) * 16 + b' / 16);
    DigitIsDigit((b' % 16) * 4 + c' / 64);
    DigitIsDigit(c' % 64);
    GroupRoundTrip(a, b, c);
  }

  /** A string made of one quad decodes as that quad, the last one. */
  lemma DecodeSingleQuad(q: string)
    requires |q| == 4
    ensures Decode(q) == DecodeQuad(q, true)
  {
    assert q[..4] == q;
    assert Decode(q[4..]) == Some([]);
    match DecodeQuad(q, true)
    case None =>
    case Some(head) => assert head + [] == head;
  }

  /** A quad followed by more text decodes as a quad that is not the last one. */
  lemma DecodeQuadThen(q: string, t: string)
    requires |q| == 4 && |t| > 0
    ensures Decode(q + t) ==
      match DecodeQuad(q, false)
      case None => None
      case Some(head) =>
        match Decode(t)
        case None => None
        case Some(rest) => Some(head + rest)
  {
    assert (q + t)[..4] == q;
    assert (q + t)[4..] == t;
  }

  /** A short byte string written out element by element. */
  lemma Spelled(bs: seq<Byte>)
    requires 0 < |bs| <= 3
    ensures |bs| == 1 ==> bs == [bs[0]]
    ensures |bs| == 2 ==> bs == [bs[0], bs[1]]
    ensures |bs| == 3 ==> bs == [bs[0], bs[1], bs[2]]
  {
  }

  /** A byte string of more than three bytes as its first group and the rest. */
  lemma FirstGroup(bs: seq<Byte>)
    requires |bs| > 3
    ensures bs == [bs[0], bs[1], bs[2]] + bs[3..]
  {
  }

  /** One byte: the final quad carries two pad characters. */
  lemma DecodeEncodeOne(bs: seq<Byte>)
    requires |bs| == 1
    ensures Decode(Encode(bs)) == Some(bs)
  {
    DecodeSingleQuad(EncodeOne(bs[0]));
    DecodeOne(bs[0]);
    Spelled(bs);
  }

  /** Two bytes: the final quad carries one pad character. */
  lemma DecodeEncodeTwo(bs: seq<Byte>)
    requires |bs| == 2
    ensures Decode(Encode(bs)) == Some(bs)
  {
    DecodeSingleQuad(EncodeTwo(bs[0], bs[1]));
    DecodeTwo(bs[0], bs[1]);
    Spelled(bs);
  }

  /** Three bytes: one full quad and nothing after it. */
  lemma DecodeEncodeThree(bs: seq<Byte>)
    requires |bs| == 3
    ensures Decode(Encode(bs)) == Some(bs)
  {
    assert Encode(bs) == EncodeGroup(bs[0], bs[1], bs[2]) + "";
    DecodeSingleQuad(EncodeGroup(bs[0], bs[1], bs[2]));
    DecodeThree(bs[0], bs[1], bs[2], true);
    Spelled(bs);
  }

  /** A full group in front of an encoding that decodes adds its three bytes in front. */
  lemma DecodeEncodeStep(bs: seq<Byte>)
    requires |bs| > 3
    requires Decode(Encode(bs[3..])) == Some(bs[3..])
    ensures Decode(Encode(bs)) == Some(bs)
  {
    var g, rest := EncodeGroup(bs[0], bs[1], bs[2]), Encode(bs[3..]);
    assert Encode(bs) == g + rest;
    assert |rest| > 0 by { EncodeLength(bs[3..]); }
    DecodeQuadThen(g, rest);
    DecodeThree(bs[0], bs[1], bs[2], false);
    FirstGroup(bs);
  }

  /** Decoding what `Encode` produced gives back the original bytes. */
  lemma {:induction false} DecodeEncode(bs: seq<Byte>)
    ensures Decode(Encode(bs)) == Some(bs)
  {
    if |bs| == 0 {
    } else if |bs| == 1 {
      DecodeEncodeOne(bs);
    } else if |bs| == 2 {
      DecodeEncodeTwo(bs);
    } else if |bs| == 3 {
      DecodeEncodeThree(bs);
    } else {
      DecodeEncode(bs[3..]);
      DecodeEncodeStep(bs);
    }
  }
}
