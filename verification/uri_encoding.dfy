/** Percent-encoding of query values: `encodeURIComponent`, used for the
    public-recipes category filter, and the application/x-www-form-urlencoded
    serializer behind `URLSearchParams#toString`, used for the admin filters.
    Both encode the UTF-8 bytes of a character and write each byte as `%XY`
    with upper-case hexadecimal digits. */
module UriEncoding {
  import opened Wrappers
  import opened Utf8

  function HexDigit(d: nat): (c: char)
    requires d < 16
    ensures ('0' <= c <= '9') || ('A' <= c <= 'F')
  {
    if d < 10 then ('0' as int + d) as char else ('A' as int + (d - 10)) as char
  }

  predicate IsHexDigit(c: char) {
    ('0' <= c <= '9') || ('A' <= c <= 'F') || ('a' <= c <= 'f')
  }

  function HexValue(c: char): (d: nat)
    requires IsHexDigit(c)
    ensures d < 16
  {
    if '0' <= c <= '9' then c as int - '0' as int
    else if 'A' <= c <= 'F' then c as int - 'A' as int + 10
    else c as int - 'a' as int + 10
  }

  lemma HexRoundTrip(d: nat)
    requires d < 16
    ensures IsHexDigit(HexDigit(d)) && HexValue(HexDigit(d)) == d
  {
  }

  /** `%XY` for one byte. */
  function PercentByte(b: Byte): (r: string)
    ensures |r| == 3 && r[0] == '%' && IsHexDigit(r[1]) && IsHexDigit(r[2])
  {
    HexRoundTrip(b / 16);
    HexRoundTrip(b % 16);
    ['%', HexDigit(b / 16), HexDigit(b % 16)]
  }

  function PercentBytes(bs: seq<Byte>): (r: string)
    ensures |r| == 3 * |bs|
  {
    if |bs| == 0 then "" else PercentByte(bs[0]) + PercentBytes(bs[1..])
  }

  predicate IsAlphaNumeric(c: char) {
    ('A' <= c <= 'Z') || ('a' <= c <= 'z') || ('0' <= c <= '9')
  }

  /** The characters `encodeURIComponent` leaves as they are. */
  predicate IsComponentSafe(c: char) {
    IsAlphaNumeric(c) || c in "-_.!~*'()"
  }

  /** The characters a query value may contain after encoding: no `&`, `=`, `#`,
      `+` or space, so the value cannot end the parameter or the URL early. */
  predicate IsQueryValueChar(c: char) {
    IsComponentSafe(c) || c == '%'
  }

  function EncodeComponentChar(c: char): (r: string)
  {
    if IsComponentSafe(c) then [c] else PercentBytes(EncodeChar(c))
  }

  /** `encodeURIComponent(s)` for a string of Unicode scalar values. */
  function EncodeURIComponent(s: string): (r: string)
    ensures forall i :: 0 <= i < |r| ==> IsQueryValueChar(r[i])
  {
    if |s| == 0 then ""
    else
      var head, tail := EncodeComponentChar(s[0]), EncodeURIComponent(s[1..]);
      assert forall i :: 0 <= i < |head| ==> IsQueryValueChar(head[i]) by {
        if !IsComponentSafe(s[0]) { PercentBytesChars(EncodeChar(s[0])); }
      }
      assert forall i :: 0 <= i < |tail| ==> (head + tail)[|head| + i] == tail[i];
      head + tail
  }

  lemma {:induction false} PercentBytesChars(bs: seq<Byte>)
    ensures forall i :: 0 <= i < |PercentBytes(bs)| ==> IsQueryValueChar(PercentBytes(bs)[i])
  {
    if |bs| > 0 {
      PercentBytesChars(bs[1..]);
      var p, rest := PercentByte(bs[0]), PercentBytes(bs[1..]);
      assert PercentBytes(bs) == p + rest;
      assert forall i :: 0 <= i < |rest| ==> (p + rest)[3 + i] == rest[i];
    }
  }

  /** Bytes in front of a decoding result. */
  function Prepend(bs: seq<Byte>, o: Option<seq<Byte>>): Option<seq<Byte>> {
    match o
    case None => None
    case Some(rest) => Some(bs + rest)
  }

  /** Percent-decoding: `%XY` is one byte, any other ASCII character is its own byte,
      and `+` is a space when `plusIsSpace` (form decoding). */
  function PercentDecode(s: string, plusIsSpace: bool): Option<seq<Byte>>
    decreases |s|
  {
    if |s| == 0 then Some([])
    else if s[0] == '%' then
      if |s| < 3 || !IsHexDigit(s[1]) || !IsHexDigit(s[2]) then None
      else Prepend([HexValue(s[1]) * 16 + HexValue(s[2])], PercentDecode(s[3..], plusIsSpace))
    else if plusIsSpace && s[0] == '+' then Prepend([0x20], PercentDecode(s[1..], plusIsSpace))
    else if s[0] as int < 0x80 then Prepend([s[0] as int], PercentDecode(s[1..], plusIsSpace))
    else None
  }

  /** Prepending twice is prepending the concatenation. */
  lemma PrependTwice(a: seq<Byte>, b: seq<Byte>, o: Option<seq<Byte>>)
    ensures Prepend(a, Prepend(b, o)) == Prepend(a + b, o)
  {
    match o
    case None =>
    case Some(rest) => assert a + (b + rest) == (a + b) + rest;
  }

  /** One escape `%XY` decodes to its byte. */
  lemma DecodeOnePercent(b: Byte, t: string, plusIsSpace: bool)
    ensures PercentDecode(PercentByte(b) + t, plusIsSpace) == Prepend([b], PercentDecode(t, plusIsSpace))
  {
    var s := PercentByte(b) + t;
    HexRoundTrip(b / 16);
    HexRoundTrip(b % 16);
    assert s[0] == '%' && s[1] == HexDigit(b / 16) && s[2] == HexDigit(b % 16);
    assert s[3..] == t;
    assert HexValue(s[1]) * 16 + HexValue(s[2]) == b;
  }

  /** One plain ASCII character decodes to its own byte. */
  lemma DecodeOneChar(c: char, t: string, plusIsSpace: bool)
    requires c != '%' && !(plusIsSpace && c == '+') && (c as int) < 0x80
    ensures PercentDecode([c] + t, plusIsSpace) == Prepend([c as int], PercentDecode(t, plusIsSpace))
  {
    assert ([c] + t)[0] == c && ([c] + t)[1..] == t;
  }

  lemma {:induction false} DecodePercentBytes(bs: seq<Byte>, t: string, plusIsSpace: bool)
    ensures PercentDecode(PercentBytes(bs) + t, plusIsSpace) == Prepend(bs, PercentDecode(t, plusIsSpace))
  {
    if |bs| > 0 {
      var b, rest := bs[0], PercentBytes(bs[1..]) + t;
      assert PercentBytes(bs) + t == PercentByte(b) + rest;
      DecodeOnePercent(b, rest, plusIsSpace);
      DecodePercentBytes(bs[1..], t, plusIsSpace);
      PrependTwice([b], bs[1..], PercentDecode(t, plusIsSpace));
      assert [b] + bs[1..] == bs;
    } else {
      assert PercentBytes(bs) + t == t;
      match PercentDecode(t, plusIsSpace)
      case None =>
      case Some(rest) => assert bs + rest == rest;
    }
  }

  /** Percent-decoding the output of `encodeURIComponent` gives the UTF-8 bytes of the input. */
  lemma {:induction false} DecodeComponent(s: string)
    ensures PercentDecode(EncodeURIComponent(s), false) == Some(Encode(s))
  {
    if |s| > 0 {
      var c := s[0];
      var tail := EncodeURIComponent(s[1..]);
      DecodeComponent(s[1..]);
      if IsComponentSafe(c) {
        assert ([c] + tail)[1..] == tail;
      } else {
        DecodePercentBytes(EncodeChar(c), tail, false);
      }
    }
  }

  /** The bytes `URLSearchParams` leaves as they are. */
  predicate IsFormSafe(b: Byte) {
    var c := b as char;
    IsAlphaNumeric(c) || c == '*' || c == '-' || c == '.' || c == '_'
  }

  function FormEncodeBytes(bs: seq<Byte>): (r: string)
    ensures forall i :: 0 <= i < |r| ==> IsQueryValueChar(r[i]) || r[i] == '+'
  {
    if |bs| == 0 then ""
    else
      var head :=
        if bs[0] == 0x20 then "+"
        else if IsFormSafe(bs[0]) then [bs[0] as char]
        else PercentByte(bs[0]);
      var tail := FormEncodeBytes(bs[1..]);
      assert forall i :: 0 <= i < |tail| ==> (head + tail)[|head| + i] == tail[i];
      head + tail
  }

  /** The application/x-www-form-urlencoded form of a string, as `URLSearchParams` writes
      a name or a value. */
  function FormEncode(s: string): (r: string)
    ensures forall i :: 0 <= i < |r| ==> r[i] != '&' && r[i] != '=' && r[i] != '#'
  {
    FormEncodeBytes(Encode(s))
  }

  /** Form-decoding the output of `FormEncode` gives the UTF-8 bytes of the input. */
  lemma {:induction false} DecodeForm(bs: seq<Byte>)
    ensures PercentDecode(FormEncodeBytes(bs), true) == Some(bs)
  {
    if |bs| > 0 {
      var b := bs[0];
      var tail := FormEncodeBytes(bs[1..]);
      DecodeForm(bs[1..]);
      if b == 0x20 {
        assert FormEncodeBytes(bs) == "+" + tail;
        assert ("+" + tail)[0] == '+' && ("+" + tail)[1..] == tail;
      } else if IsFormSafe(b) {
        assert FormEncodeBytes(bs) == [b as char] + tail;
        DecodeOneChar(b as char, tail, true);
      } else {
        assert FormEncodeBytes(bs) == PercentByte(b) + tail;
        DecodeOnePercent(b, tail, true);
      }
      assert [b] + bs[1..] == bs;
    }
  }

  /** Decodes percent-escapes and then UTF-8; `plusIsSpace` selects form decoding. */
  function DecodeText(s: string, plusIsSpace: bool): Option<string> {
    match PercentDecode(s, plusIsSpace)
    case None => None
    case Some(bytes) => Utf8.Decode(bytes)
  }

  /** A value written by `encodeURIComponent` decodes back to itself. */
  lemma ComponentRoundTrip(s: string)
    ensures DecodeText(EncodeURIComponent(s), false) == Some(s)
  {
    DecodeComponent(s);
    Utf8.DecodeEncode(s);
  }

  /** A value written by `URLSearchParams` decodes back to itself. */
  lemma FormRoundTrip(s: string)
    ensures DecodeText(FormEncode(s), true) == Some(s)
  {
    DecodeForm(Encode(s));
    Utf8.DecodeEncode(s);
  }
}
