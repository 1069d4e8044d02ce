/** UTF-8 (RFC 3629) encoding of Unicode scalar values. The client encodes the
    admin credentials to UTF-8 before Base64 (`unescape(encodeURIComponent(v))`
    in the browser, `Buffer.from(v, "utf-8")` elsewhere), and percent-encoding
    works on the same bytes. */
module Utf8 {
  import opened Wrappers

  type Byte = x: int | 0 <= x < 256

  predicate IsContinuation(b: Byte) {
    0x80 <= b < 0xC0
  }

  /** The bytes of one scalar value. */
  function EncodeChar(c: char): (r: seq<Byte>)
    ensures 1 <= |r| <= 4
    ensures c as int < 0x80 <==> |r| == 1
    ensures c as int < 0x80 ==> r == [c as int]
    ensures c as int >= 0x80 ==> forall i :: 0 <= i < |r| ==> r[i] >= 0x80
    ensures forall i :: 1 <= i < |r| ==> IsContinuation(r[i])
  {
    var n := c as int;
    if n < 0x80 then [n]
    else if n < 0x800 then [0xC0 + n / 64, 0x80 + n % 64]
    else if n < 0x10000 then [0xE0 + n / 4096, 0x80 + (n / 64) % 64, 0x80 + n % 64]
    else [0xF0 + n / 262144, 0x80 + (n / 4096) % 64, 0x80 + (n / 64) % 64, 0x80 + n % 64]
  }

  /** The bytes of a whole string. */
  function Encode(s: string): (r: seq<Byte>)
    ensures |r| >= |s|
  {
    if |s| == 0 then [] else EncodeChar(s[0]) + Encode(s[1..])
  }

  /** How many bytes a sequence starting with lead byte `b` occupies, or 0 for an invalid lead. */
  function SequenceLength(b: Byte): nat {
    if b < 0x80 then 1
    else if b < 0xC0 then 0
    else if b < 0xE0 then 2
    else if b < 0xF0 then 3
    else if b < 0xF8 then 4
    else 0
  }

  /** The scalar value carried by the first `len` bytes of `bs`. */
  function ScalarOf(bs: seq<Byte>, len: nat): int
    requires 1 <= len <= 4 && len <= |bs|
  {
    var b0, b1, b2, b3: int := bs[0], if len > 1 then bs[1] else 0,
      if len > 2 then bs[2] else 0, if len > 3 then bs[3] else 0;
    if len == 1 then b0
    else if len == 2 then (b0 - 0xC0) * 64 + (b1 - 0x80)
    else if len == 3 then (b0 - 0xE0) * 4096 + (b1 - 0x80) * 64 + (b2 - 0x80)
    else (b0 - 0xF0) * 262144 + (b1 - 0x80) * 4096 + (b2 - 0x80) * 64 + (b3 - 0x80)
  }

  predicate IsScalar(n: int) {
    (0 <= n < 0xD800) || (0xE000 <= n < 0x110000)
  }

  /** Decodes a byte string, failing on a malformed sequence. */
  function Decode(bs: seq<Byte>): Option<string>
    decreases |bs|
  {
    if |bs| == 0 then Some("")
    else
      var len := SequenceLength(bs[0]);
      if len == 0 || len > |bs| then None
      else if exists i :: 1 <= i < len && !IsContinuation(bs[i]) then None
      else
        var n := ScalarOf(bs, len);
        if !IsScalar(n) then None
        else match Decode(bs[len..])
          case None => None
          case Some(rest) => Some([n as char] + rest)
  }

  lemma EncodeCharDecodes(c: char)
    ensures SequenceLength(EncodeChar(c)[0]) == |EncodeChar(c)|
    ensures ScalarOf(EncodeChar(c), |EncodeChar(c)|) == c as int
  {
    var n := c as int;
    if 0x800 <= n < 0x10000 {
      assert n / 4096 == (n / 64) / 64;
    } else if n >= 0x10000 {
      assert n / 4096 == (n / 64) / 64;
      assert n / 262144 == (n / 4096) / 64;
    }
  }

  /** Decoding the UTF-8 of any string gives the string back. */
  lemma {:induction false} DecodeEncode(s: string)
    ensures Decode(Encode(s)) == Some(s)
  {
    if |s| > 0 {
      var e := EncodeChar(s[0]);
      var bs := Encode(s);
      EncodeCharDecodes(s[0]);
      assert bs[..|e|] == e;
      assert bs[|e|..] == Encode(s[1..]);
      assert forall i :: 0 <= i < |e| ==> bs[i] == e[i];
      DecodeEncode(s[1..]);
      assert SequenceLength(bs[0]) == |e|;
      assert ScalarOf(bs, |e|) == s[0] as int;
      assert !exists i :: 1 <= i < |e| && !IsContinuation(bs[i]);
      assert [s[0] as int as char] + s[1..] == s;
    }
  }
}
