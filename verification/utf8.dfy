/** The UTF-8 form of a string, as `String.getBytes(StandardCharsets.UTF_8)`
    produces it (section 3 of RFC 3629). */
module Utf8 {
  import opened Bytes

  /** The one to four octets of one Unicode scalar value. */
  function EncodeChar(c: char): (b: seq<byte>)
    ensures 1 <= |b| <= 4
    ensures (|b| == 1) == (c as int < 0x80)
    ensures |b| == 1 ==> b[0] as int == c as int
  {
    var v := c as int;
    if v < 0x80 then [v as byte]
    else if v < 0x800 then [(0xC0 + v / 64) as byte, (0x80 + v % 64) as byte]
    else if v < 0x1_0000 then
      [(0xE0 + v / 4096) as byte, (0x80 + (v / 64) % 64) as byte, (0x80 + v % 64) as byte]
    else
      [(0xF0 + v / 262144) as byte, (0x80 + (v / 4096) % 64) as byte,
       (0x80 + (v / 64) % 64) as byte, (0x80 + v % 64) as byte]
  }

  function Encode(s: string): seq<byte> {
    if |s| == 0 then [] else EncodeChar(s[0]) + Encode(s[1..])
  }

  /** Every character is in the US-ASCII range. */
  predicate IsAscii(s: string) {
    forall i | 0 <= i < |s| :: s[i] as int < 0x80
  }

  /** US-ASCII text is its own UTF-8 form: one octet per character, equal to
      the character's code. */
  lemma {:induction false} EncodeAscii(s: string)
    requires IsAscii(s)
    ensures |Encode(s)| == |s|
    ensures forall i | 0 <= i < |s| :: Encode(s)[i] as int == s[i] as int
    decreases |s|
  {
    if |s| > 0 {
      EncodeAscii(s[1..]);
      var e := Encode(s);
      assert e == EncodeChar(s[0]) + Encode(s[1..]);
      forall i | 0 <= i < |s|
        ensures e[i] as int == s[i] as int
      {
        if i > 0 {
          assert e[i] == Encode(s[1..])[i - 1];
          assert s[i] == s[1..][i - 1];
        }
      }
    }
  }
}
