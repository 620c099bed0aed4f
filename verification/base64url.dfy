/** The unpadded URL-safe base64 of section 5 of RFC 4648, as produced by
    `android.util.Base64.encodeToString` with the flags NO_WRAP, URL_SAFE and
    NO_PADDING (the client's `base64Url`), together with its inverse. */
module Base64Url {
  import opened Wrappers
  import opened Bytes

  /** The 64 characters of the URL- and filename-safe alphabet. */
  predicate IsAlphabetChar(c: char) {
    ('A' <= c <= 'Z') || ('a' <= c <= 'z') || ('0' <= c <= '9') || c == '-' || c == '_'
  }

  predicate IsBase64UrlText(s: string) {
    forall i | 0 <= i < |s| :: IsAlphabetChar(s[i])
  }

  /** The character that stands for the 6-bit value `v` (Table 2 of RFC 4648). */
  function CharOf(v: int): (c: char)
    requires 0 <= v < 64
    ensures IsAlphabetChar(c)
  {
    if v < 26 then (65 + v) as char
    else if v < 52 then (97 + v - 26) as char
    else if v < 62 then (48 + v - 52) as char
    else if v == 62 then '-'
    else '_'
  }

  /** The 6-bit value an alphabet character stands for. */
  function ValueOf(c: char): (v: int)
    requires IsAlphabetChar(c)
    ensures 0 <= v < 64
    ensures CharOf(v) == c
  {
    if 'A' <= c <= 'Z' then c as int - 65
    else if 'a' <= c <= 'z' then c as int - 97 + 26
    else if '0' <= c <= '9' then c as int - 48 + 52
    else if c == '-' then 62
    else 63
  }

  lemma ValueOfCharOf(v: int)
    requires 0 <= v < 64
    ensures ValueOf(CharOf(v)) == v
  {
  }

  /** Three octets become four characters. */
  function EncodeTriple(a: byte, b: byte, c: byte): string {
    var x, y, z := a as int, b as int, c as int;
    [CharOf(x / 4), CharOf((x % 4) * 16 + y / 16), CharOf((y % 16) * 4 + z / 64), CharOf(z % 64)]
  }

  /** A trailing pair of octets becomes three characters, the last two bits zero. */
  function EncodePair(a: byte, b: byte): string {
    var x, y := a as int, b as int;
    [CharOf(x / 4), CharOf((x % 4) * 16 + y / 16), CharOf((y % 16) * 4)]
  }

  /** A trailing single octet becomes two characters, the last four bits zero. */
  function EncodeSingle(a: byte): string {
    var x := a as int;
    [CharOf(x / 4), CharOf((x % 4) * 16)]
  }

  /** Unpadded URL-safe base64: no '=' padding and no line breaks, so the
      length is the number of 6-bit groups the input needs: 4n/3 rounded up. */
  function Encode(b: seq<byte>): (s: string)
    ensures 4 * |b| <= 3 * |s| <= 4 * |b| + 2
    ensures |s| % 4 != 1
    ensures IsBase64UrlText(s)
    decreases |b|
  {
    if |b| >= 3 then EncodeTriple(b[0], b[1], b[2]) + Encode(b[3..])
    else if |b| == 2 then EncodePair(b[0], b[1])
    else if |b| == 1 then EncodeSingle(b[0])
    else []
  }

  /** Four 6-bit values regrouped as three octets. */
  function DecodeValues(p: int, q: int, r: int, t: int): seq<byte>
    requires 0 <= p < 64 && 0 <= q < 64 && 0 <= r < 64 && 0 <= t < 64
  {
    [(p * 4 + q / 16) as byte, ((q % 16) * 16 + r / 4) as byte, ((r % 4) * 64 + t) as byte]
  }

  function DecodeQuad(s: string): seq<byte>
    requires |s| == 4 && IsBase64UrlText(s)
  {
    DecodeValues(ValueOf(s[0]), ValueOf(s[1]), ValueOf(s[2]), ValueOf(s[3]))
  }

  /** The decoder is strict: bits an encoder always leaves zero must be zero. */
  function DecodeTail(s: string): Option<seq<byte>>
    requires |s| < 4 && |s| != 1 && IsBase64UrlText(s)
  {
    if |s| == 3 then
      var p, q, r := ValueOf(s[0]), ValueOf(s[1]), ValueOf(s[2]);
      if r % 4 == 0 then Some([(p * 4 + q / 16) as byte, ((q % 16) * 16 + r / 4) as byte]) else None
    else if |s| == 2 then
      var p, q := ValueOf(s[0]), ValueOf(s[1]);
      if q % 16 == 0 then Some([(p * 4 + q / 16) as byte]) else None
    else Some([])
  }

  function DecodeText(s: string): Option<seq<byte>>
    requires |s| % 4 != 1 && IsBase64UrlText(s)
    decreases |s|
  {
    if |s| >= 4 then
      match DecodeText(s[4..])
      case None => None
      case Some(rest) => Some(DecodeQuad(s[..4]) + rest)
    else DecodeTail(s)
  }

  /** The inverse of `Encode`: `None` for text no encoder could have produced. */
  function Decode(s: string): Option<seq<byte>> {
    if |s| % 4 == 1 || !IsBase64UrlText(s) then None else DecodeText(s)
  }

  lemma DecodeEncodeTriple(a: byte, b: byte, c: byte)
    ensures IsBase64UrlText(EncodeTriple(a, b, c))
    ensures DecodeQuad(EncodeTriple(a, b, c)) == [a, b, c]
  {
    var x, y, z := a as int, b as int, c as int;
    var p, q, r, t := x / 4, (x % 4) * 16 + y / 16, (y % 16) * 4 + z / 64, z % 64;
    var s := EncodeTriple(a, b, c);
    EncodeOctets(x, y, z);
    ValueOfCharOf(p);
    ValueOfCharOf(q);
    ValueOfCharOf(r);
    ValueOfCharOf(t);
    SplitOctets(x, y, z);
    assert DecodeQuad(s) == DecodeValues(p, q, r, t);
  }

  /** The four characters three octets encode to. */
  lemma EncodeOctets(x: int, y: int, z: int)
    requires 0 <= x < 256 && 0 <= y < 256 && 0 <= z < 256
    ensures EncodeTriple(x as byte, y as byte, z as byte)
         == [CharOf(x / 4), CharOf((x % 4) * 16 + y / 16), CharOf((y % 16) * 4 + z / 64), CharOf(z % 64)]
  {
  }

  /** Three octets split into four 6-bit values regroup back to themselves. */
  lemma SplitOctets(x: int, y: int, z: int)
    requires 0 <= x < 256 && 0 <= y < 256 && 0 <= z < 256
    ensures DecodeValues(x / 4, (x % 4) * 16 + y / 16, (y % 16) * 4 + z / 64, z % 64)
         == [x as byte, y as byte, z as byte]
  {
    assert ((x % 4) * 16 + y / 16) / 16 == x % 4;
    assert ((x % 4) * 16 + y / 16) % 16 == y / 16;
    assert ((y % 16) * 4 + z / 64) / 4 == y % 16;
    assert ((y % 16) * 4 + z / 64) % 4 == z / 64;
  }

  lemma DecodeEncodePair(a: byte, b: byte)
    ensures DecodeTail(EncodePair(a, b)) == Some([a, b])
  {
    var x, y := a as int, b as int;
    var s := EncodePair(a, b);
    ValueOfCharOf(x / 4);
    ValueOfCharOf((x % 4) * 16 + y / 16);
    ValueOfCharOf((y % 16) * 4);
    var p, q, r := ValueOf(s[0]), ValueOf(s[1]), ValueOf(s[2]);
    assert p == x / 4 && q == (x % 4) * 16 + y / 16 && r == (y % 16) * 4;
    Unpack(x % 4, y / 16, 16);
    Unpack(y % 16, 0, 4);
    assert p * 4 + q / 16 == x;
    assert (q % 16) * 16 + r / 4 == y;
    assert r % 4 == 0;
  }

  lemma DecodeEncodeSingle(a: byte)
    ensures DecodeTail(EncodeSingle(a)) == Some([a])
  {
    var x := a as int;
    var s := EncodeSingle(a);
    ValueOfCharOf(x / 4);
    ValueOfCharOf((x % 4) * 16);
    var p, q := ValueOf(s[0]), ValueOf(s[1]);
    assert p == x / 4 && q == (x % 4) * 16;
    Unpack(x % 4, 0, 16);
    assert p * 4 + q / 16 == x;
  }

  lemma DecodeEncodeTail(b: seq<byte>)
    requires |b| < 3
    ensures |Encode(b)| < 4 && |Encode(b)| != 1
    ensures DecodeTail(Encode(b)) == Some(b)
  {
    if |b| == 2 {
      DecodeEncodePair(b[0], b[1]);
      assert b == [b[0], b[1]];
    } else if |b| == 1 {
      DecodeEncodeSingle(b[0]);
      assert b == [b[0]];
    }
  }

  /** Decoding a text proceeds one leading four-character group at a time. */
  lemma DecodeTextStep(head: string, tail: string)
    requires |head| == 4 && IsBase64UrlText(head)
    requires |tail| % 4 != 1 && IsBase64UrlText(tail)
    ensures |head + tail| % 4 != 1 && IsBase64UrlText(head + tail)
    ensures DecodeText(head + tail) ==
      if DecodeText(tail).Some? then Some(DecodeQuad(head) + DecodeText(tail).value) else None
  {
    var s := head + tail;
    assert s[..4] == head && s[4..] == tail;
    assert forall i | 0 <= i < |s| :: s[i] == if i < 4 then head[i] else tail[i - 4];
  }

  /** Decoding undoes encoding for every octet string. */
  lemma DecodeEncode(b: seq<byte>)
    ensures Decode(Encode(b)) == Some(b)
  {
    DecodeTextEncode(b);
  }

  lemma {:induction false} DecodeTextEncode(b: seq<byte>)
    ensures DecodeText(Encode(b)) == Some(b)
    decreases |b|
  {
    if |b| >= 3 {
      var rest := b[3..];
      DecodeTextEncode(rest);
      assert b == [b[0], b[1], b[2]] + rest;
      DecodeTextEncodeCons(b[0], b[1], b[2], rest);
    } else {
      DecodeEncodeTail(b);
    }
  }

  /** One step of the round trip: a leading triple before a rest that
      round-trips. */
  lemma DecodeTextEncodeCons(a: byte, b: byte, c: byte, rest: seq<byte>)
    requires DecodeText(Encode(rest)) == Some(rest)
    ensures DecodeText(Encode([a, b, c] + rest)) == Some([a, b, c] + rest)
  {
    EncodeStep(a, b, c, rest);
    DecodeEncodeTriple(a, b, c);
    DecodeTextCons(EncodeTriple(a, b, c), Encode(rest), [a, b, c], rest);
  }

  lemma EncodeStep(a: byte, b: byte, c: byte, rest: seq<byte>)
    ensures Encode([a, b, c] + rest) == EncodeTriple(a, b, c) + Encode(rest)
  {
    var s := [a, b, c] + rest;
    assert s[0] == a && s[1] == b && s[2] == c && s[3..] == rest;
  }

  /** A leading group that decodes to `x` before a text that decodes to `y`. */
  lemma DecodeTextCons(head: string, tail: string, x: seq<byte>, y: seq<byte>)
    requires |head| == 4 && IsBase64UrlText(head) && DecodeQuad(head) == x
    requires |tail| % 4 != 1 && IsBase64UrlText(tail) && DecodeText(tail) == Some(y)
    ensures |head + tail| % 4 != 1 && IsBase64UrlText(head + tail)
    ensures DecodeText(head + tail) == Some(x + y)
  {
    DecodeTextStep(head, tail);
  }

  /** `hi * k + lo` with `lo < k` splits back into `hi` and `lo`, for the three
      radices a 6-bit/8-bit regrouping uses. */
  lemma Unpack(hi: int, lo: int, k: int)
    requires k == 4 || k == 16 || k == 64
    requires 0 <= lo < k
    ensures (hi * k + lo) / k == hi && (hi * k + lo) % k == lo
  {
  }

  /** Four 6-bit values regrouped as three octets regroup back to themselves. */
  lemma RegroupQuad(p: int, q: int, r: int, t: int)
    requires 0 <= p < 64 && 0 <= q < 64 && 0 <= r < 64 && 0 <= t < 64
    ensures var x, y, z := p * 4 + q / 16, (q % 16) * 16 + r / 4, (r % 4) * 64 + t;
            && 0 <= x < 256 && 0 <= y < 256 && 0 <= z < 256
            && x / 4 == p && (x % 4) * 16 + y / 16 == q
            && (y % 16) * 4 + z / 64 == r && z % 64 == t
  {
    Unpack(p, q / 16, 4);
    Unpack(q % 16, r / 4, 16);
    Unpack(r % 4, t, 64);
  }

  /** Re-encoding the three octets that four 6-bit values regroup into
      gives the four characters of those values. */
  lemma EncodeRegrouped(p: int, q: int, r: int, t: int)
    requires 0 <= p < 64 && 0 <= q < 64 && 0 <= r < 64 && 0 <= t < 64
    ensures var d := DecodeValues(p, q, r, t);
            EncodeTriple(d[0], d[1], d[2]) == [CharOf(p), CharOf(q), CharOf(r), CharOf(t)]
  {
    var x, y, z := p * 4 + q / 16, (q % 16) * 16 + r / 4, (r % 4) * 64 + t;
    RegroupQuad(p, q, r, t);
    EncodeValues(x, y, z, p, q, r, t);
    assert DecodeValues(p, q, r, t) == [x as byte, y as byte, z as byte];
  }

  /** Three octets whose 6-bit groups are `p`, `q`, `r`, `t` encode to the
      characters of those values. */
  lemma EncodeValues(x: int, y: int, z: int, p: int, q: int, r: int, t: int)
    requires 0 <= x < 256 && 0 <= y < 256 && 0 <= z < 256
    requires x / 4 == p && (x % 4) * 16 + y / 16 == q && (y % 16) * 4 + z / 64 == r && z % 64 == t
    ensures EncodeTriple(x as byte, y as byte, z as byte) == [CharOf(p), CharOf(q), CharOf(r), CharOf(t)]
  {
    EncodeOctets(x, y, z);
  }

  lemma EncodeDecodeQuad(s: string)
    requires |s| == 4 && IsBase64UrlText(s)
    ensures EncodeTriple(DecodeQuad(s)[0], DecodeQuad(s)[1], DecodeQuad(s)[2]) == s
  {
    var p, q, r, t := ValueOf(s[0]), ValueOf(s[1]), ValueOf(s[2]), ValueOf(s[3]);
    EncodeRegrouped(p, q, r, t);
    QuadOfValues(s);
  }

  /** Four alphabet characters are the characters of their values. */
  lemma QuadOfValues(s: string)
    requires |s| == 4 && IsBase64UrlText(s)
    ensures s == [CharOf(ValueOf(s[0])), CharOf(ValueOf(s[1])), CharOf(ValueOf(s[2])), CharOf(ValueOf(s[3]))]
  {
  }

  lemma EncodeDecodeTriplet(s: string)
    requires |s| == 3 && IsBase64UrlText(s)
    requires DecodeTail(s).Some?
    ensures Encode(DecodeTail(s).value) == s
  {
    var p, q, r := ValueOf(s[0]), ValueOf(s[1]), ValueOf(s[2]);
    var x, y := p * 4 + q / 16, (q % 16) * 16 + r / 4;
    Unpack(p, q / 16, 4);
    Unpack(q % 16, r / 4, 16);
    assert r % 4 == 0;
    assert (x % 4) * 16 + y / 16 == q;
    assert (y % 16) * 4 == r;
    var d := DecodeTail(s).value;
    assert d == [x as byte, y as byte];
    assert Encode(d) == EncodePair(x as byte, y as byte);
  }

  lemma EncodeDecodeTail(s: string)
    requires |s| < 4 && |s| != 1 && IsBase64UrlText(s)
    requires DecodeTail(s).Some?
    ensures Encode(DecodeTail(s).value) == s
  {
    if |s| == 3 {
      EncodeDecodeTriplet(s);
    } else if |s| == 2 {
      var p, q := ValueOf(s[0]), ValueOf(s[1]);
      var x := p * 4 + q / 16;
      Unpack(p, q / 16, 4);
      assert q % 16 == 0;
      assert (x % 4) * 16 == q;
      var d := DecodeTail(s).value;
      assert d == [x as byte];
      assert Encode(d) == EncodeSingle(x as byte);
    }
  }

  /** Every text the decoder accepts is the encoding of what it decodes to,
      so `Encode` is a bijection onto the texts `Decode` accepts. */
  lemma {:induction false} EncodeDecode(s: string)
    requires Decode(s).Some?
    ensures Encode(Decode(s).value) == s
    decreases |s|
  {
    if |s| >= 4 {
      var rest := DecodeText(s[4..]).value;
      assert Decode(s[4..]) == DecodeText(s[4..]);
      EncodeDecode(s[4..]);
      EncodeDecodeQuad(s[..4]);
      var d := DecodeQuad(s[..4]) + rest;
      assert d[..3] == DecodeQuad(s[..4]) && d[3..] == rest;
      assert s == s[..4] + s[4..];
    } else {
      EncodeDecodeTail(s);
    }
  }

  /** Distinct octet strings never share an encoding. */
  lemma EncodeInjective(a: seq<byte>, b: seq<byte>)
    ensures a != b ==> Encode(a) != Encode(b)
  {
    DecodeEncode(a);
    DecodeEncode(b);
  }
}
