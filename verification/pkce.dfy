/** Proof Key for Code Exchange (RFC 7636) with the S256 method, as the client
    derives it: the verifier is the base64url text of 32 random octets and the
    challenge is the base64url text of the SHA-256 digest of the verifier's
    UTF-8 octets. */
module Pkce {
  import opened Wrappers
  import opened Bytes
  import Base64Url
  import Utf8

  /** SHA-256; its internals are not modelled, only that a digest is 32 octets. */
  type Sha256 = seq<byte> -> Bytes32

  const S256 := "S256"

  function EncodeVerifier(random: Bytes32): string {
    Base64Url.Encode(random)
  }

  /** The code challenge the client sends for a verifier. */
  function CodeChallenge(sha256: Sha256, verifier: string): (c: string)
    ensures |c| == 43 && Base64Url.IsBase64UrlText(c)
    ensures Base64Url.Decode(c) == Some(sha256(Utf8.Encode(verifier)))
  {
    Base64Url.DecodeEncode(sha256(Utf8.Encode(verifier)));
    Base64Url.Encode(sha256(Utf8.Encode(verifier)))
  }

  /** The unreserved characters a code verifier may use (section 4.1 of RFC 7636). */
  predicate IsUnreservedChar(c: char) {
    ('A' <= c <= 'Z') || ('a' <= c <= 'z') || ('0' <= c <= '9') || c in "-._~"
  }

  /** A well-formed code verifier: 43 to 128 unreserved characters. */
  predicate IsCodeVerifier(v: string) {
    43 <= |v| <= 128 && forall i | 0 <= i < |v| :: IsUnreservedChar(v[i])
  }

  /** The octets ASCII(v) of RFC 7636: one per character, its code. */
  function AsciiOctets(v: string): (b: seq<byte>)
    requires Utf8.IsAscii(v)
    ensures |b| == |v|
  {
    seq(|v|, i requires 0 <= i < |v| => v[i] as int as byte)
  }

  /** The authorization server's S256 check (section 4.6 of RFC 7636):
      BASE64URL-ENCODE(SHA256(ASCII(code_verifier))) == code_challenge. */
  predicate S256Accepts(sha256: Sha256, verifier: string, challenge: string) {
    Utf8.IsAscii(verifier) && Base64Url.Encode(sha256(AsciiOctets(verifier))) == challenge
  }

  /** Base64url text is ASCII text. */
  lemma Base64UrlTextIsAscii(s: string)
    requires Base64Url.IsBase64UrlText(s)
    ensures Utf8.IsAscii(s)
  {
  }

  /** A verifier drawn from 32 random octets is a well-formed RFC 7636 code
      verifier of exactly 43 characters, and it still carries those octets. */
  lemma EncodedVerifierIsCodeVerifier(random: Bytes32)
    ensures |EncodeVerifier(random)| == 43
    ensures IsCodeVerifier(EncodeVerifier(random))
    ensures Base64Url.Decode(EncodeVerifier(random)) == Some(random)
  {
    Base64Url.DecodeEncode(random);
  }

  /** Hashing the UTF-8 octets of an ASCII verifier, as the client does, is
      hashing ASCII(verifier), as the server does; so the server's S256 check
      accepts the challenge the client derived. */
  lemma ChallengeAcceptedByServer(sha256: Sha256, verifier: string)
    requires Utf8.IsAscii(verifier)
    ensures S256Accepts(sha256, verifier, CodeChallenge(sha256, verifier))
  {
    Utf8.EncodeAscii(verifier);
    assert Utf8.Encode(verifier) == AsciiOctets(verifier);
  }
}
