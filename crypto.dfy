/**
 * `sha256Blob` (apps/web/src/lib/crypto.ts): the SHA-256 digest of a blob,
 * rendered as lower-case, zero-padded hexadecimal. The digest itself
 * (`crypto.subtle.digest`, section 6.2 of FIPS 180-4) is not modelled: it is
 * a parameter of type `Hasher`, any function giving 32 bytes. The rendering is
 * modelled exactly and proved injective by a decoder.
 */
module Crypto {
  import opened Numerals

  type byte = x: int | 0 <= x < 256

  /** A SHA-256 digest: 32 bytes. */
  type Digest = d: seq<byte> | |d| == 32 witness seq(32, _ => 0)

  /** The platform's SHA-256, left uninterpreted. */
  type Hasher = seq<byte> -> Digest

  /** `b.toString(16).padStart(2, "0")` for one digest byte. */
  function ByteHex(b: byte): string {
    PadStart(ToRadix(b, 16), 2, '0')
  }

  /** Every byte renders as exactly its high and its low nibble. */
  lemma ByteHexDigits(b: byte)
    ensures ByteHex(b) == [Digit(b / 16), Digit(b % 16)]
  {
    if b >= 16 {
      assert ToRadix(b / 16, 16) == [Digit(b / 16)];
    }
  }

  /** `Array.from(bytes).map(ByteHex).join("")`. */
  function ToHex(bytes: seq<byte>): string {
    if bytes == [] then "" else ByteHex(bytes[0]) + ToHex(bytes[1..])
  }

  /** The hex rendering by nibbles: the form the lemmas below work with. */
  function NibbleHex(bytes: seq<byte>): string {
    if bytes == [] then "" else [Digit(bytes[0] / 16), Digit(bytes[0] % 16)] + NibbleHex(bytes[1..])
  }

  /** The source's `padStart` rendering is the nibble rendering. */
  lemma {:induction false} ToHexIsNibbleHex(bytes: seq<byte>)
    ensures ToHex(bytes) == NibbleHex(bytes)
  {
    if bytes != [] {
      ByteHexDigits(bytes[0]);
      ToHexIsNibbleHex(bytes[1..]);
    }
  }

  lemma {:induction false} NibbleHexAt(bytes: seq<byte>, i: nat)
    requires i < |bytes|
    ensures |NibbleHex(bytes)| == 2 * |bytes|
    ensures NibbleHex(bytes)[2 * i] == Digit(bytes[i] / 16)
    ensures NibbleHex(bytes)[2 * i + 1] == Digit(bytes[i] % 16)
  {
    NibbleHexLength(bytes);
    if i > 0 {
      NibbleHexAt(bytes[1..], i - 1);
      assert bytes[1..][i - 1] == bytes[i];
    }
  }

  lemma {:induction false} NibbleHexLength(bytes: seq<byte>)
    ensures |NibbleHex(bytes)| == 2 * |bytes|
  {
    if bytes != [] {
      NibbleHexLength(bytes[1..]);
    }
  }

  /** The layout: 2n characters, and characters 2i and 2i+1 encode byte i. */
  lemma ToHexLayout(bytes: seq<byte>)
    ensures |ToHex(bytes)| == 2 * |bytes|
    ensures forall i :: 0 <= i < |bytes| ==>
              ToHex(bytes)[2 * i] == Digit(bytes[i] / 16) && ToHex(bytes)[2 * i + 1] == Digit(bytes[i] % 16)
  {
    ToHexIsNibbleHex(bytes);
    NibbleHexLength(bytes);
    forall i | 0 <= i < |bytes|
      ensures NibbleHex(bytes)[2 * i] == Digit(bytes[i] / 16) && NibbleHex(bytes)[2 * i + 1] == Digit(bytes[i] % 16)
    {
      NibbleHexAt(bytes, i);
    }
  }

  /** The output is lower-case hexadecimal throughout. */
  lemma ToHexIsLowerHex(bytes: seq<byte>)
    ensures forall k :: 0 <= k < |ToHex(bytes)| ==> IsDigit(ToHex(bytes)[k], 16)
  {
    ToHexLayout(bytes);
    forall k | 0 <= k < |ToHex(bytes)| ensures IsDigit(ToHex(bytes)[k], 16) {
      var i := k / 2;
      assert k == 2 * i || k == 2 * i + 1;
    }
  }

  /** Reads a hex string back, two characters per byte. */
  function FromHex(s: string): seq<byte> {
    if |s| < 2 then [] else [DigitValue(s[0]) * 16 + DigitValue(s[1])] + FromHex(s[2..])
  }

  lemma FromHexCons(hi: char, lo: char, rest: string)
    ensures FromHex([hi, lo] + rest) == [DigitValue(hi) * 16 + DigitValue(lo)] + FromHex(rest)
  {
    assert ([hi, lo] + rest)[2..] == rest;
  }

  lemma {:induction false} NibbleRoundTrip(bytes: seq<byte>)
    ensures FromHex(NibbleHex(bytes)) == bytes
  {
    if bytes != [] {
      var b := bytes[0];
      FromHexCons(Digit(b / 16), Digit(b % 16), NibbleHex(bytes[1..]));
      DigitRoundTrip(b / 16);
      DigitRoundTrip(b % 16);
      NibbleRoundTrip(bytes[1..]);
      assert [b] + bytes[1..] == bytes;
    }
  }

  /** Decoding the rendering gives the digest back. */
  lemma HexRoundTrip(bytes: seq<byte>)
    ensures FromHex(ToHex(bytes)) == bytes
  {
    ToHexIsNibbleHex(bytes);
    NibbleRoundTrip(bytes);
  }

  /** Equal hex strings mean equal digests, and conversely: the rendering is injective. */
  lemma ToHexInjective(a: seq<byte>, b: seq<byte>)
    ensures ToHex(a) == ToHex(b) <==> a == b
  {
    if ToHex(a) == ToHex(b) {
      HexRoundTrip(a);
      HexRoundTrip(b);
    }
  }

  /** `sha256Blob(blob)`: the hex digest the download and repair paths compare. */
  function Sha256Blob(sha: Hasher, blob: seq<byte>): (hex: string)
    ensures FromHex(hex) == sha(blob)
  {
    HexRoundTrip(sha(blob));
    ToHex(sha(blob))
  }

  /** The digest renders as 64 lower-case hexadecimal characters. */
  lemma Sha256BlobShape(sha: Hasher, blob: seq<byte>)
    ensures |Sha256Blob(sha, blob)| == 64
    ensures forall k :: 0 <= k < 64 ==> IsDigit(Sha256Blob(sha, blob)[k], 16)
  {
    ToHexLayout(sha(blob));
    ToHexIsLowerHex(sha(blob));
  }

  /** Two blobs have the same hex digest exactly when their digests agree. */
  lemma SameHexIffSameDigest(sha: Hasher, a: seq<byte>, b: seq<byte>)
    ensures Sha256Blob(sha, a) == Sha256Blob(sha, b) <==> sha(a) == sha(b)
  {
    ToHexInjective(sha(a), sha(b));
  }
}
