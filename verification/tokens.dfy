/** Single-use secrets (lib/auth/tokens.ts): hex link tokens, six-digit OTP codes,
    their bcrypt digests, and the expiry arithmetic every secret uses.
    Randomness (`crypto.randomBytes`, `Math.random`) and bcrypt salts are supplied. */
module Tokens {
  import opened Base
  import Bcrypt
  import Unicode

  newtype byte = x: int | 0 <= x < 256

  /** `generateToken()` draws 32 bytes unless told otherwise. */
  const DefaultTokenBytes: nat := 32

  const HexDigits: string := "0123456789abcdef"

  predicate IsHexChar(c: char) {
    '0' <= c <= '9' || 'a' <= c <= 'f'
  }

  function HexValue(c: char): (v: nat)
    requires IsHexChar(c)
    ensures v < 16 && HexDigits[v] == c
  {
    if c <= '9' then (c as int - '0' as int) as nat else (c as int - 'a' as int + 10) as nat
  }

  /** `crypto.randomBytes(n).toString('hex')`, the n random bytes supplied:
      each byte becomes two lower-case hex digits, high nibble first. */
  function GenerateToken(bytes: seq<byte>): (t: string)
    ensures |t| == 2 * |bytes|
    ensures forall i :: 0 <= i < |t| ==> IsHexChar(t[i])
  {
    if |bytes| == 0 then []
    else [HexDigits[bytes[0] / 16], HexDigits[bytes[0] % 16]] + GenerateToken(bytes[1..])
  }

  /** Reads a hex string back into bytes (`Buffer.from(t, 'hex')`). */
  function DecodeHex(t: string): seq<byte>
    requires |t| % 2 == 0
    requires forall i :: 0 <= i < |t| ==> IsHexChar(t[i])
    decreases |t|
  {
    if |t| == 0 then []
    else [(HexValue(t[0]) * 16 + HexValue(t[1])) as byte] + DecodeHex(t[2..])
  }

  /** Each hex digit reads back as its own position in the digit table. */
  lemma HexDigitValue(k: nat)
    requires k < 16
    ensures IsHexChar(HexDigits[k]) && HexValue(HexDigits[k]) == k
  {
  }

  /** The hex encoding loses nothing: decoding a token gives back the random bytes. */
  lemma {:induction false} TokenRoundTrip(bytes: seq<byte>)
    ensures DecodeHex(GenerateToken(bytes)) == bytes
    decreases |bytes|
  {
    if |bytes| > 0 {
      var b := bytes[0];
      var rest := GenerateToken(bytes[1..]);
      var t := GenerateToken(bytes);
      assert t == [HexDigits[b / 16], HexDigits[b % 16]] + rest;
      assert t[2..] == rest;
      HexDigitValue((b / 16) as nat);
      HexDigitValue((b % 16) as nat);
      assert (HexValue(t[0]) * 16 + HexValue(t[1])) as byte == b;
      TokenRoundTrip(bytes[1..]);
      assert bytes == [b] + bytes[1..];
    }
  }

  /** A token is one UTF-8 byte per hex digit: 64 bytes for the default 32 random
      bytes, inside the 72 bytes bcrypt reads. */
  lemma TokenKeyLength(bytes: seq<byte>)
    ensures |Unicode.Utf8(GenerateToken(bytes))| == 2 * |bytes|
  {
    Unicode.AsciiUtf8(GenerateToken(bytes));
  }

  /** `Math.floor(100000 + Math.random() * 900000)` with the draw supplied. */
  function OtpValue(draw: real): (n: nat)
    requires 0.0 <= draw < 1.0
    ensures 100000 <= n <= 999999
  {
    (100000.0 + draw * 900000.0).Floor
  }

  /** `generateOTP()`: the code as a string. */
  function GenerateOtp(draw: real): (otp: string)
    requires 0.0 <= draw < 1.0
    ensures |otp| == 6 && AllDigits(otp) && otp[0] != '0'
    ensures 100000 <= DecimalValue(otp) <= 999999
    ensures DecimalValue(otp) == OtpValue(draw)
  {
    var n := OtpValue(draw);
    SixDigitRange();
    DecimalLength(n, 6);
    DecimalRoundTrip(n);
    Decimal(n)
  }

  /** A code is six UTF-8 bytes, inside the 72 bytes bcrypt reads. */
  lemma OtpKeyLength(draw: real)
    requires 0.0 <= draw < 1.0
    ensures |Unicode.Utf8(GenerateOtp(draw))| == 6
  {
    Unicode.AsciiUtf8(GenerateOtp(draw));
  }

  /** A freshly generated secret with its digest; only the digest is stored. */
  datatype Secret = Secret(plaintext: string, digest: string)

  /** `generateVerificationToken()`: a 32-byte hex token and its bcrypt digest. */
  function GenerateVerificationToken(h: Bcrypt.Hasher, bytes: seq<byte>, salt: string): (s: Secret)
    requires Bcrypt.Sound(h)
    requires |bytes| == DefaultTokenBytes
    ensures |s.plaintext| == 64
    ensures forall i :: 0 <= i < |s.plaintext| ==> IsHexChar(s.plaintext[i])
    ensures DecodeHex(s.plaintext) == bytes
    ensures Bcrypt.Verify(h, s.plaintext, s.digest) && Bcrypt.DigestShaped(s.digest)
  {
    TokenRoundTrip(bytes);
    var t := GenerateToken(bytes);
    Secret(t, Bcrypt.Hash(h, t, salt))
  }

  /** `generateOTPWithHash()`: a six-digit code and its bcrypt digest. */
  function GenerateOtpWithHash(h: Bcrypt.Hasher, draw: real, salt: string): (s: Secret)
    requires Bcrypt.Sound(h)
    requires 0.0 <= draw < 1.0
    ensures |s.plaintext| == 6 && AllDigits(s.plaintext)
    ensures 100000 <= DecimalValue(s.plaintext) <= 999999
    ensures Bcrypt.Verify(h, s.plaintext, s.digest) && Bcrypt.DigestShaped(s.digest)
  {
    var otp := GenerateOtp(draw);
    Secret(otp, Bcrypt.Hash(h, otp, salt))
  }

  /** `isTokenExpired(expiresAt)`: strictly past its expiry instant. */
  predicate IsTokenExpired(now: Time, expiresAt: Time) {
    now > expiresAt
  }

  /** `getExpiryDate(minutes)`: the instant `minutes` from now. */
  function GetExpiryDate(now: Time, minutes: int): (e: Time)
    ensures e - now == minutes * MsPerMinute
  {
    now + minutes * MsPerMinute
  }

  /** A secret is alive at its very expiry instant and dies one millisecond later. */
  lemma ExpiryBoundary(expiresAt: Time)
    ensures !IsTokenExpired(expiresAt, expiresAt)
    ensures IsTokenExpired(expiresAt + 1, expiresAt)
  {
  }

  /** An expiry computed now is already expired iff it lies in the past (negative minutes). */
  lemma FreshExpiry(now: Time, minutes: int)
    ensures IsTokenExpired(now, GetExpiryDate(now, minutes)) <==> minutes < 0
  {
  }
}
