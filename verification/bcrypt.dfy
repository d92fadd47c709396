/** bcrypt, the one-way salted hash behind `hashToken`/`verifyToken` and
    `hashPassword`/`verifyPassword`, seen from outside: the engine only hashes
    with a freshly drawn salt and later compares a plaintext against a stored digest.
    The algorithm itself is a supplied `Hasher`; `Sound` states what the engine
    relies on. */
module Bcrypt {
  import opened Unicode

  /** bcrypt keys on at most this many bytes of the plaintext's UTF-8 encoding. */
  const MaxKeyBytes: nat := 72

  /** The part of a plaintext bcrypt reads: its first 72 UTF-8 bytes. */
  function KeyBytes(t: string): (k: seq<nat>)
    ensures |k| <= MaxKeyBytes
    ensures |Utf8(t)| <= MaxKeyBytes ==> k == Utf8(t)
    ensures |Utf8(t)| >= MaxKeyBytes ==> k == Utf8(t)[..MaxKeyBytes]
  {
    var u := Utf8(t);
    if |u| <= MaxKeyBytes then u else u[..MaxKeyBytes]
  }

  /** `hash(plaintext, salt)` computes a digest; `saltOf(digest)` reads back the
      salt embedded in a digest, as `bcrypt.compare` does. */
  datatype Hasher = Hasher(hash: (string, string) -> string, saltOf: string -> string)

  /** bcrypt digests are written in modular-crypt form: "$2b$10$<salt><hash>". */
  predicate DigestShaped(d: string) {
    |d| > 0 && d[0] == '$'
  }

  /** What the engine assumes of bcrypt: the salt can be read back from a digest,
      a digest is in modular-crypt form, and under one salt two plaintexts get the
      same digest exactly when their first 72 UTF-8 bytes agree (bytes past the
      72nd are ignored; second-preimage resistance, idealised, for the rest). */
  ghost predicate Sound(h: Hasher) {
    (forall t, s :: h.saltOf(h.hash(t, s)) == s && DigestShaped(h.hash(t, s)))
    && (forall t1, t2, s :: h.hash(t1, s) == h.hash(t2, s) <==> KeyBytes(t1) == KeyBytes(t2))
  }

  /** `bcrypt.compare(plaintext, digest)`: rehash under the digest's own salt. */
  predicate Verify(h: Hasher, plaintext: string, digest: string) {
    h.hash(plaintext, h.saltOf(digest)) == digest
  }

  /** `bcrypt.hash(plaintext, 10)` with the random salt supplied. */
  function Hash(h: Hasher, plaintext: string, salt: string): (d: string)
    requires Sound(h)
    ensures Verify(h, plaintext, d)
    ensures DigestShaped(d)
  {
    h.hash(plaintext, salt)
  }

  /** A digest verifies exactly the plaintexts that agree with its own on the
      first 72 bytes. */
  lemma VerifyExactly(h: Hasher, plaintext: string, salt: string, guess: string)
    requires Sound(h)
    ensures Verify(h, guess, Hash(h, plaintext, salt)) <==> KeyBytes(guess) == KeyBytes(plaintext)
  {
    var d := h.hash(plaintext, salt);
    assert h.saltOf(d) == salt;
  }

  /** Within the 72-byte limit a digest verifies its own plaintext and nothing
      else: when the plaintext is shorter than the limit, or both are within it. */
  lemma VerifyWithinLimit(h: Hasher, plaintext: string, salt: string, guess: string)
    requires Sound(h)
    ensures |Utf8(plaintext)| < MaxKeyBytes ==>
              (Verify(h, guess, Hash(h, plaintext, salt)) <==> guess == plaintext)
    ensures |Utf8(plaintext)| <= MaxKeyBytes && |Utf8(guess)| <= MaxKeyBytes ==>
              (Verify(h, guess, Hash(h, plaintext, salt)) <==> guess == plaintext)
  {
    VerifyExactly(h, plaintext, salt, guess);
    if Verify(h, guess, Hash(h, plaintext, salt)) && |Utf8(plaintext)| <= MaxKeyBytes
       && (|Utf8(plaintext)| < MaxKeyBytes || |Utf8(guess)| <= MaxKeyBytes) {
      assert KeyBytes(guess) == Utf8(plaintext);
      assert Utf8(guess) == Utf8(plaintext);
      Utf8Injective(guess, plaintext);
    }
  }

  /** Past the limit bcrypt stops reading: whatever follows a plaintext of 72 bytes
      or more verifies against its digest. */
  lemma TruncatedTail(h: Hasher, plaintext: string, salt: string, tail: string)
    requires Sound(h)
    requires |Utf8(plaintext)| >= MaxKeyBytes
    ensures Verify(h, plaintext + tail, Hash(h, plaintext, salt))
  {
    VerifyExactly(h, plaintext, salt, plaintext + tail);
    Utf8Append(plaintext, tail);
    assert Utf8(plaintext + tail)[..MaxKeyBytes] == Utf8(plaintext)[..MaxKeyBytes];
  }
}
