/**
 * The encryption engine: key derivation from the share id, AES-256-GCM
 * encryption of the secret with the tag appended, the split of the stored
 * buffer back into ciphertext and tag, and argon2 password hashing.
 *
 * The primitives themselves (PBKDF2, AES-GCM, argon2) are foreign library
 * code. They are the function-valued fields of a `Crypto` value. The model
 * relies on the two round trips of `Laws` (a value verifies against its own
 * hash, and decrypting what was encrypted under the same key and nonce gives
 * the plaintext back) and on the output types of the fields: a derived key
 * of 32 bytes (`Key`), a tag of 16 bytes (`Tag`), and a hash that is a
 * non-empty string of at most 255 characters (`Hash`).
 */
module Encryption {
  import opened Wrappers

  type Byte = b: int | 0 <= b < 256
  type Bytes = seq<Byte>

  const KEY_LENGTH: nat := 32      // PBKDF2 output length (256-bit key)
  const NONCE_LENGTH: nat := 12    // randomBytes(12): 96-bit GCM nonce
  const TAG_LENGTH: nat := 16      // getAuthTag(): 128-bit GCM tag
  const KDF_ITERATIONS: nat := 100_000
  const HASH_COLUMN_MAX: nat := 255  // password_hash and otp_hash are varchar(255)

  type Key = k: Bytes | |k| == KEY_LENGTH witness seq(32, _ => 0)
  type Nonce = n: Bytes | |n| == NONCE_LENGTH witness seq(12, _ => 0)
  type Tag = t: Bytes | |t| == TAG_LENGTH witness seq(16, _ => 0)

  /** An argon2 encoded hash: a non-empty string short enough for its column. */
  type Hash = h: string | 0 < |h| <= HASH_COLUMN_MAX witness "$"

  /** The output of one AES-GCM encryption: the ciphertext and its tag. */
  datatype Sealed = Sealed(body: Bytes, tag: Tag)

  /** The crypto primitives, uninterpreted. */
  datatype Crypto = Crypto(
    /** pbkdf2Sync(id, salt, KDF_ITERATIONS, KEY_LENGTH, "sha256") */
    deriveKey: (string, string) -> Key,
    /** createCipheriv("aes-256-gcm", key, iv) over the UTF-8 encoding of the secret */
    seal: (Key, Nonce, string) -> Sealed,
    /** createDecipheriv with setAuthTag; None when final() throws (tag mismatch or bad tag) */
    open: (Key, Nonce, Bytes, Bytes) -> Option<string>,
    /** argon2.hash; the second argument stands for its random salt */
    hash: (string, Bytes) -> Hash,
    /** argon2.verify(hash, candidate) */
    verify: (Hash, string) -> bool)

  /** The two round trips assumed of the primitives, and nothing else. */
  ghost predicate Laws(c: Crypto)
  {
    && (forall s, salt :: c.verify(c.hash(s, salt), s))
    && (forall k, iv, p :: c.open(k, iv, c.seal(k, iv, p).body, c.seal(k, iv, p).tag) == Some(p))
  }

  const DEFAULT_SALT: string := "default_secret_salt_change_me"

  /** `process.env.SECRET_SALT || DEFAULT_SALT`: an unset or empty variable falls back to the default. */
  function ServerSalt(env: Option<string>): (salt: string)
    ensures salt != ""
    ensures env.Some? && env.value != "" ==> salt == env.value
    ensures env.None? || env.value == "" ==> salt == DEFAULT_SALT
  {
    if env.Some? && env.value != "" then env.value else DEFAULT_SALT
  }

  // ---------------------------------------------------------------------
  // The stored buffer: ciphertext || tag

  /** `Buffer.concat([ciphertext, tag])`, the value of the encrypted_secret column. */
  function Concat(s: Sealed): Bytes
  {
    s.body + s.tag
  }

  /** How Buffer.subarray normalises an index: negative counts from the end, then clamped to 0..len. */
  function ClampIndex(i: int, len: nat): nat
  {
    if i < 0 then (if len + i < 0 then 0 else len + i)
    else if i > len then len
    else i
  }

  /** `buf.slice(start, end)` on a Node Buffer (an alias of subarray). */
  function Slice(buf: Bytes, start: int, end: int): Bytes
  {
    var lo := ClampIndex(start, |buf|);
    var hi := ClampIndex(end, |buf|);
    if lo < hi then buf[lo..hi] else []
  }

  /** The unlock handler's split: the tag is `enc.slice(len - 16)`, the ciphertext `enc.slice(0, len - 16)`. */
  function SplitTag(enc: Bytes): (parts: (Bytes, Bytes))
  {
    (Slice(enc, 0, |enc| - TAG_LENGTH), Slice(enc, |enc| - TAG_LENGTH, |enc|))
  }

  /** Splitting inverts the concatenation made at creation. */
  lemma SplitTagInvertsConcat(s: Sealed)
    ensures SplitTag(Concat(s)) == (s.body, s.tag)
  {
    var enc := Concat(s);
    var cut := |s.body|;
    assert ClampIndex(|enc| - TAG_LENGTH, |enc|) == cut;
    assert ClampIndex(|enc|, |enc|) == |enc|;
    assert enc[0..cut] == s.body;
    assert enc[cut..|enc|] == s.tag;
  }

  /**
   * For every buffer the two slices partition it; the tag has its full 16
   * bytes exactly when the buffer has at least 16 (a shorter buffer yields a
   * shorter tag, which the decipher then rejects).
   */
  lemma SplitTagPartitions(enc: Bytes)
    ensures SplitTag(enc).0 + SplitTag(enc).1 == enc
    ensures |SplitTag(enc).1| == TAG_LENGTH <==> |enc| >= TAG_LENGTH
  {
  }

  // ---------------------------------------------------------------------
  // Encryption and decryption of one record's secret

  /** What the create handler stores for `plaintext` under share id `id` and nonce `iv`. */
  function Encrypt(c: Crypto, id: string, salt: string, iv: Nonce, plaintext: string): Bytes
  {
    Concat(c.seal(c.deriveKey(id, salt), iv, plaintext))
  }

  /** The unlock handler's decryption of a stored buffer; None is the exception from decipher.final(). */
  function Decrypt(c: Crypto, id: string, salt: string, iv: Nonce, enc: Bytes): Option<string>
  {
    var parts := SplitTag(enc);
    c.open(c.deriveKey(id, salt), iv, parts.0, parts.1)
  }

  /** The at-rest round trip: the key is re-derived from the id, so decryption recovers the secret. */
  lemma DecryptEncrypt(c: Crypto, id: string, salt: string, iv: Nonce, plaintext: string)
    requires Laws(c)
    ensures Decrypt(c, id, salt, iv, Encrypt(c, id, salt, iv, plaintext)) == Some(plaintext)
  {
    var s := c.seal(c.deriveKey(id, salt), iv, plaintext);
    SplitTagInvertsConcat(s);
  }

  // ---------------------------------------------------------------------
  // The laws are consistent: a symbolic instance satisfies them

  /** Three bytes per character (a code point is below 0x110000). */
  function EncodeChars(p: string): Bytes
  {
    if p == [] then []
    else
      var n := p[0] as int;
      [n / 65536, (n / 256) % 256, n % 256] + EncodeChars(p[1..])
  }

  predicate IsScalarValue(n: int)
  {
    (0 <= n < 0xD800) || (0xE000 <= n < 0x11_0000)
  }

  function DecodeChars(b: Bytes): Option<string>
    decreases |b|
  {
    if b == [] then Some([])
    else if |b| < 3 then None
    else
      var n := b[0] as int * 65536 + b[1] as int * 256 + b[2] as int;
      if !IsScalarValue(n) then None
      else match DecodeChars(b[3..])
        case None => None
        case Some(rest) => Some([n as char] + rest)
  }

  lemma {:induction false} DecodeEncodeChars(p: string)
    ensures DecodeChars(EncodeChars(p)) == Some(p)
  {
    if p != [] {
      var n := p[0] as int;
      var b := EncodeChars(p);
      assert b[3..] == EncodeChars(p[1..]);
      assert b[0] as int * 65536 + b[1] as int * 256 + b[2] as int == n;
      DecodeEncodeChars(p[1..]);
      assert [n as char] + p[1..] == p;
    }
  }

  function SymbolicHash(s: string): Hash
  {
    if |s| < HASH_COLUMN_MAX then "$" + s else "$"
  }

  /** A symbolic stand-in: a constant key, an identity "cipher" with a zero tag, and a hash that ignores its salt. */
  function SymbolicCrypto(): Crypto
  {
    Crypto(
      (id, salt) => seq(32, _ => 0),
      (k, iv, p) => Sealed(EncodeChars(p), seq(16, _ => 0)),
      (k, iv, body, tag) => DecodeChars(body),
      (s, salt) => SymbolicHash(s),
      (h, s) => h == SymbolicHash(s))
  }

  lemma SymbolicCryptoLaws()
    ensures Laws(SymbolicCrypto())
  {
    var c := SymbolicCrypto();
    forall k, iv, p ensures c.open(k, iv, c.seal(k, iv, p).body, c.seal(k, iv, p).tag) == Some(p) {
      DecodeEncodeChars(p);
    }
  }
}
