/**
 * The `shared_secrets` row and its construction by the create endpoint.
 *
 * The field set follows the two migrations: the base table and the OTP
 * columns. Nullable columns are `Option`s; timestamps are integer instants
 * in milliseconds. The unlock handler tests several columns by JavaScript
 * truthiness (`if (record.email)`, `if (record.max_views)`); `Present`,
 * `NonZero` and `AsNumber` state those tests exactly.
 */
module Records {
  import opened Wrappers
  import opened Encryption
  import opened Validation

  const DAY_MS: int := 86_400_000
  const INT4_MAX: int := 2_147_483_647   // max_views and views_remaining are integer columns
  const VARCHAR_MAX: nat := 255          // email is a varchar(255) column

  datatype SecretRecord = SecretRecord(
    encryptedSecret: Bytes,        // ciphertext || 16-byte tag
    iv: Nonce,
    expiresAt: int,
    maxViews: Option<int>,
    viewsRemaining: Option<int>,
    passwordHash: Option<Hash>,
    email: Option<string>,
    otpHash: Option<Hash>,
    otpExpiresAt: Option<int>,
    otpVerified: bool,
    createdAt: int,
    updatedAt: int)

  /** JavaScript truthiness of a nullable string: neither null nor "". */
  predicate Present(s: Option<string>)
  {
    s.Some? && s.value != ""
  }

  /** JavaScript truthiness of a nullable number: neither null nor 0. */
  predicate NonZero(n: Option<int>)
  {
    n.Some? && n.value != 0
  }

  /** A nullable number in arithmetic or a comparison: null coerces to 0. */
  function AsNumber(n: Option<int>): int
  {
    n.GetOr(0)
  }

  /** The row the create handler inserts for a validated request, with the environment's id, clock, nonce and hash salt. */
  function NewRecord(c: Crypto, salt: string, id: string, x: CreateInput,
                     now: int, iv: Nonce, hashSalt: Bytes): SecretRecord
  {
    SecretRecord(
      encryptedSecret := Encrypt(c, id, salt, iv, x.secret),
      iv := iv,
      expiresAt := now + x.expiresInDays * DAY_MS,
      maxViews := x.maxViews,
      viewsRemaining := x.maxViews,
      passwordHash := if Present(x.password) then Some(c.hash(x.password.value, hashSalt)) else None,
      email := x.email,
      otpHash := None,
      otpExpiresAt := None,
      otpVerified := !Present(x.email),
      createdAt := now,
      updatedAt := now)
  }

  /** What the database accepts for the integer and varchar(255) columns the handler fills from the request. */
  predicate ColumnsFit(r: SecretRecord)
  {
    && (r.maxViews.Some? ==> -INT4_MAX - 1 <= r.maxViews.value <= INT4_MAX)
    && (r.viewsRemaining.Some? ==> -INT4_MAX - 1 <= r.viewsRemaining.value <= INT4_MAX)
    && (r.email.Some? ==> |r.email.value| <= VARCHAR_MAX)
  }

  /**
   * The row invariant kept by the two endpoints: the view columns are set
   * together and a stored quota is never used up (`1 <= views_remaining <=
   * max_views`); without an e-mail the OTP gate is open; the OTP hash and
   * its expiry are set together.
   */
  predicate WellFormed(r: SecretRecord)
  {
    && ColumnsFit(r)
    && (r.maxViews.Some? <==> r.viewsRemaining.Some?)
    && (r.maxViews.Some? ==> 1 <= r.viewsRemaining.value <= r.maxViews.value)
    && (!Present(r.email) ==> r.otpVerified)
    && (r.otpHash.Some? <==> r.otpExpiresAt.Some?)
  }

  /**
   * A new row: the view counter mirrors `max_views`, absent options are
   * stored as null, the OTP gate is open exactly when no e-mail is given (the
   * e-mail format rejects the empty string), no
   * OTP is outstanding, the expiry lies exactly `expiresInDays` days (1 to 30) ahead,
   * the stored password hash verifies the password, and the stored buffer
   * decrypts to the secret. It is well formed exactly when its columns fit.
   */
  lemma NewRecordFields(c: Crypto, salt: string, id: string, x: CreateInput,
                        now: int, iv: Nonce, hashSalt: Bytes, isEmail: string -> bool)
    requires Laws(c)
    requires ValidCreateInput(x, isEmail)
    ensures var r := NewRecord(c, salt, id, x, now, iv, hashSalt);
      && r.viewsRemaining == r.maxViews == x.maxViews
      && (x.email.None? ==> r.otpVerified)
      && (x.email.Some? && !isEmail("") ==> !r.otpVerified)
      && (x.password.None? <==> r.passwordHash.None?)
      && (x.password.Some? ==> c.verify(r.passwordHash.value, x.password.value))
      && r.email == x.email
      && r.otpHash.None? && r.otpExpiresAt.None?
      && r.expiresAt == now + x.expiresInDays * DAY_MS
      && now + DAY_MS <= r.expiresAt <= now + 30 * DAY_MS
      && Decrypt(c, id, salt, iv, r.encryptedSecret) == Some(x.secret)
      && (WellFormed(r) <==> ColumnsFit(r))
  {
    DecryptEncrypt(c, id, salt, iv, x.secret);
  }
}
