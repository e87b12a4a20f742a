/**
 * The unlock transaction on one locked row, as a pure function.
 *
 * The gates run in a fixed order and the first one that fails ends the
 * transaction: expiry, view quota, password, one-time code, decryption.
 * `UnlockRecord` gives the response, what happens to the row (`Effect`)
 * and the verification e-mail handed to the mailer, if any. The clock, the
 * `Math.random()` draw behind a new code and argon2's random salt are
 * parameters.
 */
module Gates {
  import opened Wrappers
  import opened Encryption
  import opened Records

  const OTP_TTL_MS: int := 600_000   // a code is valid for 10 minutes
  const CODE_MIN: int := 100_000
  const CODE_MAX: int := 999_999

  /** A value of `Math.random()`. */
  type Fraction = r: real | 0.0 <= r < 1.0

  /** The response of the unlock endpoint. */
  datatype Outcome =
    | NotFound              // 404
    | Gone                  // 410
    | Unauthorized          // 401
    | RequireOtp            // 401 with { require2FA: true }
    | Unlocked(secret: string)  // 200 with { secret }
    | BadRequest            // 400, the body failed validation
    | ServerError           // 500, an exception inside the transaction

  /** What the committed transaction does to the row. */
  datatype Effect = Keep | Delete | Store(rec: SecretRecord)

  /** The verification message given to the mail transport. */
  datatype Mail = Mail(to: string, code: string)

  datatype Step = Step(outcome: Outcome, effect: Effect, mail: Option<Mail>)

  // ---------------------------------------------------------------------
  // The tests the gates make

  /** `new Date(record.expires_at) < new Date()`. */
  predicate Expired(r: SecretRecord, now: int)
  {
    r.expiresAt < now
  }

  /** `record.max_views && record.views_remaining <= 0`. */
  predicate QuotaExhausted(r: SecretRecord)
  {
    NonZero(r.maxViews) && AsNumber(r.viewsRemaining) <= 0
  }

  /** With a password hash stored, a non-empty password must be supplied and verify against it. */
  predicate PasswordAccepted(c: Crypto, r: SecretRecord, password: Option<string>)
  {
    r.passwordHash.Some? ==> Present(password) && c.verify(r.passwordHash.value, password.value)
  }

  /** `record.email && !record.otp_verified`: the OTP gate is closed. */
  predicate OtpPending(r: SecretRecord)
  {
    Present(r.email) && !r.otpVerified
  }

  /** An outstanding code that has not expired: `otp_hash && otp_expires_at && otp_expires_at > now`. */
  predicate OtpLive(r: SecretRecord, now: int)
  {
    r.otpHash.Some? && r.otpExpiresAt.Some? && r.otpExpiresAt.value > now
  }

  /** No code can be accepted: `!otp_hash || !otp_expires_at || otp_expires_at < now`. */
  predicate OtpStale(r: SecretRecord, now: int)
  {
    r.otpHash.None? || r.otpExpiresAt.None? || r.otpExpiresAt.value < now
  }

  // ---------------------------------------------------------------------
  // Issuing a code

  /** `Math.floor(100000 + Math.random() * 900000)`, over the reals. */
  function OtpCode(rand: Fraction): (n: int)
    ensures CODE_MIN <= n <= CODE_MAX
  {
    (100000.0 + rand * 900000.0).Floor
  }

  function DigitChar(d: int): char
    requires 0 <= d < 10
  {
    "0123456789"[d]
  }

  /** `n.toString()` for a natural number. */
  function Decimal(n: nat): string
  {
    if n < 10 then [DigitChar(n)] else Decimal(n / 10) + [DigitChar(n % 10)]
  }

  function Pow10(k: nat): nat
  {
    if k == 0 then 1 else 10 * Pow10(k - 1)
  }

  /** A number with k digits prints as k decimal digits. */
  lemma {:induction false} DecimalLength(n: nat, k: nat)
    requires 1 <= k && Pow10(k - 1) <= n < Pow10(k)
    ensures |Decimal(n)| == k
    ensures forall i :: 0 <= i < k ==> '0' <= Decimal(n)[i] <= '9'
  {
    if k > 1 {
      assert Pow10(k) == 10 * Pow10(k - 1) && Pow10(k - 1) == 10 * Pow10(k - 2);
      assert n >= 10;
      DecimalLength(n / 10, k - 1);
    }
  }

  /** Every issued code prints as exactly six decimal digits, the length the unlock schema demands. */
  lemma CodeTextHasSixDigits(rand: Fraction)
    ensures |Decimal(OtpCode(rand))| == 6
    ensures forall i :: 0 <= i < 6 ==> '0' <= Decimal(OtpCode(rand))[i] <= '9'
  {
    assert Pow10(5) == CODE_MIN && Pow10(6) == CODE_MAX + 1;
    DecimalLength(OtpCode(rand), 6);
  }

  /** Store the hash of a new code with a 10-minute expiry, mail the code and ask for it. */
  function IssueOtp(c: Crypto, r: SecretRecord, now: int, rand: Fraction, hashSalt: Bytes): Step
    requires r.email.Some?
  {
    var text := Decimal(OtpCode(rand));
    Step(RequireOtp,
         Store(r.(otpHash := Some(c.hash(text, hashSalt)), otpExpiresAt := Some(now + OTP_TTL_MS))),
         Some(Mail(r.email.value, text)))
  }

  // ---------------------------------------------------------------------
  // Decryption and the view counter

  /**
   * After a decrypt: without a (non-zero) `max_views` the row stays as it
   * is; otherwise the counter drops by one, and the row is deleted when that
   * leaves it at or below zero.
   */
  function ConsumeView(r: SecretRecord, now: int): Effect
  {
    if !NonZero(r.maxViews) then Store(r)
    else
      var remaining := AsNumber(r.viewsRemaining) - 1;
      if remaining <= 0 then Delete
      else Store(r.(viewsRemaining := Some(remaining), updatedAt := now))
  }

  /** Derive the key, decrypt, consume a view. A failed decrypt throws, which rolls the whole transaction back. */
  function Reveal(c: Crypto, salt: string, id: string, r: SecretRecord, now: int): Step
  {
    match Decrypt(c, id, salt, r.iv, r.encryptedSecret)
    case None => Step(ServerError, Keep, None)
    case Some(p) => Step(Unlocked(p), ConsumeView(r, now), None)
  }

  // ---------------------------------------------------------------------
  // The gate chain

  /** The unlock transaction on the row `r` with share id `id`, for a validated body. */
  function UnlockRecord(c: Crypto, salt: string, id: string, r: SecretRecord,
                        password: Option<string>, code: Option<string>,
                        now: int, rand: Fraction, hashSalt: Bytes): Step
  {
    if Expired(r, now) || QuotaExhausted(r) then Step(Gone, Delete, None)
    else if !PasswordAccepted(c, r, password) then Step(Unauthorized, Keep, None)
    else if !OtpPending(r) then Reveal(c, salt, id, r, now)
    else if !Present(code) then
      if OtpLive(r, now) then Step(RequireOtp, Keep, None)
      else IssueOtp(c, r, now, rand, hashSalt)
    else if OtpStale(r, now) || !c.verify(r.otpHash.value, code.value) then Step(RequireOtp, Keep, None)
    else Reveal(c, salt, id, r.(otpVerified := true), now)
  }

  // ---------------------------------------------------------------------
  // Properties of the gate chain

  /** The password gate passed and the OTP gate is open or was opened by a matching, unexpired code. */
  predicate GatesPassed(c: Crypto, r: SecretRecord, password: Option<string>, code: Option<string>, now: int)
  {
    && PasswordAccepted(c, r, password)
    && (!OtpPending(r) || (Present(code) && !OtpStale(r, now) && c.verify(r.otpHash.value, code.value)))
  }

  /** An expired or used-up row is deleted and reported gone, whatever password or code comes with the request. */
  lemma ExpiredOrExhaustedIsGone(c: Crypto, salt: string, id: string, r: SecretRecord,
                                 password: Option<string>, code: Option<string>,
                                 now: int, rand: Fraction, hashSalt: Bytes)
    requires Expired(r, now) || QuotaExhausted(r)
    ensures UnlockRecord(c, salt, id, r, password, code, now, rand, hashSalt) == Step(Gone, Delete, None)
  {
  }

  /** A missing or wrong password is refused without asking for a code; the row is untouched. */
  lemma BadPasswordIsUnauthorized(c: Crypto, salt: string, id: string, r: SecretRecord,
                                  password: Option<string>, code: Option<string>,
                                  now: int, rand: Fraction, hashSalt: Bytes)
    requires !Expired(r, now) && !QuotaExhausted(r)
    requires r.passwordHash.Some?
    requires !Present(password) || !c.verify(r.passwordHash.value, password.value)
    ensures UnlockRecord(c, salt, id, r, password, code, now, rand, hashSalt) == Step(Unauthorized, Keep, None)
  {
  }

  /** Asking again while a code is outstanding and unexpired sends nothing and leaves the stored code as it is. */
  lemma LiveCodeIsNotReissued(c: Crypto, salt: string, id: string, r: SecretRecord,
                              password: Option<string>, code: Option<string>,
                              now: int, rand: Fraction, hashSalt: Bytes)
    requires !Expired(r, now) && !QuotaExhausted(r) && PasswordAccepted(c, r, password)
    requires OtpPending(r) && !Present(code) && OtpLive(r, now)
    ensures UnlockRecord(c, salt, id, r, password, code, now, rand, hashSalt) == Step(RequireOtp, Keep, None)
  {
  }

  /**
   * Asking without a code and no outstanding unexpired one: a six-digit code
   * from 100000..999999 is mailed to the recipient, its hash is stored with
   * an expiry 10 minutes ahead (and verifies that code), nothing else in the
   * row changes, and a code is asked for.
   */
  lemma CodeIsIssued(c: Crypto, salt: string, id: string, r: SecretRecord,
                     password: Option<string>, code: Option<string>,
                     now: int, rand: Fraction, hashSalt: Bytes)
    requires !Expired(r, now) && !QuotaExhausted(r) && PasswordAccepted(c, r, password)
    requires OtpPending(r) && !Present(code) && !OtpLive(r, now)
    ensures var s := UnlockRecord(c, salt, id, r, password, code, now, rand, hashSalt);
      && s.outcome == RequireOtp
      && s.mail.Some? && s.mail.value.to == r.email.value
      && (exists n :: CODE_MIN <= n <= CODE_MAX && s.mail.value.code == Decimal(n))
      && |s.mail.value.code| == 6
      && (forall i :: 0 <= i < 6 ==> '0' <= s.mail.value.code[i] <= '9')
      && s.effect == Store(r.(otpHash := Some(c.hash(s.mail.value.code, hashSalt)),
                              otpExpiresAt := Some(now + OTP_TTL_MS)))
      && (Laws(c) ==> c.verify(s.effect.rec.otpHash.value, s.mail.value.code))
  {
    CodeTextHasSixDigits(rand);
    assert CODE_MIN <= OtpCode(rand) <= CODE_MAX;
  }

  /** A code sent with no outstanding code, after the code's expiry, or not matching it is refused; the row is untouched. */
  lemma BadCodeIsRefused(c: Crypto, salt: string, id: string, r: SecretRecord,
                         password: Option<string>, code: Option<string>,
                         now: int, rand: Fraction, hashSalt: Bytes)
    requires !Expired(r, now) && !QuotaExhausted(r) && PasswordAccepted(c, r, password)
    requires OtpPending(r) && Present(code)
    requires OtpStale(r, now) || !c.verify(r.otpHash.value, code.value)
    ensures UnlockRecord(c, salt, id, r, password, code, now, rand, hashSalt) == Step(RequireOtp, Keep, None)
  {
  }

  /**
   * The plaintext is returned exactly when the row is neither expired nor
   * used up, the password and OTP gates passed and the decrypt succeeded;
   * it is then the decryption of the stored buffer.
   */
  lemma UnlockedExactlyWhenGatesPass(c: Crypto, salt: string, id: string, r: SecretRecord,
                                     password: Option<string>, code: Option<string>,
                                     now: int, rand: Fraction, hashSalt: Bytes)
    ensures var s := UnlockRecord(c, salt, id, r, password, code, now, rand, hashSalt);
      && (s.outcome.Unlocked? <==>
            !Expired(r, now) && !QuotaExhausted(r) && GatesPassed(c, r, password, code, now)
            && Decrypt(c, id, salt, r.iv, r.encryptedSecret).Some?)
      && (s.outcome.Unlocked? ==> Some(s.outcome.secret) == Decrypt(c, id, salt, r.iv, r.encryptedSecret))
  {
  }

  /**
   * After a successful decrypt, with a (non-zero) quota the counter drops by
   * exactly one and the row is deleted when that reaches zero or below;
   * without one the counter is left alone. The only other change is the
   * OTP gate opened in this call.
   */
  lemma SuccessConsumesOneView(c: Crypto, salt: string, id: string, r: SecretRecord,
                               password: Option<string>, code: Option<string>,
                               now: int, rand: Fraction, hashSalt: Bytes)
    requires UnlockRecord(c, salt, id, r, password, code, now, rand, hashSalt).outcome.Unlocked?
    ensures var s := UnlockRecord(c, salt, id, r, password, code, now, rand, hashSalt);
      var verified := r.(otpVerified := r.otpVerified || OtpPending(r));
      && (NonZero(r.maxViews) && AsNumber(r.viewsRemaining) <= 1 ==> s.effect == Delete)
      && (NonZero(r.maxViews) && AsNumber(r.viewsRemaining) > 1 ==>
            s.effect == Store(verified.(viewsRemaining := Some(AsNumber(r.viewsRemaining) - 1), updatedAt := now)))
      && (!NonZero(r.maxViews) ==> s.effect == Store(verified))
      && s.mail.None?
  {
  }

  /** Only a matching, unexpired code turns `otp_verified` from false to true. */
  lemma OtpVerifiedOnlyByMatchingCode(c: Crypto, salt: string, id: string, r: SecretRecord,
                                      password: Option<string>, code: Option<string>,
                                      now: int, rand: Fraction, hashSalt: Bytes)
    requires !r.otpVerified
    requires var s := UnlockRecord(c, salt, id, r, password, code, now, rand, hashSalt);
      s.effect.Store? && s.effect.rec.otpVerified
    ensures Present(code) && !OtpStale(r, now) && c.verify(r.otpHash.value, code.value)
  {
  }

  /** An outstanding unexpired code is never overwritten, whatever the request. */
  lemma LiveCodeIsNeverOverwritten(c: Crypto, salt: string, id: string, r: SecretRecord,
                                   password: Option<string>, code: Option<string>,
                                   now: int, rand: Fraction, hashSalt: Bytes)
    requires OtpLive(r, now)
    requires UnlockRecord(c, salt, id, r, password, code, now, rand, hashSalt).effect.Store?
    ensures var r' := UnlockRecord(c, salt, id, r, password, code, now, rand, hashSalt).effect.rec;
      r'.otpHash == r.otpHash && r'.otpExpiresAt == r.otpExpiresAt
  {
  }

  /** A mail goes out only when a new code is issued. */
  lemma MailOnlyWhenIssuing(c: Crypto, salt: string, id: string, r: SecretRecord,
                            password: Option<string>, code: Option<string>,
                            now: int, rand: Fraction, hashSalt: Bytes)
    requires UnlockRecord(c, salt, id, r, password, code, now, rand, hashSalt).mail.Some?
    ensures !Expired(r, now) && !QuotaExhausted(r) && PasswordAccepted(c, r, password)
    ensures OtpPending(r) && !Present(code) && !OtpLive(r, now)
    ensures UnlockRecord(c, salt, id, r, password, code, now, rand, hashSalt).outcome == RequireOtp
  {
  }

  /** The fields an unlock never touches. */
  predicate SameShare(r: SecretRecord, r': SecretRecord)
  {
    && r'.encryptedSecret == r.encryptedSecret && r'.iv == r.iv && r'.expiresAt == r.expiresAt
    && r'.maxViews == r.maxViews && r'.passwordHash == r.passwordHash && r'.email == r.email
    && r'.createdAt == r.createdAt
  }

  /**
   * An unlock keeps a well-formed row well formed: it changes only the OTP
   * columns, `otp_verified`, the counter and `updated_at` (which becomes the
   * current instant or stays as it was), and a stored counter never rises
   * and never drops below one.
   */
  lemma UnlockPreservesWellFormed(c: Crypto, salt: string, id: string, r: SecretRecord,
                                  password: Option<string>, code: Option<string>,
                                  now: int, rand: Fraction, hashSalt: Bytes)
    requires WellFormed(r)
    ensures var s := UnlockRecord(c, salt, id, r, password, code, now, rand, hashSalt);
      s.effect.Store? ==>
        && WellFormed(s.effect.rec)
        && SameShare(r, s.effect.rec)
        && (s.effect.rec.updatedAt == r.updatedAt || s.effect.rec.updatedAt == now)
        && (r.viewsRemaining.Some? ==> 1 <= s.effect.rec.viewsRemaining.value <= r.viewsRemaining.value)
  {
  }

  /** A well-formed row is never used up: for rows the create endpoint makes, the quota gate is a safeguard that does not fire. */
  lemma WellFormedIsNotExhausted(r: SecretRecord)
    requires WellFormed(r)
    ensures !QuotaExhausted(r)
  {
  }

  /**
   * At the instant a code expires (`otp_expires_at == now`) the two OTP
   * paths disagree: a request without a code treats it as expired and
   * replaces it, while a request with the matching code still has it
   * accepted.
   */
  lemma CodeExpiryInstant(c: Crypto, salt: string, id: string, r: SecretRecord,
                          password: Option<string>, code: string,
                          now: int, rand: Fraction, hashSalt: Bytes)
    requires !Expired(r, now) && !QuotaExhausted(r) && PasswordAccepted(c, r, password)
    requires OtpPending(r) && r.otpHash.Some? && r.otpExpiresAt == Some(now)
    requires code != "" && c.verify(r.otpHash.value, code)
    ensures var s := UnlockRecord(c, salt, id, r, password, None, now, rand, hashSalt);
      s.effect.Store? && s.effect.rec.otpExpiresAt == Some(now + OTP_TTL_MS) && s.mail.Some?
    ensures UnlockRecord(c, salt, id, r, password, Some(code), now, rand, hashSalt)
         == Reveal(c, salt, id, r.(otpVerified := true), now)
  {
  }
}
