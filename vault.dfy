/**
 * The vault core: the `shared_secrets` table as a map from share id to row,
 * held by a `Vault` object whose two methods are the two endpoints.
 *
 * `CreateSpec` and `UnlockSpec` are the endpoints as functions of the old
 * table; the methods are proved to do exactly that, step by step, and to
 * keep the table invariant: every row is well formed and its buffer is the
 * encryption, under the key derived from its id, of the secret it was
 * created with (the ghost map `plaintexts`). The lemmas at the end follow
 * one share through several requests.
 */
module VaultCore {
  import opened Wrappers
  import opened Validation
  import opened Encryption
  import opened Records
  import opened Gates

  type Table = map<string, SecretRecord>

  /** The response of the create endpoint. */
  datatype CreateOutcome =
    | Created(shareId: string)  // 201 with { shareId }
    | Invalid                   // 400, the body failed validation
    | Failed                    // 500, the insert was refused

  /** A committed transaction's effect on the row with key `id`. */
  function Apply(table: Table, id: string, e: Effect): Table
  {
    match e
    case Keep => table
    case Delete => table - {id}
    case Store(r) => table[id := r]
  }

  /** The create endpoint: validate, build the row, insert it (a taken id or an out-of-range column fails the insert). */
  function CreateSpec(c: Crypto, salt: string, table: Table, body: Option<Json>, isEmail: string -> bool,
                      id: string, now: int, iv: Nonce, hashSalt: Bytes): (CreateOutcome, Table)
  {
    match ParseCreate(body, isEmail)
    case None => (Invalid, table)
    case Some(x) =>
      var r := NewRecord(c, salt, id, x, now, iv, hashSalt);
      if id in table || !ColumnsFit(r) then (Failed, table)
      else (Created(id), table[id := r])
  }

  /** The unlock transaction: the gate chain on the locked row, if there is one. */
  function TransactionSpec(c: Crypto, salt: string, table: Table, id: string,
                           password: Option<string>, code: Option<string>,
                           now: int, rand: Fraction, hashSalt: Bytes): Step
  {
    if id !in table then Step(NotFound, Keep, None)
    else UnlockRecord(c, salt, id, table[id], password, code, now, rand, hashSalt)
  }

  /** The unlock endpoint: validate the body, then run the transaction. */
  function UnlockSpec(c: Crypto, salt: string, table: Table, id: string, body: Option<Json>,
                      now: int, rand: Fraction, hashSalt: Bytes): Step
  {
    match ParseUnlock(body)
    case None => Step(BadRequest, Keep, None)
    case Some(u) => TransactionSpec(c, salt, table, id, u.password, u.twoFACode, now, rand, hashSalt)
  }

  /**
   * The create endpoint answers 400 exactly when the body breaks the
   * validation rules, and then inserts nothing. A valid body is inserted
   * (201) exactly when the id is fresh and the row's columns fit; the new
   * row is well formed and holds the request's secret, and the other rows
   * are left alone. Anything else is a failed insert (500).
   */
  lemma CreateOutcomes(c: Crypto, salt: string, table: Table, body: Option<Json>, isEmail: string -> bool,
                       id: string, now: int, iv: Nonce, hashSalt: Bytes)
    requires Laws(c)
    ensures var (outcome, table') := CreateSpec(c, salt, table, body, isEmail, id, now, iv, hashSalt);
      && (outcome == Invalid <==> !CreateRules(body, isEmail))
      && (ParseCreate(body, isEmail).Some? <==> CreateRules(body, isEmail))
      && (outcome.Created? <==>
            && ParseCreate(body, isEmail).Some? && id !in table
            && ColumnsFit(NewRecord(c, salt, id, ParseCreate(body, isEmail).value, now, iv, hashSalt)))
      && (!outcome.Created? ==> table' == table)
      && (outcome.Created? ==>
            && outcome.shareId == id && id !in table && table'.Keys == table.Keys + {id}
            && (forall k <- table :: table'[k] == table[k])
            && Holds(c, salt, id, table'[id], ParseCreate(body, isEmail).value.secret))
  {
    CreateAcceptedIff(body, isEmail);
    if ParseCreate(body, isEmail).Some? {
      var x := ParseCreate(body, isEmail).value;
      ParseCreateSound(body, isEmail);
      NewRecordFields(c, salt, id, x, now, iv, hashSalt, isEmail);
    }
  }

  /** The row invariant of the table: well formed, and holding the encryption of `plaintext` under its own id. */
  ghost predicate Holds(c: Crypto, salt: string, id: string, r: SecretRecord, plaintext: string)
  {
    WellFormed(r) && r.encryptedSecret == Encrypt(c, id, salt, r.iv, plaintext)
  }

  /**
   * On a row that holds its secret, an unlock never fails to decrypt, any
   * plaintext it returns is that secret, and any row it stores still holds it.
   */
  lemma UnlockKeepsSecret(c: Crypto, salt: string, id: string, r: SecretRecord, plaintext: string,
                          password: Option<string>, code: Option<string>,
                          now: int, rand: Fraction, hashSalt: Bytes)
    requires Laws(c) && Holds(c, salt, id, r, plaintext)
    ensures var s := UnlockRecord(c, salt, id, r, password, code, now, rand, hashSalt);
      && s.outcome != ServerError
      && (s.outcome.Unlocked? ==> s.outcome.secret == plaintext)
      && (s.effect.Store? ==> Holds(c, salt, id, s.effect.rec, plaintext))
  {
    DecryptEncrypt(c, id, salt, r.iv, plaintext);
    UnlockPreservesWellFormed(c, salt, id, r, password, code, now, rand, hashSalt);
  }

  /** Every row of the table holds its secret. */
  ghost predicate TableHolds(c: Crypto, salt: string, table: Table, plaintexts: map<string, string>)
  {
    table.Keys == plaintexts.Keys && forall id <- table :: Holds(c, salt, id, table[id], plaintexts[id])
  }

  /** Applying an unlock's effect keeps the table invariant, with the deleted secret forgotten. */
  lemma ApplyKeepsTableHolds(c: Crypto, salt: string, table: Table, plaintexts: map<string, string>,
                             id: string, e: Effect)
    requires TableHolds(c, salt, table, plaintexts) && id in table
    requires e.Store? ==> Holds(c, salt, id, e.rec, plaintexts[id])
    ensures TableHolds(c, salt, Apply(table, id, e), if e.Delete? then plaintexts - {id} else plaintexts)
  {
  }

  class Vault {
    const crypto: Crypto
    const salt: string
    var secrets: Table
    ghost var plaintexts: map<string, string>

    ghost predicate Valid()
      reads this
    {
      Laws(crypto) && TableHolds(crypto, salt, secrets, plaintexts)
    }

    /** An empty table; the salt is `SECRET_SALT` or the default. */
    constructor (crypto: Crypto, saltEnv: Option<string>)
      requires Laws(crypto)
      ensures Valid()
      ensures this.crypto == crypto && salt == ServerSalt(saltEnv) && secrets == map[]
    {
      this.crypto := crypto;
      salt := ServerSalt(saltEnv);
      secrets := map[];
      plaintexts := map[];
    }

    /** POST /api/secret with a fresh id, the clock, a fresh nonce and argon2's salt. */
    method Create(body: Option<Json>, isEmail: string -> bool, id: string, now: int, iv: Nonce, hashSalt: Bytes)
      returns (outcome: CreateOutcome)
      requires Valid()
      modifies this
      ensures Valid()
      ensures (outcome, secrets) == CreateSpec(crypto, salt, old(secrets), body, isEmail, id, now, iv, hashSalt)
      ensures outcome.Created? ==> plaintexts == old(plaintexts)[id := ParseCreate(body, isEmail).value.secret]
      ensures !outcome.Created? ==> plaintexts == old(plaintexts)
    {
      var input := ParseCreate(body, isEmail);
      if input.None? {
        return Invalid;
      }
      var x := input.value;
      ParseCreateSound(body, isEmail);
      var r := NewRecord(crypto, salt, id, x, now, iv, hashSalt);
      if id in secrets || !ColumnsFit(r) {
        return Failed;
      }
      secrets := secrets[id := r];
      plaintexts := plaintexts[id := x.secret];
      outcome := Created(id);
    }

    /** POST /api/secret/:id/unlock: validate the body, then run the transaction. */
    method Unlock(id: string, body: Option<Json>, now: int, rand: Fraction, hashSalt: Bytes)
      returns (outcome: Outcome, mail: Option<Mail>)
      requires Valid()
      modifies this
      ensures Valid()
      ensures var s := UnlockSpec(crypto, salt, old(secrets), id, body, now, rand, hashSalt);
        outcome == s.outcome && mail == s.mail && secrets == Apply(old(secrets), id, s.effect)
      ensures plaintexts == if id in secrets then old(plaintexts) else old(plaintexts) - {id}
      ensures outcome.Unlocked? ==> id in old(plaintexts) && outcome.secret == old(plaintexts)[id]
      ensures outcome != ServerError
    {
      var input := ParseUnlock(body);
      if input.None? {
        return BadRequest, None;
      }
      var password, code := input.value.password, input.value.twoFACode;
      ghost var step := TransactionSpec(crypto, salt, secrets, id, password, code, now, rand, hashSalt);
      if id in secrets {
        UnlockKeepsSecret(crypto, salt, id, secrets[id], plaintexts[id], password, code, now, rand, hashSalt);
        ApplyKeepsTableHolds(crypto, salt, secrets, plaintexts, id, step.effect);
      }
      outcome, mail := Transaction(id, password, code, now, rand, hashSalt);
      if step.effect.Delete? {
        plaintexts := plaintexts - {id};
      }
    }

    /** The transaction callback: the gate chain on the row, locked for its duration, with early returns. */
    method Transaction(id: string, password: Option<string>, code: Option<string>,
                       now: int, rand: Fraction, hashSalt: Bytes)
      returns (outcome: Outcome, mail: Option<Mail>)
      modifies this`secrets
      ensures var s := TransactionSpec(crypto, salt, old(secrets), id, password, code, now, rand, hashSalt);
        outcome == s.outcome && mail == s.mail && secrets == Apply(old(secrets), id, s.effect)
    {
      if id !in secrets {
        return NotFound, None;
      }
      var before := secrets;  // the transaction's starting point, restored on an exception
      var r := secrets[id];

      if Expired(r, now) {
        secrets := secrets - {id};
        return Gone, None;
      }
      if QuotaExhausted(r) {
        secrets := secrets - {id};
        return Gone, None;
      }

      if r.passwordHash.Some? {
        if !Present(password) {
          return Unauthorized, None;
        }
        var ok := crypto.verify(r.passwordHash.value, password.value);
        if !ok {
          return Unauthorized, None;
        }
      }

      if OtpPending(r) {
        if !Present(code) {
          if OtpLive(r, now) {
            return RequireOtp, None;
          }
          var text := Decimal(OtpCode(rand));
          r := r.(otpHash := Some(crypto.hash(text, hashSalt)), otpExpiresAt := Some(now + OTP_TTL_MS));
          secrets := secrets[id := r];
          return RequireOtp, Some(Mail(r.email.value, text));
        }
        if OtpStale(r, now) {
          return RequireOtp, None;
        }
        var codeOk := crypto.verify(r.otpHash.value, code.value);
        if !codeOk {
          return RequireOtp, None;
        }
        r := r.(otpVerified := true);
        secrets := secrets[id := r];
      }

      var key := crypto.deriveKey(id, salt);
      var parts := SplitTag(r.encryptedSecret);
      var plaintext := crypto.open(key, r.iv, parts.0, parts.1);
      if plaintext.None? {
        secrets := before;
        return ServerError, None;
      }

      if NonZero(r.maxViews) {
        var remaining := AsNumber(r.viewsRemaining) - 1;
        if remaining <= 0 {
          secrets := secrets - {id};
        } else {
          secrets := secrets[id := r.(viewsRemaining := Some(remaining), updatedAt := now)];
        }
      }
      return Unlocked(plaintext.value), None;
    }
  }

  // ---------------------------------------------------------------------
  // One share across several requests

  /** One unlock request for the share: its body, the clock, and the random draws the server would make. */
  datatype Request = Request(body: Option<Json>, now: int, rand: Fraction, hashSalt: Bytes)

  /** Any sequence of unlock requests for one share, in order: the responses and the final table. */
  function UnlockRun(c: Crypto, salt: string, table: Table, id: string, reqs: seq<Request>): (seq<Outcome>, Table)
    decreases |reqs|
  {
    if reqs == [] then ([], table)
    else
      var q := reqs[0];
      var s := UnlockSpec(c, salt, table, id, q.body, q.now, q.rand, q.hashSalt);
      var rest := UnlockRun(c, salt, Apply(table, id, s.effect), id, reqs[1..]);
      ([s.outcome] + rest.0, rest.1)
  }

  /** The same unlock body sent once at each instant of `times`, in order, with the same random draws. */
  function Repeated(body: Option<Json>, times: seq<int>, rand: Fraction, hashSalt: Bytes): (reqs: seq<Request>)
    ensures |reqs| == |times|
    ensures forall i :: 0 <= i < |times| ==> reqs[i] == Request(body, times[i], rand, hashSalt)
  {
    seq(|times|, i requires 0 <= i < |times| => Request(body, times[i], rand, hashSalt))
  }

  /**
   * A share with N views left, whose gates the request passes, is revealed
   * by exactly N unlocks before it expires; the N-th deletes the row, so the
   * next unlock finds nothing (404).
   */
  lemma {:induction false} QuotaAllowsExactlyN(c: Crypto, salt: string, table: Table, id: string,
                                               body: Option<Json>, times: seq<int>, later: int,
                                               rand: Fraction, hashSalt: Bytes, plaintext: string)
    requires Laws(c) && id in table && Holds(c, salt, id, table[id], plaintext)
    requires table[id].viewsRemaining == Some(|times|)
    requires ParseUnlock(body).Some? && PasswordAccepted(c, table[id], ParseUnlock(body).value.password)
    requires !OtpPending(table[id])
    requires forall i :: 0 <= i < |times| ==> times[i] <= table[id].expiresAt
    ensures UnlockRun(c, salt, table, id, Repeated(body, times, rand, hashSalt)).0 == seq(|times|, _ => Unlocked(plaintext))
    ensures UnlockRun(c, salt, table, id, Repeated(body, times, rand, hashSalt)).1 == table - {id}
    ensures UnlockSpec(c, salt, table - {id}, id, body, later, rand, hashSalt).outcome == NotFound
    decreases |times|
  {
    var r := table[id];
    var u := ParseUnlock(body).value;
    DecryptEncrypt(c, id, salt, r.iv, plaintext);
    var s := UnlockSpec(c, salt, table, id, body, times[0], rand, hashSalt);
    assert s.outcome == Unlocked(plaintext);
    assert Repeated(body, times, rand, hashSalt)[1..] == Repeated(body, times[1..], rand, hashSalt);
    if |times| == 1 {
      assert s.effect == Delete;
      assert times[1..] == [];
    } else {
      var r' := r.(viewsRemaining := Some(|times| - 1), updatedAt := times[0]);
      assert s.effect == Store(r');
      QuotaAllowsExactlyN(c, salt, table[id := r'], id, body, times[1..], later, rand, hashSalt, plaintext);
      assert table[id := r'] - {id} == table - {id};
    }
  }

  /** A share without a view limit is revealed by every unlock before its expiry and stays in the table unchanged. */
  lemma {:induction false} UnlimitedViewsUntilExpiry(c: Crypto, salt: string, table: Table, id: string,
                                                     body: Option<Json>, times: seq<int>,
                                                     rand: Fraction, hashSalt: Bytes, plaintext: string)
    requires Laws(c) && id in table && Holds(c, salt, id, table[id], plaintext)
    requires table[id].maxViews.None?
    requires ParseUnlock(body).Some? && PasswordAccepted(c, table[id], ParseUnlock(body).value.password)
    requires !OtpPending(table[id])
    requires forall i :: 0 <= i < |times| ==> times[i] <= table[id].expiresAt
    ensures UnlockRun(c, salt, table, id, Repeated(body, times, rand, hashSalt)).0 == seq(|times|, _ => Unlocked(plaintext))
    ensures UnlockRun(c, salt, table, id, Repeated(body, times, rand, hashSalt)).1 == table
    decreases |times|
  {
    if times != [] {
      var r := table[id];
      DecryptEncrypt(c, id, salt, r.iv, plaintext);
      var s := UnlockSpec(c, salt, table, id, body, times[0], rand, hashSalt);
      assert s == Step(Unlocked(plaintext), Store(r), None);
      assert Apply(table, id, s.effect) == table;
      assert Repeated(body, times, rand, hashSalt)[1..] == Repeated(body, times[1..], rand, hashSalt);
      UnlimitedViewsUntilExpiry(c, salt, table, id, body, times[1..], rand, hashSalt, plaintext);
    }
  }

  /** The number of responses that reveal the secret. */
  function Reveals(outs: seq<Outcome>): nat
    decreases |outs|
  {
    if outs == [] then 0 else (if outs[0].Unlocked? then 1 else 0) + Reveals(outs[1..])
  }

  /** The views a limited share has left: its counter while its row exists, none once it is deleted. */
  function ViewsLeft(table: Table, id: string): nat
  {
    if id in table && table[id].viewsRemaining.Some? && table[id].viewsRemaining.value >= 0
    then table[id].viewsRemaining.value else 0
  }

  /**
   * A share limited to N views is revealed at most N times by any sequence
   * of unlock requests (wrong passwords, code rounds, other bodies and
   * instants included); once its row is deleted nothing more is revealed.
   */
  lemma {:induction false} AtMostViewsLeftReveals(c: Crypto, salt: string, table: Table, id: string,
                                                  reqs: seq<Request>)
    requires id in table ==> WellFormed(table[id]) && table[id].maxViews.Some?
    ensures Reveals(UnlockRun(c, salt, table, id, reqs).0) <= ViewsLeft(table, id)
    decreases |reqs|
  {
    if reqs != [] {
      var q := reqs[0];
      var s := UnlockSpec(c, salt, table, id, q.body, q.now, q.rand, q.hashSalt);
      var table' := Apply(table, id, s.effect);
      if id in table && ParseUnlock(q.body).Some? {
        var u := ParseUnlock(q.body).value;
        var r := table[id];
        assert s == UnlockRecord(c, salt, id, r, u.password, u.twoFACode, q.now, q.rand, q.hashSalt);
        UnlockPreservesWellFormed(c, salt, id, r, u.password, u.twoFACode, q.now, q.rand, q.hashSalt);
        if s.outcome.Unlocked? {
          SuccessConsumesOneView(c, salt, id, r, u.password, u.twoFACode, q.now, q.rand, q.hashSalt);
          assert s.effect.Delete? || ViewsLeft(table', id) == ViewsLeft(table, id) - 1;
        } else {
          assert ViewsLeft(table', id) <= ViewsLeft(table, id);
        }
      } else {
        assert table' == table && !s.outcome.Unlocked?;
      }
      AtMostViewsLeftReveals(c, salt, table', id, reqs[1..]);
      var outs := UnlockRun(c, salt, table, id, reqs).0;
      assert outs[0] == s.outcome && outs[1..] == UnlockRun(c, salt, table', id, reqs[1..]).0;
    }
  }

  /** A share created with `maxViews` N is revealed at most N times, whatever unlock requests follow. */
  lemma CreatedShareRevealedAtMostMaxViews(c: Crypto, salt: string, table: Table, body: Option<Json>,
                                           isEmail: string -> bool, id: string, now: int, iv: Nonce,
                                           hashSalt: Bytes, reqs: seq<Request>)
    requires Laws(c)
    requires CreateSpec(c, salt, table, body, isEmail, id, now, iv, hashSalt).0.Created?
    requires ParseCreate(body, isEmail).Some? && ParseCreate(body, isEmail).value.maxViews.Some?
    ensures var created := CreateSpec(c, salt, table, body, isEmail, id, now, iv, hashSalt).1;
      Reveals(UnlockRun(c, salt, created, id, reqs).0) <= ParseCreate(body, isEmail).value.maxViews.value
  {
    var x := ParseCreate(body, isEmail).value;
    ParseCreateSound(body, isEmail);
    NewRecordFields(c, salt, id, x, now, iv, hashSalt, isEmail);
    var created := CreateSpec(c, salt, table, body, isEmail, id, now, iv, hashSalt).1;
    AtMostViewsLeftReveals(c, salt, created, id, reqs);
  }

  /**
   * A password-protected share without an e-mail, created under a fresh id:
   * until it expires `expiresInDays` days later the right password reveals
   * the secret, and a missing or wrong password is
   * refused with the row untouched.
   */
  lemma PasswordProtectedShare(c: Crypto, salt: string, table: Table, x: CreateInput, isEmail: string -> bool,
                               id: string, t0: int, iv: Nonce, hashSalt: Bytes,
                               t: int, other: Option<string>, rand: Fraction, hashSalt': Bytes)
    requires Laws(c) && ValidCreateInput(x, isEmail) && !Present(x.email)
    requires id !in table && ColumnsFit(NewRecord(c, salt, id, x, t0, iv, hashSalt))
    requires t <= t0 + x.expiresInDays * DAY_MS
    ensures CreateSpec(c, salt, table, Some(CreateBody(x)), isEmail, id, t0, iv, hashSalt).0 == Created(id)
    ensures var created := CreateSpec(c, salt, table, Some(CreateBody(x)), isEmail, id, t0, iv, hashSalt).1;
      UnlockSpec(c, salt, created, id, Some(UnlockBody(x.password, None)), t, rand, hashSalt').outcome
        == Unlocked(x.secret)
    ensures var created := CreateSpec(c, salt, table, Some(CreateBody(x)), isEmail, id, t0, iv, hashSalt).1;
      x.password.Some? && (other.Some? ==> other.value != "") &&
      (other.None? || !c.verify(c.hash(x.password.value, hashSalt), other.value)) ==>
        UnlockSpec(c, salt, created, id, Some(UnlockBody(other, None)), t, rand, hashSalt')
          == Step(Unauthorized, Keep, None)
  {
    CreateBodyRoundTrip(x, isEmail);
    NewRecordFields(c, salt, id, x, t0, iv, hashSalt, isEmail);
    UnlockBodyRoundTrip(x.password, None);
    UnlockBodyRoundTrip(other, None);
    DecryptEncrypt(c, id, salt, iv, x.secret);
  }

  /**
   * A share with an e-mail (and a password or none), created under a fresh
   * id, within its lifetime of `expiresInDays` days, unlocked with the
   * share's password, if any. The first unlock mails a code and asks for it;
   * asking again while it is valid sends nothing; the mailed code reveals
   * the secret until it expires 10 minutes later, and after that it is
   * refused.
   */
  lemma EmailGatedShare(c: Crypto, salt: string, table: Table, x: CreateInput, isEmail: string -> bool,
                        id: string, t0: int, iv: Nonce, hashSalt0: Bytes,
                        t1: int, rand: Fraction, hashSalt1: Bytes, t2: int, rand2: Fraction, hashSalt2: Bytes)
    requires Laws(c) && ValidCreateInput(x, isEmail) && Present(x.email)
    requires id !in table && ColumnsFit(NewRecord(c, salt, id, x, t0, iv, hashSalt0))
    requires t0 <= t1 <= t2 <= t0 + x.expiresInDays * DAY_MS
    ensures CreateSpec(c, salt, table, Some(CreateBody(x)), isEmail, id, t0, iv, hashSalt0).0 == Created(id)
    ensures var table1 := CreateSpec(c, salt, table, Some(CreateBody(x)), isEmail, id, t0, iv, hashSalt0).1;
      var first := UnlockSpec(c, salt, table1, id, Some(UnlockBody(x.password, None)), t1, rand, hashSalt1);
      && first.outcome == RequireOtp && first.mail.Some? && first.mail.value.to == x.email.value
      && var table2 := Apply(table1, id, first.effect);
         var again := UnlockSpec(c, salt, table2, id, Some(UnlockBody(x.password, None)), t2, rand2, hashSalt2);
         var second := UnlockSpec(c, salt, table2, id, Some(UnlockBody(x.password, Some(first.mail.value.code))),
                                  t2, rand2, hashSalt2);
         && (t2 < t1 + OTP_TTL_MS ==> again == Step(RequireOtp, Keep, None))
         && (t2 <= t1 + OTP_TTL_MS ==> second.outcome == Unlocked(x.secret))
         && (t2 > t1 + OTP_TTL_MS ==> second == Step(RequireOtp, Keep, None))
  {
    CreateBodyRoundTrip(x, isEmail);
    NewRecordFields(c, salt, id, x, t0, iv, hashSalt0, isEmail);
    var table1 := CreateSpec(c, salt, table, Some(CreateBody(x)), isEmail, id, t0, iv, hashSalt0).1;
    var r := table1[id];
    UnlockBodyRoundTrip(x.password, None);
    CodeIsIssued(c, salt, id, r, x.password, None, t1, rand, hashSalt1);
    var first := UnlockSpec(c, salt, table1, id, Some(UnlockBody(x.password, None)), t1, rand, hashSalt1);
    UnlockBodyRoundTrip(x.password, Some(first.mail.value.code));
    DecryptEncrypt(c, id, salt, iv, x.secret);
  }
}
