/**
 * Request validation of the two secret-share endpoints.
 *
 * The server declares its request bodies with zod object schemas: a list of
 * named fields, each a string or a number refined by checks, each required
 * or optional. That declarative shape is kept here as data (`Field`,
 * `Check`), interpreted by `ObjectAccepts`; `CreateSecretSchema` and
 * `UnlockBodySchema` are the two schemas of the server. The lemmas restate
 * what the two schemas accept field by field in plain terms.
 */
module Validation {
  import opened Wrappers

  /** A parsed JSON request body. JSON numbers are real numbers. */
  datatype Json =
    | JNull
    | JBool(b: bool)
    | JNum(n: real)
    | JStr(s: string)
    | JArr(items: seq<Json>)
    | JObj(fields: map<string, Json>)

  /** One refinement of a zod string or number schema. */
  datatype Check =
    | MinLength(n: nat)       // z.string().min(n)
    | MaxLength(n: nat)       // z.string().max(n)
    | ExactLength(n: nat)     // z.string().length(n)
    | EmailFormat             // z.string().email()
    | IsInteger               // z.number().int()
    | Positive                // z.number().positive()
    | AtMost(bound: real)     // z.number().max(bound)

  datatype Kind = StringKind | NumberKind

  /** A field of a zod object schema; `optional` accepts an absent key (not null). */
  datatype Field = Field(name: string, kind: Kind, checks: seq<Check>, optional: bool)

  /** zod's `.int()`: the number has no fractional part. */
  predicate IsIntegral(x: real)
  {
    x.Floor as real == x
  }

  predicate HasKind(k: Kind, v: Json)
  {
    match k
    case StringKind => v.JStr?
    case NumberKind => v.JNum?
  }

  /**
   * Whether value `v` passes check `c`. The e-mail format rule of zod is a
   * regular expression that is not modelled; it is the parameter `isEmail`.
   */
  predicate CheckHolds(c: Check, v: Json, isEmail: string -> bool)
  {
    match c
    case MinLength(n) => v.JStr? && |v.s| >= n
    case MaxLength(n) => v.JStr? && |v.s| <= n
    case ExactLength(n) => v.JStr? && |v.s| == n
    case EmailFormat => v.JStr? && isEmail(v.s)
    case IsInteger => v.JNum? && IsIntegral(v.n)
    case Positive => v.JNum? && v.n > 0.0
    case AtMost(b) => v.JNum? && v.n <= b
  }

  predicate FieldAccepts(f: Field, obj: map<string, Json>, isEmail: string -> bool)
  {
    if f.name in obj then
      HasKind(f.kind, obj[f.name]) && forall c <- f.checks :: CheckHolds(c, obj[f.name], isEmail)
    else
      f.optional
  }

  /** `schema.parse(v)` succeeds: `v` is an object and every field of the schema accepts it. Unknown keys are ignored. */
  predicate ObjectAccepts(schema: seq<Field>, v: Json, isEmail: string -> bool)
  {
    v.JObj? && forall f <- schema :: FieldAccepts(f, v.fields, isEmail)
  }

  /** `createSecretSchema` of the create endpoint. */
  const CreateSecretSchema: seq<Field> := [
    Field("secret", StringKind, [MinLength(1)], false),
    Field("expiresInDays", NumberKind, [IsInteger, Positive, AtMost(30.0)], false),
    Field("password", StringKind, [MinLength(1), MaxLength(128)], true),
    Field("maxViews", NumberKind, [IsInteger, Positive], true),
    Field("email", StringKind, [EmailFormat], true)
  ]

  /** `unlockBodySchema` of the unlock endpoint. */
  const UnlockBodySchema: seq<Field> := [
    Field("password", StringKind, [MinLength(1)], true),
    Field("twoFACode", StringKind, [ExactLength(6)], true)
  ]

  /** The typed result of parsing a create request. */
  datatype CreateInput = CreateInput(
    secret: string,
    expiresInDays: int,
    password: Option<string>,
    maxViews: Option<int>,
    email: Option<string>)

  /** The typed result of parsing an unlock request. */
  datatype UnlockInput = UnlockInput(password: Option<string>, twoFACode: Option<string>)

  function OptString(obj: map<string, Json>, name: string): Option<string>
  {
    if name in obj && obj[name].JStr? then Some(obj[name].s) else None
  }

  function OptInt(obj: map<string, Json>, name: string): Option<int>
  {
    if name in obj && obj[name].JNum? then Some(obj[name].n.Floor) else None
  }

  /** `createSecretSchema.parse(req.body)`; `None` is the ZodError (HTTP 400). An absent body is `None` too. */
  function ParseCreate(body: Option<Json>, isEmail: string -> bool): Option<CreateInput>
  {
    if body.Some? && ObjectAccepts(CreateSecretSchema, body.value, isEmail) then
      var o := body.value.fields;
      assert FieldAccepts(CreateSecretSchema[0], o, isEmail);
      assert FieldAccepts(CreateSecretSchema[1], o, isEmail);
      Some(CreateInput(o["secret"].s, o["expiresInDays"].n.Floor,
                       OptString(o, "password"), OptInt(o, "maxViews"), OptString(o, "email")))
    else
      None
  }

  /** The unlock schema has no e-mail field; its e-mail rule is never consulted. */
  predicate NoEmailCheck(s: string)
  {
    true
  }

  /** `unlockBodySchema.parse(req.body ?? {})`: an absent or null body counts as `{}`. */
  function ParseUnlock(body: Option<Json>): Option<UnlockInput>
  {
    var v := if body.None? || body.value.JNull? then JObj(map[]) else body.value;
    if ObjectAccepts(UnlockBodySchema, v, NoEmailCheck) then
      Some(UnlockInput(OptString(v.fields, "password"), OptString(v.fields, "twoFACode")))
    else
      None
  }

  // ---------------------------------------------------------------------
  // The create rules in plain terms

  /** A string field that is present, at least `lo` long (and at most `hi` when given). */
  predicate StringIn(o: map<string, Json>, name: string, lo: nat, hi: Option<nat>)
  {
    name in o && o[name].JStr? && lo <= |o[name].s| && (hi.Some? ==> |o[name].s| <= hi.value)
  }

  /** A number field that is present, integral and at least `lo` (and at most `hi` when given). */
  predicate IntegerIn(o: map<string, Json>, name: string, lo: int, hi: Option<int>)
  {
    name in o && o[name].JNum? && IsIntegral(o[name].n)
    && lo <= o[name].n.Floor && (hi.Some? ==> o[name].n.Floor <= hi.value)
  }

  /**
   * The accepted create requests: `secret` a non-empty string;
   * `expiresInDays` an integer in 1..30; `password`, if present, a string of
   * length 1..128; `maxViews`, if present, a positive integer; `email`, if
   * present, a string in e-mail format.
   */
  predicate CreateRules(body: Option<Json>, isEmail: string -> bool)
  {
    && body.Some? && body.value.JObj?
    && var o := body.value.fields;
    && StringIn(o, "secret", 1, None)
    && IntegerIn(o, "expiresInDays", 1, Some(30))
    && ("password" in o ==> StringIn(o, "password", 1, Some(128)))
    && ("maxViews" in o ==> IntegerIn(o, "maxViews", 1, None))
    && ("email" in o ==> o["email"].JStr? && isEmail(o["email"].s))
  }

  /** The typed form of the same rules, on a parsed input. */
  predicate ValidCreateInput(x: CreateInput, isEmail: string -> bool)
  {
    && |x.secret| >= 1
    && 1 <= x.expiresInDays <= 30
    && (x.password.Some? ==> 1 <= |x.password.value| <= 128)
    && (x.maxViews.Some? ==> x.maxViews.value >= 1)
    && (x.email.Some? ==> isEmail(x.email.value))
  }

  /** A create request encoded as the JSON body a client sends: absent options are absent keys. */
  function CreateBody(x: CreateInput): Json
  {
    var required := map["secret" := JStr(x.secret), "expiresInDays" := JNum(x.expiresInDays as real)];
    var withPassword := if x.password.Some? then required["password" := JStr(x.password.value)] else required;
    var withViews := if x.maxViews.Some? then withPassword["maxViews" := JNum(x.maxViews.value as real)] else withPassword;
    JObj(if x.email.Some? then withViews["email" := JStr(x.email.value)] else withViews)
  }

  // ---------------------------------------------------------------------
  // What the schemas accept

  /** The create schema accepts a body exactly when the plain rules hold (createSecretSchema). */
  lemma CreateAcceptedIff(body: Option<Json>, isEmail: string -> bool)
    ensures ParseCreate(body, isEmail).Some? <==> CreateRules(body, isEmail)
  {
    if body.Some? && body.value.JObj? {
      var o := body.value.fields;
      var s := CreateSecretSchema;
      assert s[0] in s && s[1] in s && s[2] in s && s[3] in s && s[4] in s;
      if CreateRules(body, isEmail) {
        forall f <- s ensures FieldAccepts(f, o, isEmail) {
          assert f == s[0] || f == s[1] || f == s[2] || f == s[3] || f == s[4];
        }
      }
      if ObjectAccepts(s, body.value, isEmail) {
        assert FieldAccepts(s[0], o, isEmail) && FieldAccepts(s[1], o, isEmail);
        assert FieldAccepts(s[2], o, isEmail) && FieldAccepts(s[3], o, isEmail) && FieldAccepts(s[4], o, isEmail);
        assert s[1].checks[0] in s[1].checks && s[1].checks[1] in s[1].checks && s[1].checks[2] in s[1].checks;
        assert s[2].checks[0] in s[2].checks && s[2].checks[1] in s[2].checks;
        assert s[3].checks[0] in s[3].checks && s[3].checks[1] in s[3].checks;
        assert s[0].checks[0] in s[0].checks && s[4].checks[0] in s[4].checks;
      }
    }
  }

  /** Every accepted create request meets the typed rules. */
  lemma ParseCreateSound(body: Option<Json>, isEmail: string -> bool)
    requires ParseCreate(body, isEmail).Some?
    ensures ValidCreateInput(ParseCreate(body, isEmail).value, isEmail)
  {
    CreateAcceptedIff(body, isEmail);
  }

  /** A client's body for a typed request parses back to that request exactly when the request is valid. */
  lemma CreateBodyRoundTrip(x: CreateInput, isEmail: string -> bool)
    ensures ParseCreate(Some(CreateBody(x)), isEmail) == Some(x) <==> ValidCreateInput(x, isEmail)
  {
    var body := Some(CreateBody(x));
    CreateAcceptedIff(body, isEmail);
    var o := CreateBody(x).fields;
    assert IsIntegral(x.expiresInDays as real);
    assert x.maxViews.Some? ==> IsIntegral(x.maxViews.value as real);
    if ValidCreateInput(x, isEmail) {
      assert CreateRules(body, isEmail);
    } else if ParseCreate(body, isEmail) == Some(x) {
      ParseCreateSound(body, isEmail);
    }
  }

  /** The accepted unlock bodies: absent, null, or an object whose `password` is a non-empty string and whose `twoFACode` is a 6-character string, each if present. */
  lemma UnlockAcceptedIff(body: Option<Json>)
    ensures ParseUnlock(body).Some? <==>
      (body.None? || body.value.JNull? ||
       (body.value.JObj? &&
        ("password" in body.value.fields ==> StringIn(body.value.fields, "password", 1, None)) &&
        ("twoFACode" in body.value.fields ==> StringIn(body.value.fields, "twoFACode", 6, Some(6)))))
    ensures ParseUnlock(body).Some? ==>
      (ParseUnlock(body).value.password.Some? ==> |ParseUnlock(body).value.password.value| >= 1) &&
      (ParseUnlock(body).value.twoFACode.Some? ==> |ParseUnlock(body).value.twoFACode.value| == 6)
  {
    var s := UnlockBodySchema;
    assert s[0] in s && s[1] in s;
    var v := if body.None? || body.value.JNull? then JObj(map[]) else body.value;
    if v.JObj? && ("password" in v.fields ==> StringIn(v.fields, "password", 1, None)) &&
                  ("twoFACode" in v.fields ==> StringIn(v.fields, "twoFACode", 6, Some(6))) {
      forall f <- s ensures FieldAccepts(f, v.fields, NoEmailCheck) {
        assert f == s[0] || f == s[1];
      }
    }
    if ObjectAccepts(s, v, NoEmailCheck) {
      assert FieldAccepts(s[0], v.fields, NoEmailCheck) && FieldAccepts(s[1], v.fields, NoEmailCheck);
      assert s[0].checks[0] in s[0].checks && s[1].checks[0] in s[1].checks;
    }
  }

  /** An unlock request encoded as the JSON body a client sends. */
  function UnlockBody(password: Option<string>, twoFACode: Option<string>): Json
  {
    var withPassword: map<string, Json> := if password.Some? then map["password" := JStr(password.value)] else map[];
    JObj(if twoFACode.Some? then withPassword["twoFACode" := JStr(twoFACode.value)] else withPassword)
  }

  /** A client's unlock body parses back to its fields exactly when the password is non-empty and the code has six characters, each if given. */
  lemma UnlockBodyRoundTrip(password: Option<string>, twoFACode: Option<string>)
    ensures ParseUnlock(Some(UnlockBody(password, twoFACode))) == Some(UnlockInput(password, twoFACode)) <==>
      (password.Some? ==> |password.value| >= 1) && (twoFACode.Some? ==> |twoFACode.value| == 6)
  {
    UnlockAcceptedIff(Some(UnlockBody(password, twoFACode)));
  }
}
