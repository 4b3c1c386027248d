/** Request-body validation with Joi object schemas, under Joi's defaults:
    the first error aborts validation (abortEarly), the declared keys are
    checked in declaration order before any unknown key, unknown keys are
    refused, `Joi.string()` refuses the empty string even on an optional
    key, and `Joi.boolean()` converts the strings "true" and "false" in any
    letter case. */
module FormValidation {
  import opened Json

  /** The shape of an e-mail address that `Joi.string().email()` accepts:
      exactly one '@' with a non-empty local part before it, a dotted domain
      after it and no space anywhere.  Joi's full grammar (top-level domain
      list, length limits) is reduced to this shape. */
  predicate EmailSyntax(s: string) {
    && ' ' !in s
    && exists i :: 0 < i < |s| && s[i] == '@' && '@' !in s[..i] && '@' !in s[i + 1..] && DottedDomain(s[i + 1..])
  }

  predicate DottedDomain(d: string) {
    exists j :: 0 < j < |d| - 1 && d[j] == '.'
  }

  function LowerAscii(c: char): char {
    if 'A' <= c <= 'Z' then (c as int + 32) as char else c
  }

  function Lower(s: string): (r: string)
    ensures |r| == |s|
  {
    seq(|s|, i requires 0 <= i < |s| => LowerAscii(s[i]))
  }

  /** `s.length` in JavaScript: UTF-16 code units, two for a character
      outside the Basic Multilingual Plane. */
  function JsLength(s: string): (n: nat)
    ensures |s| <= n <= 2 * |s|
  {
    if |s| == 0 then 0 else (if s[0] as int >= 0x1_0000 then 2 else 1) + JsLength(s[1..])
  }

  /** Three emoji are six code units: they meet `min(6)`. */
  lemma AstralCharactersCountTwice()
    ensures JsLength("\U{1F600}\U{1F600}\U{1F600}") == 6
  {
    var s := "\U{1F600}\U{1F600}\U{1F600}";
    assert s[1..][1..][1..] == "";
  }

  /** A value `Joi.boolean()` accepts once conversion is applied. */
  predicate BooleanLike(v: Value) {
    v.Bool? || (v.Str? && Lower(v.s) in {"true", "false"})
  }

  /** The type constraint on one key. */
  datatype Rule =
    | Text(min: nat, email: bool)   // Joi.string(), with .min(min) when min > 0 and .email() when email
    | OneOf(allowed: seq<string>)   // Joi.string().valid(...allowed)
    | Flag                          // Joi.boolean()

  datatype Key = Key(name: string, rule: Rule, required: bool)

  type Schema = seq<Key>

  /** Joi's error codes, as they appear in `error.details[0].type`. */
  datatype Code =
    | AnyRequired | StringBase | StringEmpty | StringMin | StringEmail
    | AnyOnly | BooleanBase | ObjectUnknown

  /** `error.details[0]`: the offending key and what was wrong with it. */
  datatype JoiError = JoiError(path: string, code: Code)

  /** The error code a key's value earns, of the kind its rule checks. */
  function CheckValue(rule: Rule, v: Value): (r: Option<Code>)
    ensures rule.Text? && r.Some? ==> r.value in {StringBase, StringEmpty, StringMin, StringEmail}
    ensures rule.OneOf? && r.Some? ==> r.value == AnyOnly
    ensures rule.Flag? && r.Some? ==> r.value == BooleanBase
    ensures r == Some(StringEmpty) ==> v == Str("")
    ensures rule.Text? && r.None? ==> v.Str? && v.s != "" && JsLength(v.s) >= rule.min
  {
    match rule
    case Text(min, email) =>
      if !v.Str? then Some(StringBase)
      else if v.s == "" then Some(StringEmpty)
      else if JsLength(v.s) < min then Some(StringMin)
      else if email && !EmailSyntax(v.s) then Some(StringEmail)
      else None
    case OneOf(allowed) =>
      if v.Str? && v.s in allowed then None else Some(AnyOnly)
    case Flag =>
      if BooleanLike(v) then None else Some(BooleanBase)
  }

  function CheckKey(key: Key, body: Body): (r: Option<JoiError>)
    ensures r.Some? ==> r.value.path == key.name && r.value.code != ObjectUnknown
  {
    match Lookup(body, key.name)
    case None => if key.required then Some(JoiError(key.name, AnyRequired)) else None
    case Some(v) =>
      match CheckValue(key.rule, v)
      case None => None
      case Some(code) => Some(JoiError(key.name, code))
  }

  /** The first declared key that fails, in declaration order. */
  function CheckKeys(schema: Schema, body: Body): (r: Option<JoiError>)
    ensures r.Some? ==> Declared(schema, r.value.path) && r.value.code != ObjectUnknown
  {
    if |schema| == 0 then None
    else
      match CheckKey(schema[0], body)
      case Some(e) => Some(e)
      case None =>
        var r := CheckKeys(schema[1..], body);
        assert r.Some? ==> Declared(schema, r.value.path) by {
          if r.Some? {
            var i :| 0 <= i < |schema[1..]| && schema[1..][i].name == r.value.path;
            assert schema[i + 1].name == r.value.path;
          }
        }
        r
  }

  predicate Declared(schema: Schema, name: string) {
    exists i :: 0 <= i < |schema| && schema[i].name == name
  }

  // ---------------------------------------------------------------------
  // The order of `Object.keys`: array-index keys first, by their numeric
  // value, then every other key in the order it was first written.

  predicate Digits(s: string) {
    forall i :: 0 <= i < |s| ==> '0' <= s[i] <= '9'
  }

  function DecimalValue(s: string): nat
    requires Digits(s)
  {
    if |s| == 0 then 0 else DecimalValue(s[..|s| - 1]) * 10 + (s[|s| - 1] as int - '0' as int)
  }

  /** The value of a key that is an array index (the canonical decimal of a
      number below 2^32 - 1: digits only, no leading zero), or None. */
  function ArrayIndex(k: string): (r: Option<nat>)
    ensures r.Some? ==> |k| > 0 && Digits(k) && r.value < 0xFFFF_FFFF
  {
    if |k| > 0 && Digits(k) && (k[0] != '0' || |k| == 1) && DecimalValue(k) < 0xFFFF_FFFF
    then Some(DecimalValue(k)) else None
  }

  /** The key at position `j` is listed no later than the key at `k`. */
  predicate KeyOrderLe(body: Body, j: nat, k: nat)
    requires j < |body| && k < |body|
  {
    match ArrayIndex(body[j].0)
    case Some(a) => ArrayIndex(body[k].0).None? || a <= ArrayIndex(body[k].0).value
    case None => ArrayIndex(body[k].0).None? && j <= k
  }

  /** The position of the first undeclared key in `Object.keys` order. */
  function FirstUnknownAt(schema: Schema, body: Body): (r: Option<nat>)
    ensures r.Some? ==> r.value < |body| && !Declared(schema, body[r.value].0)
  {
    if |body| == 0 then None
    else
      var rest := match FirstUnknownAt(schema, body[1..])
                  case None => None
                  case Some(k) => Some(k + 1);
      if Declared(schema, body[0].0) then rest
      else if rest.None? then Some(0)
      else if ArrayIndex(body[rest.value].0).Some?
              && (ArrayIndex(body[0].0).None? || ArrayIndex(body[rest.value].0).value < ArrayIndex(body[0].0).value)
      then rest
      else Some(0)
  }

  /** The first key of the body the schema does not declare, as Joi's
      unknown-key check meets them. */
  function FirstUnknown(schema: Schema, body: Body): (r: Option<string>)
    ensures r.Some? ==> !Declared(schema, r.value) && exists j :: 0 <= j < |body| && body[j].0 == r.value
  {
    match FirstUnknownAt(schema, body)
    case None => None
    case Some(j) => Some(body[j].0)
  }

  /** `schema.validate(body).error`, None when the body is accepted. */
  function Validate(schema: Schema, body: Body): (r: Option<JoiError>)
    ensures r.Some? && r.value.code == ObjectUnknown ==> !Declared(schema, r.value.path)
    ensures r.Some? && r.value.code != ObjectUnknown ==> Declared(schema, r.value.path)
  {
    match CheckKeys(schema, body)
    case Some(e) => Some(e)
    case None =>
      match FirstUnknown(schema, body)
      case Some(k) => Some(JoiError(k, ObjectUnknown))
      case None => None
  }

  /** Declarative acceptance: every declared key passes and every key of
      the body is declared. */
  ghost predicate Accepts(schema: Schema, body: Body) {
    && (forall i :: 0 <= i < |schema| ==> CheckKey(schema[i], body).None?)
    && (forall j :: 0 <= j < |body| ==> Declared(schema, body[j].0))
  }

  lemma {:induction false} CheckKeysFirst(schema: Schema, body: Body)
    ensures CheckKeys(schema, body).None? <==> forall i :: 0 <= i < |schema| ==> CheckKey(schema[i], body).None?
    ensures CheckKeys(schema, body).Some? ==>
      exists i :: 0 <= i < |schema| && CheckKey(schema[i], body) == CheckKeys(schema, body)
                 && forall j :: 0 <= j < i ==> CheckKey(schema[j], body).None?
  {
    if |schema| > 0 {
      CheckKeysFirst(schema[1..], body);
      if CheckKey(schema[0], body).None? {
        assert forall i :: 1 <= i < |schema| ==> schema[i] == schema[1..][i - 1];
        if CheckKeys(schema, body).Some? {
          var i :| 0 <= i < |schema[1..]| && CheckKey(schema[1..][i], body) == CheckKeys(schema[1..], body)
                   && forall j :: 0 <= j < i ==> CheckKey(schema[1..][j], body).None?;
          assert CheckKey(schema[i + 1], body) == CheckKeys(schema, body);
        }
      }
    }
  }

  /** No key is reported exactly when every key is declared; otherwise the
      reported key is undeclared and no other undeclared key comes before
      it in `Object.keys` order. */
  lemma {:induction false} FirstUnknownFirst(schema: Schema, body: Body)
    ensures FirstUnknown(schema, body).None? <==> forall j :: 0 <= j < |body| ==> Declared(schema, body[j].0)
    ensures FirstUnknown(schema, body).Some? ==>
      exists j :: 0 <= j < |body| && body[j].0 == FirstUnknown(schema, body).value
                 && !Declared(schema, body[j].0)
                 && forall k :: 0 <= k < |body| && !Declared(schema, body[k].0) ==> KeyOrderLe(body, j, k)
  {
    if |body| > 0 {
      FirstUnknownFirst(schema, body[1..]);
      assert forall j :: 1 <= j < |body| ==> body[j] == body[1..][j - 1];
      var r := FirstUnknownAt(schema, body);
      if r.Some? {
        var j := r.value;
        forall k | 0 <= k < |body| && !Declared(schema, body[k].0) ensures KeyOrderLe(body, j, k) {
          FirstUnknownLeast(schema, body, k);
        }
      }
    }
  }

  lemma {:induction false} FirstUnknownLeast(schema: Schema, body: Body, k: nat)
    requires k < |body| && !Declared(schema, body[k].0)
    ensures FirstUnknownAt(schema, body).Some? && KeyOrderLe(body, FirstUnknownAt(schema, body).value, k)
  {
    assert forall j :: 1 <= j < |body| ==> body[j] == body[1..][j - 1];
    var r := FirstUnknownAt(schema, body);
    var tail := FirstUnknownAt(schema, body[1..]);
    if k == 0 {
      if tail.Some? && r != Some(0) {
        assert r == Some(tail.value + 1);
      }
    } else {
      FirstUnknownLeast(schema, body[1..], k - 1);
      assert KeyOrderLe(body, tail.value + 1, k);
      if r == Some(0) && !(ArrayIndex(body[0].0).None? && ArrayIndex(body[k].0).Some?) {
        assert KeyOrderLe(body, 0, tail.value + 1);
      }
    }
  }

  /** Validation succeeds exactly when the body meets every declared
      constraint and carries no undeclared key. */
  lemma ValidateAccepts(schema: Schema, body: Body)
    ensures Validate(schema, body).None? <==> Accepts(schema, body)
  {
    CheckKeysFirst(schema, body);
    FirstUnknownFirst(schema, body);
  }

  /** The error reported is the first failing declared key; only when every
      declared key passes is it the first undeclared key in `Object.keys`
      order. */
  lemma ValidateReportsFirstFailure(schema: Schema, body: Body, e: JoiError)
    requires Validate(schema, body) == Some(e)
    ensures
      || (exists i :: 0 <= i < |schema| && CheckKey(schema[i], body) == Some(e)
                      && forall j :: 0 <= j < i ==> CheckKey(schema[j], body).None?)
      || (&& (forall i :: 0 <= i < |schema| ==> CheckKey(schema[i], body).None?)
          && e.code == ObjectUnknown
          && exists j :: 0 <= j < |body| && body[j].0 == e.path && !Declared(schema, e.path)
                         && forall k :: 0 <= k < |body| && !Declared(schema, body[k].0) ==> KeyOrderLe(body, j, k))
  {
    CheckKeysFirst(schema, body);
    FirstUnknownFirst(schema, body);
  }

  /** An undeclared array-index key is reported before an undeclared key
      written earlier: `Object.keys` lists "7" before "zz". */
  lemma IndexKeyReportedFirst()
    ensures Validate(FavoriteSchema, IndexSample) == Some(JoiError("7", ObjectUnknown))
  {
    var body := IndexSample;
    assert body[..2][..1] == [("favorite", Bool(true))] && body[..2][1].0 != "favorite";
    assert Lookup(body, "favorite") == Some(Bool(true));
    assert FavoriteSchema[1..] == [];
    assert CheckKeys(FavoriteSchema, body).None?;
    assert FavoriteSchema[0].name == "favorite";
    assert !Declared(FavoriteSchema, "zz") && !Declared(FavoriteSchema, "7");
    assert ArrayIndex("zz").None?;
    assert DecimalValue("7") == 7 by { assert "7"[..0] == ""; }
    assert ArrayIndex("7") == Some(7);
    assert body[2..] == [("7", Num(2))] && body[2..][1..] == [];
    assert FirstUnknownAt(FavoriteSchema, body[2..]) == Some(0);
    assert body[1..][1..] == body[2..];
    assert FirstUnknownAt(FavoriteSchema, body[1..]) == Some(1);
    assert FirstUnknownAt(FavoriteSchema, body) == Some(2);
  }

  const IndexSample: Body := [("favorite", Bool(true)), ("zz", Num(1)), ("7", Num(2))]

  /** For a schema declaring exactly `names`, acceptance splits into the
      declared keys passing and the body using no other key. */
  lemma AcceptsExactly(schema: Schema, body: Body, names: seq<string>)
    requires |names| == |schema|
    requires forall i :: 0 <= i < |schema| ==> schema[i].name == names[i]
    ensures Validate(schema, body).None? <==>
      (forall i :: 0 <= i < |schema| ==> CheckKey(schema[i], body).None?) && OnlyKeys(body, names)
  {
    ValidateAccepts(schema, body);
    forall n ensures Declared(schema, n) <==> n in names {
      if n in names {
        var i :| 0 <= i < |names| && names[i] == n;
        assert schema[i].name == n;
      }
    }
  }

  lemma TextKey(body: Body, k: string, n: nat)
    ensures CheckKey(Key(k, Text(n, false), true), body).None? <==> TextAtLeast(body, k, n)
  {
  }

  lemma EmailKey(body: Body, k: string)
    ensures CheckKey(Key(k, Text(0, true), true), body).None? <==> EmailField(body, k)
  {
  }

  lemma FlagKey(body: Body, k: string, required: bool)
    ensures CheckKey(Key(k, Flag, required), body).None? <==>
      (if required then BooleanField(body, k) else Lookup(body, k).None? || BooleanField(body, k))
  {
  }

  // ---------------------------------------------------------------------
  // Field-level statements used to characterise each schema.

  /** A string field of at least `n` UTF-16 code units (and never empty). */
  predicate TextAtLeast(body: Body, key: string, n: nat) {
    match Lookup(body, key)
    case Some(Str(s)) => s != "" && JsLength(s) >= n
    case _ => false
  }

  predicate EmailField(body: Body, key: string) {
    match Lookup(body, key)
    case Some(Str(s)) => s != "" && EmailSyntax(s)
    case _ => false
  }

  predicate BooleanField(body: Body, key: string) {
    Lookup(body, key).Some? && BooleanLike(Lookup(body, key).value)
  }

  predicate OnlyKeys(body: Body, names: seq<string>) {
    forall j :: 0 <= j < |body| ==> body[j].0 in names
  }

  // ---------------------------------------------------------------------
  // The schemas of helpers/formValidation.js.

  const SubscriptionNames: seq<string> := ["starter", "pro", "business"]

  const SignupSchema: Schema := [
    Key("name", Text(0, false), true),
    Key("email", Text(0, true), true),
    Key("password", Text(6, false), true)]

  const LoginSchema: Schema := [
    Key("email", Text(0, true), true),
    Key("password", Text(6, false), true)]

  const SubscriptionSchema: Schema := [
    Key("subscription", OneOf(SubscriptionNames), true)]

  const ResetPasswordSchema: Schema := [
    Key("newPassword", Text(6, false), true),
    Key("retypeNewPassword", Text(6, false), true)]

  const ChangePasswordSchema: Schema := [
    Key("currentPassword", Text(6, false), true),
    Key("newPassword", Text(6, false), true),
    Key("retypeNewPassword", Text(6, false), true)]

  const ContactSchema: Schema := [
    Key("name", Text(0, false), true),
    Key("email", Text(0, true), true),
    Key("phone", Text(0, false), true),
    Key("favorite", Flag, false)]

  const FavoriteSchema: Schema := [
    Key("favorite", Flag, true)]

  // The schemas controllers/userControllers.js declares for itself.  Its
  // `signupSchema` holds exactly the constraints of LoginSchema (no `name`);
  // its `subscriptionSchema` is SubscriptionSchema; its
  // `resetPasswordSchema` is declared but no handler uses it.

  const AccountSchema: Schema := LoginSchema

  const EmailPasswordSchema: Schema := [
    Key("email", Text(0, true), true),
    Key("newPassword", Text(6, false), true)]

  lemma SignupSchemaAccepts(body: Body)
    ensures Validate(SignupSchema, body).None? <==>
      && TextAtLeast(body, "name", 1)
      && EmailField(body, "email")
      && TextAtLeast(body, "password", 6)
      && OnlyKeys(body, ["name", "email", "password"])
  {
    var s := SignupSchema;
    AcceptsExactly(s, body, ["name", "email", "password"]);
    TextKey(body, "name", 0);
    EmailKey(body, "email");
    TextKey(body, "password", 6);
    assert (forall i :: 0 <= i < |s| ==> CheckKey(s[i], body).None?) <==>
      CheckKey(s[0], body).None? && CheckKey(s[1], body).None? && CheckKey(s[2], body).None?;
  }

  lemma LoginSchemaAccepts(body: Body)
    ensures Validate(LoginSchema, body).None? <==>
      && EmailField(body, "email")
      && TextAtLeast(body, "password", 6)
      && OnlyKeys(body, ["email", "password"])
  {
    var s := LoginSchema;
    AcceptsExactly(s, body, ["email", "password"]);
    EmailKey(body, "email");
    TextKey(body, "password", 6);
    assert (forall i :: 0 <= i < |s| ==> CheckKey(s[i], body).None?) <==>
      CheckKey(s[0], body).None? && CheckKey(s[1], body).None?;
  }

  lemma SubscriptionSchemaAccepts(body: Body)
    ensures Validate(SubscriptionSchema, body).None? <==>
      && Lookup(body, "subscription").Some?
      && Lookup(body, "subscription").value.Str?
      && Lookup(body, "subscription").value.s in SubscriptionNames
      && OnlyKeys(body, ["subscription"])
  {
    var s := SubscriptionSchema;
    AcceptsExactly(s, body, ["subscription"]);
    assert (forall i :: 0 <= i < |s| ==> CheckKey(s[i], body).None?) <==> CheckKey(s[0], body).None?;
  }

  lemma ResetPasswordSchemaAccepts(body: Body)
    ensures Validate(ResetPasswordSchema, body).None? <==>
      && TextAtLeast(body, "newPassword", 6)
      && TextAtLeast(body, "retypeNewPassword", 6)
      && OnlyKeys(body, ["newPassword", "retypeNewPassword"])
  {
    var s := ResetPasswordSchema;
    AcceptsExactly(s, body, ["newPassword", "retypeNewPassword"]);
    TextKey(body, "newPassword", 6);
    TextKey(body, "retypeNewPassword", 6);
    assert (forall i :: 0 <= i < |s| ==> CheckKey(s[i], body).None?) <==>
      CheckKey(s[0], body).None? && CheckKey(s[1], body).None?;
  }

  /** The reset schema does not ask the two passwords to agree. */
  lemma ResetPasswordAcceptsMismatch()
    ensures Validate(ResetPasswordSchema, MismatchSample).None?
  {
    var s := ResetPasswordSchema;
    MismatchSampleKeysPass();
    assert Declared(s, MismatchSample[0].0) by { assert s[0].name == "newPassword"; }
    assert Declared(s, MismatchSample[1].0) by { assert s[1].name == "retypeNewPassword"; }
    FirstUnknownFirst(s, MismatchSample);
  }

  const MismatchSample: Body := [("newPassword", Str("secret1")), ("retypeNewPassword", Str("secret2"))]

  lemma MismatchSampleKeysPass()
    ensures CheckKeys(ResetPasswordSchema, MismatchSample).None?
  {
    var s := ResetPasswordSchema;
    MismatchSampleLookups();
    assert CheckKey(s[0], MismatchSample).None?;
    assert CheckKey(s[1], MismatchSample).None?;
    assert s[1..][1..] == [];
  }

  lemma MismatchSampleLookups()
    ensures Lookup(MismatchSample, "newPassword") == Some(Str("secret1"))
    ensures Lookup(MismatchSample, "retypeNewPassword") == Some(Str("secret2"))
    ensures JsLength("secret1") >= 6 && JsLength("secret2") >= 6
  {
    var body := MismatchSample;
    assert body[..1] == [("newPassword", Str("secret1"))] && body[..1][..0] == [];
  }

  lemma ChangePasswordSchemaAccepts(body: Body)
    ensures Validate(ChangePasswordSchema, body).None? <==>
      && TextAtLeast(body, "currentPassword", 6)
      && TextAtLeast(body, "newPassword", 6)
      && TextAtLeast(body, "retypeNewPassword", 6)
      && OnlyKeys(body, ["currentPassword", "newPassword", "retypeNewPassword"])
  {
    var s := ChangePasswordSchema;
    AcceptsExactly(s, body, ["currentPassword", "newPassword", "retypeNewPassword"]);
    TextKey(body, "currentPassword", 6);
    TextKey(body, "newPassword", 6);
    TextKey(body, "retypeNewPassword", 6);
    assert (forall i :: 0 <= i < |s| ==> CheckKey(s[i], body).None?) <==>
      CheckKey(s[0], body).None? && CheckKey(s[1], body).None? && CheckKey(s[2], body).None?;
  }

  lemma ContactSchemaAccepts(body: Body)
    ensures Validate(ContactSchema, body).None? <==>
      && TextAtLeast(body, "name", 1)
      && EmailField(body, "email")
      && TextAtLeast(body, "phone", 1)
      && (Lookup(body, "favorite").None? || BooleanField(body, "favorite"))
      && OnlyKeys(body, ["name", "email", "phone", "favorite"])
  {
    var s := ContactSchema;
    AcceptsExactly(s, body, ["name", "email", "phone", "favorite"]);
    TextKey(body, "name", 0);
    EmailKey(body, "email");
    TextKey(body, "phone", 0);
    FlagKey(body, "favorite", false);
    AllPassOfFour(s, body);
  }

  lemma AllPassOfFour(s: Schema, body: Body)
    requires |s| == 4
    ensures (forall i :: 0 <= i < |s| ==> CheckKey(s[i], body).None?) <==>
      CheckKey(s[0], body).None? && CheckKey(s[1], body).None? && CheckKey(s[2], body).None?
      && CheckKey(s[3], body).None?
  {
  }

  lemma FavoriteSchemaAccepts(body: Body)
    ensures Validate(FavoriteSchema, body).None? <==>
      BooleanField(body, "favorite") && OnlyKeys(body, ["favorite"])
  {
    var s := FavoriteSchema;
    AcceptsExactly(s, body, ["favorite"]);
    FlagKey(body, "favorite", true);
    assert (forall i :: 0 <= i < |s| ==> CheckKey(s[i], body).None?) <==> CheckKey(s[0], body).None?;
  }

  lemma EmailPasswordSchemaAccepts(body: Body)
    ensures Validate(EmailPasswordSchema, body).None? <==>
      && EmailField(body, "email")
      && TextAtLeast(body, "newPassword", 6)
      && OnlyKeys(body, ["email", "newPassword"])
  {
    var s := EmailPasswordSchema;
    AcceptsExactly(s, body, ["email", "newPassword"]);
    EmailKey(body, "email");
    TextKey(body, "newPassword", 6);
    assert (forall i :: 0 <= i < |s| ==> CheckKey(s[i], body).None?) <==>
      CheckKey(s[0], body).None? && CheckKey(s[1], body).None?;
  }
}
