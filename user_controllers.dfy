/** The account handlers of controllers/userControllers.js over the user
    collection.  Each handler is a method of AccountStore that answers with
    a status and a payload; those that save documents change `users`. */
module UserControllers {
  import opened Json
  import opened FormValidation
  import opened UserModel
  import opened SessionModel
  import opened Auth

  datatype Payload =
    | Message(text: string)
    | Detail(error: JoiError)                       // Joi's `error.details[0].message`
    | NewUser(email: string, subscription: Subscription, avatarURL: Option<string>)
    | LoggedIn(token: string, email: string, subscription: Subscription)
    | Profile(email: string, subscription: Subscription)
    | NoContent

  datatype Reply = Reply(status: int, payload: Payload)

  const InvalidData: string := "Invalid or missing data"
  const EmailTaken: string := "Email in use"
  const ServerError: string := "Internal Server Error"
  const MailFailed: string := "Error sending email"
  const Verified: string := "Verification successful"
  const EmailMissing: string := "Missing required field email"
  const AlreadyVerified: string := "Verification has already been passed"
  const MailSent: string := "Verification email sent"
  const ResendFailed: string := "Internal server error"
  const WrongCredentials: string := "Email or password is wrong"
  const PleaseVerify: string := "Please verify your email"
  const PasswordReset: string := "Password reset successful"

  /** `jwt.sign(payload, JWT_SECRET, ...)`: the library's encoding. */
  type Signer = Claims -> string

  /** `expiresIn: '1h'`, in seconds. */
  const TokenLifetime: int := 3600

  /** The payload login signs: `{ id }` and the standard time claims. */
  function LoginClaims(id: UserId, now: int): (c: Claims)
    ensures c.id == Some(id) && c.userId.None? && c.exp - c.iat == TokenLifetime
  {
    Claims(Some(id), None, now, now + TokenLifetime)
  }

  /** The document a completed sign-up stores. */
  function NewAccount(name: string, email: string, password: string, salt: nat,
                      uuid: string, avatarURL: string): (u: User)
    ensures Matches(password, u.password) && u.verificationToken == Some(uuid)
    ensures !u.verify && u.subscription == Starter
  {
    User(name, email, Hash(password, salt), Starter, Some(avatarURL), false, Some(uuid))
  }

  /** The user whose e-mail and password login accepts, when there is one. */
  ghost predicate CredentialsAccepted(users: map<UserId, User>, body: Body) {
    && Validate(AccountSchema, body).None?
    && exists id :: id in users && users[id].email == TextOf(body, "email") && users[id].verify
                    && Matches(TextOf(body, "password"), users[id].password)
  }

  /** The reply login gives to `body` against `users`, checks taken in the
      handler's order: schema, known e-mail, verified, password. */
  ghost function LoginReply(users: map<UserId, User>, body: Body, sign: Signer, now: int): (r: Reply)
    requires EmailsUnique(users)
    ensures r.status == 200 <==> CredentialsAccepted(users, body)
    ensures r.status in {200, 400, 401}
  {
    if Validate(AccountSchema, body).Some? then Reply(400, Detail(Validate(AccountSchema, body).value))
    else if !EmailInUse(users, TextOf(body, "email")) then Reply(401, Message(WrongCredentials))
    else
      var id :| id in users && users[id].email == TextOf(body, "email");
      if !users[id].verify then Reply(401, Message(PleaseVerify))
      else if !Matches(TextOf(body, "password"), users[id].password) then Reply(401, Message(WrongCredentials))
      else Reply(200, LoggedIn(sign(LoginClaims(id, now)), users[id].email, users[id].subscription))
  }

  datatype CreateError = Invalid(error: SchemaError) | DuplicateEmail

  class AccountStore {
    var users: map<UserId, User>

    ghost predicate Valid()
      reads this
    {
      CollectionValid(users)
    }

    constructor ()
      ensures Valid() && users == map[]
    {
      users := map[];
    }

    /** `User.create(fields)`: validate against the schema, then insert
        under the unique e-mail index.  `id` is the fresh ObjectId. */
    method Create(d: Draft, id: UserId) returns (r: Result<UserId, CreateError>)
      requires Valid()
      requires id !in users
      requires d.verificationToken.Some? ==> !TokenHeld(users, d.verificationToken.value)
      modifies this
      ensures Valid()
      ensures r.Ok? <==> Instantiate(d).Ok? && !EmailInUse(old(users), d.email.value)
      ensures r.Ok? ==> r.value == id && users == old(users)[id := Instantiate(d).value]
      ensures r.Err? ==> users == old(users)
      ensures !RequiredText(d.name) ==> r == Err(Invalid(NameRequired))
    {
      var doc := Instantiate(d);
      if doc.Err? {
        return Err(Invalid(doc.error));
      }
      if EmailInUse(users, doc.value.email) {
        return Err(DuplicateEmail);
      }
      InsertKeepsValid(users, id, doc.value);
      users := users[id := doc.value];
      r := Ok(id);
    }

    /** Everything after the duplicate check: hash, build the document,
        create it, then send the verification mail.  A mail failure
        answers 500 but leaves the user created. */
    method Register(name: Option<string>, email: string, password: string, salt: nat,
                    uuid: string, avatarURL: string, id: UserId, mailSent: bool) returns (reply: Reply)
      requires Valid()
      requires id !in users && !TokenHeld(users, uuid) && !EmailInUse(users, email)
      modifies this
      ensures Valid()
      ensures !(RequiredText(name) && email != "") ==>
        reply == Reply(500, Message(ServerError)) && users == old(users)
      ensures RequiredText(name) && email != "" ==>
        && users == old(users)[id := NewAccount(name.value, email, password, salt, uuid, avatarURL)]
        && reply == (if mailSent then Reply(201, NewUser(email, Starter, Some(avatarURL)))
                     else Reply(500, Message(MailFailed)))
    {
      var hashed := Hash(password, salt);
      var created := Create(Draft(name, Some(email), Some(hashed), Some(avatarURL), Some(uuid)), id);
      if created.Err? {
        return Reply(500, Message(ServerError));
      }
      if !mailSent {
        return Reply(500, Message(MailFailed));
      }
      reply := Reply(201, NewUser(email, Starter, Some(avatarURL)));
    }

    /** `signup` as written: it validates with the controller's own schema,
        which has no `name` and refuses unknown keys, and never passes
        `name` to `User.create`, whose schema requires it.  No call stores
        a user. */
    method Signup(body: Body, salt: nat, uuid: string, avatarURL: string, id: UserId, mailSent: bool)
      returns (reply: Reply)
      requires Valid()
      requires id !in users && !TokenHeld(users, uuid)
      modifies this
      ensures Valid() && users == old(users)
      ensures reply.status != 201
      ensures Validate(AccountSchema, body).Some? ==> reply == Reply(400, Message(InvalidData))
      ensures Validate(AccountSchema, body).None? ==>
        reply == if EmailInUse(old(users), TextOf(body, "email")) then Reply(409, Message(EmailTaken))
                 else Reply(500, Message(ServerError))
    {
      if Validate(AccountSchema, body).Some? {
        return Reply(400, Message(InvalidData));
      }
      var email, password := TextOf(body, "email"), TextOf(body, "password");
      if EmailInUse(users, email) {
        return Reply(409, Message(EmailTaken));
      }
      reply := Register(None, email, password, salt, uuid, avatarURL, id, mailSent);
    }

    /** `signup` as evidently intended: validated with the shared schema that
        requires `name`, and `name` handed to `User.create`. */
    method SignupWithName(body: Body, salt: nat, uuid: string, avatarURL: string, id: UserId, mailSent: bool)
      returns (reply: Reply)
      requires Valid()
      requires id !in users && !TokenHeld(users, uuid)
      modifies this
      ensures Valid()
      ensures Validate(SignupSchema, body).Some? ==>
        reply == Reply(400, Message(InvalidData)) && users == old(users)
      ensures Validate(SignupSchema, body).None? && EmailInUse(old(users), TextOf(body, "email")) ==>
        reply == Reply(409, Message(EmailTaken)) && users == old(users)
      ensures Validate(SignupSchema, body).None? && !EmailInUse(old(users), TextOf(body, "email")) ==>
        && users == old(users)[id := NewAccount(TextOf(body, "name"), TextOf(body, "email"),
                                               TextOf(body, "password"), salt, uuid, avatarURL)]
        && reply == (if mailSent then Reply(201, NewUser(TextOf(body, "email"), Starter, Some(avatarURL)))
                     else Reply(500, Message(MailFailed)))
    {
      if Validate(SignupSchema, body).Some? {
        return Reply(400, Message(InvalidData));
      }
      SignupSchemaAccepts(body);
      var name, email, password := TextOf(body, "name"), TextOf(body, "email"), TextOf(body, "password");
      if EmailInUse(users, email) {
        return Reply(409, Message(EmailTaken));
      }
      reply := Register(Some(name), email, password, salt, uuid, avatarURL, id, mailSent);
    }

    /** `verifyEmail`: consume the verification token. */
    method VerifyEmail(token: string) returns (reply: Reply)
      requires Valid()
      modifies this
      ensures Valid()
      ensures !TokenHeld(old(users), token) ==>
        reply == Reply(404, Message(UserNotFound)) && users == old(users)
      ensures forall id :: id in old(users) && old(users)[id].verificationToken == Some(token) ==>
        && reply == Reply(200, Message(Verified))
        && users == old(users)[id := old(users)[id].(verificationToken := None, verify := true)]
      ensures !TokenHeld(users, token)
    {
      if !TokenHeld(users, token) {
        return Reply(404, Message(UserNotFound));
      }
      var id :| id in users && users[id].verificationToken == Some(token);
      var u := users[id].(verificationToken := None, verify := true);
      UpdateKeepsValid(users, id, u);
      users := users[id := u];
      reply := Reply(200, Message(Verified));
    }

    /** `resendVerificationEmail`: reads the collection, never writes it. */
    method ResendVerificationEmail(body: Body, mailSent: bool) returns (reply: Reply)
      requires Valid()
      ensures Falsy(Lookup(body, "email")) ==> reply == Reply(400, Message(EmailMissing))
      ensures !Falsy(Lookup(body, "email")) && !EmailInUse(users, TextOf(body, "email")) ==>
        reply == Reply(404, Message(UserNotFound))
      ensures forall id :: !Falsy(Lookup(body, "email")) && id in users && users[id].email == TextOf(body, "email") ==>
        reply == if users[id].verify then Reply(400, Message(AlreadyVerified))
                 else if mailSent then Reply(200, Message(MailSent))
                 else Reply(500, Message(ResendFailed))
    {
      if Falsy(Lookup(body, "email")) {
        return Reply(400, Message(EmailMissing));
      }
      var email := TextOf(body, "email");
      if !EmailInUse(users, email) {
        return Reply(404, Message(UserNotFound));
      }
      var id :| id in users && users[id].email == email;
      if users[id].verify {
        return Reply(400, Message(AlreadyVerified));
      }
      reply := if mailSent then Reply(200, Message(MailSent)) else Reply(500, Message(ResendFailed));
    }

    /** `login`.  The token it writes to `user.token` is not a schema path,
        so saving stores nothing: the collection is only read. */
    method Login(body: Body, sign: Signer, now: int) returns (reply: Reply)
      requires Valid()
      ensures reply == LoginReply(users, body, sign, now)
      ensures reply.status == 200 <==> CredentialsAccepted(users, body)
      ensures Validate(AccountSchema, body).Some? ==> reply == Reply(400, Detail(Validate(AccountSchema, body).value))
      ensures Validate(AccountSchema, body).None? && !EmailInUse(users, TextOf(body, "email")) ==>
        reply == Reply(401, Message(WrongCredentials))
      ensures forall id :: Validate(AccountSchema, body).None? && id in users && users[id].email == TextOf(body, "email") ==>
        reply == if !users[id].verify then Reply(401, Message(PleaseVerify))
                 else if !Matches(TextOf(body, "password"), users[id].password) then Reply(401, Message(WrongCredentials))
                 else Reply(200, LoggedIn(sign(LoginClaims(id, now)), users[id].email, users[id].subscription))
    {
      var error := Validate(AccountSchema, body);
      if error.Some? {
        return Reply(400, Detail(error.value));
      }
      var email, password := TextOf(body, "email"), TextOf(body, "password");
      if !EmailInUse(users, email) {
        return Reply(401, Message(WrongCredentials));
      }
      var id :| id in users && users[id].email == email;
      if !users[id].verify {
        return Reply(401, Message(PleaseVerify));
      }
      if !Matches(password, users[id].password) {
        return Reply(401, Message(WrongCredentials));
      }
      var token := sign(LoginClaims(id, now));
      reply := Reply(200, LoggedIn(token, users[id].email, users[id].subscription));
    }

    /** `logout`: sets `token`, which is not a schema path, and saves;
        nothing stored changes. */
    method Logout(principal: UserId) returns (reply: Reply)
      requires Valid() && principal in users
      ensures reply == Reply(204, NoContent)
    {
      reply := Reply(204, NoContent);
    }

    /** `currentUser`: echoes the principal's e-mail and subscription. */
    method CurrentUser(principal: UserId) returns (reply: Reply)
      requires Valid() && principal in users
      ensures reply == Reply(200, Profile(users[principal].email, users[principal].subscription))
    {
      reply := Reply(200, Profile(users[principal].email, users[principal].subscription));
    }

    /** `upgradeSub`: change the principal's subscription tier. */
    method UpgradeSub(principal: UserId, body: Body) returns (reply: Reply)
      requires Valid() && principal in users
      modifies this
      ensures Valid()
      ensures Validate(SubscriptionSchema, body).Some? ==>
        reply == Reply(400, Detail(Validate(SubscriptionSchema, body).value)) && users == old(users)
      ensures Validate(SubscriptionSchema, body).None? ==>
        && ParseSubscription(TextOf(body, "subscription")).Some?
        && var s := ParseSubscription(TextOf(body, "subscription")).value;
           && users == old(users)[principal := old(users)[principal].(subscription := s)]
           && reply == Reply(200, Profile(old(users)[principal].email, s))
    {
      var error := Validate(SubscriptionSchema, body);
      if error.Some? {
        return Reply(400, Detail(error.value));
      }
      SubscriptionSchemaAccepts(body);
      var s := ParseSubscription(TextOf(body, "subscription")).value;
      var u := users[principal].(subscription := s);
      UpdateKeepsValid(users, principal, u);
      users := users[principal := u];
      reply := Reply(200, Profile(u.email, s));
    }

    /** `resetPassword`: validate `{ email, password }`, then replace the
        password hash of the user named by `email`.  It is mounted behind
        the guard, but the principal plays no part. */
    method ResetPassword(body: Body, salt: nat) returns (reply: Reply)
      requires Valid()
      modifies this
      ensures Valid()
      ensures Validate(AccountSchema, Pick(body, ["email", "password"])).Some? ==>
        reply == Reply(400, Detail(Validate(AccountSchema, Pick(body, ["email", "password"])).value))
        && users == old(users)
      ensures Validate(AccountSchema, Pick(body, ["email", "password"])).None? && !EmailInUse(old(users), TextOf(body, "email")) ==>
        reply == Reply(404, Message(UserNotFound)) && users == old(users)
      ensures forall id :: Validate(AccountSchema, Pick(body, ["email", "password"])).None? &&
                           id in old(users) && old(users)[id].email == TextOf(body, "email") ==>
        && reply == Reply(200, Message(PasswordReset))
        && users == old(users)[id := old(users)[id].(password := Hash(TextOf(body, "password"), salt))]
    {
      var picked := Pick(body, ["email", "password"]);
      var error := Validate(AccountSchema, picked);
      if error.Some? {
        return Reply(400, Detail(error.value));
      }
      PickedCredentials(body);
      var hashed := Hash(TextOf(body, "password"), salt);
      var email := TextOf(body, "email");
      if !EmailInUse(users, email) {
        return Reply(404, Message(UserNotFound));
      }
      var id :| id in users && users[id].email == email;
      var u := users[id].(password := hashed);
      UpdateKeepsValid(users, id, u);
      users := users[id := u];
      reply := Reply(200, Message(PasswordReset));
    }
  }

  /** `{ email, password }` carries the body's two credentials. */
  lemma PickedCredentials(body: Body)
    ensures TextOf(Pick(body, ["email", "password"]), "email") == TextOf(body, "email")
    ensures TextOf(Pick(body, ["email", "password"]), "password") == TextOf(body, "password")
  {
    assert "email" in ["email", "password"] && "password" in ["email", "password"];
  }

  // -----------------------------------------------------------------------
  // Properties of the handlers beyond a single call.

  /** Sign-up as written refuses any body that carries a `name`: the
      controller's schema does not declare it. */
  lemma SignupRefusesName(body: Body)
    requires Lookup(body, "name").Some?
    ensures Validate(AccountSchema, body).Some?
  {
    LoginSchemaAccepts(body);
    var i :| 0 <= i < |body| && body[i] == ("name", Lookup(body, "name").value);
    assert body[i].0 !in ["email", "password"];
  }

  /** The schema check of resetPassword looks at `email` and `password`
      only: other keys of the body are dropped before validation. */
  lemma ResetPasswordValidation(body: Body)
    ensures Validate(AccountSchema, Pick(body, ["email", "password"])).None? <==>
      EmailField(body, "email") && TextAtLeast(body, "password", 6)
  {
    var picked := Pick(body, ["email", "password"]);
    LoginSchemaAccepts(picked);
  }

  /** Login answers an unknown e-mail and a wrong password for a verified
      account with the same reply, so they cannot be told apart. */
  lemma UnknownEmailLooksLikeWrongPassword(users: map<UserId, User>, unknown: Body, wrong: Body, id: UserId,
                                           sign: Signer, now: int)
    requires EmailsUnique(users)
    requires Validate(AccountSchema, unknown).None? && !EmailInUse(users, TextOf(unknown, "email"))
    requires Validate(AccountSchema, wrong).None?
    requires id in users && users[id].email == TextOf(wrong, "email") && users[id].verify
    requires !Matches(TextOf(wrong, "password"), users[id].password)
    ensures LoginReply(users, unknown, sign, now) == Reply(401, Message(WrongCredentials))
    ensures LoginReply(users, wrong, sign, now) == LoginReply(users, unknown, sign, now)
  {
    assert EmailInUse(users, TextOf(wrong, "email"));
  }

  /** An unverified account is told apart: whatever the password, login
      answers "Please verify your email", which an unknown e-mail never
      gets. */
  lemma UnverifiedAccountRevealed(users: map<UserId, User>, body: Body, id: UserId, sign: Signer, now: int)
    requires EmailsUnique(users)
    requires Validate(AccountSchema, body).None?
    requires id in users && users[id].email == TextOf(body, "email") && !users[id].verify
    ensures LoginReply(users, body, sign, now) == Reply(401, Message(PleaseVerify))
  {
    assert EmailInUse(users, TextOf(body, "email"));
  }

  /** No token login hands out gets past the guard: it is signed over
      `{ id }` while the guard reads `userId`.  The lookup then compares
      the access token alone, so the answer is 404 if a stored session
      happens to hold this token and 403 otherwise; with the sessions this
      code leaves (none), it is 403. */
  lemma LoginTokenRefusedByGuard(id: UserId, now: int, sign: Signer, verify: Verifier, scheme: string,
                                 sessions: seq<Session>, users: map<UserId, User>)
    requires ' ' !in scheme
    requires ' ' !in sign(LoginClaims(id, now)) && sign(LoginClaims(id, now)) != ""
    requires verify(sign(LoginClaims(id, now))) in {None, Some(LoginClaims(id, now))}
    ensures Authenticate(Some(scheme + " " + sign(LoginClaims(id, now))), verify, sessions, users).Deny?
    ensures (forall i :: 0 <= i < |sessions| ==> sessions[i].accessToken != sign(LoginClaims(id, now))) ==>
            Authenticate(Some(scheme + " " + sign(LoginClaims(id, now))), verify, sessions, users)
            == Deny(403, InvalidOrExpired)
    ensures Authenticate(Some(scheme + " " + sign(LoginClaims(id, now))), verify, [], users)
            == Deny(403, InvalidOrExpired)
  {
    TokenWithoutUserIdRefused(scheme, sign(LoginClaims(id, now)), LoginClaims(id, now), verify, [], users);
    TokenWithoutUserIdRefused(scheme, sign(LoginClaims(id, now)), LoginClaims(id, now), verify, sessions, users);
  }

  /** The payload the guard reads: the user's id under `userId`. */
  function SessionClaims(id: UserId, now: int): (c: Claims)
    ensures c.userId == Some(id) && c.exp - c.iat == TokenLifetime
  {
    Claims(None, Some(id), now, now + TokenLifetime)
  }

  /** A login that signs `{ userId }` and stores the session for its
      token gets its holder past the guard. */
  lemma SessionTokenAdmitted(id: UserId, now: int, sign: Signer, verify: Verifier, scheme: string,
                             refresh: string, sessions: seq<Session>, users: map<UserId, User>)
    requires ' ' !in scheme
    requires ' ' !in sign(SessionClaims(id, now)) && sign(SessionClaims(id, now)) != ""
    requires verify(sign(SessionClaims(id, now))) == Some(SessionClaims(id, now))
    requires id in users
    ensures var token := sign(SessionClaims(id, now));
            Authenticate(Some(scheme + " " + token), verify,
                         sessions + [Session(id, token, refresh, now + TokenLifetime)], users)
            == Next(id, users[id])
  {
    var token := sign(SessionClaims(id, now));
    var stored := sessions + [Session(id, token, refresh, now + TokenLifetime)];
    BearerTokenIsSecondWord(scheme, token, "");
    assert scheme + " " + token + "" == scheme + " " + token;
    assert stored[|sessions|].accessToken == token && stored[|sessions|].userId == id;
    assert Admitted(Some(scheme + " " + token), verify, stored, users, id);
  }
}
