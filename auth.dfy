/** The `auth` middleware of middlewares/auth.js: a chain of early returns
    over read-only lookups.  Its only effect, attaching the user to the
    request, is the `Next` verdict. */
module Auth {
  import opened Json
  import opened UserModel
  import opened SessionModel

  /** A decoded JWT payload.  Tokens issued by login carry `id`; this
      middleware reads `userId`. */
  datatype Claims = Claims(id: Option<UserId>, userId: Option<UserId>, iat: int, exp: int)

  /** `jwt.verify(token, JWT_SECRET)` at the time of the request: the
      payload, or None where it throws (malformed, wrongly signed or expired
      token).  Signature checking and the clock belong to the library, so
      the verifier is a parameter. */
  type Verifier = string -> Option<Claims>

  // ---------------------------------------------------------------------
  // Header parsing.

  /** `s.split(sep)` for a one-character separator. */
  function Split(s: string, sep: char): (parts: seq<string>)
    ensures |parts| >= 1
    ensures forall i :: 0 <= i < |parts| ==> sep !in parts[i]
    ensures Join(parts, sep) == s
  {
    if |s| == 0 then [""]
    else
      var rest := Split(s[1..], sep);
      if s[0] == sep then
        assert ([""] + rest)[1..] == rest;
        [""] + rest
      else
        var parts := [[s[0]] + rest[0]] + rest[1..];
        assert Join(parts, sep) == s by {
          if |rest| == 1 {
            assert Join(parts, sep) == [s[0]] + rest[0];
          } else {
            assert parts[1..] == rest[1..];
            assert Join(rest, sep) == rest[0] + [sep] + Join(rest[1..], sep);
            assert Join(parts, sep) == [s[0]] + rest[0] + [sep] + Join(rest[1..], sep);
          }
          assert [s[0]] + s[1..] == s;
        }
        parts
  }

  /** `parts.join(sep)`. */
  function Join(parts: seq<string>, sep: char): string
    requires |parts| >= 1
  {
    if |parts| == 1 then parts[0] else parts[0] + [sep] + Join(parts[1..], sep)
  }

  lemma {:induction false} SplitWord(a: string, sep: char)
    requires sep !in a
    ensures Split(a, sep) == [a]
  {
    if |a| > 0 {
      SplitWord(a[1..], sep);
      assert [a[0]] + a[1..] == a;
    }
  }

  lemma {:induction false} SplitAfterWord(a: string, rest: string, sep: char)
    requires sep !in a
    ensures Split(a + [sep] + rest, sep) == [a] + Split(rest, sep)
  {
    if |a| == 0 {
      assert (a + [sep] + rest)[1..] == rest;
    } else {
      SplitAfterWord(a[1..], rest, sep);
      assert (a + [sep] + rest)[1..] == a[1..] + [sep] + rest;
      assert [a[0]] + a[1..] == a;
    }
  }

  /** `req.headers['authorization']?.split(' ')[1]`, None where that is
      undefined or the empty string (both falsy). */
  function BearerToken(header: Option<string>): (t: Option<string>)
    ensures t.Some? ==> t.value != "" && ' ' !in t.value
  {
    match header
    case None => None
    case Some(h) =>
      var words := Split(h, ' ');
      if |words| >= 2 && words[1] != "" then Some(words[1]) else None
  }

  /** The token is the second space-separated word, whatever the first
      word is: the scheme is never checked to be "Bearer". */
  lemma BearerTokenIsSecondWord(scheme: string, token: string, tail: string)
    requires ' ' !in scheme && ' ' !in token && token != ""
    requires tail == "" || tail[0] == ' '
    ensures BearerToken(Some(scheme + " " + token + tail)) == Some(token)
  {
    var h := scheme + " " + token + tail;
    assert h == scheme + [' '] + (token + tail);
    SplitAfterWord(scheme, token + tail, ' ');
    if tail == "" {
      SplitWord(token, ' ');
      assert token + tail == token;
    } else {
      assert token + tail == token + [' '] + tail[1..];
      SplitAfterWord(token, tail[1..], ' ');
    }
  }

  /** A header with no second word, or an empty one, is a missing token. */
  lemma SchemeOnlyIsMissing(scheme: string)
    requires ' ' !in scheme
    ensures BearerToken(Some(scheme)).None?
    ensures BearerToken(Some(scheme + " ")).None?
  {
    SplitWord(scheme, ' ');
    SplitAfterWord(scheme, "", ' ');
    assert scheme + " " == scheme + [' '] + "";
  }

  // ---------------------------------------------------------------------
  // The decision chain.

  datatype Verdict = Next(principal: UserId, user: User) | Deny(status: int, message: string)

  const AccessTokenMissing: string := "Access token missing"
  const InvalidOrExpired: string := "Invalid or expired token"
  const UserNotFound: string := "User not found"

  /** One stored session against the filter `{ accessToken: token, userId }`.
      Mongoose drops a filter key whose value is `undefined`, so without a
      `userId` only the access token is compared. */
  predicate Holds(s: Session, token: string, userId: Option<UserId>): (b: bool)
    ensures b ==> s.accessToken == token
    ensures userId.None? ==> (b <==> s.accessToken == token)
    ensures userId.Some? && s.userId != userId.value ==> !b
  {
    s.accessToken == token && (userId.None? || s.userId == userId.value)
  }

  /** `Session.findOne({ accessToken: token, userId })`: the position of
      the first matching session. */
  function FindSession(sessions: seq<Session>, token: string, userId: Option<UserId>): (r: Option<nat>)
    ensures r.Some? ==> r.value < |sessions| && Holds(sessions[r.value], token, userId)
    ensures r.None? <==> !SessionMatches(sessions, token, userId)
  {
    if |sessions| == 0 then None
    else if Holds(sessions[0], token, userId) then Some(0)
    else
      match FindSession(sessions[1..], token, userId)
      case None =>
        assert forall i :: 1 <= i < |sessions| ==> sessions[i] == sessions[1..][i - 1];
        None
      case Some(k) => Some(k + 1)
  }

  ghost predicate SessionMatches(sessions: seq<Session>, token: string, userId: Option<UserId>) {
    exists i :: 0 <= i < |sessions| && Holds(sessions[i], token, userId)
  }

  /** The payload of a presented token that verifies. */
  ghost function Decoded(header: Option<string>, verify: Verifier): Option<Claims> {
    match BearerToken(header)
    case None => None
    case Some(t) => verify(t)
  }

  /** The `userId` claim of a presented token that verifies. */
  ghost function DecodedUserId(header: Option<string>, verify: Verifier): Option<UserId> {
    match Decoded(header, verify)
    case None => None
    case Some(c) => c.userId
  }

  /** Every check passes for principal `id`. */
  ghost predicate Admitted(header: Option<string>, verify: Verifier, sessions: seq<Session>,
                           users: map<UserId, User>, id: UserId) {
    && DecodedUserId(header, verify) == Some(id)
    && SessionMatches(sessions, BearerToken(header).value, Some(id))
    && id in users
  }

  /** The middleware.  A payload without `userId` looks the session up by
      access token alone, and `User.findById(undefined)` finds no user. */
  function Authenticate(header: Option<string>, verify: Verifier, sessions: seq<Session>,
                        users: map<UserId, User>): (r: Verdict)
    ensures r == Deny(401, AccessTokenMissing) <==> BearerToken(header).None?
    ensures r.Deny? && r.status == 401 <==> BearerToken(header).None?
    ensures r.Deny? ==> r.status in {401, 403, 404}
    ensures r.Deny? && r.status == 403 ==> r.message == InvalidOrExpired
    ensures r.Deny? && r.status == 404 ==> r.message == UserNotFound
    ensures r == Deny(403, InvalidOrExpired) <==>
      && BearerToken(header).Some?
      && (Decoded(header, verify).None?
          || !SessionMatches(sessions, BearerToken(header).value, DecodedUserId(header, verify)))
    ensures r.Next? ==> Admitted(header, verify, sessions, users, r.principal) && r.user == users[r.principal]
    ensures (exists id :: Admitted(header, verify, sessions, users, id)) ==> r.Next?
    ensures r == Deny(404, UserNotFound) <==>
      && Decoded(header, verify).Some?
      && SessionMatches(sessions, BearerToken(header).value, DecodedUserId(header, verify))
      && (DecodedUserId(header, verify).None? || DecodedUserId(header, verify).value !in users)
  {
    match BearerToken(header)
    case None => Deny(401, AccessTokenMissing)
    case Some(token) =>
      match verify(token)
      case None => Deny(403, InvalidOrExpired)
      case Some(claims) =>
        if FindSession(sessions, token, claims.userId).None? then Deny(403, InvalidOrExpired)
        else
          match claims.userId
          case None => Deny(404, UserNotFound)
          case Some(id) => if id !in users then Deny(404, UserNotFound) else Next(id, users[id])
  }

  /** Sessions that agree on user and access token, whatever their refresh
      tokens and expiration dates. */
  ghost predicate SameGrants(a: seq<Session>, b: seq<Session>) {
    |a| == |b| && forall i :: 0 <= i < |a| ==> a[i].userId == b[i].userId && a[i].accessToken == b[i].accessToken
  }

  lemma {:induction false} FindSessionSameGrants(a: seq<Session>, b: seq<Session>, token: string, userId: Option<UserId>)
    requires SameGrants(a, b)
    ensures FindSession(a, token, userId) == FindSession(b, token, userId)
  {
    if |a| > 0 {
      assert SameGrants(a[1..], b[1..]) by {
        assert forall i :: 0 <= i < |a| - 1 ==> a[1..][i] == a[i + 1] && b[1..][i] == b[i + 1];
      }
      FindSessionSameGrants(a[1..], b[1..], token, userId);
    }
  }

  /** The session's `expiration` (and its refresh token) is never
      consulted: only the verifier decides expiry. */
  lemma ExpirationIgnored(header: Option<string>, verify: Verifier, a: seq<Session>, b: seq<Session>,
                          users: map<UserId, User>)
    requires SameGrants(a, b)
    ensures Authenticate(header, verify, a, users) == Authenticate(header, verify, b, users)
  {
    if BearerToken(header).Some? {
      var t := BearerToken(header).value;
      if verify(t).Some? {
        FindSessionSameGrants(a, b, t, verify(t).value.userId);
      }
    }
  }

  /** A token whose payload has no `userId` claim, such as the `{ id }`
      token login signs, never gets past the guard: it is refused with 404
      when some stored session holds it as its access token (the lookup then
      ignores users, and `User.findById(undefined)` finds none), and with
      403 otherwise, as long as the verifier returns either nothing or what
      was signed. */
  lemma TokenWithoutUserIdRefused(scheme: string, token: string, claims: Claims, verify: Verifier,
                                  sessions: seq<Session>, users: map<UserId, User>)
    requires ' ' !in scheme && ' ' !in token && token != ""
    requires claims.userId.None?
    requires verify(token) == None || verify(token) == Some(claims)
    ensures Authenticate(Some(scheme + " " + token), verify, sessions, users)
            == if verify(token).Some? && exists i :: 0 <= i < |sessions| && sessions[i].accessToken == token
               then Deny(404, UserNotFound) else Deny(403, InvalidOrExpired)
  {
    BearerTokenIsSecondWord(scheme, token, "");
    assert scheme + " " + token + "" == scheme + " " + token;
  }

  /** A session can outlive its user (a `ref` does not check that the user
      exists): a token whose `userId` session is stored but whose user is
      gone gets 404. */
  lemma OrphanSessionRefused(scheme: string, token: string, claims: Claims, verify: Verifier,
                             sessions: seq<Session>, users: map<UserId, User>, i: nat)
    requires ' ' !in scheme && ' ' !in token && token != ""
    requires verify(token) == Some(claims) && claims.userId.Some?
    requires i < |sessions| && sessions[i].accessToken == token && sessions[i].userId == claims.userId.value
    requires claims.userId.value !in users
    ensures Authenticate(Some(scheme + " " + token), verify, sessions, users) == Deny(404, UserNotFound)
  {
    BearerTokenIsSecondWord(scheme, token, "");
    assert scheme + " " + token + "" == scheme + " " + token;
    assert Holds(sessions[i], token, claims.userId);
  }

  /** With no session stored, as nothing in this code creates one, no
      request gets past the guard. */
  lemma NoSessionsAdmitNobody(header: Option<string>, verify: Verifier, users: map<UserId, User>)
    ensures Authenticate(header, verify, [], users).Deny?
  {
  }
}
