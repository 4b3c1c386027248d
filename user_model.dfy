/** The User record of models/user.js: required fields, defaults, the
    subscription enumeration and the unique e-mail index, with bcrypt's
    hash and compare reduced to what callers rely on. */
module UserModel {
  import opened Json

  /** A document id (a MongoDB ObjectId, by its hex text). */
  type UserId = string

  datatype Subscription = Starter | Pro | Business

  function SubscriptionName(s: Subscription): (r: string)
    ensures r in ["starter", "pro", "business"]
  {
    match s
    case Starter => "starter"
    case Pro => "pro"
    case Business => "business"
  }

  /** The enumeration check of the `subscription` path. */
  function ParseSubscription(t: string): (r: Option<Subscription>)
    ensures r.Some? <==> t in ["starter", "pro", "business"]
    ensures r.Some? ==> SubscriptionName(r.value) == t
    ensures forall s :: t == SubscriptionName(s) ==> r == Some(s)
  {
    if t == "starter" then Some(Starter)
    else if t == "pro" then Some(Pro)
    else if t == "business" then Some(Business)
    else None
  }

  /** `bcrypt.hash(password, 10)` with cost 10: a salted digest of the
      password's key.  The salt is random, so it is a parameter. */
  const SaltRounds: nat := 10

  newtype byte = b: int | 0 <= b < 256

  /** The UTF-8 encoding of one character (a Unicode scalar value).  Only
      NUL encodes to a zero byte. */
  function Utf8(c: char): (r: seq<byte>)
    ensures 1 <= |r| <= 4
    ensures |r| == 1 <==> c as int < 0x80
    ensures 0 in r <==> c == 0 as char
  {
    var n := c as int;
    if n < 0x80 then [n as byte]
    else if n < 0x800 then [(0xC0 + n / 0x40) as byte, (0x80 + n % 0x40) as byte]
    else if n < 0x1_0000 then
      [(0xE0 + n / 0x1000) as byte, (0x80 + n / 0x40 % 0x40) as byte, (0x80 + n % 0x40) as byte]
    else
      [(0xF0 + n / 0x4_0000) as byte, (0x80 + n / 0x1000 % 0x40) as byte,
       (0x80 + n / 0x40 % 0x40) as byte, (0x80 + n % 0x40) as byte]
  }

  function Encode(s: string): (r: seq<byte>)
    ensures |r| >= |s|
    ensures 0 in r <==> 0 as char in s
  {
    if |s| == 0 then [] else
      var r := Utf8(s[0]) + Encode(s[1..]);
      assert 0 as char in s <==> s[0] == 0 as char || 0 as char in s[1..];
      r
  }

  lemma {:induction false} EncodeAppend(a: string, b: string)
    ensures Encode(a + b) == Encode(a) + Encode(b)
  {
    if |a| > 0 {
      assert (a + b)[1..] == a[1..] + b;
      EncodeAppend(a[1..], b);
      assert Encode(a + b) == Utf8(a[0]) + Encode(a[1..] + b);
    } else {
      assert a + b == b;
    }
  }

  /** The first `n` bytes of `b` repeated without end. */
  function Cycle(b: seq<byte>, n: nat): (r: seq<byte>)
    requires |b| > 0
    ensures |r| == n
    ensures forall i :: 0 <= i < n && i < |b| ==> r[i] == b[i]
    ensures forall i :: |b| <= i < n ==> r[i] == r[i - |b|]
    decreases n
  {
    if n <= |b| then b[..n]
    else
      var rest := Cycle(b, n - |b|);
      var r := b + rest;
      assert forall i :: |b| <= i < n ==> r[i] == rest[i - |b|];
      r
  }

  /** Repeating a doubled block is repeating the block. */
  lemma {:induction false} CycleOfDouble(b: seq<byte>, n: nat)
    requires |b| > 0
    ensures Cycle(b + b, n) == Cycle(b, n)
    decreases n
  {
    if n > 2 * |b| {
      CycleOfDouble(b, n - 2 * |b|);
      assert Cycle(b, n - |b|) == b + Cycle(b, n - 2 * |b|);
    } else if n > |b| {
      assert Cycle(b, n - |b|) == b[..n - |b|];
      assert (b + b)[..n] == b + b[..n - |b|];
    } else {
      assert (b + b)[..n] == b[..n];
    }
  }

  /** The key bcrypt expands: the UTF-8 bytes of the password and a NUL
      terminator, read cyclically until the 72 bytes of the key schedule
      are filled. */
  function BcryptKey(password: string): (k: seq<byte>)
    ensures |k| == 72
    ensures forall i :: 0 <= i < 72 && i <= |Encode(password)| ==> k[i] == (Encode(password) + [0])[i]
    ensures forall i :: |Encode(password)| < i < 72 ==> k[i] == k[i - |Encode(password)| - 1]
    ensures |Encode(password)| >= 72 ==> k == Encode(password)[..72]
  {
    Cycle(Encode(password) + [0], 72)
  }

  datatype PasswordHash = Bcrypt(rounds: nat, salt: nat, key: seq<byte>)

  /** `bcrypt.compare(password, hash)`: hash the password again with the
      stored salt and cost, and compare. */
  predicate Matches(password: string, h: PasswordHash): (m: bool)
    ensures h.rounds == SaltRounds ==> (m <==> Bcrypt(SaltRounds, h.salt, BcryptKey(password)) == h)
  {
    BcryptKey(password) == h.key
  }

  function Hash(password: string, salt: nat): (h: PasswordHash)
    ensures Matches(password, h)
    ensures h.rounds == SaltRounds
  {
    Bcrypt(SaltRounds, salt, BcryptKey(password))
  }

  /** Below 72 bytes, and without NUL characters, the hash tells passwords
      apart: a password whose bytes differ from the hashed one does not
      match. */
  lemma ShortPasswordsDistinguished(password: string, other: string, salt: nat)
    requires |Encode(password)| < 72 && |Encode(other)| < 72
    requires 0 as char !in password && 0 as char !in other
    requires Encode(other) != Encode(password)
    ensures !Matches(other, Hash(password, salt))
  {
    var a, b := Encode(password), Encode(other);
    var ka, kb := BcryptKey(password), BcryptKey(other);
    if |a| < |b| {
      assert ka[|a|] == 0 && kb[|a|] == b[|a|];
      assert b[|a|] in b;
    } else if |b| < |a| {
      assert kb[|b|] == 0 && ka[|b|] == a[|b|];
      assert a[|b|] in a;
    } else {
      var i :| 0 <= i < |a| && a[i] != b[i];
      assert ka[i] == a[i] && kb[i] == b[i];
    }
  }

  /** Past 72 bytes only the first 72 count: any password sharing them
      matches. */
  lemma OnlyFirst72BytesCount(password: string, other: string, salt: nat)
    requires |Encode(password)| >= 72 && |Encode(other)| >= 72
    requires Encode(other)[..72] == Encode(password)[..72]
    ensures Matches(other, Hash(password, salt))
  {
  }

  /** The key is read cyclically: a password followed by NUL and itself
      again expands to the same key, so it matches the password's hash. */
  lemma RepeatAfterNulMatches(password: string, salt: nat)
    ensures Matches(password + [0 as char] + password, Hash(password, salt))
  {
    EncodeRepeatAfterNul(password);
    CycleOfDouble(Encode(password) + [0], 72);
  }

  lemma EncodeRepeatAfterNul(password: string)
    ensures Encode(password + [0 as char] + password) + [0] == (Encode(password) + [0]) + (Encode(password) + [0])
  {
    var e := Encode(password);
    assert Encode([0 as char]) == [0] by { assert [0 as char][1..] == []; }
    EncodeAppend(password, [0 as char]);
    var e0 := Encode(password + [0 as char]);
    assert e0 == e + [0];
    EncodeAppend(password + [0 as char], password);
    assert Encode(password + [0 as char] + password) == e0 + e;
    assert (e0 + e) + [0] == e0 + (e + [0]);
  }

  /** A stored user.  `token` is absent: its declaration is commented out
      of the schema, so nothing written to it is stored. */
  datatype User = User(
    name: string,
    email: string,
    password: PasswordHash,
    subscription: Subscription,
    avatarURL: Option<string>,
    verify: bool,
    verificationToken: Option<string>)

  /** The fields handed to `User.create`; an absent field is `undefined`. */
  datatype Draft = Draft(
    name: Option<string>,
    email: Option<string>,
    password: Option<PasswordHash>,
    avatarURL: Option<string>,
    verificationToken: Option<string>)

  /** Mongoose's `required` validator on a string path: present and non-empty. */
  predicate RequiredText(t: Option<string>) {
    t.Some? && t.value != ""
  }

  /** Which required path failed, in declaration order. */
  datatype SchemaError = NameRequired | EmailRequired | PasswordRequired

  /** Building and validating a document: the required paths are checked,
      `subscription` defaults to starter and `verify` to false. */
  function Instantiate(d: Draft): (r: Result<User, SchemaError>)
    ensures r.Ok? <==> RequiredText(d.name) && RequiredText(d.email) && d.password.Some?
    ensures !RequiredText(d.name) ==> r == Err(NameRequired)
    ensures r.Ok? ==>
      && r.value.name == d.name.value
      && r.value.email == d.email.value
      && r.value.password == d.password.value
      && r.value.avatarURL == d.avatarURL
      && r.value.verificationToken == d.verificationToken
    ensures r.Ok? ==> r.value.subscription == Starter && !r.value.verify
    ensures r.Ok? ==> SchemaValid(r.value)
  {
    if !RequiredText(d.name) then Err(NameRequired)
    else if !RequiredText(d.email) then Err(EmailRequired)
    else if d.password.None? then Err(PasswordRequired)
    else Ok(User(d.name.value, d.email.value, d.password.value, Starter, d.avatarURL, false, d.verificationToken))
  }

  /** What every stored document satisfies: the required string paths are
      non-empty (the hash is always present and the enumeration is a type). */
  predicate SchemaValid(u: User) {
    u.name != "" && u.email != ""
  }

  // ---------------------------------------------------------------------
  // The user collection.

  ghost predicate EmailsUnique(users: map<UserId, User>) {
    forall a, b :: a in users && b in users && users[a].email == users[b].email ==> a == b
  }

  /** Verification tokens are fresh v4 UUIDs, so no two documents share one. */
  ghost predicate TokensUnique(users: map<UserId, User>) {
    forall a, b ::
      (a in users && b in users && users[a].verificationToken.Some? &&
       users[a].verificationToken == users[b].verificationToken) ==> a == b
  }

  ghost predicate CollectionValid(users: map<UserId, User>) {
    && EmailsUnique(users)
    && TokensUnique(users)
    && forall id :: id in users ==> SchemaValid(users[id])
  }

  predicate EmailInUse(users: map<UserId, User>, email: string) {
    exists id :: id in users && users[id].email == email
  }

  predicate TokenHeld(users: map<UserId, User>, token: string) {
    exists id :: id in users && users[id].verificationToken == Some(token)
  }

  /** The unique e-mail index refuses a second document with the same
      e-mail; inserting one that passes keeps the collection valid. */
  lemma InsertKeepsValid(users: map<UserId, User>, id: UserId, u: User)
    requires CollectionValid(users)
    requires id !in users && !EmailInUse(users, u.email) && SchemaValid(u)
    requires u.verificationToken.Some? ==> !TokenHeld(users, u.verificationToken.value)
    ensures CollectionValid(users[id := u])
  {
  }

  /** Rewriting one document without touching its e-mail, and without
      giving it a token another document holds, keeps the collection valid. */
  lemma UpdateKeepsValid(users: map<UserId, User>, id: UserId, u: User)
    requires CollectionValid(users)
    requires id in users && u.email == users[id].email && SchemaValid(u)
    requires u.verificationToken.Some? ==>
      u.verificationToken == users[id].verificationToken || !TokenHeld(users, u.verificationToken.value)
    ensures CollectionValid(users[id := u])
  {
  }
}
