/** The contact handlers of controllers/contactControllers.js: listing
    with pagination and a favorite filter, and the ownership-checked
    read, create, update and delete of one contact.  The query side is
    pure; the handlers that write are methods of ContactStore, whose
    `rows` is the contact collection in its natural (insertion) order. */
module ContactControllers {
  import opened Json
  import opened FormValidation
  import opened UserModel

  type ContactId = string

  /** A stored contact: the paths of the contact form and its owner. */
  datatype Contact = Contact(
    id: ContactId,
    name: string,
    email: string,
    phone: string,
    favorite: Option<bool>,
    owner: UserId)

  datatype Payload =
    | Listing(contacts: seq<Contact>)
    | Document(contact: Contact)
    | Message(text: string)
    | Failure        // the error handler of app.js: the driver's own message

  datatype Reply = Reply(status: int, payload: Payload)

  const NotFound: string := "Contact not found"
  const AccessDenied: string := "Access denied"
  const MissingFields: string := "Missing fields"
  const Deleted: string := "Contact deleted"
  const MissingFavorite: string := "Missing field favorite"

  // -----------------------------------------------------------------------
  // listContacts: skip, limit and filter.

  /** `req.query` after the defaults: `page` and `limit` as the numbers
      their texts denote, `favorite` as sent. */
  datatype Query = Query(page: Option<int>, limit: Option<int>, favorite: Option<string>)

  function Abs(n: int): nat { if n < 0 then -n else n }

  function Min(a: int, b: int): int { if a < b then a else b }

  /** `(page - 1) * limit` with `page = 1` and `limit = 20` by default. */
  function Skip(q: Query): (r: int)
    ensures q.page.GetOr(1) == 1 ==> r == 0
    ensures q.page.GetOr(1) >= 1 && q.limit.GetOr(20) >= 0 ==> r >= 0
    ensures q.page.GetOr(1) < 1 && q.limit.GetOr(20) > 0 ==> r < 0
  {
    (q.page.GetOr(1) - 1) * q.limit.GetOr(20)
  }

  /** `filter.favorite = favorite === 'true'`, only when the query has one. */
  function FavoriteFilter(q: Query): (f: Option<bool>)
    ensures f.None? <==> q.favorite.None?
    ensures q.favorite == Some("true") ==> f == Some(true)
    ensures q.favorite.Some? && q.favorite != Some("true") ==> f == Some(false)
  {
    match q.favorite
    case None => None
    case Some(t) => Some(t == "true")
  }

  /** The query filter `{ owner, favorite? }` on one document. */
  predicate Selected(c: Contact, owner: UserId, favorite: Option<bool>): (b: bool)
    ensures b ==> c.owner == owner
    ensures favorite.None? ==> (b <==> c.owner == owner)
    ensures favorite.Some? && c.favorite != favorite ==> !b
  {
    c.owner == owner && (favorite.None? || c.favorite == favorite)
  }

  /** `Contact.find(filter)`: the matching documents, in collection order. */
  function Owned(rows: seq<Contact>, owner: UserId, favorite: Option<bool>): (r: seq<Contact>)
    ensures |r| <= |rows|
    ensures forall c :: c in r <==> c in rows && Selected(c, owner, favorite)
  {
    if |rows| == 0 then []
    else
      var rest := Owned(rows[1..], owner, favorite);
      assert forall c :: c in rows <==> c == rows[0] || c in rows[1..];
      if Selected(rows[0], owner, favorite) then [rows[0]] + rest else rest
  }

  /** `.skip(skip).limit(limit)` on a cursor: a limit of 0 means no limit,
      a negative limit means its absolute value. */
  function Window(s: seq<Contact>, skip: nat, limit: int): (r: seq<Contact>)
    ensures |r| == if skip >= |s| then 0 else if limit == 0 then |s| - skip else Min(|s| - skip, Abs(limit))
    ensures forall i :: 0 <= i < |r| ==> skip + i < |s| && r[i] == s[skip + i]
  {
    if skip >= |s| then []
    else if limit == 0 then s[skip..]
    else s[skip..][..Min(|s| - skip, Abs(limit))]
  }

  /** A window holds only entries of the sequence it is cut from. */
  lemma WindowWithin(s: seq<Contact>, skip: nat, limit: int)
    ensures forall c :: c in Window(s, skip, limit) ==> c in s
  {
    var page := Window(s, skip, limit);
    forall c | c in page ensures c in s {
      var i :| 0 <= i < |page| && page[i] == c;
      assert s[skip + i] == c;
    }
  }

  /** `listContacts(userId, query)`.  A negative skip (page 0, or a negative
      limit past the first page) makes the query fail. */
  function ListContacts(rows: seq<Contact>, owner: UserId, q: Query): (r: Option<seq<Contact>>)
    ensures r.None? <==> Skip(q) < 0
    ensures r.Some? ==> |r.value| <= |rows|
    ensures r.Some? ==> forall c :: c in r.value ==> c in rows && Selected(c, owner, FavoriteFilter(q))
    ensures r.Some? && q.limit.GetOr(20) != 0 ==> |r.value| <= Abs(q.limit.GetOr(20))
  {
    if Skip(q) < 0 then None
    else
      var all := Owned(rows, owner, FavoriteFilter(q));
      var page := Window(all, Skip(q), q.limit.GetOr(20));
      WindowWithin(all, Skip(q), q.limit.GetOr(20));
      Some(page)
  }

  /** With the default page and limit, the first twenty of the user's
      contacts are listed. */
  lemma DefaultsListFirstTwenty(rows: seq<Contact>, owner: UserId, favorite: Option<string>)
    ensures ListContacts(rows, owner, Query(None, None, favorite))
            == Some(Owned(rows, owner, FavoriteFilter(Query(None, None, favorite)))[..Min(|Owned(rows, owner, FavoriteFilter(Query(None, None, favorite)))|, 20)])
  {
    var all := Owned(rows, owner, FavoriteFilter(Query(None, None, favorite)));
    var r := ListContacts(rows, owner, Query(None, None, favorite));
    assert r.Some?;
    assert r.value == all[..Min(|all|, 20)];
  }

  /** Every contact of the user that the filter keeps is on exactly the
      page its position says, at the offset its position says. */
  lemma ContactOnItsPage(rows: seq<Contact>, owner: UserId, limit: int, favorite: Option<string>, i: nat)
    requires limit > 0
    requires i < |Owned(rows, owner, FavoriteFilter(Query(None, None, favorite)))|
    ensures var q := Query(Some(i / limit + 1), Some(limit), favorite);
            var r := ListContacts(rows, owner, q);
            && r.Some? && i % limit < |r.value|
            && r.value[i % limit] == Owned(rows, owner, FavoriteFilter(q))[i]
  {
    var q := Query(Some(i / limit + 1), Some(limit), favorite);
    var all := Owned(rows, owner, FavoriteFilter(q));
    assert FavoriteFilter(q) == FavoriteFilter(Query(None, None, favorite));
    var skip, offset := PageStart(i, limit);
    assert Skip(q) == skip;
    var page := Window(all, skip, limit);
    assert page[offset] == all[skip + offset];
  }

  /** Position `i` lies `i % limit` entries into the page that skips
      `(i / limit) * limit` entries. */
  lemma PageStart(i: nat, limit: int) returns (skip: nat, offset: nat)
    requires limit > 0
    ensures skip == (i / limit + 1 - 1) * limit && offset == i % limit
    ensures skip + offset == i && offset < limit
  {
    var k := i / limit;
    assert k >= 0;
    assert k * limit >= 0;
    skip, offset := k * limit, i % limit;
  }

  /** Two consecutive pages of `limit` are the window of `2 * limit` that
      starts at the first: pages neither overlap nor leave gaps. */
  lemma ConsecutivePages(s: seq<Contact>, skip: nat, limit: nat)
    requires limit > 0
    ensures Window(s, skip, limit) + Window(s, skip + limit, limit) == Window(s, skip, 2 * limit)
  {
    var a, b, c := Window(s, skip, limit), Window(s, skip + limit, limit), Window(s, skip, 2 * limit);
    assert |a + b| == |c|;
    forall i | 0 <= i < |c| ensures (a + b)[i] == c[i] {
      if i >= |a| {
        assert |a| == limit;
        assert b[i - limit] == s[skip + limit + (i - limit)];
      }
    }
  }

  // -----------------------------------------------------------------------
  // Mongoose casting of the values written to a contact.

  /** The Boolean cast: true for true, 'true', 1, '1', 'yes'; false for
      false, 'false', 0, '0', 'no'; a cast error otherwise. */
  function CastBool(v: Value): (r: Option<bool>)
    ensures v.Bool? ==> r == Some(v.b)
    ensures v.Str? && Lower(v.s) != v.s ==> r.None?
  {
    match v
    case Bool(b) => Some(b)
    case Str(s) =>
      if s == "true" || s == "1" || s == "yes" then Some(true)
      else if s == "false" || s == "0" || s == "no" then Some(false)
      else None
    case Num(n) => if n == 1 then Some(true) else if n == 0 then Some(false) else None
    case _ => None
  }

  /** Joi converts "TRUE" to true but the Boolean cast refuses it: a body
      the contact form accepts can still fail when it is saved. */
  lemma JoiAcceptsWhatMongooseRefuses()
    ensures BooleanLike(Str("TRUE")) && CastBool(Str("TRUE")).None?
  {
    assert Lower("TRUE") == "true";
    assert Lower("TRUE") != "TRUE";
  }

  /** The lower-case forms Joi accepts cast to the boolean Joi reads. */
  lemma LowerCaseFlagsCast(v: Value)
    requires BooleanLike(v) && (v.Str? ==> Lower(v.s) == v.s)
    ensures CastBool(v) == Some(if v.Bool? then v.b else v.s == "true")
  {
  }

  /** A string path written with `value`: absent keeps `current`, a string
      replaces it, anything else is a cast error. */
  function OverwriteText(current: string, value: Option<Value>): (r: Option<string>)
    ensures value.None? ==> r == Some(current)
    ensures value.Some? ==> (r.Some? <==> value.value.Str?)
    ensures value.Some? && r.Some? ==> r.value == value.value.s
  {
    match value
    case None => Some(current)
    case Some(Str(s)) => Some(s)
    case Some(_) => None
  }

  /** The `favorite` path written with `value`: absent keeps `current`,
      `null` passes through the Boolean cast and clears the flag, any other
      value is cast. */
  function OverwriteFlag(current: Option<bool>, value: Option<Value>): (r: Option<Option<bool>>)
    ensures value.None? ==> r == Some(current)
    ensures value == Some(Null) ==> r == Some(None)
    ensures value.Some? && value != Some(Null) ==> (r.Some? <==> CastBool(value.value).Some?)
    ensures value.Some? && value != Some(Null) && r.Some? ==> r.value == CastBool(value.value)
  {
    match value
    case None => Some(current)
    case Some(Null) => Some(None)
    case Some(v) => if CastBool(v).Some? then Some(CastBool(v)) else None
  }

  /** A null favorite is stored as no flag, not refused. */
  lemma NullFavoriteClears(c: Contact)
    ensures ApplyPatch(c, [("favorite", Null)]) == Some(c.(favorite := None))
  {
    assert Lookup([("favorite", Null)], "favorite") == Some(Null);
  }

  const ContactPaths: seq<string> := ["name", "email", "phone", "favorite", "owner"]

  /** `findByIdAndUpdate(id, body)`: each schema path the body names is
      cast and overwritten, keys that are not paths are dropped, and no
      validator runs.  None is a cast error. */
  function ApplyPatch(c: Contact, body: Body): (r: Option<Contact>)
    ensures r.Some? <==>
      && OverwriteText(c.name, Lookup(body, "name")).Some?
      && OverwriteText(c.email, Lookup(body, "email")).Some?
      && OverwriteText(c.phone, Lookup(body, "phone")).Some?
      && OverwriteFlag(c.favorite, Lookup(body, "favorite")).Some?
      && OverwriteText(c.owner, Lookup(body, "owner")).Some?
    ensures r.Some? ==> r.value.id == c.id
    ensures r.Some? && Lookup(body, "name").None? ==> r.value.name == c.name
    ensures r.Some? && Lookup(body, "email").None? ==> r.value.email == c.email
    ensures r.Some? && Lookup(body, "phone").None? ==> r.value.phone == c.phone
    ensures r.Some? && Lookup(body, "favorite").None? ==> r.value.favorite == c.favorite
    ensures r.Some? && Lookup(body, "owner").None? ==> r.value.owner == c.owner
    ensures r.Some? && Lookup(body, "name").Some? ==> r.value.name == Lookup(body, "name").value.s
    ensures r.Some? && Lookup(body, "email").Some? ==> r.value.email == Lookup(body, "email").value.s
    ensures r.Some? && Lookup(body, "phone").Some? ==> r.value.phone == Lookup(body, "phone").value.s
    ensures r.Some? && Lookup(body, "owner").Some? ==> r.value.owner == Lookup(body, "owner").value.s
    ensures r.Some? && Lookup(body, "favorite").Some? ==>
      r.value.favorite == if Lookup(body, "favorite") == Some(Null) then None else CastBool(Lookup(body, "favorite").value)
  {
    var name := OverwriteText(c.name, Lookup(body, "name"));
    var email := OverwriteText(c.email, Lookup(body, "email"));
    var phone := OverwriteText(c.phone, Lookup(body, "phone"));
    var favorite := OverwriteFlag(c.favorite, Lookup(body, "favorite"));
    var owner := OverwriteText(c.owner, Lookup(body, "owner"));
    if name.None? || email.None? || phone.None? || favorite.None? || owner.None? then None
    else Some(Contact(c.id, name.value, email.value, phone.value, favorite.value, owner.value))
  }

  /** A body naming none of the contact's paths leaves it as it is. */
  lemma UnknownKeysIgnored(c: Contact, body: Body)
    requires forall j :: 0 <= j < |body| ==> body[j].0 !in ContactPaths
    ensures ApplyPatch(c, body) == Some(c)
  {
    assert forall k :: k in ContactPaths ==> Lookup(body, k).None?;
  }

  /** Applying the same update twice is applying it once. */
  lemma PatchIdempotent(c: Contact, body: Body)
    requires ApplyPatch(c, body).Some?
    ensures ApplyPatch(ApplyPatch(c, body).value, body) == ApplyPatch(c, body)
  {
  }

  /** A favorite-only body, once the favorite form accepts it, changes the
      favorite flag and nothing else, or fails to cast. */
  lemma FavoritePatch(c: Contact, body: Body)
    requires Validate(FavoriteSchema, body).None?
    ensures ApplyPatch(c, body) ==
      if CastBool(Lookup(body, "favorite").value).Some?
      then Some(c.(favorite := CastBool(Lookup(body, "favorite").value)))
      else None
  {
    FavoriteSchemaAccepts(body);
    NotNamed(body, ["favorite"], "name");
    NotNamed(body, ["favorite"], "email");
    NotNamed(body, ["favorite"], "phone");
    NotNamed(body, ["favorite"], "owner");
  }

  lemma NotNamed(body: Body, names: seq<string>, k: string)
    requires OnlyKeys(body, names) && k !in names
    ensures Lookup(body, k).None?
  {
  }

  /** `new Contact({ ...req.body, owner })` for a body the contact form
      accepted: the given `owner` wins over any in the body. */
  function NewContact(body: Body, owner: UserId, id: ContactId): (r: Option<Contact>)
    ensures r.Some? <==> OverwriteFlag(None, Lookup(body, "favorite")).Some?
    ensures r.Some? ==>
      && r.value.id == id && r.value.owner == owner
      && r.value.name == TextOf(body, "name") && r.value.email == TextOf(body, "email")
      && r.value.phone == TextOf(body, "phone")
    ensures r.Some? ==> r.value.favorite == OverwriteFlag(None, Lookup(body, "favorite")).value
    ensures r.Some? && Lookup(body, "favorite").Some? && Lookup(body, "favorite") != Some(Null) ==>
      r.value.favorite == CastBool(Lookup(body, "favorite").value)
  {
    var favorite := OverwriteFlag(None, Lookup(body, "favorite"));
    if favorite.None? then None
    else Some(Contact(id, TextOf(body, "name"), TextOf(body, "email"), TextOf(body, "phone"), favorite.value, owner))
  }

  // -----------------------------------------------------------------------
  // The collection and the handlers.

  ghost predicate IdsDistinct(rows: seq<Contact>) {
    forall i, j :: 0 <= i < j < |rows| ==> rows[i].id != rows[j].id
  }

  /** `Contact.findById(id)`: the position of the document, if any. */
  function FindIndex(rows: seq<Contact>, id: ContactId): (r: Option<nat>)
    ensures r.Some? ==> r.value < |rows| && rows[r.value].id == id
    ensures r.None? <==> forall i :: 0 <= i < |rows| ==> rows[i].id != id
  {
    if |rows| == 0 then None
    else if rows[0].id == id then Some(0)
    else
      match FindIndex(rows[1..], id)
      case None =>
        assert forall i :: 1 <= i < |rows| ==> rows[i] == rows[1..][i - 1];
        None
      case Some(k) => Some(k + 1)
  }

  /** Cutting out position `i` keeps every other contact with another id,
      and adds none. */
  lemma RemovedAtKeepsOthers(rows: seq<Contact>, i: nat, id: ContactId)
    requires i < |rows| && rows[i].id == id
    ensures forall c :: c in rows && c.id != id ==> c in rows[..i] + rows[i + 1..]
    ensures forall c :: c in rows[..i] + rows[i + 1..] ==> c in rows
  {
    var rest := rows[..i] + rows[i + 1..];
    forall c | c in rows && c.id != id ensures c in rest {
      var k :| 0 <= k < |rows| && rows[k] == c;
      if k < i { assert rest[k] == c; } else { assert rest[k - 1] == c; }
    }
    forall c | c in rest ensures c in rows {
      var k :| 0 <= k < |rest| && rest[k] == c;
      if k < i { assert rows[k] == c; } else { assert rows[k + 1] == c; }
    }
  }

  class ContactStore {
    var rows: seq<Contact>

    ghost predicate Valid()
      reads this
    {
      IdsDistinct(rows)
    }

    constructor ()
      ensures Valid() && rows == []
    {
      rows := [];
    }

    /** `getListContacts`: reads the collection. */
    method GetListContacts(principal: UserId, q: Query) returns (reply: Reply)
      requires Valid()
      ensures Skip(q) < 0 ==> reply == Reply(500, Failure)
      ensures Skip(q) >= 0 ==>
        reply == Reply(200, Listing(Window(Owned(rows, principal, FavoriteFilter(q)), Skip(q), q.limit.GetOr(20))))
    {
      var listed := ListContacts(rows, principal, q);
      if listed.None? {
        return Reply(500, Failure);
      }
      reply := Reply(200, Listing(listed.value));
    }

    /** `getContact`: 404 for an unknown id, 403 for another user's
        contact, the contact otherwise. */
    method GetContact(principal: UserId, id: ContactId) returns (reply: Reply)
      requires Valid()
      ensures FindIndex(rows, id).None? ==> reply == Reply(404, Message(NotFound))
      ensures forall i :: 0 <= i < |rows| && rows[i].id == id ==>
        reply == if rows[i].owner != principal then Reply(403, Message(AccessDenied))
                 else Reply(200, Document(rows[i]))
    {
      var found := FindIndex(rows, id);
      if found.None? {
        return Reply(404, Message(NotFound));
      }
      var c := rows[found.value];
      if c.owner != principal {
        return Reply(403, Message(AccessDenied));
      }
      reply := Reply(200, Document(c));
    }

    /** `addContactHandler`: validate, then save the body with the principal
        as owner.  `id` is the fresh ObjectId. */
    method AddContact(principal: UserId, body: Body, id: ContactId) returns (reply: Reply)
      requires Valid()
      requires forall i :: 0 <= i < |rows| ==> rows[i].id != id
      modifies this
      ensures Valid()
      ensures Validate(ContactSchema, body).Some? ==>
        && reply == Reply(400, Message("Missing required " + Validate(ContactSchema, body).value.path + " field"))
        && rows == old(rows)
      ensures Validate(ContactSchema, body).None? && NewContact(body, principal, id).None? ==>
        reply == Reply(500, Failure) && rows == old(rows)
      ensures Validate(ContactSchema, body).None? && NewContact(body, principal, id).Some? ==>
        && rows == old(rows) + [NewContact(body, principal, id).value]
        && reply == Reply(201, Document(NewContact(body, principal, id).value))
    {
      var error := Validate(ContactSchema, body);
      if error.Some? {
        return Reply(400, Message("Missing required " + error.value.path + " field"));
      }
      var created := NewContact(body, principal, id);
      if created.None? {
        return Reply(500, Failure);
      }
      rows := rows + [created.value];
      reply := Reply(201, Document(created.value));
    }

    /** The update shared by `updateContactHandler` and
        `updateFavoriteStatusHandler` after their own body check:
        404, then 403, then `findByIdAndUpdate`. */
    method Update(principal: UserId, id: ContactId, body: Body) returns (reply: Reply)
      requires Valid()
      modifies this
      ensures Valid()
      ensures FindIndex(old(rows), id).None? ==> reply == Reply(404, Message(NotFound)) && rows == old(rows)
      ensures forall i :: 0 <= i < |old(rows)| && old(rows)[i].id == id ==>
        if old(rows)[i].owner != principal then
          reply == Reply(403, Message(AccessDenied)) && rows == old(rows)
        else if ApplyPatch(old(rows)[i], body).None? then
          reply == Reply(500, Failure) && rows == old(rows)
        else
          && rows == old(rows)[i := ApplyPatch(old(rows)[i], body).value]
          && reply == Reply(200, Document(ApplyPatch(old(rows)[i], body).value))
    {
      var found := FindIndex(rows, id);
      if found.None? {
        return Reply(404, Message(NotFound));
      }
      var i := found.value;
      if rows[i].owner != principal {
        return Reply(403, Message(AccessDenied));
      }
      var updated := ApplyPatch(rows[i], body);
      if updated.None? {
        return Reply(500, Failure);
      }
      rows := rows[i := updated.value];
      reply := Reply(200, Document(updated.value));
    }

    /** `updateContactHandler`: an empty body is refused before any lookup. */
    method UpdateContact(principal: UserId, id: ContactId, body: Body) returns (reply: Reply)
      requires Valid()
      modifies this
      ensures Valid()
      ensures |body| == 0 ==> reply == Reply(400, Message(MissingFields)) && rows == old(rows)
      ensures |body| > 0 && FindIndex(old(rows), id).None? ==>
        reply == Reply(404, Message(NotFound)) && rows == old(rows)
      ensures forall i :: |body| > 0 && 0 <= i < |old(rows)| && old(rows)[i].id == id ==>
        if old(rows)[i].owner != principal then
          reply == Reply(403, Message(AccessDenied)) && rows == old(rows)
        else if ApplyPatch(old(rows)[i], body).None? then
          reply == Reply(500, Failure) && rows == old(rows)
        else
          && rows == old(rows)[i := ApplyPatch(old(rows)[i], body).value]
          && reply == Reply(200, Document(ApplyPatch(old(rows)[i], body).value))
    {
      if |body| == 0 {
        return Reply(400, Message(MissingFields));
      }
      reply := Update(principal, id, body);
    }

    /** `removeContactHandler`: delete the principal's own contact. */
    method RemoveContact(principal: UserId, id: ContactId) returns (reply: Reply)
      requires Valid()
      modifies this
      ensures Valid()
      ensures FindIndex(old(rows), id).None? ==> reply == Reply(404, Message(NotFound)) && rows == old(rows)
      ensures forall i :: 0 <= i < |old(rows)| && old(rows)[i].id == id ==>
        if old(rows)[i].owner != principal then
          reply == Reply(403, Message(AccessDenied)) && rows == old(rows)
        else
          reply == Reply(200, Message(Deleted)) && rows == old(rows)[..i] + old(rows)[i + 1..]
      ensures forall c :: c in old(rows) && c.id != id ==> c in rows
      ensures forall c :: c in rows ==> c in old(rows)
    {
      var found := FindIndex(rows, id);
      if found.None? {
        return Reply(404, Message(NotFound));
      }
      var i := found.value;
      if rows[i].owner != principal {
        return Reply(403, Message(AccessDenied));
      }
      RemovedAtKeepsOthers(rows, i, id);
      rows := rows[..i] + rows[i + 1..];
      reply := Reply(200, Message(Deleted));
    }

    /** `updateFavoriteStatusHandler`: the favorite form is checked before
        the lookup and the ownership check. */
    method UpdateFavorite(principal: UserId, id: ContactId, body: Body) returns (reply: Reply)
      requires Valid()
      modifies this
      ensures Valid()
      ensures Validate(FavoriteSchema, body).Some? ==> reply == Reply(400, Message(MissingFavorite)) && rows == old(rows)
      ensures Validate(FavoriteSchema, body).None? && FindIndex(old(rows), id).None? ==>
        reply == Reply(404, Message(NotFound)) && rows == old(rows)
      ensures forall i :: Validate(FavoriteSchema, body).None? && 0 <= i < |old(rows)| && old(rows)[i].id == id ==>
        if old(rows)[i].owner != principal then
          reply == Reply(403, Message(AccessDenied)) && rows == old(rows)
        else if CastBool(Lookup(body, "favorite").value).None? then
          reply == Reply(500, Failure) && rows == old(rows)
        else
          var c := old(rows)[i].(favorite := CastBool(Lookup(body, "favorite").value));
          rows == old(rows)[i := c] && reply == Reply(200, Document(c))
    {
      if Validate(FavoriteSchema, body).Some? {
        return Reply(400, Message(MissingFavorite));
      }
      FavoriteSchemaAccepts(body);
      forall c: Contact {
        FavoritePatch(c, body);
      }
      reply := Update(principal, id, body);
    }
  }
}
