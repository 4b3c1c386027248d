/** Values as they arrive in a parsed request: JSON bodies, with the
    failure-carrying wrappers the rest of the model uses. */
module Json {

  datatype Option<T> = None | Some(value: T) {
    function GetOr(default: T): T {
      match this
      case Some(v) => v
      case None => default
    }
  }

  datatype Result<T, E> = Ok(value: T) | Err(error: E)

  /** A JSON value after `express.json()`; arrays and objects are opaque. */
  datatype Value = Str(s: string) | Bool(b: bool) | Num(n: int) | Null | Compound

  /** A parsed JSON object: its key/value pairs in the order they were
      written.  With a repeated key the last occurrence carries the value,
      as JSON.parse does.  (The order in which JavaScript then lists the
      keys is `FormValidation.KeyOrderLe`.) */
  type Body = seq<(string, Value)>

  /** `body[key]`: the value of the last occurrence of `key`, or None
      (JavaScript `undefined`). */
  function Lookup(body: Body, key: string): (r: Option<Value>)
    ensures r.None? <==> forall i :: 0 <= i < |body| ==> body[i].0 != key
    ensures r.Some? ==> exists i :: 0 <= i < |body| && body[i] == (key, r.value)
                                    && forall j :: i < j < |body| ==> body[j].0 != key
  {
    if |body| == 0 then None
    else if body[|body| - 1].0 == key then Some(body[|body| - 1].1)
    else
      Lookup(body[..|body| - 1], key)
  }

  /** The string a field holds, or "" when it is absent or not a string. */
  function TextOf(body: Body, key: string): string {
    match Lookup(body, key)
    case Some(Str(s)) => s
    case _ => ""
  }

  /** `!body[key]` in JavaScript: absent, "", false, 0 or null. */
  predicate Falsy(v: Option<Value>): (b: bool)
    ensures v.None? || v == Some(Null) ==> b
    ensures v == Some(Compound) ==> !b
    ensures v.Some? && v.value.Str? && v.value.s != "" ==> !b
  {
    match v
    case None => true
    case Some(Str(s)) => s == ""
    case Some(Bool(b)) => !b
    case Some(Num(n)) => n == 0
    case Some(Null) => true
    case Some(Compound) => false
  }

  /** `{ k1: body.k1, ..., kn: body.kn }`: an object literal built from the
      named fields, where a field the body lacks stays `undefined` and is
      therefore absent. */
  function Pick(body: Body, keys: seq<string>): (r: Body)
    ensures forall k :: k in keys ==> Lookup(r, k) == Lookup(body, k)
    ensures forall i :: 0 <= i < |r| ==> r[i].0 in keys
  {
    if |keys| == 0 then []
    else
      var rest := Pick(body, keys[..|keys| - 1]);
      var k := keys[|keys| - 1];
      var r := match Lookup(body, k)
               case None => rest
               case Some(v) => rest + [(k, v)];
      forall q | q in keys ensures Lookup(r, q) == Lookup(body, q) {
        if Lookup(body, k).Some? {
          LookupAppended(rest, k, Lookup(body, k).value, q);
        }
        if q != k {
          assert q in keys[..|keys| - 1];
        } else if r == rest && k !in keys[..|keys| - 1] {
          assert forall i :: 0 <= i < |rest| ==> rest[i].0 != k;
        }
      }
      r
  }

  /** Appending a pair makes it the one `Lookup` finds for its key. */
  lemma LookupAppended(body: Body, k: string, v: Value, q: string)
    ensures Lookup(body + [(k, v)], q) == if q == k then Some(v) else Lookup(body, q)
  {
    assert (body + [(k, v)])[..|body|] == body;
  }
}
