/** The frontend's user helpers: the defaulted copy of a user object, the validity test, and the
    merge into the user cached in the browser's local storage. JavaScript values are modelled
    with their truthiness and property lookup. */
module UserUtils {
  /** A JavaScript value as far as these helpers can tell values apart; numbers are integers
      or NaN. */
  datatype JsValue = Undefined | Null | Bool(b: bool) | Num(n: int) | NaN | Str(s: string) | Obj(fields: map<string, JsValue>)

  /** JavaScript truthiness: undefined, null, false, 0, NaN and "" are falsy. */
  predicate Truthy(v: JsValue) {
    match v
    case Undefined => false
    case Null => false
    case Bool(b) => b
    case Num(n) => n != 0
    case NaN => false
    case Str(s) => s != ""
    case Obj(_) => true
  }

  /** The typeof operator. */
  function TypeOf(v: JsValue): (t: string)
    ensures t == "object" <==> v.Null? || v.Obj?
  {
    match v
    case Undefined => "undefined"
    case Null => "object"
    case Bool(_) => "boolean"
    case Num(_) => "number"
    case NaN => "number"
    case Str(_) => "string"
    case Obj(_) => "object"
  }

  /** Reading a named property (none of the names read here is "length" or an index) of a value
      that is neither null nor undefined. */
  function Get(v: JsValue, key: string): (r: JsValue)
    requires !v.Undefined? && !v.Null?
    ensures v.Obj? && key in v.fields ==> r == v.fields[key]
    ensures !(v.Obj? && key in v.fields) ==> r.Undefined?
  {
    if v.Obj? && key in v.fields then v.fields[key] else Undefined
  }

  /** The || operator: the left operand when truthy, else the right one. */
  function Or(a: JsValue, b: JsValue): (r: JsValue)
    ensures Truthy(a) ==> r == a
    ensures !Truthy(a) ==> r == b
  {
    if Truthy(a) then a else b
  }

  /** The seven keys of a safe user object. */
  const SafeKeys: set<string> := {"id", "firstName", "lastName", "email", "profilePicture", "bio", "role"}

  /** The default of each safe key: "User" for the first name, "" for the others. */
  function Default(key: string): (d: JsValue)
    ensures Truthy(d) <==> key == "firstName"
  {
    if key == "firstName" then Str("User") else Str("")
  }

  /** getSafeUserInfo: exactly the seven keys; each holds the user's value when that is truthy
      and the default otherwise, and a falsy user gives all the defaults. */
  function SafeUserInfo(user: JsValue): (r: JsValue)
    ensures r.Obj? && r.fields.Keys == SafeKeys
    ensures forall k :: k in SafeKeys ==>
              r.fields[k] == if Truthy(user) && Truthy(Get(user, k)) then Get(user, k) else Default(k)
    ensures Truthy(r.fields["firstName"])
  {
    if !Truthy(user) then
      Obj(map["id" := Str(""), "firstName" := Str("User"), "lastName" := Str(""), "email" := Str(""),
              "profilePicture" := Str(""), "bio" := Str(""), "role" := Str("")])
    else
      Obj(map["id" := Or(Get(user, "id"), Str("")),
              "firstName" := Or(Get(user, "firstName"), Str("User")),
              "lastName" := Or(Get(user, "lastName"), Str("")),
              "email" := Or(Get(user, "email"), Str("")),
              "profilePicture" := Or(Get(user, "profilePicture"), Str("")),
              "bio" := Or(Get(user, "bio"), Str("")),
              "role" := Or(Get(user, "role"), Str(""))])
  }

  /** Applying getSafeUserInfo to its own answer changes nothing. */
  lemma SafeUserInfoIdempotent(user: JsValue)
    ensures SafeUserInfo(SafeUserInfo(user)) == SafeUserInfo(user)
  {
    var once := SafeUserInfo(user);
    var twice := SafeUserInfo(once);
    forall k | k in SafeKeys ensures twice.fields[k] == once.fields[k] {
      assert Get(once, k) == once.fields[k];
    }
  }

  /** isValidUser: the && chain's value, which is the user itself when falsy, else false when it
      is not an object, else whether its id is truthy. */
  function IsValidUser(user: JsValue): (r: JsValue)
    ensures Truthy(r) <==> user.Obj? && Truthy(Get(user, "id"))
    ensures r.Bool? || r == user
  {
    if !Truthy(user) then user
    else if TypeOf(user) != "object" then Bool(false)
    else Bool(Truthy(Get(user, "id")))
  }

  /** The safe copy of a user passes the validity test exactly when the user had a truthy id. */
  lemma SafeUserValidIffId(user: JsValue)
    ensures Truthy(IsValidUser(SafeUserInfo(user))) <==> Truthy(user) && Truthy(Get(user, "id"))
  {
    assert "id" in SafeKeys;
  }

  /** The own enumerable properties object spread copies; spreading any other value copies
      nothing here (a string's index keys are not modelled). */
  function OwnProperties(v: JsValue): (m: map<string, JsValue>)
    ensures v.Obj? ==> m == v.fields
    ensures !v.Obj? && !v.Str? ==> m == map[]
  {
    if v.Obj? then v.fields else map[]
  }

  /** { ...base, ...updates }: every key of either; the update's value wins. */
  function Spread(base: map<string, JsValue>, updates: map<string, JsValue>): (m: map<string, JsValue>)
    ensures m.Keys == base.Keys + updates.Keys
    ensures forall k :: k in updates ==> m[k] == updates[k]
    ensures forall k :: k in base && k !in updates ==> m[k] == base[k]
  {
    map k | k in base.Keys + updates.Keys :: if k in updates then updates[k] else base[k]
  }

  /** Spreading the same updates twice is spreading them once. */
  lemma SpreadIdempotent(base: map<string, JsValue>, updates: map<string, JsValue>)
    ensures Spread(Spread(base, updates), updates) == Spread(base, updates)
  {
    var once := Spread(base, updates);
    assert Spread(once, updates).Keys == once.Keys;
  }

  /** The cache over local storage's "user" entry, held as the value JSON.parse gives for it
      (null when the entry is absent or does not parse). */
  class UserCache {
    var stored: JsValue

    constructor (stored: JsValue)
      ensures this.stored == stored
    {
      this.stored := stored;
    }

    /** getCachedUser. */
    function CachedUser(): JsValue
      reads this
    {
      stored
    }

    /** updateCachedUser: the cached user (or an empty object when there is none) with the
        update's keys overriding; the merged object is stored and returned. */
    method UpdateCachedUser(updates: JsValue) returns (r: JsValue)
      modifies this
      ensures r == Obj(Spread(OwnProperties(Or(old(stored), Obj(map[]))), OwnProperties(updates)))
      ensures stored == r
      ensures forall k :: k in OwnProperties(updates) ==> k in r.fields && r.fields[k] == OwnProperties(updates)[k]
      ensures old(stored).Obj? ==>
                forall k :: k in old(stored).fields && k !in OwnProperties(updates) ==>
                  k in r.fields && r.fields[k] == old(stored).fields[k]
    {
      var currentUser := Or(CachedUser(), Obj(map[]));
      r := Obj(Spread(OwnProperties(currentUser), OwnProperties(updates)));
      stored := r;
    }
  }
}
