/**
  The PIN authentication logic of the Tirta Alami server
  (src/api/auth/auth.controller.ts), as functions on the two document
  collections. Each request yields an `Outcome`: the HTTP response the
  controller sends and the collections afterwards.

  These functions follow the controller as it is written, including its
  slips: a successful login writes the field `failedPinAttempt` (singular),
  an admin's wrong PIN ends in the catch-all 500, and an id found in neither
  collection gets no response at all.
 */
module AuthSpec {
  import opened Bcrypt

  /** A customer account locks when its failure counter reaches this value. */
  const MaxLoginAttempts: nat := 5

  /** Shortest PIN that set-pin accepts. */
  const MinPinLength: nat := 4

  datatype Option<+T> = None | Some(value: T)

  datatype Role = Admin | Customer

  /**
    A document of the `admin` or the `customer` collection. The key
    (`adminId` or `customerId`) is the document's key in the `Store` maps.
    `failedPinAttempt` is the stray field a successful login writes; it is
    read by nothing. A missing `isLocked` behaves as `false` everywhere in
    the controller (it only ever queries `isLocked: true`), so it is a bool.
   */
  datatype Account = Account(
    name: string,
    hashedPin: Option<string>,
    failedPinAttempts: Option<nat>,
    failedPinAttempt: Option<nat>,
    isLocked: bool)

  /**
    What the controller sends. `Success` carries the `user` object of a
    successful login; its id field is named `adminId` for both roles.
   */
  datatype Response =
    | BadRequest                                          // 400, missing or invalid fields
    | Locked                                              // 400, "Account Locked"
    | PinNotSet                                           // 400, status pin_not_set
    | Unauthorized                                        // 401, wrong PIN
    | Success(role: Role, adminId: string, name: string)  // 200, login succeeded
    | NotFound                                            // 404, id not registered
    | AlreadySet                                          // 400, a PIN is already set
    | PinSet                                              // 200, PIN set successfully
    | Internal                                            // 500, an exception was caught
    | NoResponse                                          // the handler returns without responding

  /** The HTTP status code sent, if any. */
  function Status(r: Response): (code: Option<nat>)
    ensures code.None? <==> r.NoResponse?
    ensures code == Some(200) <==> r.Success? || r.PinSet?
    ensures code == Some(400) <==> r.BadRequest? || r.Locked? || r.PinNotSet? || r.AlreadySet?
    ensures code == Some(401) <==> r.Unauthorized?
    ensures code == Some(404) <==> r.NotFound?
    ensures code == Some(500) <==> r.Internal?
  {
    match r
    case BadRequest | Locked | PinNotSet | AlreadySet => Some(400)
    case Unauthorized => Some(401)
    case Success(_, _, _) | PinSet => Some(200)
    case NotFound => Some(404)
    case Internal => Some(500)
    case NoResponse => None
  }

  /** The two collections: admins keyed by adminId, customers by customerId. */
  datatype Store = Store(admins: map<string, Account>, customers: map<string, Account>)

  datatype Outcome = Outcome(response: Response, store: Store)

  /** JavaScript truthiness of a request field that should be a string. */
  predicate Truthy(field: Option<string>)
  {
    field.Some? && field.value != ""
  }

  /** `s.length` in JavaScript: UTF-16 code units, two for each character above U+FFFF. */
  function JsLength(s: string): (n: nat)
    ensures |s| <= n <= 2 * |s|
    ensures (forall i | 0 <= i < |s| :: s[i] as int <= 0xFFFF) ==> n == |s|
    decreases |s|
  {
    if s == [] then 0
    else
      assert forall i | 0 <= i < |s[1..]| :: s[1..][i] == s[i + 1];
      (if s[0] as int > 0xFFFF then 2 else 1) + JsLength(s[1..])
  }

  /** The UTF-16 encoding of one character: itself, or a surrogate pair above U+FFFF. */
  function Utf16Char(c: char): (units: seq<int>)
    ensures forall u | u in units :: 0 <= u <= 0xFFFF
  {
    var n := c as int;
    if n <= 0xFFFF then [n]
    else [0xD800 + (n - 0x1_0000) / 0x400, 0xDC00 + (n - 0x1_0000) % 0x400]
  }

  /** The UTF-16 encoding of a string, the representation JavaScript strings use. */
  function Utf16(s: string): seq<int>
    decreases |s|
  {
    if s == [] then [] else Utf16Char(s[0]) + Utf16(s[1..])
  }

  /** `JsLength` is the number of UTF-16 code units of the string. */
  lemma {:induction false} JsLengthIsUtf16Length(s: string)
    ensures JsLength(s) == |Utf16(s)|
    decreases |s|
  {
    if s != [] {
      JsLengthIsUtf16Length(s[1..]);
    }
  }

  /** Code units of a concatenation add up. */
  lemma {:induction false} JsLengthAppend(s: string, t: string)
    ensures JsLength(s + t) == JsLength(s) + JsLength(t)
    decreases |s|
  {
    if s == [] {
      assert s + t == t;
    } else {
      assert (s + t)[0] == s[0];
      assert (s + t)[1..] == s[1..] + t;
      JsLengthAppend(s[1..], t);
    }
  }

  /** `!account.hashedPin` is false: a non-empty digest is stored. */
  predicate HasPin(a: Account)
  {
    a.hashedPin.Some? && a.hashedPin.value != ""
  }

  /** `account.failedPinAttempts || 0`. */
  function Attempts(a: Account): nat
  {
    match a.failedPinAttempts
    case Some(n) => n
    case None => 0
  }

  function Collection(s: Store, role: Role): map<string, Account>
  {
    match role
    case Admin => s.admins
    case Customer => s.customers
  }

  /** `updateOne` on the collection of `role`, for the document keyed `id`. */
  function Put(s: Store, role: Role, id: string, a: Account): (t: Store)
    ensures Collection(t, role) == Collection(s, role)[id := a]
    ensures role == Admin ==> t.customers == s.customers
    ensures role == Customer ==> t.admins == s.admins
  {
    match role
    case Admin => s.(admins := s.admins[id := a])
    case Customer => s.(customers := s.customers[id := a])
  }

  /** The admin-first lookup both controllers perform. */
  function Resolve(s: Store, id: string): (r: Option<(Role, Account)>)
    ensures r.None? <==> id !in s.admins && id !in s.customers
    ensures r.Some? ==> id in Collection(s, r.value.0) && Collection(s, r.value.0)[id] == r.value.1
    ensures r.Some? && r.value.0 == Customer ==> id !in s.admins
  {
    if id in s.admins then Some((Admin, s.admins[id]))
    else if id in s.customers then Some((Customer, s.customers[id]))
    else None
  }

  /** The account after one more wrong PIN: the counter goes up, and it locks at the limit. */
  function Failed(a: Account): (b: Account)
    ensures b.failedPinAttempts.Some? && Attempts(b) == Attempts(a) + 1
    ensures b.isLocked <==> a.isLocked || Attempts(b) >= MaxLoginAttempts
    ensures b.(failedPinAttempts := a.failedPinAttempts, isLocked := a.isLocked) == a
  {
    var newAttempts := Attempts(a) + 1;
    if newAttempts >= MaxLoginAttempts then a.(failedPinAttempts := Some(newAttempts), isLocked := true)
    else a.(failedPinAttempts := Some(newAttempts))
  }

  /** The account after a first-time PIN provisioning. */
  function Provisioned(a: Account, pin: string): (b: Account)
    ensures HasPin(b) && Matches(pin, b.hashedPin.value)
    ensures Attempts(b) == 0 && !b.isLocked
    ensures b.name == a.name && b.failedPinAttempt == a.failedPinAttempt
  {
    HashMatches(pin);
    a.(hashedPin := Some(Hash(pin)), failedPinAttempts := Some(0), isLocked := false)
  }

  /** `loginController` with request body `{id, pin}`. */
  function Login(s: Store, id: Option<string>, pin: Option<string>): (o: Outcome)
    ensures o.response.Success? || o.response.Unauthorized? || o.store == s
    ensures o.response.Success? ==> Truthy(id) && o.response.adminId == id.value
    ensures o.response.Unauthorized? ==> Truthy(id) && id.value !in s.admins && id.value in s.customers
  {
    if !Truthy(id) || !Truthy(pin) then Outcome(BadRequest, s)
    else match Resolve(s, id.value)
      case None => Outcome(NoResponse, s)
      case Some((role, a)) =>
        if a.isLocked then Outcome(Locked, s)
        else if !HasPin(a) then Outcome(PinNotSet, s)
        else if Matches(pin.value, a.hashedPin.value) then
          Outcome(Success(role, id.value, a.name), Put(s, role, id.value, a.(failedPinAttempt := Some(0))))
        // the admin branch calls updateOne on the fetched document, which throws
        else if role == Admin then Outcome(Internal, s)
        else Outcome(Unauthorized, Put(s, role, id.value, Failed(a)))
  }

  /** `setPinController` with request body `{id, newPin}`. */
  function SetPin(s: Store, id: Option<string>, newPin: Option<string>): (o: Outcome)
    ensures o.response.PinSet? || o.store == s
    ensures o.response.PinSet? ==>
      Truthy(id) && Truthy(newPin) && JsLength(newPin.value) >= MinPinLength &&
      Resolve(s, id.value).Some? && !HasPin(Resolve(s, id.value).value.1)
  {
    if !Truthy(id) || !Truthy(newPin) || JsLength(newPin.value) < MinPinLength then Outcome(BadRequest, s)
    else match Resolve(s, id.value)
      case None => Outcome(NotFound, s)
      case Some((role, a)) =>
        if HasPin(a) then Outcome(AlreadySet, s)
        else Outcome(PinSet, Put(s, role, id.value, Provisioned(a, newPin.value)))
  }
}
