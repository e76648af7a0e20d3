/**
  What one login or set-pin request does, branch by branch: which response
  it sends, which collection it touches and which fields change.
 */
module AuthProperties {
  import opened Bcrypt
  import opened AuthSpec

  // ---------------------------------------------------------------- login

  /** A missing or empty id or PIN gets 400, and nothing changes. */
  lemma LoginRejectsMissingFields(s: Store, id: Option<string>, pin: Option<string>)
    requires !Truthy(id) || !Truthy(pin)
    ensures Login(s, id, pin) == Outcome(BadRequest, s)
    ensures Status(Login(s, id, pin).response) == Some(400)
  {
  }

  /**
    When the id is an admin's, the customer collection is neither read nor
    written: replacing it by any other map changes nothing else in the outcome.
   */
  lemma AdminLoginIgnoresCustomers(s: Store, other: map<string, Account>, id: string, pin: Option<string>)
    requires id in s.admins
    ensures Login(s, Some(id), pin).store.customers == s.customers
    ensures var o := Login(s, Some(id), pin);
      Login(s.(customers := other), Some(id), pin) == Outcome(o.response, o.store.(customers := other))
  {
  }

  /** A locked account gets 400 whatever the PIN, before the pin_not_set check, and nothing changes. */
  lemma LockedAccountIsRefused(s: Store, id: string, pin: string, role: Role, a: Account)
    requires id != "" && pin != ""
    requires Resolve(s, id) == Some((role, a)) && a.isLocked
    ensures Login(s, Some(id), Some(pin)) == Outcome(Locked, s)
  {
  }

  /** An unlocked account without a PIN gets pin_not_set, and nothing changes. */
  lemma UnprovisionedAccountIsRefused(s: Store, id: string, pin: string, role: Role, a: Account)
    requires id != "" && pin != ""
    requires Resolve(s, id) == Some((role, a)) && !a.isLocked && !HasPin(a)
    ensures Login(s, Some(id), Some(pin)) == Outcome(PinNotSet, s)
  {
  }

  /**
    A customer's wrong PIN gets 401 and bumps the counter (a missing counter
    counting as 0); the account locks exactly when the new count reaches the
    limit; no other field and no other document changes.
   */
  lemma CustomerWrongPinCounts(s: Store, id: string, pin: string)
    requires id != "" && pin != ""
    requires id !in s.admins && id in s.customers
    requires !s.customers[id].isLocked && HasPin(s.customers[id])
    requires !Matches(pin, s.customers[id].hashedPin.value)
    ensures var o := Login(s, Some(id), Some(pin));
      var a := s.customers[id];
      o.response == Unauthorized && o.store.admins == s.admins &&
      id in o.store.customers && o.store.customers == s.customers[id := o.store.customers[id]] &&
      var b := o.store.customers[id];
      b.failedPinAttempts == Some(Attempts(a) + 1) &&
      (b.isLocked <==> Attempts(a) + 1 >= MaxLoginAttempts) &&
      b.name == a.name && b.hashedPin == a.hashedPin && b.failedPinAttempt == a.failedPinAttempt
  {
  }

  /**
    An admin's wrong PIN ends in the catch block: 500, and neither the
    counter nor the lock of the admin is touched.
   */
  lemma AdminWrongPinFails(s: Store, id: string, pin: string)
    requires id != "" && pin != ""
    requires id in s.admins && !s.admins[id].isLocked && HasPin(s.admins[id])
    requires !Matches(pin, s.admins[id].hashedPin.value)
    ensures Login(s, Some(id), Some(pin)) == Outcome(Internal, s)
    ensures Status(Login(s, Some(id), Some(pin)).response) == Some(500)
  {
  }

  /**
    The right PIN gets 200 with the role, the id (under the key adminId for
    both roles) and the name. The only write is failedPinAttempt := 0: the
    counter failedPinAttempts, the lock and the digest keep their values.
   */
  lemma CorrectPinSucceeds(s: Store, id: string, pin: string, role: Role, a: Account)
    requires id != "" && pin != ""
    requires Resolve(s, id) == Some((role, a)) && !a.isLocked && HasPin(a)
    requires Matches(pin, a.hashedPin.value)
    ensures var o := Login(s, Some(id), Some(pin));
      o.response == Success(role, id, a.name) &&
      id in Collection(o.store, role) &&
      Collection(o.store, role) == Collection(s, role)[id := Collection(o.store, role)[id]] &&
      (role == Admin ==> o.store.customers == s.customers) &&
      (role == Customer ==> o.store.admins == s.admins) &&
      var b := Collection(o.store, role)[id];
      b.failedPinAttempt == Some(0) &&
      b.failedPinAttempts == a.failedPinAttempts && Attempts(b) == Attempts(a) &&
      b.isLocked == a.isLocked && b.hashedPin == a.hashedPin && b.name == a.name
  {
  }

  /** An id in neither collection: no response at all, and nothing changes. */
  lemma UnknownIdGetsNoResponse(s: Store, id: string, pin: string)
    requires id != "" && pin != ""
    requires id !in s.admins && id !in s.customers
    ensures Login(s, Some(id), Some(pin)) == Outcome(NoResponse, s)
    ensures Status(Login(s, Some(id), Some(pin)).response).None?
  {
  }

  /** Login never adds or removes a document, renames one or changes a digest, and never unlocks. */
  lemma LoginKeepsRegistrations(s: Store, id: Option<string>, pin: Option<string>)
    ensures var t := Login(s, id, pin).store;
      t.admins.Keys == s.admins.Keys && t.customers.Keys == s.customers.Keys
    ensures var t := Login(s, id, pin).store;
      forall k :: k in s.admins ==>
        t.admins[k].name == s.admins[k].name && t.admins[k].hashedPin == s.admins[k].hashedPin &&
        (s.admins[k].isLocked ==> t.admins[k].isLocked)
    ensures var t := Login(s, id, pin).store;
      forall k :: k in s.customers ==>
        t.customers[k].name == s.customers[k].name && t.customers[k].hashedPin == s.customers[k].hashedPin &&
        (s.customers[k].isLocked ==> t.customers[k].isLocked)
  {
  }

  // -------------------------------------------------------------- set-pin

  /**
    A missing id, or a missing PIN or one shorter than four UTF-16 code
    units, gets 400; nothing changes.
   */
  lemma SetPinRejectsInvalidInput(s: Store, id: Option<string>, newPin: Option<string>)
    requires !Truthy(id) || newPin.None? || JsLength(newPin.value) < MinPinLength
    ensures SetPin(s, id, newPin) == Outcome(BadRequest, s)
  {
  }

  /**
    The length test counts UTF-16 code units: two characters above U+FFFF
    already make a PIN of length 4, which is provisioned.
   */
  lemma SetPinCountsCodeUnits(s: Store, id: string, role: Role, a: Account)
    requires id != "" && Resolve(s, id) == Some((role, a)) && !HasPin(a)
    ensures |"\U{1F600}\U{1F600}"| == 2 && JsLength("\U{1F600}\U{1F600}") == 4
    ensures SetPin(s, Some(id), Some("\U{1F600}\U{1F600}")).response == PinSet
  {
  }

  /** When the id is an admin's, set-pin neither reads nor writes the customer collection. */
  lemma AdminSetPinIgnoresCustomers(s: Store, other: map<string, Account>, id: string, newPin: Option<string>)
    requires id in s.admins
    ensures SetPin(s, Some(id), newPin).store.customers == s.customers
    ensures var o := SetPin(s, Some(id), newPin);
      SetPin(s.(customers := other), Some(id), newPin) == Outcome(o.response, o.store.(customers := other))
  {
  }

  /** An id in neither collection gets 404; nothing changes. */
  lemma SetPinUnknownId(s: Store, id: string, newPin: string)
    requires id != "" && JsLength(newPin) >= MinPinLength
    requires id !in s.admins && id !in s.customers
    ensures SetPin(s, Some(id), Some(newPin)) == Outcome(NotFound, s)
  {
  }

  /** A record that already holds a digest gets 400 and keeps its digest; nothing changes. */
  lemma SetPinRefusesReprovisioning(s: Store, id: string, newPin: string, role: Role, a: Account)
    requires id != "" && JsLength(newPin) >= MinPinLength
    requires Resolve(s, id) == Some((role, a)) && HasPin(a)
    ensures SetPin(s, Some(id), Some(newPin)) == Outcome(AlreadySet, s)
  {
  }

  /**
    A successful set-pin stores the digest of the new PIN, zeroes the counter
    and clears the lock, on the matched record only (the admin one when the
    id is in both collections), and answers 200.
   */
  lemma SetPinProvisions(s: Store, id: string, newPin: string, role: Role, a: Account)
    requires id != "" && JsLength(newPin) >= MinPinLength
    requires Resolve(s, id) == Some((role, a)) && !HasPin(a)
    ensures var o := SetPin(s, Some(id), Some(newPin));
      o.response == PinSet &&
      (id in s.admins ==> role == Admin) &&
      id in Collection(o.store, role) &&
      Collection(o.store, role) == Collection(s, role)[id := Collection(o.store, role)[id]] &&
      (role == Admin ==> o.store.customers == s.customers) &&
      (role == Customer ==> o.store.admins == s.admins) &&
      var b := Collection(o.store, role)[id];
      b.hashedPin == Some(Hash(newPin)) && b.failedPinAttempts == Some(0) && !b.isLocked &&
      b.name == a.name && b.failedPinAttempt == a.failedPinAttempt
  {
  }

  /**
    Set-pin does not look at the lock: a locked account that has no PIN is
    provisioned and unlocked.
   */
  lemma SetPinClearsLockOfUnprovisioned(s: Store, id: string, newPin: string, role: Role, a: Account)
    requires id != "" && JsLength(newPin) >= MinPinLength
    requires Resolve(s, id) == Some((role, a)) && a.isLocked && !HasPin(a)
    ensures var o := SetPin(s, Some(id), Some(newPin));
      o.response == PinSet && id in Collection(o.store, role) && !Collection(o.store, role)[id].isLocked
  {
    SetPinProvisions(s, id, newPin, role, a);
  }

  /**
    Provisioning then logging in: a PIN whose first 72 UTF-8 bytes are those
    of the provisioned one succeeds (the same PIN in particular). Any other
    PIN is refused: with 401 and a counter of 1 for a customer, with the 500
    of the admin branch for an admin.
   */
  lemma LoginAfterSetPin(s: Store, id: string, pin: string, attempt: string, role: Role, a: Account)
    requires id != "" && JsLength(pin) >= MinPinLength && attempt != ""
    requires Resolve(s, id) == Some((role, a)) && !HasPin(a)
    ensures var t := SetPin(s, Some(id), Some(pin)).store;
      var o := Login(t, Some(id), Some(attempt));
      (Key(attempt) == Key(pin) ==> o.response == Success(role, id, a.name)) &&
      (Key(attempt) != Key(pin) && role == Customer ==>
         o.response == Unauthorized && id in o.store.customers && Attempts(o.store.customers[id]) == 1) &&
      (Key(attempt) != Key(pin) && role == Admin ==> o.response == Internal && o.store == t)
  {
    var t := SetPin(s, Some(id), Some(pin)).store;
    var b := Provisioned(a, pin);
    assert t == Put(s, role, id, b);
    assert Resolve(t, id) == Some((role, b));
    MatchesIffSameKey(pin, attempt);
  }

  /** Scenario: admin A1 holding the digest of 1234. */
  lemma AdminScenario(s: Store)
    requires "A1" in s.admins && !s.admins["A1"].isLocked
    requires s.admins["A1"].hashedPin == Some(Hash("1234"))
    ensures Login(s, Some("A1"), Some("1234")).response == Success(Admin, "A1", s.admins["A1"].name)
    ensures Login(s, Some("A1"), Some("0000")) == Outcome(Internal, s)
  {
    HashMatches("1234");
    ShortPinFits("1234");
    ShortPinFits("0000");
    HashRejectsOther("1234", "0000");
  }
}
