/**
  Sequences of requests against the two collections: what the lockout
  counter does over many logins, and what no sequence of logins and
  set-pins can ever do (change a provisioned digest, unlock an account that
  has a digest, lock an admin).
 */
module AuthSequences {
  import opened Bcrypt
  import opened AuthSpec
  import AuthProperties

  /** A request to one of the two routes, with its body fields. */
  datatype Request =
    | LoginRequest(id: Option<string>, pin: Option<string>)
    | SetPinRequest(id: Option<string>, newPin: Option<string>)

  function Handle(s: Store, req: Request): Outcome
  {
    match req
    case LoginRequest(id, pin) => Login(s, id, pin)
    case SetPinRequest(id, newPin) => SetPin(s, id, newPin)
  }

  /** The collections after a run of requests, and the responses in order. */
  datatype Trace = Trace(store: Store, responses: seq<Response>)

  /** Serve the requests one after the other, each seeing the writes of those before it. */
  function Run(s: Store, reqs: seq<Request>): (t: Trace)
    ensures |t.responses| == |reqs|
    decreases |reqs|
  {
    if reqs == [] then Trace(s, [])
    else
      var o := Handle(s, reqs[0]);
      var rest := Run(o.store, reqs[1..]);
      Trace(rest.store, [o.response] + rest.responses)
  }

  lemma {:induction false} RunAppend(s: Store, first: seq<Request>, second: seq<Request>)
    ensures var t1 := Run(s, first);
      var t2 := Run(t1.store, second);
      Run(s, first + second) == Trace(t2.store, t1.responses + t2.responses)
    decreases |first|
  {
    if first == [] {
      assert first + second == second;
    } else {
      assert (first + second)[0] == first[0];
      assert (first + second)[1..] == first[1..] + second;
      var o := Handle(s, first[0]);
      var t1 := Run(o.store, first[1..]);
      var t2 := Run(t1.store, second);
      RunAppend(o.store, first[1..], second);
      assert Run(s, first) == Trace(t1.store, [o.response] + t1.responses);
      assert Run(s, first + second) == Trace(t2.store, [o.response] + (t1.responses + t2.responses));
      assert [o.response] + (t1.responses + t2.responses) == ([o.response] + t1.responses) + t2.responses;
    }
  }

  // ------------------------------------------------ what no request can do

  /**
    How one account may differ between an earlier and a later state: its
    name never changes; a stored digest never changes; a locked account that
    has a digest never changes at all; an admin never becomes locked and its
    counter never grows.
   */
  predicate AccountEvolves(role: Role, a: Account, b: Account)
  {
    && b.name == a.name
    && (HasPin(a) ==> b.hashedPin == a.hashedPin)
    && (HasPin(a) && a.isLocked ==> b == a)
    && (role == Admin ==> (b.isLocked ==> a.isLocked) && Attempts(b) <= Attempts(a))
  }

  /** No document is added or removed, and every document evolves as allowed. */
  predicate Evolves(s: Store, t: Store)
  {
    && t.admins.Keys == s.admins.Keys
    && t.customers.Keys == s.customers.Keys
    && (forall k :: k in s.admins ==> AccountEvolves(Admin, s.admins[k], t.admins[k]))
    && (forall k :: k in s.customers ==> AccountEvolves(Customer, s.customers[k], t.customers[k]))
  }

  lemma EvolvesTransitive(s: Store, t: Store, u: Store)
    requires Evolves(s, t) && Evolves(t, u)
    ensures Evolves(s, u)
  {
  }

  /** Every single login or set-pin keeps the collections within what Evolves allows. */
  lemma HandleEvolves(s: Store, req: Request)
    ensures Evolves(s, Handle(s, req).store)
  {
    match req
    case LoginRequest(id, pin) => LoginEvolves(s, id, pin);
    case SetPinRequest(id, newPin) => SetPinEvolves(s, id, newPin);
  }

  lemma LoginEvolves(s: Store, id: Option<string>, pin: Option<string>)
    ensures Evolves(s, Login(s, id, pin).store)
  {
  }

  lemma SetPinEvolves(s: Store, id: Option<string>, newPin: Option<string>)
    ensures Evolves(s, SetPin(s, id, newPin).store)
  {
  }

  /** Any run of requests keeps the collections within what Evolves allows. */
  lemma {:induction false} RunEvolves(s: Store, reqs: seq<Request>)
    ensures Evolves(s, Run(s, reqs).store)
    decreases |reqs|
  {
    if reqs != [] {
      var o := Handle(s, reqs[0]);
      HandleEvolves(s, reqs[0]);
      RunEvolves(o.store, reqs[1..]);
      EvolvesTransitive(s, o.store, Run(s, reqs).store);
    }
  }

  /** A digest, once stored, stays: set-pin is first-time provisioning only and login never writes it. */
  lemma ProvisionedPinIsFinal(s: Store, reqs: seq<Request>, role: Role, id: string)
    requires id in Collection(s, role) && HasPin(Collection(s, role)[id])
    ensures var t := Run(s, reqs).store;
      id in Collection(t, role) && Collection(t, role)[id].hashedPin == Collection(s, role)[id].hashedPin
  {
    RunEvolves(s, reqs);
    var t := Run(s, reqs).store;
    if role == Admin {
      assert AccountEvolves(Admin, s.admins[id], t.admins[id]);
    } else {
      assert AccountEvolves(Customer, s.customers[id], t.customers[id]);
    }
  }

  /**
    A locked account that has a digest is never changed by any request, so
    it is never unlocked. (Set-pin does clear the lock of a locked account
    without a digest.)
   */
  lemma LockIsPermanent(s: Store, reqs: seq<Request>, role: Role, id: string)
    requires id in Collection(s, role)
    requires Collection(s, role)[id].isLocked && HasPin(Collection(s, role)[id])
    ensures var t := Run(s, reqs).store;
      id in Collection(t, role) && Collection(t, role)[id] == Collection(s, role)[id]
  {
    RunEvolves(s, reqs);
    var t := Run(s, reqs).store;
    if role == Admin {
      assert AccountEvolves(Admin, s.admins[id], t.admins[id]);
    } else {
      assert AccountEvolves(Customer, s.customers[id], t.customers[id]);
    }
  }

  /**
    Because the admin wrong-PIN branch throws before writing, no sequence of
    requests ever locks an admin or raises an admin's failure counter.
   */
  lemma AdminIsNeverLocked(s: Store, reqs: seq<Request>, id: string)
    requires id in s.admins && !s.admins[id].isLocked
    ensures var t := Run(s, reqs).store;
      id in t.admins && !t.admins[id].isLocked && Attempts(t.admins[id]) <= Attempts(s.admins[id])
  {
    RunEvolves(s, reqs);
    assert AccountEvolves(Admin, s.admins[id], Run(s, reqs).store.admins[id]);
  }

  // ------------------------------------------------ the customer lockout

  /** Every request is a login for `id` with a non-empty PIN. */
  predicate LoginsOn(reqs: seq<Request>, id: string)
  {
    forall i :: 0 <= i < |reqs| ==> reqs[i].LoginRequest? && reqs[i].id == Some(id) && Truthy(reqs[i].pin)
  }

  /** How many of the requests are logins whose PIN does not match `digest`. */
  function WrongAttempts(reqs: seq<Request>, digest: string): (n: nat)
    ensures n <= |reqs|
    decreases |reqs|
  {
    if reqs == [] then 0
    else
      var r := reqs[0];
      (if r.LoginRequest? && r.pin.Some? && !Matches(r.pin.value, digest) then 1 else 0)
      + WrongAttempts(reqs[1..], digest)
  }

  /** A locked account answers every login with 400 Account Locked, and nothing changes. */
  lemma {:induction false} LockedAccountIgnoresLogins(s: Store, id: string, reqs: seq<Request>, role: Role, a: Account)
    requires id != "" && Resolve(s, id) == Some((role, a)) && a.isLocked
    requires LoginsOn(reqs, id)
    ensures Run(s, reqs).store == s
    ensures forall k :: 0 <= k < |reqs| ==> Run(s, reqs).responses[k] == Locked
    decreases |reqs|
  {
    if reqs != [] {
      assert Handle(s, reqs[0]) == Outcome(Locked, s);
      assert LoginsOn(reqs[1..], id) by {
        forall i | 0 <= i < |reqs[1..]| ensures reqs[1..][i] == reqs[i + 1] { }
      }
      LockedAccountIgnoresLogins(s, id, reqs[1..], role, a);
    }
  }

  /**
    Over a run of logins on one unlocked customer, the counter counts every
    wrong PIN, successful logins in between included, and stops at the limit
    where the account locks. Nothing else in the collections changes except
    this document's counter, lock and stray failedPinAttempt field.
   */
  lemma {:induction false} CustomerFailuresAccumulate(s: Store, id: string, reqs: seq<Request>)
    requires id != "" && id !in s.admins && id in s.customers
    requires HasPin(s.customers[id]) && !s.customers[id].isLocked
    requires Attempts(s.customers[id]) < MaxLoginAttempts
    requires LoginsOn(reqs, id)
    ensures var a := s.customers[id];
      var t := Run(s, reqs).store;
      var n := Attempts(a) + WrongAttempts(reqs, a.hashedPin.value);
      id in t.customers &&
      t == s.(customers := s.customers[id := t.customers[id]]) &&
      Attempts(t.customers[id]) == (if n < MaxLoginAttempts then n else MaxLoginAttempts) &&
      (t.customers[id].isLocked <==> n >= MaxLoginAttempts) &&
      t.customers[id].hashedPin == a.hashedPin && t.customers[id].name == a.name
    decreases |reqs|
  {
    if reqs != [] {
      var a := s.customers[id];
      var o := Handle(s, reqs[0]);
      assert LoginsOn(reqs[1..], id) by {
        forall i | 0 <= i < |reqs[1..]| ensures reqs[1..][i] == reqs[i + 1] { }
      }
      if Matches(reqs[0].pin.value, a.hashedPin.value) {
        assert o.store == s.(customers := s.customers[id := a.(failedPinAttempt := Some(0))]);
        CustomerFailuresAccumulate(o.store, id, reqs[1..]);
      } else {
        var b := Failed(a);
        assert o.store == s.(customers := s.customers[id := b]);
        if b.isLocked {
          LockedAccountIgnoresLogins(o.store, id, reqs[1..], Customer, b);
        } else {
          CustomerFailuresAccumulate(o.store, id, reqs[1..]);
        }
      }
    }
  }

  /**
    Wrong PINs in a row on an unlocked customer: each is answered 401 until
    the counter reaches the limit, and every later one 400 Account Locked.
    The login that triggers the lock is itself answered 401.
   */
  lemma {:induction false} RepeatedWrongPinResponses(s: Store, id: string, reqs: seq<Request>)
    requires id != "" && id !in s.admins && id in s.customers
    requires HasPin(s.customers[id]) && !s.customers[id].isLocked
    requires Attempts(s.customers[id]) < MaxLoginAttempts
    requires LoginsOn(reqs, id)
    requires forall i :: 0 <= i < |reqs| ==> !Matches(reqs[i].pin.value, s.customers[id].hashedPin.value)
    ensures forall k :: 0 <= k < |reqs| ==>
      Run(s, reqs).responses[k] == if Attempts(s.customers[id]) + k < MaxLoginAttempts then Unauthorized else Locked
    decreases |reqs|
  {
    if reqs != [] {
      var a := s.customers[id];
      var o := Handle(s, reqs[0]);
      var b := Failed(a);
      assert o == Outcome(Unauthorized, s.(customers := s.customers[id := b]));
      var rest := reqs[1..];
      assert LoginsOn(rest, id) by {
        forall i | 0 <= i < |rest| ensures rest[i] == reqs[i + 1] { }
      }
      var t := Run(o.store, rest);
      if b.isLocked {
        LockedAccountIgnoresLogins(o.store, id, rest, Customer, b);
      } else {
        assert forall i :: 0 <= i < |rest| ==> !Matches(rest[i].pin.value, b.hashedPin.value) by {
          forall i | 0 <= i < |rest| ensures rest[i] == reqs[i + 1] { }
        }
        RepeatedWrongPinResponses(o.store, id, rest);
      }
      forall k | 0 <= k < |reqs|
        ensures Run(s, reqs).responses[k] == if Attempts(a) + k < MaxLoginAttempts then Unauthorized else Locked
      {
        if k > 0 {
          assert Run(s, reqs).responses[k] == t.responses[k - 1];
        }
      }
    }
  }

  lemma {:induction false} AllWrongCounted(reqs: seq<Request>, digest: string)
    requires forall i :: 0 <= i < |reqs| ==> reqs[i].LoginRequest? && reqs[i].pin.Some?
    requires forall i :: 0 <= i < |reqs| ==> !Matches(reqs[i].pin.value, digest)
    ensures WrongAttempts(reqs, digest) == |reqs|
    decreases |reqs|
  {
    if reqs != [] {
      var rest := reqs[1..];
      forall i | 0 <= i < |rest| ensures rest[i] == reqs[i + 1] { }
      AllWrongCounted(rest, digest);
    }
  }

  /**
    From a clean counter, four wrong PINs in a row leave the customer
    unlocked with a counter of 4; the fifth locks the account. All five are
    answered 401.
   */
  lemma FifthConsecutiveFailureLocks(s: Store, id: string, reqs: seq<Request>)
    requires id != "" && id !in s.admins && id in s.customers
    requires HasPin(s.customers[id]) && !s.customers[id].isLocked && Attempts(s.customers[id]) == 0
    requires LoginsOn(reqs, id)
    requires forall i :: 0 <= i < |reqs| ==> !Matches(reqs[i].pin.value, s.customers[id].hashedPin.value)
    ensures var t := Run(s, reqs);
      id in t.store.customers &&
      (t.store.customers[id].isLocked <==> |reqs| >= MaxLoginAttempts) &&
      Attempts(t.store.customers[id]) == (if |reqs| < MaxLoginAttempts then |reqs| else MaxLoginAttempts) &&
      (forall k :: 0 <= k < |reqs| && k < MaxLoginAttempts ==> t.responses[k] == Unauthorized)
  {
    AllWrongCounted(reqs, s.customers[id].hashedPin.value);
    CustomerFailuresAccumulate(s, id, reqs);
    RepeatedWrongPinResponses(s, id, reqs);
  }

  /**
    A successful login does not reset the counter (it writes the field
    failedPinAttempt instead): four wrong PINs, the right one, then one more
    wrong PIN lock the customer although no five failures were consecutive.
   */
  lemma SuccessDoesNotResetCounter(s: Store, id: string, good: string, bad: string)
    requires id != "" && good != "" && bad != "" && Key(bad) != Key(good)
    requires id !in s.admins && id in s.customers
    requires s.customers[id].hashedPin == Some(Hash(good))
    requires !s.customers[id].isLocked && Attempts(s.customers[id]) == 0
    ensures var w := LoginRequest(Some(id), Some(bad));
      var t := Run(s, [w, w, w, w, LoginRequest(Some(id), Some(good)), w]);
      t.responses[4] == Success(Customer, id, s.customers[id].name) &&
      t.responses[5] == Unauthorized &&
      id in t.store.customers && t.store.customers[id].isLocked
  {
    HashMatches(good);
    MatchesIffSameKey(good, bad);
    FailuresSurviveSuccess(s, id, good, bad, Hash(good));
  }

  /** SuccessDoesNotResetCounter for any stored digest that accepts `good` and refuses `bad`. */
  lemma FailuresSurviveSuccess(s: Store, id: string, good: string, bad: string, digest: string)
    requires id != "" && good != "" && bad != "" && digest != ""
    requires Matches(good, digest) && !Matches(bad, digest)
    requires id !in s.admins && id in s.customers
    requires s.customers[id].hashedPin == Some(digest)
    requires !s.customers[id].isLocked && Attempts(s.customers[id]) == 0
    ensures var w := LoginRequest(Some(id), Some(bad));
      var t := Run(s, [w, w, w, w, LoginRequest(Some(id), Some(good)), w]);
      t.responses[4] == Success(Customer, id, s.customers[id].name) &&
      t.responses[5] == Unauthorized &&
      id in t.store.customers && t.store.customers[id].isLocked
  {
    var w := LoginRequest(Some(id), Some(bad));
    var r := LoginRequest(Some(id), Some(good));
    var first := [w, w, w, w];
    assert LoginsOn(first, id);
    AllWrongCounted(first, digest);
    CustomerFailuresAccumulate(s, id, first);
    var t1 := Run(s, first);
    var c := t1.store.customers[id];
    assert !c.isLocked && Attempts(c) == 4 && c.hashedPin == Some(digest);
    RunAppend(s, first, [r, w]);
    assert first + [r, w] == [w, w, w, w, r, w];
    SuccessThenFailureLocks(t1.store, id, good, bad, digest);
  }

  /** From four failures, a success keeps the count and the next wrong PIN locks. */
  lemma SuccessThenFailureLocks(s: Store, id: string, good: string, bad: string, digest: string)
    requires id != "" && good != "" && bad != ""
    requires Matches(good, digest) && !Matches(bad, digest)
    requires id !in s.admins && id in s.customers
    requires s.customers[id].hashedPin == Some(digest) && digest != ""
    requires !s.customers[id].isLocked && Attempts(s.customers[id]) == 4
    ensures var t := Run(s, [LoginRequest(Some(id), Some(good)), LoginRequest(Some(id), Some(bad))]);
      t.responses == [Success(Customer, id, s.customers[id].name), Unauthorized] &&
      id in t.store.customers && t.store.customers[id].isLocked
  {
    var r, w := LoginRequest(Some(id), Some(good)), LoginRequest(Some(id), Some(bad));
    var c := s.customers[id];
    var o1 := Handle(s, r);
    AuthProperties.CorrectPinSucceeds(s, id, good, Customer, c);
    var c2 := o1.store.customers[id];
    assert Attempts(c2) == 4 && !c2.isLocked && c2.hashedPin == Some(digest);
    var o2 := Handle(o1.store, w);
    AuthProperties.CustomerWrongPinCounts(o1.store, id, bad);
    assert Run(o1.store, [w]) == Trace(o2.store, [Unauthorized]);
    assert [r, w][1..] == [w];
  }
}
