/**
  The two request handlers of src/api/auth/auth.controller.ts, working in
  place on the admin and customer collections. Each handler is proved to
  produce exactly the outcome the functions of AuthSpec describe.
 */
module AuthController {
  import opened Bcrypt
  import opened AuthSpec

  class AuthService {
    /** The `admin` collection, keyed by adminId. */
    var admins: map<string, Account>
    /** The `customer` collection, keyed by customerId. */
    var customers: map<string, Account>

    function State(): Store
      reads this
    {
      Store(admins, customers)
    }

    constructor (admins: map<string, Account>, customers: map<string, Account>)
      ensures State() == Store(admins, customers)
    {
      this.admins := admins;
      this.customers := customers;
    }

    /** `loginController`. */
    method Login(id: Option<string>, pin: Option<string>) returns (res: Response)
      modifies this
      ensures Outcome(res, State()) == AuthSpec.Login(old(State()), id, pin)
      ensures res.Success? || res.Unauthorized? || (admins == old(admins) && customers == old(customers))
      ensures Truthy(id) && id.value in old(admins) ==> customers == old(customers)
    {
      if !Truthy(id) || !Truthy(pin) {
        return BadRequest;
      }
      var key, given := id.value, pin.value;

      if key in admins {
        var admin := admins[key];
        if admin.isLocked {
          return Locked;
        }
        if !HasPin(admin) {
          return PinNotSet;
        }
        var isPinValid := Matches(given, admin.hashedPin.value);
        if isPinValid {
          admins := admins[key := admin.(failedPinAttempt := Some(0))];
          return Success(Admin, key, admin.name);
        } else {
          // updateOne is called on the fetched document rather than on the
          // collection; the call throws and the catch block answers 500
          return Internal;
        }
      }

      if key in customers {
        var customer := customers[key];
        if customer.isLocked {
          return Locked;
        }
        if !HasPin(customer) {
          return PinNotSet;
        }
        var isPinValid := Matches(given, customer.hashedPin.value);
        if isPinValid {
          customers := customers[key := customer.(failedPinAttempt := Some(0))];
          return Success(Customer, key, customer.name);
        } else {
          var newAttempts := Attempts(customer) + 1;
          if newAttempts >= MaxLoginAttempts {
            customers := customers[key := customer.(failedPinAttempts := Some(newAttempts), isLocked := true)];
          } else {
            customers := customers[key := customer.(failedPinAttempts := Some(newAttempts))];
          }
          return Unauthorized;
        }
      }

      // neither collection holds the id: the handler falls off its end
      return NoResponse;
    }

    /** `setPinController`. */
    method SetPin(id: Option<string>, newPin: Option<string>) returns (res: Response)
      modifies this
      ensures Outcome(res, State()) == AuthSpec.SetPin(old(State()), id, newPin)
      ensures res.PinSet? || (admins == old(admins) && customers == old(customers))
      ensures Truthy(id) && id.value in old(admins) ==> customers == old(customers)
    {
      if !Truthy(id) || !Truthy(newPin) || JsLength(newPin.value) < MinPinLength {
        return BadRequest;
      }
      var key := id.value;

      var userDocument: Option<Account> := None;
      var collectionToUpdate: Option<Role> := None;
      if key in admins {
        userDocument := Some(admins[key]);
        collectionToUpdate := Some(Admin);
      } else if key in customers {
        userDocument := Some(customers[key]);
        collectionToUpdate := Some(Customer);
      }

      if userDocument.None? || collectionToUpdate.None? {
        return NotFound;
      }
      if HasPin(userDocument.value) {
        return AlreadySet;
      }

      var hashedPin := Hash(newPin.value);
      var updated := userDocument.value.(hashedPin := Some(hashedPin), failedPinAttempts := Some(0), isLocked := false);
      if collectionToUpdate.value == Admin {
        admins := admins[key := updated];
      } else {
        customers := customers[key := updated];
      }
      return PinSet;
    }
  }
}
