/** The identity store behind `UserManager<IdentityUser>`: users keyed by
    their normalised name, their passwords, and external (provider, key)
    logins. Password hashing is replaced by keeping the password itself; the
    password policy is a predicate fixed when the store is made. */
module Identity {
  import opened Wrappers
  import opened Text

  /** `IdentityUser`, reduced to its user name. */
  datatype User = User(userName: string)

  datatype IdentityError =
    | PasswordRejected
    | InvalidUserName
    | DuplicateUserName
    | LoginAlreadyAssociated
    | UserNotFound

  /** `IdentityResult`: `Succeeded` is `Succeeded == true`. */
  datatype IdentityResult = Succeeded | Failed(error: IdentityError)

  /** Identity's default `AllowedUserNameCharacters`. */
  const AllowedUserNameCharacters: string :=
    "abcdefghijklmnopqrstuvwxyzABCDEFGHIJKLMNOPQRSTUVWXYZ0123456789-._@+"

  /** The default user validator: a non-empty name over the allowed characters. */
  predicate ValidUserName(name: string) {
    |name| > 0 && forall i :: 0 <= i < |name| ==> name[i] in AllowedUserNameCharacters
  }

  /** The upper-invariant lookup normaliser: names are compared case-insensitively. */
  function Normalize(name: string): string {
    ToUpperInvariant(name)
  }

  class UserStore {
    /** normalised user name -> user */
    var users: map<string, User>
    /** normalised user name -> password (stands for the stored hash) */
    var passwords: map<string, string>
    /** (login provider, provider key) -> normalised user name */
    var logins: map<(string, string), string>
    /** the configured password validators, taken as one predicate */
    const passwordPolicy: string -> bool

    ghost predicate Valid()
      reads this
    {
      && (forall n :: n in users ==> Normalize(users[n].userName) == n)
      && passwords.Keys <= users.Keys
      && (forall l :: l in logins ==> logins[l] in users)
    }

    constructor (passwordPolicy: string -> bool)
      ensures Valid()
      ensures users == map[] && passwords == map[] && logins == map[]
      ensures this.passwordPolicy == passwordPolicy
    {
      users, passwords, logins := map[], map[], map[];
      this.passwordPolicy := passwordPolicy;
    }

    /** `FindByNameAsync`: lookup by normalised name; None stands for null. */
    function FindByName(name: string): Option<User>
      reads this
    {
      var key := Normalize(name);
      if key in users then Some(users[key]) else None
    }

    /** `FindByLoginAsync`: the user bound to (provider, key), if any. */
    function FindByLogin(provider: string, key: string): Option<User>
      reads this
    {
      if (provider, key) in logins && logins[(provider, key)] in users
      then Some(users[logins[(provider, key)]])
      else None
    }

    /** `CheckPasswordAsync`: the password matches the one stored for the user. */
    predicate CheckPassword(user: User, password: string)
      reads this
    {
      var key := Normalize(user.userName);
      key in passwords && passwords[key] == password
    }

    /** `CreateAsync(user, password)` when `password` is given, `CreateAsync(user)`
        otherwise: the password is validated first, then the user name, then its
        uniqueness; on success the user (and password) is stored. */
    method Create(user: User, password: Option<string>) returns (result: IdentityResult)
      requires Valid()
      modifies this
      ensures Valid()
      ensures result.Succeeded? <==>
        && (password.Some? ==> passwordPolicy(password.value))
        && ValidUserName(user.userName)
        && Normalize(user.userName) !in old(users)
      ensures password.Some? && !passwordPolicy(password.value) ==> result == Failed(PasswordRejected)
      ensures result.Succeeded? ==>
        && users == old(users)[Normalize(user.userName) := user]
        && passwords == (if password.Some?
                         then old(passwords)[Normalize(user.userName) := password.value]
                         else old(passwords))
      ensures !result.Succeeded? ==> users == old(users) && passwords == old(passwords)
      ensures logins == old(logins)
    {
      var key := Normalize(user.userName);
      if password.Some? && !passwordPolicy(password.value) {
        return Failed(PasswordRejected);
      }
      if !ValidUserName(user.userName) {
        return Failed(InvalidUserName);
      }
      if key in users {
        return Failed(DuplicateUserName);
      }
      users := users[key := user];
      if password.Some? {
        passwords := passwords[key := password.value];
      }
      result := Succeeded;
    }

    /** `AddLoginAsync`: bind (provider, key) to a stored user; a pair already
        bound is refused. */
    method AddLogin(user: User, provider: string, key: string) returns (result: IdentityResult)
      requires Valid()
      modifies this
      ensures Valid()
      ensures result.Succeeded? <==> Normalize(user.userName) in old(users) && (provider, key) !in old(logins)
      ensures result.Succeeded? ==> logins == old(logins)[(provider, key) := Normalize(user.userName)]
      ensures !result.Succeeded? ==> logins == old(logins)
      ensures users == old(users) && passwords == old(passwords)
    {
      var name := Normalize(user.userName);
      if name !in users {
        return Failed(UserNotFound);
      }
      if (provider, key) in logins {
        return Failed(LoginAlreadyAssociated);
      }
      logins := logins[(provider, key) := name];
      result := Succeeded;
    }
  }
}
