/**
  `AuthenticationSystem` of server.py: registration and login over the
  `users` table.

  The table has `email` as its primary key, so it is modelled as a map from
  email to the rest of the row. The SQL statements, the cursor and `commit`
  become reads and writes of that map.
 */
module Authentication {
  import opened Users

  /** One row of the `users` table, without its key (the email). */
  datatype Account = Account(passwordHash: string, isActive: bool, activationCode: Option<string>)

  /** The contents of the `users` table, keyed by email. */
  type Store = map<string, Account>

  /** The `(success, message)` pair both operations return. */
  datatype Outcome = Outcome(success: bool, message: string)

  const EMAIL_ALREADY_REGISTERED := "Email already registered"
  const REGISTRATION_SUCCESSFUL := "Registration successful"
  const AUTHENTICATION_SUCCESSFUL := "Authentication successful"
  const USER_NOT_ACTIVE := "User is not active"
  const INVALID_CREDENTIALS := "Invalid email or password"

  /** `string.ascii_lowercase`, `string.ascii_uppercase` and `string.digits`. */
  const LOWERCASE := "abcdefghijklmnopqrstuvwxyz"
  const UPPERCASE := "ABCDEFGHIJKLMNOPQRSTUVWXYZ"
  const DIGITS := "0123456789"
  /** `string.ascii_letters + string.digits`, the alphabet of activation codes. */
  const CODE_ALPHABET := LOWERCASE + UPPERCASE + DIGITS
  const CODE_LENGTH := 20

  predicate IsAsciiAlphanumeric(c: char)
  {
    'a' <= c <= 'z' || 'A' <= c <= 'Z' || '0' <= c <= '9'
  }

  /** A string `_generate_activation_code` can return. */
  predicate IsActivationCode(code: string)
  {
    |code| == CODE_LENGTH && forall i :: 0 <= i < |code| ==> code[i] in CODE_ALPHABET
  }

  lemma LowercaseIsRange(c: char)
    ensures c in LOWERCASE <==> 'a' <= c <= 'z'
  {
  }

  lemma UppercaseIsRange(c: char)
    ensures c in UPPERCASE <==> 'A' <= c <= 'Z'
  {
  }

  lemma DigitsIsRange(c: char)
    ensures c in DIGITS <==> '0' <= c <= '9'
  {
  }

  /** The alphabet of activation codes is exactly the 62 ASCII letters and digits. */
  lemma CodeAlphabetIsAlphanumeric(c: char)
    ensures |CODE_ALPHABET| == 62
    ensures c in CODE_ALPHABET <==> IsAsciiAlphanumeric(c)
  {
    // One range per part keeps the proof cheap on every solver seed.
    LowercaseIsRange(c);
    UppercaseIsRange(c);
    DigitsIsRange(c);
  }

  /** True when no account in the store is active. */
  ghost predicate AllInactive(users: Store)
  {
    forall e :: e in users ==> !users[e].isActive
  }

  /** True when every inactive account holds a well-formed activation code. */
  ghost predicate InactiveHaveCodes(users: Store)
  {
    forall e :: e in users && !users[e].isActive ==>
      users[e].activationCode.Some? && IsActivationCode(users[e].activationCode.value)
  }

  /**
    `register` as a transition of the store, given the activation code that
    was drawn: a check for the key, then one insert of an inactive row.
   */
  function RegisterIn(hash: Hasher, users: Store, email: string, password: string, code: string)
    : (res: (Outcome, Store))
    ensures email in users ==> res == (Outcome(false, EMAIL_ALREADY_REGISTERED), users)
    ensures email !in users ==>
      && res.0 == Outcome(true, REGISTRATION_SUCCESSFUL)
      && email in res.1
      && res.1[email] == Account(hash(password), false, Some(code))
    ensures res.1.Keys == users.Keys + {email}
    ensures forall e :: e in users ==> res.1[e] == users[e]
    ensures |res.1| == |users| + (if res.0.success then 1 else 0)
  {
    if email in users then
      (Outcome(false, EMAIL_ALREADY_REGISTERED), users)
    else
      var user := NewUser(hash, email, password, isActive := false, activationCode := Some(code));
      (Outcome(true, REGISTRATION_SUCCESSFUL),
       users[user.email := Account(user.passwordHash, user.isActive, user.activationCode)])
  }

  /**
    `authenticate` as a decision over the store. The row read back is turned
    into a `User`, whose constructor hashes the stored digest again, so the
    password check compares `hash(password)` with `hash(storedHash)`.
   */
  function AuthenticateIn(hash: Hasher, users: Store, email: string, password: string): (r: Outcome)
    ensures r in {Outcome(false, INVALID_CREDENTIALS), Outcome(false, USER_NOT_ACTIVE),
                  Outcome(true, AUTHENTICATION_SUCCESSFUL)}
    ensures r.success <==>
      email in users && users[email].isActive && hash(password) == hash(users[email].passwordHash)
    ensures r.message == INVALID_CREDENTIALS <==> email !in users
  {
    if email !in users then
      Outcome(false, INVALID_CREDENTIALS)
    else if users[email].isActive && hash(password) == hash(users[email].passwordHash) then
      Outcome(true, AUTHENTICATION_SUCCESSFUL)
    else
      Outcome(false, USER_NOT_ACTIVE)
  }

  /** A second registration of an email always fails and changes nothing. */
  lemma RegisterTwiceFails(hash: Hasher, users: Store, email: string,
                           password: string, code: string, password': string, code': string)
    ensures var after := RegisterIn(hash, users, email, password, code).1;
            RegisterIn(hash, after, email, password', code') == (Outcome(false, EMAIL_ALREADY_REGISTERED), after)
  {
  }

  /** Registration never creates an active account. */
  lemma RegisterKeepsAllInactive(hash: Hasher, users: Store, email: string, password: string, code: string)
    requires AllInactive(users)
    ensures AllInactive(RegisterIn(hash, users, email, password, code).1)
  {
  }

  /** Registering with a drawn activation code keeps every inactive account's code well formed. */
  lemma RegisterKeepsCodes(hash: Hasher, users: Store, email: string, password: string, code: string)
    requires InactiveHaveCodes(users) && IsActivationCode(code)
    ensures InactiveHaveCodes(RegisterIn(hash, users, email, password, code).1)
  {
  }

  /** With every account inactive, no login succeeds. */
  lemma AllInactiveRejectsLogins(hash: Hasher, users: Store, email: string, password: string)
    requires AllInactive(users)
    ensures !AuthenticateIn(hash, users, email, password).success
  {
  }

  /** A login for an email with no row fails with "Invalid email or password". */
  lemma UnknownEmailIsInvalid(hash: Hasher, users: Store, email: string, password: string)
    requires email !in users
    ensures AuthenticateIn(hash, users, email, password) == Outcome(false, INVALID_CREDENTIALS)
  {
  }

  /** Every failure on a found row carries the message "User is not active". */
  lemma FoundFailureSaysNotActive(hash: Hasher, users: Store, email: string, password: string)
    requires email in users
    ensures var r := AuthenticateIn(hash, users, email, password);
            !r.success ==> r == Outcome(false, USER_NOT_ACTIVE)
  {
  }

  /** On an inactive row the password is never looked at. */
  lemma InactiveIgnoresPassword(hash: Hasher, users: Store, email: string, password: string, password': string)
    requires email in users && !users[email].isActive
    ensures AuthenticateIn(hash, users, email, password) == AuthenticateIn(hash, users, email, password')
    ensures AuthenticateIn(hash, users, email, password) == Outcome(false, USER_NOT_ACTIVE)
  {
  }

  /**
    On an activated account whose row holds `hash(password)` (the digest
    `register` stores), a login with `attempt` succeeds exactly when
    `hash(attempt) == hash(hash(password))`. Under an injective hash, the
    registered password is accepted only if it equals its own digest.
   */
  lemma ActivatedAccountNeedsDoubleDigest(hash: Hasher, users: Store, email: string,
                                          password: string, attempt: string)
    requires email in users && users[email].isActive && users[email].passwordHash == hash(password)
    ensures AuthenticateIn(hash, users, email, attempt).success <==> hash(attempt) == hash(hash(password))
    ensures (forall x, y :: hash(x) == hash(y) ==> x == y) ==>
              (AuthenticateIn(hash, users, email, password).success <==> password == hash(password))
  {
  }

  /**
    The `AuthenticationSystem` object: a hashing function and the contents of
    the `users` table, which `register` updates in place.
   */
  class AuthenticationSystem {
    const hash: Hasher
    var users: Store

    /**
      Opening the database runs `CREATE TABLE IF NOT EXISTS`, so the rows
      already in the file are kept.
     */
    constructor (hash: Hasher, existing: Store)
      ensures this.hash == hash && users == existing
    {
      this.hash := hash;
      users := existing;
    }

    /** `_generate_activation_code`: 20 draws from the 62 letters and digits. */
    method GenerateActivationCode() returns (code: string)
      ensures IsActivationCode(code)
    {
      code := "";
      while |code| < CODE_LENGTH
        invariant |code| <= CODE_LENGTH
        invariant forall i :: 0 <= i < |code| ==> code[i] in CODE_ALPHABET
      {
        var k :| 0 <= k < |CODE_ALPHABET|;
        code := code + [CODE_ALPHABET[k]];
      }
    }

    /**
      `register`: look the email up; if it is absent, draw an activation
      code and insert one inactive row. `code` is the code drawn (ghost:
      the source does not return it).
     */
    method Register(email: string, password: string) returns (r: Outcome, ghost code: string)
      modifies this
      ensures email !in old(users) ==> IsActivationCode(code)
      ensures (r, users) == RegisterIn(hash, old(users), email, password, code)
    {
      if email in users {
        code := "";
        return Outcome(false, EMAIL_ALREADY_REGISTERED), code;
      }
      var activationCode := GenerateActivationCode();
      code := activationCode;
      var user := NewUser(hash, email, password, isActive := false, activationCode := Some(activationCode));
      users := users[user.email := Account(user.passwordHash, user.isActive, user.activationCode)];
      r := Outcome(true, REGISTRATION_SUCCESSFUL);
    }

    /**
      `authenticate`: look the email up, rebuild a `User` from the row and
      check the password against that user's (re-hashed) digest. It has no
      `modifies` clause: it changes nothing.
     */
    method Authenticate(email: string, password: string) returns (r: Outcome)
      ensures r == AuthenticateIn(hash, users, email, password)
    {
      if email in users {
        var row := users[email];
        var user := NewUser(hash, email, row.passwordHash, row.isActive, row.activationCode);
        if user.isActive {
          if CheckPassword(hash, password, user.passwordHash) {
            return Outcome(true, AUTHENTICATION_SUCCESSFUL);
          }
        }
        return Outcome(false, USER_NOT_ACTIVE);
      }
      r := Outcome(false, INVALID_CREDENTIALS);
    }
  }
}
