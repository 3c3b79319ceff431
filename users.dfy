/**
  The `User` record of server.py and its password hashing.

  SHA-256 (`hashlib.sha256(...).hexdigest()`) is a foreign library call. It is
  modelled as an arbitrary total function `Hasher` handed in by the caller:
  total functions are deterministic, and nothing else about the digest (its
  length, its injectivity) is assumed.
 */
module Users {

  /** A password hashing function: plaintext to hex digest. */
  type Hasher = string -> string

  datatype Option<+T> = None | Some(value: T)

  /** An in-memory user, as `User.__init__` builds it. */
  datatype User = User(
    email: string,
    passwordHash: string,
    isActive: bool,
    activationCode: Option<string>)

  /** `User._hash_password`: the digest of a plaintext password. */
  function HashPassword(hash: Hasher, password: string): string
  {
    hash(password)
  }

  /**
    `User.__init__`: the constructor stores the HASH of its second argument,
    whatever that argument is. The defaults are those of the source
    (an active user without an activation code).
   */
  function NewUser(hash: Hasher, email: string, password: string,
                   isActive: bool := true, activationCode: Option<string> := None): (u: User)
    ensures CheckPassword(hash, password, u.passwordHash)
  {
    User(email, HashPassword(hash, password), isActive, activationCode)
  }

  /** `User.check_password`: does `password` hash to `hashedPassword`? */
  function CheckPassword(hash: Hasher, password: string, hashedPassword: string): (ok: bool)
    ensures hashedPassword == HashPassword(hash, password) ==> ok
  {
    HashPassword(hash, password) == hashedPassword
  }

  /** A user built from a plaintext password accepts that password. */
  lemma CheckPasswordAcceptsOwnHash(hash: Hasher, email: string, password: string,
                                    isActive: bool, activationCode: Option<string>)
    ensures CheckPassword(hash, password, NewUser(hash, email, password, isActive, activationCode).passwordHash)
  {
  }

  /**
    Building a `User` from a digest hashes the digest again: a user rebuilt
    from a stored `passwordHash` holds `hash(hash(password))`, and it accepts
    exactly the passwords whose digest equals that double digest.
   */
  lemma RebuiltUserHashesTwice(hash: Hasher, email: string, password: string, attempt: string,
                               isActive: bool, activationCode: Option<string>)
    ensures var stored := NewUser(hash, email, password, isActive, activationCode);
            var rebuilt := NewUser(hash, email, stored.passwordHash, isActive, activationCode);
            && rebuilt.passwordHash == hash(hash(password))
            && (CheckPassword(hash, attempt, rebuilt.passwordHash) <==> hash(attempt) == hash(hash(password)))
  {
  }
}
