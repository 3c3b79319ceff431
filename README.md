# python-auth: registration and login, modelled in Dafny

This project models the core of `server.py` from the python-auth repository:
the `User` record with its SHA-256 password hashing, and the
`AuthenticationSystem` class that registers accounts and authenticates logins
against a SQLite `users` table whose primary key is `email`.

- `users.dfy` (module `Users`): the `User` record, `_hash_password`,
  `User.__init__` (which hashes its second argument) and `check_password`.
  SHA-256 is a parameter `hash: string -> string` of every operation: a total
  function is deterministic, and nothing else about it is assumed.
- `authentication.dfy` (module `Authentication`): the table as a
  `map<string, Account>` keyed by email, the result messages, the activation
  code alphabet, the pure transitions `RegisterIn` and `AuthenticateIn`, and
  the class `AuthenticationSystem`. Its `users` field is the table. `Register`
  updates it in place. `Authenticate` has no `modifies` clause, so it cannot
  change anything.
- `runs.dfy` (module `Runs`): runs of any sequence of calls, and the
  scenarios of the repository's two tests.

Two behaviours of the source are kept as written:

- `authenticate` rebuilds a `User` from the stored row, and `User.__init__`
  hashes the stored digest a second time. The password check is therefore
  `hash(password) == hash(storedHash)`, not `hash(password) == storedHash`
  (`ActivatedAccountNeedsDoubleDigest`).
- Every failure on a found row answers "User is not active", including a
  wrong password on an active account.

Nothing in the source ever sets `is_active` to true. So from an empty table,
no login can ever succeed (`EmptyStoreNeverAuthenticates`). The test at
server.py:143-149 expects otherwise. Line 148 expects the right password to
give (True, "Authentication successful"); the code gives (False, "User is not
active"). Line 149 expects a wrong password to give (False, "Invalid email or
password"); the code gives (False, "User is not active") there too.
`AuthenticationScenario` states what the code returns for both.

## Model

| member | source | states |
|---|---|---|
| Users.NewUser | server.py:13-17 | the stored digest is that of the constructor's second argument, so the user passes `check_password` with that argument; by default the user is active and has no activation code |
| Users.CheckPassword | server.py:19-26 | a password always passes against its own digest, `check_password(p, _hash_password(p))` |
| Users.CheckPasswordAcceptsOwnHash | server.py:13-26 | a user built from a plaintext password passes `check_password` with that password |
| Users.RebuiltUserHashesTwice | server.py:13-20 | a user built from a stored digest holds `hash(hash(password))` and accepts exactly the attempts whose digest equals it |
| Authentication.CodeAlphabetIsAlphanumeric | server.py:78 | the code alphabet has 62 symbols, and a character is in it exactly when it is an ASCII letter or digit |
| Authentication.AuthenticationSystem.GenerateActivationCode | server.py:77-78 | every generated code has length 20 and uses only symbols of the alphabet |
| Authentication.RegisterIn | server.py:49-61 | a present email gives (False, "Email already registered") and an unchanged table; an absent one gives (True, "Registration successful") and a new row holding `hash(password)`, inactive, with the drawn code; existing rows never change; the key set grows by that email only; the row count grows by one exactly on success |
| Authentication.AuthenticateIn | server.py:63-75 | the outcome is one of the three fixed pairs; it succeeds exactly when the row exists, is active and `hash(password) == hash(storedHash)`; it says "Invalid email or password" exactly when the email has no row, so every other failure says "User is not active" |
| Authentication.AuthenticationSystem.Register | server.py:49-61 | the result and the new table are those of `RegisterIn` for the old table, and a newly drawn code is a valid activation code |
| Authentication.AuthenticationSystem.Authenticate | server.py:63-75 | the literal lookup, `User` rebuild and `check_password` give the outcome of `AuthenticateIn`, which compares `hash(password)` with `hash(storedHash)`; nothing is modified |
| Authentication.RegisterTwiceFails | server.py:53-56 | after one registration of an email, any second registration of it fails with "Email already registered" and changes nothing |
| Authentication.RegisterKeepsAllInactive | server.py:57-59 | registration never creates an active account |
| Authentication.RegisterKeepsCodes | server.py:57-59 | registering with a drawn activation code keeps "every inactive account holds a 20-character alphanumeric code" |
| Authentication.AllInactiveRejectsLogins | server.py:69-74 | with no active account, no login succeeds |
| Authentication.UnknownEmailIsInvalid | server.py:67-69 | a login for an email without a row gives (False, "Invalid email or password") |
| Authentication.FoundFailureSaysNotActive | server.py:69-74 | every failed login on a found row gives (False, "User is not active") |
| Authentication.InactiveIgnoresPassword | server.py:71-74 | on an inactive row the outcome is (False, "User is not active") for every password |
| Authentication.ActivatedAccountNeedsDoubleDigest | server.py:70-73 | on an active row holding `hash(password)`, an attempt succeeds exactly when its digest equals `hash(hash(password))`; under an injective hash the registered password succeeds only if it equals its own digest |
| Authentication.AuthenticationSystem.constructor | server.py:33-47 | opening the system keeps the rows already in the table |
| Runs.Run | server.py:49-75 | a run of calls gives one outcome per call and never removes an email |
| Runs.RunKeepsAllInactive | server.py:49-75 | from a table without active accounts, every table a run reaches has none |
| Runs.RunKeepsCodes | server.py:49-75 | from a table whose inactive accounts all hold well-formed codes, every table a run of drawn-code registrations and logins reaches keeps that property |
| Runs.RunRejectsLogins | server.py:63-75 | from a table without active accounts, every login in any run fails |
| Runs.EmptyStoreNeverAuthenticates | server.py:49-75 | from an empty table, every login in any run of registrations and logins fails |
| Runs.RegistrationScenario | server.py:136-141 | on a fresh table, registering "test@example.com" twice gives success, then "Email already registered", and one row |
| Runs.AuthenticationScenario | server.py:143-149 | after that registration, both the right and a wrong password get (False, "User is not active") |
| Runs.UnknownEmailScenario | server.py:63-75 | a login for an unregistered email gives (False, "Invalid email or password") |

## Left out

- `MyHTTPHandler.do_POST` and the `__main__` start-up (server.py:80-124): HTTP transport, JSON encoding and the global `sys` object are I/O plumbing.
- The SQLite connection, cursor, DDL and `commit` (server.py:33-47, 59-60): the table is an in-memory map; durability and transactions are not modelled.
- SHA-256 itself (server.py:20): a foreign library call, left as an arbitrary function; its 64-hex-digit output and its collision resistance are not assumed.
- The randomness of `random.choices` (server.py:78): each of the 20 draws is a nondeterministic choice among the 62 symbols; the distribution is not modelled, and codes are not promised to be unique.
- The activation code is a ghost out-parameter of `Register`: the source stores it but does not return it.
- `Runs.RunKeepsCodes` assumes each registration in a run carries a code of the form `GenerateActivationCode` ensures (`DrawnCodes`); a `Call` itself may hold any string, because the draw is a separate step.
- Two exceptions the source can raise are outside the model's types, so every operation here returns an outcome where the source may raise. A Python string may hold a lone surrogate (for instance from `json.loads` of `"\ud800"`); Dafny strings cannot. On such a string `password.encode()` (server.py:20) raises `UnicodeEncodeError` in `register` and on the active path of `authenticate`, and binding such an email (server.py:53, 67) makes sqlite3 raise. A row already in the table may also hold a NULL or BLOB `password_hash`; rebuilding its `User` (server.py:70, 15, 20) then raises `AttributeError`, even for an inactive row. `Account.passwordHash` is always a string, so `InactiveIgnoresPassword` gives an answer for rows where the source raises.
- `is_active` is a `bool`; the SQLite INTEGER column could hold other values in a table written by other programs.
- The pytest fixture and its use (server.py:126-149): the fixture name does not match the tests' parameter and `DB_PATH` is defined only under `__main__`. The scenarios start from an empty table.
- Concurrent registrations of the same email: the model is sequential.
