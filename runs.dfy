/**
  Sequences of calls to one `AuthenticationSystem`, and the two scenarios of
  the repository's registration and authentication tests.
 */
module Runs {
  import opened Users
  import opened Authentication

  /**
    One call on the system. A registration carries the activation code that
    its random draw produced.
   */
  datatype Call =
    | RegisterCall(email: string, password: string, code: string)
    | AuthenticateCall(email: string, password: string)

  /** One call as a transition: its outcome and the store afterwards. */
  function Step(hash: Hasher, users: Store, call: Call): (Outcome, Store)
  {
    match call
    case RegisterCall(email, password, code) => RegisterIn(hash, users, email, password, code)
    case AuthenticateCall(email, password) => (AuthenticateIn(hash, users, email, password), users)
  }

  /** Runs `calls` in order from `users`: the final store and one outcome per call. */
  function Run(hash: Hasher, users: Store, calls: seq<Call>): (res: (Store, seq<Outcome>))
    ensures |res.1| == |calls|
    ensures users.Keys <= res.0.Keys
    decreases |calls|
  {
    if calls == [] then
      (users, [])
    else
      var (outcome, next) := Step(hash, users, calls[0]);
      var (final, outcomes) := Run(hash, next, calls[1..]);
      (final, [outcome] + outcomes)
  }

  /** Neither operation ever activates an account. */
  lemma {:induction false} RunKeepsAllInactive(hash: Hasher, users: Store, calls: seq<Call>)
    requires AllInactive(users)
    ensures AllInactive(Run(hash, users, calls).0)
    decreases |calls|
  {
    if calls != [] {
      var step := Step(hash, users, calls[0]);
      if calls[0].RegisterCall? {
        RegisterKeepsAllInactive(hash, users, calls[0].email, calls[0].password, calls[0].code);
      }
      RunKeepsAllInactive(hash, step.1, calls[1..]);
    }
  }

  /** Every registration in `calls` carries a code `_generate_activation_code` can return. */
  predicate DrawnCodes(calls: seq<Call>)
  {
    forall i :: 0 <= i < |calls| && calls[i].RegisterCall? ==> IsActivationCode(calls[i].code)
  }

  /**
    `register` always stores a freshly drawn code and nothing else writes the
    table, so every inactive account of every table a run reaches still holds
    a well-formed activation code.
   */
  lemma {:induction false} RunKeepsCodes(hash: Hasher, users: Store, calls: seq<Call>)
    requires InactiveHaveCodes(users) && DrawnCodes(calls)
    ensures InactiveHaveCodes(Run(hash, users, calls).0)
    decreases |calls|
  {
    if calls != [] {
      var step := Step(hash, users, calls[0]);
      if calls[0].RegisterCall? {
        RegisterKeepsCodes(hash, users, calls[0].email, calls[0].password, calls[0].code);
      }
      assert DrawnCodes(calls[1..]) by {
        forall i | 0 <= i < |calls[1..]| && calls[1..][i].RegisterCall?
          ensures IsActivationCode(calls[1..][i].code)
        {
          assert calls[1..][i] == calls[i + 1];
        }
      }
      RunKeepsCodes(hash, step.1, calls[1..]);
    }
  }

  /**
    `authenticate` reads the store and never writes it; `register` writes
    only inactive rows. So from a store with no active account, no call in a
    run succeeds as a login.
   */
  lemma {:induction false} RunRejectsLogins(hash: Hasher, users: Store, calls: seq<Call>)
    requires AllInactive(users)
    ensures forall i :: 0 <= i < |calls| && calls[i].AuthenticateCall? ==>
              !Run(hash, users, calls).1[i].success
    decreases |calls|
  {
    if calls != [] {
      var step := Step(hash, users, calls[0]);
      if calls[0].RegisterCall? {
        RegisterKeepsAllInactive(hash, users, calls[0].email, calls[0].password, calls[0].code);
      } else {
        AllInactiveRejectsLogins(hash, users, calls[0].email, calls[0].password);
      }
      var rest := Run(hash, step.1, calls[1..]);
      RunRejectsLogins(hash, step.1, calls[1..]);
      assert Run(hash, users, calls).1 == [step.0] + rest.1;
      forall i | 0 <= i < |calls| && calls[i].AuthenticateCall?
        ensures !([step.0] + rest.1)[i].success
      {
        if i > 0 {
          assert calls[i] == calls[1..][i - 1];
        }
      }
    }
  }

  /** Starting from an empty table, no login ever succeeds. */
  lemma EmptyStoreNeverAuthenticates(hash: Hasher, calls: seq<Call>)
    ensures forall i :: 0 <= i < |calls| && calls[i].AuthenticateCall? ==>
              !Run(hash, map[], calls).1[i].success
  {
    RunRejectsLogins(hash, map[], calls);
  }

  /**
    The registration test: on a fresh table, the first registration of an
    email succeeds and the second fails, leaving one row for that email.
   */
  method RegistrationScenario(hash: Hasher) returns (first: Outcome, second: Outcome, rows: nat)
    ensures first == Outcome(true, REGISTRATION_SUCCESSFUL)
    ensures second == Outcome(false, EMAIL_ALREADY_REGISTERED)
    ensures rows == 1
  {
    var system := new AuthenticationSystem(hash, map[]);
    ghost var code;
    first, code := system.Register("test@example.com", "password123");
    second, code := system.Register("test@example.com", "password123");
    rows := |system.users|;
  }

  /**
    The authentication test: after registration the account is inactive, so
    the right password and a wrong one both get "User is not active".
   */
  method AuthenticationScenario(hash: Hasher) returns (right: Outcome, wrong: Outcome)
    ensures right == Outcome(false, USER_NOT_ACTIVE)
    ensures wrong == Outcome(false, USER_NOT_ACTIVE)
  {
    var system := new AuthenticationSystem(hash, map[]);
    ghost var code;
    var registered;
    registered, code := system.Register("test@example.com", "password123");
    right := system.Authenticate("test@example.com", "password123");
    wrong := system.Authenticate("test@example.com", "wrongpassword");
  }

  /** A login for an email that was never registered. */
  method UnknownEmailScenario(hash: Hasher) returns (r: Outcome)
    ensures r == Outcome(false, INVALID_CREDENTIALS)
  {
    var system := new AuthenticationSystem(hash, map[]);
    r := system.Authenticate("nobody@example.com", "x");
  }
}
