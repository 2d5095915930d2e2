/**
  The older two-account login (`login.rs`): the main account posts and the
  sandbox account answers, and both are logged in together. Its three page
  searches, its login sequence and its freshness test are the same as in
  `src/login.rs` and are taken from `Login`; what differs is the record of
  both accounts under one timestamp and the joint reuse-or-login decision.
*/
module LegacyLogin {
  import opened Results
  import opened Login

  /** The stored record: one timestamp for both accounts' identities. */
  datatype SharedCredentials = SharedCredentials(time: nat, main: Identity, sandbox: Identity)

  /** `retrieve_credentials`: the stored record if its one timestamp is fresh at `now`. */
  function RetrieveCredentials(stored: Option<SharedCredentials>, now: nat): (r: Result<SharedCredentials, LoginError>)
    ensures r.Ok? <==> stored.Some? && stored.value.time <= now <= stored.value.time + CredentialLifetimeMs
    ensures r.Ok? ==> r.value == stored.value
  {
    match stored
    case None => Err(NoStoredCredentials)
    case Some(c) => if Fresh(now, c.time) then Ok(c) else Err(Outdated)
  }

  /**
    `login`: with a fresh record, open both stored cookie jars
    (`cookiesLoad`) and reuse both keys; otherwise log the main account in,
    then the sandbox account, stop at the first failure, and store both
    identities under the one timestamp `now`. The result is the pair of
    keys (main, sandbox) and the record written back, if any.
  */
  function LogInBoth(stored: Option<SharedCredentials>, now: nat, cookiesLoad: bool, mainPages: LoginPages, sandboxPages: LoginPages)
    : (r: (Result<(string, string), LoginError>, Option<SharedCredentials>))
    ensures RetrieveCredentials(stored, now).Ok? ==>
      r == (if cookiesLoad then Ok((stored.value.main.fkey, stored.value.sandbox.fkey)) else Err(CookiesUnreadable), None)
    ensures RetrieveCredentials(stored, now).Err? ==>
      (r.0.Ok? <==> Authenticate(mainPages).Ok? && Authenticate(sandboxPages).Ok?) &&
      (r.0.Ok? ==> r.0.value == (Authenticate(mainPages).value.fkey, Authenticate(sandboxPages).value.fkey)
                   && r.1 == Some(SharedCredentials(now, Authenticate(mainPages).value, Authenticate(sandboxPages).value))) &&
      (r.0.Err? ==> r.1.None?)
  {
    match RetrieveCredentials(stored, now)
    case Ok(c) => (if cookiesLoad then Ok((c.main.fkey, c.sandbox.fkey)) else Err(CookiesUnreadable), None)
    case Err(_) =>
      match Authenticate(mainPages)
      case Err(e) => (Err(e), None)
      case Ok(main) =>
        match Authenticate(sandboxPages)
        case Err(e) => (Err(e), None)
        case Ok(sandbox) => (Ok((main.fkey, sandbox.fkey)), Some(SharedCredentials(now, main, sandbox)))
  }

  /** The main account logs in first: when it fails, its error is the result, whatever the sandbox pages hold. */
  lemma MainFailureWins(stored: Option<SharedCredentials>, now: nat, cookiesLoad: bool, mainPages: LoginPages, sandboxPages: LoginPages)
    requires RetrieveCredentials(stored, now).Err? && Authenticate(mainPages).Err?
    ensures LogInBoth(stored, now, cookiesLoad, mainPages, sandboxPages) == (Err(Authenticate(mainPages).error), None)
  {
  }

  /**
    Both keys live and expire together: after a joint login at `now`, every
    call up to two hours later reuses both stored keys, and one millisecond
    after that both accounts log in again.
  */
  lemma BothReusedTogether(now: nat, mainPages: LoginPages, sandboxPages: LoginPages, later: nat, m2: LoginPages, s2: LoginPages)
    requires LogInBoth(None, now, false, mainPages, sandboxPages).1.Some?
    ensures var stored := LogInBoth(None, now, false, mainPages, sandboxPages).1;
      (now <= later <= now + CredentialLifetimeMs ==>
        LogInBoth(stored, later, true, m2, s2) == (LogInBoth(None, now, false, mainPages, sandboxPages).0, None))
      && (later == now + CredentialLifetimeMs + 1 ==> LogInBoth(stored, later, true, m2, s2) == LogInBoth(None, later, true, m2, s2))
  {
  }
}
