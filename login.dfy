/**
  Logging one account in to the chat (`src/login.rs`): the three searches
  over a parsed page (the anti-forgery key `fkey`, a logout link, the user
  identifier), the two-hour freshness rule for stored credentials, the
  order of the login steps, and the choice between reusing stored
  credentials and logging in afresh. Pages arrive parsed; requests, the
  clock and the credential files are parameters.
*/
module Login {
  import opened Results
  import opened Strings
  import opened Dom

  /** Why logging in fails. `RequestFailed` stands for any failed request or unparsable page. */
  datatype LoginError = RequestFailed | MissingFkey | MissingUserId | NoLoginOk | NoLogout | Outdated | NoStoredCredentials | CookiesUnreadable

  // ---------------------------------------------------------------------
  // The anti-forgery key

  /** An `input` element whose `name` attribute is `fkey`: the search answers from it and never looks inside. */
  predicate IsFkeyInput(node: Node) {
    node.Element? && node.name == "input" && AttrValue(node, "name") == Some("fkey")
  }

  /** The key such an input carries: its `value`, empty when the attribute has no value; nothing without the attribute. */
  function FkeyValue(node: Node): Option<string> {
    if node.Element? && "value" in node.attrs then Some(node.attrs["value"].GetOr("")) else None
  }

  /**
    `extract_fkey`: the key of the first `fkey` input, in pre-order, that
    has a `value` attribute; `MissingFkey` when there is none.
  */
  function ExtractFkey(nodes: seq<Node>): (r: Result<string, LoginError>)
    ensures r.Ok? <==> FirstHit(Frontier(nodes, IsFkeyInput), FkeyValue).Some?
    ensures r.Ok? ==> r.value == FirstHit(Frontier(nodes, IsFkeyInput), FkeyValue).value
    ensures r.Err? ==> r.error == MissingFkey
  {
    SearchIsFirstHit(nodes, IsFkeyInput, FkeyValue);
    match SearchNodes(nodes, IsFkeyInput, FkeyValue)
    case Some(fkey) => Ok(fkey)
    case None => Err(MissingFkey)
  }

  /** An `fkey` input reached first gives its value, or the empty key when the value is bare. */
  lemma FkeyFromInput(attrs: map<string, Option<string>>, children: seq<Node>, rest: seq<Node>)
    requires "name" in attrs && attrs["name"] == Some("fkey") && "value" in attrs
    ensures ExtractFkey([Element("input", attrs, children)] + rest) == Ok(attrs["value"].GetOr(""))
  {
    var input := Element("input", attrs, children);
    FrontierAppend([input], rest, IsFkeyInput);
    assert Frontier([input], IsFkeyInput) == [input] by {
      assert [input][1..] == [];
    }
    FirstHitAppend([input], Frontier(rest, IsFkeyInput), FkeyValue);
  }

  /** An `fkey` input without a `value` attribute is passed over, and the search goes on after it. */
  lemma {:induction false} FkeyInputWithoutValueSkipped(attrs: map<string, Option<string>>, children: seq<Node>, rest: seq<Node>)
    requires "name" in attrs && attrs["name"] == Some("fkey") && "value" !in attrs
    ensures ExtractFkey([Element("input", attrs, children)] + rest) == ExtractFkey(rest)
  {
    var input := Element("input", attrs, children);
    FrontierAppend([input], rest, IsFkeyInput);
    assert Frontier([input], IsFkeyInput) == [input] by {
      assert [input][1..] == [];
    }
    FirstHitAppend([input], Frontier(rest, IsFkeyInput), FkeyValue);
  }

  // ---------------------------------------------------------------------
  // The logout link

  /** An `a` element whose `href` has a value ending in `logout`. */
  predicate IsLogoutLink(node: Node) {
    node.Element? && node.name == "a" && AttrValue(node, "href").Some? && EndsWith(AttrValue(node, "href").value, "logout")
  }

  /** What the search reports for a logout link it stops at: that one was found. */
  function LogoutHit(node: Node): Option<bool> {
    Some(true)
  }

  /** `contains_logout`: whether the walk meets a logout link, stopping at the first one. */
  function ContainsLogout(nodes: seq<Node>): (r: bool)
    ensures r <==> exists e :: e in Elements(nodes) && IsLogoutLink(e)
  {
    SearchIsFirstHit(nodes, IsLogoutLink, LogoutHit);
    FrontierEmptyIff(nodes, IsLogoutLink);
    var frontier := Frontier(nodes, IsLogoutLink);
    assert FirstHit(frontier, LogoutHit).Some? <==> |frontier| > 0 by {
      if |frontier| > 0 {
        assert LogoutHit(frontier[0]).Some?;
      }
    }
    SearchNodes(nodes, IsLogoutLink, LogoutHit).Some?
  }

  // ---------------------------------------------------------------------
  // The user identifier

  const UsersPrefix := "/users/"

  /** An `a` element whose `href` has a value starting with `/users/`. */
  predicate IsUserLink(node: Node) {
    node.Element? && node.name == "a" && AttrValue(node, "href").Some? && StartsWith(AttrValue(node, "href").value, UsersPrefix)
  }

  /** The identifier in such a link: the text after `/users/` up to the next `/`. */
  function UserIdOf(node: Node): Option<string> {
    if IsUserLink(node) then Some(Split(AttrValue(node, "href").value[|UsersPrefix|..], '/')[0]) else None
  }

  /** `extract_user_id`: the identifier in the first user link, in pre-order; `MissingUserId` when there is none. */
  function ExtractUserId(nodes: seq<Node>): (r: Result<string, LoginError>)
    ensures r.Ok? <==> |Frontier(nodes, IsUserLink)| > 0
    ensures r.Ok? ==> UserIdOf(Frontier(nodes, IsUserLink)[0]) == Some(r.value) && '/' !in r.value
    ensures r.Err? ==> r.error == MissingUserId
  {
    SearchIsFirstHit(nodes, IsUserLink, UserIdOf);
    FrontierEmptyIff(nodes, IsUserLink);
    var frontier := Frontier(nodes, IsUserLink);
    assert |frontier| > 0 ==> UserIdOf(frontier[0]).Some?;
    match SearchNodes(nodes, IsUserLink, UserIdOf)
    case Some(id) => Ok(id)
    case None => Err(MissingUserId)
  }

  /** A profile link `/users/<id>/<rest>` reached first gives `<id>`. */
  lemma UserIdFromProfileLink(attrs: map<string, Option<string>>, children: seq<Node>, id: string, rest: string, after: seq<Node>)
    requires '/' !in id
    requires "href" in attrs && attrs["href"] == Some(UsersPrefix + id + "/" + rest)
    ensures ExtractUserId([Element("a", attrs, children)] + after) == Ok(id)
  {
    var link := Element("a", attrs, children);
    var href := UsersPrefix + id + "/" + rest;
    assert href[..|UsersPrefix|] == UsersPrefix;
    assert href[|UsersPrefix|..] == id + ['/'] + rest;
    SplitOnceOf(id, '/', rest);
    FrontierAppend([link], after, IsUserLink);
    assert Frontier([link], IsUserLink) == [link] by {
      assert [link][1..] == [];
    }
  }

  // ---------------------------------------------------------------------
  // Stored credentials

  /** How long stored credentials stay usable, in milliseconds. */
  const CredentialLifetimeMs: nat := 7200000

  /**
    The freshness test of `retrieve_credentials`: reject credentials stored
    in the future, or more than two hours ago; the subtraction is reached
    only once `now` is known not to be earlier.
  */
  function Fresh(now: nat, stored: nat): (r: bool)
    ensures r <==> stored <= now <= stored + CredentialLifetimeMs
  {
    !(now < stored || now - stored > CredentialLifetimeMs)
  }

  /** What a successful login records: when, the user identifier and the key. */
  datatype Credentials = Credentials(time: nat, userId: string, fkey: string)

  /**
    `retrieve_credentials`: the stored credentials (`None` when the file is
    missing or does not decode) if they are fresh at `now`.
  */
  function RetrieveCredentials(stored: Option<Credentials>, now: nat): (r: Result<Credentials, LoginError>)
    ensures r.Ok? <==> stored.Some? && Fresh(now, stored.value.time)
    ensures r.Ok? ==> r.value == stored.value
  {
    match stored
    case None => Err(NoStoredCredentials)
    case Some(c) => if Fresh(now, c.time) then Ok(c) else Err(Outdated)
  }

  // ---------------------------------------------------------------------
  // The login sequence

  /**
    The responses the login sequence receives, `None` where the request
    fails or the page does not parse: the login page, the validation
    response, the page after the second login request and the favourite
    room page.
  */
  datatype LoginPages = LoginPages(loginPage: Option<seq<Node>>, validation: Option<string>, second: Option<seq<Node>>, favorite: Option<seq<Node>>)

  /** Who the login made us: the user identifier and the key for later requests. */
  datatype Identity = Identity(userId: string, fkey: string)

  /**
    The steps of `try_login` in order: the key from the login page; the
    validation response must be exactly `Login-OK`; the second response must
    contain a logout link; then the user identifier and the key from the
    favourite room page. The first failing step decides the error.
  */
  function Authenticate(pages: LoginPages): (r: Result<Identity, LoginError>)
    ensures r.Ok? ==> pages.validation == Some("Login-OK")
    ensures r.Ok? ==> pages.second.Some? && ContainsLogout(pages.second.value)
    ensures r.Ok? ==> pages.favorite.Some? && ExtractUserId(pages.favorite.value).Ok? && ExtractFkey(pages.favorite.value).Ok?
    ensures r.Ok? ==> r.value == Identity(ExtractUserId(pages.favorite.value).value, ExtractFkey(pages.favorite.value).value)
    ensures r == Err(NoLogout) ==> pages.validation == Some("Login-OK")
    ensures r == Err(MissingUserId) ==> pages.second.Some? && ContainsLogout(pages.second.value)
  {
    if pages.loginPage.None? then Err(RequestFailed)
    else if ExtractFkey(pages.loginPage.value).Err? then Err(MissingFkey)
    else if pages.validation.None? then Err(RequestFailed)
    else if pages.validation.value != "Login-OK" then Err(NoLoginOk)
    else if pages.second.None? then Err(RequestFailed)
    else if !ContainsLogout(pages.second.value) then Err(NoLogout)
    else if pages.favorite.None? then Err(RequestFailed)
    else
      match ExtractUserId(pages.favorite.value)
      case Err(e) => Err(e)
      case Ok(userId) =>
        match ExtractFkey(pages.favorite.value)
        case Err(e) => Err(e)
        case Ok(fkey) => Ok(Identity(userId, fkey))
  }

  /** A validation response other than `Login-OK` fails the login, whatever the later pages hold. */
  lemma ValidationFirst(pages: LoginPages, second: Option<seq<Node>>, favorite: Option<seq<Node>>)
    requires pages.loginPage.Some? && ExtractFkey(pages.loginPage.value).Ok?
    requires pages.validation.Some? && pages.validation.value != "Login-OK"
    ensures Authenticate(pages) == Authenticate(pages.(second := second, favorite := favorite)) == Err(NoLoginOk)
  {
  }

  /** `try_login`: the login sequence, stamped with the time it completes. */
  function TryLogin(pages: LoginPages, now: nat): (r: Result<Credentials, LoginError>)
    ensures r.Ok? <==> Authenticate(pages).Ok?
    ensures r.Ok? ==> r.value == Credentials(now, Authenticate(pages).value.userId, Authenticate(pages).value.fkey)
  {
    match Authenticate(pages)
    case Err(e) => Err(e)
    case Ok(id) => Ok(Credentials(now, id.userId, id.fkey))
  }

  /** A logged-in user: the key its requests carry. */
  datatype User = User(fkey: string)

  /**
    `log_in`: when the stored credentials are fresh, load the stored cookie
    jar (`cookiesLoad` says whether it opens and decodes; failing that, the
    call fails) and reuse the stored key without logging in; otherwise log
    in and store the new credentials. The second component is what is
    written back, if anything.
  */
  function LogIn(stored: Option<Credentials>, now: nat, cookiesLoad: bool, pages: LoginPages): (r: (Result<User, LoginError>, Option<Credentials>))
    ensures RetrieveCredentials(stored, now).Ok? ==>
      r == (if cookiesLoad then Ok(User(stored.value.fkey)) else Err(CookiesUnreadable), None)
    ensures RetrieveCredentials(stored, now).Err? ==>
      (r.0.Ok? <==> TryLogin(pages, now).Ok?) &&
      (r.0.Ok? ==> r.0.value == User(TryLogin(pages, now).value.fkey) && r.1 == Some(TryLogin(pages, now).value)) &&
      (r.0.Err? ==> r.0.error == TryLogin(pages, now).error && r.1.None?)
  {
    match RetrieveCredentials(stored, now)
    case Ok(c) => (if cookiesLoad then Ok(User(c.fkey)) else Err(CookiesUnreadable), None)
    case Err(_) =>
      match TryLogin(pages, now)
      case Err(e) => (Err(e), None)
      case Ok(c) => (Ok(User(c.fkey)), Some(c))
  }

  /**
    Stored credentials are reused for two hours: after a login at `now`
    stores its credentials, every call up to 7200000 ms later (inclusive)
    reuses the stored key without logging in, whatever the pages would say;
    one millisecond later it logs in again.
  */
  lemma StoredReusedForTwoHours(now: nat, pages: LoginPages, later: nat, laterPages: LoginPages)
    requires LogIn(None, now, false, pages).1.Some?
    ensures var stored := LogIn(None, now, false, pages).1;
      (now <= later <= now + CredentialLifetimeMs ==>
        LogIn(stored, later, true, laterPages) == (Ok(User(stored.value.fkey)), None) == (LogIn(None, now, false, pages).0, None))
      && (later == now + CredentialLifetimeMs + 1 ==> LogIn(stored, later, true, laterPages) == LogIn(None, later, true, laterPages))
  {
  }
}
