/**
  The bot's configuration (`src/config.rs`): named users, watch sockets,
  rooms and sites, and routes that refer to a user, a watch socket and a
  room by name. Linking validates the references of a decoded
  configuration; resolving turns each route into the records it names.
  Decoding the JSON file is not modelled: the configuration arrives as
  records, and a route's absent force flag arrives as `None`.
*/
module Config {
  import opened Results

  datatype SiteConfig = SiteConfig(id: string, name: string, url: string, websocketId: string)
  datatype UserConfig = UserConfig(loginSite: string, email: string, password: string)
  datatype RoomConfig = RoomConfig(server: string, id: string)
  datatype SocketKind = Questions | Answers(questionId: string)
  datatype WatchSocketConfig = WatchSocketConfig(site: string, kind: SocketKind)

  /** A route as decoded: names of a user, a watch socket and a room, and the force flag. */
  datatype UnlinkedRouteConfig = UnlinkedRouteConfig(user: string, watchSocket: string, room: string, forceUserClient: bool)

  datatype UnlinkedConfig = UnlinkedConfig(
    apiKey: string,
    sites: map<string, SiteConfig>,
    users: map<string, UserConfig>,
    watchSockets: map<string, WatchSocketConfig>,
    rooms: map<string, RoomConfig>,
    routes: map<string, UnlinkedRouteConfig>)

  /** A configuration that linking accepted. */
  datatype Config = Config(inner: UnlinkedConfig)

  /** The route record as decoded, where an absent force flag (`#[serde(default)]`) is `false`. */
  function DecodeRoute(user: string, watchSocket: string, room: string, forceUserClient: Option<bool>): (r: UnlinkedRouteConfig)
    ensures r.forceUserClient <==> forceUserClient == Some(true)
    ensures r.user == user && r.watchSocket == watchSocket && r.room == room
  {
    UnlinkedRouteConfig(user, watchSocket, room, forceUserClient.GetOr(false))
  }

  datatype LinkError = LinkError(message: string)

  function MissingUserMessage(user: string, route: string): string {
    "missing user `" + user + "` in route `" + route + "`"
  }

  /** Whether route `id` names a known user: the only check linking makes. */
  predicate UserKnown(c: UnlinkedConfig, id: string) {
    id in c.routes ==> c.routes[id].user in c.users
  }

  /** Whether `order` visits every route of `c` exactly once: an iteration order of the route map. */
  ghost predicate IsOrderOf(order: seq<string>, c: UnlinkedConfig) {
    (forall id :: id in c.routes <==> id in order) &&
    (forall j, k :: 0 <= j < k < |order| ==> order[j] != order[k])
  }

  /**
    `UnlinkedConfig::link`, visiting the routes in `order` (the map's
    iteration order, which the program does not fix): the first route whose
    user is unknown fails linking with a message naming both; otherwise the
    configuration is accepted unchanged.
  */
  function Link(c: UnlinkedConfig, order: seq<string>): (r: Result<Config, LinkError>)
    ensures r.Ok? <==> forall k :: 0 <= k < |order| ==> UserKnown(c, order[k])
    ensures r.Ok? ==> r.value == Config(c)
    decreases |order|
  {
    if order == [] then Ok(Config(c))
    else if !UserKnown(c, order[0]) then Err(LinkError(MissingUserMessage(c.routes[order[0]].user, order[0])))
    else
      var r := Link(c, order[1..]);
      assert r.Ok? ==> forall k :: 1 <= k < |order| ==> order[k] == order[1..][k - 1];
      r
  }

  /** A failed link names the first route, in visiting order, whose user is unknown, and that user. */
  lemma {:induction false} LinkReportsFirstUnknown(c: UnlinkedConfig, order: seq<string>)
    requires Link(c, order).Err?
    ensures exists k :: (0 <= k < |order| && !UserKnown(c, order[k])
      && (forall j :: 0 <= j < k ==> UserKnown(c, order[j]))
      && Link(c, order).error.message == MissingUserMessage(c.routes[order[k]].user, order[k]))
    decreases |order|
  {
    if UserKnown(c, order[0]) {
      LinkReportsFirstUnknown(c, order[1..]);
      var k :| 0 <= k < |order[1..]| && !UserKnown(c, order[1..][k])
        && (forall j :: 0 <= j < k ==> UserKnown(c, order[1..][j]))
        && Link(c, order[1..]).error.message == MissingUserMessage(c.routes[order[1..][k]].user, order[1..][k]);
      assert order[k + 1] == order[1..][k];
      assert forall j :: 1 <= j < k + 1 ==> order[j] == order[1..][j - 1];
      assert !UserKnown(c, order[k + 1]) && forall j :: 0 <= j < k + 1 ==> UserKnown(c, order[j]);
    } else {
      assert !UserKnown(c, order[0]);
    }
  }

  /** Linking succeeds exactly when every route names a known user, whatever the iteration order. */
  lemma LinkChecksUsers(c: UnlinkedConfig, order: seq<string>)
    requires IsOrderOf(order, c)
    ensures Link(c, order).Ok? <==> forall id :: id in c.routes ==> c.routes[id].user in c.users
  {
    if Link(c, order).Ok? {
      forall id | id in c.routes
        ensures c.routes[id].user in c.users
      {
        var k :| 0 <= k < |order| && order[k] == id;
        assert UserKnown(c, order[k]);
      }
    }
  }

  /** A route resolved to the records it names. */
  datatype RouteConfig = RouteConfig(user: UserConfig, watchSocket: WatchSocketConfig, room: RoomConfig, forceUserClient: bool)

  /** Whether all three names of route `id` are defined. */
  predicate Resolves(c: UnlinkedConfig, id: string)
    requires id in c.routes
  {
    c.routes[id].user in c.users && c.routes[id].watchSocket in c.watchSockets && c.routes[id].room in c.rooms
  }

  /**
    `Config::get_route_configs`: one resolved route per route name, or
    `None` where an `unwrap` of a lookup panics on an undefined name.
  */
  function RouteConfigs(config: Config): (r: Option<map<string, RouteConfig>>)
    ensures r.Some? <==> forall id :: id in config.inner.routes ==> Resolves(config.inner, id)
    ensures r.Some? ==> r.value.Keys == config.inner.routes.Keys
    ensures r.Some? ==> forall id :: id in r.value ==>
      var route := config.inner.routes[id];
      r.value[id] == RouteConfig(config.inner.users[route.user], config.inner.watchSockets[route.watchSocket],
                                 config.inner.rooms[route.room], route.forceUserClient)
  {
    var c := config.inner;
    if forall id :: id in c.routes ==> Resolves(c, id) then
      Some(map id | id in c.routes :: RouteConfig(c.users[c.routes[id].user], c.watchSockets[c.routes[id].watchSocket],
                                                  c.rooms[c.routes[id].room], c.routes[id].forceUserClient))
    else None
  }

  /**
    As written, linking does not check a route's watch socket or room, so a
    configuration can link and still make resolving panic: one route whose
    user exists but whose watch socket does not.
  */
  lemma LinkedButUnresolvable()
    ensures var c := UnlinkedConfig("", map[], map["u" := UserConfig("", "", "")], map[], map["r" := RoomConfig("", "")],
                                    map["main" := UnlinkedRouteConfig("u", "w", "r", false)]);
      Link(c, ["main"]).Ok? && RouteConfigs(Link(c, ["main"]).value).None?
  {
    var c := UnlinkedConfig("", map[], map["u" := UserConfig("", "", "")], map[], map["r" := RoomConfig("", "")],
                            map["main" := UnlinkedRouteConfig("u", "w", "r", false)]);
    assert !Resolves(c, "main");
  }

  function MissingMessage(what: string, name: string, route: string): string {
    "missing " + what + " `" + name + "` in route `" + route + "`"
  }

  /** The first undefined name of route `id`, checking the user, then the watch socket, then the room. */
  function RouteFault(c: UnlinkedConfig, id: string): (r: Option<LinkError>)
    requires id in c.routes
    ensures r.None? <==> Resolves(c, id)
    ensures c.routes[id].user !in c.users ==> r == Some(LinkError(MissingUserMessage(c.routes[id].user, id)))
  {
    var route := c.routes[id];
    if route.user !in c.users then Some(LinkError(MissingUserMessage(route.user, id)))
    else if route.watchSocket !in c.watchSockets then Some(LinkError(MissingMessage("watch socket", route.watchSocket, id)))
    else if route.room !in c.rooms then Some(LinkError(MissingMessage("room", route.room, id)))
    else None
  }

  /**
    Linking as evidently intended: every name a route uses is checked, so
    the routes of an accepted configuration always resolve.
  */
  function LinkChecked(c: UnlinkedConfig, order: seq<string>): (r: Result<Config, LinkError>)
    ensures r.Ok? <==> forall k :: 0 <= k < |order| && order[k] in c.routes ==> Resolves(c, order[k])
    ensures r.Ok? ==> r.value == Config(c)
    decreases |order|
  {
    if order == [] then Ok(Config(c))
    else if order[0] in c.routes && RouteFault(c, order[0]).Some? then Err(RouteFault(c, order[0]).value)
    else
      var r := LinkChecked(c, order[1..]);
      assert r.Ok? ==> forall k :: 1 <= k < |order| ==> order[k] == order[1..][k - 1];
      r
  }

  /** A configuration the checked linking accepts always resolves: no route lookup can panic. */
  lemma CheckedLinkResolves(c: UnlinkedConfig, order: seq<string>)
    requires IsOrderOf(order, c) && LinkChecked(c, order).Ok?
    ensures RouteConfigs(LinkChecked(c, order).value).Some?
  {
    forall id | id in c.routes
      ensures Resolves(c, id)
    {
      var k :| 0 <= k < |order| && order[k] == id;
    }
  }

  /** The checked linking only adds checks: whatever it accepts, the original linking accepts too. */
  lemma CheckedLinkStricter(c: UnlinkedConfig, order: seq<string>)
    ensures LinkChecked(c, order).Ok? ==> Link(c, order).Ok?
  {
  }
}
