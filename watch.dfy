/**
  The watch side of the bot: posting an announcement with the chat's
  cooldown rule, waiting for an item to reach the API, dispatching the frames
  of the question-and-answer event socket, the reconciliation pass over the
  API that covers socket downtime, and the reconnect loop.
*/
module Watch {
  import opened Results
  import opened Strings
  import opened Registry

  /** The two chat accounts: the main one and the one that announces sandbox answers. */
  datatype Account = Main | Sandbox

  /**
    One kind of item the bot announces: the registry feed it is recorded in,
    the API site and kind used to probe for it, the chat room, the URL prefix
    the identifier is appended to, and the account that posts it.
  */
  datatype Route = Route(feed: Feed, site: string, isAnswer: bool, room: nat, base: string, account: Account)

  const CodeGolfQuestions := Route(P200, "codegolf", false, 240, "https://codegolf.stackexchange.com/q/", Main)
  const CodeGolfMetaQuestions := Route(P202, "codegolf.meta", false, 240, "https://codegolf.meta.stackexchange.com/q/", Main)
  const SandboxAnswers := Route(P202, "codegolf.meta", true, 240, "https://codegolf.meta.stackexchange.com/a/", Sandbox)
  const LanguageDesignQuestions := Route(P716, "languagedesign", false, 146046, "https://languagedesign.stackexchange.com/q/", Main)
  const LanguageDesignMetaQuestions := Route(P717, "languagedesign.meta", false, 146046, "https://languagedesign.meta.stackexchange.com/q/", Main)

  /**
    A decision to announce item `key` of `route`. `probed` is true when the
    poster first waits for the item to reach the API (the socket path does,
    the reconciliation path does not).
  */
  datatype Announcement = Announcement(route: Route, key: string, probed: bool)
  {
    function Text(): string {
      route.base + key
    }

    function Sighting(): (Feed, string) {
      (route.feed, key)
    }
  }

  function Sightings(posts: seq<Announcement>): (r: seq<(Feed, string)>)
    ensures |r| == |posts|
    ensures forall k :: 0 <= k < |posts| ==> r[k] == posts[k].Sighting()
  {
    if posts == [] then [] else [posts[0].Sighting()] + Sightings(posts[1..])
  }

  lemma {:induction false} SightingsAppend(a: seq<Announcement>, b: seq<Announcement>)
    ensures Sightings(a + b) == Sightings(a) + Sightings(b)
  {
  }

  /**
    Going from registry `before` to registry `after`, a producer announced
    `posts`: each one a first sighting (not in `before`, none twice), and
    `after` is `before` with exactly those recorded.
  */
  ghost predicate Accounted(before: Snapshot, after: Snapshot, posts: seq<Announcement>) {
    FirstSightings(before, Sightings(posts)) && after == Record(before, Sightings(posts))
  }

  /** Two producers running one after the other announce only first sightings between them. */
  lemma Extend(s: Snapshot, t: Snapshot, u: Snapshot, a: seq<Announcement>, b: seq<Announcement>)
    requires Accounted(s, t, a) && Accounted(t, u, b)
    ensures Accounted(s, u, a + b)
  {
    SightingsAppend(a, b);
    RecordAppend(s, Sightings(a), Sightings(b));
    Sequential(s, Sightings(a), t, Sightings(b));
  }

  /** No announcement leaves the registry alone; one new announcement records its sighting. */
  lemma AccountedStep(s: Snapshot, s1: Snapshot, head: seq<Announcement>)
    requires |head| <= 1
    requires head == [] ==> s1 == s
    requires head != [] ==> head[0].key !in s.Get(head[0].route.feed) && s1 == s.Add(head[0].route.feed, head[0].key)
    ensures Accounted(s, s1, head)
  {
    if head != [] {
      assert Sightings(head) == [head[0].Sighting()];
    }
  }

  // ---------------------------------------------------------------------
  // Posting with the cooldown rule

  const CooldownPrefix := "You can perform this action again in "

  /** A chat server's answer to one post request. */
  datatype Reply = Reply(status: nat, body: string)

  /** What one `try_post` comes to: no cooldown to honour, a cooldown of some seconds, or a panic. */
  datatype Attempt = NoCooldown | Cooldown(seconds: nat) | Crashed

  predicate IsSuccess(status: nat) {
    200 <= status <= 299
  }

  /**
    `try_post`: a failed 409 reply whose body starts with the cooldown
    sentence carries the number of seconds, read up to the next space as a
    `u8`; a missing space or an unparsable number panics (`unwrap`).
  */
  function TryPost(reply: Reply): (r: Attempt)
    ensures r.Cooldown? ==> r.seconds < 256
    ensures r != NoCooldown ==> reply.status == 409 && StartsWith(reply.body, CooldownPrefix)
  {
    if IsSuccess(reply.status) || reply.status != 409 || !StartsWith(reply.body, CooldownPrefix) then
      NoCooldown
    else
      ReadCooldown(reply.body[|CooldownPrefix|..])
  }

  /** The rest of a cooldown sentence: the number of seconds up to the next space, as a `u8`, or a panic. */
  function ReadCooldown(tail: string): (r: Attempt)
    ensures r != NoCooldown
    ensures r.Cooldown? ==> r.seconds < 256
  {
    match SplitOnce(tail, ' ')
    case None => Crashed
    case Some((token, _)) =>
      match ParseU8(token)
      case Some(seconds) => Cooldown(seconds)
      case None => Crashed
  }

  /** A cooldown reply naming `n` seconds, for any `n` a `u8` holds, is read as exactly that cooldown. */
  lemma CooldownRead(n: nat, rest: string)
    requires n < 256
    ensures TryPost(Reply(409, CooldownPrefix + Decimal(n) + " " + rest)) == Cooldown(n)
  {
    var tail := Decimal(n) + [' '] + rest;
    var body := CooldownPrefix + tail;
    assert body == CooldownPrefix + Decimal(n) + " " + rest;
    assert body[..|CooldownPrefix|] == CooldownPrefix && body[|CooldownPrefix|..] == tail;
    ReadCooldownOf(n, rest);
  }

  /** The rest of a cooldown sentence that names `n` seconds, for `n` a `u8` holds, is read as that cooldown. */
  lemma ReadCooldownOf(n: nat, rest: string)
    requires n < 256
    ensures ReadCooldown(Decimal(n) + [' '] + rest) == Cooldown(n)
  {
    SplitOnceOf(Decimal(n), ' ', rest);
    ParseDecimal(n, U8Bound);
  }

  /** A cooldown of 256 seconds or more does not fit a `u8`: `try_post` panics. */
  lemma CooldownOverflowPanics(n: nat, rest: string)
    requires n >= 256
    ensures TryPost(Reply(409, CooldownPrefix + Decimal(n) + " " + rest)) == Crashed
  {
    var body := CooldownPrefix + Decimal(n) + " " + rest;
    assert body[..|CooldownPrefix|] == CooldownPrefix;
    assert body[|CooldownPrefix|..] == Decimal(n) + [' '] + rest;
    SplitOnceOf(Decimal(n), ' ', rest);
    DecimalValue(n);
  }

  /** A cooldown sentence with no space after the number panics. */
  lemma CooldownWithoutSpacePanics(tail: string)
    requires ' ' !in tail
    ensures TryPost(Reply(409, CooldownPrefix + tail)) == Crashed
  {
    var body := CooldownPrefix + tail;
    assert body[..|CooldownPrefix|] == CooldownPrefix;
    assert body[|CooldownPrefix|..] == tail;
  }

  datatype PostStep = Attempted | Slept(ms: nat)

  /**
    `post`: one attempt; after a cooldown of `n` seconds, a sleep of
    `n * 1000 + 2000` ms and exactly one more attempt. The second attempt's
    result goes through `xor(Some(0)).unwrap()`, which panics unless that
    attempt saw no cooldown. `first` and `second` are what `try_post`
    (`TryPost` of the server's reply) comes to on the first and, if made, the
    second attempt.
  */
  method Post(first: Attempt, second: Attempt) returns (steps: seq<PostStep>, panicked: bool)
    ensures !first.Cooldown? ==> steps == [Attempted]
    ensures first.Cooldown? ==> steps == [Attempted, Slept(first.seconds * 1000 + 2000), Attempted]
    ensures panicked <==> first.Crashed? || (first.Cooldown? && second != NoCooldown)
  {
    steps := [Attempted];
    if first.Cooldown? {
      steps := steps + [Slept(first.seconds * 1000 + 2000)];
      steps := steps + [Attempted];
      panicked := second != NoCooldown;
    } else {
      panicked := first.Crashed?;
    }
  }

  // ---------------------------------------------------------------------
  // Waiting for an item to reach the API

  /** How `wait_for_api` ends: the probe that saw the item and the time slept before it, a give-up panic, or a probe's panic. */
  datatype Probe = Found(index: nat, sleptMs: nat) | GaveUp | ProbeFailed(index: nat)

  /** Milliseconds slept before probe `k`: 200 ms after each of the first four probes, 1000 ms after later ones. */
  function SleptBefore(k: nat): nat {
    if k <= 4 then 200 * k else 800 + 1000 * (k - 4)
  }

  /**
    `wait_for_api`: probe four times 200 ms apart, then four times 1000 ms
    apart; stop at the first probe that sees the item, panic after eight
    misses. `onApi(k)` is what probe `k` (`is_on_api`) reports: whether the
    item is listed, or `None` when its request, status or decoding fails,
    which panics.
  */
  method WaitForApi(onApi: nat -> Option<bool>) returns (r: Probe)
    ensures r.Found? ==> r.index < 8 && onApi(r.index) == Some(true) && r.sleptMs == SleptBefore(r.index)
    ensures r.ProbeFailed? ==> r.index < 8 && onApi(r.index).None?
    ensures !r.GaveUp? ==> forall k :: 0 <= k < r.index ==> onApi(k) == Some(false)
    ensures r.GaveUp? <==> forall k :: 0 <= k < 8 ==> onApi(k) == Some(false)
  {
    var probes, slept := 0, 0;
    for i := 0 to 4
      invariant probes == i && slept == 200 * i
      invariant forall k :: 0 <= k < probes ==> onApi(k) == Some(false)
    {
      var seen := onApi(probes);
      if seen.None? {
        return ProbeFailed(probes);
      } else if seen.value {
        return Found(probes, slept);
      }
      slept, probes := slept + 200, probes + 1;
    }
    for i := 0 to 4
      invariant probes == 4 + i && slept == 800 + 1000 * i
      invariant forall k :: 0 <= k < probes ==> onApi(k) == Some(false)
    {
      var seen := onApi(probes);
      if seen.None? {
        return ProbeFailed(probes);
      } else if seen.value {
        return Found(probes, slept);
      }
      slept, probes := slept + 1000, probes + 1;
    }
    return GaveUp;
  }

  // ---------------------------------------------------------------------
  // The watch socket

  /** The decoded `data` payload: the fields the handler reads, when present. */
  datatype Payload = Payload(id: Option<string>, a: Option<string>, answerid: Option<nat>)

  datatype WatchFrame = WatchFrame(action: string, data: Payload)

  /** A socket message: a text frame (`None` if it is not valid frame JSON), another kind of frame, or a read error. */
  datatype WatchMessage = Text(frame: Option<WatchFrame>) | NonText | Broken

  datatype Fault = TransportFailed | Undecodable | MissingField | UnknownAction(action: string)

  datatype Handled =
    | Ignored
    | Pong
    | AlreadySeen(feed: Feed, key: string)
    | Announced(announcement: Announcement)
    | Panicked(fault: Fault)

  /** The topics the socket subscribes to, in the order they are sent. */
  const Topics := ["200-questions-newest", "202-questions-newest", "202-question-2140",
                   "716-questions-newest", "717-questions-newest"]

  /** The routes of the four new-question topics. */
  function QuestionRoute(action: string): (r: Option<Route>)
    ensures r.Some? <==> action in Topics && action != "202-question-2140"
    ensures r.Some? ==> r.value.account == Main && !r.value.isAnswer
  {
    if action == "200-questions-newest" then Some(CodeGolfQuestions)
    else if action == "202-questions-newest" then Some(CodeGolfMetaQuestions)
    else if action == "716-questions-newest" then Some(LanguageDesignQuestions)
    else if action == "717-questions-newest" then Some(LanguageDesignMetaQuestions)
    else None
  }

  /**
    Insert `key` into `route`'s feed and announce it if the insertion reports
    it new: the key is recorded either way, and announced exactly when it was
    not recorded before.
  */
  function Offer(s: Snapshot, route: Route, key: string): (r: (Snapshot, Handled))
    ensures r.0 == s.Add(route.feed, key)
    ensures r.1 == Announced(Announcement(route, key, true)) <==> key !in s.Get(route.feed)
    ensures r.1 == AlreadySeen(route.feed, key) <==> key in s.Get(route.feed)
  {
    if key in s.Get(route.feed) then
      s.AddPresent(route.feed, key);
      (s, AlreadySeen(route.feed, key))
    else (s.Add(route.feed, key), Announced(Announcement(route, key, true)))
  }

  predicate IsFrame(m: WatchMessage, action: string) {
    m.Text? && m.frame.Some? && m.frame.value.action == action
  }

  /** The socket handler on one message, as a function of the registry before it. */
  function Handle(s: Snapshot, m: WatchMessage): (r: (Snapshot, Handled))
    ensures r.1.Announced? ==>
      var a := r.1.announcement;
      a.key !in s.Get(a.route.feed) && r.0 == s.Add(a.route.feed, a.key) && a.probed
    ensures !r.1.Announced? ==> r.0 == s
    ensures r.1.Pong? <==> IsFrame(m, "hb")
    ensures r.1.Announced? || r.1.AlreadySeen? ==> m.Text? && m.frame.Some? && m.frame.value.action in Topics
    ensures m.Text? && m.frame.Some? && m.frame.value.action != "hb" && m.frame.value.action !in Topics ==>
      r.1 == Panicked(UnknownAction(m.frame.value.action))
  {
    match m
    case NonText => (s, Ignored)
    case Broken => (s, Panicked(TransportFailed))
    case Text(None) => (s, Panicked(Undecodable))
    case Text(Some(frame)) =>
      if frame.action == "hb" then (s, Pong)
      else if frame.action == "202-question-2140" then
        match frame.data.a
        case None => (s, Panicked(MissingField))
        case Some(sub) =>
          if sub != "answer-add" then (s, Ignored)
          else
            match frame.data.answerid
            case None => (s, Panicked(MissingField))
            case Some(answer) => Offer(s, SandboxAnswers, Decimal(answer))
      else
        match QuestionRoute(frame.action)
        case None => (s, Panicked(UnknownAction(frame.action)))
        case Some(route) =>
          match frame.data.id
          case None => (s, Panicked(MissingField))
          case Some(id) => Offer(s, route, id)
  }

  /**
    The handler misses nothing it subscribed to: a new-question frame
    announces its identifier on its topic's route exactly when the feed has
    not recorded it, and reports it already seen otherwise; an answer-add
    update does the same for `/a/<answerid>` on the sandbox route; any other
    update of the sandbox question, and any non-text frame, is ignored.
  */
  lemma HandleComplete(s: Snapshot, m: WatchMessage)
    ensures var r := Handle(s, m);
      m.Text? && m.frame.Some? && QuestionRoute(m.frame.value.action).Some? && m.frame.value.data.id.Some? ==>
      var route := QuestionRoute(m.frame.value.action).value;
      var id := m.frame.value.data.id.value;
      && (r.1 == Announced(Announcement(route, id, true)) <==> id !in s.Get(route.feed))
      && (r.1 == AlreadySeen(route.feed, id) <==> id in s.Get(route.feed))
    ensures var r := Handle(s, m);
      IsFrame(m, "202-question-2140") && m.frame.value.data.a == Some("answer-add") && m.frame.value.data.answerid.Some? ==>
      var key := Decimal(m.frame.value.data.answerid.value);
      && (r.1 == Announced(Announcement(SandboxAnswers, key, true)) <==> key !in s.p202)
      && (r.1 == AlreadySeen(P202, key) <==> key in s.p202)
    ensures var r := Handle(s, m);
      IsFrame(m, "202-question-2140") && m.frame.value.data.a.Some? && m.frame.value.data.a.value != "answer-add" ==>
      r == (s, Ignored)
    ensures m.NonText? ==> Handle(s, m) == (s, Ignored)
  {
  }

  /** An answer-add update announces `/a/<answerid>` for the sandbox account, whatever else the payload holds. */
  lemma AnswerAddAnnouncesAnswer(s: Snapshot, data: Payload, answer: nat)
    requires data.a == Some("answer-add") && data.answerid == Some(answer)
    requires Decimal(answer) !in s.p202
    ensures var (s', h) := Handle(s, Text(Some(WatchFrame("202-question-2140", data))));
      && h.Announced?
      && h.announcement.Text() == "https://codegolf.meta.stackexchange.com/a/" + Decimal(answer)
      && h.announcement.route.account == Sandbox
      && s'.p202 == s.p202 + {Decimal(answer)}
  {
  }

  /** Handling the same message twice never announces twice and leaves the registry as after the first time. */
  lemma HandleTwice(s: Snapshot, m: WatchMessage)
    ensures var (s1, h1) := Handle(s, m);
      var (s2, h2) := Handle(s1, m);
      !h2.Announced? && s2 == s1
  {
    var (s1, h1) := Handle(s, m);
    if h1.Announced? {
      var a := h1.announcement;
      assert a.key in s1.Get(a.route.feed);
    }
  }

  /** The handler applied to `msgs` in order; a panic ends the connection's task. */
  function Run(s: Snapshot, msgs: seq<WatchMessage>): (r: (Snapshot, seq<Handled>))
    ensures |r.1| <= |msgs|
    ensures |r.1| == |msgs| || (|r.1| > 0 && r.1[|r.1| - 1].Panicked?)
    decreases |msgs|
  {
    if msgs == [] then (s, [])
    else
      var (s1, h) := Handle(s, msgs[0]);
      if h.Panicked? then (s1, [h])
      else
        var (s2, hs) := Run(s1, msgs[1..]);
        (s2, [h] + hs)
  }

  /** Entry `k` of a run's log is the handler on message `k`, applied to the registry the first `k` messages left. */
  lemma {:induction false} RunStep(s: Snapshot, msgs: seq<WatchMessage>, k: nat)
    requires k < |Run(s, msgs).1|
    ensures Run(s, msgs).1[k] == Handle(Run(s, msgs[..k]).0, msgs[k]).1
    decreases k
  {
    if k > 0 {
      var (s1, h) := Handle(s, msgs[0]);
      assert !h.Panicked?;
      RunStep(s1, msgs[1..], k - 1);
      assert msgs[..k][1..] == msgs[1..][..k - 1];
      assert msgs[..k][0] == msgs[0];
      assert msgs[1..][k - 1] == msgs[k];
    }
  }

  /** The announcements in a handler log, in order. */
  function Posts(log: seq<Handled>): seq<Announcement> {
    if log == [] then []
    else (if log[0].Announced? then [log[0].announcement] else []) + Posts(log[1..])
  }

  /** Only the last entry of a run can be a panic. */
  predicate PanicsOnlyAtEnd(log: seq<Handled>) {
    forall k :: 0 <= k < |log| - 1 ==> !log[k].Panicked?
  }

  /**
    A run of the socket handler announces only first sightings, and its
    registry afterwards is the one before plus exactly what it announced.
  */
  lemma {:induction false} RunFirstSightings(s: Snapshot, msgs: seq<WatchMessage>)
    ensures var (s', log) := Run(s, msgs);
      Accounted(s, s', Posts(log)) && PanicsOnlyAtEnd(log)
    decreases |msgs|
  {
    if msgs != [] {
      var (s1, h) := Handle(s, msgs[0]);
      if h.Panicked? {
        assert Posts([h]) == [] + Posts([]);
      } else {
        RunFirstSightings(s1, msgs[1..]);
        var (s2, hs) := Run(s1, msgs[1..]);
        var log := [h] + hs;
        assert log[1..] == hs;
        var head := if h.Announced? then [h.announcement] else [];
        assert Posts(log) == head + Posts(hs);
        AccountedStep(s, s1, head);
        Extend(s, s1, s2, head, Posts(hs));
      }
    }
  }

  /** `Handle` on the registry object: inserts through `Observe`, exactly as the socket task does. */
  method HandleMessage(ids: Ids, m: WatchMessage) returns (h: Handled)
    modifies ids
    ensures (ids.View(), h) == Handle(old(ids.View()), m)
  {
    match m
    case NonText => h := Ignored;
    case Broken => h := Panicked(TransportFailed);
    case Text(None) => h := Panicked(Undecodable);
    case Text(Some(frame)) =>
      if frame.action == "hb" {
        h := Pong;
      } else if frame.action == "202-question-2140" {
        match frame.data.a
        case None => h := Panicked(MissingField);
        case Some(sub) =>
          if sub != "answer-add" {
            h := Ignored;
          } else {
            match frame.data.answerid
            case None => h := Panicked(MissingField);
            case Some(answer) => h := OfferTo(ids, SandboxAnswers, Decimal(answer));
          }
      } else {
        match QuestionRoute(frame.action)
        case None => h := Panicked(UnknownAction(frame.action));
        case Some(route) =>
          match frame.data.id
          case None => h := Panicked(MissingField);
          case Some(id) => h := OfferTo(ids, route, id);
      }
  }

  method OfferTo(ids: Ids, route: Route, key: string) returns (h: Handled)
    modifies ids
    ensures (ids.View(), h) == Offer(old(ids.View()), route, key)
  {
    var isNew := ids.Observe(route.feed, key);
    if isNew {
      h := Announced(Announcement(route, key, true));
    } else {
      h := AlreadySeen(route.feed, key);
      assert key in old(ids.View()).Get(route.feed);
      assert ids.View().Get(route.feed) == old(ids.View()).Get(route.feed);
    }
  }

  /** One message of a run, taken at position `i`, after the log `log` of the messages before it. */
  lemma RunWatchStep(whole: (Snapshot, seq<Handled>), s: Snapshot, msgs: seq<WatchMessage>, i: nat, log: seq<Handled>,
                     s1: Snapshot, h: Handled)
    requires i < |msgs|
    requires whole == (Run(s, msgs[i..]).0, log + Run(s, msgs[i..]).1)
    requires (s1, h) == Handle(s, msgs[i])
    ensures h.Panicked? ==> whole == (s1, log + [h])
    ensures !h.Panicked? ==> whole == (Run(s1, msgs[i + 1..]).0, (log + [h]) + Run(s1, msgs[i + 1..]).1)
  {
    assert msgs[i..][0] == msgs[i];
    assert msgs[i..][1..] == msgs[i + 1..];
    if !h.Panicked? {
      var rest := Run(s1, msgs[i + 1..]).1;
      assert log + ([h] + rest) == (log + [h]) + rest;
    }
  }

  /** The socket task's read loop over the messages received before the connection closed. */
  method RunWatch(ids: Ids, msgs: seq<WatchMessage>) returns (log: seq<Handled>)
    modifies ids
    ensures (ids.View(), log) == Run(old(ids.View()), msgs)
  {
    log := [];
    var i := 0;
    var stopped := false;
    ghost var whole := Run(ids.View(), msgs);
    assert msgs[0..] == msgs;
    assert [] + whole.1 == whole.1;
    while i < |msgs| && !stopped
      invariant 0 <= i <= |msgs|
      invariant !stopped ==> whole == (Run(ids.View(), msgs[i..]).0, log + Run(ids.View(), msgs[i..]).1)
      invariant stopped ==> whole == (ids.View(), log)
      decreases |msgs| - i
    {
      ghost var before := ids.View();
      var h := HandleMessage(ids, msgs[i]);
      RunWatchStep(whole, before, msgs, i, log, ids.View(), h);
      log := log + [h];
      stopped := h.Panicked?;
      i := i + 1;
    }
    if !stopped {
      assert msgs[i..] == [];
      assert log + [] == log;
    }
  }

  // ---------------------------------------------------------------------
  // Reconciliation against the API

  /** An item of an API listing: its creation time in seconds and its numeric identifier. */
  datatype ApiItem = ApiItem(creationDate: nat, id: nat)

  /** The reconciliation window: created (strictly) later than 20 s before `downSince` (milliseconds). */
  predicate InWindow(item: ApiItem, downSince: int) {
    item.creationDate * 1000 > downSince - 20000
  }

  /** One listing's loop of `post_from_api`: each item in the window is inserted, and announced if new. */
  function Reconcile(s: Snapshot, route: Route, items: seq<ApiItem>, downSince: int): (r: (Snapshot, seq<Announcement>))
    ensures |r.1| <= |items|
    ensures s.Below(r.0)
    ensures forall feed :: feed != route.feed ==> r.0.Get(feed) == s.Get(feed)
    decreases |items|
  {
    if items == [] then (s, [])
    else
      var key := Decimal(items[0].id);
      var (s1, head) :=
        if InWindow(items[0], downSince) && key !in s.Get(route.feed) then
          (s.Add(route.feed, key), [Announcement(route, key, false)])
        else (s, []);
      var (s2, rest) := Reconcile(s1, route, items[1..], downSince);
      (s2, head + rest)
  }

  /** Every announcement of `posts` is an unprobed post of `route` for an item of `items` inside the window. */
  ghost predicate WindowedPosts(posts: seq<Announcement>, route: Route, items: seq<ApiItem>, downSince: int) {
    forall k :: 0 <= k < |posts| ==>
      && posts[k].route == route && !posts[k].probed
      && exists j :: 0 <= j < |items| && InWindow(items[j], downSince) && posts[k].key == Decimal(items[j].id)
  }

  /** Everything a reconciliation loop announces is a windowed item of its listing, posted without probing. */
  lemma {:induction false} ReconcileAnnouncesWindowed(s: Snapshot, route: Route, items: seq<ApiItem>, downSince: int)
    ensures WindowedPosts(Reconcile(s, route, items, downSince).1, route, items, downSince)
    decreases |items|
  {
    if items != [] {
      var key := Decimal(items[0].id);
      var isNew := InWindow(items[0], downSince) && key !in s.Get(route.feed);
      var s1 := if isNew then s.Add(route.feed, key) else s;
      var head := if isNew then [Announcement(route, key, false)] else [];
      var tail := items[1..];
      ReconcileAnnouncesWindowed(s1, route, tail, downSince);
      var rest := Reconcile(s1, route, tail, downSince).1;
      var posts := Reconcile(s, route, items, downSince).1;
      assert posts == head + rest;
      forall k | 0 <= k < |posts|
        ensures posts[k].route == route && !posts[k].probed
        ensures exists j :: 0 <= j < |items| && InWindow(items[j], downSince) && posts[k].key == Decimal(items[j].id)
      {
        if k < |head| {
          assert posts[k] == Announcement(route, key, false);
          assert InWindow(items[0], downSince);
        } else {
          assert posts[k] == rest[k - |head|];
          var j :| 0 <= j < |tail| && InWindow(tail[j], downSince) && rest[k - |head|].key == Decimal(tail[j].id);
          assert tail[j] == items[j + 1];
        }
      }
    }
  }

  /** A reconciliation loop announces only first sightings and records exactly those. */
  lemma {:induction false} ReconcileFirstSightings(s: Snapshot, route: Route, items: seq<ApiItem>, downSince: int)
    ensures var (s', posts) := Reconcile(s, route, items, downSince);
      Accounted(s, s', posts)
    decreases |items|
  {
    if items != [] {
      var key := Decimal(items[0].id);
      var isNew := InWindow(items[0], downSince) && key !in s.Get(route.feed);
      var s1 := if isNew then s.Add(route.feed, key) else s;
      var head := if isNew then [Announcement(route, key, false)] else [];
      ReconcileFirstSightings(s1, route, items[1..], downSince);
      var (s2, rest) := Reconcile(s1, route, items[1..], downSince);
      AccountedStep(s, s1, head);
      Extend(s, s1, s2, head, rest);
    }
  }

  /**
    After a loop, every item of its listing inside the window is recorded in
    the route's feed, and nothing recorded before is lost.
  */
  lemma {:induction false} ReconcileCovers(s: Snapshot, route: Route, items: seq<ApiItem>, downSince: int)
    ensures var s' := Reconcile(s, route, items, downSince).0;
      s.Below(s') &&
      forall j :: 0 <= j < |items| && InWindow(items[j], downSince) ==> Decimal(items[j].id) in s'.Get(route.feed)
    decreases |items|
  {
    ReconcileFirstSightings(s, route, items, downSince);
    if items != [] {
      var key := Decimal(items[0].id);
      var s1 := if InWindow(items[0], downSince) && key !in s.Get(route.feed) then s.Add(route.feed, key) else s;
      ReconcileCovers(s1, route, items[1..], downSince);
      ReconcileFirstSightings(s1, route, items[1..], downSince);
      forall j | 1 <= j < |items| && InWindow(items[j], downSince)
        ensures Decimal(items[j].id) in Reconcile(s, route, items, downSince).0.Get(route.feed)
      {
        assert items[1..][j - 1] == items[j];
      }
    }
  }

  lemma {:induction false} ReconcileNothingNew(t: Snapshot, route: Route, items: seq<ApiItem>, downSince: int)
    requires forall j :: 0 <= j < |items| && InWindow(items[j], downSince) ==> Decimal(items[j].id) in t.Get(route.feed)
    ensures Reconcile(t, route, items, downSince) == (t, [])
    decreases |items|
  {
    if items != [] {
      assert forall j :: 0 <= j < |items| - 1 ==> items[1..][j] == items[j + 1];
      ReconcileNothingNew(t, route, items[1..], downSince);
      assert InWindow(items[0], downSince) ==> Decimal(items[0].id) in t.Get(route.feed);
      assert Reconcile(t, route, items, downSince).1 == [] + Reconcile(t, route, items[1..], downSince).1;
    }
  }

  /**
    Re-running a loop over the same listing with the same or a later cut-off
    announces nothing and changes nothing: everything it would consider was
    recorded by the first run.
  */
  lemma ReconcileIdempotent(s: Snapshot, route: Route, items: seq<ApiItem>, downSince: int, later: int)
    requires downSince <= later
    ensures var s' := Reconcile(s, route, items, downSince).0;
      Reconcile(s', route, items, later) == (s', [])
  {
    ReconcileCovers(s, route, items, downSince);
    ReconcileNothingNew(Reconcile(s, route, items, downSince).0, route, items, later);
  }

  /** One step of a reconciliation loop, taken at position `i` of the listing. */
  lemma ReconcileUnfold(s: Snapshot, route: Route, items: seq<ApiItem>, i: nat, downSince: int)
    requires i < |items|
    ensures var key := Decimal(items[i].id);
      var isNew := InWindow(items[i], downSince) && key !in s.Get(route.feed);
      var rest := Reconcile(if isNew then s.Add(route.feed, key) else s, route, items[i + 1..], downSince);
      Reconcile(s, route, items[i..], downSince)
        == (rest.0, (if isNew then [Announcement(route, key, false)] else []) + rest.1)
  {
    assert items[i..][1..] == items[i + 1..];
  }

  /** One listing's loop of `post_from_api` on the registry object. */
  method ReconcileFeed(ids: Ids, route: Route, items: seq<ApiItem>, downSince: int) returns (posts: seq<Announcement>)
    modifies ids
    ensures (ids.View(), posts) == Reconcile(old(ids.View()), route, items, downSince)
  {
    posts := [];
    assert items[0..] == items;
    assert posts + Reconcile(ids.View(), route, items, downSince).1 == Reconcile(ids.View(), route, items, downSince).1;
    for i := 0 to |items|
      invariant
        var rest := Reconcile(ids.View(), route, items[i..], downSince);
        Reconcile(old(ids.View()), route, items, downSince) == (rest.0, posts + rest.1)
    {
      ghost var before := ids.View();
      ghost var postsBefore := posts;
      ReconcileUnfold(before, route, items, i, downSince);
      var item := items[i];
      var key := Decimal(item.id);
      if InWindow(item, downSince) {
        var isNew := ids.Observe(route.feed, key);
        if isNew {
          posts := posts + [Announcement(route, key, false)];
          assert postsBefore + ([Announcement(route, key, false)] + Reconcile(ids.View(), route, items[i + 1..], downSince).1)
            == posts + Reconcile(ids.View(), route, items[i + 1..], downSince).1;
        } else {
          assert ids.View().Get(route.feed) == before.Get(route.feed);
          assert ids.View() == before;
          assert [] + Reconcile(before, route, items[i + 1..], downSince).1 == Reconcile(before, route, items[i + 1..], downSince).1;
        }
      } else {
        assert [] + Reconcile(before, route, items[i + 1..], downSince).1 == Reconcile(before, route, items[i + 1..], downSince).1;
      }
    }
    assert items[|items|..] == [];
    assert posts + [] == posts;
  }

  /** The five listings `post_from_api` fetches, each the twelve newest items. */
  datatype Listings = Listings(qs200: seq<ApiItem>, qs202: seq<ApiItem>, sandbox: seq<ApiItem>, qs716: seq<ApiItem>, qs717: seq<ApiItem>)
  {
    /** The listings with the route each one is announced on, in the order the loops run. */
    function Batches(): seq<(Route, seq<ApiItem>)> {
      [(CodeGolfQuestions, qs200), (CodeGolfMetaQuestions, qs202), (SandboxAnswers, sandbox),
       (LanguageDesignQuestions, qs716), (LanguageDesignMetaQuestions, qs717)]
    }
  }

  /** The reconciliation loops over `batches`, one after the other. */
  function ReconcileAll(s: Snapshot, batches: seq<(Route, seq<ApiItem>)>, downSince: int): (r: (Snapshot, seq<Announcement>))
    ensures s.Below(r.0)
    ensures forall feed :: (forall b :: 0 <= b < |batches| ==> batches[b].0.feed != feed) ==> r.0.Get(feed) == s.Get(feed)
    decreases |batches|
  {
    if batches == [] then (s, [])
    else
      var (s1, first) := Reconcile(s, batches[0].0, batches[0].1, downSince);
      var (s2, rest) := ReconcileAll(s1, batches[1..], downSince);
      assert forall b :: 1 <= b < |batches| ==> batches[b] == batches[1..][b - 1];
      (s2, first + rest)
  }

  /** Every windowed item of every batch is recorded in `t` under its route's feed. */
  ghost predicate Covered(t: Snapshot, batches: seq<(Route, seq<ApiItem>)>, downSince: int) {
    forall b, j :: 0 <= b < |batches| && 0 <= j < |batches[b].1| && InWindow(batches[b].1[j], downSince) ==>
      Decimal(batches[b].1[j].id) in t.Get(batches[b].0.feed)
  }

  /** A whole reconciliation pass announces only first sightings and records exactly those. */
  lemma {:induction false} ReconcileAllFirstSightings(s: Snapshot, batches: seq<(Route, seq<ApiItem>)>, downSince: int)
    ensures var (s', posts) := ReconcileAll(s, batches, downSince);
      Accounted(s, s', posts)
    decreases |batches|
  {
    if batches != [] {
      var (s1, first) := Reconcile(s, batches[0].0, batches[0].1, downSince);
      ReconcileFirstSightings(s, batches[0].0, batches[0].1, downSince);
      ReconcileAllFirstSightings(s1, batches[1..], downSince);
      var (s2, rest) := ReconcileAll(s1, batches[1..], downSince);
      Extend(s, s1, s2, first, rest);
    }
  }

  /** After a pass, every windowed item of every batch is recorded, and nothing recorded before is lost. */
  lemma {:induction false} ReconcileAllCovers(s: Snapshot, batches: seq<(Route, seq<ApiItem>)>, downSince: int)
    ensures var s' := ReconcileAll(s, batches, downSince).0;
      s.Below(s') && Covered(s', batches, downSince)
    decreases |batches|
  {
    if batches != [] {
      var s1 := Reconcile(s, batches[0].0, batches[0].1, downSince).0;
      var s' := ReconcileAll(s, batches, downSince).0;
      ReconcileCovers(s, batches[0].0, batches[0].1, downSince);
      ReconcileAllCovers(s1, batches[1..], downSince);
      forall b, j | 0 <= b < |batches| && 0 <= j < |batches[b].1| && InWindow(batches[b].1[j], downSince)
        ensures Decimal(batches[b].1[j].id) in s'.Get(batches[b].0.feed)
      {
        if b == 0 {
          assert Decimal(batches[0].1[j].id) in s1.Get(batches[0].0.feed);
        } else {
          assert batches[b] == batches[1..][b - 1];
        }
      }
    }
  }

  lemma {:induction false} ReconcileAllNothingNew(t: Snapshot, batches: seq<(Route, seq<ApiItem>)>, downSince: int)
    requires Covered(t, batches, downSince)
    ensures ReconcileAll(t, batches, downSince) == (t, [])
    decreases |batches|
  {
    if batches != [] {
      ReconcileNothingNew(t, batches[0].0, batches[0].1, downSince);
      assert forall b :: 0 <= b < |batches| - 1 ==> batches[1..][b] == batches[b + 1];
      ReconcileAllNothingNew(t, batches[1..], downSince);
      var none: seq<Announcement> := [];
      assert ReconcileAll(t, batches, downSince).1 == none + none;
    }
  }

  /**
    A second pass over the same listings, with the same or a later down-since
    time, announces nothing and leaves the registry as the first pass left it.
  */
  lemma ReconcileAllIdempotent(s: Snapshot, batches: seq<(Route, seq<ApiItem>)>, downSince: int, later: int)
    requires downSince <= later
    ensures var s' := ReconcileAll(s, batches, downSince).0;
      ReconcileAll(s', batches, later) == (s', [])
  {
    var s' := ReconcileAll(s, batches, downSince).0;
    ReconcileAllCovers(s, batches, downSince);
    ReconcileAllNothingNew(s', batches, later);
  }

  /** `post_from_api` once its five listings are fetched: the five loops, in source order. */
  method PostFromApi(ids: Ids, listings: Listings, downSince: int) returns (posts: seq<Announcement>)
    modifies ids
    ensures (ids.View(), posts) == ReconcileAll(old(ids.View()), listings.Batches(), downSince)
  {
    ghost var s0 := ids.View();
    var p200 := ReconcileFeed(ids, CodeGolfQuestions, listings.qs200, downSince);
    ghost var s1 := ids.View();
    var p202 := ReconcileFeed(ids, CodeGolfMetaQuestions, listings.qs202, downSince);
    ghost var s2 := ids.View();
    var pSandbox := ReconcileFeed(ids, SandboxAnswers, listings.sandbox, downSince);
    ghost var s3 := ids.View();
    var p716 := ReconcileFeed(ids, LanguageDesignQuestions, listings.qs716, downSince);
    ghost var s4 := ids.View();
    var p717 := ReconcileFeed(ids, LanguageDesignMetaQuestions, listings.qs717, downSince);
    posts := p200 + p202 + pSandbox + p716 + p717;
    ghost var batches := listings.Batches();
    assert batches == [(CodeGolfQuestions, listings.qs200), (CodeGolfMetaQuestions, listings.qs202), (SandboxAnswers, listings.sandbox),
                       (LanguageDesignQuestions, listings.qs716), (LanguageDesignMetaQuestions, listings.qs717)];
    LoopsCompose(batches, downSince, [s0, s1, s2, s3, s4, ids.View()], [p200, p202, pSandbox, p716, p717]);
    ConcatFive(p200, p202, pSandbox, p716, p717);
  }

  lemma ConcatFive<T>(a: seq<T>, b: seq<T>, c: seq<T>, d: seq<T>, e: seq<T>)
    ensures Concat([a, b, c, d, e]) == a + b + c + d + e
  {
    assert Concat([e]) == e + Concat([]) == e by { assert [e][1..] == []; }
    assert Concat([d, e]) == d + Concat([e]) by { assert [d, e][1..] == [e]; }
    assert Concat([c, d, e]) == c + Concat([d, e]) by { assert [c, d, e][1..] == [d, e]; }
    assert Concat([b, c, d, e]) == b + Concat([c, d, e]) by { assert [b, c, d, e][1..] == [c, d, e]; }
    assert Concat([a, b, c, d, e]) == a + Concat([b, c, d, e]) by { assert [a, b, c, d, e][1..] == [b, c, d, e]; }
    assert a + b + c + d + e == a + (b + (c + (d + e)));
  }

  function Concat<T>(parts: seq<seq<T>>): seq<T> {
    if parts == [] then [] else parts[0] + Concat(parts[1..])
  }

  /**
    Loops run one after the other, with registry `states[k]` before loop `k`
    and `states[k + 1]` after it, make up one pass.
  */
  lemma {:induction false} LoopsCompose(batches: seq<(Route, seq<ApiItem>)>, downSince: int,
                                        states: seq<Snapshot>, posts: seq<seq<Announcement>>)
    requires |states| == |batches| + 1 && |posts| == |batches|
    requires forall k :: 0 <= k < |batches| ==>
      (states[k + 1], posts[k]) == Reconcile(states[k], batches[k].0, batches[k].1, downSince)
    ensures ReconcileAll(states[0], batches, downSince) == (states[|batches|], Concat(posts))
    decreases |batches|
  {
    if batches != [] {
      LoopsCompose(batches[1..], downSince, states[1..], posts[1..]);
    }
  }

  // ---------------------------------------------------------------------
  // The reconnect loop

  /** How long a watch connection lives before it is replaced: 12 minutes with the kill offset, else 24. */
  function WatchLifetimeMs(killOffset: bool): (r: nat)
    ensures killOffset ==> r == 720000
    ensures !killOffset ==> r == 1440000
  {
    if killOffset then 720000 else 1440000
  }

  /**
    What one round of `watch_ws` meets: the clock when it starts, the five
    listings (`None` when a request or its decoding fails), and the messages
    the connection handles before it ends (`None` when connecting or
    subscribing fails).
  */
  datatype WatchRound = WatchRound(now: int, listings: Option<Listings>, connection: Option<seq<WatchMessage>>)

  /** The reconciliation window's start: twenty minutes before the round begins. */
  function DownSince(now: int): int {
    now - 1200000
  }

  /** A round starting at `now` reconciles exactly the items created less than 1220 s (20 min 20 s) before it. */
  lemma WindowOfRound(now: int, item: ApiItem)
    ensures InWindow(item, DownSince(now)) <==> now - item.creationDate * 1000 < 1220000
  {
  }

  /**
    One round of `watch_ws` on registry `s`: the reconciliation pass from
    `DownSince(round.now)`, then (if the listings arrived) one connection
    whose lifetime depends on `killOffset`. The result is the registry
    afterwards, the connection's lifetime if it opened, the announcements of
    the pass and then of the connection, and whether the round ends the task:
    a failed fetch, a failed connection, or a handler panic.
  */
  function WatchRoundRun(s: Snapshot, round: WatchRound, killOffset: bool): (r: (Snapshot, Option<nat>, seq<Announcement>, bool))
    ensures r.1.Some? <==> round.listings.Some? && round.connection.Some?
    ensures r.1.Some? ==> r.1.value == WatchLifetimeMs(killOffset)
    ensures !r.3 ==> r.1.Some?
  {
    match round.listings
    case None => (s, None, [], true)
    case Some(listings) =>
      var (s1, batch) := ReconcileAll(s, listings.Batches(), DownSince(round.now));
      match round.connection
      case None => (s1, None, batch, true)
      case Some(msgs) =>
        var (s2, log) := Run(s1, msgs);
        (s2, Some(WatchLifetimeMs(killOffset)), batch + Posts(log), |log| > 0 && log[|log| - 1].Panicked?)
  }

  /** A round announces only first sightings, and its registry afterwards is the one before plus exactly those. */
  lemma WatchRoundAccounted(s: Snapshot, round: WatchRound, killOffset: bool)
    ensures var r := WatchRoundRun(s, round, killOffset);
      Accounted(s, r.0, r.2)
  {
    if round.listings.Some? {
      var batches := round.listings.value.Batches();
      var (s1, batch) := ReconcileAll(s, batches, DownSince(round.now));
      ReconcileAllFirstSightings(s, batches, DownSince(round.now));
      if round.connection.Some? {
        var (s2, log) := Run(s1, round.connection.value);
        RunFirstSightings(s1, round.connection.value);
        Extend(s, s1, s2, batch, Posts(log));
      }
    } else {
      AccountedStep(s, s, []);
    }
  }

  /**
    Socket downtime is covered: after a round that fetched its listings,
    every listed item inside the window of `DownSince(round.now)` is recorded
    under its route's feed, whatever the connection did afterwards.
  */
  lemma WatchRoundCovers(s: Snapshot, round: WatchRound, killOffset: bool)
    requires round.listings.Some?
    ensures Covered(WatchRoundRun(s, round, killOffset).0, round.listings.value.Batches(), DownSince(round.now))
  {
    var batches := round.listings.value.Batches();
    var s1 := ReconcileAll(s, batches, DownSince(round.now)).0;
    ReconcileAllCovers(s, batches, DownSince(round.now));
    if round.connection.Some? {
      var (s2, log) := Run(s1, round.connection.value);
      RunFirstSightings(s1, round.connection.value);
      assert s1.Below(s2);
    }
  }

  /**
    `watch_ws` over `rounds` from registry `s`: the rounds in turn until one
    ends the task. Watcher 1's first connection gets the kill offset. The
    result is the registry afterwards, the lifetimes of the connections
    opened, all announcements, and whether the task ended.
  */
  function WatchRounds(s: Snapshot, id: nat, rounds: seq<WatchRound>, first: bool): (r: (Snapshot, seq<nat>, seq<Announcement>, bool))
    ensures |r.1| <= |rounds|
    ensures !r.3 ==> |r.1| == |rounds|
    ensures forall k :: 0 <= k < |r.1| ==> r.1[k] == WatchLifetimeMs(id == 1 && first && k == 0)
    ensures !r.3 ==> forall k :: 0 <= k < |rounds| ==> rounds[k].listings.Some? && rounds[k].connection.Some?
    decreases |rounds|
  {
    if rounds == [] then (s, [], [], false)
    else
      var (s1, lifetime, posts, panicked) := WatchRoundRun(s, rounds[0], id == 1 && first);
      if panicked then (s1, if lifetime.Some? then [lifetime.value] else [], posts, true)
      else
        var (s2, lifetimes, more, ended) := WatchRounds(s1, id, rounds[1..], false);
        assert forall k :: 1 <= k < |rounds| ==> rounds[k] == rounds[1..][k - 1];
        (s2, [lifetime.value] + lifetimes, posts + more, ended)
  }

  /** Over all rounds of a watcher, every announcement is a first sighting, and the registry records exactly those. */
  lemma {:induction false} WatchRoundsAccounted(s: Snapshot, id: nat, rounds: seq<WatchRound>, first: bool)
    ensures var r := WatchRounds(s, id, rounds, first);
      Accounted(s, r.0, r.2)
    decreases |rounds|
  {
    if rounds == [] {
      AccountedStep(s, s, []);
    } else {
      var (s1, lifetime, posts, panicked) := WatchRoundRun(s, rounds[0], id == 1 && first);
      WatchRoundAccounted(s, rounds[0], id == 1 && first);
      if !panicked {
        WatchRoundsAccounted(s1, id, rounds[1..], false);
        var r := WatchRounds(s1, id, rounds[1..], false);
        Extend(s, s1, r.0, posts, r.2);
      }
    }
  }

  /**
    One round of `watch_ws`: the reconciliation pass, then (if the listings
    arrived) one connection, with the kill offset `killOffset`. `lifetime` is
    the connection's lifetime when it was opened; `panicked` is whether the
    round ends the task.
  */
  method WatchOnce(ids: Ids, round: WatchRound, killOffset: bool) returns (lifetime: Option<nat>, posts: seq<Announcement>, panicked: bool)
    modifies ids
    ensures (ids.View(), lifetime, posts, panicked) == WatchRoundRun(old(ids.View()), round, killOffset)
    ensures Accounted(old(ids.View()), ids.View(), posts)
  {
    WatchRoundAccounted(ids.View(), round, killOffset);
    if round.listings.None? {
      return None, [], true;
    }
    var batch := PostFromApi(ids, round.listings.value, DownSince(round.now));
    if round.connection.None? {
      return None, batch, true;
    }
    lifetime := Some(WatchLifetimeMs(killOffset));
    var log := RunWatch(ids, round.connection.value);
    posts := batch + Posts(log);
    panicked := |log| > 0 && log[|log| - 1].Panicked?;
  }

  /** A prefix of a fold's outputs glued in front of the rest of the fold. */
  function Glue(lifetimes: seq<nat>, posts: seq<Announcement>, r: (Snapshot, seq<nat>, seq<Announcement>, bool))
    : (Snapshot, seq<nat>, seq<Announcement>, bool)
  {
    (r.0, lifetimes + r.1, posts + r.2, r.3)
  }

  /** One round of the fold, taken at position `i`, on top of the outputs of the rounds before it. */
  lemma WatchRoundsStep(whole: (Snapshot, seq<nat>, seq<Announcement>, bool), s: Snapshot, id: nat, rounds: seq<WatchRound>,
                        i: nat, first: bool, lifetimes: seq<nat>, posts: seq<Announcement>,
                        s1: Snapshot, lifetime: Option<nat>, batch: seq<Announcement>, failed: bool)
    requires i < |rounds|
    requires whole == Glue(lifetimes, posts, WatchRounds(s, id, rounds[i..], first))
    requires (s1, lifetime, batch, failed) == WatchRoundRun(s, rounds[i], id == 1 && first)
    ensures failed ==> whole == (s1, lifetimes + (if lifetime.Some? then [lifetime.value] else []), posts + batch, true)
    ensures !failed ==> lifetime.Some?
    ensures !failed ==> whole == Glue(lifetimes + [lifetime.value], posts + batch, WatchRounds(s1, id, rounds[i + 1..], false))
  {
    assert rounds[i..][0] == rounds[i];
    assert rounds[i..][1..] == rounds[i + 1..];
    if !failed {
      var next := WatchRounds(s1, id, rounds[i + 1..], false);
      assert lifetimes + ([lifetime.value] + next.1) == (lifetimes + [lifetime.value]) + next.1;
      assert posts + (batch + next.2) == (posts + batch) + next.2;
    }
  }

  /**
    `watch_ws`: reconcile against the API from twenty minutes back, then hold
    one socket connection, again and again; any failure ends the task.
    Watcher 1's first connection lives half as long as every other, which
    staggers the two watchers' reconnects. Over all rounds together, every
    announcement is a first sighting.
  */
  method WatchWs(id: nat, ids: Ids, rounds: seq<WatchRound>) returns (lifetimes: seq<nat>, posts: seq<Announcement>, panicked: bool)
    modifies ids
    ensures (ids.View(), lifetimes, posts, panicked) == WatchRounds(old(ids.View()), id, rounds, true)
    ensures forall k :: 0 <= k < |lifetimes| ==> lifetimes[k] == WatchLifetimeMs(id == 1 && k == 0)
    ensures !panicked ==> |lifetimes| == |rounds|
    ensures Accounted(old(ids.View()), ids.View(), posts)
  {
    ghost var s0 := ids.View();
    WatchRoundsAccounted(s0, id, rounds, true);
    var first := true;
    lifetimes, posts, panicked := [], [], false;
    var i := 0;
    ghost var whole := WatchRounds(s0, id, rounds, true);
    assert rounds[0..] == rounds;
    assert [] + whole.1 == whole.1 && [] + whole.2 == whole.2;
    while i < |rounds| && !panicked
      invariant 0 <= i <= |rounds|
      invariant first <==> i == 0
      invariant !panicked ==> whole == Glue(lifetimes, posts, WatchRounds(ids.View(), id, rounds[i..], first))
      invariant panicked ==> whole == (ids.View(), lifetimes, posts, true)
    {
      ghost var before := ids.View();
      var lifetime, batch, failed := WatchOnce(ids, rounds[i], id == 1 && first);
      WatchRoundsStep(whole, before, id, rounds, i, first, lifetimes, posts, ids.View(), lifetime, batch, failed);
      posts := posts + batch;
      if lifetime.Some? {
        lifetimes := lifetimes + [lifetime.value];
      } else {
        assert lifetimes + [] == lifetimes;
      }
      panicked := failed;
      first := false;
      i := i + 1;
    }
    if !panicked {
      assert rounds[i..] == [];
      assert lifetimes + [] == lifetimes && posts + [] == posts;
    }
  }
}
