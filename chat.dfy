/**
  The chat side of the bot: acknowledging the room's pending messages
  (`ack_back`), reading question links out of the room history to seed the
  registry (`known_ids`), the room socket's acknowledgement handler, its
  liveness watchdog and the reconnect loop (`chat_ws`).
*/
module Chat {
  import opened Results
  import opened Strings
  import opened Dom
  import opened Registry

  // ---------------------------------------------------------------------
  // Finding the room's start-up script

  /** The call the room page's start-up script makes; the acknowledgement data follows it. */
  const ChatMarker := "var chat = StartChat"

  /** A `script` element with exactly one child: the search answers from it and never looks inside. */
  predicate IsScriptLeaf(node: Node) {
    node.Element? && node.name == "script" && |node.children| == 1
  }

  /** The script text of such an element, when its one child is text that contains the marker. */
  function ChatScript(node: Node): Option<string> {
    if node.Element? && |node.children| == 1 && node.children[0].Text? && Contains(node.children[0].text, ChatMarker)
    then Some(node.children[0].text)
    else None
  }

  /**
    `find_script`: the first single-child `script` element, in pre-order,
    whose text contains the marker. Single-child scripts that do not match
    are skipped without looking inside them.
  */
  function FindScript(nodes: seq<Node>): (r: Option<string>)
    ensures r == FirstHit(Frontier(nodes, IsScriptLeaf), ChatScript)
    ensures r.Some? ==> Contains(r.value, ChatMarker)
  {
    SearchIsFirstHit(nodes, IsScriptLeaf, ChatScript);
    SearchNodes(nodes, IsScriptLeaf, ChatScript)
  }

  /** A single-child script is never descended into, whatever its child holds. */
  lemma ScriptLeafIsOpaque(attrs: map<string, Option<string>>, child: Node)
    ensures FindScript([Element("script", attrs, [child])])
      == if child.Text? && Contains(child.text, ChatMarker) then Some(child.text) else None
  {
    var node := Element("script", attrs, [child]);
    assert FrontierOf(node, IsScriptLeaf) == [node];
    assert Frontier([node], IsScriptLeaf) == [node] + Frontier([], IsScriptLeaf);
  }

  // ---------------------------------------------------------------------
  // The acknowledgement list in the script

  /** Why the script's acknowledgement list cannot be read: a missing piece (an error) or a panic. */
  datatype ListFault = MissingAckBack | Malformed

  /**
    The message identifiers `ack_back` finds in the script: after the marker,
    up to the first `");"`, the last line with its leading whitespace removed
    holds a `{id:value,...}` object, whose keys are the identifiers.
  */
  function AckIdList(script: string): (r: Result<seq<string>, ListFault>)
    ensures r.Ok? ==> forall k :: 0 <= k < |r.value| ==> ',' !in r.value[k] && ':' !in r.value[k]
  {
    match Find(script, ChatMarker)
    case None => Err(Malformed)
    case Some(i) =>
      var suffix := script[i + |ChatMarker|..];
      match Find(suffix, ");")
      case None => Err(MissingAckBack)
      case Some(j) =>
        match RSplitOnce(suffix[..j], '\n')
        case None => Err(MissingAckBack)
        case Some((_, last)) => DictKeys(TrimStart(last))
  }

  /** The script's first marker follows `pre`: no copy of it starts inside `pre`. */
  predicate MarkerFirstAfter(pre: string) {
    forall j :: 0 <= j < |pre| ==> !OccursAt(pre + ChatMarker, ChatMarker, j)
  }

  /** Where the first marker follows `pre`, `ack_back` goes on with exactly the text after it. */
  lemma MarkerFound(pre: string, rest: string)
    requires MarkerFirstAfter(pre)
    ensures Find(pre + ChatMarker + rest, ChatMarker) == Some(|pre|)
    ensures (pre + ChatMarker + rest)[|pre| + |ChatMarker|..] == rest
  {
    var script := pre + ChatMarker + rest;
    assert script[|pre|..|pre| + |ChatMarker|] == ChatMarker;
    forall j | 0 <= j < |pre| ensures !OccursAt(script, ChatMarker, j) {
      OccursInPrefix(pre + ChatMarker, rest, ChatMarker, j);
    }
    FindFirst(script, ChatMarker, |pre|);
  }

  /** The first `");"` after `line` is the one right after it, and the text before it is `line`. */
  lemma ClosingFound(line: string, post: string)
    requires forall j :: 0 <= j < |line| ==> !OccursAt(line + ");", ");", j)
    ensures Find(line + ");" + post, ");") == Some(|line|)
    ensures (line + ");" + post)[..|line|] == line
  {
    var rest := line + ");" + post;
    assert rest[|line|..|line| + 2] == ");";
    forall j | 0 <= j < |line| ensures !OccursAt(rest, ");", j) {
      OccursInPrefix(line + ");", post, ");", j);
    }
    FindFirst(rest, ");", |line|);
  }

  /**
    The room page's layout: after the marker, some text, a line break, the
    indentation and the object literal, then the first `");"`. The list read
    is exactly the keys of that literal.
  */
  lemma AckIdListReadsLastLine(pre: string, mid: string, ws: string, literal: string, post: string)
    requires MarkerFirstAfter(pre)
    requires forall j :: 0 <= j < |mid| + 1 + |ws| + |literal| ==> !OccursAt(mid + "\n" + ws + literal + ");", ");", j)
    requires '\n' !in ws && '\n' !in literal
    requires forall j :: 0 <= j < |ws| ==> IsWhitespace(ws[j])
    requires literal == [] || !IsWhitespace(literal[0])
    ensures AckIdList(pre + ChatMarker + (mid + "\n" + ws + literal + ");" + post)) == DictKeys(literal)
  {
    var line := mid + "\n" + ws + literal;
    MarkerFound(pre, line + ");" + post);
    ClosingFound(line, post);
    assert line == mid + ['\n'] + (ws + literal);
    assert '\n' !in ws + literal;
    RSplitOnceOf(mid, '\n', ws + literal);
    TrimStartOf(ws, literal);
  }

  /** With no `");"` after the marker, `ack_back` finds no list: an error, not a panic. */
  lemma AckIdListUnclosed(pre: string, rest: string)
    requires MarkerFirstAfter(pre) && !Contains(rest, ");")
    ensures AckIdList(pre + ChatMarker + rest) == Err(MissingAckBack)
  {
    MarkerFound(pre, rest);
  }

  /** With the first `");"` on the marker's own line, there is no line break to cut the list's line at: an error. */
  lemma AckIdListOnMarkerLine(pre: string, mid: string, post: string)
    requires MarkerFirstAfter(pre) && '\n' !in mid
    requires forall j :: 0 <= j < |mid| ==> !OccursAt(mid + ");", ");", j)
    ensures AckIdList(pre + ChatMarker + (mid + ");" + post)) == Err(MissingAckBack)
  {
    MarkerFound(pre, mid + ");" + post);
    ClosingFound(mid, post);
  }

  /**
    The keys of an object literal: none for `{}`; otherwise the text between
    the first and last character, split at commas, each piece cut at its first
    colon. A text shorter than two characters, or a piece without a colon,
    panics.
  */
  function DictKeys(dict: string): (r: Result<seq<string>, ListFault>)
    ensures r.Ok? ==> forall k :: 0 <= k < |r.value| ==> ',' !in r.value[k] && ':' !in r.value[k]
    ensures r.Err? ==> r.error == Malformed
  {
    if dict == "{}" then Ok([])
    else if |dict| < 2 then Err(Malformed)
    else
      var pieces := Split(dict[1..|dict| - 1], ',');
      var r := Keys(pieces);
      assert r.Ok? ==> forall k :: 0 <= k < |r.value| ==> ',' !in r.value[k] by {
        if r.Ok? {
          forall k | 0 <= k < |r.value| ensures ',' !in r.value[k] {
            var (key, value) := SplitOnce(pieces[k], ':').value;
            assert pieces[k] == key + [':'] + value;
          }
        }
      }
      r
  }

  /**
    The part before the first colon of every piece; a piece without a colon
    makes the `unwrap` panic.
  */
  function Keys(pairs: seq<string>): (r: Result<seq<string>, ListFault>)
    ensures r.Ok? <==> forall k :: 0 <= k < |pairs| ==> ':' in pairs[k]
    ensures r.Ok? ==> |r.value| == |pairs|
    ensures r.Ok? ==> forall k :: 0 <= k < |pairs| ==> SplitOnce(pairs[k], ':').Some? && SplitOnce(pairs[k], ':').value.0 == r.value[k]
    ensures r.Err? ==> r.error == Malformed
  {
    if forall k :: 0 <= k < |pairs| ==> ':' in pairs[k] then
      Ok(seq(|pairs|, k requires 0 <= k < |pairs| && ':' in pairs[k] => SplitOnce(pairs[k], ':').value.0))
    else Err(Malformed)
  }

  /** The `key:value` pieces of an object literal. */
  function Pairs(keys: seq<string>, values: seq<string>): (r: seq<string>)
    requires |keys| == |values|
    ensures |r| == |keys|
    ensures forall k :: 0 <= k < |keys| ==> r[k] == keys[k] + [':'] + values[k]
  {
    seq(|keys|, k requires 0 <= k < |keys| => keys[k] + [':'] + values[k])
  }

  /** Keys free of colons come back from their `key:value` pieces. */
  lemma KeysOfPairs(keys: seq<string>, values: seq<string>)
    requires |keys| == |values|
    requires forall k :: 0 <= k < |keys| ==> ':' !in keys[k]
    ensures Keys(Pairs(keys, values)) == Ok(keys)
  {
    var pairs := Pairs(keys, values);
    forall k | 0 <= k < |keys| ensures ':' in pairs[k] && SplitOnce(pairs[k], ':') == Some((keys[k], values[k])) {
      SplitOnceOf(keys[k], ':', values[k]);
    }
    var r := Keys(pairs);
    assert r.Ok?;
    assert |r.value| == |keys|;
    assert forall k :: 0 <= k < |keys| ==> r.value[k] == keys[k];
    assert r.value == keys;
  }

  /**
    An object literal written out from keys free of commas and colons, and
    values free of commas, reads back as exactly those keys, in order.
  */
  lemma DictKeysOfLiteral(keys: seq<string>, values: seq<string>)
    requires |keys| == |values| > 0
    requires forall k :: 0 <= k < |keys| ==> ',' !in keys[k] && ':' !in keys[k] && ',' !in values[k]
    ensures DictKeys("{" + Join(Pairs(keys, values), ',') + "}") == Ok(keys)
  {
    var pairs := Pairs(keys, values);
    var body := Join(pairs, ',');
    var dict := "{" + body + "}";
    forall k | 0 <= k < |pairs| ensures ',' !in pairs[k] {
      assert pairs[k] == keys[k] + [':'] + values[k];
    }
    SplitJoin(pairs, ',');
    assert dict[1..|dict| - 1] == body;
    assert dict != "{}" by {
      assert pairs[0] == keys[0] + [':'] + values[0];
      JoinFirst(pairs, ',');
    }
    KeysOfPairs(keys, values);
  }

  // ---------------------------------------------------------------------
  // Acknowledging messages at most once

  /** The message identifiers acknowledged so far; one set is shared by every connection of a `chat_ws` task. */
  class AckSet {
    var acked: set<nat>

    constructor ()
      ensures acked == {}
    {
      acked := {};
    }

    /** `HashSet::insert`: true exactly when `id` was not acknowledged yet; afterwards it is recorded. */
    method Insert(id: nat) returns (isNew: bool)
      modifies this
      ensures isNew <==> id !in old(acked)
      ensures acked == old(acked) + {id}
    {
      isNew := id !in acked;
      acked := acked + {id};
    }
  }

  function Elems(xs: seq<nat>): set<nat> {
    set x | x in xs
  }

  predicate Distinct(xs: seq<nat>) {
    forall j, k :: 0 <= j < k < |xs| ==> xs[j] != xs[k]
  }

  /**
    Going from set `before` to set `after`, the acknowledgements `acks` were
    made: each for an identifier not in `before`, none twice, and `after` is
    `before` with exactly those added.
  */
  predicate AcksNew(before: set<nat>, after: set<nat>, acks: seq<nat>) {
    && after == before + Elems(acks)
    && (forall k :: 0 <= k < |acks| ==> acks[k] !in before)
    && Distinct(acks)
  }

  /** Acknowledgements through one shared set compose: what a later round acknowledges was not acknowledged before. */
  lemma AcksNewCompose(s: set<nat>, t: set<nat>, u: set<nat>, a: seq<nat>, b: seq<nat>)
    requires AcksNew(s, t, a) && AcksNew(t, u, b)
    ensures AcksNew(s, u, a + b)
  {
    var all := a + b;
    assert Elems(all) == Elems(a) + Elems(b);
    forall k | |a| <= k < |all| ensures all[k] !in s {
      assert all[k] == b[k - |a|];
    }
    forall j, k | 0 <= j < k < |all| ensures all[j] != all[k] {
      if k >= |a| {
        assert all[k] == b[k - |a|];
        if j >= |a| {
          assert all[j] == b[j - |a|];
        } else {
          assert all[j] in Elems(a);
        }
      }
    }
  }

  /**
    Inserting `ids` in order into the set `seen`, acknowledging each one the
    insertion reports new: the set afterwards and the acknowledgements made.
  */
  function Acknowledge(seen: set<nat>, ids: seq<nat>): (r: (set<nat>, seq<nat>))
    ensures seen <= r.0
    ensures forall k :: 0 <= k < |r.1| ==> r.1[k] in ids && r.1[k] !in seen
    decreases |ids|
  {
    if ids == [] then (seen, [])
    else if ids[0] in seen then Acknowledge(seen, ids[1..])
    else
      var (after, acks) := Acknowledge(seen + {ids[0]}, ids[1..]);
      (after, [ids[0]] + acks)
  }

  /** The elements of a list with one more in front. */
  lemma ElemsCons(x: nat, xs: seq<nat>)
    ensures Elems([x] + xs) == {x} + Elems(xs)
  {
    assert forall y :: y in [x] + xs <==> y == x || y in xs;
  }

  /** A new identifier in front of a list without repeats keeps it without repeats. */
  lemma DistinctCons(x: nat, xs: seq<nat>)
    requires Distinct(xs) && x !in xs
    ensures Distinct([x] + xs)
  {
    var ys := [x] + xs;
    forall j, k | 0 <= j < k < |ys| ensures ys[j] != ys[k] {
      assert ys[k] == xs[k - 1];
      if j > 0 {
        assert ys[j] == xs[j - 1];
      }
    }
  }

  /**
    Every identifier of `ids` ends up in the set; exactly those not in `seen`
    are acknowledged, each once; the set afterwards is `seen` plus what was
    acknowledged.
  */
  lemma {:induction false} AcknowledgeOnce(seen: set<nat>, ids: seq<nat>)
    ensures var (after, acks) := Acknowledge(seen, ids);
      && after == seen + Elems(ids)
      && after == seen + Elems(acks)
      && (forall x :: x in acks <==> x in ids && x !in seen)
      && Distinct(acks)
    decreases |ids|
  {
    if ids != [] {
      var tail := ids[1..];
      assert ids == [ids[0]] + tail;
      ElemsCons(ids[0], tail);
      if ids[0] in seen {
        AcknowledgeOnce(seen, tail);
      } else {
        AcknowledgeOnce(seen + {ids[0]}, tail);
        var (after, rest) := Acknowledge(seen + {ids[0]}, tail);
        assert ids[0] !in rest;
        ElemsCons(ids[0], rest);
        DistinctCons(ids[0], rest);
      }
    }
  }


  /** The identifiers before the first missing one, and whether one is missing (which ends the task). */
  function UntilMissing(ids: seq<Option<nat>>): (r: (seq<nat>, bool))
    ensures |r.0| <= |ids|
    ensures r.1 <==> exists k :: 0 <= k < |ids| && ids[k].None?
    ensures forall k :: 0 <= k < |r.0| ==> ids[k] == Some(r.0[k])
    ensures !r.1 ==> |r.0| == |ids|
    ensures r.1 ==> |r.0| < |ids| && ids[|r.0|].None?
    decreases |ids|
  {
    if ids == [] then ([], false)
    else
      match ids[0]
      case None => ([], true)
      case Some(id) =>
        var (rest, missing) := UntilMissing(ids[1..]);
        assert forall k :: 1 <= k < |ids| ==> ids[k] == ids[1..][k - 1];
        ([id] + rest, missing)
  }

  /**
    The acknowledgement loop shared by `ack_back` and the socket handler:
    insert each identifier, acknowledge it if new, and stop at the first
    missing one (an unparsable key or an event without a message id).
  */
  method AckUntilMissing(ack: AckSet, ids: seq<Option<nat>>) returns (acks: seq<nat>, stopped: bool)
    modifies ack
    ensures var (present, missing) := UntilMissing(ids);
      (ack.acked, acks) == Acknowledge(old(ack.acked), present) && stopped == missing
    ensures AcksNew(old(ack.acked), ack.acked, acks)
  {
    acks, stopped := [], false;
    var i := 0;
    assert ids[0..] == ids;
    assert acks + Acknowledge(ack.acked, UntilMissing(ids).0).1 == Acknowledge(ack.acked, UntilMissing(ids).0).1;
    while i < |ids| && !stopped
      invariant 0 <= i <= |ids|
      invariant !stopped ==>
        var (present, missing) := UntilMissing(ids[i..]);
        var (after, rest) := Acknowledge(ack.acked, present);
        UntilMissing(ids).1 == missing && Acknowledge(old(ack.acked), UntilMissing(ids).0) == (after, acks + rest)
      invariant stopped ==>
        UntilMissing(ids).1 && Acknowledge(old(ack.acked), UntilMissing(ids).0) == (ack.acked, acks)
      decreases |ids| - i, !stopped
    {
      assert ids[i..][1..] == ids[i + 1..];
      match ids[i]
      case None =>
        assert UntilMissing(ids[i..]) == ([], true);
        assert acks + [] == acks;
        stopped := true;
      case Some(id) =>
        ghost var before := ack.acked;
        ghost var acksBefore := acks;
        var isNew := ack.Insert(id);
        if isNew {
          acks := acks + [id];
          ghost var rest := Acknowledge(ack.acked, UntilMissing(ids[i + 1..]).0).1;
          assert acksBefore + ([id] + rest) == acks + rest;
        } else {
          assert ack.acked == before;
        }
      i := i + 1;
    }
    if !stopped {
      assert ids[i..] == [];
      assert acks + [] == acks;
    }
    AcknowledgeOnce(old(ack.acked), UntilMissing(ids).0);
  }

  // ---------------------------------------------------------------------
  // `ack_back`: acknowledging what the room page lists as unacknowledged

  /** Why `ack_back` returns an error: the page could not be fetched or parsed, a piece is missing, or a key is not a `u64`. */
  datatype AckFault = PageFailed | NoAckBack | BadId

  /** How `ack_back` ends: normally, with an error, or by a panic. */
  datatype AckEnd = Acked | Failed(fault: AckFault) | Panicked

  /**
    The keys of the acknowledgement list on the room page (`None` when the
    request or the HTML parse failed), or how `ack_back` ends before it
    acknowledges anything.
  */
  function AckBackKeys(page: Option<seq<Node>>): (r: Result<seq<string>, AckEnd>)
    ensures r.Err? ==> r.error != Acked && r.error != Failed(BadId)
    ensures r.Ok? ==> page.Some? && FindScript(page.value).Some?
    ensures r.Ok? ==> AckIdList(FindScript(page.value).value) == Ok(r.value)
  {
    match page
    case None => Err(Failed(PageFailed))
    case Some(nodes) =>
      match FindScript(nodes)
      case None => Err(Failed(NoAckBack))
      case Some(script) =>
        match AckIdList(script)
        case Ok(keys) => Ok(keys)
        case Err(MissingAckBack) => Err(Failed(NoAckBack))
        case Err(Malformed) => Err(Panicked)
  }

  /** Each key parsed as a `u64`, `None` where it does not parse. */
  function ParsedIds(keys: seq<string>): (r: seq<Option<nat>>)
    ensures |r| == |keys|
    ensures forall k :: 0 <= k < |keys| ==> r[k] == ParseU64(keys[k])
  {
    seq(|keys|, k requires 0 <= k < |keys| => ParseU64(keys[k]))
  }

  /**
    `ack_back`: read the list, then insert each identifier into the shared
    set and acknowledge it when it is new; the first key that is not a `u64`
    ends the call with an error, after the acknowledgements before it.
  */
  method AckBack(ack: AckSet, page: Option<seq<Node>>) returns (acks: seq<nat>, end: AckEnd)
    modifies ack
    ensures (ack.acked, acks, end) == AckBackRun(old(ack.acked), page)
    ensures AcksNew(old(ack.acked), ack.acked, acks)
  {
    match AckBackKeys(page)
    case Err(e) =>
      acks, end := [], e;
    case Ok(keys) =>
      var stopped;
      acks, stopped := AckUntilMissing(ack, ParsedIds(keys));
      end := if stopped then Failed(BadId) else Acked;
  }

  /**
    `ack_back` as a function of the set before it: the set after, the
    acknowledgements made and how the call ends. The first key that is not a
    `u64` ends it with an error, after the acknowledgements before it.
  */
  function AckBackRun(seen: set<nat>, page: Option<seq<Node>>): (r: (set<nat>, seq<nat>, AckEnd))
  {
    match AckBackKeys(page)
    case Err(e) => (seen, [], e)
    case Ok(keys) =>
      var (present, missing) := UntilMissing(ParsedIds(keys));
      var (after, acks) := Acknowledge(seen, present);
      (after, acks, if missing then Failed(BadId) else Acked)
  }

  /**
    How `ack_back` ends: before the list is read, with nothing acknowledged;
    having recorded every key of the list; or at a key that is not a `u64`.
  */
  lemma AckBackEnds(seen: set<nat>, page: Option<seq<Node>>)
    ensures var r := AckBackRun(seen, page);
      && (AckBackKeys(page).Err? ==> r == (seen, [], AckBackKeys(page).error))
      && (r.2 == Acked ==> (AckBackKeys(page).Ok? &&
            forall k :: 0 <= k < |AckBackKeys(page).value| ==>
              ParseU64(AckBackKeys(page).value[k]).Some? && ParseU64(AckBackKeys(page).value[k]).value in r.0))
      && (r.2 == Failed(BadId) ==> (AckBackKeys(page).Ok? &&
            exists k :: 0 <= k < |AckBackKeys(page).value| && ParseU64(AckBackKeys(page).value[k]).None?))
  {
    if AckBackKeys(page).Ok? {
      var keys := AckBackKeys(page).value;
      var (present, missing) := UntilMissing(ParsedIds(keys));
      AcknowledgeOnce(seen, present);
      assert !missing ==> forall k :: 0 <= k < |keys| ==> ParsedIds(keys)[k] == Some(present[k]) && present[k] in Elems(present);
    }
  }

  /** `ack_back` acknowledges only identifiers the set did not hold, each once, and records exactly those. */
  lemma AckBackAcksNew(seen: set<nat>, page: Option<seq<Node>>)
    ensures var r := AckBackRun(seen, page);
      AcksNew(seen, r.0, r.1)
  {
    if AckBackKeys(page).Ok? {
      AcknowledgeOnce(seen, UntilMissing(ParsedIds(AckBackKeys(page).value)).0);
    }
  }

  // ---------------------------------------------------------------------
  // Links in a chat message (`urls_from_dom`, `url_ids`)

  /** A resolved URL: its host, if any, and its path segments. */
  datatype Url = Url(domain: Option<string>, path: seq<string>)

  /** An `a` element with an `href` attribute; the search takes its link and does not look inside. */
  predicate IsHrefAnchor(node: Node) {
    node.Element? && node.name == "a" && "href" in node.attrs
  }

  /**
    The link of one anchor, resolved against the room's URL by `resolve`
    (`None` where the join fails, and then the anchor gives nothing). An
    `href` attribute without a value panics: the result is `None`.
  */
  function AnchorUrls(anchor: Node, resolve: string -> Option<Url>): (r: Option<seq<Url>>)
    ensures r.None? <==> IsHrefAnchor(anchor) && anchor.attrs["href"].None?
    ensures r.Some? ==> |r.value| <= 1
  {
    if !IsHrefAnchor(anchor) then Some([])
    else match anchor.attrs["href"]
      case None => None
      case Some(href) =>
        match resolve(href)
        case None => Some([])
        case Some(url) => Some([url])
  }

  /** The links of a sequence of anchors, in order, or `None` if one of them panics. */
  function LinkUrls(anchors: seq<Node>, resolve: string -> Option<Url>): (r: Option<seq<Url>>)
    ensures r.None? <==> exists k :: 0 <= k < |anchors| && AnchorUrls(anchors[k], resolve).None?
    decreases |anchors|
  {
    if anchors == [] then Some([])
    else
      var rest := LinkUrls(anchors[1..], resolve);
      assert forall k :: 1 <= k < |anchors| ==> anchors[k] == anchors[1..][k - 1];
      match AnchorUrls(anchors[0], resolve)
      case None => None
      case Some(first) => if rest.None? then None else Some(first + rest.value)
  }

  /** Both halves answer, and their links are concatenated; otherwise there is a panic. */
  function Both(a: Option<seq<Url>>, b: Option<seq<Url>>): Option<seq<Url>> {
    if a.Some? && b.Some? then Some(a.value + b.value) else None
  }

  lemma {:induction false} LinkUrlsAppend(xs: seq<Node>, ys: seq<Node>, resolve: string -> Option<Url>)
    ensures LinkUrls(xs + ys, resolve) == Both(LinkUrls(xs, resolve), LinkUrls(ys, resolve))
    decreases |xs|
  {
    if xs == [] {
      assert xs + ys == ys;
      if LinkUrls(ys, resolve).Some? {
        assert [] + LinkUrls(ys, resolve).value == LinkUrls(ys, resolve).value;
      }
    } else {
      assert (xs + ys)[1..] == xs[1..] + ys;
      LinkUrlsAppend(xs[1..], ys, resolve);
      match AnchorUrls(xs[0], resolve)
      case None =>
      case Some(first) =>
        if LinkUrls(xs[1..], resolve).Some? && LinkUrls(ys, resolve).Some? {
          assert first + (LinkUrls(xs[1..], resolve).value + LinkUrls(ys, resolve).value)
            == (first + LinkUrls(xs[1..], resolve).value) + LinkUrls(ys, resolve).value;
        }
    }
  }

  /**
    What `urls_from_dom` collects from a message's markup: the resolved link
    of every `href` anchor a pre-order walk reaches without entering an
    anchor, in order; `None` if one of them panics.
  */
  function UrlsFromDom(nodes: seq<Node>, resolve: string -> Option<Url>): Option<seq<Url>> {
    LinkUrls(Frontier(nodes, IsHrefAnchor), resolve)
  }

  /** One more tree of the forest: its links follow those of the trees before it. */
  lemma UrlsFromDomSnoc(nodes: seq<Node>, i: nat, resolve: string -> Option<Url>)
    requires i < |nodes|
    ensures UrlsFromDom(nodes[..i + 1], resolve)
      == Both(UrlsFromDom(nodes[..i], resolve), LinkUrls(FrontierOf(nodes[i], IsHrefAnchor), resolve))
  {
    assert nodes[..i + 1] == nodes[..i] + [nodes[i]];
    FrontierAppend(nodes[..i], [nodes[i]], IsHrefAnchor);
    var f := FrontierOf(nodes[i], IsHrefAnchor);
    assert Frontier([nodes[i]], IsHrefAnchor) == f by {
      assert [nodes[i]][1..] == [];
      assert f + [] == f;
    }
    LinkUrlsAppend(Frontier(nodes[..i], IsHrefAnchor), FrontierOf(nodes[i], IsHrefAnchor), resolve);
  }

  /** A panic in a prefix of the forest is a panic of the whole search. */
  lemma UrlsFromDomPrefixPanics(nodes: seq<Node>, i: nat, resolve: string -> Option<Url>)
    requires i <= |nodes|
    requires UrlsFromDom(nodes[..i], resolve).None?
    ensures UrlsFromDom(nodes, resolve).None?
  {
    assert nodes == nodes[..i] + nodes[i..];
    FrontierAppend(nodes[..i], nodes[i..], IsHrefAnchor);
    LinkUrlsAppend(Frontier(nodes[..i], IsHrefAnchor), Frontier(nodes[i..], IsHrefAnchor), resolve);
  }

  /** One tree more of the forest searched: its links extend the prefix's, or its panic is the whole search's. */
  lemma SearchAllStep(nodes: seq<Node>, i: nat, resolve: string -> Option<Url>, urls: seq<Url>, found: seq<Url>, found': seq<Url>, more: bool)
    requires i < |nodes|
    requires UrlsFromDom(nodes[..i], resolve).Some? && found == urls + UrlsFromDom(nodes[..i], resolve).value
    requires more <==> LinkUrls(FrontierOf(nodes[i], IsHrefAnchor), resolve).None?
    requires !more ==> found' == found + LinkUrls(FrontierOf(nodes[i], IsHrefAnchor), resolve).value
    ensures more ==> UrlsFromDom(nodes, resolve).None?
    ensures !more ==> UrlsFromDom(nodes[..i + 1], resolve).Some? && found' == urls + UrlsFromDom(nodes[..i + 1], resolve).value
  {
    UrlsFromDomSnoc(nodes, i, resolve);
    if more {
      UrlsFromDomPrefixPanics(nodes, i + 1, resolve);
    } else {
      assert found' == urls + (UrlsFromDom(nodes[..i], resolve).value + LinkUrls(FrontierOf(nodes[i], IsHrefAnchor), resolve).value);
    }
  }

  /**
    The inner `search_node`: appends the links found under `node` to
    `urls`; `panicked` when an anchor has a valueless `href`.
  */
  method SearchLinks(node: Node, resolve: string -> Option<Url>, urls: seq<Url>) returns (found: seq<Url>, panicked: bool)
    ensures panicked <==> LinkUrls(FrontierOf(node, IsHrefAnchor), resolve).None?
    ensures !panicked ==> found == urls + LinkUrls(FrontierOf(node, IsHrefAnchor), resolve).value
    decreases node, 0
  {
    match node
    case Text(_) =>
      found, panicked := urls, false;
    case Element(_, attrs, children) =>
      if IsHrefAnchor(node) {
        assert FrontierOf(node, IsHrefAnchor) == [node];
        assert LinkUrls([node], resolve) == Both(AnchorUrls(node, resolve), Some([]));
        match attrs["href"]
        case None =>
          found, panicked := urls, true;
        case Some(href) =>
          panicked := false;
          match resolve(href)
          case None =>
            found := urls;
          case Some(url) =>
            found := urls + [url];
      } else {
        found, panicked := SearchAll(children, resolve, urls);
      }
  }

  /** `search_node` over each tree of a forest in turn: `urls_from_dom` when started from no links. */
  method SearchAll(nodes: seq<Node>, resolve: string -> Option<Url>, urls: seq<Url>) returns (found: seq<Url>, panicked: bool)
    ensures panicked <==> UrlsFromDom(nodes, resolve).None?
    ensures !panicked ==> found == urls + UrlsFromDom(nodes, resolve).value
    decreases nodes, 1
  {
    found, panicked := urls, false;
    var i := 0;
    assert nodes[..0] == [];
    while i < |nodes|
      invariant 0 <= i <= |nodes|
      invariant UrlsFromDom(nodes[..i], resolve).Some?
      invariant found == urls + UrlsFromDom(nodes[..i], resolve).value
    {
      var found', more := SearchLinks(nodes[i], resolve, found);
      SearchAllStep(nodes, i, resolve, urls, found, found', more);
      if more {
        return found', true;
      }
      found := found';
      i := i + 1;
    }
    assert nodes[..i] == nodes;
  }

  /** The hosts whose links seed the main site's and the meta site's question sets. */
  const CodeGolfSite := "codegolf.stackexchange.com"
  const CodeGolfMetaSite := "codegolf.meta.stackexchange.com"

  /**
    The identifiers a path names: `questions/<q>` and `q/<q>`, with or
    without one more segment (a slug), name `q`; `questions/<q>/<slug>/<a>`
    names the question and the answer. No other shape names anything.
  */
  function PathIds(path: seq<string>): (r: set<string>)
    ensures r != {} ==> (2 <= |path| <= 3 && (path[0] == "questions" || path[0] == "q")) || (|path| == 4 && path[0] == "questions")
    ensures forall id :: id in r ==> id == path[1] || (|path| == 4 && id == path[3])
    ensures 2 <= |path| <= 3 && (path[0] == "questions" || path[0] == "q") ==> r == {path[1]}
    ensures |path| == 4 && path[0] == "questions" ==> r == {path[1], path[3]}
  {
    if |path| == 0 then {}
    else if (path[0] == "questions" || path[0] == "q") && (|path| == 2 || |path| == 3) then {path[1]}
    else if path[0] == "questions" && |path| == 4 then {path[1], path[3]}
    else {}
  }

  /** The identifiers a URL names on `site`; a URL on any other host, or on none, names nothing. */
  function IdsOf(url: Url, site: string): (r: set<string>)
    ensures r != {} ==> url.domain == Some(site)
  {
    if url.domain == Some(site) then PathIds(url.path) else {}
  }

  /** The identifiers a list of URLs names on `site`: those some URL of it names. */
  function UrlIdsOf(urls: seq<Url>, site: string): set<string>
    decreases |urls|
  {
    if urls == [] then {} else UrlIdsOf(urls[..|urls| - 1], site) + IdsOf(urls[|urls| - 1], site)
  }

  /** An identifier is collected exactly when some URL of the list names it on `site`. */
  lemma {:induction false} UrlIdsOfNamed(urls: seq<Url>, site: string)
    ensures forall id :: id in UrlIdsOf(urls, site) <==> exists k :: 0 <= k < |urls| && id in IdsOf(urls[k], site)
    decreases |urls|
  {
    if urls != [] {
      UrlIdsOfNamed(urls[..|urls| - 1], site);
      assert forall k :: 0 <= k < |urls| - 1 ==> urls[..|urls| - 1][k] == urls[k];
    }
  }

  /** `url_ids`: the identifiers named by the URLs on `site`, collected one URL at a time. */
  method UrlIds(urls: seq<Url>, site: string) returns (ids: set<string>)
    ensures ids == UrlIdsOf(urls, site)
  {
    ids := {};
    for i := 0 to |urls|
      invariant ids == UrlIdsOf(urls[..i], site)
    {
      assert urls[..i + 1][..i] == urls[..i];
      var url := urls[i];
      if url.domain == Some(site) {
        var path := url.path;
        if |path| != 0 {
          if (path[0] == "questions" || path[0] == "q") && (|path| == 2 || |path| == 3) {
            ids := ids + {path[1]};
          } else if path[0] == "questions" && |path| == 4 {
            ids := ids + {path[1]};
            ids := ids + {path[3]};
          }
        }
      }
    }
    assert urls[..|urls|] == urls;
  }

  // ---------------------------------------------------------------------
  // Seeding the registry from the room history (`known_ids`)

  /** A message's content: markup, or text the HTML parser rejects (its `unwrap` panics). */
  datatype Content = Markup(nodes: seq<Node>) | Unparsable

  /** A chat event as the room's event endpoint and socket deliver it. */
  datatype Event = Event(eventType: nat, messageId: Option<nat>, content: Option<Content>)

  /** A posted message with content: the only kind of event `known_ids` reads. */
  predicate IsPostedMessage(e: Event) {
    e.eventType == 1 && e.content.Some?
  }

  /** The registry after the links of one message are recorded: main-site identifiers in `p200`, meta ones in `p202`. */
  function SeedLinks(s: Snapshot, urls: seq<Url>): Snapshot {
    s.AddAll(P200, UrlIdsOf(urls, CodeGolfSite)).AddAll(P202, UrlIdsOf(urls, CodeGolfMetaSite))
  }

  /**
    `known_ids` over a history, oldest first: the registry afterwards and
    whether it panicked (content the parser rejects, or a valueless `href`),
    in which case the registry is as the panic left it.
  */
  function Seed(s: Snapshot, events: seq<Event>, resolve: string -> Option<Url>): (r: (Snapshot, bool))
    ensures s.Below(r.0)
    ensures r.0.p716 == s.p716 && r.0.p717 == s.p717
    decreases |events|
  {
    if events == [] then (s, false)
    else if !IsPostedMessage(events[0]) then Seed(s, events[1..], resolve)
    else
      match events[0].content.value
      case Unparsable => (s, true)
      case Markup(nodes) =>
        match UrlsFromDom(nodes, resolve)
        case None => (s, true)
        case Some(urls) => Seed(SeedLinks(s, urls), events[1..], resolve)
  }

  /** The links of a posted message in a history, when its markup reads without a panic. */
  ghost predicate LinksIn(events: seq<Event>, resolve: string -> Option<Url>, k: int, urls: seq<Url>) {
    && 0 <= k < |events|
    && IsPostedMessage(events[k])
    && events[k].content.value.Markup?
    && UrlsFromDom(events[k].content.value.nodes, resolve) == Some(urls)
  }

  /** Some posted message of the history links to `id` on `site`. */
  ghost predicate LinkedFrom(events: seq<Event>, resolve: string -> Option<Url>, site: string, id: string) {
    exists k, urls :: LinksIn(events, resolve, k, urls) && id in UrlIdsOf(urls, site)
  }

  lemma LinkedFromTail(events: seq<Event>, resolve: string -> Option<Url>, site: string, id: string)
    requires events != [] && LinkedFrom(events[1..], resolve, site, id)
    ensures LinkedFrom(events, resolve, site, id)
  {
    var k, urls :| LinksIn(events[1..], resolve, k, urls) && id in UrlIdsOf(urls, site);
    assert events[1..][k] == events[k + 1];
    assert LinksIn(events, resolve, k + 1, urls);
  }

  /**
    The step of `SeedCoversLinks`: the links of the first message are in the
    registry recording them, so in any that grew from it, and those of the
    rest of the history are covered already.
  */
  lemma SeedCoversFirst(s: Snapshot, events: seq<Event>, resolve: string -> Option<Url>, s1: Snapshot, t: Snapshot)
    requires events != []
    requires s1 == if IsPostedMessage(events[0]) && events[0].content.value.Markup? && UrlsFromDom(events[0].content.value.nodes, resolve).Some?
      then SeedLinks(s, UrlsFromDom(events[0].content.value.nodes, resolve).value) else s
    requires s1.Below(t)
    requires forall k, urls :: LinksIn(events[1..], resolve, k, urls) ==>
      UrlIdsOf(urls, CodeGolfSite) <= t.p200 && UrlIdsOf(urls, CodeGolfMetaSite) <= t.p202
    ensures forall k, urls :: LinksIn(events, resolve, k, urls) ==>
      UrlIdsOf(urls, CodeGolfSite) <= t.p200 && UrlIdsOf(urls, CodeGolfMetaSite) <= t.p202
  {
    forall k, urls | LinksIn(events, resolve, k, urls)
      ensures UrlIdsOf(urls, CodeGolfSite) <= t.p200 && UrlIdsOf(urls, CodeGolfMetaSite) <= t.p202
    {
      if k > 0 {
        LinksInTail(events, resolve, k, urls);
      } else {
        SeedLinksRecorded(s, urls, t);
      }
    }
  }

  /** The links of one message are in every registry grown from the one that records them. */
  lemma SeedLinksRecorded(s: Snapshot, urls: seq<Url>, t: Snapshot)
    requires SeedLinks(s, urls).Below(t)
    ensures UrlIdsOf(urls, CodeGolfSite) <= t.p200 && UrlIdsOf(urls, CodeGolfMetaSite) <= t.p202
  {
    var s1 := SeedLinks(s, urls);
    assert s1.Get(P200) <= t.Get(P200) && s1.Get(P202) <= t.Get(P202);
  }

  /** A posted message after the first is one of the rest of the history. */
  lemma LinksInTail(events: seq<Event>, resolve: string -> Option<Url>, k: int, urls: seq<Url>)
    requires LinksIn(events, resolve, k, urls) && k > 0
    ensures LinksIn(events[1..], resolve, k - 1, urls)
  {
    assert events[1..][k - 1] == events[k];
  }

  /**
    Seeding without a panic records every main-site (meta) identifier linked
    from a posted message of the history in `p200` (`p202`).
  */
  lemma {:induction false} SeedCoversLinks(s: Snapshot, events: seq<Event>, resolve: string -> Option<Url>)
    ensures var (t, panicked) := Seed(s, events, resolve);
      !panicked ==> forall k, urls :: LinksIn(events, resolve, k, urls) ==>
        UrlIdsOf(urls, CodeGolfSite) <= t.p200 && UrlIdsOf(urls, CodeGolfMetaSite) <= t.p202
    decreases |events|
  {
    if events != [] {
      var tail := events[1..];
      var s1 := if IsPostedMessage(events[0]) && events[0].content.value.Markup? && UrlsFromDom(events[0].content.value.nodes, resolve).Some?
        then SeedLinks(s, UrlsFromDom(events[0].content.value.nodes, resolve).value) else s;
      SeedCoversLinks(s1, tail, resolve);
      var (t, panicked) := Seed(s, events, resolve);
      if !panicked {
        assert Seed(s, events, resolve) == Seed(s1, tail, resolve);
        SeedCoversFirst(s, events, resolve, s1, t);
      }
    }
  }

  /** Everything seeding records in `p200` (`p202`) was there before or is linked from a posted message on the main (meta) site. */
  lemma {:induction false} SeedOnlyLinks(s: Snapshot, events: seq<Event>, resolve: string -> Option<Url>)
    ensures var t := Seed(s, events, resolve).0;
      && (forall id :: id in t.p200 ==> id in s.p200 || LinkedFrom(events, resolve, CodeGolfSite, id))
      && (forall id :: id in t.p202 ==> id in s.p202 || LinkedFrom(events, resolve, CodeGolfMetaSite, id))
    decreases |events|
  {
    if events != [] {
      var tail := events[1..];
      var linked := IsPostedMessage(events[0]) && events[0].content.value.Markup? && UrlsFromDom(events[0].content.value.nodes, resolve).Some?;
      var s1 := if linked then SeedLinks(s, UrlsFromDom(events[0].content.value.nodes, resolve).value) else s;
      SeedOnlyLinks(s1, tail, resolve);
      var t := Seed(s, events, resolve).0;
      if IsPostedMessage(events[0]) && !linked {
        assert t == s;
      } else {
        assert t == Seed(s1, tail, resolve).0;
        if linked {
          assert LinksIn(events, resolve, 0, UrlsFromDom(events[0].content.value.nodes, resolve).value);
        }
        forall id | id in t.p200 && id !in s.p200 ensures LinkedFrom(events, resolve, CodeGolfSite, id) {
          if id !in s1.p200 {
            LinkedFromTail(events, resolve, CodeGolfSite, id);
          }
        }
        forall id | id in t.p202 && id !in s.p202 ensures LinkedFrom(events, resolve, CodeGolfMetaSite, id) {
          if id !in s1.p202 {
            LinkedFromTail(events, resolve, CodeGolfMetaSite, id);
          }
        }
      }
    }
  }

  /**
    `known_ids`: for each posted message of the history, collect its links
    and insert the main-site identifiers into `p200`, then the meta ones into
    `p202`. The registry afterwards is the one `Seed` describes.
  */
  method KnownIds(ids: Ids, events: seq<Event>, resolve: string -> Option<Url>) returns (panicked: bool)
    modifies ids
    ensures (ids.View(), panicked) == Seed(old(ids.View()), events, resolve)
  {
    var i := 0;
    while i < |events|
      invariant 0 <= i <= |events|
      invariant Seed(old(ids.View()), events, resolve) == Seed(ids.View(), events[i..], resolve)
    {
      assert events[i..][1..] == events[i + 1..];
      var e := events[i];
      if e.eventType == 1 && e.content.Some? {
        if e.content.value.Unparsable? {
          return true;
        }
        var urls, bad := SearchAll(e.content.value.nodes, resolve, []);
        if bad {
          return true;
        }
        assert urls == UrlsFromDom(e.content.value.nodes, resolve).value;
        var main := UrlIds(urls, CodeGolfSite);
        ids.ObserveAll(P200, main);
        var meta := UrlIds(urls, CodeGolfMetaSite);
        ids.ObserveAll(P202, meta);
      }
      i := i + 1;
    }
    assert events[i..] == [];
    return false;
  }

  // ---------------------------------------------------------------------
  // The room socket

  /** One room's part of a socket frame: its events, if any. */
  datatype RoomData = RoomData(e: Option<seq<Event>>)

  /**
    A message on the room socket: a text frame, decoded into its rooms
    (`None` when it does not decode, which panics) with its arrival time;
    another kind of frame; or a transport error (its `unwrap` panics).
  */
  datatype ChatMessage = ChatText(rooms: Option<seq<RoomData>>, at: nat) | ChatOther | ChatBroken

  /** The events that call for an acknowledgement: mentions and replies (types 8 and 18). */
  predicate IsAckEvent(e: Event) {
    e.eventType == 8 || e.eventType == 18
  }

  /** The message identifiers of the acknowledgement events of `events`, in order. */
  function EventTargets(events: seq<Event>): (r: seq<Option<nat>>)
    ensures forall x :: x in r ==> exists e :: e in events && IsAckEvent(e) && e.messageId == x
    ensures forall e :: e in events && IsAckEvent(e) ==> e.messageId in r
    decreases |events|
  {
    if events == [] then []
    else
      var rest := EventTargets(events[1..]);
      assert forall e :: e in events[1..] ==> e in events;
      assert forall e :: e in events ==> e == events[0] || e in events[1..];
      (if IsAckEvent(events[0]) then [events[0].messageId] else []) + rest
  }

  /** The acknowledgement targets of a frame, room by room. */
  function AckTargets(rooms: seq<RoomData>): (r: seq<Option<nat>>)
    ensures forall x :: x in r ==> exists k :: 0 <= k < |rooms| && rooms[k].e.Some? && x in EventTargets(rooms[k].e.value)
    ensures forall k, x :: 0 <= k < |rooms| && rooms[k].e.Some? && x in EventTargets(rooms[k].e.value) ==> x in r
    decreases |rooms|
  {
    if rooms == [] then []
    else
      var rest := AckTargets(rooms[1..]);
      assert forall k :: 1 <= k < |rooms| ==> rooms[k] == rooms[1..][k - 1];
      (if rooms[0].e.Some? then EventTargets(rooms[0].e.value) else []) + rest
  }

  /**
    The state of one connection's handler: the shared acknowledgement set,
    the acknowledgements made, the liveness timestamp and whether the
    handler task has panicked.
  */
  datatype Session = Session(acked: set<nat>, acks: seq<nat>, ping: nat, panicked: bool)

  /**
    The handler on one message: a decoded text frame first refreshes the
    timestamp, then acknowledges each new target in order; an acknowledgement
    event without a message identifier panics.
  */
  function Deliver(st: Session, m: ChatMessage): (r: Session)
    ensures |st.acks| <= |r.acks| && r.acks[..|st.acks|] == st.acks
    ensures st.acked <= r.acked
  {
    match m
    case ChatOther => st
    case ChatBroken => st.(panicked := true)
    case ChatText(None, _) => st.(panicked := true)
    case ChatText(Some(rooms), at) =>
      var (present, missing) := UntilMissing(AckTargets(rooms));
      var (after, acks) := Acknowledge(st.acked, present);
      assert (st.acks + acks)[..|st.acks|] == st.acks;
      Session(after, st.acks + acks, at, missing)
  }

  /** The handler over a connection's messages, up to the first panic. */
  function ChatRun(st: Session, msgs: seq<ChatMessage>): (r: Session)
    ensures st.panicked ==> r == st
    ensures st.acked <= r.acked && |st.acks| <= |r.acks|
    decreases |msgs|
  {
    if msgs == [] || st.panicked then st else ChatRun(Deliver(st, msgs[0]), msgs[1..])
  }

  /** One message acknowledges only identifiers the set did not hold, each once, and records them. */
  lemma DeliverAcksNew(st: Session, m: ChatMessage)
    ensures AcksNew(st.acked, Deliver(st, m).acked, Deliver(st, m).acks[|st.acks|..])
  {
    var st1 := Deliver(st, m);
    if m.ChatText? && m.rooms.Some? {
      var present := UntilMissing(AckTargets(m.rooms.value)).0;
      AcknowledgeOnce(st.acked, present);
      assert st1.acks[|st.acks|..] == Acknowledge(st.acked, present).1;
    } else {
      assert st1.acks[|st.acks|..] == [];
    }
  }

  /**
    The handler acknowledges only identifiers the shared set did not hold
    when the connection opened, none twice, however many frames repeat a
    mention; the set afterwards holds exactly those in addition.
  */
  lemma {:induction false} ChatRunAcksNew(st: Session, msgs: seq<ChatMessage>)
    ensures |st.acks| <= |ChatRun(st, msgs).acks|
    ensures AcksNew(st.acked, ChatRun(st, msgs).acked, ChatRun(st, msgs).acks[|st.acks|..])
    decreases |msgs|
  {
    if msgs == [] || st.panicked {
      assert st.acks[|st.acks|..] == [];
    } else {
      var st1 := Deliver(st, msgs[0]);
      DeliverAcksNew(st, msgs[0]);
      ChatRunAcksNew(st1, msgs[1..]);
      ChatRunExtends(st1, msgs[1..]);
      var r := ChatRun(st1, msgs[1..]);
      AcksNewChain(st.acked, st1.acked, r.acked, st.acks, st1.acks, r.acks);
    }
  }

  /** Two stretches of acknowledgements, one after the other on a growing list, compose. */
  lemma AcksNewChain(s: set<nat>, t: set<nat>, u: set<nat>, a: seq<nat>, b: seq<nat>, c: seq<nat>)
    requires |a| <= |b| <= |c| && c[..|b|] == b
    requires AcksNew(s, t, b[|a|..]) && AcksNew(t, u, c[|b|..])
    ensures AcksNew(s, u, c[|a|..])
  {
    assert c[|a|..] == b[|a|..] + c[|b|..];
    AcksNewCompose(s, t, u, b[|a|..], c[|b|..]);
  }

  /** `after` extends `before` by message identifiers of acknowledgement events of `msgs`. */
  ghost predicate AcksAnswer(before: seq<nat>, msgs: seq<ChatMessage>, after: seq<nat>) {
    && |before| <= |after|
    && forall j :: |before| <= j < |after| ==> Targeted(msgs, after[j])
  }

  /** `id` is the message identifier of an acknowledgement event in one of `msgs`. */
  ghost predicate Targeted(msgs: seq<ChatMessage>, id: nat) {
    exists k :: 0 <= k < |msgs| && msgs[k].ChatText? && msgs[k].rooms.Some? && Some(id) in AckTargets(msgs[k].rooms.value)
  }

  /**
    Only mentions and replies are acknowledged: every acknowledgement the
    handler adds is the message identifier of a type 8 or 18 event of one of
    the messages.
  */
  lemma {:induction false} ChatRunAcksTargets(st: Session, msgs: seq<ChatMessage>)
    ensures AcksAnswer(st.acks, msgs, ChatRun(st, msgs).acks)
    decreases |msgs|
  {
    if msgs != [] && !st.panicked {
      var m := msgs[0];
      var st1 := Deliver(st, m);
      ChatRunAcksTargets(st1, msgs[1..]);
      var r := ChatRun(st, msgs);
      assert r == ChatRun(st1, msgs[1..]);
      assert |st.acks| <= |st1.acks| <= |r.acks|;
      forall j | |st.acks| <= j < |r.acks| ensures Targeted(msgs, r.acks[j]) {
        if j < |st1.acks| {
          assert m.ChatText? && m.rooms.Some?;
          var rooms := m.rooms.value;
          var present := UntilMissing(AckTargets(rooms)).0;
          var acks := Acknowledge(st.acked, present).1;
          AcknowledgeOnce(st.acked, present);
          assert st1.acks == st.acks + acks;
          assert r.acks[..|st1.acks|] == st1.acks by {
            ChatRunExtends(st1, msgs[1..]);
          }
          assert r.acks[j] == acks[j - |st.acks|];
          assert r.acks[j] in acks;
          assert r.acks[j] in present;
          var i :| 0 <= i < |present| && present[i] == r.acks[j];
          assert AckTargets(rooms)[i] == Some(r.acks[j]);
          assert Some(r.acks[j]) in AckTargets(msgs[0].rooms.value);
          assert Targeted(msgs, r.acks[j]);
        } else {
          assert AcksAnswer(st1.acks, msgs[1..], r.acks);
          assert |st1.acks| <= j < |r.acks|;
          assert Targeted(msgs[1..], r.acks[j]);
          var k :| 0 <= k < |msgs[1..]| && msgs[1..][k].ChatText? && msgs[1..][k].rooms.Some? && Some(r.acks[j]) in AckTargets(msgs[1..][k].rooms.value);
          assert msgs[k + 1] == msgs[1..][k];
          assert Targeted(msgs, r.acks[j]);
        }
      }
      assert AcksAnswer(st.acks, msgs, r.acks);
    } else {
      assert ChatRun(st, msgs) == st;
    }
  }

  /**
    Nothing the handler should acknowledge is missed: a mention or reply in
    message `k`, handled without a panic, ends up in the shared set, and is
    among the connection's acknowledgements unless the set already held it
    when the connection opened.
  */
  lemma ChatRunAcksComplete(st: Session, msgs: seq<ChatMessage>, k: nat, id: nat)
    requires k < |msgs| && msgs[k].ChatText? && msgs[k].rooms.Some? && Some(id) in AckTargets(msgs[k].rooms.value)
    requires !ChatRun(st, msgs[..k + 1]).panicked
    ensures id in ChatRun(st, msgs).acked
    ensures id !in st.acked ==> id in ChatRun(st, msgs).acks[|st.acks|..]
  {
    ChatRunKeepsTarget(st, msgs, k, id);
    var r := ChatRun(st, msgs);
    ChatRunAcksNew(st, msgs);
    if id !in st.acked {
      assert id in Elems(r.acks[|st.acks|..]);
    }
  }

  /** The set a target is recorded in by message `k` still holds it after the later messages. */
  lemma ChatRunKeepsTarget(st: Session, msgs: seq<ChatMessage>, k: nat, id: nat)
    requires k < |msgs| && msgs[k].ChatText? && msgs[k].rooms.Some? && Some(id) in AckTargets(msgs[k].rooms.value)
    requires !ChatRun(st, msgs[..k + 1]).panicked
    ensures id in ChatRun(st, msgs).acked
  {
    var before := ChatRun(st, msgs[..k]);
    ChatRunAppend(st, msgs[..k], [msgs[k]]);
    assert msgs[..k] + [msgs[k]] == msgs[..k + 1];
    DeliverRecords(before, msgs[k].rooms.value, msgs[k].at, id);
    ChatRunAppend(st, msgs[..k + 1], msgs[k + 1..]);
    assert msgs[..k + 1] + msgs[k + 1..] == msgs;
  }

  /** A text frame handled without a panic records each of its targets in the shared set. */
  lemma DeliverRecords(st: Session, rooms: seq<RoomData>, at: nat, id: nat)
    requires Some(id) in AckTargets(rooms)
    requires !ChatRun(st, [ChatText(Some(rooms), at)]).panicked
    ensures id in ChatRun(st, [ChatText(Some(rooms), at)]).acked
  {
    var m := ChatText(Some(rooms), at);
    assert !st.panicked;
    var after := Deliver(st, m);
    assert ChatRun(st, [m]) == ChatRun(after, []);
    var targets := AckTargets(rooms);
    var (present, missing) := UntilMissing(targets);
    assert !missing;
    var i :| 0 <= i < |targets| && targets[i] == Some(id);
    assert present[i] == id;
    AcknowledgeOnce(st.acked, present);
  }

  /** The handler only adds acknowledgements; it never withdraws one. */
  lemma {:induction false} ChatRunExtends(st: Session, msgs: seq<ChatMessage>)
    ensures |st.acks| <= |ChatRun(st, msgs).acks| && ChatRun(st, msgs).acks[..|st.acks|] == st.acks
    decreases |msgs|
  {
    if msgs != [] && !st.panicked {
      var st1 := Deliver(st, msgs[0]);
      ChatRunExtends(st1, msgs[1..]);
      var r := ChatRun(st1, msgs[1..]);
      assert r.acks[..|st.acks|] == r.acks[..|st1.acks|][..|st.acks|];
    }
  }

  /** Every decoded text frame refreshes the liveness timestamp to its arrival time. */
  lemma RefreshOnText(st: Session, msgs: seq<ChatMessage>, rooms: seq<RoomData>, at: nat)
    requires !ChatRun(st, msgs).panicked
    ensures ChatRun(st, msgs + [ChatText(Some(rooms), at)]).ping == at
  {
    ChatRunAppend(st, msgs, [ChatText(Some(rooms), at)]);
  }

  lemma {:induction false} ChatRunAppend(st: Session, msgs: seq<ChatMessage>, more: seq<ChatMessage>)
    ensures ChatRun(st, msgs + more) == ChatRun(ChatRun(st, msgs), more)
    decreases |msgs|
  {
    if msgs == [] {
      assert msgs + more == more;
    } else if st.panicked {
      assert ChatRun(st, more) == st by {
        if more != [] {
        }
      }
    } else {
      assert (msgs + more)[1..] == msgs[1..] + more;
      ChatRunAppend(Deliver(st, msgs[0]), msgs[1..], more);
    }
  }

  /**
    The handler task of one connection (`connect_chat_ws`): handle each
    message in turn, refreshing the timestamp on every text frame and
    acknowledging each new mention or reply through the shared set.
  */
  method ChatSocket(ack: AckSet, msgs: seq<ChatMessage>, start: nat) returns (acks: seq<nat>, ping: nat, panicked: bool)
    modifies ack
    ensures Session(ack.acked, acks, ping, panicked) == ChatRun(Session(old(ack.acked), [], start, false), msgs)
    ensures AcksNew(old(ack.acked), ack.acked, acks)
  {
    acks, ping, panicked := [], start, false;
    var i := 0;
    while i < |msgs| && !panicked
      invariant 0 <= i <= |msgs|
      invariant ChatRun(Session(old(ack.acked), [], start, false), msgs) == ChatRun(Session(ack.acked, acks, ping, panicked), msgs[i..])
      decreases |msgs| - i
    {
      assert msgs[i..][1..] == msgs[i + 1..];
      var m := msgs[i];
      if m.ChatBroken? || (m.ChatText? && m.rooms.None?) {
        panicked := true;
      } else if m.ChatText? {
        ping := m.at;
        var more, missing := AckUntilMissing(ack, AckTargets(m.rooms.value));
        acks := acks + more;
        panicked := missing;
      }
      i := i + 1;
    }
    if !panicked {
      assert msgs[i..] == [];
    }
    ChatRunAcksNew(Session(old(ack.acked), [], start, false), msgs);
  }

  // ---------------------------------------------------------------------
  // Liveness and lifetime of a connection

  /** The watchdog's period and the silence it tolerates, in milliseconds. */
  const WatchdogPeriodMs: nat := 15000
  const MaxSilenceMs: nat := 45000

  /** The time of the watchdog's `k`-th tick; the first is immediate. */
  function TickTime(start: nat, k: nat): nat {
    start + WatchdogPeriodMs * k
  }

  /** The watchdog's test: more than the tolerated silence since the liveness timestamp. */
  predicate Stale(now: int, ping: int) {
    now - ping > MaxSilenceMs
  }

  /**
    The first tick, from `from` on, at which the timestamp the watchdog reads
    (`pings[k]` at tick `k`) is stale.
  */
  function FirstStale(start: nat, pings: seq<nat>, from: nat): (r: Option<nat>)
    ensures r.Some? ==> from <= r.value < |pings| && Stale(TickTime(start, r.value), pings[r.value])
    ensures r.Some? ==> forall j :: from <= j < r.value ==> !Stale(TickTime(start, j), pings[j])
    ensures r.None? ==> forall j :: from <= j < |pings| ==> !Stale(TickTime(start, j), pings[j])
    decreases |pings| - from
  {
    if from >= |pings| then None
    else if Stale(TickTime(start, from), pings[from]) then Some(from)
    else FirstStale(start, pings, from + 1)
  }

  /**
    The watchdog task: tick every 15000 ms and end (which closes the
    connection) at the first tick that finds the timestamp stale.
  */
  method Watchdog(start: nat, pings: seq<nat>) returns (fired: Option<nat>)
    ensures fired == FirstStale(start, pings, 0)
  {
    var k := 0;
    while k < |pings|
      invariant 0 <= k <= |pings|
      invariant FirstStale(start, pings, 0) == FirstStale(start, pings, k)
    {
      if TickTime(start, k) - pings[k] > MaxSilenceMs {
        return Some(k);
      }
      k := k + 1;
    }
    return None;
  }

  /**
    A silent connection is closed within a minute: if no frame refreshed the
    timestamp after `last`, the watchdog fires, at the latest 60000 ms after
    `last`, provided it ticks that long.
  */
  lemma SilenceCloses(start: nat, pings: seq<nat>, last: nat)
    requires start <= last
    requires forall k :: 0 <= k < |pings| ==> pings[k] <= last
    requires |pings| > (last + MaxSilenceMs - start) / WatchdogPeriodMs + 1
    ensures FirstStale(start, pings, 0).Some?
    ensures TickTime(start, FirstStale(start, pings, 0).value) <= last + MaxSilenceMs + WatchdogPeriodMs
  {
    var x := last + MaxSilenceMs - start;
    var n := x / WatchdogPeriodMs + 1;
    assert x == WatchdogPeriodMs * (x / WatchdogPeriodMs) + x % WatchdogPeriodMs;
    assert TickTime(start, n) == start + WatchdogPeriodMs * (x / WatchdogPeriodMs) + WatchdogPeriodMs;
    assert Stale(TickTime(start, n), pings[n]);
    var r := FirstStale(start, pings, 0);
    assert r.value <= n;
    assert TickTime(start, r.value) <= TickTime(start, n);
  }

  /** How long a connection is kept at most: one hour for the offset connection, two hours otherwise. */
  function ChatLifetimeMs(killOffset: bool): (r: nat)
    ensures killOffset ==> r == 3600000
    ensures !killOffset ==> r == 7200000
  {
    if killOffset then 3600000 else 7200000
  }

  // ---------------------------------------------------------------------
  // The reconnect loop (`chat_ws`)

  /**
    What one round of `chat_ws` meets: the room page for `ack_back`; the
    room history, `None` when the socket authentication or the history
    request fails; the messages the connection handles before it closes,
    `None` when it cannot be opened; and the time it opens.
  */
  datatype ChatRound = ChatRound(page: Option<seq<Node>>, history: Option<seq<Event>>, stream: Option<seq<ChatMessage>>, start: nat)

  /**
    One round of `chat_ws` on the acknowledgement set `acked` and the
    registry `s`: `ack_back`, which must end normally; then `connect_chat_ws`,
    which seeds the registry from the history and handles the connection with
    a fresh handler state. The result is the set and the registry afterwards,
    the connection's lifetime if it opened, the round's acknowledgements
    (those of `ack_back`, then those of the handler), and whether the round
    ends the task: an `ack_back` error or panic, a failed history request, a
    seeding panic, a failed connection, or a handler panic.
  */
  function ChatRoundRun(acked: set<nat>, s: Snapshot, round: ChatRound, resolve: string -> Option<Url>, killOffset: bool)
    : (r: (set<nat>, Snapshot, Option<nat>, seq<nat>, bool))
    ensures r.2.Some? ==> r.2.value == ChatLifetimeMs(killOffset)
    ensures !r.4 ==> r.2.Some?
    ensures s.Below(r.1) && r.1.p716 == s.p716 && r.1.p717 == s.p717
  {
    var (acked1, acks, end) := AckBackRun(acked, round.page);
    if end != Acked || round.history.None? then (acked1, s, None, acks, true)
    else
      var (s1, seeded) := Seed(s, round.history.value, resolve);
      if seeded || round.stream.None? then (acked1, s1, None, acks, true)
      else
        var st := ChatRun(Session(acked1, [], round.start, false), round.stream.value);
        (st.acked, s1, Some(ChatLifetimeMs(killOffset)), acks + st.acks, st.panicked)
  }

  /** A round acknowledges only identifiers the set did not hold, none twice, and the set records exactly those. */
  lemma ChatRoundAcksNew(acked: set<nat>, s: Snapshot, round: ChatRound, resolve: string -> Option<Url>, killOffset: bool)
    ensures var r := ChatRoundRun(acked, s, round, resolve, killOffset);
      AcksNew(acked, r.0, r.3)
  {
    var (acked1, acks, end) := AckBackRun(acked, round.page);
    AckBackAcksNew(acked, round.page);
    var r := ChatRoundRun(acked, s, round, resolve, killOffset);
    if r.2.Some? {
      var st0 := Session(acked1, [], round.start, false);
      var st := ChatRun(st0, round.stream.value);
      ChatRunAcksNew(st0, round.stream.value);
      assert st.acks[|st0.acks|..] == st.acks;
      AcksNewCompose(acked, acked1, st.acked, acks, st.acks);
    }
  }

  /** The lifetime of a round's connection, as a list of none or one. */
  function Opened(lifetime: Option<nat>): (r: seq<nat>)
    ensures |r| <= 1
    ensures lifetime.Some? ==> r == [lifetime.value]
    ensures lifetime.None? ==> r == []
  {
    if lifetime.Some? then [lifetime.value] else []
  }

  /** A prefix of a fold's outputs glued in front of the rest of the fold. */
  function ChatGlue(lifetimes: seq<nat>, acks: seq<nat>, r: (set<nat>, Snapshot, seq<nat>, seq<nat>, bool))
    : (set<nat>, Snapshot, seq<nat>, seq<nat>, bool)
  {
    (r.0, r.1, lifetimes + r.2, acks + r.3, r.4)
  }

  /** Gluing nothing in front changes nothing, and nothing glued behind leaves the prefix. */
  lemma ChatGlueNothing(r: (set<nat>, Snapshot, seq<nat>, seq<nat>, bool))
    ensures ChatGlue([], [], r) == r
    ensures ChatGlue(r.2, r.3, (r.0, r.1, [], [], r.4)) == r
  {
    assert [] + r.2 == r.2 && [] + r.3 == r.3;
    assert r.2 + [] == r.2 && r.3 + [] == r.3;
  }

  /**
    What is left of the fold once the rounds before `i` are done: the fold
    from round `i` on, or nothing when one of them ended the task.
  */
  ghost predicate Remaining(rest: (set<nat>, Snapshot, seq<nat>, seq<nat>, bool), acked: set<nat>, s: Snapshot, rounds: seq<ChatRound>,
                            resolve: string -> Option<Url>, logId: string, i: nat, panicked: bool)
    requires i <= |rounds|
  {
    if panicked then rest == (acked, s, [], [], true) else rest == ChatRounds(acked, s, rounds[i..], resolve, logId, i == 0)
  }

  /** When the loop stops, what is left of the fold is nothing, so the outputs gathered are the whole fold's. */
  lemma ChatRoundsDone(whole: (set<nat>, Snapshot, seq<nat>, seq<nat>, bool), rest: (set<nat>, Snapshot, seq<nat>, seq<nat>, bool),
                       acked: set<nat>, s: Snapshot, lifetimes: seq<nat>, acks: seq<nat>, panicked: bool,
                       rounds: seq<ChatRound>, resolve: string -> Option<Url>, logId: string, i: nat)
    requires i <= |rounds| && (!panicked ==> i == |rounds|)
    requires whole == ChatGlue(lifetimes, acks, rest)
    requires Remaining(rest, acked, s, rounds, resolve, logId, i, panicked)
    ensures whole == (acked, s, lifetimes, acks, panicked)
  {
    if !panicked {
      assert rounds[i..] == [];
    }
    ChatGlueNothing((acked, s, lifetimes, acks, panicked));
  }

  /** Gluing two prefixes in turn is gluing their concatenation. */
  lemma ChatGlueGlue(lifetimes: seq<nat>, acks: seq<nat>, more: seq<nat>, moreAcks: seq<nat>, r: (set<nat>, Snapshot, seq<nat>, seq<nat>, bool))
    ensures ChatGlue(lifetimes, acks, ChatGlue(more, moreAcks, r)) == ChatGlue(lifetimes + more, acks + moreAcks, r)
  {
    assert lifetimes + (more + r.2) == (lifetimes + more) + r.2;
    assert acks + (moreAcks + r.3) == (acks + moreAcks) + r.3;
  }

  /**
    `chat_ws` over `rounds`: one acknowledgement set, initially `acked`, for
    all of them; the rounds in turn until one ends the task. The first
    connection of the sandbox task gets the kill offset. The result is the
    set and the registry afterwards, the lifetimes of the connections opened,
    all acknowledgements, and whether the task ended.
  */
  function ChatRounds(acked: set<nat>, s: Snapshot, rounds: seq<ChatRound>, resolve: string -> Option<Url>, logId: string, first: bool)
    : (r: (set<nat>, Snapshot, seq<nat>, seq<nat>, bool))
    ensures |r.2| <= |rounds|
    ensures !r.4 ==> |r.2| == |rounds|
    ensures forall k :: 0 <= k < |r.2| ==> r.2[k] == ChatLifetimeMs(logId == "sandbox" && first && k == 0)
    ensures s.Below(r.1) && r.1.p716 == s.p716 && r.1.p717 == s.p717
    decreases |rounds|, 1
  {
    if rounds == [] then (acked, s, [], [], false) else ChatRoundsNext(acked, s, rounds, resolve, logId, first)
  }

  /** The fold over at least one round: the first round, then, unless it ends the task, the fold over the rest. */
  function ChatRoundsNext(acked: set<nat>, s: Snapshot, rounds: seq<ChatRound>, resolve: string -> Option<Url>, logId: string, first: bool)
    : (r: (set<nat>, Snapshot, seq<nat>, seq<nat>, bool))
    requires rounds != []
    ensures |r.2| <= |rounds|
    ensures !r.4 ==> |r.2| == |rounds|
    ensures forall k :: 0 <= k < |r.2| ==> r.2[k] == ChatLifetimeMs(logId == "sandbox" && first && k == 0)
    ensures s.Below(r.1) && r.1.p716 == s.p716 && r.1.p717 == s.p717
    decreases |rounds|, 0
  {
    var r0 := ChatRoundRun(acked, s, rounds[0], resolve, logId == "sandbox" && first);
    if r0.4 then ChatGlue(Opened(r0.2), r0.3, (r0.0, r0.1, [], [], true))
    else ChatGlue(Opened(r0.2), r0.3, ChatRounds(r0.0, r0.1, rounds[1..], resolve, logId, false))
  }

  /**
    Across all rounds of a task, through the one shared set, no identifier is
    acknowledged twice and none the set held at the start.
  */
  lemma {:induction false} ChatRoundsAcksNew(acked: set<nat>, s: Snapshot, rounds: seq<ChatRound>, resolve: string -> Option<Url>,
                                             logId: string, first: bool)
    ensures var r := ChatRounds(acked, s, rounds, resolve, logId, first);
      AcksNew(acked, r.0, r.3)
    decreases |rounds|
  {
    if rounds == [] {
      assert Elems([]) == {};
    } else {
      var r0 := ChatRoundRun(acked, s, rounds[0], resolve, logId == "sandbox" && first);
      ChatRoundAcksNew(acked, s, rounds[0], resolve, logId == "sandbox" && first);
      if r0.4 {
        assert r0.3 + [] == r0.3;
      } else {
        ChatRoundsAcksNew(r0.0, r0.1, rounds[1..], resolve, logId, false);
        var r := ChatRounds(r0.0, r0.1, rounds[1..], resolve, logId, false);
        AcksNewCompose(acked, r0.0, r.0, r0.3, r.3);
      }
    }
  }

  /** The fold from position `i` on: round `i`, then, unless it ends the task, the fold from `i + 1` on. */
  lemma ChatRoundsUnfold(acked: set<nat>, s: Snapshot, rounds: seq<ChatRound>, resolve: string -> Option<Url>, logId: string,
                         i: nat, first: bool)
    requires i < |rounds|
    ensures var r0 := ChatRoundRun(acked, s, rounds[i], resolve, logId == "sandbox" && first);
      ChatRounds(acked, s, rounds[i..], resolve, logId, first)
        == if r0.4 then ChatGlue(Opened(r0.2), r0.3, (r0.0, r0.1, [], [], true))
           else ChatGlue(Opened(r0.2), r0.3, ChatRounds(r0.0, r0.1, rounds[i + 1..], resolve, logId, false))
  {
    assert rounds[i..][0] == rounds[i];
    assert rounds[i..][1..] == rounds[i + 1..];
  }

  /**
    One round of `chat_ws`: `ack_back`, then `connect_chat_ws` (seed the
    registry from the history, then handle the connection). `lifetime` is
    the connection's lifetime when it opened; `acks` are the round's
    acknowledgements, which never repeat one made earlier through the set.
  */
  method ChatOnce(ack: AckSet, ids: Ids, resolve: string -> Option<Url>, round: ChatRound, killOffset: bool)
    returns (lifetime: Option<nat>, acks: seq<nat>, panicked: bool)
    modifies ack, ids
    ensures (ack.acked, ids.View(), lifetime, acks, panicked) == ChatRoundRun(old(ack.acked), old(ids.View()), round, resolve, killOffset)
    ensures AcksNew(old(ack.acked), ack.acked, acks)
    ensures lifetime.Some? ==> lifetime.value == ChatLifetimeMs(killOffset)
    ensures !panicked ==> lifetime.Some?
    ensures old(ids.View()).Below(ids.View()) && ids.p716 == old(ids.p716) && ids.p717 == old(ids.p717)
  {
    ChatRoundAcksNew(ack.acked, ids.View(), round, resolve, killOffset);
    lifetime := None;
    var end;
    acks, end := AckBack(ack, round.page);
    if end != Acked || round.history.None? {
      return lifetime, acks, true;
    }
    var seeded := KnownIds(ids, round.history.value, resolve);
    if seeded || round.stream.None? {
      return lifetime, acks, true;
    }
    lifetime := Some(ChatLifetimeMs(killOffset));
    var socketAcks, ping;
    socketAcks, ping, panicked := ChatSocket(ack, round.stream.value, round.start);
    acks := acks + socketAcks;
  }

  /**
    One pass of `chat_ws`'s loop, taking round `i` on top of the lifetimes
    and acknowledgements of the rounds before it: what is left of the fold
    afterwards is the fold from round `i + 1` on, or nothing when the round
    ended the task.
  */
  method ChatWsRound(ack: AckSet, ids: Ids, resolve: string -> Option<Url>, rounds: seq<ChatRound>, logId: string, i: nat,
                     ghost whole: (set<nat>, Snapshot, seq<nat>, seq<nat>, bool), lifetimes: seq<nat>, acks: seq<nat>,
                     ghost rest: (set<nat>, Snapshot, seq<nat>, seq<nat>, bool))
    returns (lifetimes': seq<nat>, acks': seq<nat>, panicked: bool, ghost rest': (set<nat>, Snapshot, seq<nat>, seq<nat>, bool))
    requires i < |rounds|
    requires whole == ChatGlue(lifetimes, acks, rest)
    requires Remaining(rest, ack.acked, ids.View(), rounds, resolve, logId, i, false)
    modifies ack, ids
    ensures whole == ChatGlue(lifetimes', acks', rest')
    ensures Remaining(rest', ack.acked, ids.View(), rounds, resolve, logId, i + 1, panicked)
  {
    ChatRoundsUnfold(ack.acked, ids.View(), rounds, resolve, logId, i, i == 0);
    ghost var r0 := ChatRoundRun(ack.acked, ids.View(), rounds[i], resolve, logId == "sandbox" && i == 0);
    var lifetime, more;
    lifetime, more, panicked := ChatOnce(ack, ids, resolve, rounds[i], logId == "sandbox" && i == 0);
    assert r0 == (ack.acked, ids.View(), lifetime, more, panicked);
    rest' := if panicked then (ack.acked, ids.View(), [], [], true)
             else ChatRounds(ack.acked, ids.View(), rounds[i + 1..], resolve, logId, false);
    assert rest == ChatGlue(Opened(lifetime), more, rest');
    ChatGlueGlue(lifetimes, acks, Opened(lifetime), more, rest');
    lifetimes', acks' := lifetimes + Opened(lifetime), acks + more;
  }

  /**
    The reconnect loop of `chat_ws` on a given acknowledgement set: the
    rounds in turn until one ends the task.
  */
  method ChatWsLoop(ack: AckSet, ids: Ids, resolve: string -> Option<Url>, rounds: seq<ChatRound>, logId: string)
    returns (lifetimes: seq<nat>, acks: seq<nat>, panicked: bool)
    modifies ack, ids
    ensures (ack.acked, ids.View(), lifetimes, acks, panicked) == ChatRounds(old(ack.acked), old(ids.View()), rounds, resolve, logId, true)
  {
    lifetimes, acks, panicked := [], [], false;
    var i := 0;
    ghost var whole := ChatRounds(old(ack.acked), old(ids.View()), rounds, resolve, logId, true);
    ghost var rest := whole;
    ChatGlueNothing(whole);
    assert rounds[0..] == rounds;
    while i < |rounds| && !panicked
      invariant 0 <= i <= |rounds|
      invariant whole == ChatGlue(lifetimes, acks, rest)
      invariant Remaining(rest, ack.acked, ids.View(), rounds, resolve, logId, i, panicked)
    {
      lifetimes, acks, panicked, rest := ChatWsRound(ack, ids, resolve, rounds, logId, i, whole, lifetimes, acks, rest);
      i := i + 1;
    }
    ChatRoundsDone(whole, rest, ack.acked, ids.View(), lifetimes, acks, panicked, rounds, resolve, logId, i);
  }


  /**
    `chat_ws` over the given rounds: one acknowledgement set for all of them;
    each round acknowledges what the room page lists, seeds the registry from
    the history and handles a connection, whose lifetime is one hour for the
    first connection of the sandbox task and two hours otherwise. Any error or
    panic ends the task.
  */
  method ChatWs(logId: string, ids: Ids, resolve: string -> Option<Url>, rounds: seq<ChatRound>)
    returns (lifetimes: seq<nat>, acks: seq<nat>, panicked: bool)
    modifies ids
    ensures var r := ChatRounds({}, old(ids.View()), rounds, resolve, logId, true);
      ids.View() == r.1 && lifetimes == r.2 && acks == r.3 && panicked == r.4
    ensures |lifetimes| <= |rounds|
    ensures forall k :: 0 <= k < |lifetimes| ==> lifetimes[k] == ChatLifetimeMs(logId == "sandbox" && k == 0)
    ensures !panicked ==> |lifetimes| == |rounds|
    ensures Distinct(acks)
    ensures old(ids.View()).Below(ids.View()) && ids.p716 == old(ids.p716) && ids.p717 == old(ids.p717)
  {
    ChatRoundsAcksNew({}, ids.View(), rounds, resolve, logId, true);
    var ack := new AckSet();
    lifetimes, acks, panicked := ChatWsLoop(ack, ids, resolve, rounds, logId);
  }
}
