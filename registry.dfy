/**
  The dedup registry (`Ids`): one set of already-seen item identifiers per
  feed. Every producer (the watch-socket handler, the reconciliation pass and
  the chat-history scan) inserts into it and announces an item only when the
  insertion reports the identifier as new. Identifiers are never removed.
*/
module Registry {

  /**
    The four feeds: new questions on codegolf (`p_200`), new questions and new
    sandbox answers on codegolf.meta (`p_202`), new questions on
    languagedesign (`p_716`) and on languagedesign.meta (`p_717`).
  */
  datatype Feed = P200 | P202 | P716 | P717

  /** The contents of the registry at one moment. */
  datatype Snapshot = Snapshot(p200: set<string>, p202: set<string>, p716: set<string>, p717: set<string>)
  {
    function Get(feed: Feed): set<string> {
      match feed
      case P200 => p200
      case P202 => p202
      case P716 => p716
      case P717 => p717
    }

    /** The registry after `id` is inserted into `feed`'s set; the other feeds are untouched. */
    function Add(feed: Feed, id: string): (r: Snapshot)
      ensures r.Get(feed) == Get(feed) + {id}
      ensures forall other :: other != feed ==> r.Get(other) == Get(other)
    {
      AddAll(feed, {id})
    }

    /** Inserting an identifier that is already recorded changes nothing. */
    lemma AddPresent(feed: Feed, id: string)
      requires id in Get(feed)
      ensures Add(feed, id) == this
    {
      var r := Add(feed, id);
      assert r.Get(P200) == Get(P200) && r.Get(P202) == Get(P202);
      assert r.Get(P716) == Get(P716) && r.Get(P717) == Get(P717);
    }

    /** The registry after every identifier of `ids` is inserted into `feed`'s set. */
    function AddAll(feed: Feed, ids: set<string>): (r: Snapshot)
      ensures r.Get(feed) == Get(feed) + ids
      ensures forall other :: other != feed ==> r.Get(other) == Get(other)
    {
      match feed
      case P200 => this.(p200 := p200 + ids)
      case P202 => this.(p202 := p202 + ids)
      case P716 => this.(p716 := p716 + ids)
      case P717 => this.(p717 := p717 + ids)
    }

    /** Every identifier recorded here is recorded in `later` too. */
    predicate Below(later: Snapshot) {
      forall feed :: Get(feed) <= later.Get(feed)
    }
  }

  const Empty := Snapshot({}, {}, {}, {})

  class Ids {
    var p200: set<string>
    var p202: set<string>
    var p716: set<string>
    var p717: set<string>

    function View(): Snapshot
      reads this
    {
      Snapshot(p200, p202, p716, p717)
    }

    constructor ()
      ensures View() == Empty
    {
      p200, p202, p716, p717 := {}, {}, {}, {};
    }

    /**
      `HashSet::insert` on `feed`'s set: true exactly when `id` was not yet
      recorded for `feed`; afterwards it is.
    */
    method Observe(feed: Feed, id: string) returns (isNew: bool)
      modifies this
      ensures isNew <==> id !in old(View()).Get(feed)
      ensures View() == old(View()).Add(feed, id)
    {
      match feed
      case P200 => isNew := id !in p200; p200 := p200 + {id};
      case P202 => isNew := id !in p202; p202 := p202 + {id};
      case P716 => isNew := id !in p716; p716 := p716 + {id};
      case P717 => isNew := id !in p717; p717 := p717 + {id};
    }

    /** Inserts every identifier of `ids` into `feed`'s set, one at a time, ignoring the answers. */
    method ObserveAll(feed: Feed, ids: set<string>)
      modifies this
      ensures View() == old(View()).AddAll(feed, ids)
    {
      var todo := ids;
      while todo != {}
        invariant todo <= ids
        invariant View() == old(View()).AddAll(feed, ids - todo)
        decreases todo
      {
        var id :| id in todo;
        var _ := Observe(feed, id);
        todo := todo - {id};
        assert ids - todo == (ids - (todo + {id})) + {id};
      }
    }
  }

  /** The registry after inserting the (feed, identifier) pairs of `keys`, in order. */
  function Record(s: Snapshot, keys: seq<(Feed, string)>): (r: Snapshot)
    ensures s.Below(r)
    ensures forall k :: 0 <= k < |keys| ==> keys[k].1 in r.Get(keys[k].0)
    ensures forall feed, id :: id in r.Get(feed) ==> id in s.Get(feed) || (feed, id) in keys
    decreases |keys|
  {
    if keys == [] then s else Record(s.Add(keys[0].0, keys[0].1), keys[1..])
  }

  lemma {:induction false} RecordAppend(s: Snapshot, first: seq<(Feed, string)>, second: seq<(Feed, string)>)
    ensures Record(s, first + second) == Record(Record(s, first), second)
    decreases |first|
  {
    if first == [] {
      assert first + second == second;
    } else {
      assert (first + second)[1..] == first[1..] + second;
      RecordAppend(s.Add(first[0].0, first[0].1), first[1..], second);
    }
  }

  /**
    Every pair of `keys` is a first sighting with respect to `s`: none is
    recorded in `s` and no pair occurs twice. These are the pairs whose
    insertion reports them as new, so each is announced exactly once.
  */
  ghost predicate FirstSightings(s: Snapshot, keys: seq<(Feed, string)>) {
    && (forall k :: 0 <= k < |keys| ==> keys[k].1 !in s.Get(keys[k].0))
    && (forall j, k :: 0 <= j < k < |keys| ==> keys[j] != keys[k])
  }

  /**
    First sightings compose: a producer that announces `first` from `s`, and
    any producer that later announces `second` from a registry that contains
    all of that (and possibly more), never announce the same pair twice.
  */
  lemma Sequential(s: Snapshot, first: seq<(Feed, string)>, t: Snapshot, second: seq<(Feed, string)>)
    requires FirstSightings(s, first)
    requires Record(s, first).Below(t)
    requires FirstSightings(t, second)
    ensures FirstSightings(s, first + second)
  {
    var all := first + second;
    var r := Record(s, first);
    forall k | |first| <= k < |all|
      ensures all[k].1 !in s.Get(all[k].0)
    {
      assert all[k] == second[k - |first|];
      assert s.Get(all[k].0) <= r.Get(all[k].0) <= t.Get(all[k].0);
    }
    forall j, k | 0 <= j < |first| <= k < |all|
      ensures all[j] != all[k]
    {
      assert all[j] == first[j] && all[k] == second[k - |first|];
      assert first[j].1 in r.Get(first[j].0);
      assert r.Get(first[j].0) <= t.Get(first[j].0);
    }
  }
}
