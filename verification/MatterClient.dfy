/**
 The subscriber index of the client object,
 python_client/matter_server/client/client.py:82, 95-131 and 960-979: a dictionary of
 callback lists, kept equal to the list of active subscriptions.
 */
module MatterClient {
  import opened Wrappers
  import opened SubscriberKeys

  /** `list.remove`: the first equal element goes. */
  function RemoveFirst(list: seq<nat>, x: nat): seq<nat> {
    if list == [] then [] else if list[0] == x then list[1..] else [list[0]] + RemoveFirst(list[1..], x)
  }

  class Client {
    var subscribers: map<string, seq<nat>>
    ghost var active: seq<Subscription>

    /** `self._subscribers.get(key, [])`. */
    function Listed(key: string): seq<nat>
      reads this
    {
      if key in subscribers then subscribers[key] else []
    }

    ghost predicate Valid()
      reads this
    {
      forall key :: Listed(key) == Under(active, key)
    }

    constructor ()
      ensures Valid() && active == []
    {
      subscribers, active := map[], [];
    }

    method SubscribeEvents(s: Subscription)
      requires Valid()
      modifies this
      ensures Valid() && active == old(active) + [s]
    {
      hide Key;
      var key := Key(s);
      if key !in subscribers {
        subscribers := subscribers[key := []];
      }
      subscribers := subscribers[key := subscribers[key] + [s.callback]];
      active := active + [s];
      forall k
        ensures Listed(k) == Under(active, k)
      {
        UnderOneMore(old(active), s, k);
      }
    }

    /** The function `subscribe_events` returned for `s`; false is the ValueError of a second call. */
    method Unsubscribe(s: Subscription) returns (ok: bool)
      requires Valid()
      modifies this
      ensures Valid() && active == Without(old(active), Key(s), s.callback)
      ensures ok == (s.callback in Under(old(active), Key(s)))
    {
      hide Key;
      var key := Key(s);
      var list := Listed(key);
      ok := s.callback in list;
      forall k
        ensures Under(Without(active, key, s.callback), k) ==
                if k == key then RemoveFirst(Under(active, k), s.callback) else Under(active, k)
      {
        UnderWithout(active, key, s.callback, k);
      }
      NothingToRemove(list, s.callback);
      if ok {
        subscribers := subscribers[key := RemoveFirst(list, s.callback)];
      }
      active := Without(active, key, s.callback);
    }

    /** Calls the callbacks under every key the event looks up; `calls` lists them in order. */
    method SignalEvent(e: Event) returns (calls: seq<nat>)
      requires Valid()
      ensures calls == Calls(active, LookedUp(e))
      ensures e.path != Some(WILDCARD) ==> multiset(calls) == Scan(active, e)
    {
      hide Join, Under, Selects, Key, Scan, Plane, Calls;
      var events, nodes, paths := EventKeys(e), NodeKeys(e), PathKeys(e);
      calls := [];
      ghost var keys: seq<string> := [];
      NoKeys(active);
      var i := 0;
      while i < |events|
        invariant 0 <= i <= |events|
        invariant keys == Keys(events[..i], nodes, paths) && calls == Calls(active, keys)
      {
        var inPlane, plane := SignalPlane(events[i], nodes, paths);
        CallsAppend(active, keys, plane);
        calls, keys := calls + inPlane, keys + plane;
        assert events[..i + 1][..i] == events[..i];
        i := i + 1;
      }
      assert events[..|events|] == events;
      IndexMatchesScan(active, e);
    }

    /** The middle loop, over the node keys; an event without a node skips the first. */
    method SignalPlane(event: string, nodes: seq<Option<string>>, paths: seq<Option<string>>)
      returns (calls: seq<nat>, ghost plane: seq<string>)
      requires Valid()
      ensures plane == Plane(event, nodes, paths) && calls == Calls(active, plane)
    {
      hide Join, Under, Row, Calls;
      calls, plane := [], [];
      NoKeys(active);
      var j := 0;
      while j < |nodes|
        invariant 0 <= j <= |nodes|
        invariant plane == Plane(event, nodes[..j], paths) && calls == Calls(active, plane)
      {
        assert nodes[..j + 1][..j] == nodes[..j];
        if nodes[j].Some? {
          var inRow, row := SignalRow(event, nodes[j].value, paths);
          CallsAppend(active, plane, row);
          calls, plane := calls + inRow, plane + row;
        }
        j := j + 1;
      }
      assert nodes[..|nodes|] == nodes;
    }

    /** The innermost loops, over the path keys and over the callbacks of a key. */
    method SignalRow(event: string, node: string, paths: seq<Option<string>>) returns (calls: seq<nat>, ghost row: seq<string>)
      requires Valid()
      ensures row == Row(event, node, paths) && calls == Calls(active, row)
    {
      hide Join, Under, Calls;
      calls, row := [], [];
      NoKeys(active);
      var k := 0;
      while k < |paths|
        invariant 0 <= k <= |paths|
        invariant row == Row(event, node, paths[..k]) && calls == Calls(active, row)
      {
        assert paths[..k + 1][..k] == paths[..k];
        if paths[k].Some? {
          var key := Join(event, node, paths[k].value);
          var list := Listed(key);
          ghost var before := calls;
          OneMoreKey(active, row, key);
          var c := 0;
          while c < |list|
            invariant 0 <= c <= |list| && calls == before + list[..c]
          {
            calls := calls + [list[c]];
            c := c + 1;
          }
          assert list[..|list|] == list;
          row := row + [key];
        }
        k := k + 1;
      }
      assert paths[..|paths|] == paths;
    }
  }

  lemma {:induction false} UnderWithout(active: seq<Subscription>, key: string, callback: nat, k: string)
    ensures Under(Without(active, key, callback), k) ==
            if k == key then RemoveFirst(Under(active, k), callback) else Under(active, k)
  {
    hide Key, Under;
    if active == [] {
      NoneUnder(k);
    } else {
      var first, rest := active[0], active[1..];
      assert active == [first] + rest;
      UnderCons(first, rest, k);
      var own := if Key(first) == k then [first.callback] else [];
      assert own + Under(rest, k) == Under(active, k);
      if Key(first) == key && first.callback == callback {
        assert Without(active, key, callback) == rest;
        assert k == key ==> Under(active, k)[1..] == Under(rest, k);
        assert k != key ==> Under(active, k) == Under(rest, k);
      } else {
        UnderWithout(rest, key, callback, k);
        UnderCons(first, Without(rest, key, callback), k);
        if first.callback != callback {
          RemoveLater(first.callback, Under(rest, k), callback);
        }
      }
    }
  }

  lemma RemoveLater(y: nat, list: seq<nat>, x: nat)
    requires y != x
    ensures RemoveFirst([y] + list, x) == [y] + RemoveFirst(list, x)
  {
    assert ([y] + list)[1..] == list;
  }

  lemma NoKeys(active: seq<Subscription>)
    ensures Calls(active, []) == []
  {
  }

  lemma OneMoreKey(active: seq<Subscription>, keys: seq<string>, key: string)
    ensures Calls(active, keys + [key]) == Calls(active, keys) + Under(active, key)
  {
    hide Under;
    assert (keys + [key])[..|keys|] == keys;
  }

  lemma NoneUnder(key: string)
    ensures Under([], key) == []
  {
  }

  lemma {:induction false} UnderCons(first: Subscription, rest: seq<Subscription>, key: string)
    ensures Under([first] + rest, key) == (if Key(first) == key then [first.callback] else []) + Under(rest, key)
  {
    hide Key;
    if rest == [] {
      assert [first] + rest == [] + [first];
      UnderOneMore([], first, key);
    } else {
      var k := |rest| - 1;
      assert [first] + rest == ([first] + rest[..k]) + [rest[k]];
      UnderCons(first, rest[..k], key);
      UnderOneMore([first] + rest[..k], rest[k], key);
    }
  }

  lemma {:induction false} NothingToRemove(list: seq<nat>, x: nat)
    ensures x !in list ==> RemoveFirst(list, x) == list
  {
    if list != [] {
      NothingToRemove(list[1..], x);
    }
  }
}
