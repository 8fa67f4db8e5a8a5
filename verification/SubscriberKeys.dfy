/**
 The event subscriptions of the Python client,
 python_client/matter_server/client/client.py:95-131 and 960-979. Callbacks are filed
 under a key that joins the three filters with slashes; an event looks up every key that
 could select it. A callback is known by a number.
 */
module SubscriberKeys {
  import opened Wrappers
  import opened Numerals
  import opened Joined

  datatype Filter<T> = Any | Only(value: T)

  /** EventType, python_client/matter_server/common/models.py:14-28. */
  datatype EventType =
    | NodeAdded | NodeUpdated | NodeRemoved | NodeEvent | AttributeUpdated | ServerShutdown
    | ServerInfoUpdated | EndpointAdded | EndpointRemoved | WebrtcCallback
    | ThreadDiagnosticsUpdated | NetworkTopologyUpdated

  const WILDCARD := "*"

  function EventText(e: EventType): string {
    match e
    case NodeAdded => "node_added"
    case NodeUpdated => "node_updated"
    case NodeRemoved => "node_removed"
    case NodeEvent => "node_event"
    case AttributeUpdated => "attribute_updated"
    case ServerShutdown => "server_shutdown"
    case ServerInfoUpdated => "server_info_updated"
    case EndpointAdded => "endpoint_added"
    case EndpointRemoved => "endpoint_removed"
    case WebrtcCallback => "webrtc_callback"
    case ThreadDiagnosticsUpdated => "thread_diagnostics_updated"
    case NetworkTopologyUpdated => "network_topology_updated"
  }

  function IntText(n: int): string {
    if n < 0 then "-" + Decimal(-n) else Decimal(n)
  }

  function Join(event: string, node: string, path: string): string {
    event + "/" + node + "/" + path
  }

  datatype Subscription = Subscription(callback: nat, event: Filter<EventType>, node: Filter<int>, path: Filter<string>)

  function EventKey(f: Filter<EventType>): string {
    if f.Any? then WILDCARD else EventText(f.value)
  }

  function NodeKey(f: Filter<int>): string {
    if f.Any? then WILDCARD else IntText(f.value)
  }

  function PathKey(f: Filter<string>): string {
    if f.Any? then WILDCARD else f.value
  }

  function Key(s: Subscription): string {
    Join(EventKey(s.event), NodeKey(s.node), PathKey(s.path))
  }

  // ----- The reference: a scan of all filters -----

  datatype Event = Event(kind: EventType, node: Option<int>, path: Option<string>)

  /** A filter on something the event does not carry selects nothing; the path "*" is a wildcard too. */
  predicate Selects(s: Subscription, e: Event) {
    && (s.event.Any? || s.event.value == e.kind)
    && (s.node.Any? || Some(s.node.value) == e.node)
    && (s.path.Any? || s.path.value == WILDCARD || Some(s.path.value) == e.path)
  }

  function Scan(active: seq<Subscription>, e: Event): multiset<nat> {
    if active == [] then multiset{}
    else Scan(active[1..], e) + if Selects(active[0], e) then multiset{active[0].callback} else multiset{}
  }

  // ----- The key is injective -----

  predicate NoSlash(s: string) {
    Free('/', s)
  }

  /** Paths may hold slashes: the first two slashes of a key are the joints. */
  lemma JoinIsInjective(e1: string, n1: string, p1: string, e2: string, n2: string, p2: string)
    requires NoSlash(e1) && NoSlash(n1) && NoSlash(e2) && NoSlash(n2)
    ensures Join(e1, n1, p1) == Join(e2, n2, p2) <==> e1 == e2 && n1 == n2 && p1 == p2
  {
    if Join(e1, n1, p1) == Join(e2, n2, p2) {
      assert Join(e1, n1, p1) == e1 + "/" + (n1 + "/" + p1);
      assert Join(e2, n2, p2) == e2 + "/" + (n2 + "/" + p2);
      SplitAtJoint('/', e1, n1 + "/" + p1, e2, n2 + "/" + p2);
      SplitAtJoint('/', n1, p1, n2, p2);
    }
  }

  lemma EventTextIsPlain(e: EventType)
    ensures NoSlash(EventText(e)) && EventText(e) != WILDCARD
  {
    hide EventText;
    if e.NodeAdded? || e.NodeUpdated? || e.NodeRemoved? || e.NodeEvent? || e.AttributeUpdated? || e.ServerShutdown? {
      NodeEventsArePlain(e);
    } else {
      OtherEventsArePlain(e);
    }
  }

  lemma NodeEventsArePlain(e: EventType)
    requires e.NodeAdded? || e.NodeUpdated? || e.NodeRemoved? || e.NodeEvent? || e.AttributeUpdated? || e.ServerShutdown?
    ensures NoSlash(EventText(e)) && EventText(e) != WILDCARD
  {
  }

  lemma OtherEventsArePlain(e: EventType)
    requires !(e.NodeAdded? || e.NodeUpdated? || e.NodeRemoved? || e.NodeEvent? || e.AttributeUpdated? || e.ServerShutdown?)
    ensures NoSlash(EventText(e)) && EventText(e) != WILDCARD
  {
  }

  lemma EventTextIsInjective(e: EventType, f: EventType)
    requires EventText(e) == EventText(f)
    ensures e == f
  {
  }

  lemma IntTextIsPlain(n: int)
    ensures NoSlash(IntText(n)) && IntText(n) != WILDCARD
  {
    hide Decimal;
    var digits := Decimal(if n < 0 then -n else n);
    assert IntText(n) == digits || IntText(n) == "-" + digits;
    assert forall i :: 0 <= i < |digits| ==> IsDigit(digits[i]);
    assert IntText(n)[0] != '*';
  }

  lemma IntTextIsInjective(m: int, n: int)
    requires IntText(m) == IntText(n)
    ensures m == n
  {
    DecimalReadsBack(if m < 0 then -m else m);
    DecimalReadsBack(if n < 0 then -n else n);
    hide Decimal;
    var a, b := Decimal(if m < 0 then -m else m), Decimal(if n < 0 then -n else n);
    assert IsDigit(a[0]) && IsDigit(b[0]);
    assert m < 0 ==> IntText(m)[1..] == a;
    assert n < 0 ==> IntText(n)[1..] == b;
  }

  /** Two subscriptions share a key exactly when their filters are the same, the path "*" being no filter. */
  lemma KeyIsInjective(s: Subscription, t: Subscription)
    ensures Key(s) == Key(t) <==>
            s.event == t.event && s.node == t.node && (PathKey(s.path) == PathKey(t.path))
  {
    PlainParts(s);
    PlainParts(t);
    JoinIsInjective(EventKey(s.event), NodeKey(s.node), PathKey(s.path), EventKey(t.event), NodeKey(t.node), PathKey(t.path));
    hide Join, EventText, IntText;
    EventKeyIsInjective(s.event, t.event);
    NodeKeyIsInjective(s.node, t.node);
  }

  lemma PlainParts(s: Subscription)
    ensures NoSlash(EventKey(s.event)) && NoSlash(NodeKey(s.node))
  {
    hide EventText, IntText;
    if s.event.Only? {
      EventTextIsPlain(s.event.value);
    }
    if s.node.Only? {
      IntTextIsPlain(s.node.value);
    }
  }

  lemma EventKeyIsInjective(f: Filter<EventType>, g: Filter<EventType>)
    ensures EventKey(f) == EventKey(g) <==> f == g
  {
    hide EventText;
    if f.Only? {
      EventTextIsPlain(f.value);
    }
    if g.Only? {
      EventTextIsPlain(g.value);
    }
    if f.Only? && g.Only? && EventKey(f) == EventKey(g) {
      EventTextIsInjective(f.value, g.value);
    }
  }

  lemma NodeKeyIsInjective(f: Filter<int>, g: Filter<int>)
    ensures NodeKey(f) == NodeKey(g) <==> f == g
  {
    hide IntText;
    if f.Only? {
      IntTextIsPlain(f.value);
    }
    if g.Only? {
      IntTextIsPlain(g.value);
    }
    if f.Only? && g.Only? && NodeKey(f) == NodeKey(g) {
      IntTextIsInjective(f.value, g.value);
    }
  }

  // ----- The keys an event looks up -----

  /** The keys of the innermost loop; a missing path is skipped. */
  function Row(event: string, node: string, paths: seq<Option<string>>): seq<string> {
    if paths == [] then []
    else
      var last := paths[|paths| - 1];
      Row(event, node, paths[..|paths| - 1]) + if last.Some? then [Join(event, node, last.value)] else []
  }

  function Plane(event: string, nodes: seq<Option<string>>, paths: seq<Option<string>>): seq<string> {
    if nodes == [] then []
    else
      var last := nodes[|nodes| - 1];
      Plane(event, nodes[..|nodes| - 1], paths) + if last.Some? then Row(event, last.value, paths) else []
  }

  function Keys(events: seq<string>, nodes: seq<Option<string>>, paths: seq<Option<string>>): seq<string> {
    if events == [] then []
    else Keys(events[..|events| - 1], nodes, paths) + Plane(events[|events| - 1], nodes, paths)
  }

  function EventKeys(e: Event): seq<string> {
    [EventText(e.kind), WILDCARD]
  }

  function NodeKeys(e: Event): seq<Option<string>> {
    [if e.node.Some? then Some(IntText(e.node.value)) else None, Some(WILDCARD)]
  }

  function PathKeys(e: Event): seq<Option<string>> {
    [e.path, Some(WILDCARD)]
  }

  function LookedUp(e: Event): seq<string> {
    Keys(EventKeys(e), NodeKeys(e), PathKeys(e))
  }

  /** The keys in the order in which callbacks are called: the event's own before all events, then its node, then its path. */
  lemma LookupOrder(e: Event)
    ensures var t, w := EventText(e.kind), "*";
            match (e.node, e.path)
            case (Some(node), Some(p)) =>
              var n := IntText(node);
              LookedUp(e) == [Join(t, n, p), Join(t, n, w), Join(t, w, p), Join(t, w, w),
                              Join(w, n, p), Join(w, n, w), Join(w, w, p), Join(w, w, w)]
            case (Some(node), None) =>
              var n := IntText(node);
              LookedUp(e) == [Join(t, n, w), Join(t, w, w), Join(w, n, w), Join(w, w, w)]
            case (None, Some(p)) => LookedUp(e) == [Join(t, w, p), Join(t, w, w), Join(w, w, p), Join(w, w, w)]
            case (None, None) => LookedUp(e) == [Join(t, w, w), Join(w, w, w)]
  {
    hide EventText, IntText, Join, Row, Plane, Keys;
    var t := EventText(e.kind);
    TwoEvents(e);
    TwoNodes(t, e);
    TwoNodes("*", e);
    TwoPaths(t, "*", e.path);
    TwoPaths("*", "*", e.path);
    if e.node.Some? {
      TwoPaths(t, IntText(e.node.value), e.path);
      TwoPaths("*", IntText(e.node.value), e.path);
    }
  }

  lemma TwoPaths(event: string, node: string, path: Option<string>)
    ensures Row(event, node, [path, Some(WILDCARD)]) ==
            (if path.Some? then [Join(event, node, path.value)] else []) + [Join(event, node, "*")]
  {
    hide Join;
    assert [path, Some(WILDCARD)][..1] == [path] && [path][..0] == [];
    assert Row(event, node, []) == [];
    assert Row(event, node, [path]) == if path.Some? then [Join(event, node, path.value)] else [];
  }

  lemma TwoNodes(event: string, e: Event)
    ensures Plane(event, NodeKeys(e), PathKeys(e)) ==
            (if e.node.Some? then Row(event, IntText(e.node.value), PathKeys(e)) else []) + Row(event, WILDCARD, PathKeys(e))
  {
    hide Row, IntText;
    var nodes := NodeKeys(e);
    assert nodes[..1] == [nodes[0]] && [nodes[0]][..0] == [];
    assert Plane(event, [], PathKeys(e)) == [];
    assert Plane(event, [nodes[0]], PathKeys(e)) ==
           if e.node.Some? then Row(event, IntText(e.node.value), PathKeys(e)) else [];
  }

  lemma TwoEvents(e: Event)
    ensures LookedUp(e) ==
            Plane(EventText(e.kind), NodeKeys(e), PathKeys(e)) + Plane(WILDCARD, NodeKeys(e), PathKeys(e))
  {
    hide Plane, EventText, NodeKeys, PathKeys;
    var events := EventKeys(e);
    assert events[..1] == [events[0]] && [events[0]][..0] == [];
    assert Keys([], NodeKeys(e), PathKeys(e)) == [];
    assert Keys([events[0]], NodeKeys(e), PathKeys(e)) == Plane(events[0], NodeKeys(e), PathKeys(e));
  }

  lemma {:induction false} RowCount(event: string, node: string, paths: seq<Option<string>>, e: string, n: string, p: string)
    requires NoSlash(event) && NoSlash(node) && NoSlash(e) && NoSlash(n)
    ensures multiset(Row(event, node, paths))[Join(e, n, p)] ==
            if event == e && node == n then multiset(paths)[Some(p)] else 0
  {
    hide Join;
    if paths != [] {
      var k := |paths| - 1;
      RowCount(event, node, paths[..k], e, n, p);
      assert paths == paths[..k] + [paths[k]];
      if paths[k].Some? {
        JoinIsInjective(event, node, paths[k].value, e, n, p);
      }
    }
  }

  lemma {:induction false} PlaneCount(event: string, nodes: seq<Option<string>>, paths: seq<Option<string>>, e: string, n: string, p: string)
    requires NoSlash(event) && NoSlash(e) && NoSlash(n)
    requires forall i :: 0 <= i < |nodes| && nodes[i].Some? ==> NoSlash(nodes[i].value)
    requires forall i, j :: 0 <= i < j < |nodes| ==> nodes[i] != nodes[j]
    ensures multiset(Plane(event, nodes, paths))[Join(e, n, p)] ==
            if event == e && Some(n) in nodes then multiset(paths)[Some(p)] else 0
  {
    hide Join, Row;
    if nodes != [] {
      var k := |nodes| - 1;
      PlaneCount(event, nodes[..k], paths, e, n, p);
      assert nodes == nodes[..k] + [nodes[k]];
      if nodes[k].Some? {
        RowCount(event, nodes[k].value, paths, e, n, p);
      }
      assert nodes[k] !in nodes[..k];
    }
  }

  lemma {:induction false} KeysCount(events: seq<string>, nodes: seq<Option<string>>, paths: seq<Option<string>>, e: string, n: string, p: string)
    requires NoSlash(e) && NoSlash(n)
    requires forall i :: 0 <= i < |events| ==> NoSlash(events[i])
    requires forall i, j :: 0 <= i < j < |events| ==> events[i] != events[j]
    requires forall i :: 0 <= i < |nodes| && nodes[i].Some? ==> NoSlash(nodes[i].value)
    requires forall i, j :: 0 <= i < j < |nodes| ==> nodes[i] != nodes[j]
    ensures multiset(Keys(events, nodes, paths))[Join(e, n, p)] ==
            if e in events && Some(n) in nodes then multiset(paths)[Some(p)] else 0
  {
    hide Join, Plane;
    if events != [] {
      var k := |events| - 1;
      KeysCount(events[..k], nodes, paths, e, n, p);
      assert events == events[..k] + [events[k]];
      PlaneCount(events[k], nodes, paths, e, n, p);
      assert events[k] !in events[..k];
    }
  }

  /**
   An event looks up the key of a subscription once when the filters select it, and not at
   all when they do not; an event that carries the path "*" looks everything up twice.
   */
  lemma LookedUpOnce(s: Subscription, e: Event)
    ensures multiset(LookedUp(e))[Key(s)] == if !Selects(s, e) then 0 else if e.path == Some(WILDCARD) then 2 else 1
  {
    hide Join, EventText, IntText, Keys, NoSlash;
    PlainParts(s);
    EventTextIsPlain(e.kind);
    PlainNode(e);
    WildcardIsPlain();
    KeysCount(EventKeys(e), NodeKeys(e), PathKeys(e), EventKey(s.event), NodeKey(s.node), PathKey(s.path));
    EventKeyIsInjective(s.event, Only(e.kind));
    EventKeyIsInjective(s.event, Any);
    NodeKeyIsLookedUp(s.node, e);
    PathKeyCount(s.path, e);
  }

  lemma WildcardIsPlain()
    ensures NoSlash(WILDCARD)
  {
  }

  lemma PlainNode(e: Event)
    ensures NodeKeys(e)[0].Some? ==> NoSlash(NodeKeys(e)[0].value)
    ensures NodeKeys(e)[0] != NodeKeys(e)[1]
  {
    hide IntText;
    if e.node.Some? {
      IntTextIsPlain(e.node.value);
    }
  }

  lemma NodeKeyIsLookedUp(f: Filter<int>, e: Event)
    ensures Some(NodeKey(f)) in NodeKeys(e) <==> f.Any? || Some(f.value) == e.node
  {
    hide IntText;
    NodeKeyIsInjective(f, Any);
    if e.node.Some? {
      NodeKeyIsInjective(f, Only(e.node.value));
    }
  }

  lemma PathKeyCount(f: Filter<string>, e: Event)
    ensures multiset(PathKeys(e))[Some(PathKey(f))] ==
            if !(f.Any? || f.value == WILDCARD || Some(f.value) == e.path) then 0
            else if e.path == Some(WILDCARD) then 2 else 1
  {
    assert multiset(PathKeys(e)) == multiset{e.path, Some(WILDCARD)};
  }

  // ----- The calls -----

  /** The callbacks filed under a key, in the order of subscription. */
  function Under(active: seq<Subscription>, key: string): seq<nat> {
    if active == [] then []
    else
      var k := |active| - 1;
      Under(active[..k], key) + if Key(active[k]) == key then [active[k].callback] else []
  }

  function Calls(active: seq<Subscription>, keys: seq<string>): seq<nat> {
    if keys == [] then [] else Calls(active, keys[..|keys| - 1]) + Under(active, keys[|keys| - 1])
  }

  lemma {:induction false} CallsAppend(active: seq<Subscription>, a: seq<string>, b: seq<string>)
    ensures Calls(active, a + b) == Calls(active, a) + Calls(active, b)
    decreases |b|
  {
    hide Under;
    if b == [] {
      assert a + b == a;
    } else {
      var k := |b| - 1;
      CallsAppend(active, a, b[..k]);
      assert (a + b)[..|a + b| - 1] == a + b[..k];
    }
  }

  /** One more subscription adds one call for each of the keys that is its own. */
  lemma {:induction false} CallsOfOneMore(active: seq<Subscription>, s: Subscription, keys: seq<string>, x: nat)
    ensures multiset(Calls(active + [s], keys))[x] ==
            multiset(Calls(active, keys))[x] + if x == s.callback then multiset(keys)[Key(s)] else 0
  {
    hide Key, Under;
    if keys != [] {
      var k := |keys| - 1;
      CallsOfOneMore(active, s, keys[..k], x);
      assert keys == keys[..k] + [keys[k]];
      UnderOneMore(active, s, keys[k]);
    }
  }

  lemma UnderOneMore(active: seq<Subscription>, s: Subscription, key: string)
    ensures Under(active + [s], key) == Under(active, key) + if Key(s) == key then [s.callback] else []
  {
    hide Key;
    assert (active + [s])[..|active|] == active;
  }

  lemma {:induction false} NoSubscriptions(keys: seq<string>)
    ensures Calls([], keys) == []
  {
    if keys != [] {
      NoSubscriptions(keys[..|keys| - 1]);
    }
  }

  lemma {:induction false} ScanAppend(a: seq<Subscription>, b: seq<Subscription>, e: Event)
    ensures Scan(a + b, e) == Scan(a, e) + Scan(b, e)
  {
    hide Selects;
    if a == [] {
      assert a + b == b;
    } else {
      assert (a + b)[1..] == a[1..] + b;
      ScanAppend(a[1..], b, e);
    }
  }

  lemma ScanSingle(s: Subscription, e: Event)
    ensures Scan([s], e) == if Selects(s, e) then multiset{s.callback} else multiset{}
  {
    hide Selects;
    assert [s][1..] == [];
  }

  /**
   The index calls exactly the callbacks that a scan of all filters selects, each as often
   as it is subscribed; only an event that carries the path "*" calls each of them twice.
   */
  lemma {:induction false} IndexMatchesScan(active: seq<Subscription>, e: Event)
    ensures multiset(Calls(active, LookedUp(e))) ==
            Scan(active, e) + if e.path == Some(WILDCARD) then Scan(active, e) else multiset{}
  {
    hide LookedUp, Key, Selects;
    if active == [] {
      NoSubscriptions(LookedUp(e));
    } else {
      var k := |active| - 1;
      var before, s := active[..k], active[k];
      assert active == before + [s];
      IndexMatchesScan(before, e);
      OneMoreMatches(before, s, e);
    }
  }

  lemma OneMoreMatches(before: seq<Subscription>, s: Subscription, e: Event)
    requires multiset(Calls(before, LookedUp(e))) ==
             Scan(before, e) + if e.path == Some(WILDCARD) then Scan(before, e) else multiset{}
    ensures multiset(Calls(before + [s], LookedUp(e))) ==
            Scan(before + [s], e) + if e.path == Some(WILDCARD) then Scan(before + [s], e) else multiset{}
  {
    hide LookedUp, Key, Selects, Calls, Scan;
    LookedUpOnce(s, e);
    ScanAppend(before, [s], e);
    ScanSingle(s, e);
    var calls, scan := multiset(Calls(before + [s], LookedUp(e))), Scan(before + [s], e);
    forall x: nat
      ensures calls[x] == scan[x] + if e.path == Some(WILDCARD) then scan[x] else 0
    {
      CallsOfOneMore(before, s, LookedUp(e), x);
    }
  }

  /** So the index agrees with the scan if and only if the event's path is not "*" or nobody is selected. */
  lemma IndexIsExact(active: seq<Subscription>, e: Event)
    ensures multiset(Calls(active, LookedUp(e))) == Scan(active, e) <==>
            e.path != Some(WILDCARD) || Scan(active, e) == multiset{}
  {
    hide LookedUp, Scan, Calls;
    IndexMatchesScan(active, e);
    var scan := Scan(active, e);
    if scan != multiset{} {
      var c :| c in scan;
      assert (scan + scan)[c] == 2 * scan[c];
    }
  }

  // ----- Unsubscribing -----

  /** The first subscription of the callback under the key goes. */
  function Without(active: seq<Subscription>, key: string, callback: nat): seq<Subscription> {
    if active == [] then []
    else if Key(active[0]) == key && active[0].callback == callback then active[1..]
    else [active[0]] + Without(active[1..], key, callback)
  }

  /** Unsubscribing takes its own subscription out of every scan, whichever equal one it removes. */
  lemma {:induction false} UnsubscribeForgetsIt(active: seq<Subscription>, s: Subscription, e: Event)
    requires s in active
    ensures Scan(active, e) == Scan(Without(active, Key(s), s.callback), e) + Scan([s], e)
  {
    hide Key, Selects;
    ScanSingle(s, e);
    var first, left := active[0], Without(active, Key(s), s.callback);
    if Key(first) == Key(s) && first.callback == s.callback {
      SameKeySelectsAlike(first, s, e);
    } else {
      assert active == [first] + active[1..];
      UnsubscribeForgetsIt(active[1..], s, e);
      assert left[1..] == Without(active[1..], Key(s), s.callback);
    }
  }

  lemma SameKeySelectsAlike(s: Subscription, t: Subscription, e: Event)
    requires Key(s) == Key(t)
    ensures Selects(s, e) == Selects(t, e)
  {
    KeyIsInjective(s, t);
    hide Key;
  }
}
