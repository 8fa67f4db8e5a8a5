/**
 The hub object of packages/ble-proxy/src/BleProxyHandler.ts:26-237, acting on its fields.
 `ready` and `open` stand for the `connected` getters of the connections.
 */
module BleProxyHandler {
  import opened Wrappers
  import opened BleHub

  class Handler {
    var connections: set<Conn>
    var ready: set<Conn>
    var open: set<Conn>
    var scanning: set<Conn>
    var scanActive: bool
    var owners: map<string, Entry>
    var closed: bool
    var scanStops: nat

    ghost function State(): Hub
      reads this
    {
      Hub(connections, ready, open, scanning, scanActive, owners, closed, scanStops)
    }

    ghost predicate Valid()
      reads this
    {
      BleHub.Valid(State())
    }

    constructor ()
      ensures Valid() && State() == EMPTY
    {
      connections, ready, open, scanning, scanActive := {}, {}, {}, {}, false;
      owners, closed, scanStops := map[], false, 0;
    }

    /** A socket is accepted, or closed at once after `unregister`. */
    method OnConnection(c: Conn)
      requires Valid()
      modifies this
      ensures Valid() && State() == Connect(old(State()), c)
    {
      ConnectKeepsValid(State(), c);
      if !closed {
        connections, open := connections + {c}, open + {c};
      }
    }

    method GetOwner(address: string) returns (owner: Option<Conn>)
      ensures owner == BleHub.GetOwner(State(), address)
    {
      owner := None;
      if address in owners && owners[address].owner in ready && owners[address].owner in open {
        owner := Some(owners[address].owner);
      }
    }

    /** Everyone who is connected is told to scan. */
    method StartScan() returns (told: set<Conn>)
      requires Valid()
      modifies this
      ensures Valid() && State() == BleHub.StartScan(old(State()))
      ensures told == connections * Connected(State())
    {
      scanActive := true;
      told := {};
      var todo := connections;
      while todo != {}
        invariant todo <= connections && told == (connections - todo) * (ready * open)
        invariant scanning == old(scanning) + told
        invariant State() == old(State()).(scanActive := true, scanning := scanning)
        decreases todo
      {
        var c :| c in todo;
        todo := todo - {c};
        if c in ready && c in open {
          scanning, told := scanning + {c}, told + {c};
        }
      }
    }

    method StopScan() returns (told: set<Conn>)
      requires Valid()
      modifies this
      ensures Valid() && State() == BleHub.StopScan(old(State()))
      ensures told == connections * Connected(State())
    {
      scanActive := false;
      told := connections * (ready * open);
      scanning := {};
    }

    method OnHandshakeCompleted(c: Conn) returns (toldToScan: bool)
      requires Valid()
      modifies this
      ensures Valid() && State() == HandshakeCompleted(old(State()), c)
      ensures toldToScan == old(scanActive)
    {
      ready := ready + {c};
      toldToScan := scanActive;
      if scanActive {
        scanning := scanning + {c};
      }
    }

    method MarkNotScanning(c: Conn)
      modifies this
      ensures State() == BleHub.MarkNotScanning(old(State()), c)
      ensures old(Valid()) ==> Valid()
    {
      if c in scanning {
        scanning := scanning - {c};
        if scanning == {} {
          scanStops := scanStops + 1;
        }
      }
    }

    method OnDeviceDiscovered(c: Conn, address: string)
      requires Valid()
      modifies this
      ensures Valid() && State() == DeviceDiscovered(old(State()), c, address)
    {
      DiscoveredKeepsValid(State(), c, address);
      if address !in owners {
        owners := owners[address := Entry(c, [c])];
      } else {
        var entry := owners[address];
        entry := entry.(seers := AddSeer(entry.seers, c));
        if entry.owner !in ready || entry.owner !in open {
          entry := entry.(owner := c);
        }
        owners := owners[address := entry];
      }
    }

    /** The first connected seer takes over each address of the closed connection. */
    method OnConnectionClosed(c: Conn)
      requires Valid()
      modifies this
      ensures Valid() && State() == ConnectionClosed(old(State()), c)
    {
      ClosedKeepsValid(State(), c);
      ready, open := ready - {c}, open - {c};
      connections := connections - {c};
      MarkNotScanning(c);
      ReassignAll(c);
    }

    method ReassignAll(c: Conn)
      modifies this`owners
      ensures owners == OwnersAfterClose(old(owners), c, ready * open)
    {
      var todo, connected := owners.Keys, ready * open;
      while todo != {}
        invariant todo <= owners.Keys <= old(owners).Keys
        invariant forall a :: a in todo ==> owners[a] == old(owners)[a]
        invariant forall a :: a in old(owners) && a !in todo ==>
                    var left := EntryAfterClose(old(owners)[a], c, connected);
                    (a in owners <==> left.Some?) && (left.Some? ==> owners[a] == left.value)
        decreases todo
      {
        var address :| address in todo;
        todo := todo - {address};
        var entry := owners[address];
        var seers := Without(entry.seers, c);
        if entry.owner != c {
          owners := owners[address := entry.(seers := seers)];
        } else {
          var next := FindConnected(seers);
          if next.Some? {
            owners := owners[address := Entry(next.value, seers)];
          } else {
            owners := owners - {address};
          }
        }
      }
    }

    method FindConnected(seers: seq<Conn>) returns (next: Option<Conn>)
      ensures next == FirstConnected(seers, ready * open)
    {
      next := None;
      var i := 0;
      while i < |seers|
        invariant 0 <= i <= |seers|
        invariant FirstConnected(seers, ready * open) == FirstConnected(seers[i..], ready * open)
      {
        if seers[i] in ready && seers[i] in open {
          return Some(seers[i]);
        }
        i := i + 1;
      }
    }

    method Unregister()
      requires Valid()
      modifies this
      ensures Valid() && State() == BleHub.Unregister(old(State()))
    {
      if closed {
        return;
      }
      closed := true;
      var todo := connections;
      while todo != {}
        invariant Valid() && todo == connections
        invariant closed && scanActive == old(scanActive)
        invariant todo <= old(connections)
        invariant scanning == old(scanning) - (old(connections) - todo)
        invariant ready == old(ready) - (old(connections) - todo)
        invariant scanStops == old(scanStops) + if old(scanning) != {} && scanning == {} then 1 else 0
        decreases todo
      {
        var c :| c in todo;
        todo := todo - {c};
        OnConnectionClosed(c);
      }
      connections, scanning, owners := {}, {}, map[];
    }
  }
}
