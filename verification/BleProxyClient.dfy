/**
 The proxy object of python_ble_proxy/matter_ble_proxy/client.py: the handlers of
 BleHandles acting on its fields, cut at the points where the code awaits. The serial
 numbers name the BleakClient objects.
 */
module BleProxyClient {
  import opened Wrappers
  import opened BleHandles

  class MatterBleProxy {
    var connections: map<nat, Conn>
    var nextHandle: nat
    var sent: seq<nat>
    ghost var connecting: Option<(nat, nat)>
    var attempts: nat
    ghost var fate: map<nat, Fate>
    ghost var reported: seq<nat>

    ghost function State(): Proxy
      reads this
    {
      Proxy(nextHandle, connecting, connections, attempts, fate, reported)
    }

    /** The events on the wire carry the handles of the reported connections. */
    ghost predicate Valid()
      reads this
    {
      && Inv(State())
      && |sent| == |reported|
      && forall i :: 0 <= i < |sent| ==> sent[i] == Handle(reported[i])
    }

    constructor ()
      ensures Valid() && State() == START
    {
      connections, nextHandle, sent, attempts := map[], 1, [], 0;
      connecting, fate, reported := None, map[], [];
    }

    /** `_handle_connect` up to the connection attempt; an unresolved device takes no handle. */
    method BeginConnecting(resolved: bool) returns (serial: nat, handle: nat)
      requires Valid() && connecting.None?
      modifies this
      ensures Valid()
      ensures State() == if resolved then BeginConnect(old(State())) else old(State())
      ensures resolved ==> connecting == Some((serial, handle)) && handle == Handle(serial)
    {
      serial, handle := attempts, nextHandle;
      if resolved {
        BeginKeeps(State());
        connecting := Some((serial, handle));
        attempts := attempts + 1;
        nextHandle := (nextHandle + 1) % HANDLE_SPAN;
      }
    }

    /** `_handle_connect` after the attempt: only a connection that came up is filed. */
    method FinishConnecting(serial: nat, handle: nat, succeeded: bool)
      requires Valid() && connecting == Some((serial, handle))
      modifies this
      ensures Valid()
      ensures State() == if succeeded then FinishConnect(old(State()), serial, handle) else old(State()).(connecting := None)
    {
      FailKeeps(State());
      FinishKeeps(State());
      connecting := None;
      if succeeded {
        fate := Seal(State(), handle, Overwritten)[serial := Live];
        connections := connections[handle := Conn(serial, false)];
      }
    }

    /** The callback given to the client with this handle. */
    method DisconnectedCallback(handle: nat) returns (reports: bool)
      requires Valid() && handle < HANDLE_SPAN
      modifies this
      ensures Valid() && State() == OnDisconnect(old(State()), handle)
      ensures sent == if reports then old(sent) + [handle] else old(sent)
    {
      CallbackKeeps(State(), handle);
      reports := false;
      if handle !in connections || connections[handle].intentional {
        return;
      }
      assert Filed(State(), handle);
      fate := Seal(State(), handle, Reported);
      reported := reported + [connections[handle].serial];
      connections := connections - {handle};
      sent, reports := sent + [handle], true;
    }

    /** False is the not_connected error. */
    method HandleDisconnect(handle: nat) returns (ok: bool)
      requires Valid()
      modifies this
      ensures Valid() && State() == Disconnect(old(State()), handle) && sent == old(sent)
      ensures ok == (handle in old(connections))
    {
      DisconnectKeeps(State(), handle);
      ok := handle in connections;
      if ok {
        fate := Seal(State(), handle, Commanded);
        connections := connections - {handle};
      } else {
        assert connections - {handle} == connections;
      }
    }

    /** One turn of the release loop: flagged before it is disconnected, if it is still connected. */
    method ReleaseOne(handle: nat, isConnected: bool)
      requires Valid()
      modifies this
      ensures Valid() && sent == old(sent)
      ensures State() == if isConnected then ReleaseVisit(old(State()), handle) else old(State())
    {
      VisitKeeps(State(), handle);
      if isConnected && handle in connections {
        fate := Seal(State(), handle, Released);
        connections := connections[handle := connections[handle].(intentional := true)];
      }
    }

    method FinishRelease()
      requires Valid()
      modifies this
      ensures Valid() && State() == ReleaseClear(old(State())) && sent == old(sent)
    {
      ClearKeeps(State());
      fate := ReleaseClear(State()).fate;
      connections := map[];
    }
  }
}
