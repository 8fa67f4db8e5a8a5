/**
 The connection object of packages/ble-proxy/src/BleProxyConnection.ts:
 the same handlers as in BleConnection, acting on the fields. The resolver of a command is
 the serial of the command, and settling it puts the serial into `settlements`.
 */
module BleProxyConnection {
  import opened BleConnection

  /** A text that is not JSON is malformed; events and unknown messages are the others. */
  datatype Message =
    | Malformed
    | Hello(versionSupported: bool)
    | Response(id: nat)
    | Other

  class Connection {
    var open: bool
    var handshakeComplete: bool
    var closedEmitted: bool
    var pendingCommands: map<nat, nat>
    var nextCommandId: nat
    var sent: nat
    var settlements: multiset<nat>

    ghost function State(): Server
      reads this
    {
      Server(open, handshakeComplete, closedEmitted, pendingCommands, nextCommandId, sent, settlements)
    }

    ghost predicate Valid()
      reads this
    {
      ServerInv(State())
    }

    constructor ()
      ensures Valid() && State() == FRESH
    {
      open, handshakeComplete, closedEmitted := true, false, false;
      pendingCommands, nextCommandId := map[], 0;
      sent, settlements := 0, multiset{};
    }

    /** Refuses when not connected; otherwise the command is filed under the next id. */
    method SendCommand() returns (id: nat, ok: bool)
      requires Valid()
      modifies this
      ensures Valid()
      ensures ok == Connected(old(State()))
      ensures State() == if ok then Send(old(State())) else old(State())
      ensures ok ==> id == Id(old(sent))
    {
      ok, id := handshakeComplete && open, 0;
      if ok {
        SendKeeps(State());
        id := nextCommandId;
        nextCommandId := (nextCommandId + 1) % ID_SPAN;
        pendingCommands := pendingCommands[id := sent];
        sent := sent + 1;
      }
    }

    /** The callback of `ws.send` for the command filed under `id` as number `serial`. */
    method OnSendError(id: nat, serial: nat)
      requires Valid() && id == Id(serial) && serial < sent
      modifies this
      ensures Valid() && State() == SendError(old(State()), serial)
    {
      SendErrorKeeps(State(), serial);
      pendingCommands := pendingCommands - {id};
      if serial !in settlements {
        settlements := settlements + multiset{serial};
      }
    }

    /** The command's timer runs off. */
    method OnTimeout(id: nat, serial: nat)
      requires Valid() && id == Id(serial) && serial < sent && serial !in settlements
      modifies this
      ensures Valid() && State() == Timeout(old(State()), serial)
    {
      TimeoutKeeps(State(), serial);
      pendingCommands := pendingCommands - {id};
      settlements := settlements + multiset{serial};
    }

    /** Malformed text is ignored. Before the handshake only a hello is welcome; after it, only responses matter here. */
    method HandleTextMessage(msg: Message) returns (closedNow: bool, handshakeNow: bool)
      requires Valid()
      modifies this
      ensures Valid()
      ensures State() ==
              if msg.Malformed? then old(State())
              else if !old(handshakeComplete) then Handshake(old(State()), msg == Hello(true))
              else if msg.Response? then Respond(old(State()), msg.id)
              else old(State())
      ensures closedNow == (!old(handshakeComplete) && !msg.Malformed? && msg != Hello(true) && !old(closedEmitted))
      ensures handshakeNow == (!old(handshakeComplete) && msg == Hello(true))
    {
      closedNow, handshakeNow := false, false;
      if msg.Malformed? {
        return;
      }
      if !handshakeComplete {
        if msg == Hello(true) {
          HandshakeKeeps(State());
          handshakeComplete, handshakeNow := true, true;
        } else {
          closedNow := Close();
        }
      } else if msg.Response? {
        HandleResponse(msg.id);
      }
    }

    method HandleResponse(id: nat)
      requires Valid()
      modifies this
      ensures Valid() && State() == Respond(old(State()), id)
    {
      RespondKeeps(State(), id);
      if id in pendingCommands {
        settlements := settlements + multiset{pendingCommands[id]};
        pendingCommands := pendingCommands - {id};
      }
    }

    /** `closed` is emitted by the first teardown only. */
    method Close() returns (emitted: bool)
      requires Valid()
      modifies this
      ensures Valid() && State() == TearDown(old(State()))
      ensures emitted == !old(closedEmitted)
    {
      TearDownKeeps(State());
      open := false;
      emitted := Cleanup();
    }

    method Cleanup() returns (emitted: bool)
      requires !open && WellFiled(pendingCommands)
      modifies this
      ensures State() == TearDown(old(State()))
      ensures emitted == !old(closedEmitted)
    {
      hide WellFiled;
      handshakeComplete := false;
      ghost var all := settlements + multiset(pendingCommands.Values);
      while pendingCommands != map[]
        invariant WellFiled(pendingCommands)
        invariant settlements + multiset(pendingCommands.Values) == all
        invariant !open && !handshakeComplete && closedEmitted == old(closedEmitted)
        invariant nextCommandId == old(nextCommandId) && sent == old(sent)
        decreases pendingCommands.Keys
      {
        var id :| id in pendingCommands;
        RemoveEntry(pendingCommands, id);
        settlements := settlements + multiset{pendingCommands[id]};
        pendingCommands := pendingCommands - {id};
      }
      emitted := !closedEmitted;
      closedEmitted := true;
    }
  }

  predicate WellFiled(pending: map<nat, nat>) {
    forall i :: i in pending ==> i == Id(pending[i])
  }

  /** Different pending commands have different serials, so each is rejected once. */
  lemma RemoveEntry(pending: map<nat, nat>, id: nat)
    requires id in pending && WellFiled(pending)
    ensures WellFiled(pending - {id})
    ensures multiset(pending.Values) == multiset((pending - {id}).Values) + multiset{pending[id]}
  {
    hide Id;
    var rest := pending - {id};
    assert pending.Values == rest.Values + {pending[id]} by {
      forall x | x in pending.Values
        ensures x in rest.Values + {pending[id]}
      {
        var i :| i in pending && pending[i] == x;
        assert i != id ==> i in rest;
      }
    }
    assert pending[id] !in rest.Values;
  }
}
