/** The scanner: a radio/scan state machine over the central manager, the set
    of peripherals found so far, and a cache of one connection per
    peripheral that hands back a connection while it is still valid. */
module CentralManager {
  import opened Bluetooth
  import opened Connections

  /** The scanner's states. */
  datatype ScanState =
    | Initial
    | WaitingBluetoothOn
    | ScanUnsupported
    | ScanInProgress
    | Idle

  /** Calls made on the scanner's delegate. */
  datatype ScanNotice = DeviceUnsupported | WaitingBluetoothOnNotice | ScanStarted | DeviceFound

  /** Requests made to the central manager. */
  datatype CentralRequest = ScanForPeripherals(services: seq<Uuid>) | StopScan

  class CentralManagerService {
    var state: ScanState
    var managerPresent: bool
    var found: set<Peripheral>
    var connections: map<Peripheral, Connection>
    ghost var requests: seq<CentralRequest>
    ghost var notices: seq<ScanNotice>

    /** Every cached connection is the one for its own peripheral (so no two
        peripherals share a connection) and is itself consistent, and in
        `Idle` some peripheral has been found. */
    ghost predicate Valid()
      reads this, connections.Values
    {
      && (forall p :: p in connections ==> connections[p].peripheral == p && connections[p].Valid())
      && (state == Idle ==> found != {})
    }

    /** A new scanner holds a central manager and nothing else. */
    constructor ()
      ensures Valid()
      ensures state == Initial && managerPresent
      ensures found == {} && connections == map[]
      ensures requests == [] && notices == []
    {
      state := Initial;
      managerPresent := true;
      found := {};
      connections := map[];
      requests := [];
      notices := [];
    }

    /** Starts a fresh scan for the audio service. */
    method StartScan()
      requires Valid()
      modifies this`state, this`found, this`requests, this`notices
      ensures Valid()
      ensures state == ScanInProgress && found == {}
      ensures notices == old(notices) + [ScanStarted]
      ensures requests == old(requests) + (if managerPresent then [ScanForPeripherals([Service])] else [])
    {
      state := ScanInProgress;
      notices := notices + [ScanStarted];
      found := {};
      if managerPresent {
        requests := requests + [ScanForPeripherals([Service])];
      }
    }

    /** Hands out the connection for a found peripheral: the cached one while
        it is valid, otherwise a new one that replaces it in the cache. Only
        in `Idle`, with a central manager and a found peripheral; `chosen` is
        the peripheral picked from the found set. */
    method GetConnection() returns (c: Connection?, ghost chosen: Peripheral)
      requires Valid()
      modifies this`connections
      ensures Valid()
      ensures c == null <==> !(managerPresent && state == Idle && found != {})
      ensures c == null ==> connections == old(connections)
      ensures c != null ==>
                && chosen in found
                && c.peripheral == chosen
                && chosen in connections && connections[chosen] == c
                && c.IsValid()
      ensures c != null && chosen in old(connections) && old(connections[chosen].IsValid()) ==>
                c == old(connections[chosen]) && connections == old(connections)
      ensures c != null && !(chosen in old(connections) && old(connections[chosen].IsValid())) ==>
                fresh(c) && c.Initial() && connections == old(connections)[chosen := c]
    {
      chosen := Peripheral(0);
      if !managerPresent || state != Idle || found == {} {
        return null, chosen;
      }
      var p :| p in found;
      chosen := p;
      if p in connections && connections[p].IsValid() {
        return connections[p], chosen;
      }
      c := new Connection(p);
      connections := connections[p := c];
    }

    /** The central manager's power state changed: powered on starts a scan;
        resetting, unauthorized or powered off waits for the radio; any other
        state means no Bluetooth, and the central manager is released. */
    method CentralManagerDidUpdateState(radio: ManagerState)
      requires Valid()
      modifies this`state, this`found, this`managerPresent, this`requests, this`notices
      ensures Valid()
      ensures radio == PoweredOn ==>
                && state == ScanInProgress && found == {}
                && managerPresent == old(managerPresent)
                && notices == old(notices) + [ScanStarted]
                && requests == old(requests) + (if managerPresent then [ScanForPeripherals([Service])] else [])
      ensures radio in {Resetting, Unauthorized, PoweredOff} ==>
                && state == WaitingBluetoothOn && found == old(found)
                && managerPresent == old(managerPresent)
                && notices == old(notices) + [WaitingBluetoothOnNotice]
                && requests == old(requests)
      ensures radio in {Unknown, Unsupported} ==>
                && state == ScanUnsupported && found == old(found)
                && !managerPresent
                && notices == old(notices) + [DeviceUnsupported]
                && requests == old(requests)
    {
      match radio
      case Resetting | Unauthorized | PoweredOff =>
        state := WaitingBluetoothOn;
        notices := notices + [WaitingBluetoothOnNotice];
      case PoweredOn =>
        StartScan();
      case _ =>
        state := ScanUnsupported;
        managerPresent := false;
        notices := notices + [DeviceUnsupported];
    }

    /** A peripheral advertising the service was seen: remember it, become
        idle and stop scanning, in whatever state the scanner was. */
    method DidDiscover(p: Peripheral)
      requires Valid()
      modifies this`state, this`found, this`requests, this`notices
      ensures Valid()
      ensures found == old(found) + {p} && state == Idle
      ensures requests == old(requests) + (if managerPresent then [StopScan] else [])
      ensures notices == old(notices) + [DeviceFound]
    {
      found := found + {p};
      state := Idle;
      if managerPresent {
        requests := requests + [StopScan];
      }
      notices := notices + [DeviceFound];
    }

    /** The radio connected to `p`: forwarded to the connection cached for
        `p`, if any; nothing else changes. */
    method DidConnect(p: Peripheral)
      requires Valid()
      modifies if p in connections then {connections[p]} else {}
      ensures Valid()
      ensures p in connections ==>
                var c := connections[p];
                && c.state == NextState(old(c.state), WaitingServices)
                && c.requests == old(c.requests) + [DiscoverServices([Service])]
                && c.notices == old(c.notices)
                && c.SendingUnchanged()
    {
      if p in connections {
        connections[p].DidConnect();
      }
    }

    /** The radio lost the link to `p`: forwarded to the connection cached
        for `p`, if any; nothing else changes. */
    method DidDisconnectPeripheral(p: Peripheral)
      requires Valid()
      modifies if p in connections then {connections[p]} else {}
      ensures Valid()
      ensures p in connections ==>
                var c := connections[p];
                && c.state == Invalid
                && c.notices == old(c.notices)
                     + (if c.delegateAttached && old(c.state) != Invalid then [ConnectionClosed] else [])
                && c.requests == old(c.requests)
                && c.SendingUnchanged()
    {
      if p in connections {
        connections[p].DidDisconnect();
      }
    }

    /** The radio failed to connect to `p`: forwarded to the connection
        cached for `p`, if any; nothing else changes. */
    method DidFailToConnect(p: Peripheral)
      requires Valid()
      modifies if p in connections then {connections[p]} else {}
      ensures Valid()
      ensures p in connections ==>
                var c := connections[p];
                && c.state == Invalid
                && c.notices == old(c.notices)
                     + (if c.delegateAttached && old(c.state) != Invalid then [ConnectionClosed] else [])
                && c.requests == old(c.requests)
                && c.SendingUnchanged()
    {
      if p in connections {
        connections[p].DidFailToConnect();
      }
    }
  }
}
