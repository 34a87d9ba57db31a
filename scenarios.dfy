/** Client scenarios that use only the contracts of the scanner and the
    connection. */
module Scenarios {
  import opened Bluetooth
  import opened LocationRecord
  import opened Connections
  import opened CentralManager

  /** Radio on and a peripheral found: the scanner hands out a new
      connection for it, which the link event moves on to service
      discovery. */
  method ScannerHandsOutConnection(p: Peripheral)
  {
    var scanner := new CentralManagerService();
    scanner.CentralManagerDidUpdateState(PoweredOn);
    assert scanner.state == ScanInProgress;
    scanner.DidDiscover(p);
    assert scanner.state == Idle && scanner.found == {p};
    var c, chosen := scanner.GetConnection();
    assert c != null && chosen == p;
    assert c.state == ConnectionInProgress && c.notices == [];
    scanner.DidConnect(p);
    assert c.state == WaitingServices && c.notices == [];
  }

  /** A full handshake from service discovery: the connection ends
      connected and the delegate has been told exactly once that it is
      ready. */
  method HandshakeReachesConnected(c: Connection, svc: ServiceHandle)
    requires c.Valid() && c.state == WaitingServices && c.notices == []
    modifies c
  {
    c.SetDelegate(true);
    c.DidDiscoverServices(Some([svc]));
    assert c.state == WaitingCharacteristic;
    assert c.notices == [];
    c.DidDiscoverCharacteristics(Some([BufferCharacteristic, LocationCharacteristic]));
    assert c.state == Connected;
    assert c.notices == [ConnectionReady];
  }

  /** Two fixes set before the radio is ready: only the second is written. */
  method LastLocationWins(c: Connection, first: seq<Double>, second: seq<Double>)
    requires c.Valid() && c.state == Connected && c.queue == []
    modifies c
  {
    c.SendLocation(first);
    c.SendLocation(second);
    ghost var before := c.writes;
    c.PeripheralIsReady();
    assert c.writes == before + [LocationWrite(Flatten(second))];
    assert c.pendingLocation == None && c.ready;
  }

  /** After close, repeated events leave the connection invalid and report
      nothing more. */
  method ClosedStaysClosed(c: Connection)
    requires c.Valid()
    modifies c
  {
    c.Close();
    ghost var reported := c.notices;
    c.DidConnect();
    c.DidDiscoverCharacteristics(Some([BufferCharacteristic, LocationCharacteristic]));
    c.DidDisconnect();
    c.Close();
    assert c.state == Invalid && c.notices == reported;
  }
}
