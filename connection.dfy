/** The outbound connection to one peripheral: the handshake state machine
    (connect, discover the service, discover the two characteristics), the
    bounded audio queue with its send gate, and the single pending location
    record. Radio requests, characteristic writes and delegate notifications
    are side effects; each is recorded in a ghost log of the object. */
module Connections {
  import opened Bluetooth
  import opened LocationRecord

  /** The states of a connection; `Invalid` is absorbing. */
  datatype State =
    | ConnectionInProgress
    | WaitingServices
    | WaitingCharacteristic
    | Connected
    | Invalid

  /** Calls made on the connection's delegate. */
  datatype Notice = ConnectionReady | ConnectionClosed

  /** Writes issued to the peripheral, tagged by the characteristic written. */
  datatype Write = AudioWrite(bytes: seq<uint8>) | LocationWrite(bytes: seq<uint8>)

  /** Requests made to the radio stack other than characteristic writes. */
  datatype Request =
    | Connect
    | DiscoverServices(ids: seq<Uuid>)
    | DiscoverCharacteristics(ids: seq<Uuid>, service: ServiceHandle)
    | CancelConnection

  /** The audio queue keeps at most this many bytes. */
  const QueueLimit: nat := 3000
  /** One audio write carries at most this many bytes. */
  const PacketSize: nat := 400

  function Min(a: nat, b: nat): nat { if a <= b then a else b }

  /** The queue after the trim step: its newest `QueueLimit` bytes, or all of
      it when it is shorter. */
  function Trim(q: seq<uint8>): (r: seq<uint8>)
    ensures |r| == Min(QueueLimit, |q|)
    ensures r == q[|q| - |r|..]
  {
    if |q| > QueueLimit then q[|q| - QueueLimit..] else q
  }

  /** Number of bytes the next audio write takes from the front of `q`. */
  function PacketLength(q: seq<uint8>): (n: nat)
    ensures n <= |q| && n <= PacketSize
    ensures n == PacketSize || n == |q|
  {
    Min(PacketSize, |q|)
  }

  /** Trimming an intermediate queue loses nothing that a later trim keeps. */
  lemma TrimOfTrim(q: seq<uint8>, more: seq<uint8>)
    ensures Trim(Trim(q) + more) == Trim(q + more)
  {
    if |q| > QueueLimit {
      var t := Trim(q);
      var d := |q| - QueueLimit;
      assert t == q[d..];
      var lhs := Trim(t + more);
      var rhs := Trim(q + more);
      assert |lhs| == |rhs| == QueueLimit;
      forall k | 0 <= k < QueueLimit
        ensures lhs[k] == rhs[k]
      {
        assert lhs[k] == (t + more)[|more| + k];
        assert rhs[k] == (q + more)[d + |more| + k];
      }
    }
  }

  /** The queue after appending `bytes` one byte at a time, trimming after
      each byte, with no write in between. */
  function PushEach(q: seq<uint8>, bytes: seq<uint8>): seq<uint8>
    decreases |bytes|
  {
    if bytes == [] then q else PushEach(Trim(q + [bytes[0]]), bytes[1..])
  }

  /** Appending a non-empty sequence is appending its first element, then
      the rest. */
  lemma SplitFirst(q: seq<uint8>, bytes: seq<uint8>)
    requires bytes != []
    ensures q + [bytes[0]] + bytes[1..] == q + bytes
  {
    assert [bytes[0]] + bytes[1..] == bytes;
  }

  /** Pushing byte by byte leaves the same queue as pushing all at once. */
  lemma {:induction false} PushEachIsTrim(q: seq<uint8>, bytes: seq<uint8>)
    requires |q| <= QueueLimit
    ensures PushEach(q, bytes) == Trim(q + bytes)
    decreases |bytes|
  {
    if bytes == [] {
      assert q + bytes == q;
    } else {
      var pushed := q + [bytes[0]];
      var rest := bytes[1..];
      PushEachIsTrim(Trim(pushed), rest);
      TrimOfTrim(pushed, rest);
      SplitFirst(q, bytes);
    }
  }

  /** 3500 bytes pushed one at a time into an empty queue leave exactly the
      last 3000 of them, bytes 500 .. 3499. */
  lemma PushThirtyFiveHundred(bytes: seq<uint8>)
    requires |bytes| == 3500
    ensures PushEach([], bytes) == bytes[500..]
    ensures |PushEach([], bytes)| == QueueLimit
  {
    PushEachIsTrim([], bytes);
    assert [] + bytes == bytes;
  }

  /** The state `changeState` leaves: nothing leaves `Invalid`. */
  function NextState(current: State, target: State): State
  {
    if current == Invalid then Invalid else target
  }

  /** The delegate calls `changeState` makes: entering `Connected` reports
      readiness, entering `Invalid` reports closure, nothing is reported
      from `Invalid`. */
  function Fired(current: State, target: State): seq<Notice>
  {
    if current == Invalid then []
    else if target == Connected then [ConnectionReady]
    else if target == Invalid then [ConnectionClosed]
    else []
  }

  /** The state after a sequence of `changeState` calls. */
  function FinalState(s: State, targets: seq<State>): State
    decreases |targets|
  {
    if targets == [] then s else FinalState(NextState(s, targets[0]), targets[1..])
  }

  /** The delegate calls made by a sequence of `changeState` calls. */
  function Trace(s: State, targets: seq<State>): seq<Notice>
    decreases |targets|
  {
    if targets == [] then [] else Fired(s, targets[0]) + Trace(NextState(s, targets[0]), targets[1..])
  }

  /** Once invalid, no sequence of state changes moves the connection or
      notifies the delegate. */
  lemma {:induction false} InvalidAbsorbs(targets: seq<State>)
    ensures FinalState(Invalid, targets) == Invalid
    ensures Trace(Invalid, targets) == []
    decreases |targets|
  {
    if targets != [] {
      InvalidAbsorbs(targets[1..]);
    }
  }

  /** `connectionClosed` is reported exactly once if the connection goes from
      a valid state to `Invalid`, and never otherwise. */
  lemma {:induction false} ClosedReportedOnce(s: State, targets: seq<State>)
    ensures multiset(Trace(s, targets))[ConnectionClosed]
         == if s != Invalid && FinalState(s, targets) == Invalid then 1 else 0
    decreases |targets|
  {
    if targets != [] {
      var next := NextState(s, targets[0]);
      ClosedReportedOnce(next, targets[1..]);
      if next == Invalid {
        InvalidAbsorbs(targets[1..]);
      }
      assert Trace(s, targets) == Fired(s, targets[0]) + Trace(next, targets[1..]);
    }
  }

  class Connection {
    const peripheral: Peripheral
    var state: State
    var queue: seq<uint8>
    var pendingLocation: Option<seq<uint8>>
    var ready: bool
    var bufferBound: bool
    var locationBound: bool
    var delegateAttached: bool
    ghost var writes: seq<Write>
    ghost var notices: seq<Notice>
    ghost var requests: seq<Request>

    /** The object invariant: the send gate is open only when nothing waits
        to be sent, besides `Consistent`. */
    ghost predicate Valid()
      reads this
    {
      Consistent() && (ready ==> queue == [])
    }

    /** A connected connection has both characteristics bound, the queue is
        within its bound, a pending record is a whole number of 8-byte words,
        and `connectionClosed` is the delegate's last call and its only one
        of that kind. */
    ghost predicate Consistent()
      reads this
    {
      && (state == Connected ==> bufferBound && locationBound)
      && |queue| <= QueueLimit
      && (pendingLocation.Some? ==> |pendingLocation.value| % DoubleSize == 0)
      && (ConnectionClosed in notices ==>
            && state == Invalid
            && notices[|notices| - 1] == ConnectionClosed
            && ConnectionClosed !in notices[..|notices| - 1])
    }

    /** The state of a connection right after it was created. */
    ghost predicate Initial()
      reads this
    {
      && state == ConnectionInProgress
      && queue == [] && pendingLocation == None && ready
      && !bufferBound && !locationBound && !delegateAttached
      && writes == [] && notices == [] && requests == [Connect]
    }

    /** The link-level events change the state, the notices and the
        requests only: everything about sending is as it was. */
    twostate predicate SendingUnchanged()
      reads this
    {
      && queue == old(queue) && ready == old(ready) && writes == old(writes)
      && pendingLocation == old(pendingLocation)
      && bufferBound == old(bufferBound) && locationBound == old(locationBound)
      && delegateAttached == old(delegateAttached)
    }

    /** The connection's validity flag. */
    predicate IsValid()
      reads this
    {
      state != Invalid
    }

    /** A new connection asks the radio to connect to `p`. */
    constructor (p: Peripheral)
      ensures peripheral == p
      ensures Valid() && Initial()
    {
      peripheral := p;
      state := ConnectionInProgress;
      queue := [];
      pendingLocation := None;
      ready := true;
      bufferBound := false;
      locationBound := false;
      delegateAttached := false;
      writes := [];
      notices := [];
      requests := [Connect];
    }

    /** Sets or clears the delegate. */
    method SetDelegate(attached: bool)
      requires Valid()
      modifies this`delegateAttached
      ensures Valid()
      ensures delegateAttached == attached
    {
      delegateAttached := attached;
    }

    method ChangeState(target: State)
      requires Valid()
      requires target == Connected ==> bufferBound && locationBound
      modifies this`state, this`notices
      ensures Valid()
      ensures state == NextState(old(state), target)
      ensures notices == old(notices) + (if delegateAttached then Fired(old(state), target) else [])
    {
      if state == Invalid {
        return;
      }
      state := target;
      if delegateAttached {
        if target == Connected {
          notices := notices + [ConnectionReady];
        } else if target == Invalid {
          notices := notices + [ConnectionClosed];
        }
      }
    }

    /** The radio connected: ask for the audio service, whatever the state. */
    method DidConnect()
      requires Valid()
      modifies this`state, this`notices, this`requests
      ensures Valid()
      ensures requests == old(requests) + [DiscoverServices([Service])]
      ensures state == NextState(old(state), WaitingServices)
      ensures notices == old(notices)
    {
      requests := requests + [DiscoverServices([Service])];
      ChangeState(WaitingServices);
    }

    /** The radio dropped the link. */
    method DidDisconnect()
      requires Valid()
      modifies this`state, this`notices
      ensures Valid()
      ensures state == Invalid
      ensures notices == old(notices) + (if delegateAttached && old(state) != Invalid then [ConnectionClosed] else [])
    {
      ChangeState(Invalid);
    }

    /** The radio could not connect. */
    method DidFailToConnect()
      requires Valid()
      modifies this`state, this`notices
      ensures Valid()
      ensures state == Invalid
      ensures notices == old(notices) + (if delegateAttached && old(state) != Invalid then [ConnectionClosed] else [])
    {
      ChangeState(Invalid);
    }

    /** Asks the radio to cancel the link and invalidates the connection. */
    method Close()
      requires Valid()
      modifies this`state, this`notices, this`requests
      ensures Valid()
      ensures requests == old(requests) + [CancelConnection]
      ensures state == Invalid
      ensures notices == old(notices) + (if delegateAttached && old(state) != Invalid then [ConnectionClosed] else [])
    {
      requests := requests + [CancelConnection];
      ChangeState(Invalid);
    }

    /** Queues captured audio, keeping only the newest `QueueLimit` bytes,
        and sends a packet at once when the gate is open. Does nothing unless
        connected. */
    method SendAudioData(data: seq<uint8>)
      requires Valid()
      modifies this`queue, this`ready, this`writes
      ensures Valid()
      ensures old(state) != Connected ==>
                queue == old(queue) && ready == old(ready) && writes == old(writes)
      ensures old(state) == Connected && !old(ready) ==>
                queue == Trim(old(queue) + data) && !ready && writes == old(writes)
      ensures old(state) == Connected && old(ready) ==>
                var q := Trim(old(queue) + data);
                && queue == q[PacketLength(q)..]
                && !ready
                && writes == old(writes) + [AudioWrite(q[..PacketLength(q)])]
    {
      if state != Connected {
        return;
      }
      queue := queue + data;
      if |queue| > QueueLimit {
        queue := queue[|queue| - QueueLimit..];
      }
      if ready {
        SendPacket();
      }
    }

    /** Serialises a fix into the pending location record, replacing any
        record not yet sent. Does nothing unless connected. */
    method SendLocation(location: seq<Double>)
      requires Valid()
      modifies this`pendingLocation
      ensures Valid()
      ensures old(state) != Connected ==> pendingLocation == old(pendingLocation)
      ensures old(state) == Connected ==> pendingLocation == Some(Flatten(location))
    {
      if state != Connected {
        return;
      }
      var data: seq<uint8> := [];
      for i := 0 to |location|
        invariant data == Flatten(location[..i])
      {
        FlattenSnoc(location[..i], location[i]);
        assert location[..i + 1] == location[..i] + [location[i]];
        data := data + location[i];
      }
      assert location[..|location|] == location;
      pendingLocation := Some(data);
    }

    /** Writes the front of the queue (at most `PacketSize` bytes) to the
        buffer characteristic and closes the gate, provided the connection is
        connected and that characteristic is bound; otherwise does nothing. */
    method SendPacket()
      requires Consistent()
      modifies this`queue, this`ready, this`writes
      ensures state == Connected && bufferBound ==>
                var n := PacketLength(old(queue));
                && writes == old(writes) + [AudioWrite(old(queue)[..n])]
                && queue == old(queue)[n..]
                && old(queue) == writes[|writes| - 1].bytes + queue
                && !ready
      ensures !(state == Connected && bufferBound) ==>
                writes == old(writes) && queue == old(queue) && ready == old(ready)
      ensures Consistent()
    {
      if state != Connected || !bufferBound {
        return;
      }
      ready := false;
      var n := Min(PacketSize, |queue|);
      var packet := queue[..n];
      queue := queue[n..];
      writes := writes + [AudioWrite(packet)];
    }

    /** Service discovery finished: the first discovered service, if any,
        moves the connection on and is searched for the two characteristics;
        no service invalidates the connection. */
    method DidDiscoverServices(services: Option<seq<ServiceHandle>>)
      requires Valid()
      modifies this`state, this`notices, this`requests
      ensures Valid()
      ensures services.None? || services.value == [] ==>
                && state == Invalid
                && requests == old(requests)
                && notices == old(notices) + (if delegateAttached && old(state) != Invalid then [ConnectionClosed] else [])
      ensures services.Some? && services.value != [] ==>
                && state == NextState(old(state), WaitingCharacteristic)
                && requests == old(requests)
                     + [DiscoverCharacteristics([BufferCharacteristic, LocationCharacteristic], services.value[0])]
                && notices == old(notices)
    {
      if services.None? || services.value == [] {
        ChangeState(Invalid);
        return;
      }
      var service := services.value[0];
      ChangeState(WaitingCharacteristic);
      requests := requests + [DiscoverCharacteristics([BufferCharacteristic, LocationCharacteristic], service)];
    }

    /** Characteristic discovery finished: both characteristics present binds
        them and makes the connection `Connected`; otherwise it becomes
        `Invalid`. */
    method DidDiscoverCharacteristics(characteristics: Option<seq<Uuid>>)
      requires Valid()
      modifies this`state, this`notices, this`bufferBound, this`locationBound
      ensures Valid()
      ensures var found := characteristics.Some?
                && BufferCharacteristic in characteristics.value
                && LocationCharacteristic in characteristics.value;
              && (found ==> bufferBound && locationBound)
              && (!found ==> bufferBound == old(bufferBound) && locationBound == old(locationBound))
              && state == NextState(old(state), if found then Connected else Invalid)
              && notices == old(notices)
                   + (if delegateAttached then Fired(old(state), if found then Connected else Invalid) else [])
      ensures state == Connected <==>
                && old(state) != Invalid
                && characteristics.Some?
                && BufferCharacteristic in characteristics.value
                && LocationCharacteristic in characteristics.value
    {
      if characteristics.None?
        || BufferCharacteristic !in characteristics.value
        || LocationCharacteristic !in characteristics.value
      {
        ChangeState(Invalid);
        return;
      }
      bufferBound := true;
      locationBound := true;
      ChangeState(Connected);
    }

    /** The radio can take another write: a pending location record goes
        first (when the location characteristic is bound) and is cleared;
        then an empty queue opens the gate, and a non-empty one sends the
        next packet. */
    method PeripheralIsReady()
      requires Valid()
      modifies this`queue, this`ready, this`writes, this`pendingLocation
      ensures Valid()
      ensures pendingLocation == if locationBound then None else old(pendingLocation)
      ensures var location :=
                if old(pendingLocation).Some? && locationBound
                then [LocationWrite(old(pendingLocation).value)] else [];
              if old(queue) == [] then
                ready && queue == [] && writes == old(writes) + location
              else if state == Connected && bufferBound then
                var n := PacketLength(old(queue));
                && !ready
                && queue == old(queue)[n..]
                && writes == old(writes) + location + [AudioWrite(old(queue)[..n])]
              else
                !ready && queue == old(queue) && writes == old(writes) + location
      ensures old(pendingLocation).Some? && locationBound ==>
                var record := old(pendingLocation).value;
                |record| % DoubleSize == 0 && Flatten(Chunks(record)) == record
    {
      if pendingLocation.Some? && locationBound {
        var record := pendingLocation.value;
        FlattenOfChunks(record);
        pendingLocation := None;
        writes := writes + [LocationWrite(record)];
      }
      if queue == [] {
        ready := true;
        return;
      }
      SendPacket();
    }
  }
}
