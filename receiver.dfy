/** The receiving side: it publishes the audio service once its radio is on,
    and decodes every write it receives: an audio packet becomes a PCM buffer
    four times as long that is played, a 24-byte location record becomes a
    three-component fix for the delegate, anything else is ignored. Samples
    are idealised as reals. */
module Receivers {
  import opened Bluetooth
  import opened LocationRecord

  /** `AVAudioFrameCount` is 32 bits wide: the frame count of a sound packet
      must fit in it. */
  const FrameCountBound: nat := 0x1_0000_0000

  /** The playback sample for one received byte. */
  function Sample(b: uint8): (s: real)
    ensures -0.5 <= s <= 0.5
  {
    (b as int) as real / 255.0 - 0.5
  }

  /** Reference form of a decoded sound packet: each byte in turn becomes
      four equal samples. */
  function SoundFrames(data: seq<uint8>): (frames: seq<real>)
    ensures |frames| == 4 * |data|
  {
    if data == [] then []
    else
      var s := Sample(data[0]);
      [s, s, s, s] + SoundFrames(data[1..])
  }

  /** Frame k of a decoded packet is the sample of byte k / 4. */
  lemma {:induction false} SoundFramesAt(data: seq<uint8>, k: nat)
    requires k < 4 * |data|
    ensures SoundFrames(data)[k] == Sample(data[k / 4])
  {
    if k >= 4 {
      SoundFramesAt(data[1..], k - 4);
      assert SoundFrames(data)[k] == SoundFrames(data[1..])[k - 4];
    }
  }

  /** Allocates a PCM buffer of four frames per byte and fills frames
      4i .. 4i+3 with the sample of byte i. */
  method DecodeSoundPacket(data: seq<uint8>) returns (buffer: array<real>)
    requires 4 * |data| < FrameCountBound
    ensures fresh(buffer)
    ensures buffer.Length == 4 * |data|
    ensures buffer[..] == SoundFrames(data)
  {
    buffer := new real[4 * |data|];
    for i := 0 to |data|
      invariant forall k :: 0 <= k < 4 * i ==> buffer[k] == Sample(data[k / 4])
    {
      var s := Sample(data[i]);
      buffer[i * 4] := s;
      buffer[i * 4 + 1] := s;
      buffer[i * 4 + 2] := s;
      buffer[i * 4 + 3] := s;
    }
    forall k | 0 <= k < buffer.Length
      ensures buffer[k] == SoundFrames(data)[k]
    {
      SoundFramesAt(data, k);
    }
  }

  /** Checks that a location record is exactly three doubles long and cuts
      it into its components; any other length is dropped. */
  method DecodeLocationPacket(data: seq<uint8>) returns (location: Option<seq<Double>>)
    ensures location.None? <==> |data| != 3 * DoubleSize
    ensures location.Some? ==> location.value == Chunks(data) && |location.value| == 3
    ensures location.Some? ==> Flatten(location.value) == data
  {
    if |data| != 3 * DoubleSize {
      return None;
    }
    var rest := data;
    var fix: seq<Double> := [];
    while |rest| >= DoubleSize
      invariant |rest| % DoubleSize == 0
      invariant fix + Chunks(rest) == Chunks(data)
      decreases |rest|
    {
      var word: Double := rest[..DoubleSize];
      ChunksStep(rest);
      assert fix + [word] + Chunks(rest[DoubleSize..]) == fix + Chunks(rest);
      fix := fix + [word];
      rest := rest[DoubleSize..];
    }
    assert rest == [] && Chunks(rest) == [];
    FlattenOfChunks(data);
    return Some(fix);
  }

  /** A write request as it arrives: the written characteristic's identifier
      and the value, which may be absent. */
  datatype WriteRequest = WriteRequest(characteristic: Uuid, value: Option<seq<uint8>>)

  /** What a received write leads to: a buffer handed to the audio player,
      or a fix handed to the delegate. */
  datatype Delivery = Played(frames: seq<real>) | LocationReceived(fix: seq<Double>)

  /** Requests made to the peripheral manager. */
  datatype PeripheralRequest =
    | AddService(service: Uuid, characteristics: seq<Uuid>)
    | StartAdvertising(localName: string, services: seq<Uuid>)

  /** What one write request leads to. */
  function Outcome(r: WriteRequest): seq<Delivery>
  {
    match r.characteristic
    case BufferCharacteristic =>
      if r.value.Some? then [Played(SoundFrames(r.value.value))] else []
    case LocationCharacteristic =>
      if r.value.Some? && |r.value.value| == 3 * DoubleSize
      then [LocationReceived(Chunks(r.value.value))] else []
    case _ => []
  }

  /** What a batch of write requests leads to, in request order. */
  function Dispatch(rs: seq<WriteRequest>): seq<Delivery>
  {
    if rs == [] then [] else Outcome(rs[0]) + Dispatch(rs[1..])
  }

  /** A request leads to nothing when its value is absent, its identifier is
      not one of the two characteristics, or it is a location write of the
      wrong length. */
  predicate Ignored(r: WriteRequest)
  {
    || r.value.None?
    || r.characteristic !in {BufferCharacteristic, LocationCharacteristic}
    || (r.characteristic == LocationCharacteristic && |r.value.value| != 3 * DoubleSize)
  }

  /** Requests are handled one after the other and independently: a batch
      split in two leads to the deliveries of its halves in order. */
  lemma {:induction false} DispatchConcat(a: seq<WriteRequest>, b: seq<WriteRequest>)
    ensures Dispatch(a + b) == Dispatch(a) + Dispatch(b)
  {
    if a == [] {
      assert a + b == b;
    } else {
      var ab := a + b;
      assert ab[0] == a[0];
      assert ab[1..] == a[1..] + b;
      calc {
        Dispatch(ab);
        Outcome(a[0]) + Dispatch(a[1..] + b);
        { DispatchConcat(a[1..], b); }
        Outcome(a[0]) + (Dispatch(a[1..]) + Dispatch(b));
      }
    }
  }

  /** A batch made only of ignored requests leads to nothing, and a batch is
      ignored as a whole only where each of its requests is. */
  lemma {:induction false} DispatchIgnored(rs: seq<WriteRequest>)
    ensures Dispatch(rs) == [] <==> forall i :: 0 <= i < |rs| ==> Ignored(rs[i])
  {
    if rs != [] {
      DispatchIgnored(rs[1..]);
      assert Dispatch(rs) == Outcome(rs[0]) + Dispatch(rs[1..]);
      assert Outcome(rs[0]) == [] <==> Ignored(rs[0]);
      if forall i :: 0 <= i < |rs| ==> Ignored(rs[i]) {
        assert forall i :: 0 <= i < |rs[1..]| ==> Ignored(rs[1..][i]) by {
          forall i | 0 <= i < |rs[1..]| ensures Ignored(rs[1..][i]) {
            assert rs[1..][i] == rs[i + 1];
          }
        }
      } else if Outcome(rs[0]) == [] {
        var j :| 0 <= j < |rs| && !Ignored(rs[j]);
        assert j > 0 && rs[1..][j - 1] == rs[j];
      }
    }
  }

  /** A batch of sound writes plays one buffer per packet, in request order,
      each four frames per byte. */
  lemma {:induction false} SoundBatchPlayedInOrder(rs: seq<WriteRequest>, i: nat)
    requires i < |rs|
    requires forall j :: 0 <= j < |rs| ==> rs[j].characteristic == BufferCharacteristic && rs[j].value.Some?
    ensures |Dispatch(rs)| == |rs|
    ensures Dispatch(rs)[i] == Played(SoundFrames(rs[i].value.value))
    ensures |Dispatch(rs)[i].frames| == 4 * |rs[i].value.value|
  {
    assert Dispatch(rs) == Outcome(rs[0]) + Dispatch(rs[1..]);
    if i > 0 || |rs| > 1 {
      SoundBatchPlayedInOrder(rs[1..], if i > 0 then i - 1 else 0);
    } else {
      assert rs[1..] == [];
    }
  }

  class Receiver {
    ghost var requests: seq<PeripheralRequest>
    ghost var delivered: seq<Delivery>

    constructor ()
      ensures requests == [] && delivered == []
    {
      requests := [];
      delivered := [];
    }

    /** Publishes the audio service with its two write-only characteristics
        and advertises it. */
    method Start()
      modifies this`requests
      ensures requests == old(requests) + [
                AddService(Service, [BufferCharacteristic, LocationCharacteristic]),
                StartAdvertising("BlueStation", [Service])]
    {
      requests := requests + [AddService(Service, [BufferCharacteristic, LocationCharacteristic])];
      requests := requests + [StartAdvertising("BlueStation", [Service])];
    }

    /** The peripheral manager's power state changed: only powered on
        publishes and advertises the service. */
    method PeripheralManagerDidUpdateState(radio: ManagerState)
      modifies this`requests
      ensures radio == PoweredOn ==>
                requests == old(requests) + [
                  AddService(Service, [BufferCharacteristic, LocationCharacteristic]),
                  StartAdvertising("BlueStation", [Service])]
      ensures radio != PoweredOn ==> requests == old(requests)
    {
      if radio == PoweredOn {
        Start();
      }
    }

    /** Decodes a sound packet and hands the buffer to the audio player. */
    method HandleSoundPacket(data: seq<uint8>)
      requires 4 * |data| < FrameCountBound
      modifies this`delivered
      ensures delivered == old(delivered) + [Played(SoundFrames(data))]
    {
      var buffer := DecodeSoundPacket(data);
      delivered := delivered + [Played(buffer[..])];
    }

    /** Decodes a location record and hands the fix to the delegate; a
        record of the wrong length is dropped. */
    method HandleLocationPacket(data: seq<uint8>)
      modifies this`delivered
      ensures |data| == 3 * DoubleSize ==> delivered == old(delivered) + [LocationReceived(Chunks(data))]
      ensures |data| != 3 * DoubleSize ==> delivered == old(delivered)
    {
      var location := DecodeLocationPacket(data);
      if location.Some? {
        delivered := delivered + [LocationReceived(location.value)];
      }
    }

    /** Handles a batch of writes in order, by characteristic identifier. */
    method DidReceiveWrite(rs: seq<WriteRequest>)
      requires forall i :: 0 <= i < |rs| && rs[i].characteristic == BufferCharacteristic && rs[i].value.Some? ==>
                 4 * |rs[i].value.value| < FrameCountBound
      modifies this`delivered
      ensures delivered == old(delivered) + Dispatch(rs)
    {
      for i := 0 to |rs|
        invariant delivered == old(delivered) + Dispatch(rs[..i])
      {
        var r := rs[i];
        DispatchConcat(rs[..i], [r]);
        assert rs[..i + 1] == rs[..i] + [r];
        assert Dispatch([r]) == Outcome(r);
        match r.characteristic
        case BufferCharacteristic =>
          if r.value.Some? {
            HandleSoundPacket(r.value.value);
          }
        case LocationCharacteristic =>
          if r.value.Some? {
            HandleLocationPacket(r.value.value);
          }
        case _ =>
      }
      assert rs[..|rs|] == rs;
    }
  }
}
