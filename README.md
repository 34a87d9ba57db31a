# BlueStation core in Dafny

BlueStation is a Bluetooth LE walkie-talkie. The central side scans for a
peripheral that advertises the BlueStation service, and connects to it. It
then streams the captured microphone audio, quantised to one byte per four
frames, plus the phone's location through two write-without-response
characteristics. The peripheral side advertises the service and plays the
audio it receives. It also hands every 24-byte location record to its
delegate.

This project models the four pieces of that core and proves properties about them:

- `connection.dfy`, module `Connections`: class `Connection`. It holds the
  five-state handshake machine (`ConnectionInProgress → WaitingServices →
  WaitingCharacteristic → Connected`, plus the absorbing `Invalid`), the audio
  queue of at most 3000 bytes that drops its oldest bytes first, 400-byte
  audio packets, the single `ready` send gate and the one pending location
  record. The fields are the ones `Connection.swift` updates. Characteristic
  writes, radio requests and delegate calls go into three ghost logs
  (`writes`, `requests`, `notices`). `NextState`/`Fired` are the pure form of
  `changeState`, and the lemmas about `Trace` are proved against them.
- `central_manager.dfy`, module `CentralManager`: class
  `CentralManagerService`. It holds the five-state radio/scan machine, the
  found-peripheral set and the `map<Peripheral, Connection>` cache.
  `foundPeripherals.first` is modelled with `:|` (any element of the set).
- `receiver.dfy`, module `Receivers`: the sound decoder, which fills a fresh
  `array<real>` in place, and the location decoder, a `while` loop over the
  record. `Dispatch` is the per-request dispatch, and class `Receiver` logs
  what it plays, what it delivers and what it asks the peripheral manager to do.
- `audio_recorder.dfy`, module `AudioRecording`: the body of the microphone
  tap. It keeps one frame in four and converts each kept amplitude to a byte
  with `UInt8(...)`, which truncates toward zero and traps outside the byte range.
- `location_record.dfy`, module `LocationRecord`: a `Double` is an opaque
  8-byte word. `Flatten` is the sender's serialisation and `Chunks` is the
  receiver's split, and both directions of the round trip are proved.
- `bluetooth.dfy`, module `Bluetooth`: shared types. The three AudioUUID
  constants are three tags of `Uuid`.
- `scenarios.dfy`, module `Scenarios`: four client methods that use only the
  contracts. The first switches the radio on, discovers a peripheral and is
  handed a new connection, which the link event moves to `waitingServices`.
  The second runs the handshake from there, which ends in `Connected` with
  exactly one `ConnectionReady`. The third sets two fixes before the radio is
  ready, and only the second is written. The fourth shows that after `Close`
  no event changes the state or reports anything.

Samples and amplitudes are idealised as `real`. Bytes are `uint8`, a newtype over the integers 0..255, as Swift's `UInt8`.

The model follows the code as written; in particular:

- `didConnect` has no state guard.
- `didDiscover` has no scanning guard, and a radio state of `unknown` counts as unsupported.
- The first discovered service is used without checking its identifier.
- `peripheralIsReady` is not guarded by the state. In one callback it writes
  the pending location record and then an audio packet as well. It does not
  give the slot to the location record alone.
- `sendAudioData` with an open gate sends a packet even when the queue is
  empty. That packet is empty.
- The quantiser truncates, `UInt8((amp + 1) * 255 / 2)`. It does not round.
  `PlaybackHalvesAmplitude` shows that encoding and playback are not inverses:
  a byte made from amplitude `a` plays back in `(a/2 - 1/255, a/2]`.

## Model

| member | source | states |
|---|---|---|
| `LocationRecord.Flatten` | BlueStation/Connection.swift:90-91 | serialising n components gives 8n bytes |
| `LocationRecord.Chunks` | BlueStation/Receiver.swift:72-78 | cutting a byte sequence into 8-byte words gives length/8 components |
| `LocationRecord.FlattenSnoc` | BlueStation/Connection.swift:91 | serialising one more component appends exactly its 8 bytes |
| `LocationRecord.FlattenAt` | BlueStation/Connection.swift:90-91 | component i of a serialised fix sits at bytes 8i .. 8i+7 |
| `LocationRecord.ChunksOfFlatten` | BlueStation/Receiver.swift:72-78 | splitting a serialised fix gives back its components in order |
| `LocationRecord.FlattenOfChunks` | BlueStation/Receiver.swift:72-78 | when the length is a multiple of 8, serialising the split words gives back the bytes |
| `LocationRecord.LocationRoundTrip` | BlueStation/Receiver.swift:70-78 | a 3-component fix serialises to 24 bytes, and the receiver's split of those bytes is the fix |
| `Connections.Trim` | BlueStation/Connection.swift:78-82 | the trimmed queue is the newest min(3000, length) bytes |
| `Connections.PacketLength` | BlueStation/Connection.swift:101-102 | a packet takes 400 bytes, or the whole queue when that is shorter |
| `Connections.TrimOfTrim` | BlueStation/Connection.swift:80-82 | trimming an intermediate queue never changes what a later trim keeps |
| `Connections.PushEachIsTrim` | BlueStation/Connection.swift:78-82 | pushing bytes one at a time with the gate closed leaves the same queue as one push of all of them |
| `Connections.PushThirtyFiveHundred` | BlueStation/Connection.swift:78-82 | 3500 bytes pushed one by one into an empty queue leave exactly 3000 of them, bytes 500..3499 |
| `Connections.InvalidAbsorbs` | BlueStation/Connection.swift:58-59 | from `Invalid`, no sequence of state changes moves the connection (`NextState` over a `Trace`) or notifies the delegate (`Fired`) |
| `Connections.ClosedReportedOnce` | BlueStation/Connection.swift:58-69 | `connectionClosed` is reported exactly once when the connection goes from valid to `Invalid`, and otherwise never |
| `Connections.Connection.constructor` | BlueStation/Connection.swift:30-43 | a new connection is in `connectionInProgress` with an empty queue, no pending record, the gate open and nothing bound; its only request is the connect |
| `Connections.Connection.SetDelegate` | BlueStation/Connection.swift:28 | attaching or detaching the delegate changes nothing else |
| `Connections.Connection.ChangeState` | BlueStation/Connection.swift:58-69 | the state becomes `NextState`, the target unless it is `Invalid`; the notices added are `Fired`: only entering `Connected` or `Invalid` notifies an attached delegate; `connectionClosed` stays the last and only close notice |
| `Connections.Connection.DidConnect` | BlueStation/Connection.swift:45-48 | requests service discovery in any state, and moves to `waitingServices` unless the connection is invalid |
| `Connections.Connection.DidDisconnect` | BlueStation/Connection.swift:50-52 | leaves the state `Invalid`, and notifies closure only if the connection was not already invalid |
| `Connections.Connection.DidFailToConnect` | BlueStation/Connection.swift:54-56 | leaves the state `Invalid`, and notifies closure only if the connection was not already invalid |
| `Connections.Connection.Close` | BlueStation/Connection.swift:71-74 | from any state, requests a disconnect and leaves the state `Invalid`; a repeated close adds no notice |
| `Connections.Connection.SendAudioData` | BlueStation/Connection.swift:76-85 | nothing changes unless connected; if connected, the queue becomes the trimmed old++data, and an open gate at once writes the first min(400, n) bytes and closes the gate |
| `Connections.Connection.SendLocation` | BlueStation/Connection.swift:87-94 | if connected, the pending record becomes the 8n-byte serialisation of the fix, replacing any unsent one; otherwise nothing changes |
| `Connections.Connection.SendPacket` | BlueStation/Connection.swift:96-109 | if connected with the buffer characteristic bound, writes the first min(400, n) bytes (written ++ new queue == old queue) and closes the gate; otherwise writes nothing and keeps the gate |
| `Connections.Connection.DidDiscoverServices` | BlueStation/Connection.swift:113-124 | no service leads to `Invalid`; otherwise characteristic discovery is requested for the first service, and the state moves to `waitingCharacteristic` unless it is invalid |
| `Connections.Connection.DidDiscoverCharacteristics` | BlueStation/Connection.swift:126-139 | the result is `Connected` exactly when the connection was valid and both characteristic ids were found, which binds both; otherwise `Invalid` |
| `Connections.Connection.PeripheralIsReady` | BlueStation/Connection.swift:141-157 | a pending record is written first and cleared, and it is a whole number of 8-byte words that the receiver's split gives back exactly; then an empty queue opens the gate, and a non-empty one sends the next packet |
| `CentralManager.CentralManagerService.constructor` | BlueStation/CentralManagerService.swift:33-36 | a new scanner starts in `initial`, holds a manager and caches nothing |
| `CentralManager.CentralManagerService.StartScan` | BlueStation/CentralManagerService.swift:38-43 | the state becomes `scanInProgress` with an empty found set, and a scan for the service is requested |
| `CentralManager.CentralManagerService.GetConnection` | BlueStation/CentralManagerService.swift:45-59 | null unless idle with a manager and a found peripheral; a cached connection that is valid (`Connections.Connection.IsValid`, Connection.swift:31: its state is not `Invalid`) is returned with the cache unchanged; otherwise a new connection in `connectionInProgress` replaces the entry of that peripheral only |
| `CentralManager.CentralManagerService.CentralManagerDidUpdateState` | BlueStation/CentralManagerService.swift:63-75 | `poweredOn` starts a scan with an empty found set; `resetting`/`unauthorized`/`poweredOff` waits for Bluetooth; any other state is unsupported and releases the manager for good |
| `CentralManager.CentralManagerService.DidDiscover` | BlueStation/CentralManagerService.swift:77-87 | inserts the peripheral, becomes idle and stops the scan, in any state |
| `CentralManager.CentralManagerService.DidConnect` | BlueStation/CentralManagerService.swift:89-91 | reaches only the connection cached for that peripheral, and does nothing for an unknown one |
| `CentralManager.CentralManagerService.DidDisconnectPeripheral` | BlueStation/CentralManagerService.swift:93-95 | invalidates only the connection cached for that peripheral, and does nothing for an unknown one |
| `CentralManager.CentralManagerService.DidFailToConnect` | BlueStation/CentralManagerService.swift:97-99 | invalidates only the connection cached for that peripheral, and does nothing for an unknown one |
| `Receivers.Sample` | BlueStation/Receiver.swift:58 | a received byte plays as byte/255 − 0.5, which lies in [−0.5, 0.5] |
| `Receivers.SoundFrames` | BlueStation/Receiver.swift:51-62 | a decoded packet of N bytes is 4N frames long |
| `Receivers.SoundFramesAt` | BlueStation/Receiver.swift:57-62 | frame k of a decoded packet is the sample of byte k/4, so frames 4i..4i+3 are equal |
| `Receivers.DecodeSoundPacket` | BlueStation/Receiver.swift:50-62 | fills a fresh buffer of 4N frames with four copies of each byte's sample, when 4N fits the 32-bit frame count |
| `Receivers.DecodeLocationPacket` | BlueStation/Receiver.swift:67-79 | a record whose length is not 24 is dropped; a 24-byte one yields 3 components, each the 8 bytes at its place, whose serialisation is the record |
| `Receivers.DispatchConcat` | BlueStation/Receiver.swift:91-101 | requests are handled in order and independently: `Dispatch` of a concatenation is the concatenation of the `Dispatch`es |
| `Receivers.DispatchIgnored` | BlueStation/Receiver.swift:91-101 | the deliveries of a batch (`Dispatch`, the concatenation of each request's `Outcome`) are empty exactly when each request has a nil value, an unknown id, or is a location record of the wrong length |
| `Receivers.SoundBatchPlayedInOrder` | BlueStation/Receiver.swift:94-95 | buffer-characteristic writes are each played as a 4N-frame buffer, in request order |
| `Receivers.Receiver.constructor` | BlueStation/Receiver.swift:20-23 | a new receiver has requested and delivered nothing |
| `Receivers.Receiver.Start` | BlueStation/Receiver.swift:25-48 | adds the service with its two characteristics, then starts advertising it |
| `Receivers.Receiver.PeripheralManagerDidUpdateState` | BlueStation/Receiver.swift:85-89 | the service is added and advertised on `poweredOn`, and on no other state |
| `Receivers.Receiver.HandleSoundPacket` | BlueStation/Receiver.swift:50-65 | plays exactly the decoded buffer of the packet |
| `Receivers.Receiver.HandleLocationPacket` | BlueStation/Receiver.swift:67-81 | delivers the split fix for a 24-byte record, and nothing otherwise |
| `Receivers.Receiver.DidReceiveWrite` | BlueStation/Receiver.swift:91-101 | the deliveries are `Dispatch` of the batch: sound for the buffer id, location for the location id, nothing for nil values or other ids |
| `AudioRecording.Decimate` | BlueStation/AudioRecorder.swift:23-24 | the kept frames are frameLength/4 in number, and kept frame i is input frame 4i |
| `AudioRecording.Level` | BlueStation/AudioRecorder.swift:25 | wherever the `UInt8` conversion does not trap (`Representable`: the scaled value lies in (−1, 256)), its truncation toward zero (`Truncate`) lies in [0, 255] |
| `AudioRecording.LevelOnNominalRange` | BlueStation/AudioRecorder.swift:25 | for an amplitude in [−1, 1] the conversion does not trap, and the byte is floor((amp + 1) · 255 / 2) |
| `AudioRecording.QuantizeTap` | BlueStation/AudioRecorder.swift:22-28 | emits frameLength/4 bytes, and byte i depends only on input frame 4i through `Level` |
| `AudioRecording.PlaybackHalvesAmplitude` | BlueStation/AudioRecorder.swift:25 | a byte made from amplitude a ∈ [−1, 1] plays back within (a/2 − 1/255, a/2] |

## Left out

- CoreBluetooth calls (`connect`, `discoverServices`, `discoverCharacteristics`, `writeValue`, `scanForPeripherals`, `stopScan`, `cancelPeripheralConnection`, `add`, `startAdvertising`) are made only for their side effects. They appear as entries in ghost logs.
- A characteristic handle is modelled as a "bound" flag, and a discovered characteristic as its identifier.
- `AVAudioEngine` tap installation, start and stop, `AudioPlayer.play` and the PCM format are a foreign audio framework. A played buffer is a `Played` entry of the receiver's log. The PCM buffer allocation is assumed to succeed.
- Float32 rounding in the sample formulas is not modelled: the formulas are over idealised reals. The byte order of a `Double` is not modelled either: a `Double` is an opaque 8-byte word.
- What delegates do when notified is not modelled. This includes the presenter calling `sendLocation` and starting the recorder from inside `connectionReady`. Only the notices are logged.
- The delegates of the scanner and the receiver are treated as always attached, because the presenter attaches them at construction. The connection's delegate is a flag, because the presenter detaches it before `close()`.
- The connection's weak reference to the central manager is treated as always present. `close()` always records the cancel request.
- BlueStation/Presenter.swift is coordination and UI glue and is not part of this model. Its distance uses `CLLocation.distance`, a foreign floating-point call. Its `isConnected` flag is never set to true, so the location callback at BlueStation/Presenter.swift:65 never sends.
- BlueStation/LocationProvider.swift, BlueStation/ViewController.swift, BlueStation/StateView.swift and BlueStation/MicrophoneButton.swift are platform wrappers and UI widgets, and are not part of this model.
- The identifiers in BlueStation/AudioUUID.swift are three distinct tags. Their 128-bit values are not modelled.
- The code has no concurrency: every callback arrives on the main queue. Events are sequential method calls.
