/** Types shared by the scanner, the connection and the receiver: optional
    values, the three service and characteristic identifiers of AudioUUID,
    the radio power states reported by the Bluetooth managers, and opaque
    handles for the remote objects the radio stack hands out. */
module Bluetooth {

  datatype Option<T> = None | Some(value: T)

  /** An unsigned 8-bit value, as Swift's `UInt8`. */
  newtype uint8 = x: int | 0 <= x < 0x100

  /** The service identifier and the two characteristic identifiers of
      AudioUUID, as three distinct tags; any other identifier a request may
      carry is `Foreign`. */
  datatype Uuid =
    | Service
    | BufferCharacteristic
    | LocationCharacteristic
    | Foreign(raw: nat)

  /** The power state a central or peripheral manager reports. */
  datatype ManagerState =
    | Unknown
    | Resetting
    | Unsupported
    | Unauthorized
    | PoweredOff
    | PoweredOn

  /** A discovered remote device, compared by the radio stack's identity. */
  datatype Peripheral = Peripheral(identity: nat)

  /** A service object discovered on a peripheral. */
  datatype ServiceHandle = ServiceHandle(identity: nat)
}
