/**
 * What the two device scans see: BLE advertisers and serial ports as reported by the
 * scanning libraries, the substring and upper-casing tests the filters use, and the
 * text of the Bluetooth panel's connection label.
 */
module Devices {
  import opened Wrappers

  /** A device found by the BLE scan: its advertised name (may be missing) and address. */
  datatype BleDevice = BleDevice(name: Option<string>, address: string)

  /** A serial port from the port enumeration: its path, short name and description. */
  datatype PortInfo = PortInfo(device: string, name: string, description: string)

  /** The connection label of the Bluetooth panel. */
  datatype BtLabel =
    | NotConnected              // "No conectado"
    | NoneFound                 // "No se encontraron dispositivos"
    | ChooseDevice              // "Selecciona un dispositivo para conectar"
    | ScanError                 // "Error: ..." from a failed scan
    | ConnectedTo(target: string)  // "Conectado a <target>"
    | ConnectError              // "Error: ..." from a failed serial open
    | BleConnectError           // "Error BLE: ..."
    | BleDetected(address: string) // "BLE detectado: <address>"
    | Disconnected              // "Desconectado"

  predicate OccursAt(s: string, sub: string, i: nat) {
    i + |sub| <= |s| && s[i..i + |sub|] == sub
  }

  /** Python's `sub in s` on strings. */
  predicate Contains(s: string, sub: string) {
    exists i: nat | i <= |s| :: OccursAt(s, sub, i)
  }

  function UpperChar(c: char): char {
    if 'a' <= c <= 'z' then (c as int - 32) as char else c
  }

  /** `s.upper()` on ASCII text. */
  function Upper(s: string): (r: string)
    ensures |r| == |s|
  {
    seq(|s|, i requires 0 <= i < |s| => UpperChar(s[i]))
  }
}
