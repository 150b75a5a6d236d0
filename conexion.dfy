/**
 * The second, simpler window of `conexion.py`, HC only: the same block list, a device
 * scan that lists named BLE advertisers and serial ports whose description mentions HC
 * or Bluetooth, a connection that only opens serial ports, and a run button that only
 * changes the status line.
 */
module Conexion {
  import opened Wrappers
  import opened Workspace
  import opened Devices

  /** The `typ` field of a device tuple: "BLE" or "HC". */
  datatype Kind = Ble | Hc

  /** One `(typ, name, addr)` tuple of the device list. */
  datatype DeviceEntry = DeviceEntry(kind: Kind, name: string, address: string)

  /** `if d.name:` — the advertised name is present and not empty. */
  predicate Named(d: BleDevice) {
    d.name.Some? && d.name.value != ""
  }

  function BleEntry(d: BleDevice): DeviceEntry
    requires Named(d)
  {
    DeviceEntry(Ble, d.name.value, d.address)
  }

  /** The case-sensitive port test: the description contains "HC" or "Bluetooth". */
  predicate HcPort(p: PortInfo) {
    Contains(p.description, "HC") || Contains(p.description, "Bluetooth")
  }

  function HcEntry(p: PortInfo): DeviceEntry {
    DeviceEntry(Hc, p.description, p.device)
  }

  /** The BLE part of the device list, in discovery order. */
  function BleEntries(ble: seq<BleDevice>): (r: seq<DeviceEntry>)
    ensures |r| <= |ble|
    ensures forall k | 0 <= k < |r| :: r[k].kind == Ble
  {
    if ble == [] then []
    else (if Named(ble[0]) then [BleEntry(ble[0])] else []) + BleEntries(ble[1..])
  }

  /** The serial part of the device list, in enumeration order. */
  function HcEntries(ports: seq<PortInfo>): (r: seq<DeviceEntry>)
    ensures |r| <= |ports|
    ensures forall k | 0 <= k < |r| :: r[k].kind == Hc
  {
    if ports == [] then []
    else (if HcPort(ports[0]) then [HcEntry(ports[0])] else []) + HcEntries(ports[1..])
  }

  /** An entry is listed exactly when it comes from a named BLE device. */
  lemma {:induction false} BleEntriesMembers(ble: seq<BleDevice>)
    ensures forall e | e in BleEntries(ble) :: exists d :: d in ble && Named(d) && e == BleEntry(d)
    ensures forall d | d in ble && Named(d) :: BleEntry(d) in BleEntries(ble)
  {
    if ble != [] {
      BleEntriesMembers(ble[1..]);
      assert forall d | d in ble[1..] :: d in ble;
      assert forall d | d in ble :: d == ble[0] || d in ble[1..];
    }
  }

  /** An entry is listed exactly when it comes from a matching port. */
  lemma {:induction false} HcEntriesMembers(ports: seq<PortInfo>)
    ensures forall e | e in HcEntries(ports) :: exists p :: p in ports && HcPort(p) && e == HcEntry(p)
    ensures forall p | p in ports && HcPort(p) :: HcEntry(p) in HcEntries(ports)
  {
    if ports != [] {
      HcEntriesMembers(ports[1..]);
      assert forall p | p in ports[1..] :: p in ports;
      assert forall p | p in ports :: p == ports[0] || p in ports[1..];
    }
  }

  lemma {:induction false} BleEntriesAppend(a: seq<BleDevice>, b: seq<BleDevice>)
    ensures BleEntries(a + b) == BleEntries(a) + BleEntries(b)
  {
    if a == [] {
      assert a + b == b;
    } else {
      assert (a + b)[0] == a[0] && (a + b)[1..] == a[1..] + b;
      BleEntriesAppend(a[1..], b);
    }
  }

  lemma {:induction false} HcEntriesAppend(a: seq<PortInfo>, b: seq<PortInfo>)
    ensures HcEntries(a + b) == HcEntries(a) + HcEntries(b)
  {
    if a == [] {
      assert a + b == b;
    } else {
      assert (a + b)[0] == a[0] && (a + b)[1..] == a[1..] + b;
      HcEntriesAppend(a[1..], b);
    }
  }

  /** One more device extends the BLE part by its entry when it is named. */
  lemma BleEntriesSnoc(ble: seq<BleDevice>, i: nat)
    requires i < |ble|
    ensures BleEntries(ble[..i + 1]) ==
      BleEntries(ble[..i]) + (if Named(ble[i]) then [BleEntry(ble[i])] else [])
  {
    var d := ble[i];
    BleEntriesAppend(ble[..i], [d]);
    assert ble[..i + 1] == ble[..i] + [d];
    assert [d][1..] == [];
    assert BleEntries([d]) == (if Named(d) then [BleEntry(d)] else []) + [];
  }

  /** One more port extends the serial part by its entry when it matches. */
  lemma HcEntriesSnoc(ports: seq<PortInfo>, j: nat)
    requires j < |ports|
    ensures HcEntries(ports[..j + 1]) ==
      HcEntries(ports[..j]) + (if HcPort(ports[j]) then [HcEntry(ports[j])] else [])
  {
    var p := ports[j];
    HcEntriesAppend(ports[..j], [p]);
    assert ports[..j + 1] == ports[..j] + [p];
    assert [p][1..] == [];
    assert HcEntries([p]) == (if HcPort(p) then [HcEntry(p)] else []) + [];
  }

  /**
   * The two loops of `_scan_thread` that fill `devices`: named BLE devices first, then
   * the matching ports.
   */
  method CollectDevices(ble: seq<BleDevice>, ports: seq<PortInfo>) returns (devices: seq<DeviceEntry>)
    ensures devices == BleEntries(ble) + HcEntries(ports)
  {
    devices := [];
    var i := 0;
    while i < |ble|
      invariant 0 <= i <= |ble|
      invariant devices == BleEntries(ble[..i])
    {
      var d := ble[i];
      BleEntriesSnoc(ble, i);
      if Named(d) {
        devices := devices + [BleEntry(d)];
      }
      i := i + 1;
    }
    assert ble[..i] == ble;
    ghost var bleDevices := devices;
    var j := 0;
    while j < |ports|
      invariant 0 <= j <= |ports|
      invariant devices == bleDevices + HcEntries(ports[..j])
    {
      var p := ports[j];
      HcEntriesSnoc(ports, j);
      if HcPort(p) {
        devices := devices + [HcEntry(p)];
      }
      j := j + 1;
    }
    assert ports[..j] == ports;
  }

  /**
   * The device list is the named BLE devices followed by the matching ports, and it is
   * empty exactly when no BLE device has a name and no port matches.
   */
  lemma DeviceListShape(ble: seq<BleDevice>, ports: seq<PortInfo>)
    ensures var r := BleEntries(ble) + HcEntries(ports);
      && (forall k | 0 <= k < |BleEntries(ble)| :: r[k].kind == Ble)
      && (forall k | |BleEntries(ble)| <= k < |r| :: r[k].kind == Hc)
      && (r == [] <==> (forall d | d in ble :: !Named(d)) && (forall p | p in ports :: !HcPort(p)))
  {
    var a, h := BleEntries(ble), HcEntries(ports);
    var r := a + h;
    BleEntriesMembers(ble);
    HcEntriesMembers(ports);
    forall k | |a| <= k < |r| ensures r[k].kind == Hc {
      assert r[k] == h[k - |a|];
    }
    if r != [] {
      if a != [] {
        assert a[0] in a;
      } else {
        assert h[0] in h;
      }
    }
  }

  /** The port test is case-sensitive: "hc-05" is not listed, "... Bluetooth link" is. */
  lemma PortTestIsCaseSensitive()
    ensures !HcPort(PortInfo("/dev/ttyS0", "ttyS0", "hc-05"))
    ensures HcPort(PortInfo("COM5", "COM5", "Standard Serial over Bluetooth link"))
  {
    var s := "hc-05";
    forall i: nat | i <= |s| ensures !OccursAt(s, "HC", i) && !OccursAt(s, "Bluetooth", i) {
      if i + 2 <= |s| {
        assert s[i..i + 2][0] == s[i] != 'H';
      }
    }
    var t := "Standard Serial over Bluetooth link";
    assert t[21..30] == "Bluetooth";
    assert OccursAt(t, "Bluetooth", 21);
  }

  /** The parameter widget `_place_block` creates here: only the speed entry has text, "100". */
  function PlacedParam(action: Action): (r: Option<Entry>)
    ensures r.None? <==> action == Detener
    ensures action == Velocidad ==> r == Some(Entry(Some(100), Some(100.0)))
    ensures action !in {Velocidad, Detener} ==> r == Some(Entry(None, None))
  {
    match action
    case Velocidad => Some(Entry(Some(100), Some(100.0)))
    case Detener => None
    case _ => Some(Entry(None, None))
  }

  class DragDropApp {
    var blocks: seq<Block>
    var btConnected: bool
    var serialPort: Option<string>
    var status: Status
    var btLabel: BtLabel
    /** The device buttons of the scan frame, one per listed entry. */
    var shown: seq<DeviceEntry>

    constructor ()
      ensures blocks == [] && !btConnected && serialPort == None
      ensures status == Ready && btLabel == NotConnected && shown == []
    {
      blocks := [];
      btConnected := false;
      serialPort := None;
      status := Ready;
      btLabel := NotConnected;
      shown := [];
    }

    /** `_place_block`: the new block is appended with its parameter widget. */
    method PlaceBlock(action: Action, id: nat, frame: nat, left: int, top: int)
      modifies this
      ensures blocks == old(blocks) + [Block(id, frame, action, PlacedParam(action), left, top)]
      ensures btConnected == old(btConnected) && serialPort == old(serialPort)
      ensures status == old(status) && btLabel == old(btLabel) && shown == old(shown)
    {
      blocks := blocks + [Block(id, frame, action, PlacedParam(action), left, top)];
    }

    /** `_delete_block`: removes the first block whose frame is `frame`. */
    method DeleteBlock(frame: nat)
      modifies this
      ensures blocks == RemoveFirst(old(blocks), frame)
      ensures btConnected == old(btConnected) && serialPort == old(serialPort)
      ensures status == old(status) && btLabel == old(btLabel) && shown == old(shown)
    {
      var i := FindFrame(blocks, frame);
      if i < |blocks| {
        RemoveFirstAt(blocks, frame, i);
        blocks := blocks[..i] + blocks[i + 1..];
      } else {
        RemoveFirstAbsent(blocks, frame);
      }
    }

    /** `clear_all`: the list is emptied and the status reads "Todo limpio". */
    method ClearAll()
      modifies this
      ensures blocks == [] && status == AllCleared
      ensures btConnected == old(btConnected) && serialPort == old(serialPort)
      ensures btLabel == old(btLabel) && shown == old(shown)
    {
      blocks := [];
      status := AllCleared;
    }

    /**
     * `scan_devices` with its `_scan_thread`: the old buttons go, then a failed scan
     * (`None`) shows the error, an empty list the warning, and otherwise one button per
     * entry.
     */
    method ScanDevices(ble: Option<seq<BleDevice>>, ports: Option<seq<PortInfo>>)
      modifies this
      ensures ble.None? || ports.None? ==> btLabel == ScanError && shown == []
      ensures ble.Some? && ports.Some? ==>
        var devices := BleEntries(ble.value) + HcEntries(ports.value);
        shown == devices && btLabel == (if devices == [] then NoneFound else ChooseDevice)
      ensures blocks == old(blocks) && btConnected == old(btConnected)
      ensures serialPort == old(serialPort) && status == old(status)
    {
      shown := [];
      if ble.None? || ports.None? {
        btLabel := ScanError;
        return;
      }
      var devices := CollectDevices(ble.value, ports.value);
      if devices == [] {
        btLabel := NoneFound;
        return;
      }
      shown := devices;
      btLabel := ChooseDevice;
    }

    /**
     * `_connect_device(dev_type, address)`: an HC entry opens the port when `succeeded`
     * (the outcome of `serial.Serial`); a BLE entry only changes the label.
     */
    method ConnectDevice(kind: Kind, address: string, succeeded: bool)
      modifies this
      ensures kind == Hc && succeeded ==>
        btConnected && serialPort == Some(address) && btLabel == ConnectedTo(address)
      ensures kind == Hc && !succeeded ==>
        btConnected == old(btConnected) && serialPort == old(serialPort) && btLabel == ConnectError
      ensures kind == Ble ==>
        btConnected == old(btConnected) && serialPort == old(serialPort) && btLabel == BleDetected(address)
      ensures blocks == old(blocks) && status == old(status) && shown == old(shown)
    {
      if kind == Hc {
        if succeeded {
          serialPort := Some(address);
          btConnected := true;
          btLabel := ConnectedTo(address);
        } else {
          btLabel := ConnectError;
        }
      } else {
        btLabel := BleDetected(address);
      }
    }

    /** `_run_sequence`: only the status line changes; no block is run and nothing is sent. */
    method RunSequence()
      modifies this
      ensures status == SequenceStarted
      ensures blocks == old(blocks) && btConnected == old(btConnected) && serialPort == old(serialPort)
      ensures btLabel == old(btLabel) && shown == old(shown)
    {
      status := SequenceStarted;
    }
  }
}
