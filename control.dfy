/**
 * The control window (`DragDropApp` of the BLE + HC editor): its block list, its
 * Bluetooth connection fields, the merged device list of its scan, and the run that
 * walks the blocks and sends their frames.
 */
module Control {
  import opened Wrappers
  import opened Workspace
  import opened Encoder
  import opened Executor
  import opened Transport
  import opened Devices

  /** A button of the device list: a BLE advertiser or a serial port. */
  datatype Candidate = BleCandidate(dev: BleDevice) | HcCandidate(port: PortInfo)

  /** What the scanned-devices frame shows. */
  datatype PortsPanel = Candidates(list: seq<Candidate>) | NothingFound

  /**
   * A serial port is listed when its upper-cased description contains HC, LMB or
   * BLUETOOTH, or its device path contains "HC" (case-sensitive).
   */
  predicate SerialMatches(p: PortInfo) {
    var desc := Upper(p.description);
    Contains(desc, "HC") || Contains(p.device, "HC") || Contains(desc, "LMB") || Contains(desc, "BLUETOOTH")
  }

  /** The listed serial ports, in enumeration order. */
  function MatchingPorts(ports: seq<PortInfo>): (r: seq<PortInfo>)
    ensures |r| <= |ports|
    ensures forall k | 0 <= k < |r| :: SerialMatches(r[k])
  {
    if ports == [] then []
    else (if SerialMatches(ports[0]) then [ports[0]] else []) + MatchingPorts(ports[1..])
  }

  /** A port is listed exactly when it is enumerated and matches. */
  lemma {:induction false} MatchingPortsMembers(ports: seq<PortInfo>)
    ensures forall p :: p in MatchingPorts(ports) <==> p in ports && SerialMatches(p)
  {
    if ports != [] {
      MatchingPortsMembers(ports[1..]);
      assert forall p :: p in ports <==> p == ports[0] || p in ports[1..];
    }
  }

  /** Every BLE device wrapped as a candidate, in scan order. */
  function BleCandidates(ble: seq<BleDevice>): (r: seq<Candidate>)
    ensures |r| == |ble|
    ensures forall k | 0 <= k < |r| :: r[k] == BleCandidate(ble[k])
  {
    seq(|ble|, k requires 0 <= k < |ble| => BleCandidate(ble[k]))
  }

  function HcCandidates(ports: seq<PortInfo>): (r: seq<Candidate>)
    ensures |r| == |ports|
    ensures forall k | 0 <= k < |r| :: r[k] == HcCandidate(ports[k])
  {
    seq(|ports|, k requires 0 <= k < |ports| => HcCandidate(ports[k]))
  }

  /** `all_devices` of `_scan_ble_and_hc`: every BLE device first, then the matching serial ports. */
  function CandidateList(ble: seq<BleDevice>, ports: seq<PortInfo>): (r: seq<Candidate>)
    ensures |ble| <= |r| <= |ble| + |ports|
    ensures forall k | 0 <= k < |ble| :: r[k] == BleCandidate(ble[k])
    ensures forall k | |ble| <= k < |r| :: r[k].HcCandidate? && SerialMatches(r[k].port)
  {
    BleCandidates(ble) + HcCandidates(MatchingPorts(ports))
  }

  /** Filtering a concatenation filters each part: the order of the enumeration is kept. */
  lemma {:induction false} MatchingPortsAppend(a: seq<PortInfo>, b: seq<PortInfo>)
    ensures MatchingPorts(a + b) == MatchingPorts(a) + MatchingPorts(b)
  {
    if a == [] {
      assert a + b == b;
    } else {
      assert (a + b)[0] == a[0] && (a + b)[1..] == a[1..] + b;
      MatchingPortsAppend(a[1..], b);
    }
  }

  /**
   * The device list holds all BLE devices first, in scan order, then exactly the
   * matching serial ports; it is empty exactly when there are no BLE devices and no port
   * matches.
   */
  lemma CandidateListShape(ble: seq<BleDevice>, ports: seq<PortInfo>)
    ensures var r := CandidateList(ble, ports);
      && |r| >= |ble|
      && (forall k | 0 <= k < |ble| :: r[k] == BleCandidate(ble[k]))
      && (forall k | |ble| <= k < |r| :: r[k].HcCandidate? && r[k].port in ports && SerialMatches(r[k].port))
      && (forall p | p in ports && SerialMatches(p) :: HcCandidate(p) in r)
      && (r == [] <==> ble == [] && forall p | p in ports :: !SerialMatches(p))
  {
    var r := CandidateList(ble, ports);
    var m := MatchingPorts(ports);
    MatchingPortsMembers(ports);
    forall p | p in ports && SerialMatches(p) ensures HcCandidate(p) in r {
      var k :| 0 <= k < |m| && m[k] == p;
      assert r[|ble| + k] == HcCandidate(p);
    }
    forall k | |ble| <= k < |r| ensures r[k].port in ports {
      assert r[k] == HcCandidate(m[k - |ble|]);
      assert m[k - |ble|] in m;
    }
    if m != [] {
      assert m[0] in m;
    }
  }

  /** A description is matched case-insensitively: "Bluetooth" counts as BLUETOOTH. */
  lemma DescriptionIsCaseInsensitive()
    ensures SerialMatches(PortInfo("COM5", "COM5", "Standard Serial over Bluetooth link"))
    ensures SerialMatches(PortInfo("/dev/ttyS0", "ttyS0", "hc-05"))
  {
    var d1 := Upper("Standard Serial over Bluetooth link");
    assert d1[21..30] == "BLUETOOTH";
    assert OccursAt(d1, "BLUETOOTH", 21);
    var d2 := Upper("hc-05");
    assert d2[0..2] == "HC";
    assert OccursAt(d2, "HC", 0);
  }

  /**
   * The parameter widget `_place_block` creates, with its initial text: a stop block has
   * none, and every other preset is one of its selector's values (speeds 1..9, seconds
   * 1..10, angles 45, 90, 180, 360), read alike by `int` and `float`.
   */
  function PlacedParam(action: Action): (r: Option<Entry>)
    ensures r.None? <==> action == Detener
    ensures r.Some? ==> r.value.number.Some? && r.value.integer == Some(Trunc(r.value.number.value))
    ensures action == Velocidad ==> r.Some? && r.value.integer.Some? && 1 <= r.value.integer.value <= 9
    ensures action in {Adelante, Reversa, Esperar} ==>
      r.Some? && r.value.integer.Some? && 1 <= r.value.integer.value <= 10
    ensures action in {Izquierda, Derecha} ==>
      r.Some? && r.value.integer.Some? && r.value.integer.value in {45, 90, 180, 360}
  {
    match action
    case Velocidad => Some(Entry(Some(5), Some(5.0)))
    case Adelante => Some(Entry(Some(1), Some(1.0)))
    case Reversa => Some(Entry(Some(1), Some(1.0)))
    case Esperar => Some(Entry(Some(1), Some(1.0)))
    case Izquierda => Some(Entry(Some(90), Some(90.0)))
    case Derecha => Some(Entry(Some(90), Some(90.0)))
    case Detener => None
  }

  /**
   * A block left at its initial value runs as its selector shows: speed 5, one second,
   * a 90 degree turn (one second), and a stop block waits 700 ms.
   */
  lemma PlacedDefaults(vel: Speed, b: Block)
    requires b.param == PlacedParam(b.action)
    ensures b.action == Velocidad ==> NextSpeed(vel, b.param) == 5
    ensures b.action in {Adelante, Reversa, Esperar} ==> BlockDelay(b) == 1000
    ensures b.action in {Izquierda, Derecha} ==> BlockDelay(b) == 1000 && Degrees(b.param) == 90
    ensures b.action == Detener ==> BlockDelay(b) == 700
  {
    assert Trunc(1.0) == 1 && Trunc(90.0) == 90;
  }

  /**
   * Over an open serial port a non-empty run writes one newline-terminated frame per
   * non-speed block and ends with exactly one bare `S\n`, its last write.
   */
  lemma RunOverSerial(blocks: seq<Block>, c: Conn, link: Link)
    requires c.btConnected && c.serialPort.Some? && blocks != []
    ensures var ws := Transmit(c, link, Messages(RunEffects(blocks))).1;
      && |ws| == Moves(blocks) + 1
      && ws[|ws| - 1] == SerialWrite(c.serialPort.value, "S\n")
      && (forall k | 0 <= k < |ws| - 1 :: ws[k].data != "S\n")
  {
    var ms := Messages(RunEffects(blocks));
    RunShape(blocks);
    TransmitSerial(c, link, ms);
    var ws := Transmit(c, link, ms).1;
    forall k | 0 <= k < |ws| - 1 ensures ws[k].data != "S\n" {
      assert ws[k].data == ms[k] + "\n";
      assert (ms[k] + "\n")[..|ms[k]|] == ms[k];
      assert "S\n"[..1] == "S";
    }
  }

  class DragDropApp {
    var blocks: seq<Block>
    var btConnected: bool
    var serialPort: Option<string>
    var btClient: Option<string>
    var btWriteChar: Option<string>
    var status: Status
    var btLabel: BtLabel
    var disconnectEnabled: bool
    var panel: PortsPanel
    /** Everything written to a transport so far, in order. */
    var wire: seq<Write>

    /**
     * What every method keeps of the connection fields: at most one transport is held, a
     * cached characteristic belongs to a BLE client, and an open serial port means
     * connected.
     */
    predicate Valid()
      reads this
    {
      && !(serialPort.Some? && btClient.Some?)
      && (btWriteChar.Some? ==> btClient.Some?)
      && (serialPort.Some? ==> btConnected)
    }

    /** The four connection fields, as one value. */
    function Connection(): Conn
      reads this
    {
      Conn(btConnected, serialPort, btClient, btWriteChar)
    }

    constructor ()
      ensures blocks == [] && Connection() == Initial && wire == []
      ensures status == Ready && btLabel == NotConnected && !disconnectEnabled && panel == Candidates([])
      ensures Valid()
    {
      blocks := [];
      btConnected := false;
      btClient := None;
      btWriteChar := None;
      serialPort := None;
      status := Ready;
      btLabel := NotConnected;
      disconnectEnabled := false;
      panel := Candidates([]);
      wire := [];
    }

    /**
     * `_place_block`: the dropped block is appended with its initial parameter; `left` and
     * `top` are the top-left corner of its bounding box on the canvas, the sort key of a run.
     */
    method PlaceBlock(action: Action, id: nat, frame: nat, left: int, top: int)
      modifies this
      ensures blocks == old(blocks) + [Block(id, frame, action, PlacedParam(action), left, top)]
      ensures Connection() == old(Connection()) && wire == old(wire) && status == old(status)
      ensures btLabel == old(btLabel) && disconnectEnabled == old(disconnectEnabled) && panel == old(panel)
    {
      blocks := blocks + [Block(id, frame, action, PlacedParam(action), left, top)];
    }

    /**
     * The user types or picks `e` in the parameter widget of the block at position `i`;
     * the run reads whatever the widget then holds.
     */
    method SetEntry(i: nat, e: Entry)
      requires i < |blocks| && blocks[i].param.Some?
      modifies this
      ensures blocks == old(blocks)[i := old(blocks)[i].(param := Some(e))]
      ensures Connection() == old(Connection()) && wire == old(wire) && status == old(status)
      ensures btLabel == old(btLabel) && disconnectEnabled == old(disconnectEnabled) && panel == old(panel)
    {
      blocks := blocks[i := blocks[i].(param := Some(e))];
    }

    /** `_delete_block`: removes the first block whose frame is `frame`, keeping the others in order. */
    method DeleteBlock(frame: nat)
      modifies this
      ensures blocks == RemoveFirst(old(blocks), frame)
      ensures Connection() == old(Connection()) && wire == old(wire) && status == old(status)
      ensures btLabel == old(btLabel) && disconnectEnabled == old(disconnectEnabled) && panel == old(panel)
    {
      var i := FindFrame(blocks, frame);
      if i < |blocks| {
        RemoveFirstAt(blocks, frame, i);
        blocks := blocks[..i] + blocks[i + 1..];
      } else {
        assert !HasFrame(blocks, frame);
        RemoveFirstAbsent(blocks, frame);
      }
    }

    /** `clear_all`: the list is emptied and the status reads "Todo limpio". */
    method ClearAll()
      modifies this
      ensures blocks == [] && status == AllCleared
      ensures Connection() == old(Connection()) && wire == old(wire)
      ensures btLabel == old(btLabel) && disconnectEnabled == old(disconnectEnabled) && panel == old(panel)
    {
      blocks := [];
      status := AllCleared;
    }

    /** `_scan_ble_and_hc`: rebuilds the device list (a failed scan counts as finding nothing). */
    method ScanDevices(ble: Option<seq<BleDevice>>, ports: Option<seq<PortInfo>>)
      modifies this
      ensures var list := CandidateList(ble.GetOr([]), ports.GetOr([]));
              panel == if list == [] then NothingFound else Candidates(list)
      ensures blocks == old(blocks) && Connection() == old(Connection()) && wire == old(wire) && status == old(status)
      ensures btLabel == old(btLabel) && disconnectEnabled == old(disconnectEnabled)
    {
      var list := CandidateList(ble.GetOr([]), ports.GetOr([]));
      if list == [] {
        panel := NothingFound;
      } else {
        panel := Candidates(list);
      }
    }

    /**
     * `_connect_device`: `succeeded` says whether `serial.Serial(...)` (for a port) or the
     * client's `connect` (for a BLE device) succeeded; `link` is the BLE device's state.
     */
    method ConnectDevice(target: Candidate, succeeded: bool, link: Link)
      requires Valid()
      modifies this
      ensures Valid()
      ensures target.HcCandidate? && succeeded ==>
        && Connection() == Conn(true, Some(target.port.device), None, None)
        && btLabel == ConnectedTo(target.port.device) && disconnectEnabled
      ensures target.HcCandidate? && !succeeded ==>
        Connection() == old(Connection()) && btLabel == ConnectError && disconnectEnabled == old(disconnectEnabled)
      ensures target.BleCandidate? && succeeded ==>
        && Connection() == Conn(true, None, Some(target.dev.address), Resolve(link.services))
        && btLabel == ConnectedTo(target.dev.name.GetOr("None")) && disconnectEnabled
      ensures target.BleCandidate? && !succeeded ==>
        && Connection() == Conn(old(btConnected), old(serialPort), None, None)
        && btLabel == BleConnectError && disconnectEnabled == old(disconnectEnabled)
      ensures blocks == old(blocks) && wire == old(wire) && status == old(status) && panel == old(panel)
    {
      match target
      case HcCandidate(port) =>
        if succeeded {
          serialPort := Some(port.device);
          btLabel := ConnectedTo(port.device);
          btConnected := true;
          disconnectEnabled := true;
          btClient := None;
          btWriteChar := None;
        } else {
          btLabel := ConnectError;
        }
      case BleCandidate(dev) =>
        btClient := Some(dev.address);
        if succeeded {
          btWriteChar := FindWriteCharacteristic(link.services);
          btConnected := true;
          btLabel := ConnectedTo(dev.name.GetOr("None"));
          disconnectEnabled := true;
          if serialPort.Some? {
            serialPort := None;
          }
        } else {
          btLabel := BleConnectError;
          btClient := None;
          btWriteChar := None;
        }
    }

    /** `_send_bt(msg)`: writes `msg + "\n"` to the serial port, else to the BLE client, else nowhere. */
    method SendBt(msg: string, link: Link)
      requires Valid()
      modifies this
      ensures Valid()
      ensures Connection() == SendStep(old(Connection()), link, msg).0
      ensures wire == old(wire) + SendStep(old(Connection()), link, msg).1
      ensures blocks == old(blocks) && status == old(status)
      ensures btLabel == old(btLabel) && disconnectEnabled == old(disconnectEnabled) && panel == old(panel)
    {
      if !btConnected {
        return;
      }
      if serialPort.Some? {
        wire := wire + [SerialWrite(serialPort.value, msg + "\n")];
      } else if btClient.Some? && link.clientConnected {
        if btWriteChar.Some? {
          wire := wire + [GattWrite(btClient.value, btWriteChar.value, msg + "\n")];
        } else {
          var found := FindWriteCharacteristic(link.services);
          if found.Some? {
            btWriteChar := found;
            wire := wire + [GattWrite(btClient.value, found.value, msg + "\n")];
          }
        }
      }
    }

    /** `disconnect_bt`: closes whatever is open and always ends disconnected. */
    method DisconnectBt(link: Link)
      requires Valid()
      modifies this
      ensures Valid()
      ensures Connection() == AfterDisconnect(old(Connection()), link)
      ensures btLabel == Disconnected && !disconnectEnabled
      ensures blocks == old(blocks) && wire == old(wire) && status == old(status) && panel == old(panel)
    {
      if serialPort.Some? {
        serialPort := None;
      }
      if btClient.Some? && link.clientConnected {
        btClient := None;
        btWriteChar := None;
      }
      btLabel := Disconnected;
      btConnected := false;
      disconnectEnabled := false;
    }

    /** One effect of a run: a status effect sets the status line, a message goes through `SendBt`. */
    method Apply(e: Effect, link: Link)
      requires Valid()
      modifies this
      ensures Valid()
      ensures e.Send? ==> Connection() == SendStep(old(Connection()), link, e.message).0
      ensures e.Send? ==> wire == old(wire) + SendStep(old(Connection()), link, e.message).1
      ensures !e.Send? ==> Connection() == old(Connection()) && wire == old(wire)
      ensures status == if e.Show? then e.status else old(status)
      ensures blocks == old(blocks)
      ensures btLabel == old(btLabel) && disconnectEnabled == old(disconnectEnabled) && panel == old(panel)
    {
      match e {
        case Show(s) =>
          status := s;
        case Send(m) =>
          SendBt(m, link);
        case Pause(_) =>
      }
    }

    /**
     * The timed `_execute_blocks` chain: every `Show` effect sets the status line and every
     * `Send` effect goes through `SendBt`, in the order of the trace.
     */
    method Dispatch(effects: seq<Effect>, link: Link)
      requires Valid()
      modifies this
      ensures Valid()
      ensures var sent := Transmit(old(Connection()), link, Messages(effects));
              Connection() == sent.0 && wire == old(wire) + sent.1
      ensures status == LastStatus(effects, old(status))
      ensures blocks == old(blocks)
      ensures btLabel == old(btLabel) && disconnectEnabled == old(disconnectEnabled) && panel == old(panel)
    {
      ghost var c0, w0, s0 := Connection(), wire, status;
      ghost var sent: seq<string> := [];
      var i := 0;
      while i < |effects|
        invariant 0 <= i <= |effects|
        invariant sent == Messages(effects[..i])
        invariant status == LastStatus(effects[..i], s0)
        invariant Connection() == Transmit(c0, link, sent).0 && wire == w0 + Transmit(c0, link, sent).1
        invariant blocks == old(blocks) && Valid()
        invariant btLabel == old(btLabel) && disconnectEnabled == old(disconnectEnabled) && panel == old(panel)
      {
        var e := effects[i];
        TraceSnoc(effects, i, s0);
        ghost var before := Transmit(c0, link, sent);
        if e.Send? {
          TransmitSnoc(c0, link, sent, e.message);
          ghost var step := SendStep(before.0, link, e.message);
          WritesAssoc(w0, before.1, step.1);
        }
        Apply(e, link);
        if e.Send? {
          sent := sent + [e.message];
        }
        i := i + 1;
      }
      assert effects[..i] == effects;
    }

    /**
     * `_run_sequence`: the status line ends on "nothing to run" or "sequence completed", and
     * the wire carries exactly the messages of the run's trace.
     */
    method RunSequence(link: Link)
      requires Valid()
      modifies this
      ensures Valid()
      ensures var sent := Transmit(old(Connection()), link, Messages(RunEffects(old(blocks))));
              Connection() == sent.0 && wire == old(wire) + sent.1
      ensures status == if old(blocks) == [] then NothingToRun else SequenceCompleted
      ensures blocks == old(blocks)
      ensures btLabel == old(btLabel) && disconnectEnabled == old(disconnectEnabled) && panel == old(panel)
    {
      var effects := Execute(blocks);
      ghost var s0 := status;
      Dispatch(effects, link);
      if blocks != [] {
        ExecutionEndsCompleted(SortBlocks(blocks), 0, DefaultSpeed, s0);
      } else {
        assert effects == [Show(NothingToRun)] && effects[1..] == [];
      }
    }
  }
}
