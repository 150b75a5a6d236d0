/**
 * The connection state of the control window and what `_send_bt` puts on the wire.
 * Outcomes of the Bluetooth libraries (whether the BLE client is still connected and
 * what its GATT service listing holds) are parameters; written bytes are recorded as
 * `Write` values, the newline-terminated ASCII text of the message.
 */
module Transport {
  import opened Wrappers

  /** A GATT characteristic: its UUID and its property names (`char.properties or []`). */
  datatype Characteristic = Characteristic(uuid: string, properties: seq<string>)

  datatype Service = Service(characteristics: seq<Characteristic>)

  /**
   * What the BLE side looks like at the moment of a call: whether the client reports
   * `is_connected`, and the service listing (None when `get_services()` raises).
   */
  datatype Link = Link(clientConnected: bool, services: Option<seq<Service>>)

  /** One write on the wire: to the serial port at `port`, or to a characteristic of the BLE client at `client`. */
  datatype Write =
    | SerialWrite(port: string, data: string)
    | GattWrite(client: string, characteristic: string, data: string)

  /**
   * The four fields `bt_connected`, `serial_port` (the device path of the open port),
   * `bt_client` (the address of the client's device) and `bt_write_char` (the cached UUID).
   */
  datatype Conn = Conn(btConnected: bool, serialPort: Option<string>, btClient: Option<string>, writeChar: Option<string>)

  /** The state before any connection. */
  const Initial: Conn := Conn(false, None, None, None)

  predicate Writable(c: Characteristic) {
    "write" in c.properties || "write-without-response" in c.properties
  }

  /** All characteristics, service after service, each service's in its own order. */
  function Flatten(services: seq<Service>): seq<Characteristic> {
    if services == [] then [] else services[0].characteristics + Flatten(services[1..])
  }

  /** The UUID of the first writable characteristic of `cs`, if any. */
  function FirstWritable(cs: seq<Characteristic>): (r: Option<string>)
    ensures r.None? <==> forall k | 0 <= k < |cs| :: !Writable(cs[k])
    ensures r.Some? ==> exists k | 0 <= k < |cs| ::
              Writable(cs[k]) && cs[k].uuid == r.value && forall j | 0 <= j < k :: !Writable(cs[j])
  {
    if cs == [] then None
    else if Writable(cs[0]) then Some(cs[0].uuid)
    else
      var r := FirstWritable(cs[1..]);
      assert forall k | 0 < k < |cs| :: cs[k] == cs[1..][k - 1];
      if r.Some? then
        var k :| 0 <= k < |cs[1..]| && Writable(cs[1..][k]) && cs[1..][k].uuid == r.value
                 && forall j | 0 <= j < k :: !Writable(cs[1..][j]);
        assert Writable(cs[k + 1]) && cs[k + 1].uuid == r.value;
        assert forall j | 0 <= j < k + 1 :: !Writable(cs[j]) by {
          forall j | 0 <= j < k + 1 ensures !Writable(cs[j]) {
            if j > 0 { assert cs[j] == cs[1..][j - 1]; }
          }
        }
        r
      else r
  }

  /** A characteristic is in the flattened listing exactly when some service holds it. */
  lemma {:induction false} FlattenMembers(services: seq<Service>)
    ensures forall ch :: ch in Flatten(services) <==> exists sv :: sv in services && ch in sv.characteristics
  {
    if services != [] {
      FlattenMembers(services[1..]);
      assert forall sv :: sv in services <==> sv == services[0] || sv in services[1..];
    }
  }

  /**
   * What `_find_write_characteristic` returns for a service listing: nothing when the
   * listing failed or no characteristic of any service is writable, otherwise the uuid of
   * a writable characteristic of one of the services.
   */
  function Resolve(listing: Option<seq<Service>>): (r: Option<string>)
    ensures r.None? <==>
      listing.None? || forall sv, ch | sv in listing.value && ch in sv.characteristics :: !Writable(ch)
    ensures r.Some? ==>
      listing.Some? && exists sv, ch :: sv in listing.value && ch in sv.characteristics && Writable(ch) && ch.uuid == r.value
  {
    match listing
    case None => None
    case Some(services) =>
      var cs := Flatten(services);
      FlattenMembers(services);
      assert (forall k | 0 <= k < |cs| :: !Writable(cs[k])) <==> (forall ch | ch in cs :: !Writable(ch));
      FirstWritableHeld(services);
      FirstWritable(cs)
  }

  lemma FirstWritableHeld(services: seq<Service>)
    ensures var r := FirstWritable(Flatten(services));
      r.Some? ==> exists sv, ch :: sv in services && ch in sv.characteristics && Writable(ch) && ch.uuid == r.value
  {
    var cs := Flatten(services);
    var r := FirstWritable(cs);
    if r.Some? {
      var k :| 0 <= k < |cs| && Writable(cs[k]) && cs[k].uuid == r.value;
      assert cs[k] in cs;
      FlattenMembers(services);
      var sv :| sv in services && cs[k] in sv.characteristics;
    }
  }

  lemma FlattenFrom(services: seq<Service>, i: nat)
    requires i < |services|
    ensures Flatten(services[i..]) == services[i].characteristics + Flatten(services[i + 1..])
  {
    assert services[i..][0] == services[i] && services[i..][1..] == services[i + 1..];
  }

  lemma FirstWritableSkip(cs: seq<Characteristic>, j: nat, rest: seq<Characteristic>)
    requires j < |cs| && !Writable(cs[j])
    ensures FirstWritable(cs[j..] + rest) == FirstWritable(cs[j + 1..] + rest)
  {
    var s := cs[j..] + rest;
    assert s[0] == cs[j] && s[1..] == cs[j + 1..] + rest;
  }

  /**
   * `_find_write_characteristic`: walks the services and, inside each, its
   * characteristics, and returns the UUID of the first one whose properties include
   * `write` or `write-without-response`; None if there is none or the listing failed.
   */
  method FindWriteCharacteristic(listing: Option<seq<Service>>) returns (r: Option<string>)
    ensures r == Resolve(listing)
  {
    if listing.None? {
      return None;
    }
    var services := listing.value;
    var i := 0;
    while i < |services|
      invariant 0 <= i <= |services|
      invariant FirstWritable(Flatten(services)) == FirstWritable(Flatten(services[i..]))
    {
      var chars := services[i].characteristics;
      FlattenFrom(services, i);
      var j := 0;
      while j < |chars|
        invariant 0 <= j <= |chars|
        invariant FirstWritable(Flatten(services)) == FirstWritable(chars[j..] + Flatten(services[i + 1..]))
      {
        if Writable(chars[j]) {
          assert (chars[j..] + Flatten(services[i + 1..]))[0] == chars[j];
          return Some(chars[j].uuid);
        }
        FirstWritableSkip(chars, j, Flatten(services[i + 1..]));
        j := j + 1;
      }
      assert chars[j..] + Flatten(services[i + 1..]) == Flatten(services[i + 1..]);
      i := i + 1;
    }
    assert services[i..] == [];
    r := None;
  }

  // ---------------------------------------------------------------------------
  // Sending
  // ---------------------------------------------------------------------------

  /**
   * `_send_bt(msg)`: nothing unless `bt_connected`; an open serial port gets `msg + "\n"`;
   * otherwise a connected BLE client gets it on the cached characteristic, or on the first
   * writable one, which is then cached; with none found nothing is written.
   */
  function SendStep(c: Conn, link: Link, msg: string): (r: (Conn, seq<Write>))
    ensures |r.1| <= 1
    ensures forall w | w in r.1 :: w.data == msg + "\n"
    ensures r.1 != [] ==> c.btConnected
    ensures r.0.btConnected == c.btConnected && r.0.serialPort == c.serialPort && r.0.btClient == c.btClient
    ensures c.writeChar.Some? || r.1 == [] ==> r.0 == c
  {
    if !c.btConnected then (c, [])
    else if c.serialPort.Some? then (c, [SerialWrite(c.serialPort.value, msg + "\n")])
    else if c.btClient.Some? && link.clientConnected then
      if c.writeChar.Some? then (c, [GattWrite(c.btClient.value, c.writeChar.value, msg + "\n")])
      else
        match Resolve(link.services)
        case None => (c, [])
        case Some(u) => (c.(writeChar := Some(u)), [GattWrite(c.btClient.value, u, msg + "\n")])
    else (c, [])
  }

  /** Sending `msgs` one after the other: the final state and everything written. */
  function Transmit(c: Conn, link: Link, msgs: seq<string>): (r: (Conn, seq<Write>))
    ensures |r.1| <= |msgs|
    ensures r.0.btConnected == c.btConnected && r.0.serialPort == c.serialPort && r.0.btClient == c.btClient
    ensures c.writeChar.Some? ==> r.0 == c
    decreases |msgs|
  {
    if msgs == [] then (c, [])
    else
      var first := SendStep(c, link, msgs[0]);
      var rest := Transmit(first.0, link, msgs[1..]);
      (rest.0, first.1 + rest.1)
  }

  /** Sending `a + b` is sending `a`, then `b` from the state `a` leaves. */
  lemma {:induction false} TransmitAppend(c: Conn, link: Link, a: seq<string>, b: seq<string>)
    ensures Transmit(c, link, a + b) ==
      (Transmit(Transmit(c, link, a).0, link, b).0, Transmit(c, link, a).1 + Transmit(Transmit(c, link, a).0, link, b).1)
    decreases |a|
  {
    if a == [] {
      assert a + b == b;
      assert Transmit(c, link, a).1 + Transmit(c, link, b).1 == Transmit(c, link, b).1;
    } else {
      assert (a + b)[0] == a[0] && (a + b)[1..] == a[1..] + b;
      var first := SendStep(c, link, a[0]);
      TransmitAppend(first.0, link, a[1..], b);
      var mid := Transmit(first.0, link, a[1..]);
      assert Transmit(c, link, a) == (mid.0, first.1 + mid.1);
      var last := Transmit(mid.0, link, b);
      assert first.1 + (mid.1 + last.1) == (first.1 + mid.1) + last.1;
    }
  }

  /** Sending one more message continues from the state the earlier ones left. */
  lemma TransmitSnoc(c: Conn, link: Link, msgs: seq<string>, m: string)
    ensures var before := Transmit(c, link, msgs);
            var step := SendStep(before.0, link, m);
            Transmit(c, link, msgs + [m]) == (step.0, before.1 + step.1)
  {
    TransmitAppend(c, link, msgs, [m]);
    var before := Transmit(c, link, msgs);
    var step := SendStep(before.0, link, m);
    assert [m][1..] == [];
    assert Transmit(step.0, link, []) == (step.0, []);
    assert Transmit(before.0, link, [m]) == (step.0, step.1 + []);
    assert step.1 + [] == step.1;
  }

  lemma WritesAssoc(a: seq<Write>, b: seq<Write>, c: seq<Write>)
    ensures (a + b) + c == a + (b + c)
  {
  }

  /** While `bt_connected` is false nothing is written and nothing changes. */
  lemma {:induction false} TransmitDisconnected(c: Conn, link: Link, msgs: seq<string>)
    requires !c.btConnected
    ensures Transmit(c, link, msgs) == (c, [])
  {
    if msgs == [] {
      assert Transmit(c, link, msgs) == (c, []);
    } else {
      TransmitDisconnected(c, link, msgs[1..]);
      assert SendStep(c, link, msgs[0]) == (c, []);
      assert Transmit(c, link, msgs).1 == [] + Transmit(c, link, msgs[1..]).1;
    }
  }

  /** An open serial port takes every message, newline-terminated, in order, and the state stays. */
  lemma {:induction false} TransmitSerial(c: Conn, link: Link, msgs: seq<string>)
    requires c.btConnected && c.serialPort.Some?
    ensures Transmit(c, link, msgs).0 == c
    ensures var ws := Transmit(c, link, msgs).1;
            |ws| == |msgs| && forall k | 0 <= k < |ws| :: ws[k] == SerialWrite(c.serialPort.value, msgs[k] + "\n")
  {
    if msgs != [] {
      TransmitSerial(c, link, msgs[1..]);
      var ws := Transmit(c, link, msgs).1;
      assert ws == [SerialWrite(c.serialPort.value, msgs[0] + "\n")] + Transmit(c, link, msgs[1..]).1;
      forall k | 0 < k < |ws| ensures ws[k] == SerialWrite(c.serialPort.value, msgs[k] + "\n") {
        assert msgs[1..][k - 1] == msgs[k];
      }
    }
  }

  /**
   * Without a serial port, a connected BLE client whose characteristic is cached or can be
   * resolved takes every message on that one characteristic; it is resolved at most once
   * and stays cached.
   */
  lemma {:induction false} TransmitBle(c: Conn, link: Link, msgs: seq<string>, u: string)
    requires c.btConnected && c.serialPort.None? && c.btClient.Some? && link.clientConnected
    requires c.writeChar == Some(u) || (c.writeChar.None? && Resolve(link.services) == Some(u))
    requires msgs != []
    ensures Transmit(c, link, msgs).0 == c.(writeChar := Some(u))
    ensures var ws := Transmit(c, link, msgs).1;
            |ws| == |msgs| && forall k | 0 <= k < |ws| :: ws[k] == GattWrite(c.btClient.value, u, msgs[k] + "\n")
    decreases |msgs|
  {
    var c1 := c.(writeChar := Some(u));
    assert SendStep(c, link, msgs[0]) == (c1, [GattWrite(c.btClient.value, u, msgs[0] + "\n")]);
    if |msgs| > 1 {
      TransmitBle(c1, link, msgs[1..], u);
      var ws := Transmit(c, link, msgs).1;
      forall k | 0 < k < |ws| ensures ws[k] == GattWrite(c.btClient.value, u, msgs[k] + "\n") {
        assert msgs[1..][k - 1] == msgs[k];
      }
    }
  }

  /**
   * Without a serial port, nothing is written when the BLE client is absent or down, or
   * when no characteristic is cached and none is writable.
   */
  lemma {:induction false} TransmitNowhere(c: Conn, link: Link, msgs: seq<string>)
    requires c.serialPort.None?
    requires c.btClient.None? || !link.clientConnected || (c.writeChar.None? && Resolve(link.services).None?)
    ensures Transmit(c, link, msgs) == (c, [])
  {
    if msgs == [] {
      assert Transmit(c, link, msgs) == (c, []);
    } else {
      TransmitNowhere(c, link, msgs[1..]);
      assert SendStep(c, link, msgs[0]) == (c, []);
      assert Transmit(c, link, msgs).1 == [] + Transmit(c, link, msgs[1..]).1;
    }
  }

  // ---------------------------------------------------------------------------
  // Disconnecting
  // ---------------------------------------------------------------------------

  /**
   * `disconnect_bt`: the serial port is closed and dropped; a BLE client that is still
   * connected is disconnected and dropped with its cached characteristic; `bt_connected`
   * ends false either way.
   */
  function AfterDisconnect(c: Conn, link: Link): (r: Conn)
    ensures !r.btConnected && r.serialPort.None?
  {
    var dropClient := c.btClient.Some? && link.clientConnected;
    Conn(false, None,
         if dropClient then None else c.btClient,
         if dropClient then None else c.writeChar)
  }

  /** Disconnecting twice is disconnecting once. */
  lemma DisconnectIdempotent(c: Conn, link: Link)
    ensures AfterDisconnect(AfterDisconnect(c, link), link) == AfterDisconnect(c, link)
  {
  }

  /** After a disconnect, any messages are dropped without writing anything. */
  lemma SendAfterDisconnect(c: Conn, link: Link, msgs: seq<string>)
    ensures Transmit(AfterDisconnect(c, link), link, msgs) == (AfterDisconnect(c, link), [])
  {
    TransmitDisconnected(AfterDisconnect(c, link), link, msgs);
  }
}
