# Block-programming robot controller (BLE / HC-05) — Dafny model

The application is a drag-and-drop editor for robot programs. The user drops blocks on a
canvas: Velocidad, Adelante, Izquierda, Derecha, Reversa, Detener and Esperar. The run
button walks the blocks in canvas order (top to bottom, then left to right). Every
non-speed block becomes a short text command such as `F141`. The command is sent
newline-terminated over an HC-05/06 serial port or a BLE GATT characteristic. The run then
waits for the block's delay and ends with a bare `S`.

This project models the window of `src/control.py` and the second, simpler window of
`src/conexion.py`:

- `wrappers.dfy`: the `Option` type.
- `workspace.dfy`: blocks, status line texts, delete-first-match, and the stable sort by
  canvas position.
- `encoder.dfy`: scaling speed to PWM (pulse-width modulation), command letters, the frame
  text and its decimal round trip, and the seconds, turn and block delays.
- `executor.dfy`: the timed `_execute_blocks` chain, as the trace of effects it produces
  (status updates, messages sent, pauses). It holds the loop `Execute`, proved equal to that
  trace, and lemmas about the messages and delays of a run.
- `transport.dfy`: `_send_bt` and `disconnect_bt` on the connection fields, and the search
  for a writable BLE characteristic (the loop `FindWriteCharacteristic`).
- `devices.dfy`: scan results, substring and ASCII upper-casing tests, and the Bluetooth
  label.
- `control.dfy`: `Control.DragDropApp`, a class whose methods update the block list,
  connection fields, labels, device panel and the wire (everything written) in place. It
  also holds the device filter of `_scan_ble_and_hc`.
- `conexion.dfy`: `Conexion.DragDropApp`, the window that connects only through a serial port, and its `CollectDevices`
  loop.

Points about the program's behaviour worth knowing:

- The PWM value is truncated: speed 5 gives PWM 141 (`int(4 / 8 * 227 + 28)`).
- Esperar sends `S<pwm>`, like a stop, before it waits.
- Blocks run sorted by their canvas position: top first, then left.
- A run sends even when nothing is connected; `_send_bt` then drops every message.
- Once started, a run goes on to the end; nothing stops it.

## Model

| member | source | states |
|---|---|---|
| Workspace.RemoveFirst | src/control.py:198-207 | removing by frame never lengthens the list |
| Workspace.RemoveFirstShrinks | src/control.py:198-207 | removing by frame shortens the list by one exactly when some block has that frame, and never adds a block |
| Workspace.RemoveFirstAt | src/control.py:198-207 | when the first block with the frame is at `i`, the result is the list without position `i`, the rest in order |
| Workspace.RemoveFirstAbsent | src/control.py:198-207 | with no block having the frame the list is unchanged |
| Workspace.FindFrame | src/control.py:199-200 | the loop returns the index of the first block with the frame, or the length when there is none |
| Workspace.InsertPermutes | src/control.py:215 | inserting keeps every block and adds exactly the new one |
| Workspace.InsertSorted | src/control.py:215 | inserting into a list sorted by (top, left) keeps it sorted |
| Workspace.InsertAtCorner | src/control.py:215 | insertion keeps the relative order of blocks at the same position |
| Workspace.KeyLeTotalPreorder | src/control.py:215 | the `(top, left)` key order is reflexive, total and transitive, and two blocks tie exactly when they sit at the same corner |
| Workspace.SortBlocks | src/control.py:215 | the sorted list is ordered by `(top, left)` and holds exactly the same blocks |
| Workspace.SortBlocksStable | src/control.py:215 | the sort yields a list ordered by (top, left), a permutation of the input, and stable for blocks at equal positions (Python's `sorted`) |
| Encoder.Trunc | src/control.py:262 | Python's `int()` on a float: truncation toward zero, bounded on both sides |
| Encoder.SpeedPwm | src/control.py:262 | speed 1..9 is scaled into PWM 28..255 |
| Encoder.SpeedPwmIntegral | src/control.py:262 | the float formula equals the integer formula (vel-1)*227/8+28 |
| Encoder.SpeedPwmValues | src/control.py:262 | speeds 1, 5 and 9 send 28, 141 and 255 |
| Encoder.SpeedPwmIncreasing | src/control.py:262 | a higher speed always sends a higher PWM |
| Encoder.NextSpeed | src/control.py:233-239 | a speed block's integer is clamped to 1..9; an unparseable entry keeps the previous speed |
| Encoder.Code | src/control.py:264 | the command letter is one of F, B, L, R, S: Adelante F, Reversa B, Izquierda L, Derecha R, and S exactly for Detener, Esperar and Velocidad |
| Encoder.DecimalString | src/control.py:266 | `str` of a natural number is non-empty, all digits, with no leading zero |
| Encoder.DigitsValueOfDecimal | src/control.py:266 | the digits of `str(n)` read back as `n` |
| Encoder.DecimalRoundTrip | src/control.py:266 | parsing `str(n)` gives `n` |
| Encoder.DecimalCanonical | src/control.py:266 | a digit string that parses to `n` is exactly `str(n)` (the converse) |
| Encoder.Frame | src/control.py:264-266 | a frame is the command letter followed by at least two characters, all of them digits |
| Encoder.FrameRoundTrip | src/control.py:264-266 | decoding a frame gives back its command letter and the PWM value of the speed |
| Encoder.SecondsDelay | src/control.py:272-288 | a timed block waits a whole number of seconds between 1 and 10: 1 s when the entry does not parse or is below 1, 10 s when it is 10 or more |
| Encoder.SecondsDelayWholeSeconds | src/control.py:275-278 | a value in [1, 11) waits its integer part in seconds |
| Encoder.Degrees | src/control.py:289-293 | a turn is 45, 90, 180 or 360 degrees; an allowed value is kept, and an entry that does not parse or truncates to any other value becomes 90 |
| Encoder.TurnDelay | src/control.py:294 | a turn waits deg/90 seconds, i.e. 500, 1000, 2000 or 4000 ms |
| Encoder.BlockDelay | src/control.py:240-298 | speed blocks wait 400 ms, stops 700 ms, timed blocks their seconds and turns their degree delay; all between 400 and 10000 ms |
| Executor.ExecutionEnds | src/control.py:222-304 | the chain from any block has at least one effect per remaining block and ends by showing "completed" and then sending a bare `S` |
| Executor.RunEffects | src/control.py:210-220 | a run ends on "nothing to run" exactly when the list is empty; otherwise its last effect is sending `S`, after at least one effect per block |
| Executor.Frames | src/control.py:256-266 | one frame per non-speed block |
| Executor.FramesShape | src/control.py:262-266 | every frame of a run is a command letter from F, B, L, R, S followed by at least two characters, all of them digits |
| Executor.Delays | src/control.py:242-301 | one delay per block, the block's own delay |
| Executor.LastStatusAppend | src/control.py:224 | the status line after two traces is the status after the second, started from the first |
| Executor.TraceSnoc | src/control.py:222-304 | one more effect adds its message, if any, and its status, if any |
| Executor.MessagesAppend | src/control.py:266 | messages of concatenated traces concatenate |
| Executor.PausesAppend | src/control.py:301 | pauses of concatenated traces concatenate |
| Executor.ExecutionMessages | src/control.py:222-304 | executing from block `i` sends exactly the frames of the remaining blocks, then `S` |
| Executor.ExecutionPauses | src/control.py:222-304 | executing from block `i` waits exactly the delays of the remaining blocks, in order |
| Executor.ExecutionEndsCompleted | src/control.py:223-226 | every run ends with "sequence completed" on the status line |
| Executor.FramesSplit | src/control.py:233-245 | a speed block only affects the blocks after it |
| Executor.MovesInsert | src/control.py:215 | sorting does not add or drop moving blocks, one insertion at a time |
| Executor.MovesSorted | src/control.py:215 | the sorted list has as many non-speed blocks as the original |
| Executor.RunShape | src/control.py:210-226 | an empty list only shows "nothing to run" and sends nothing; otherwise one frame per non-speed block, then exactly one `S`, last; the run waits the delays of the sorted blocks and ends "completed" |
| Executor.RunMessagesAndPauses | src/control.py:210-304 | a non-empty run sends the frames of the blocks in canvas order, then `S`, and waits their delays in that order |
| Executor.ExampleInCanvasOrder | src/control.py:215 | three blocks placed top to bottom are run in that order |
| Executor.ExampleFrames | src/control.py:262-266 | Adelante, Velocidad 9, Adelante sends F141 then F255 |
| Executor.ExampleDelays | src/control.py:242-301 | that program waits 2000, 400 and 2000 ms |
| Executor.SpeedChangeExample | src/control.py:210-304 | running that program sends F141, F255, S and waits 2000, 400, 2000 ms |
| Executor.Execute | src/control.py:210-304 | the loop over the sorted blocks produces exactly the trace of the timed chain |
| Transport.FirstWritable | src/control.py:425-430 | no result exactly when no characteristic is writable; otherwise the uuid of the first writable one |
| Transport.FlattenMembers | src/control.py:425-426 | the walk over services and their characteristics visits exactly the characteristics some service holds |
| Transport.Resolve | src/control.py:418-433 | no uuid exactly when the listing fails or no characteristic of any service is writable; otherwise the uuid of a writable characteristic of one of the services |
| Transport.FindWriteCharacteristic | src/control.py:418-433 | the nested loop returns the first writable uuid, or none when listing fails or none is writable |
| Transport.SendStep | src/control.py:435-463 | one send writes at most one line, `msg` plus a newline, and only while connected; only the cached characteristic can change, and a cached one is never replaced |
| Transport.Transmit | src/control.py:435-463 | sending messages one after another writes at most one line per message and changes no connection field except the cached characteristic, which stays once set |
| Transport.TransmitAppend | src/control.py:435-463 | sending `a + b` is sending `a`, then `b` from the connection state `a` leaves |
| Transport.TransmitSnoc | src/control.py:435-463 | sending one more message continues from the state the earlier messages left |
| Transport.TransmitDisconnected | src/control.py:437-438 | while not connected nothing is written and nothing changes |
| Transport.TransmitSerial | src/control.py:440-442 | an open serial port takes every message with a newline, in order, and the state stays |
| Transport.TransmitBle | src/control.py:443-457 | without a serial port, a connected BLE client takes every message on one characteristic; it is resolved at most once and then cached |
| Transport.TransmitNowhere | src/control.py:443-461 | with no client, a client that is down, or no writable characteristic, nothing is written |
| Transport.AfterDisconnect | src/control.py:465-478 | after disconnecting, the app is not connected and has no serial port |
| Transport.DisconnectIdempotent | src/control.py:465-478 | disconnecting twice is disconnecting once |
| Transport.SendAfterDisconnect | src/control.py:437-438 | after a disconnect every message is dropped without a write |
| Control.MatchingPorts | src/control.py:361-365 | every listed port passes the test: upper-cased description containing HC, LMB or BLUETOOTH, or a device path containing HC |
| Control.MatchingPortsMembers | src/control.py:361-365 | a port is listed exactly when it is enumerated and passes the test |
| Control.BleCandidates | src/control.py:356-358 | every BLE device is listed, named or not, in scan order |
| Control.HcCandidates | src/control.py:365 | each matching port becomes an HC entry in order |
| Control.MatchingPortsAppend | src/control.py:361-365 | the port filter keeps enumeration order |
| Control.CandidateList | src/control.py:353-369 | the merged list holds every BLE device first, in scan order, then only ports that pass the test, no more than enumerated |
| Control.CandidateListShape | src/control.py:353-369 | BLE devices come first, then exactly the matching ports; the list is empty exactly when there is no BLE device and no port matches |
| Control.DescriptionIsCaseInsensitive | src/control.py:362-364 | "Bluetooth" and "hc-05" descriptions match because the description is upper-cased |
| Control.PlacedParam | src/control.py:153-167 | a stop block gets no widget; every other preset is one of its selector's values (speed 1..9, seconds 1..10, angles 45/90/180/360), read alike by `int` and `float` |
| Control.PlacedDefaults | src/control.py:153-167 | a block left at its preset value runs at speed 5, for one second, or turns 90 degrees in one second; a stop waits 700 ms |
| Control.RunOverSerial | src/control.py:210-226 | over an open serial port a run writes one line per moving block and ends with exactly one `S\n`, its last write |
| Control.DragDropApp.constructor | src/control.py:21-33 | the app starts with no blocks, not connected, status "Listo", label "No conectado", and the connection invariant (at most one transport, a cached characteristic only with a BLE client, an open port only while connected) holds |
| Control.DragDropApp.PlaceBlock | src/control.py:146-177 | the dropped block is appended with its preset parameter, and nothing else changes |
| Control.DragDropApp.SetEntry | src/control.py:153-166 | a value typed or picked in a block's selector becomes that block's parameter; nothing else changes |
| Control.DragDropApp.DeleteBlock | src/control.py:198-207 | the first block with the frame is removed, the others stay in order |
| Control.DragDropApp.ClearAll | src/control.py:481-489 | the block list is empty and the status reads "Todo limpio" |
| Control.DragDropApp.ScanDevices | src/control.py:336-379 | the panel shows the merged device list, or "no devices" when it is empty; a failed scan counts as an empty result |
| Control.DragDropApp.ConnectDevice | src/control.py:381-416 | a port that opens becomes the only transport; a BLE client that connects caches its characteristic and closes the serial port; each failure sets its own error label; the connection invariant is kept |
| Control.DragDropApp.SendBt | src/control.py:435-463 | the connection state and the wire change exactly as the send step says; the connection invariant is kept |
| Control.DragDropApp.DisconnectBt | src/control.py:465-478 | the connection becomes its disconnected state, the label reads "Desconectado", the disconnect button is disabled; the connection invariant is kept |
| Control.DragDropApp.Apply | src/control.py:224-266 | a status effect sets the status line, a message goes through the send step, a pause changes nothing |
| Control.DragDropApp.Dispatch | src/control.py:222-304 | each status effect sets the status line and each message goes through the send step, in trace order |
| Control.DragDropApp.RunSequence | src/control.py:210-304 | the wire receives exactly the transmission of the run's messages, and the status ends on "nothing to run" or "completed" |
| Conexion.BleEntries | src/conexion.py:209-211 | the BLE part has no more entries than devices, all of kind BLE |
| Conexion.BleEntriesMembers | src/conexion.py:209-211 | exactly the BLE devices with a non-empty name are listed, as (BLE, name, address) |
| Conexion.HcEntries | src/conexion.py:216-218 | the serial part has no more entries than ports, all of kind HC |
| Conexion.HcEntriesMembers | src/conexion.py:216-218 | exactly the ports whose description contains "HC" or "Bluetooth" are listed, as (HC, description, device) |
| Conexion.BleEntriesAppend | src/conexion.py:209-211 | the BLE filter keeps discovery order |
| Conexion.HcEntriesAppend | src/conexion.py:216-218 | the port filter keeps enumeration order |
| Conexion.BleEntriesSnoc | src/conexion.py:209-211 | one more device adds its entry exactly when it is named |
| Conexion.HcEntriesSnoc | src/conexion.py:216-218 | one more port adds its entry exactly when it matches |
| Conexion.CollectDevices | src/conexion.py:204-218 | the two loops build the named BLE entries followed by the matching ports |
| Conexion.DeviceListShape | src/conexion.py:204-222 | all BLE entries come before all HC entries; the list is empty exactly when no device is named and no port matches |
| Conexion.PortTestIsCaseSensitive | src/conexion.py:217 | "hc-05" is not listed, while a description containing "Bluetooth" is |
| Conexion.PlacedParam | src/conexion.py:147-157 | only the speed block's entry has text ("100"); other timed and turn blocks get an empty entry; a stop has none |
| Conexion.DragDropApp.constructor | src/conexion.py:20-22 | the app starts with no blocks, not connected, no serial port |
| Conexion.DragDropApp.PlaceBlock | src/conexion.py:142-166 | the dropped block is appended with its entry, and nothing else changes |
| Conexion.DragDropApp.DeleteBlock | src/conexion.py:171-177 | the first block with the frame is removed, the others stay in order |
| Conexion.DragDropApp.ClearAll | src/conexion.py:253-261 | the block list is empty and the status reads "Todo limpio" |
| Conexion.DragDropApp.ScanDevices | src/conexion.py:197-235 | the old buttons go; a failed scan shows the error, an empty list the warning, otherwise one button per entry and "choose a device" |
| Conexion.DragDropApp.ConnectDevice | src/conexion.py:237-246 | an HC port that opens sets the port and connects; a failure only sets the error label; a BLE entry only changes the label |
| Conexion.DragDropApp.RunSequence | src/conexion.py:249-250 | only the status line changes: nothing runs and nothing is sent |

## Left out

- Widgets, icons, the drag preview, `_drag_block`, `_align_blocks` (a visual nudge of
  canvas positions), colours and border highlights are not modelled. The canvas position of
  a block is a field of the block.
- Timers (`after`), threads and `asyncio.run` become a sequential trace. A run cannot
  overlap another one in the model.
- Control.DragDropApp.RunSequence and Control.DragDropApp.Dispatch take one `Link` for the
  whole run, and no user action happens between its timed steps. In the program the window
  stays live: the user can disconnect, reconnect, edit, delete or clear blocks between two
  steps, and each step reads `bt_client` and `is_connected` afresh. The model does not
  capture those interleavings.
- Control.DragDropApp.ConnectDevice: after a BLE connect succeeds, the program closes the
  serial port inside a `try` whose `except` does nothing; if `close` raises, `serial_port`
  stays set and later sends still go to the serial port. The model always clears the port.
- Library calls are parameters: the BLE scan and port enumeration results, whether
  `serial.Serial` or the BLE `connect` succeeds, and the GATT service listing. A failed
  service listing is `None`.
- Control.DragDropApp.SendBt: exceptions raised by `write` or `write_gatt_char` are not
  modelled. The model records the write, and the cached characteristic is kept as the
  source keeps it.
- Control.DragDropApp.DisconnectBt: an exception from `close` or `disconnect` would skip the
  remaining clean-up. In the model these calls always return.
- Devices.Upper: upper-casing covers ASCII letters only; Python's Unicode case mapping is not
  modelled.
- The display text of device buttons (`display_name`, `[typ] name (addr)`) and the
  progress labels shown during a scan are not modelled.
- Transport.FirstWritable: a writable characteristic whose uuid is the empty string would
  be treated by the source as "none found" (Python truthiness). The model returns it.
- Entry text is modelled by its two parses, `int(text)` and `float(text)`. Infinite and NaN
  floats are folded into "unparseable" because the source's `except` paths give them the
  same delay.
- Messages are modelled as character strings, without the `.encode()` to bytes; all frames
  are ASCII.
- `src/main.py` (the launcher) is not part of this model.
