# MeshPi UI core, modelled in Dafny

MeshPi UI is a desktop client for Meshtastic mesh radios. It connects to a
device over a serial port or TCP. It shows chat, a network graph, a
map, analytics and emergency tools, and it records everything in an SQLite
database through a batching background writer.

This project models the logic behind those screens as pure Dafny functions
and proves properties about them. Widgets, threads, files and the radio
library stay outside; their results come in as parameters.

- `Values`, `OrderedMap`, `Text`, `StringOrder`, `RealSeq`, `Seqs`, `Wrappers`
  hold the shared vocabulary. Python values (`None`, booleans, numbers, text,
  lists, insertion-ordered dicts) appear as one datatype. Dicts are
  association lists. The string helpers cover `strip`, `split`, `lower`,
  `title` and `int()`.
- `Constants`, `Paths`, `Gps`, `UiConfig` model the region table and its
  inverse, the per-platform directory layout, and the GPS helpers (coordinate
  validation, compass points, bounding box and zoom, Maidenhead locator). They
  also model the UI preferences: defaults, merging onto the defaults, dotted
  paths, the theme list and the window settings.
- `Database`, `BatchWriter`, `BoundedQueue`, `ConnectionPool` model the data
  layer. Tables are sequences of rows, and `INSERT OR REPLACE` under a UNIQUE
  column is an upsert. The batching loop is a step function, and the
  connection pool is a bounded FIFO queue.
- `DeviceInterface` models the Meshtastic adapter: connection state, message
  tracking (sent, delivered, failed), the records it queues for the database,
  and the event queue drained by the UI thread.
- `Emergency`, `ConfigPanel`, `Chat`, `NetworkView`, `MapView`, `Analytics`,
  `Responsive`, `App` model the state changes and computations of each tab,
  the responsive scroll container and the main window's wiring: event
  dispatch, the periodic update loop and the connect/disconnect buttons.

## Model

| member | source | states |
|---|---|---|
| Constants.RegionEnum | utils/constants.py:29-53 | a region name has an enum value exactly when it is one of `REGIONS` |
| Constants.RegionTableIsBijective | utils/constants.py:29-48 | no region name is listed twice and no two names share an enum value |
| Constants.RegionEnumToNameKeys | utils/constants.py:50 | the reversed table has the seventeen enum values, in table order, as its keys |
| Constants.NameEnumRoundTrip | utils/constants.py:29-50 | for every region name, reversing its enum value gives the name back |
| Constants.EnumNameRoundTrip | utils/constants.py:50 | for every key of the reversed table, looking its name up gives the enum value back |
| Constants.PanelRegionTableMatches | ui/config_ui.py:12-33 | the configuration panel's own copy of the region table equals the shared one |
| Constants.ProfileAndRangeConstants | utils/constants.py:99-105 | the analytics time ranges grow strictly in listed order, and "Default" is not a reserved profile name (constants.py:179-180) |
| Paths.EnvVar | utils/paths.py:33 | an environment lookup returns the bound text, and "" for an unset variable |
| Paths.ExecutableDir | utils/paths.py:16-23 | the executable's parent in a bundled build, the project root otherwise |
| Paths.BaseDir | utils/paths.py:33-35 | the variable's value when it is non-empty, else the fallback under the home directory |
| Paths.UserDataDir | utils/paths.py:25-47 | ends in "MeshtasticUI"; under APPDATA on Windows, Application Support on macOS, XDG_DATA_HOME or ~/.local/share elsewhere |
| Paths.ConfigDir | utils/paths.py:49-68 | ends in "MeshtasticUI"; the data directory on Windows, Preferences on macOS, XDG_CONFIG_HOME or ~/.config elsewhere |
| Paths.DataDirectory | utils/paths.py:70-81 | the user data directory in a bundled build, `database` under the project root otherwise |
| Paths.DatabasePath | utils/paths.py:83-85 | the file `meshpy_data.db` directly inside the data directory |
| Paths.LogsDirectory | utils/paths.py:87-98 | `logs` under the user data directory in a bundled build, under the project root otherwise |
| Paths.ConfigFilePath | utils/paths.py:100-105 | `config.json` in the configuration directory in a bundled build, in the project root otherwise |
| Paths.BundledFilesUnderUserData | utils/paths.py:70-105 | a bundled build keeps the database and the logs under the user data directory, and on Windows the configuration file too |
| Paths.ScriptFilesUnderProjectRoot | utils/paths.py:70-105 | run from source, the database, the logs and the configuration file all lie under the project root |
| Paths.ConfigDirSeparateOnMacOS | utils/paths.py:38-40 | on macOS the configuration directory, under Preferences, differs from the data directory, under Application Support (also lines 59-61) |
| Paths.ConfigDirSeparateOnLinux | utils/paths.py:42-47 | on Linux and other platforms the configuration directory equals the data directory exactly when the XDG_CONFIG_HOME base equals the XDG_DATA_HOME base: never with both variables unset, always when both name the same directory (also lines 63-68) |
| Gps.Trunc | utils/gps.py:238-245 | Python's `int()` on a float truncates toward zero: within one of the argument, on the side of zero |
| Gps.FloorMod | utils/gps.py:241-245 | Python's float `%` with a positive divisor leaves a remainder in `[0, m)` with `x == q*m + r` |
| Gps.RoundHalfEven | utils/gps.py:112 | Python's `round()` is within one half, and a tie goes to the even integer |
| Gps.ValidateCoordinates | utils/gps.py:63-75 | valid exactly when both coordinates are present and in range; the coordinates come back only when valid |
| Gps.ValidFixCharacterization | utils/gps.py:208-224 | a fix is usable iff valid, not (0, 0), and its accuracy is absent or at most 1000 m |
| Gps.CompassIndex | utils/gps.py:112 | the index into the sixteen directions is below 16 |
| Gps.CompassDirection | utils/gps.py:103-116 | "N/A" without a bearing, otherwise one of the sixteen directions |
| Gps.CompassNearest | utils/gps.py:109-113 | for a bearing in [0, 360) the chosen direction's heading is within 11.25 degrees of it, the bearings from 348.75 up reading "N" |
| Gps.CompassPeriodic | utils/gps.py:112 | adding 360 degrees to the bearing does not change the direction |
| Gps.CompassCardinals | utils/gps.py:109-113 | 0, 90, 180 and 270 degrees read N, E, S and W |
| Gps.Present | utils/gps.py:125-126 | the list keeps exactly the coordinates that are not `None` |
| Gps.BoxAround | utils/gps.py:131-148 | every coordinate lies inside the padded box, and the centre lies inside it too |
| Gps.BoundingBox | utils/gps.py:119-152 | `None` exactly when there are no latitudes or no longitudes; otherwise the box around them |
| Gps.ZoomLevel | utils/gps.py:155-181 | 10 without a box; always one of the six listed zoom levels |
| Gps.ZoomMonotone | utils/gps.py:165-178 | a wider coordinate range never gives a higher zoom |
| Gps.Chr | utils/gps.py:248-252 | `chr(n)` yields the character with code `n`, and fails outside the code-point range |
| Gps.GridIndicesOf | utils/gps.py:234-245 | square digits lie in 0..9 and subsquare indices in 0..23 |
| Gps.GridSquare | utils/gps.py:227-257 | "N/A" when a coordinate is missing |
| Gps.GridSquareShape | utils/gps.py:248-254 | for latitudes below 90 and longitudes below 180 the locator is two capitals, two digits and two lower-case letters |
| Gps.GridSquareNorthPole | utils/gps.py:235-248 | at latitude 90 the field letter is 'S', outside the eighteen fields A..R |
| Gps.GridIndicesLocate | utils/gps.py:234-245 | the indices pick the field, square and subsquare that contain the point |
| Gps.FormatDistance | utils/gps.py:41-49 | "N/A" without a distance; metres below one kilometre, kilometres from one up |
| UiConfig.Merge | utils/ui_config.py:116-123 | the merged configuration has exactly the default's keys, in the default's order: keys found only in the saved file are dropped |
| UiConfig.MergeLookup | utils/ui_config.py:116-123 | key by key: a key both sides have takes the saved value, or the recursive merge when both values are objects; every other default key keeps its value |
| UiConfig.MergeSelf | utils/ui_config.py:116-123 | a well-formed configuration merged onto itself is unchanged |
| UiConfig.MergeEmpty | utils/ui_config.py:118 | merging an empty saved configuration is the identity |
| UiConfig.MergeIdempotent | utils/ui_config.py:116-123 | merging the same well-formed saved configuration twice equals merging it once |
| UiConfig.MergeIdempotentAt | utils/ui_config.py:119-123 | the idempotence, stated for one key |
| UiConfig.Get | utils/ui_config.py:125-134 | the value the dotted path reaches, or the default when a segment is missing or a non-object is traversed |
| UiConfig.SetPathFresh | utils/ui_config.py:143-149 | missing intermediate objects are created, so an assignment into an empty configuration always succeeds |
| UiConfig.SetPathFails | utils/ui_config.py:136-155 | an assignment fails exactly when some existing intermediate value is not an object |
| UiConfig.GetAfterSetPath | utils/ui_config.py:136-150 | after a successful assignment the path reads back the assigned value |
| UiConfig.SetPathKeepsOthers | utils/ui_config.py:136-150 | every path that is neither a prefix nor an extension of the assigned one reads as before |
| UiConfig.Set | utils/ui_config.py:136-155 | a blocked assignment leaves the configuration unchanged (the error is caught); otherwise the key reads back the value |
| UiConfig.SetKeepsOtherKeys | utils/ui_config.py:136-150 | a successful `set` leaves every unrelated dotted key reading as before |
| UiConfig.LoadConfig | utils/ui_config.py:84-100 | the loaded configuration has the default's keys; a missing file, an unreadable file or a non-object leaves the defaults |
| UiConfig.LoadConfigBindings | utils/ui_config.py:89-92 | each default key is bound to the saved value, merged with the default when both are objects |
| UiConfig.LoadConfigStable | utils/ui_config.py:89-92 | merging the same file again over a loaded configuration changes nothing |
| UiConfig.DefaultConfigWellFormed | utils/ui_config.py:16-42 | no level of the default configuration repeats a key |
| UiConfig.GetTheme | utils/ui_config.py:157-159 | "darkly" when the configuration has no theme |
| UiConfig.SetTheme | utils/ui_config.py:161-167 | an unknown theme leaves the configuration unchanged; a known theme reads back from `get_theme` |
| UiConfig.ThemePathOpen | utils/ui_config.py:164 | the key "theme" is a one-segment path, which no value can block |
| UiConfig.GetThemeInfo | utils/ui_config.py:190-192 | information is found exactly for the names of `AVAILABLE_THEMES` |
| UiConfig.ThemeKinds | utils/ui_config.py:45-58 | ten themes: the five dark ones first, then the five light ones |
| UiConfig.WindowFieldSettable | utils/ui_config.py:143-149 | a window field can be assigned unless `window` holds a non-object |
| UiConfig.SetWindowField | utils/ui_config.py:176-181 | one window assignment reads back, keeps `window` an object and leaves the other window fields as they were |
| UiConfig.SetWindowConfigEffect | utils/ui_config.py:173-181 | each field given reads back as given, later fields do not disturb earlier ones, and with no field given nothing changes |
| Database.MessageOp | data/database.py:313-330 | a message operation whose every field is the caller's binding when present, else `''`, now, 'received', 0, `None`, 'text' or 'primary' |
| Database.EmergencyOp | data/database.py:341-353 | an emergency operation carrying the source, type, coordinates and message as given, the current time, and not acknowledged |
| Database.NodeOp | data/database.py:362-379 | a node operation with the caller's id, name and local flag (defaults `''`, `''`, `False`), looked up by its own id, first and last seen now |
| Database.PositionOp | data/database.py:387-398 | a position operation with the caller's id, latitude, longitude and altitude, stamped now |
| Database.MetricsOp | data/database.py:405-420 | a metrics operation with the caller's id, battery level and rssi (default `None`), stamped now |
| Database.NodeUpdateOps | data/database.py:360-424 | the node operation always comes first; a position operation follows only when both coordinates are given, then a metrics operation only when a battery level or an rssi is given |
| Database.NodeUpdateOpsRest | data/database.py:386-424 | every operation after the first of a node update is a position or a metrics row, never a node, message or emergency operation |
| Database.Filter | data/database.py:572-585 | a deletion keeps exactly the rows that fail its `WHERE` test |
| Database.FilterAppend | data/database.py:572-585 | a deletion keeps the surviving rows in their order |
| Database.Find | data/database.py:286 | the row a `WHERE key = ?` lookup finds has that key, which is not `NULL`; finding nothing means no row has it |
| Database.FindUnique | data/database.py:52 | under a UNIQUE column a lookup finds the only row with that key |
| Database.Upsert | data/database.py:272-277 | `INSERT OR REPLACE` appends the new row and drops exactly the old row with its key (no row when the key is `NULL`) |
| Database.UpsertKeepsUniqueKeyed | data/database.py:272-277 | an upsert keeps the UNIQUE column unique, and the new row is the one its key then finds |
| Database.UpsertNode | data/database.py:280-288 | the upserted node row has the update's fields, and `first_seen` is kept from the existing row or set to the update's time for a new node |
| Database.ApplyOp | data/database.py:426-469 | a single operation written on its own touches only its own table, and emergency events are written there |
| Database.ApplyAllAppend | data/database.py:426-469 | writing `a` then `b` one by one equals writing `a + b` |
| Database.ProcessBatchAsWritten | data/database.py:245-305 | the batch writer as written: metrics and positions appended in order, and the emergency table never changes |
| Database.ProcessBatch | data/database.py:245-305 | the batch writer with the emergency branch: each group's rows land in their own table in batch order |
| Database.GroupsSnoc | data/database.py:257-268 | each group picks out its own kind of operation and keeps batch order |
| Database.ProcessBatchStep | data/database.py:245-305 | adding one operation to a batch acts as writing it after the rest |
| Database.ProcessBatchIsSequential | data/database.py:245-305 | the grouped batch write equals writing its operations one at a time, in queue order, with the single-operation writer |
| Database.ProcessBatchSplit | data/database.py:229-240 | how the stream is cut into batches does not matter: two batches in a row act as their concatenation |
| Database.EmergencyEventsDroppedAsWritten | data/database.py:257-268 | an emergency event in a batch is written by the corrected writer but not by the writer as written |
| Database.ProcessBatchAgreesWithoutEmergencies | data/database.py:245-305 | on batches without emergency events the corrected writer and the written one agree |
| Database.ApplyOpKeepsWellKeyed | data/database.py:52-66 | every single write keeps the UNIQUE message and node ids unique |
| Database.ApplyAllKeepsWellKeyed | data/database.py:52-66 | any sequence of writes keeps the UNIQUE message and node ids unique |
| Database.NodeUpdateFirstSeen | data/database.py:281-288 | an update of a known node keeps its `first_seen` and sets `last_seen` to the update's time |
| Database.NewNodeFirstSeen | data/database.py:366-378 | a new node gets `first_seen = last_seen = now` |
| Database.IdlessMessagesOverwrite | data/database.py:318 | two messages without an id both get `''`, and only the later one is stored |
| Database.CleanupOldData | data/database.py:563-587 | messages, positions, metrics and connection events keep exactly the rows not older than the cutoff; nodes, emergency events and profiles are untouched |
| Database.CleanupIdempotent | data/database.py:563-587 | a second cleanup with the same cutoff deletes nothing more |
| Database.CleanupKeepsOrderAndKeys | data/database.py:572-587 | cleanup never reorders the surviving rows and keeps the UNIQUE columns unique |
| Database.NewLogger | data/database.py:32 | the batch queue is created without a `maxsize`, so it is unbounded |
| Database.Submit | data/database.py:331-335 | `put_nowait` appends when the queue is not full; on Full the operation is written at once |
| Database.SubmitAllEnqueues | data/database.py:331-335 | on an unbounded queue every submission is enqueued and nothing is written directly, so the fallbacks are unreachable |
| Database.LoggingOnlyEnqueues | data/database.py:354-358 | queueing a message, a node update or an emergency event only enqueues its operations, in order, and writes nothing (also lines 381-384) |
| BatchWriter.Start | data/database.py:219-220 | the loop starts with an empty batch |
| BatchWriter.Flush | data/database.py:230-233 | with the corrected writer, a flush writes the batch, empties it and restarts the timer |
| BatchWriter.Step | data/database.py:222-240 | with the corrected writer, a received operation is appended and the batch flushes when it reaches 50 items or the timeout has passed; an idle timeout flushes a non-empty batch |
| BatchWriter.StepPreserves | data/database.py:222-240 | with the corrected writer, one iteration keeps the pending batch below 50 and loses or duplicates no operation |
| BatchWriter.Run | data/database.py:218-240 | with the corrected writer, after any run the pending batch holds fewer than 50 operations, everything received is written or pending in order, and after an idle timeout all of it is written |
| BatchWriter.StepConserves | data/database.py:222-240 | with the corrected writer, the loop body keeps the conservation invariant |
| BatchWriter.FullBatchFlushes | data/database.py:229-233 | the fiftieth operation flushes the batch whatever the clock says |
| BatchWriter.EmergencyEventWritten | data/database.py:225-240 | with the corrected writer an emergency event followed by an idle timeout reaches the emergency table |
| BoundedQueue.PutNowait | data/database.py:331-335 | `put_nowait` raises Full exactly at capacity, else appends the item |
| BoundedQueue.GetNowait | data/database.py:601-605 | `get_nowait` raises Empty exactly when empty, else yields the oldest item |
| BoundedQueue.UnboundedNeverFull | data/database.py:32 | a queue without `maxsize` never refuses an item |
| BoundedQueue.PutThenGet | data/database.py:331-332 | first in, first out on an empty queue |
| ConnectionPool.InitPool | data/database.py:190-195 | the pool starts with `pool_size` fresh connections in a queue of that capacity |
| ConnectionPool.Acquire | data/database.py:200-207 | a pooled connection when there is one, else a temporary connection |
| ConnectionPool.Release | data/database.py:208-214 | the connection goes back to the pool unless it is full, in which case it is closed |
| ConnectionPool.PoolNeverOverfills | data/database.py:197-214 | however threads interleave, the pool never holds more than `pool_size` connections |
| ConnectionPool.UseAloneRotates | data/database.py:198-214 | used alone, a `with` block hands its pooled connection back, and a temporary one is kept rather than closed |
| ConnectionPool.Close | data/database.py:599-605 | `close` takes out and closes every pooled connection, oldest first, leaving the pool empty |
| DeviceInterface.Init | core/meshtastic_interface.py:31-40 | a new adapter is "Disconnected" and not connected |
| DeviceInterface.LogMessage | core/meshtastic_interface.py:124-131 | a record is queued only when there is a database manager; otherwise nothing changes |
| DeviceInterface.ConnectTarget | core/meshtastic_interface.py:100-102 | a TCP connection with the parameter "auto", in any letter case, targets "localhost"; any other parameter is used as given |
| DeviceInterface.Connect | core/meshtastic_interface.py:64-156 | without the library nothing changes and the callback gets failure; otherwise success exactly when the device opens and validates, which leaves the adapter connected; any failure leaves the status "Failed" with validation untouched, and the callback gets the open error as raised or, for a device that does not validate, the full not-responding text of lines 114-118 |
| DeviceInterface.ConnectionEventsHaveNoId | core/meshtastic_interface.py:125-131 | a connection event is queued with no `message_id`, so it is stored under `''` with status 'received' |
| DeviceInterface.RecordLacksIdAndStatus | core/meshtastic_interface.py:144-151 | the connection-event record binds neither `message_id` nor `status` |
| DeviceInterface.RecordTypeAndTime | core/meshtastic_interface.py:125-130 | the connection-event record is typed 'connection_event' and stamped with the attempt's time |
| DeviceInterface.Disconnect | core/meshtastic_interface.py:183-203 | with no interface nothing changes; otherwise, whether closing raised or not, the interface is dropped, the status is "Disconnected", validation is cleared and the nodes are emptied |
| DeviceInterface.SendMessage | core/meshtastic_interface.py:205-248 | refused unless connected and able to send text; a successful send tracks the id as 'sent' and changes nothing else about the connection |
| DeviceInterface.UpdateRegion | core/meshtastic_interface.py:340-368 | refused unless connected and the interface has a local node; an unknown region is rejected before the device is touched; a missing local configuration and a missing LoRa section raise their two distinct errors; it succeeds exactly when all of these are present and `writeConfig("lora")` does not raise, and the value written is the region's enum |
| DeviceInterface.UpdateRegionRoundTrip | core/meshtastic_interface.py:348-357 | the enum written reads back, through the reversed table, as the same region name |
| DeviceInterface.MessageText | core/meshtastic_interface.py:480-486 | with Python's `in`: no `decoded` gives ""; a `text` key gives its value from a dict and raises on a string or list, which cannot be indexed by a key; otherwise a `payload` gives the note with its length, raising when `decoded` is not a dict or the payload has no length; a string or list naming neither key gives ""; any other `decoded` raises |
| DeviceInterface.PayloadLen | core/meshtastic_interface.py:486 | `len()` is defined exactly for strings, lists and dicts, and counts their characters, items or entries |
| DeviceInterface.MessageType | core/meshtastic_interface.py:503 | 'text' exactly for non-empty text not starting with "[Binary"; raises for a truthy non-string |
| DeviceInterface.ReceivedRecord | core/meshtastic_interface.py:471-505 | a record is built exactly when reading the text and choosing its type do not raise (so also for a string or list `decoded` naming neither key, which gives ""), and then carries the packet's sender, recipient, hop limit, rssi and snr |
| DeviceInterface.BinaryPayloadIsBinary | core/meshtastic_interface.py:485-503 | a packet carrying only a payload is logged as 'binary' |
| DeviceInterface.TextlessDecodedStringIsBinary | core/meshtastic_interface.py:480-503 | a packet whose `decoded` is the string "hello" gets the text "" and is logged, typed 'binary' |
| DeviceInterface.ProcessReceivedMessage | core/meshtastic_interface.py:471-510 | only the message log changes; a record that can be built is queued, and a packet that is not a dict or whose record raises changes nothing |
| DeviceInterface.ReceivedFieldsRow | core/meshtastic_interface.py:493-505 | the received record becomes a message row with its id, status 'received', its type and the 'primary' channel the record leaves out |
| DeviceInterface.ReceivedRecordRow | core/meshtastic_interface.py:493-505 | a logged received message has its id, status 'received', channel 'primary', the current time and the type chosen from its text |
| DeviceInterface.Coordinates | core/meshtastic_interface.py:537 | the coordinate test passes for a dict holding both keys; it raises exactly when `position` is neither a dict, a string nor a list |
| DeviceInterface.NodeRecord | core/meshtastic_interface.py:518-552 | building the record raises exactly when the number is not one whose text the model spells out, `user` is not a dict, the coordinate test raises or passes on a non-dict, or `deviceMetrics` is truthy and not a dict |
| DeviceInterface.NodeRecordRows | core/meshtastic_interface.py:536-552 | a node record leads to a position row exactly when the coordinate test passes, which happens only for a dict `position` (a string or list naming both keys raises instead), and to a metrics row exactly when `deviceMetrics` is non-empty |
| DeviceInterface.TextPositionQueuedWithoutFix | core/meshtastic_interface.py:518-556 | a node whose `position` is the string "x" is queued, without a position |
| DeviceInterface.ProcessNodeUpdate | core/meshtastic_interface.py:512-561 | a falsy update, and one whose number is a list or dict (unhashable, line 519), changes nothing; otherwise the node replaces the entry for its number and its record is queued, and a record that cannot be built leaves the log alone |
| DeviceInterface.MarkStatus | core/meshtastic_interface.py:566-568 | a tracked, truthy id gets the new status; a missing or untracked id changes nothing; no other entry changes |
| DeviceInterface.HandleAck | core/meshtastic_interface.py:573-581 | an acknowledgement marks its tracked id 'delivered' and changes nothing else |
| DeviceInterface.HandleRoutingError | core/meshtastic_interface.py:563-571 | a routing error marks its tracked id 'failed' and changes nothing else |
| DeviceInterface.MessageStatus | core/meshtastic_interface.py:595-596 | an untracked id reads 'unknown'; a tracked one reads its status |
| DeviceInterface.SendThenAcknowledge | core/meshtastic_interface.py:221-226 | a sent message reads 'sent'; an acknowledgement with its id makes it 'delivered' and a routing error 'failed' (lines 563-581) |
| DeviceInterface.MarkedStatus | core/meshtastic_interface.py:576-578 | marking a tracked message by a packet carrying its id gives it the new status |
| DeviceInterface.NumericIdsMatchNothing | core/meshtastic_interface.py:566-578 | an acknowledgement or routing error with a numeric id matches none of the string ids tracked, so nothing changes |
| DeviceInterface.HandleMessage | core/meshtastic_interface.py:449-469 | each queued event goes to its handler: established sets "Connected", lost sets "Disconnected" and clears validation, unknown events change nothing |
| DeviceInterface.LostThenEstablishedStaysDisconnected | core/meshtastic_interface.py:456-462 | after a lost connection, an established event restores the status text but not `is_connected` |
| DeviceInterface.EventsKeepConnection | core/meshtastic_interface.py:449-469 | no event other than a lost connection changes whether the adapter is connected (`is_connected`, lines 587-589) |
| Emergency.AddContact | ui/emergency_ui.py:416-439 | an add is refused as missing when the stripped name or node id is empty, refused as a duplicate exactly when both are present and the stripped id is already listed, and otherwise appends exactly one contact built from the stripped fields |
| Emergency.AddKeepsUnique | ui/emergency_ui.py:428-439 | adding to a list whose node ids are distinct keeps them distinct |
| Values.TreeCell | ui/emergency_ui.py:467-468 | a tree cell comes back as a number exactly when `int()` accepts its text, and as the text itself otherwise (also ui/config_ui.py:739-741) |
| Values.TreeCellOfInt | ui/emergency_ui.py:467-468 | the decimal text of any integer comes back from the tree as that integer |
| Emergency.RemoveContact | ui/emergency_ui.py:458-471 | corrected: with the selected id compared as the text the tree shows, no contact carries it after removal, and a contact survives exactly when it was present and carries another id |
| Emergency.RemoveContactAsWritten | ui/emergency_ui.py:467-471 | as written: a contact survives exactly when Python's `!=` separates its text id from the cell as the tree hands it back, so a numeric cell removes nothing and any other cell removes as the corrected member does |
| Emergency.PickerContactSurvivesRemoval | ui/emergency_ui.py:467-471 | a contact whose id is a node number (as the picker at lines 742 and 770 fills it in) stays after its removal as written, and goes when compared as text |
| Emergency.AddThenRemoveAsWritten | ui/emergency_ui.py:416-471 | as written, removing a contact just added restores the list exactly when its id is not a number, and otherwise leaves the contact in place |
| Emergency.RemoveAbsent | ui/emergency_ui.py:471 | removing an id nobody carries leaves the list unchanged |
| Emergency.AddThenRemove | ui/emergency_ui.py:416-471 | with the corrected removal, removing the id of a contact just added restores the list as it was before the add |
| Emergency.Rank | ui/emergency_ui.py:402-403 | the sort key is 0 exactly for "High", 2 exactly for "Low", and 1 for "Normal" and every unknown priority |
| Emergency.NotifyOrder | ui/emergency_ui.py:402-403 | the notification order is a permutation of the contact list that is sorted by rank |
| Emergency.InsertByRankPermutes | ui/emergency_ui.py:402-403 | one insertion step of the sort adds the contact and loses none |
| Emergency.InsertByRankSorted | ui/emergency_ui.py:402-403 | one insertion step keeps a rank-sorted list sorted |
| Emergency.NotifyOrderGrouped | ui/emergency_ui.py:402-405 | the sort is stable: it equals the High contacts, then the Normal and unknown ones, then the Low ones, each group in list order |
| Emergency.Notify | ui/emergency_ui.py:395-413 | nobody is messaged while disconnected; when connected there is one message per contact and exactly the listed node ids are messaged |
| Emergency.NodeName | ui/emergency_ui.py:729-739 | the shown name is a truthy long name, else a truthy short name, else "Node <id>" |
| Emergency.NodeLabels | ui/emergency_ui.py:742-743 | there is one label per node and each is "<name> (<id>)" for that node's shown name |
| Emergency.RefreshAvailableNodes | ui/emergency_ui.py:711-754 | a placeholder exactly when disconnected, another exactly when connected with no nodes, and otherwise a sorted rearrangement of the nodes' labels |
| Emergency.ParseSelection | ui/emergency_ui.py:762-773 | a selection is ignored exactly when it has no "("; otherwise the name is a prefix of it free of " (" and the id holds no "(" and does not end in ")" |
| Emergency.LabelRoundTrip | ui/emergency_ui.py:742-773 | parsing the label built from a name without " (" and an id without "(" or a trailing ")" gives back that name and id |
| Emergency.ActivateBeacon | ui/emergency_ui.py:231-287 | without a connection or a confirmation, or when the broadcast raises, nothing happens: the flag is kept and nothing is logged or sent; otherwise the beacon becomes active, is broadcast first and logged once with the position when there is one (and none otherwise), and only a beacon with a position goes on to the contacts |
| Emergency.CancelEmergency | ui/emergency_ui.py:365-389 | only a confirmed cancel of an active beacon does anything; when the broadcast made while connected raises, the beacon stays active and nothing is logged; otherwise the flag is cleared, one cancellation is logged, and the broadcast and the contacts' messages go out only while connected |
| Emergency.BeaconThenCancel | ui/emergency_ui.py:258-386 | when neither broadcast raises, a confirmed beacon then a confirmed cancel leave the beacon inactive; the batch writer as written stores neither event, the corrected one stores both in order |
| Emergency.FailedBroadcasts | ui/emergency_ui.py:255-287 | a beacon whose broadcast raises stays inactive and unlogged, so a later cancel does nothing; a cancel whose broadcast raises leaves an active beacon active, with nothing logged or sent (also lines 374 and 388-389) |
| Emergency.MedicalLines | ui/emergency_ui.py:597-602 | there is at most one medical line per field |
| Emergency.MedicalLinesEmpty | ui/emergency_ui.py:597-604 | there are no medical lines exactly when no field's stripped value is non-empty |
| Emergency.MedicalLinesMembers | ui/emergency_ui.py:597-602 | every line is "<Field Label>: <value>" for some filled-in field, and every filled-in field gives its line |
| Emergency.IncludeMedicalAsWritten | ui/emergency_ui.py:594-608 | as written: nothing is added exactly when no field is filled in; otherwise the typed message is kept as a prefix and followed by more text |
| Emergency.MedicalSeparator | ui/emergency_ui.py:605-607 | as written the typed message is followed by a backslash rather than a line break; corrected, by a line break, so the first line is the typed message |
| Emergency.IncludeMedical | ui/emergency_ui.py:594-608 | corrected: nothing is added exactly when no field is filled in; otherwise the typed message is kept as a prefix |
| Emergency.IncludeMedicalLines | ui/emergency_ui.py:594-608 | corrected, the message splits into the typed message, a blank line, the heading and one line per filled-in field |
| ConfigPanel.CheckInterval | ui/config_ui.py:883-908 | refused exactly while disconnected; otherwise a field that `int()` rejects is refused as not a number, and the value is sent exactly when it parses to a number within the inclusive range, which is then the number sent |
| ConfigPanel.UpdateGpsInterval | ui/config_ui.py:883-893 | the update interval sent to the device is always the typed whole number and lies in [1, 3600] |
| ConfigPanel.UpdateGpsBroadcast | ui/config_ui.py:910-920 | the broadcast interval sent to the device is always the typed whole number and lies in [30, 86400] |
| ConfigPanel.IntervalFieldRoundTrip | ui/config_ui.py:889-893 | typing a number's decimal text sends exactly that number when it is in range and refuses it as out of range otherwise, for both fields |
| ConfigPanel.ListedNames | ui/config_ui.py:622-627 | the listed profile names are exactly the names of stored profiles that are not reserved and whose JSON decodes |
| ConfigPanel.LoadProfiles | ui/config_ui.py:609-631 | the list starts with "Default", holds no reserved name after it, and lists every stored profile that is not reserved and decodes, and nothing else |
| ConfigPanel.LoadedConfig | ui/config_ui.py:622-626 | with unique profile names, every listed profile is bound to the configuration its own JSON decodes to |
| ConfigPanel.SaveProfile | ui/config_ui.py:411-440 | refused exactly when the stripped name is empty; otherwise the new row is stored under the stripped name as the only row of that name, and every row of another name is kept |
| ConfigPanel.DeleteProfile | ui/config_ui.py:495-511 | refused exactly for an empty selection or "Default"; unconfirmed it changes nothing, confirmed it keeps exactly the rows of other names |
| ConfigPanel.SaveThenLoad | ui/config_ui.py:411-631 | a profile saved under a usable, unreserved name with decodable JSON is listed after a reload, bound to that configuration |
| ConfigPanel.SaveThenDelete | ui/config_ui.py:411-511 | saving then deleting a profile leaves exactly the other profiles in order, and restores the table when the name was new |
| ConfigPanel.AddDevice | ui/config_ui.py:698-720 | a device is added exactly when none of the three answers is cancelled or empty, and is then appended with status "Added" |
| ConfigPanel.RemoveDevice | ui/config_ui.py:731-745 | corrected: with the selected name and path compared as the text the tree shows, a device survives exactly when it was present and does not match both |
| ConfigPanel.RemoveDeviceAsWritten | ui/config_ui.py:739-745 | as written: a device survives exactly when its text name and path are not both equal to the cells as the tree hands them back, so a numeric name or path removes nothing |
| ConfigPanel.NumericNameSurvivesRemoval | ui/config_ui.py:739-745 | a device named by a number stays after its removal as written, and goes when compared as text |
| ConfigPanel.AddThenRemoveAsWritten | ui/config_ui.py:698-745 | as written, removing a device just added restores the list exactly when neither its name nor its path is a number, and otherwise leaves it in place |
| ConfigPanel.RemoveDeviceKeepsOrder | ui/config_ui.py:744-745 | removal keeps the survivors in order: it distributes over concatenation |
| ConfigPanel.AddThenRemove | ui/config_ui.py:698-745 | with the corrected removal, adding a device whose name and path are new and then removing it by them restores the list |
| ConfigPanel.SerialRows | ui/config_ui.py:668-679 | a serial row is offered exactly for each found port that is not already a managed device's path |
| ConfigPanel.TcpRows | ui/config_ui.py:682-692 | a TCP row is offered exactly for each common host that is not already a managed TCP device's path |
| ConfigPanel.OfferedRows | ui/config_ui.py:665-692 | the offered rows are exactly the free serial ports (none when the port scan raised) and the free common TCP hosts, with every TCP row after every serial row |
| ConfigPanel.ScanDevices | ui/config_ui.py:642-696 | no new list exactly when the library is unavailable: the scan returns before clearing the tree, so the previous list stays; otherwise the managed devices come first in order, followed by exactly the offered rows, TCP rows last |
| ConfigPanel.AddThenScan | ui/config_ui.py:698-722 | after an addition the scan lists the new device, with status "Added", right after the earlier managed devices, and no longer offers its path as a free serial port |
| ConfigPanel.UpdateNodeInfo | ui/config_ui.py:326-337 | refused exactly while disconnected; the device is called exactly when a stripped name is non-empty, with the stripped names, which carry no surrounding whitespace |
| ConfigPanel.UpdateNodeInfoIgnoresPadding | ui/config_ui.py:333-337 | stripping the fields first makes no difference to what is sent |
| ConfigPanel.SameStripsSameNodeInfo | ui/config_ui.py:329-337 | two pairs of typed names with the same stripped forms lead to the same outcome |
| Chat.Indicator | ui/chat_ui.py:239-250 | a double tick exactly for status 'delivered', a tick exactly for 'sent', a cross exactly for 'failed', and "?" exactly for every other (or missing) status |
| Chat.Shown | ui/chat_ui.py:236-237 | a node column is never shown empty: the joined name when there is one, else the stored id, else 'Unknown' (also line 254) |
| Chat.Sender | ui/chat_ui.py:253 | the sender reads "You" for the local node whatever name is joined, and is shown like any other node column otherwise |
| Chat.Destination | ui/chat_ui.py:150-154 | the radio is never given "Broadcast": that choice, and only that one, becomes "^all"; every other choice is passed through |
| Chat.SendMessage | ui/chat_ui.py:138-197 | refused exactly while disconnected, ignored exactly for an entry that is empty once stripped, and shown exactly when the radio call does not raise; only then is the stripped message logged from the local node as 'sent' and tracked as 'sent' under its id, and nothing changes otherwise |
| Chat.SentRow | ui/chat_ui.py:165-175 | the stored row of a sent message carries its id, the local node as sender, the destination, the text and status 'sent' |
| Chat.SetStatus | ui/chat_ui.py:211-214 | every row whose message id SQLite finds equal to the parameter gets the new status and every other row is unchanged; the TEXT column compares a number by its decimal text (data/database.py:52) and NULL matches nothing |
| Chat.IdText | data/database.py:52 | an integer or boolean parameter is compared with the TEXT column by its decimal text; other values as they are |
| Chat.IdMatchesText | ui/chat_ui.py:211-214 | a stored text id matches a numeric parameter exactly when it spells that number, and a text parameter exactly when equal |
| Chat.SetStatusTwice | ui/chat_ui.py:211-214 | of two status updates to the same id, only the later one counts |
| Chat.UpdateMessageStatus | ui/chat_ui.py:199-214 | the stored rows get the new status; the tracking table gains no keys, changes only the given id's status, and only when that id is tracked |
| Chat.HandleStatusPacket | ui/chat_ui.py:388-405 | a packet without a truthy id changes nothing; one with an id updates that id's status |
| Chat.SendThenAcknowledge | ui/chat_ui.py:138-405 | a message just sent is shown as the user's with a tick; an acknowledgement carrying its text id would make it tracked as delivered and shown with a double tick, and a routing error would show a cross. The radio is never given that id (it is sent at line 156 and derived at line 163), so this premise does not arise as written; see Chat.NumericAckLeavesSentMessage |
| Chat.NumericAckLeavesSentMessage | ui/chat_ui.py:156-163 | an acknowledgement or a routing error whose packet id is a number leaves a sent message's tracked entry unchanged, and its stored status too unless the text id spells that number (also lines 388-405) |
| Chat.DigitIdMatchesNumericAck | ui/chat_ui.py:199-214 | a stored id made of the digits of a non-zero packet number is marked delivered by an acknowledgement and failed by a routing error with that number, while the tracking entry under that text stays as it was |
| Chat.Destinations | ui/chat_ui.py:374-382 | the refresh raises exactly when some node is not a dictionary, or its `user` is not a dictionary and `'longName' in user` either raises or holds; otherwise "Broadcast" comes first, followed by exactly the long names of the nodes that have one, at most one per node |
| Chat.StoredNodeOffered | ui/chat_ui.py:374-382 | when no stored node makes the refresh raise, a node the adapter has just stored with a long name is offered as a destination under that name |
| Chat.NullUserRaises | ui/chat_ui.py:377-378 | a node whose `user` is `None` makes the refresh raise |
| Chat.SearchTerm | ui/chat_ui.py:272-276 | a search runs exactly when the stripped term has at least two characters, and uses the stripped term |
| Chat.SearchTermIgnoresPadding | ui/chat_ui.py:274-276 | whitespace around the term changes nothing |
| NetworkView.LevelColour | ui/network_ui.py:195-200 | green exactly above 75, orange exactly above 25 up to 75, red exactly at 25 or below |
| NetworkView.LevelColourMonotone | ui/network_ui.py:195-200 | a fuller battery never gets a worse colour |
| NetworkView.BatteryColour | ui/network_ui.py:190-200 | gray exactly for the 'N/A' default, the level's colour for a number, and a raise exactly for any other value |
| NetworkView.LinkStrength | ui/network_ui.py:227 | a node without rssi gives a 'poor' link; the link is 'good' exactly for a numeric rssi above -80, and a non-numeric rssi raises |
| NetworkView.AddRemote | ui/network_ui.py:184-228 | a node, `user` or `deviceMetrics` that is not a dictionary raises at once and leaves the topology unchanged; otherwise a remote node adds only itself to the node table and only its own one-hop link from "LOCAL" to the links, keeping every earlier link; when it is processed without a raise it is in the table, and it is linked whenever "LOCAL" is |
| NetworkView.AddRemoteKeepsLinks | ui/network_ui.py:184-228 | after a remote node is added every link still runs one hop from "LOCAL" to a node in the table, under the key "LOCAL-<id>" |
| NetworkView.AddRemoteLocal | ui/network_ui.py:156-228 | a remote node other than "LOCAL" neither adds nor removes the local device, and adds no link while the local device is absent |
| NetworkView.BuildNetwork | ui/network_ui.py:148-228 | every link of the refreshed topology runs one hop from "LOCAL" to a node in the table, and the table holds only "LOCAL" (when connected) and the adapter's nodes |
| NetworkView.BuildLocal | ui/network_ui.py:156-228 | with no remote id spelled "LOCAL", the local device is in the table exactly when connected, and there are no links while disconnected |
| NetworkView.BuildComplete | ui/network_ui.py:183-228 | a refresh that runs to the end has an entry for every node of the adapter and, when connected, one link to each |
| NetworkView.CountActive | ui/network_ui.py:322 | the active count is every node exactly when all are local or heard from, and none exactly when none is |
| NetworkView.CountActiveAppend | ui/network_ui.py:322 | the active count adds up over consecutive stretches of the node table |
| NetworkView.SumHopsAppend | ui/network_ui.py:327 | the hop sum adds up over consecutive stretches of the links |
| NetworkView.Mean | ui/network_ui.py:327 | the average times the link count is the hop sum |
| NetworkView.MaxHops | ui/network_ui.py:333 | the diameter bounds every link's hops and is reached by one of them, and is 0 with no links |
| NetworkView.SumHopsAtMost | ui/network_ui.py:326-333 | a hop sum is at most the link count times any bound on the hops |
| NetworkView.Statistics | ui/network_ui.py:318-333 | the node and link totals are the table sizes and the active count is the number of local or heard-from nodes; with no links the average and the diameter are 0; otherwise the average is the hop sum divided by the link count, the diameter is the largest hop count, and the average does not exceed it |
| NetworkView.BuiltStatistics | ui/network_ui.py:220-333 | in a topology as refreshed, with at least one link, the average hop count and the diameter are both 1 |
| NetworkView.ConnectionsOf | ui/network_ui.py:404-423 | every link touching the node gives a row and no other link does; a row carries its link's hops and signal and is named by the link's other end; there are never more rows than links |
| NetworkView.ConnectionsOfAll | ui/network_ui.py:412-423 | there is one row per link exactly when every link touches the node |
| NetworkView.ConnectionsOfNone | ui/network_ui.py:412-423 | there are no rows exactly when no link touches the node |
| NetworkView.ConnectionsOfAppend | ui/network_ui.py:412-423 | the rows keep link order: those of earlier links come first |
| NetworkView.LocalSeesEveryLink | ui/network_ui.py:404-423 | in a topology as refreshed the local device has one row per link, each one hop away |
| NetworkView.Place | ui/network_ui.py:449-461 | placement keeps the node ids and every attribute but the position, and puts "LOCAL" at (300, 200) |
| NetworkView.AutoLayout | ui/network_ui.py:437-461 | auto-layout keeps the links, the node ids in order and every attribute but the position, and puts "LOCAL" at (300, 200) |
| NetworkView.AutoLayoutIdempotent | ui/network_ui.py:437-461 | laying out twice is laying out once |
| MapView.InternetAvailable | ui/map_ui.py:109-116 | the tile server counts as reachable exactly when it answers status 200; a request that raises counts as unreachable |
| MapView.UseRealMap | ui/map_ui.py:119 | tiles are used exactly when the map library imported and the tile server is reachable |
| MapView.InitializeMap | ui/map_ui.py:124-137 | the tile map is shown exactly when it is wanted and builds; otherwise the plot is shown and the tile flag ends cleared |
| MapView.FrameTitle | ui/map_ui.py:391-406 | the title ends in "Online)" exactly when tiles are used; otherwise it names the missing internet first and the missing library only when the internet is there |
| MapView.TitleAfterStartup | ui/map_ui.py:93-137 | if the reachability check, which may take ten seconds, finishes before the map is created one second after start-up, the title says "Online" exactly when the tile map is shown, and a tile map that failed to build leaves a plot titled with no reason; if it has not finished, the plot is shown and titled offline (also lines 29-30 and 391-406) |
| MapView.MarkerColour | ui/map_ui.py:709-716 | a `deviceMetrics` that is not a dictionary raises; otherwise, with the battery level taken as 0 when missing, the marker is green exactly above 75 and red exactly at 25 or below, a missing level gives red, and a level that is not a number raises (also lines 787-794) |
| MapView.MarkerColourAgrees | ui/map_ui.py:709-716 | the map and the network view colour a battery reading alike; a node without a reading is red on the map but gray in the network view; a `deviceMetrics` that is not a dictionary raises in both (also ui/network_ui.py:185-200) |
| MapView.RemoteMarker | ui/map_ui.py:702-718 | a node is skipped exactly when it is a dictionary whose `position` lacks a latitude or a longitude; a node, `position` or `user` that is not a dictionary, or a `position` that `in` rejects, raises; a placed marker sits at the node's coordinates in one of the three battery colours; an unreadable battery level raises (also lines 779-796) |
| MapView.Collect | ui/map_ui.py:702-718 | the marker list is missing exactly when some node raises |
| MapView.CollectPlaced | ui/map_ui.py:702-718 | the markers are exactly the ones the nodes place |
| MapView.RemoteMarkersPlaced | ui/map_ui.py:700-718 | a marker is on the map exactly when some positioned node places it |
| MapView.Markers | ui/map_ui.py:692-718 | the local device's marker, "<name> (You)", comes first when it has a position, followed by the remote markers; nothing is drawn when a remote node raises (also lines 770-796) |
| MapView.UnpositionedNotDrawn | ui/map_ui.py:700-703 | when every node is a dictionary whose position lacks a coordinate, no remote marker is drawn |
| MapView.Zoom | ui/map_ui.py:746-753 | zoom 8 exactly above a 1-degree span, 12 exactly above 0.1, 15 exactly above 0.01, and 17 otherwise |
| MapView.ZoomMonotone | ui/map_ui.py:746-753 | a wider span never gets a closer zoom |
| MapView.FitViewInside | ui/map_ui.py:725-755 | the map is centred inside the markers' bounding box, and markers all at one place get that place at zoom 17 |
| MapView.PaddedBox | ui/map_ui.py:806-819 | the padded box contains every marker's latitude and longitude |
| MapView.PlotInside | ui/map_ui.py:821-836 | every plotted marker lands within the 30-pixel margin of the 400-pixel canvas on both axes |
| MapView.PlotEastIsRight | ui/map_ui.py:832-836 | a marker further east is never plotted further left |
| MapView.PlotNorthIsUp | ui/map_ui.py:827-831 | a marker further north is never plotted lower |
| MapView.SameLatitudeMiddleRow | ui/map_ui.py:827-831 | markers all on one latitude are plotted on the middle row, y = 200 |
| MapView.DistanceCell | ui/map_ui.py:641-646 | "N/A" exactly without a distance, metres (under 1000) exactly below one kilometre, kilometres (at least 1) otherwise |
| MapView.DistanceCellRoundTrip | ui/map_ui.py:641-646 | the figure shown, read back in kilometres, is the distance computed |
| MapView.NodeDistance | ui/map_ui.py:635-646 | a `position` that `in` rejects raises; there is no distance when the node lacks a coordinate or the local device has no position, and a distance needs both; a metre figure is always under 1000 (also lines 564-567) |
| MapView.LayerChanged | ui/map_ui.py:289-310 | a switch is ignored without a tile map or while one is pending; otherwise it is applied and stays pending unless applying it raised |
| MapView.LayerSwitchComplete | ui/map_ui.py:312-314 | completion clears the pending flag and keeps the map |
| MapView.LayerSwitchDebounced | ui/map_ui.py:289-314 | a second request before the first switch completes is dropped; after completion, or after a failed apply, the next one is applied |
| Analytics.Readings | ui/analytics_ui.py:222-227 | the readings exist exactly when every node is a dictionary whose `deviceMetrics` is a dictionary and whose battery level is missing, `None` or a number; there is at most one per node |
| Analytics.ReadingsAreLevels | ui/analytics_ui.py:222-227 | every reading is the battery level some node reported |
| Analytics.ReadingsCount | ui/analytics_ui.py:222-227 | when every node reports a number there is one reading per node |
| Analytics.AverageBattery | ui/analytics_ui.py:211-234 | no average without nodes; an average exactly when no node raises and at least one node reports a level |
| Analytics.NullMetricsGiveNoAverage | ui/analytics_ui.py:222-227 | a node whose `deviceMetrics` is `None` leaves no average, even beside a node reporting 50 |
| Analytics.AverageBetweenReadings | ui/analytics_ui.py:229 | the average lies between the lowest and the highest reading |
| Analytics.AverageIgnoresUnreported | ui/analytics_ui.py:224-227 | a node reporting no battery level leaves the average as it was |
| Analytics.AverageOfEqualReadings | ui/analytics_ui.py:219-229 | nodes all reporting one level average to that level |
| Analytics.ShownAverage | ui/analytics_ui.py:203-204 | the label shows the average exactly when there is one and it is not 0, which reads "N/A" |
| Analytics.Hours | ui/analytics_ui.py:255-256 | a time-range choice has hours exactly when it is one of the listed labels, and they are positive (also lines 323-324) |
| Analytics.HoursOfShortChoices | ui/analytics_ui.py:256 | "1 hour", "6 hours" and "24 hours" are 1, 6 and 24 hours |
| Analytics.HoursOfLongChoices | ui/analytics_ui.py:256 | "7 days" and "30 days" are 168 and 720 hours, and an empty choice has none |
| Analytics.Active | ui/analytics_ui.py:416-417 | a node that is not a dictionary raises, as does a truthy `lastHeard` that is not a number; a dictionary node without a truthy `lastHeard` is inactive; a node is active exactly when it is a dictionary whose `lastHeard` is a truthy number later than an hour ago |
| Analytics.HealthSplit | ui/analytics_ui.py:413-418 | the split exists exactly when no node raises, and then active plus inactive is the node count |
| Analytics.ActiveNeverGrowsWithTime | ui/analytics_ui.py:416-417 | as time passes with no news the active count never grows |
| Analytics.UnheardIsInactive | ui/analytics_ui.py:416-418 | a node never heard from is counted inactive |
| App.WindowSize | main.py:56-63 | without the preferences store the window is 1200 x 800; with it, start-up fails exactly when the saved `window` is not a dictionary, and otherwise a stored width or height is used and a missing width is 1200 and a missing height 800 |
| App.NullWindowFailsAtStartup | main.py:58-59 | a saved `window` of `None` makes start-up fail |
| App.DefaultWindowSize | main.py:59-60 | the preferences' own default window gives the same size as running without preferences (also utils/ui_config.py:18-20) |
| App.Dispatch | main.py:300-314 | an event is ignored exactly when its type is none of the six known ones |
| App.DispatchDistinct | main.py:300-314 | two different known event types go to different handlers |
| App.Tick | main.py:290-323 | one tick takes at most five events, fewer only when the queue runs out, from the front in order, each to its handler, and leaves the rest queued |
| App.DrainHandlesAllInOrder | main.py:290-326 | repeated ticks hand every queued event to its handler exactly once and in arrival order, in one tick per five events, rounded up |
| App.UpdateTick | main.py:489-507 | nothing happens while disconnected; when connected the node count and the GPS label are refreshed and the counter advances by one, analytics refreshes exactly on counters divisible by 3 and the network view exactly on even ones, each only when its tab exists |
| App.RunCounts | main.py:489-516 | over k connected ticks from the start, analytics refreshes ceil(k/3) times and the network view ceil(k/2) times |
| App.RunFrom | main.py:489-516 | from any counter, k connected ticks advance it by k and refresh each tab once per multiple of its period passed |
| App.NoTabsNoRefresh | main.py:500-506 | with neither tab present, ticks only advance the counter |
| App.Apply | main.py:380-431 | an attempt disables Connect; success enables only Disconnect and reads "Connected"; failure and disconnection enable only Connect, reading "Connection Failed" and "Disconnected" |
| App.ButtonsNeverBothEnabled | main.py:380-431 | from start-up, Connect and Disconnect are never both enabled, and after any answered attempt exactly one of them is |
| App.GpsLabelFor | main.py:443-476 | corrected: "N/A" while disconnected; "Error" when the query raises; otherwise each known status gets its own label, "disconnected" reads "N/A", and every other status reads "Error" |
| App.GpsLabelAsWritten | main.py:443-476 | as written the GPS query always raises, so the label is what the corrected rule gives for a query that raised |
| App.GpsLabelDiscrepancy | main.py:454-458 | the two agree while disconnected, but a connected device reporting a fix with 7 satellites shows "Error" as written and "Fixed (7 sats)" corrected |
| Responsive.CheckScroll | utils/responsive_ui.py:226-248 | before the canvas is laid out (height at most 1) only a retry happens; afterwards the scrollbar is visible exactly when the content overflows the canvas by more than the threshold, and it is shown or hidden exactly when its visibility disagreed with that |
| Responsive.CheckScrollIdempotent | utils/responsive_ui.py:245-248 | a second check with the same measurements changes nothing |
| Responsive.CheckScrollMonotone | utils/responsive_ui.py:242-243 | more content never hides a scrollbar that less content needed |
| Responsive.SetThreshold | utils/responsive_ui.py:300-303 | the new threshold is kept and, once the canvas is laid out, the scrollbar shows exactly when the content overflows by more than it |
| Responsive.ContentWidth | utils/responsive_ui.py:280-288 | nothing is set while the canvas width is at most 1; otherwise the content gets the whole width, less the scrollbar's width while the scrollbar shows |
| Responsive.ContentWidthFollowsCheck | utils/responsive_ui.py:243-288 | after a check the content is narrowed by the scrollbar exactly when the content overflows |
| Responsive.FallbackBackgroundAsWritten | utils/responsive_ui.py:132-137 | the name-based fallback as written, which line 124 makes unreachable: dark exactly when the lower-cased theme name contains "dark", "cyborg", "solar" or "superhero", and white otherwise |
| Responsive.VaporFallsBackToLight | utils/responsive_ui.py:132-137 | "vapor", which the preferences list as a dark theme, would fall back to white in that unreachable branch (also utils/ui_config.py:51) |
| Responsive.FallbackBackground | utils/responsive_ui.py:132-137 | corrected: the fallback is dark exactly for a theme name with a dark marker or one the preferences list as dark (also utils/ui_config.py:45-58) |
| Responsive.FallbackIgnoresCase | utils/responsive_ui.py:133-134 | the fallback does not depend on the letter case of the theme name |
| Responsive.FallbackExtendsAsWritten | utils/responsive_ui.py:132-137 | the corrected fallback is dark wherever the original is, differs only on listed dark themes, and makes "vapor" dark |
| Responsive.FirstColour | utils/responsive_ui.py:100-120 | the lookups are tried in order and the first non-empty answer wins; there is none exactly when every answer is empty |
| Responsive.ThemeBackground | utils/responsive_ui.py:91-145 | the first non-empty colour the style lookups give is used; when every lookup is empty, the one-argument `theme_settings` call at line 124 raises and the handler at 142-145 gives the dark colour for every theme |
| Responsive.ThemeBackgroundIntended | utils/responsive_ui.py:122-140 | corrected: with the theme-settings step passing through, an empty set of answers reaches the name-based fallback |
| Responsive.LightThemeGetsDarkBackground | utils/responsive_ui.py:122-145 | the two agree whenever some lookup answers; otherwise the light theme "flatly" gets the dark colour as written and white as intended |

## Left out

- Widgets and windowing: tkinter and ttkbootstrap construction, layout, message boxes, dialogs, mouse-wheel bindings and theme application. Confirmations and widget measurements are inputs.
- File and JSON I/O: loading, saving, exporting and importing configuration files, profiles and analytics exports. A file's parsed content, or its failure to parse, is an input.
- SQLite itself: SQL text, PRAGMAs, indexes and VACUUM. Also left out are queries whose meaning rests on SQLite (`datetime('now')`, LIKE, ORDER BY/LIMIT in the history, search, statistics and chart queries). Tables are sequences of rows.
- The Meshtastic library and pubsub: opening interfaces, `sendText`, `setOwner`, `writeConfig` and `findPorts` are oracles. Each device answer is a parameter.
- Device operations that only forward to the library: `reboot`, `factory_reset`, `get_device_info`, `get_local_position`, the adapter's `update_node_info` and the attribute probing in `validate_connection` (only its boolean outcome is modelled).
- Floating-point geometry: the haversine distance in utils/gps.py and ui/map_ui.py, bearings, and the conversion to degrees, minutes and seconds. The network view's hash-based initial positions and the circle layout's trigonometry are parameters of `NetworkView.AutoLayout`.
- Number formatting (`%.1f` and friends): a distance or an average is modelled as the number shown, not as its digits.
- Nondeterminism: md5 message ids and `datetime.now()` are parameters.
- Concurrency and timing: threads, blocking queue reads, `time.sleep` and `root.after` become step functions (`BatchWriter.Step`, `App.Tick`, `App.UpdateTick`) with an explicit clock.
- `import_config` and `reset_to_defaults` in utils/ui_config.py: their effect depends on Python's shallow copies sharing `DEFAULT_UI_CONFIG` with the live configuration. That is object identity, which a value model cannot express.
- UiConfig.LoadConfig: the configuration is a value, so the aliasing between the loaded configuration and the default dictionary through a shallow copy is not modelled.
- ui/settings_ui.py: a form that copies widget values into the configuration store, whose logic `UiConfig` models.
- utils/networking.py, the map's tile and geolocation requests, and the build and diagnostic scripts: network access, subprocesses and image processing. Internet availability is an input of `MapView.InternetAvailable`.
- Directory creation in utils/paths.py: only the path values are modelled.
- The emergency panic button and `send_emergency_message`: they only broadcast text through the device and log the event, and the logging is modelled by `Database.EmergencyOp`.
- The analytics charts: drawing is widget work, and only the numbers behind them are modelled.
- Emergency.NodeName: a truthy long or short name that is a float or a container, rather than text, an integer, a boolean or `None`, is shown as "Node <id>" instead of through Python's `str()`, whose rendering of a double the model does not reproduce.
- ConfigPanel.UpdateGpsInterval: ends at the `Send` outcome. The adapter defines no `set_gps_interval`, so the call a valid value reaches raises, and the panel reports that error.
- ConfigPanel.UpdateGpsBroadcast: ends at the `Send` outcome for the same reason (`set_gps_broadcast_interval` is not defined by the adapter).
- Values.TreeCell: assumes the tree gives a cell back with the text it was given before the `int()` step; it inherits the gaps of `Text.ParseInt` below.
- Text.ParseInt: accepts an optional sign and ASCII digits around surrounding whitespace; underscores between digits and non-ASCII digits, which Python's `int()` also accepts, are read as errors.
- MapView.RemoteMarker: a coordinate that is not a number makes the node's step a raise, so `MapView.Markers` draws nothing. That matches the coordinate plot, whose `min`, `max` and subtraction raise into the update's own handler (ui/map_ui.py:802-806, caught at 669-675). On the tile map the source instead appends the marker and only loses that one marker when the widget rejects it (per-marker handler at ui/map_ui.py:721-725), and skips the auto-fit; the model does not separate the two.
- MapView.TitleAfterStartup: the race between the reachability thread (up to ten seconds) and the map's creation one second after start-up is modelled only as a flag saying whether the check had finished; thread scheduling itself is not modelled.
- Database.ProcessBatch: an exception inside `_process_batch` (data/database.py:247 and 310-311) is not modelled. In the source it loses the rest of the batch, and the writes made before it are neither committed nor rolled back there. The model writes every operation. `Database.ProcessBatchAsWritten` has the same gap.
- BatchWriter.Run: relies on `Database.ProcessBatch` never raising, for the reason above; a batch lost to an exception would break its "written or pending" conservation.
- Text.Lower: lower-cases the ASCII letters only; Python's `str.lower()` also maps non-ASCII letters.
- Text.Title: treats only ASCII letters as letters; Python's `str.title()` is Unicode-aware.
- Floating point: every real-valued quantity is an exact real rather than an IEEE double. This covers coordinates, distances, bearings, spans, zooms and plot positions in `Gps` and `MapView`, battery averages and times in `Analytics`, and the hop average in `NetworkView`. Rounding errors at bucket edges, such as a span just above a zoom threshold, are not modelled.
- Gps.RoundHalfEven: rounds an exact real half to even; a double that is not exactly a half can round differently from the real it approximates.
- NetworkView.Mean: exact division; Python's `/` rounds to the nearest double.
- Analytics.AverageBattery: the mean of exact readings, not the rounded double sum Python forms.
- MapView.PlotInside: proved for exact reals; with doubles a marker at the box edge can land a fraction of a pixel outside the margin.
- DeviceInterface.NodeRecord: a node number that is a float, a timestamp or a container is treated as raising, because the model does not spell out Python's `str()` for those values; the source converts it and queues the record.
- DeviceInterface.ProcessNodeUpdate: for a float or timestamp node number the node is stored but its record is not queued, for the reason given under `DeviceInterface.NodeRecord`.
- Chat.IdText: a float parameter is compared as it is, not by SQLite's text rendering of a REAL; packet ids are integers.
- App.Tick: an exception raised by a handler, which ends the tick's loop early in the source, is not modelled; every handler is total here.
- Responsive.ThemeBackground: a style lookup or `cget` that raises is given as an empty answer; only the certain raise of the one-argument `theme_settings` call at utils/responsive_ui.py:124 is modelled as a raise.

## Findings

| source | as written | input that shows it | evidently intended | confidence | as-written member | corrected member |
|---|---|---|---|---|---|---|
| data/database.py:245-305 | `_process_batch` groups messages, node updates, metrics and positions and has no branch for `log_emergency_event`; the batch queue is unbounded, so every emergency event goes through it and is dropped | a batch holding one `log_emergency_event` operation | each emergency event is inserted into `emergency_events` | not executed | Database.ProcessBatchAsWritten (shown by Database.EmergencyEventsDroppedAsWritten) | Database.ProcessBatch (Database.ProcessBatchIsSequential) |
| main.py:456 | `check_gps_status` calls `get_gps_status()` on the adapter, which does not define it; the error is caught and the label reads "GPS: Error" | any check while connected | the label reflects the device's GPS report | not executed | App.GpsLabelAsWritten (App.GpsLabelDiscrepancy) | App.GpsLabelFor |
| ui/emergency_ui.py:605-607 | the medical block is joined with the two characters backslash and `n` instead of a newline | one filled-in medical field | the medical block starts on new lines, one field per line | not executed | Emergency.IncludeMedicalAsWritten (Emergency.MedicalSeparator) | Emergency.IncludeMedical (Emergency.IncludeMedicalLines) |
| ui/emergency_ui.py:467-471 | the selected node id is read back through the tree's `item()['values']`, which turns an all-digit id into an int; the text ids stored compare unequal to it, so nothing is removed, yet "removed successfully" is shown | the contact ("Alice", "3663785392", "Normal"), added through the node picker, then selected and removed | the selected contact is removed | not executed | Emergency.RemoveContactAsWritten (Emergency.PickerContactSurvivesRemoval, Emergency.AddThenRemoveAsWritten) | Emergency.RemoveContact (Emergency.AddThenRemove) |
| ui/config_ui.py:739-745 | the selected name and path are read back through `item()['values']`, so an all-digit name or path becomes an int that equals no stored text, and the device stays | a managed device named "1", selected and removed | the selected device is removed | not executed | ConfigPanel.RemoveDeviceAsWritten (ConfigPanel.NumericNameSurvivesRemoval, ConfigPanel.AddThenRemoveAsWritten) | ConfigPanel.RemoveDevice (ConfigPanel.AddThenRemove) |
| utils/responsive_ui.py:124 | when every lookup is empty, `style.theme_settings(style.theme.name)` omits the required settings argument; the TypeError is caught at 142-145, which returns the dark colour, so lines 125-137 never run | every lookup empty under the light theme "flatly" | the name-based fallback decides the colour, white for a light theme | not executed | Responsive.ThemeBackground (Responsive.LightThemeGetsDarkBackground) | Responsive.ThemeBackgroundIntended (Responsive.LightThemeGetsDarkBackground) |
| utils/responsive_ui.py:132-137 | dead code behind line 124's TypeError; read as text, the fallback is dark only for names containing dark, cyborg, solar or superhero | the theme "vapor", listed as dark at utils/ui_config.py:51, once line 124 no longer raises | every dark theme of the list gets the dark background | not executed | Responsive.FallbackBackgroundAsWritten (Responsive.VaporFallsBackToLight) | Responsive.FallbackBackground (Responsive.FallbackExtendsAsWritten) |

