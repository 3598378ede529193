# Handheld irrigation controller: menu, BLE list and settings in Dafny

This project models three stateful parts of the T-Embed controller firmware and
its ESPHome components, and proves what they guarantee.

- **Menu navigation** (`src/menu_system.cpp`). The globals `currentMenu`,
  `menuStack`, `selectedIndex`, `buttonPressed` and `lastPos` become the fields
  of the class `MenuRuntime.MenuSystem`. The MQTT messages it publishes are kept
  as an append-only log. Each method is proved to change the state exactly as a
  pure transition of `MenuModel` does. The lemmas about those transitions
  therefore hold of the class.
  - A `MenuItem` is a datatype. Its `std::function` action is a tag (`Action`).
  - The invariant `Valid` says three things: the current menu and every saved
    menu are non-empty, the selection indexes the current menu, and every
    device index in an action is in range. Every transition keeps it.
  - An item that has both subitems and an action is always descended into, and
    its action never runs. "Riego", "BLE Devices", "WiFi", "MQTT" and "HA" are
    all such items. So from the tree `buildMenu` builds, no sequence of button
    presses and encoder turns reaches `buildRiegoMenu` or a watering command,
    and nothing is ever published (`MenuModel.NothingEverPublished`).
  - `goBack` restores the saved menu and resets the selection to 0. It does not
    restore the earlier selection.
  - `update` converts the signed encoder position to the 32-bit unsigned
    `size_t` before taking the remainder. Position -1 on the three-entry root
    menu therefore selects entry 0, not entry 2. The `selectedIndex < 0`
    correction after it can never fire.
- **BLE device list.** The external ESPHome component
  (`ESPhome/external/custom_ble_list_display/`) and the older inline copy
  (`ESPhome/custom_ble_list.h`) share their logic. That logic lives in
  `BleRegistry`:
  - an upsert of a record by MAC, followed by a re-sort by falling RSSI;
  - a scroll offset clamped to `[0, max(n-1, 0)]`;
  - the window of at most 7 (external) or 10 (inline) records that `draw`
    lists from the offset on.

  The two classes `BleListDisplay.CustomBleListDisplay` and
  `BleListInline.CustomBleListDisplay` keep the record vector as a `seq` field.
  They keep the offset and the uniqueness of MACs as an invariant.
- **Settings persistence** (`src/settings_manager.cpp`). The EEPROM image is an
  array of 1024 bytes and the JSON document is a `map` from key to value.
  `begin` reads the image up to its first NUL byte. `set` writes the serialised
  document and then a NUL. The JSON library appears only as a pair of functions
  (`Settings.Codec`). The round-trip lemma takes "parse after serialise is the
  identity" as a hypothesis (`Settings.RoundTrips`).

Some facts about the code that the model keeps:
- menu items cannot be disabled, and moving the encoder reaches every entry of
  the current menu;
- there is no editing mode and no cache of remote state;
- `goBack` resets the selection to 0 rather than restoring it;
- `std::sort` is not stable, so the contracts leave the order of equal signals
  open;
- the device list only grows: no call clears it or evicts a record.

## Model

| member | source | states |
|---|---|---|
| MenuModel.RootMenu | src/menu_system.cpp:204-249 | the root lists "BLE Devices", "Settings" and "HA"; every root entry has subitems; "Riego" under "HA" holds only "< Back"; every action in the tree is well formed |
| MenuModel.Booted | src/menu_system.cpp:203-250 | the state after `buildMenu` satisfies the navigation invariant: non-empty current menu, selection in range, device indices in range |
| MenuModel.Descend | src/menu_system.cpp:184-186 | the old current menu is pushed on top of the unchanged stack, the new menu is shown from entry 0, the log is unchanged, and the invariant is kept for a non-empty menu |
| MenuModel.Back | src/menu_system.cpp:193-200 | on an empty stack nothing changes; otherwise the top saved menu becomes current, it is popped and the rest of the stack stays, and the selection is 0; the invariant and the log are kept |
| MenuModel.Topic | src/menu_system.cpp:43-55 | the command topic is the device's name between `ha/riego/` and `/set` |
| MenuModel.TopicsDistinct | src/menu_system.cpp:43-55 | two devices share a command topic if and only if they are the same device |
| MenuModel.Command | src/menu_system.cpp:42-63 | publishing a watering command and going back keeps the invariant |
| MenuModel.RiegoMenu | src/menu_system.cpp:78-89 | the generated menu has one leaf per watering device, in order, each opening that device's menu, then "< Back"; it is non-empty and well formed |
| MenuModel.DeviceMenu | src/menu_system.cpp:67-71 | three leaves: "Start" and "Delay 1 day" commanding the device, then "< Back"; the menu is well formed if and only if the device exists |
| MenuModel.Perform | src/menu_system.cpp:188-190 | running any action whose device index is in range keeps the navigation invariant |
| MenuModel.Select | src/menu_system.cpp:181-191 | selecting the current entry keeps the navigation invariant |
| MenuModel.PositionIndex | src/menu_system.cpp:276-277 | the encoder position converted to unsigned and reduced modulo the menu size is always a valid index, and for non-negative positions it equals the position modulo the size |
| MenuModel.Turn | src/menu_system.cpp:273-279 | an encoder reading changes only the selection and `lastPos`; an unchanged position leaves the selection alone; the selection stays in range |
| MenuModel.Update | src/menu_system.cpp:271-285 | a poll keeps the invariant and always leaves the button flag cleared |
| MenuModel.Pressed | src/menu_system.cpp:253-255 | the interrupt sets the button flag, changes nothing else, and keeps the invariant |
| MenuModel.Step | src/main.cpp:15-19 | each button interrupt or poll of the main loop keeps the navigation invariant |
| MenuModel.Run | src/main.cpp:15-19 | any sequence of interrupts and polls keeps the navigation invariant |
| MenuModel.PressSelectsOnce | src/menu_system.cpp:281-284 | a pending press makes the next poll select exactly once, after the encoder update; a poll with no press never selects |
| MenuModel.DescendThenBack | src/menu_system.cpp:181-200 | a descent followed by `goBack` restores the menu and the stack exactly, and resets the selection to 0 |
| MenuModel.SelectPolicy | src/menu_system.cpp:181-191 | an item with subitems is descended into and its action never runs; a leaf runs its action; a leaf without an action changes nothing |
| MenuModel.BuildersUndoneByBack | src/menu_system.cpp:67-89 | `buildRiegoMenu` and `buildWateringDeviceMenu` are each undone exactly by one `goBack`, which resets the selection to 0; the device menu shown has three entries |
| MenuModel.CommandsPublishOnce | src/menu_system.cpp:42-63 | start and delay each append exactly one message, to `ha/riego/<device>/set` with payload `start` or `delay`, and then go back |
| MenuModel.NegativePositionWraps | src/menu_system.cpp:276-277 | position -1 selects entry 0 of a three-entry menu, where a mathematical modulo would give 2 |
| MenuModel.StepKeepsStatic | src/menu_system.cpp:203-250 | every interrupt or poll keeps all menus inside the built tree and publishes nothing |
| MenuModel.RunKeepsStatic | src/menu_system.cpp:203-250 | by induction, any sequence of events keeps all menus inside the built tree and leaves the log unchanged |
| MenuModel.NothingEverPublished | src/menu_system.cpp:207 | from the built tree, no sequence of presses and turns ever publishes a message |
| MenuModel.RiegoShowsBackOnly | src/menu_system.cpp:207-208 | turning to "HA", pressing, then pressing on "Riego" shows only its "< Back" submenu, two levels deep |
| MenuRuntime.MenuSystem.constructor | src/menu_system.cpp:27-39 | the globals start with an empty menu and stack, selection 0, no press, `lastPos` -1 and nothing published |
| MenuRuntime.MenuSystem.BuildMenu | src/menu_system.cpp:203-250 | installs the root's children as the current menu and changes nothing else |
| MenuRuntime.MenuSystem.Publish | src/mqtt_client.cpp:23-27 | appends exactly one (topic, payload) message to the log |
| MenuRuntime.MenuSystem.GoBack | src/menu_system.cpp:193-200 | the new state is `Back` of the old one |
| MenuRuntime.MenuSystem.StartWatering | src/menu_system.cpp:42-52 | publishes `start` to the device's topic, then goes back |
| MenuRuntime.MenuSystem.DelayWatering | src/menu_system.cpp:54-64 | publishes `delay` to the device's topic, then goes back |
| MenuRuntime.MenuSystem.BuildWateringDeviceMenu | src/menu_system.cpp:67-76 | pushes the current menu and installs [Start, Delay 1 day, < Back] for the device, with selection 0 |
| MenuRuntime.MenuSystem.BuildRiegoMenu | src/menu_system.cpp:78-89 | the loop builds one entry per watering device plus "< Back"; the method pushes the current menu and installs that menu with selection 0 |
| MenuRuntime.MenuSystem.RunAction | src/menu_system.cpp:188-190 | invoking an item's action changes the state as `Perform` does |
| MenuRuntime.MenuSystem.SelectItem | src/menu_system.cpp:181-191 | the new state is `Select` of the old one |
| MenuRuntime.MenuSystem.HandleButton | src/menu_system.cpp:253-255 | the interrupt sets the flag and changes nothing else |
| MenuRuntime.MenuSystem.Update | src/menu_system.cpp:271-285 | the new state is `Update` of the old one for the encoder reading |
| BleRegistry.IndexOfMac | ESPhome/external/custom_ble_list_display/custom_ble_list_display.cpp:57-59 | the returned position is the first record with the MAC, or the end when no record has it |
| BleRegistry.Upsert | ESPhome/external/custom_ble_list_display/custom_ble_list_display.cpp:57-64 | an unknown MAC is appended; for a known MAC the records keep their place and MAC, the observed RSSI is stored for it, and no other RSSI changes |
| BleRegistry.Insert | ESPhome/external/custom_ble_list_display/custom_ble_list_display.cpp:66-68 | inserting into a sorted vector gives a sorted permutation of the vector plus the record |
| BleRegistry.SortByRssi | ESPhome/external/custom_ble_list_display/custom_ble_list_display.cpp:66-68 | the result is in non-increasing RSSI order and is a permutation of the input |
| BleRegistry.MaxScroll | ESPhome/external/custom_ble_list_display/custom_ble_list_display.cpp:72 | the largest offset is the index of the last record, or 0 for an empty list |
| BleRegistry.ClampScroll | ESPhome/external/custom_ble_list_display/custom_ble_list_display.cpp:71-76 | the offset lies in `[0, max(n-1, 0)]`; an in-range sum is kept, a negative one becomes 0, a too-large one becomes the maximum |
| BleRegistry.ListRows | ESPhome/external/custom_ble_list_display/custom_ble_list_display.cpp:45-49 | the loop lists `min(n - offset, max_show)` rows, the j-th being the record at offset + j |
| BleRegistry.PermutationKeepsUnique | ESPhome/external/custom_ble_list_display/custom_ble_list_display.cpp:66-68 | reordering the records keeps the MACs unique and keeps the set of MACs |
| BleRegistry.UpsertEffect | ESPhome/external/custom_ble_list_display/custom_ble_list_display.cpp:57-64 | a new MAC is appended and a known MAC gets only its RSSI overwritten; MACs stay unique and the count grows by one exactly for a new MAC |
| BleRegistry.ObservationEffect | ESPhome/external/custom_ble_list_display/custom_ble_list_display.cpp:53-69 | after the upsert and the sort, the records are the observed one plus every earlier record of another MAC, with unique MACs and in non-increasing RSSI order |
| BleRegistry.ResortAfterUpdate | ESPhome/external/custom_ble_list_display/custom_ble_list_display.cpp:53-69 | observing AA:BB at -70, CC:DD at -50, then AA:BB at -40 leaves exactly [AA:BB -40, CC:DD -50] |
| BleListDisplay.CustomBleListDisplay.constructor | ESPhome/external/custom_ble_list_display/custom_ble_list_display.h:34-36 | a new component has no font, no records and offset 0 |
| BleListDisplay.CustomBleListDisplay.SetFont | ESPhome/external/custom_ble_list_display/custom_ble_list_display.h:21 | replaces the font and leaves the records and the offset unchanged |
| BleListDisplay.CustomBleListDisplay.DeviceCount | ESPhome/external/custom_ble_list_display/custom_ble_list_display.h:31 | the count is the number of stored records, read without changing anything |
| BleListDisplay.CustomBleListDisplay.OnDeviceFound | ESPhome/external/custom_ble_list_display/custom_ble_list_display.cpp:53-69 | the records become a sorted permutation of the upserted vector; the count grows by one exactly for a new MAC; the records are the observed one plus every earlier record of another MAC; MACs stay unique and the offset stays in range |
| BleListDisplay.CustomBleListDisplay.Scroll | ESPhome/external/custom_ble_list_display/custom_ble_list_display.cpp:71-76 | the offset becomes the clamped sum, and the invariant is kept |
| BleListDisplay.CustomBleListDisplay.Draw | ESPhome/external/custom_ble_list_display/custom_ble_list_display.cpp:32-51 | nothing is drawn without a font; otherwise a heading and then either "No devices found" or the records from the offset on, at most 7 |
| BleListInline.CustomBleListDisplay.constructor | ESPhome/custom_ble_list.h:15 | stores the font and starts with no records at offset 0 |
| BleListInline.CustomBleListDisplay.DeviceCount | ESPhome/custom_ble_list.h:64 | the count is the number of stored records |
| BleListInline.CustomBleListDisplay.OnBleAdvertise | ESPhome/custom_ble_list.h:39-55 | the records become a sorted permutation of the upserted vector, the count grows by at most one, and MACs stay unique |
| BleListInline.CustomBleListDisplay.Scroll | ESPhome/custom_ble_list.h:57-62 | the offset becomes the sum clamped to `[0, max(n-1, 0)]` |
| BleListInline.CustomBleListDisplay.Draw | ESPhome/custom_ble_list.h:21-37 | a heading and then either "No devices found" or the records from the offset on, at most 10 |
| Settings.ReadFrame | src/settings_manager.cpp:12-16 | the text read is a prefix of the image, holds no NUL, and ends at the first NUL or at the end of the image |
| Settings.WriteFrame | src/settings_manager.cpp:28-29 | the text occupies addresses `0..len-1`, a NUL sits at `len`, and the rest of the image is unchanged |
| Settings.FrameRoundTrip | src/settings_manager.cpp:12-29 | `begin` reads back exactly the text `set` wrote if and only if the text holds no NUL; otherwise it reads up to the first NUL |
| Settings.SaveThenLoad | src/settings_manager.cpp:9-30 | given a round-tripping JSON codec, a document that `set` saved is the document a later `begin` loads, when its text fits and holds no NUL |
| Settings.ReadImage | src/settings_manager.cpp:12-16 | the byte-reading loop returns exactly the framed text of the image |
| Settings.SettingsManager.constructor | src/settings_manager.cpp:7 | the document starts empty, over a 1024-byte image |
| Settings.SettingsManager.Begin | src/settings_manager.cpp:9-18 | the document becomes the parse of the text before the first NUL |
| Settings.SettingsManager.Get | src/settings_manager.cpp:20-22 | the stored value for a present key, the empty string for a missing one |
| Settings.SettingsManager.Set | src/settings_manager.cpp:24-31 | the document maps the key to the value and no other key changes; the image holds the serialised document followed by a NUL |

## Left out

- Drawing is left out: the TFT calls, `drawMenu` with its breadcrumb title, the "Started!" and "Delayed 1 day!" screens, `showBLEDevices` and `showHAMenu` as rendering, and `delay()`. Display side effects do not change navigation state. An action whose only effect besides drawing is `goBack` is modelled as `goBack`.
- The rotary encoder, `attachInterrupt` and the hardware set-up in `MenuSystem::begin` are left out. The encoder position is an input of `update`, and the interrupt is the `Press` event that only sets the flag.
- Concurrency between the interrupt and the poll loop is not modelled; events are interleaved one at a time.
- MQTT transport (`src/mqtt_client.cpp`, `src/mqtt_client.h`) is left out. A publish is an append to the log. The real client drops the message when it is disconnected.
- BLE scanning (`src/ble_scanner.cpp`), ESPHome registration and schema code, `setup`/`loop` of the component, `MyBLEListener` and `register_ble_list_display`, and `__init__.py` are framework glue and are left out.
- The text formatting `"%s  %d dBm"` and the pixel positions of `draw` are left out; a drawn record is the record itself.
- Overflow is left out: the model uses unbounded integers for `scroll_pos_ + delta` and the RSSI values. The encoder position is a 32-bit value, and its conversion to unsigned is modelled exactly.
- BleRegistry.SortByRssi: it is one particular sort, which reverses the order of equal signals. The class contracts promise only what `std::sort` does: the result is sorted and is a permutation, with tie order open.
- ArduinoJson is not modelled. Serialisation and parsing are the two functions of a `Codec` value. Their round trip is a hypothesis of `Settings.SaveThenLoad`. The 512-byte document capacity, parse errors, and the escaping of the text are therefore not captured.
- Settings.SettingsManager.Get: a value is always text in the `Doc` type. So the model does not capture that `settings[key] | ""` also gives the empty string when the stored value is a number, an object or null. `begin` can load such a value from an image that `set` did not write.
- The `Doc` type (`Settings.Doc`): a document is a map of its contents only. ArduinoJson keeps keys in insertion order and serialises them in that order; the model's `serialize` cannot depend on that order.
- Settings.SettingsManager.Set: requires the serialised document to be shorter than 1024 bytes, because the source writes past the image otherwise. `EEPROM.commit` and the flash behind the image are left out.
