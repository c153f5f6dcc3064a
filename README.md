# pilight-console, modelled in Dafny

pilight-console connects a keypad/LCD controller on a serial line to a
pilight home-automation daemon over TCP. This project models the
message-handling core of `pilight-console.c`:

- **readHandle** appends each read to the pending buffer of its source.
- **parseStrings** works on whichever pending buffer holds a newline. It
  splits the buffer into lines as `strtok` does, handles every line in order,
  and then empties the buffer.
  - Keypad lines: `OFFLINE` and `ONLINE` switch the controller state. The
    pin code either asks the daemon to reset the alarm that fired or shows
    the toggle keys. After a valid pin, a toggle key flips a device between
    its two toggle values.
  - Daemon lines are JSON documents: a status, a snapshot of all values, or
    an update.
- **handleDevice** looks each named device up among the devices first and
  the alarms second. It translates and formats the value and records a
  device's current value. It also runs the two-state alarm machine and sends
  display lines padded to a fixed width.

The model has six modules:

- `Wrappers`: the `Option` datatype.
- `Text`: the C string operations the code uses.
  - strstr
  - strtok on `"\n"`
  - the strncat copy up to a NUL
  - sprintf `%d` and `%4.1f`
  - line padding
- `Json`: parsed documents and json_object_get.
- `Config`: device and alarm descriptors, translation and reverse
  translation, the toggle choice, and the exact text of every command.
- `Engine`: the console's state as a value. A function gives the effect of
  each keypad line, daemon line and device update, and lemmas state what the
  program promises.
- `PilightConsole`: class `Console`.
  - Its fields are the program's globals: the two buffers, `systemState`,
    `lastAlarm`, `pinValid`, the controller state, `pilightStatus` and the
    devices with their current values. Two command logs stand for what
    `sendCommand` writes to the serial line and to the socket.
  - readHandle, parseStrings and handleDevice are methods with the source's
    loops. Each method is proved equal to its Engine function, and
    parseStrings is proved to keep the invariant `Inv`.
  - `Inv` says that names are unique and that an alarm is remembered exactly
    while the system is in alarm state.

Every string in the model is the C byte string, one char per byte: UTF-8
text such as a friendly name with an umlaut appears as its bytes. So the
34-column padding of `theLine` (`strlen` and the byte indices of the padding
loop), the bytes `read` returns and `strncat` copies, and every other length
in the model count bytes, as the C does.

`lastAlarm` is the name of an alarm. The code compares configuration nodes by
identity, and with unique names that is the same test. The JSON parser is a
parameter `parse` of parseStrings. Configuration descriptors are typed
records that keep the configuration's order, because `json_object_foreach`
order decides the order of the output and of reverse translation.

Behaviour of `pilight-console.c` worth knowing:

- strtok hands out a trailing line that has no newline yet. That line is
  handled together with the complete lines before it, and is then dropped
  when the buffer is emptied (`Engine.TrailingFragmentHandledAndDropped`).
- `%4.1f` right-aligns in a field of 4 characters, so 6.1 is shown as
  `" 6.1"`.
- Reverse translation does not stop at a match. Every entry whose
  translation equals the text so far replaces it with the entry's key, so
  entries can chain. When no key is also a translation, the **first**
  matching entry decides (`Config.CanonicalIsFirstMatch`): after one
  replacement the text is a key, which no later translation equals.
- Toggling a device does not clear `pinValid`. Only `OFFLINE` ends the
  session.
- An alarm value that contains both the trigger and the reset value raises
  the alarm and clears it again in the same update
  (`Engine.AlarmTriggerAndReset`).

## Model

| member | source | states |
|---|---|---|
| Text.Contains | pilight-console.c:431 | strstr(hay, needle) != NULL, used for the trigger and reset values and the OFFLINE/ONLINE sentinels (:539, :568); its meaning is stated by ContainsIff |
| Text.ContainsIff | pilight-console.c:539 | strstr finds the needle exactly when it occurs at some index |
| Text.Segments | pilight-console.c:523-667 | every token strtok yields is non-empty and holds no newline |
| Text.SegmentsKeepContent | pilight-console.c:523-667 | concatenated, the tokens are the buffer with its newlines removed: nothing else is lost or added |
| Text.SegmentsSplit | pilight-console.c:523-667 | a newline separates tokens: the text before it and the text after it are tokenised independently |
| Text.SegmentsOfLine | pilight-console.c:523 | a non-empty text without a newline is one token |
| Text.CString | pilight-console.c:778 | what strncat copies: the longest NUL-free prefix of the bytes read, followed in the read by a NUL or the end |
| Text.CStringWhole | pilight-console.c:778 | a read without NUL bytes is copied by strncat in full |
| Text.DecimalRoundTrip | pilight-console.c:409-410 | the decimal digits of a natural number read back as that number |
| Text.Int32 | pilight-console.c:409-410 | a JSON integer printed with `%d` is wrapped to a 32-bit value that is congruent to it modulo 2^32, and it is unchanged when it fits |
| Text.IntToDecimal | pilight-console.c:410 | `%d`: a '-' for a negative number, then the decimal digits of its magnitude; its inverse is stated by IntToDecimalRoundTrip |
| Text.IntToDecimalRoundTrip | pilight-console.c:409-410 | `%d` output (with sign) reads back as the integer printed |
| Text.FormatTenths | pilight-console.c:406-407 | `%4.1f` output is the sign and digits right-aligned in a field of 4: exactly max(4, length of the digits) characters, spaces before them, ending in a '.' and one digit |
| Text.Decimal | pilight-console.c:409-410 | the digits of `%d`: at least one, all decimal digits, and a leading '0' only for zero |
| Text.FormatTenthsRoundTrip | pilight-console.c:406-407 | `%4.1f` of a value with one decimal place reads back as the same value |
| Text.Padded | pilight-console.c:473-484 | a display line is padded with spaces, or cut, to exactly 34 bytes and then ends in a newline; each kept byte is the line's own |
| Text.PadLine | pilight-console.c:479-482 | the space-filling loop produces exactly the padded line |
| Json.Member | pilight-console.c:367 | json_object_get on a value that may be missing: the member's value when the value is an object that has the key, otherwise nothing |
| Json.Items | pilight-console.c:354 | the elements json_array_get reaches below json_array_size: none when the value is missing or not an array |
| Json.Lookup | pilight-console.c:367-370 | json_object_get returns the value of the first member with the key, and nothing exactly when no member has it |
| Config.Translated | pilight-console.c:394-400 | a string value with a translation entry is replaced by the entry's text; any other value is kept |
| Config.FormatValue | pilight-console.c:404-415 | the text `sprintf` produces: `%4.1f` for a real, `%d` of the 32-bit value for an integer, the string itself for a string, nothing for other types |
| Config.DisplayValue | pilight-console.c:377-415 | the text handleDevice shows for a name: the value under its value key in "values", translated, then formatted; nothing when the value is missing |
| Config.Canonical | pilight-console.c:640-644 | reverse translation as a fold over the entries in order: the text is replaced by an entry's key whenever it equals that entry's translation |
| Config.ControlCommand | pilight-console.c:592 | the control command `{ "action": "control", "code": { "device": "<name>", "<value key>": "<value>"}}` and a newline, also sent by the toggle at :654 |
| Config.PromptLine | pilight-console.c:435 | `MESSAGE <level> 0 3 PINCODE ->` and a newline, sent in cases 1, 2 and 3 (:449, :463) |
| Config.ValueLine | pilight-console.c:466 | `MESSAGE <level> 0 <row> <friendly name>: <value>` before padding, also the reset line at :452 |
| Config.AlertLine | pilight-console.c:438 | `MESSAGE 3 0 0 <friendly name> !!!` before padding |
| Config.MenuLine | pilight-console.c:613 | `MESSAGE 0 19 <row> <key>` and a newline: the key in the last column of the device's row |
| Config.EraseLine | pilight-console.c:554 | `MESSAGE 0 19 <row>`, two blanks and a newline |
| Config.EraseBlanksMenuCell | pilight-console.c:548-616 | the erase line addresses exactly the cell the menu line wrote (same text up to the key) and writes a blank there |
| Config.ReverseTranslate | pilight-console.c:640-644 | the reverse-translation loop computes the sequential fold `Canonical` over the translation entries in order |
| Config.ReverseLookup | pilight-console.c:640-644 | the key of the first entry whose translation is the text, and none exactly when no entry has that translation |
| Config.CanonicalIsFirstMatch | pilight-console.c:640-644 | without chaining, reverse translation yields the first matching entry's key, or the text itself when none matches |
| Config.NoneMatchKeepsText | pilight-console.c:640-644 | a text that is no entry's translation is left as it is |
| Config.TranslationRoundTrip | pilight-console.c:394-400 | on a one-to-one table, a raw value shows as its translation and reverse translation recovers the raw value |
| Config.UntranslatedRoundTrip | pilight-console.c:394-400 | a value the table does not mention is shown as it is and is its own canonical value |
| Config.NextToggle | pilight-console.c:646-649 | the toggle target is one of the two toggle values, and it is the second exactly when the canonical value is the first (or both are the same) |
| Config.ToggleAlternates | pilight-console.c:646-649 | with two distinct toggle values a toggle always changes the value, and toggling twice comes back |
| Engine.Feed | pilight-console.c:765-785 | one read: a non-empty read appends its C string to its own source's buffer, and an empty read changes nothing |
| Engine.Initial | pilight-console.c:812-821 | the globals main sets up before it registers with the daemon: empty buffers, no alarm and none remembered, controller offline, no valid pin, no status, the configured devices, nothing sent |
| Engine.FeedAppendsToItsSource | pilight-console.c:765-785 | a read appends exactly its bytes to its own source's buffer and changes nothing else |
| Engine.Keyed | pilight-console.c:606-616 | the keyed devices are exactly the configured devices that carry a key |
| Engine.KeyedPositions | pilight-console.c:606-616 | the positions of the devices that carry a key, in configuration order |
| Engine.KeyedInOrder | pilight-console.c:606-616 | the keyed devices are the configuration's subsequence at strictly increasing keyed positions, so each keyed device appears once and in configuration order |
| Engine.KeyedPositionsIncrease | pilight-console.c:606-616 | the keyed positions are in range, strictly increasing, and include every device that carries a key |
| Engine.EraseMenu | pilight-console.c:548-557 | the erase loop: one EraseLine per device with a key, in configuration order |
| Engine.ToggleMenu | pilight-console.c:606-616 | the menu loop: one MenuLine per device with a key, in configuration order |
| Engine.MenusFollowKeyedDevices | pilight-console.c:548-616 | showing and erasing the toggle menu each send one line per keyed device, in configuration order, for the same rows |
| Engine.ResetRequests | pilight-console.c:589-596 | the alarm loop: a reset control command for each alarm whose name is the remembered alarm |
| Engine.ResetRequestsNone | pilight-console.c:589-596 | the reset loop sends nothing for a name that is not a configured alarm |
| Engine.ResetRequestsSingle | pilight-console.c:589-596 | the reset loop sends exactly one control command for the remembered alarm, with its value key and reset value |
| Engine.ToggleRequest | pilight-console.c:630-655 | the control command for one toggled device: its value key and the toggle value other than its reverse-translated current value |
| Engine.ToggleRequests | pilight-console.c:627-659 | the toggle loop: one ToggleRequest per device whose key is the input, in configuration order |
| Engine.ToggleRequestsNone | pilight-console.c:627-659 | input that is no device's key toggles nothing |
| Engine.ToggleRequestsSingle | pilight-console.c:627-659 | input that is the key of one device toggles exactly that device |
| Engine.ToggleRequestsInOrder | pilight-console.c:627-659 | the toggle loop sends the toggle command of every device whose key is the input, one after another in configuration order, however many devices share the key |
| Engine.KeypadLine | pilight-console.c:539-662 | one keypad token: OFFLINE, then ONLINE, then the pin (reset request in alarm, menu otherwise), then a toggle key when the pin is valid |
| Engine.KeypadLines | pilight-console.c:523-667 | the strtok loop on the serial buffer: KeypadLine applied to each token in order |
| Engine.OfflineEndsSession | pilight-console.c:539-560 | OFFLINE marks the controller offline; after a valid pin it also erases the toggle menu and clears pinValid |
| Engine.OnlineOnlyMarksOnline | pilight-console.c:568-571 | ONLINE (without OFFLINE) marks the controller online and changes nothing else |
| Engine.PinInAlarmRequestsOneReset | pilight-console.c:582-597 | the pin in alarm state sets pinValid and sends exactly one reset command for the alarm that fired |
| Engine.PinShowsToggleMenu | pilight-console.c:582-617 | the pin outside alarm state sets pinValid and sends one menu line per keyed device in order, and nothing to the daemon |
| Engine.NoPinNoToggle | pilight-console.c:626-627 | without a valid pin, input other than the pin and the sentinels changes nothing |
| Engine.KeyTogglesDevice | pilight-console.c:626-659 | with a valid pin, a device's key sends one control command for the toggle value other than its reverse-translated current value |
| Engine.OnlyPinValidates | pilight-console.c:582-585 | pinValid is only ever set by the pin |
| Engine.SetCurrentValue | pilight-console.c:460 | json_object_set of "currentvalue" on the named device |
| Engine.SetCurrentValueEffect | pilight-console.c:460 | storing a current value changes that device's current value only, and names stay unique |
| Engine.DeviceUpdate | pilight-console.c:367-484 | one name: looked up among the devices, then the alarms; its display value drives case 3 or cases 1 and 2 |
| Engine.UpdateNames | pilight-console.c:354-359 | the loop over the "devices" array: every string entry is handled as one name, in order; other entries are skipped |
| Engine.HandleUpdate | pilight-console.c:344-498 | handleDevice: the names of the update's "devices" array, each with the update's "values" |
| Engine.HandleUpdates | pilight-console.c:716-720 | the snapshot loop: handleDevice of each element of "values", in order |
| Engine.DeviceValueUpdate | pilight-console.c:458-484 | case 3: store the value; outside alarm state send the prompt and the padded value line |
| Engine.AlarmTrigger | pilight-console.c:431-440 | case 1: on the trigger value enter alarm state, remember the alarm, send CLEAR and the prompt, and set the alert line |
| Engine.AlarmReset | pilight-console.c:444-454 | case 2: on the reset value in alarm state leave it, forget the alarm, send CLEAR and the prompt and ask the daemon for values, and set the reset line |
| Engine.AlarmUpdate | pilight-console.c:431-484 | case 1, then case 2 on the state case 1 left, then the padded line if any |
| Engine.Emit | pilight-console.c:473-484 | the final display block: a non-empty line is sent padded to 34 bytes and a newline; an empty line sends nothing |
| Engine.DevicesTakePrecedence | pilight-console.c:367-373 | a name configured as a device never touches the alarm state or the daemon, even when an alarm has the same name |
| Engine.UnknownNameIgnored | pilight-console.c:367-373 | a name that is neither a device nor an alarm changes nothing and sends nothing |
| Engine.DeviceUpdateStoresValue | pilight-console.c:456-469 | a device update always stores the formatted value, and it draws the prompt and the padded line only outside alarm state |
| Engine.AlarmTriggers | pilight-console.c:431-440 | an alarm value showing the trigger and not the reset value enters alarm state, remembers the alarm, clears the display, and shows the prompt and the alert |
| Engine.AlarmResets | pilight-console.c:444-454 | an alarm value showing the reset value and not the trigger, in alarm state, leaves alarm state, forgets the alarm, redraws, and asks the daemon for fresh values |
| Engine.AlarmTriggerAndReset | pilight-console.c:431-454 | a value showing both the trigger and the reset value ends out of alarm state with no remembered alarm, after CLEAR, prompt, CLEAR, prompt and the padded reset line, and asks the daemon for values |
| Engine.QuietAlarmIgnored | pilight-console.c:431-454 | an alarm value that shows neither trigger, or shows a reset value outside alarm state, changes nothing |
| Engine.DeviceUpdateFrame | pilight-console.c:344-498 | handleDevice changes only the devices, the alarm state and the two command logs |
| Engine.AlarmUpdateFrame | pilight-console.c:429-454 | the alarm machine changes only the alarm state and the command logs |
| Engine.AlarmUpdateDisplay | pilight-console.c:429-484 | the alarm machine only appends clear commands, prompts and full-width lines to the display log |
| Engine.DeviceValueUpdateDisplay | pilight-console.c:458-484 | a device value only appends a prompt and a full-width line to the display log |
| Engine.DisplayLinesFixedWidth | pilight-console.c:473-484 | one name's update keeps earlier display commands and appends only clear commands, pin prompts and lines of exactly 34 bytes and a newline |
| Engine.UpdateNamesDisplay | pilight-console.c:354-484 | over all names of an update, earlier display commands are kept and only clear commands, pin prompts and 34-byte lines with a newline are appended |
| Engine.HandleUpdateDisplay | pilight-console.c:344-498 | handleDevice keeps earlier display commands and appends only clear commands, pin prompts and 34-byte lines with a newline |
| Engine.DeviceUpdateKeepsInv | pilight-console.c:431-454 | after an update, names are still unique and an alarm is remembered exactly while in alarm state |
| Engine.UpdateNamesKeepInv | pilight-console.c:354-498 | handleDevice keeps the invariant over all names of an update |
| Engine.HandleUpdatesKeepInv | pilight-console.c:709-723 | a snapshot keeps the invariant |
| Engine.UpdatesKeepSession | pilight-console.c:354-498 | handleDevice never touches the pending buffers, the keypad session or the daemon status |
| Engine.SnapshotKeepsSession | pilight-console.c:709-723 | a snapshot never touches the pending buffers, the keypad session or the daemon status |
| Engine.DaemonLine | pilight-console.c:689-741 | one daemon token that parses to an object: record a string status, handle each update of a snapshot, then handle the document itself when it is an update |
| Engine.StatusOf | pilight-console.c:701-702 | a "status" member that is a string becomes the remembered status; otherwise the previous status stays |
| Engine.SnapshotUpdates | pilight-console.c:709-713 | a document with "message" and an array "values" is a snapshot whose updates are the array's elements; any other document has none |
| Engine.IsUpdate | pilight-console.c:731-736 | a document is an update when "origin" is a string containing "update" and "devices" is an array |
| Engine.DaemonLines | pilight-console.c:684-746 | the strtok loop on the socket buffer: DaemonLine applied to each token in order |
| Engine.NonObjectLineIgnored | pilight-console.c:689-690 | a daemon line that does not parse to a JSON object has no effect |
| Engine.DaemonLineKeepsSession | pilight-console.c:689-741 | a daemon line remembers a reported status string and leaves the keypad session and buffers alone |
| Engine.DaemonLineKeepsInv | pilight-console.c:689-741 | a daemon line keeps the invariant |
| Engine.DaemonLinesKeepInv | pilight-console.c:682-751 | the lines of the socket buffer keep the invariant |
| Engine.KeypadLinesKeepInv | pilight-console.c:520-671 | keypad lines keep the invariant and never change the devices |
| Engine.ParseSerial | pilight-console.c:520-671 | the keypad half: with a newline in the buffer, every token handled in order and the buffer emptied; otherwise nothing |
| Engine.ParseDaemon | pilight-console.c:682-751 | the daemon half, likewise on the socket buffer |
| Engine.ParseStrings | pilight-console.c:509-754 | the keypad half, then the daemon half |
| Engine.NoNewlineNoDispatch | pilight-console.c:509-754 | with no newline in either buffer, parseStrings handles nothing and changes nothing |
| Engine.SerialNoNewlineNoDispatch | pilight-console.c:520 | without a newline in the serial buffer the keypad half changes nothing |
| Engine.DaemonNoNewlineNoDispatch | pilight-console.c:682 | without a newline in the socket buffer the daemon half changes nothing |
| Engine.SerialWaitsForNewline | pilight-console.c:509-754 | a serial buffer without a newline is kept for later, and parseStrings only handles the socket buffer |
| Engine.TrailingFragmentHandledAndDropped | pilight-console.c:520-671 | a complete line followed by an unterminated one: both are handled in order and then the buffer is empty |
| Engine.RepeatedMessageHandledTwice | pilight-console.c:520-671 | the same line received twice is handled twice |
| Engine.SegmentsOfTwoLines | pilight-console.c:523-525 | strtok on a complete line followed by an unterminated one yields exactly those two lines |
| Engine.SegmentsOfRepeatedLine | pilight-console.c:523-525 | strtok on the same line received twice yields that line twice |
| Engine.DaemonFragmentHandledAndDropped | pilight-console.c:682-751 | on the socket buffer, a complete line followed by an unterminated one: both are handled in order and then the buffer is empty |
| Engine.DaemonMessageHandledTwice | pilight-console.c:682-751 | the same daemon line received twice is handled twice |
| Engine.ParseStringsKeepsInv | pilight-console.c:509-754 | parseStrings keeps the invariant |
| PilightConsole.CopiedPrefix | pilight-console.c:778 | copying up to the first NUL gives the C string of the bytes read |
| PilightConsole.Console.constructor | pilight-console.c:812-821 | the state main sets up before registering with the daemon: empty buffers, no alarm, controller offline, no valid pin, empty logs; the invariant holds |
| PilightConsole.Console.SendCommand | pilight-console.c:302-313 | sendCommand appends the command to the log of its destination and changes nothing else |
| PilightConsole.Console.ReadHandle | pilight-console.c:765-785 | returns the number of bytes read and appends them, up to the first NUL, to the buffer of their source; an empty read changes nothing |
| PilightConsole.Console.ParseStrings | pilight-console.c:509-754 | the new state is the Engine's parseStrings of the old one, and the invariant is kept |
| PilightConsole.Console.ParseSerialInput | pilight-console.c:520-672 | the strtok loop handles every keypad token in order and then empties the serial buffer |
| PilightConsole.Console.ParseDaemonInput | pilight-console.c:682-752 | the strtok loop handles every daemon token in order and then empties the socket buffer |
| PilightConsole.Console.HandleKeypadLine | pilight-console.c:539-662 | one keypad token has the effect the Engine's KeypadLine gives it |
| PilightConsole.Console.EraseToggleKeys | pilight-console.c:548-557 | the erase loop appends one erase line per keyed device, in order |
| PilightConsole.Console.ShowToggleKeys | pilight-console.c:606-616 | the menu loop appends one key line per keyed device, in order |
| PilightConsole.Console.RequestAlarmReset | pilight-console.c:589-596 | the alarm loop sends the reset command for the remembered alarm |
| PilightConsole.Console.ToggleDevices | pilight-console.c:627-659 | the toggle loop sends one control command per device with that key, in order |
| PilightConsole.Console.HandleDaemonLine | pilight-console.c:689-741 | one daemon token has the effect the Engine's DaemonLine gives it: status, then snapshot, then update |
| PilightConsole.Console.HandleDevice | pilight-console.c:346-498 | handleDevice applies the update of every string in "devices", in order |
| PilightConsole.Console.UpdateDevice | pilight-console.c:359-400 | one name is resolved against devices first and alarms second, and its value is translated and formatted |
| PilightConsole.Console.ShowDeviceValue | pilight-console.c:458-469 | case 3: the value is stored and, outside alarm state, drawn |
| PilightConsole.Console.RunAlarm | pilight-console.c:429-484 | cases 1 and 2 and the final line together give the Engine's AlarmUpdate |
| PilightConsole.Console.TriggerAlarm | pilight-console.c:431-440 | case 1: the state and the alert line the Engine's AlarmTrigger gives |
| PilightConsole.Console.ResetAlarm | pilight-console.c:444-454 | case 2: the state and the line the Engine's AlarmReset gives |
| PilightConsole.Console.PrintLine | pilight-console.c:473-484 | a non-empty line is padded and sent to the display, and an empty one is not sent |

## Left out

- The start-up sequence of `main` after the globals are set (pilight-console.c:840-902): it sends CLEAR and a title to the display, repeats the identification to the daemon and parseStrings on its replies until the status contains "success", then sends "request values". The model starts from the globals main sets up before all this (`Engine.Initial`). The state when the poll loop starts is reached only by feeding those replies through readHandle and parseStrings; the loop itself and its commands are not modelled, because it is I/O and retry logic.
- Configuration loading (`ReadFile`, `readGlobalConfig`) and the JSON parser (`load_json`): file I/O and a foreign library. The console starts from a parsed, typed configuration, and `parse` is a parameter.
- Sockets, the serial line settings, the write/tcdrain/delay of `sendCommand`, and `main` (start-up, registration retry loop, fork, PID file, poll loop): I/O and process control. `sendCommand` appends to a log.
- `pilightConfig`: parseStrings stores the snapshot's values in it, but nothing ever reads it.
- The console output of `printf`: diagnostics only.
- readHandle with a failed read (`rdlen` of -1): it writes before the buffer, which is undefined behaviour in C. The model's reads always return their bytes.
- Config.FormatValue: a JSON real is given in tenths, already rounded to one decimal place. The model does not capture `%4.1f` rounding of other doubles, or negative zero, because that needs floating point.
- Config.FormatValue: a missing value, or a value that is neither real, integer nor string, leaves the C code printing from an uninitialised buffer (or crashing on NULL). The model skips that name.
- Engine.ToggleRequest: toggling a device that has no current value yet makes the C code call strcmp on NULL. The model sends nothing for it.
- Descriptor fields of the wrong JSON type (a non-string key, pin or translation, a toggles array with fewer than two strings) lead to NULL dereferences in C. The model's descriptors are typed, so they cannot arise.
- Fixed C buffers (`theStringValue[30]`, `theLine[40]`, `Command[100]`) overflow on long names or values. The model uses unbounded sequences, apart from the padding to 34 bytes, which is modelled.
- The JSON parser `parse` is assumed to behave as jansson's: objects have unique keys (jansson keeps the last value of a repeated key, while `Json.Lookup` takes the first) and strings hold no NUL. Documents that break this are not modelled.
- `%d` of a row number or integer value is modelled as a wrap to 32 bits (`Text.Int32`).
