# AutoClicker core, modelled in Dafny

This project models the logic of a small desktop auto-clicker. The model covers:

- **Global hotkeys** (`Hotkeys.dfy`):
  - the parser that turns a stored hotkey string such as `"CTRL+F6"` into a virtual-key code and modifier flags, using the key table F1–F12, CTRL, SHIFT, ALT;
  - the listener's two registries: the callback per hotkey ID and the hotkeys the OS accepted;
  - `load_hotkeys`, which wires the four settings to hotkey IDs 1–4 with the fallbacks F6, F9, F10 and F8.
- **The settings dialog** (`Settings.dfy`):
  - the hotkey string built from a captured key press: modifiers in the order CTRL, SHIFT, ALT, then the key name, joined with `" + "`;
  - the one-rebind-at-a-time state machine on `current_rebind`;
  - the reset-to-defaults table.
- **The clicker window** (`Clicker.dfy`):
  - the conversion of the interval and start-delay spin boxes to milliseconds;
  - the start/stop toggle and its button caption;
  - the delayed start of the click timer;
  - the two mutually exclusive mouse-button checkboxes;
  - the choice of button on each click.
- **Recording and playback** (`Recording.dfy`, `Playback.dfy`, with shared data in `Actions.dfy`):
  - the 0.1-second sampling loop of the recorder and its stop flag;
  - the deadline-based replay loop of the player.

`Strings.dfy` holds ASCII upper-casing, `str.split` with a separator character and `str.join`. `Optional.dfy` holds an `Option` type.

The outside world is passed in as parameters:

- **Loading the OS library and `RegisterHotKey`.** These are two inputs. `user32` says whether the library loads; when it does not, each call ends in its `except` branch. `accepts(id, modifiers, keyCode)` says whether the OS accepts the registration.
- **`QSettings`.** Modelled as a `SettingsStore` object holding a string map, shared by the dialog and the listener.
- **`QKeySequence(key).toString()`.** The text of the pressed key, passed in as a string.
- **`time.time` and `time.sleep`.** Modelled by a `Clock` value over `real` seconds: a start reading, the time that passes before each clock read (`lag`), and how much longer than requested each sleep lasts (`oversleep`).
- **`pyautogui.position`.** A sequence of pointer readings, one per iteration.
- **`pyautogui.moveTo` and `click`.** Returned as a log of moves, or as the chosen button.
- **`stop()` from the interface thread.** The recorder's run takes the number of samples after which the stop request arrives.

The hotkey string the dialog writes is not the format the parser reads. The dialog joins parts with `" + "`. The parser splits on `'+'` and does not trim spaces, so every stored combination of two or more parts parses to key code 0 with no modifiers. The model keeps both behaviours as written and proves the mismatch: `Settings.ParseSpacedJoin` and `Settings.FormattedComboParsesToNothing`.

## Model

| member | source | states |
|---|---|---|
| Hotkeys.ModifiersOf | src/KeyListener.py:65-74 | the modifier value is within 0..7, and each of MOD_CONTROL (0x2), MOD_SHIFT (0x4), MOD_ALT (0x1) is set exactly when CTRL, SHIFT, ALT is among the parts |
| Hotkeys.KeyCodeOfMeaning | src/KeyListener.py:66-76 | the key code is 0 exactly when no part is a non-modifier key-table name; otherwise it is the table code of the last such part, and no later part is one |
| Hotkeys.ParseHotkey | src/KeyListener.py:63-77 | the loop over the parts of the upper-cased string, split on '+', yields the key code and modifiers of the specification `Parse` |
| Hotkeys.ParseCaseInsensitive | src/KeyListener.py:64 | upper-casing the input first does not change the result |
| Hotkeys.ParseModifiersInRange | src/KeyListener.py:65-74 | the parsed modifiers always lie within 0..7 |
| Hotkeys.ParseAppendPart | src/KeyListener.py:64-76 | appending one more '+'-free part sets the key code if that part is a key name and ORs in its modifier flag; nothing else changes |
| Hotkeys.ParseIgnoresUnknownPart | src/KeyListener.py:67-68 | a part that is not exactly a key-table name (an unknown name, an empty part, a part with spaces) leaves the result unchanged |
| Hotkeys.ParseRepeatedModifier | src/KeyListener.py:69-74 | repeating a modifier that is already present does not change the result |
| Hotkeys.ParseLastKeyWins | src/KeyListener.py:75-76 | when several keys appear, the last one in string order gives the key code, and the modifiers are kept |
| Hotkeys.ParseSinglePart | src/KeyListener.py:64-77 | a string without '+' is one part: its key code if it is a key name, else 0, and its own modifier flag |
| Hotkeys.FunctionKeyCodes | src/KeyListener.py:55-57 | "F1".."F12" parse to codes 0x70..0x7B with no modifiers |
| Hotkeys.ParseModifiersOnlyExample | src/KeyListener.py:66-77 | "CTRL+SHIFT" parses to key code 0 and modifiers 6 |
| Hotkeys.ParseEmptyExample | src/KeyListener.py:65-77 | the empty string parses to (0, 0) |
| Hotkeys.ParseTrailingPlus | src/KeyListener.py:64-68 | a trailing '+' adds an empty part, which is ignored |
| Hotkeys.RegisteredFirstMeaning | src/KeyListener.py:80-90 | after the first n registrations in table order, only IDs 1..n are registered, and each of those bindings is registered, with its own (modifiers, key code), exactly when the OS accepted it |
| Hotkeys.RegistrationsMeaning | src/KeyListener.py:80-90 | after reloading, only IDs 1..4 are registered; ID i holds (modifiers, key code) of its setting exactly when the OS accepts that registration |
| Hotkeys.KeyListener.HandleNativeEvent | src/KeyListener.py:16-23 | a message is handled exactly when it is WM_HOTKEY (0x0312); a callback runs exactly when the hotkey ID is in the action registry, and it is that ID's callback |
| Hotkeys.KeyListener.RegisterHotkey | src/KeyListener.py:25-34 | the callback is always recorded; (modifiers, key code) is recorded only when the library loads and the OS accepts; nothing else changes |
| Hotkeys.KeyListener.UnregisterHotkeys | src/KeyListener.py:36-43 | when the library loads, every registered ID is released and the registry is emptied; otherwise nothing changes; the callbacks are never touched |
| Hotkeys.KeyListener.RegisterBinding | src/KeyListener.py:80-90 | registering one setting's hotkey under its ID with its callback, reading the setting with its fallback |
| Hotkeys.KeyListener.LoadHotkeys | src/KeyListener.py:45-90 | callbacks for IDs 1..4 are installed; when the OS library loads, the listener's `registered_hotkeys` dictionary is first emptied and then holds exactly the accepted registrations of the four settings; when it does not load, that dictionary is left unchanged |
| Hotkeys.Lookup | src/KeyListener.py:48-51 | a setting reads as its stored string when the store has one, and as the given fallback otherwise |
| Hotkeys.KeyListener.constructor | src/KeyListener.py:7-11 | a new listener has no callbacks and no registered hotkeys, and reads the shared settings store |
| Hotkeys.FallbackHotkey | src/KeyListener.py:48-89 | an absent setting falls back to F6, F9, F10, F8: codes 0x75, 0x78, 0x79, 0x77 with no modifiers |
| Settings.HotkeyPartsOrdered | src/SettingsWindow.py:72-81 | the built parts follow the fixed order CTRL, SHIFT, ALT, then the key name, with no part twice; there is one part per held modifier plus one for an appended key name |
| Settings.HotkeyPartsContent | src/SettingsWindow.py:72-81 | CTRL, SHIFT and ALT are listed exactly when held; any other part is the key name, which is listed, last, exactly when it is non-empty and not a modifier name |
| Settings.BuildHotkeyString | src/SettingsWindow.py:72-82 | appending to the parts list yields the " + "-join of exactly those parts |
| Settings.SplitSpacedJoin | src/SettingsWindow.py:82 | splitting a " + "-joined string of '+'-free parts on '+' gives each part with a space before it (all but the first) and after it (all but the last) |
| Settings.ParseSpacedJoin | src/SettingsWindow.py:82 | any " + "-joined string of two or more '+'-free parts parses to (0, 0), because no part matches the key table untrimmed |
| Settings.FormattedComboParsesToNothing | src/SettingsWindow.py:72-82 | a built string such as "CTRL + F6", with at least two parts, is read back by the parser as (0, 0); this includes the '+' key, as in "CTRL + +" |
| Settings.FormattedSinglePartRoundTrip | src/SettingsWindow.py:79-82 | a built string of one part is read back as that part: a bare "F6" as (0x75, 0), a lone modifier as its flag with key code 0, a bare "+" as (0, 0) |
| Settings.PlusKeyCombo | src/SettingsWindow.py:72-82 | the '+' key with modifiers, such as "CTRL + +", is read back by the parser as (0, 0) |
| Settings.PlusKeyAlone | src/SettingsWindow.py:79-82 | the '+' key alone is built as "+", which is not a key-table name and is read back as (0, 0) |
| Settings.ResetIdempotent | src/SettingsWindow.py:104-113 | resetting twice leaves the settings as resetting once |
| Settings.DefaultsMatchFallbacks | src/SettingsWindow.py:106-111 | the reset table covers exactly the four hotkey settings and agrees with the listener's fallbacks setting by setting |
| Settings.ResetRegistersDefaultCodes | src/SettingsWindow.py:104-114 | after a reset, the listener reads codes 0x75, 0x78, 0x79, 0x77 with no modifiers for IDs 1..4 |
| Settings.DefaultsForAll | src/SettingsWindow.py:105-111 | writing the four defaults one by one in table order gives the whole table |
| Settings.SettingsWindow.constructor | src/SettingsWindow.py:25-55 | every field shows its stored setting (empty when none), every button reads "Rebind Hotkey", and no rebind is in progress |
| Settings.SettingsWindow.RebindHotkey | src/SettingsWindow.py:57-64 | a warning, with nothing changed, exactly when a rebind is in progress; otherwise that setting's field is cleared, its button reads "Listening" and the filter is installed |
| Settings.SettingsWindow.EventFilter | src/SettingsWindow.py:66-98 | an event is consumed exactly when a rebind is in progress and it is a key press; then the built string becomes both the field text and the stored setting, the listener reloads, the button reads "Rebind Hotkey" again and the rebind ends; any other event changes nothing |
| Settings.SettingsWindow.CompleteRebind | src/SettingsWindow.py:84-96 | the captured string becomes the field text and the stored setting of the key being rebound, the listener reloads, its button reads "Rebind Hotkey" and the rebind ends, with the filter removed |
| Settings.SettingsWindow.WriteDefaults | src/SettingsWindow.py:105-113 | the loop writes every default to the store and to the fields |
| Settings.SettingsWindow.ResetToDefault | src/SettingsWindow.py:104-114 | the four settings and field texts become F6/F9/F10/F8, the listener reloads, and a rebind in progress is not cancelled |
| Clicker.ToggleLabel | src/main.py:143-146 | the caption is "Stop (F6)" exactly when clicking is on, and "Start (F6)" exactly when it is off |
| Clicker.ClickIntervalMs | src/main.py:149-152 | the interval is the spin boxes' hours, minutes and seconds taken as a number of seconds, times 1000, plus the milliseconds |
| Clicker.StartDelayMs | src/main.py:140-141 | the start delay is the same conversion as the interval, applied to its minutes and seconds with no hours and no milliseconds |
| Clicker.IntervalBounds | src/main.py:57-152 | within the spin-box ranges the click interval lies in 0..86399999 ms |
| Clicker.IntervalDecodes | src/main.py:57-152 | within the spin-box ranges, hours, minutes, seconds and milliseconds can each be read back from the interval |
| Clicker.IntervalInjective | src/main.py:57-152 | two in-range settings with equal intervals are equal |
| Clicker.DelayBounds | src/main.py:87-141 | within the spin-box ranges the start delay lies in 0..3599000 ms and is a whole number of seconds |
| Clicker.DelayDecodes | src/main.py:87-141 | within the spin-box ranges, both delay spin boxes can be read back from the delay |
| Clicker.DefaultTimings | src/main.py:59-96 | the initial spin-box values give a 1000 ms interval and no start delay |
| Clicker.AutoClickerWindow.constructor | src/main.py:42-119 | clicking is off with caption "Start (F6)"; the spin boxes hold 0 h 0 min 1 s 0 ms and a 0 min 0 s delay; only the left box is checked |
| Clicker.AutoClickerWindow.SetInterval | src/main.py:57-79 | setting a spin box keeps its value within range |
| Clicker.AutoClickerWindow.SetStartDelay | src/main.py:87-98 | setting a delay spin box keeps its value within range |
| Clicker.AutoClickerWindow.ToggleClicking | src/main.py:137-146 | clicking is negated, so two toggles restore it; turning on schedules one start after the configured delay; turning off stops the timer; the caption follows |
| Clicker.AutoClickerWindow.StartClicking | src/main.py:148-153 | the click timer runs with the interval the spin boxes hold when the start fires, whatever the clicking flag says |
| Clicker.AutoClickerWindow.PerformClick | src/main.py:155-159 | left is clicked exactly when its box is checked, right exactly when only its box is checked, and nothing when neither is |
| Clicker.AutoClickerWindow.SetLeftChecked | src/main.py:108-131 | the left box takes the new state; the right box is unchecked exactly when the left box becomes checked |
| Clicker.AutoClickerWindow.SetRightChecked | src/main.py:110-135 | the right box takes the new state; the left box is unchecked exactly when the right box becomes checked |
| Clicker.AutoClickerWindow.OnLeftClickToggled | src/main.py:129-131 | when checked, the right box is unchecked; otherwise nothing changes |
| Clicker.AutoClickerWindow.OnRightClickToggled | src/main.py:133-135 | when checked, the left box is unchecked; otherwise nothing changes |
| Clicker.CheckboxesExclusive | src/main.py:129-135 | after any change to either box, at most one box is checked |
| Clicker.StaleStart | src/main.py:138-148 | a start scheduled before clicking was turned off again still runs the click timer while clicking is off and the caption offers to start |
| Playback.ActionPlayer.constructor | src/ActionPlayer.py:6-8 | the player keeps the action list it is given |
| Playback.ActionPlayer.Run | src/ActionPlayer.py:10-17 | every action is replayed once, in list order, to its position at the time `MoveTime` gives (an empty list gives no moves and no sleeps); every sleep is positive; on a monotone clock, no move comes before start plus the action's offset |
| Playback.SleepsPositive | src/ActionPlayer.py:13-15 | the player sleeps only for positive durations |
| Playback.MoveMeetsDeadline | src/ActionPlayer.py:11-17 | on a monotone clock, each move happens no earlier than start plus the action's offset |
| Playback.MovesInOrder | src/ActionPlayer.py:12-17 | on a monotone clock, move times never decrease along the list |
| Playback.NoDrift | src/ActionPlayer.py:11-13 | waits are measured from the single start time: when an iteration reads the clock before its action's deadline, the move lands at the deadline plus only that iteration's oversleep (exactly at the deadline when the read lands on it), however late earlier moves were |
| Playback.IdealReplayExact | src/ActionPlayer.py:11-17 | on an ideal clock, non-negative non-decreasing offsets are replayed exactly at start plus offset |
| Playback.EventTypeIgnored | src/ActionPlayer.py:16-17 | lists that agree on offsets and positions give the same sleeps and move times, whatever their event types |
| Playback.ThreeActionExample | src/ActionPlayer.py:12-17 | offsets 0, 0.2 and 0.5 s on an ideal clock give sleeps 0.2 and 0.3 s and moves at exactly those offsets |
| Playback.ReplayOfRecording | src/ActionPlayer.py:11-17 | a recording taken on a monotone clock, replayed on an ideal clock, moves through the sampled positions at the offsets they were sampled at |
| Recording.Recorded | src/ActionRecorder.py:14-20 | the k-th recorded action is a "move" to the k-th pointer reading, stamped with its offset from the start |
| Recording.ActionRecorder.Run | src/ActionRecorder.py:8-21 | the run starts a fresh list, sets the flag itself (overriding an earlier stop), and ends with exactly the samples taken before the stop request, in order |
| Recording.ActionRecorder.Stop | src/ActionRecorder.py:23-24 | stopping only clears the recording flag; the recorded list is untouched |
| Recording.StopBeforeRun | src/ActionRecorder.py:10-24 | a stop issued before the run begins is overridden and the run still records |
| Recording.SampleAfterStart | src/ActionRecorder.py:11-16 | on a monotone clock, every recorded offset is at least 0 |
| Recording.SamplesSpaced | src/ActionRecorder.py:16-21 | on a monotone clock, consecutive samples are at least 0.1 s apart |
| Recording.SampleSpread | src/ActionRecorder.py:13-21 | on a monotone clock, samples j steps apart are at least j tenths of a second apart |
| Recording.SamplesInOrder | src/ActionRecorder.py:11-16 | on a monotone clock, recorded offsets never decrease |

## Left out

- Strings.Upper: upper-casing is ASCII only. Python's `str.upper` also maps some non-ASCII characters to ASCII letters, for example 'ſ' (U+017F) to 'S', 'ı' (U+0131) to 'I' and the ligature 'ﬁ' to "FI". For such input the parse differs: `parse_hotkey("ſhift")` gives (0, 4), while the model's `Parse("ſhift")` gives (0, 0). The stored hotkey text differs too: for a key text containing 'ß', the dialog stores "SS" in the program (`key_name.upper()`), where the model's `EventFilter` stores 'ß' unchanged.
- Times are exact `real` seconds, not floating point. Rounding in `time.time()` differences is not modelled.
- Qt widgets, layouts, message boxes and signal delivery are modelled only by the state they hold: field and button texts, checkbox states, the timer. `QKeySequence(key).toString()` is an uninterpreted string input.
- `KeyListener.nativeEvent` is modelled from an already-decoded (message, wParam) pair. Reading the native `MSG` structure from memory, and the exception path around it, are left out.
- `update_toggle_button` is called by the settings dialog but defined in none of the modelled source files, so it is left out.
- The model assumes that the settings dialog's parent window holds the `KeyListener` of `src/KeyListener.py` as `key_listener`, and that the listener's parent window provides `toggle_clicking`, `start_recording`, `stop_recording`, `stop_playing` and `update_toggle_button`. None of the modelled source files builds such a window. The window in `src/main.py` holds its own smaller `KeyListener`, which has no `load_hotkeys` and handles F6 only; with that window, the calls to `load_hotkeys` in `eventFilter` and `reset_to_default` would raise `AttributeError`. That smaller listener is Windows glue and is left out, as is `closeEvent`.
- `save_settings` only flushes `QSettings` and shows a message; persistence is not modelled.
- Saving and loading recordings as JSON is not implemented by any of the modelled source files, so it is not modelled.
- The position picker (`PositionSelector.py`) and `setup.py` are user interface and packaging only.
- `pyautogui.PAUSE = 0` in the recorder changes a process-wide library setting. Before any recording, each `moveTo` of the player and each `click` pauses 0.1 s; after one, they do not. The model covers both cases only because the clock's `lag` (the time that passes before each clock read) is unconstrained; it does not tie that lag to whether a recording has run.
- Threads run sequentially here. The stop request is an input (the number of samples taken before it arrives), checked where the loop tests its flag. A replay cannot be cancelled part-way.
- Recording.ActionRecorder: the `actions_recorded` signal is declared but never emitted, so the recording is observable only through `recordedActions`.
- Clicker.AutoClickerWindow.StartClicking: the one-shot starts are kept only as a log of their delays. When they fire is decided outside the model, one `StartClicking` call per firing.
- Recording.ActionRecorder.Run: the pointer readings never fail. In the program, a `pyautogui.position()` call that raises ends `run` with the exception, leaving `is_recording` set and the samples taken so far in `recorded_actions`.
- Playback.ActionPlayer.Run: pyautogui's fail-safe is not modelled. It is on by default, so `moveTo` raises `FailSafeException` when the pointer is in a screen corner: a recording that passes through (0, 0) stops the replay at the next action, while the model replays every action.
- Clicker.AutoClickerWindow.PerformClick: the fail-safe is not modelled here either. In the program, `click` raises `FailSafeException` when the pointer is in a screen corner, and no click happens.
- Hotkeys.KeyListener.HandleNativeEvent: callbacks are assumed not to raise. In the program, the bare `except` around the dispatch also catches an exception raised by the callback, and `nativeEvent` then reports the message as not handled.
- Hotkeys.KeyListener.RegisterHotkey: the messages `register_hotkey` prints when the OS refuses a hotkey, or when the library cannot be loaded, are not modelled.
- Recording.ActionRecorder.constructor: the recorder class has no constructor of its own, so `recorded_actions` and `is_recording` exist only once `run` or `stop` has set them. The model's initial state (an empty list, not recording, start time 0) is its own.
