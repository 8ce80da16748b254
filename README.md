# Key spammer core, modelled in Dafny

`rust67.py` is a small auto-clicker. It watches the mouse and keyboard. While
every activation button or key is held, it keeps pressing a spam key with a
fixed delay between presses. A toggle hotkey or the window's Toggle button
switches it on and off. Ctrl+M minimizes the window, Ctrl+Q quits, and
Alt+Left-drag moves the borderless window.

This project models the deterministic logic of that script:

- `Text` covers the Python string operations the script relies on: `strip()`,
  `lower()`, `split(",")`, `startswith(...)` and `replace("Key.", "")`.
- `PyInt` covers `int(text)` in base 10 and `str(n)`, which the delay entry and
  key codes go through.
- `Keys` covers the keys as the keyboard listener reports them, `normalize_key`,
  `any_ctrl_down` / `any_alt_down`, and what a stream of presses and releases
  does to the held-key set and the `enabled` flag.
- `Settings` covers `get_settings` as a pure parser. The four entry texts become
  the activation tokens, the spam key, the delay and the toggle hotkey, each
  with its fallback. The append loop that builds the token list is the method
  `FixTokens`.
- `SpamLoop` covers one iteration of `spam_loop`. The `all_down` loop is the
  method `AllDown`. The choice between emitting the key, idling 5 ms and idling
  10 ms is the function `TickDecision`. Emitting and sleeping are returned as
  an `Action` value.
- `App` holds the class `AppState`. Its fields are the script's shared globals:
  `enabled`, `toggle_hotkey`, `key_states`, `mouse_states`, the window's
  existence, the drag record and the status label. Its methods are the
  listeners (`on_click`, `on_key_press`, `on_key_release`), the Toggle button,
  the drag handlers, the settings read and one spam-loop iteration. Minimize
  and quit come back as a `Request` value. After the class come short
  scenarios built from those methods.

Two behaviours of the script are kept as written:

- The toggle hotkey flips `enabled` but never rewrites the status label. Only
  the Toggle button does. `App.HotkeyDisables` proves that the label is left
  as it was.
- `get_settings` rewrites `toggle_hotkey` on every enabled iteration of the
  loop. A disabled loop does not read the settings, so the hotkey entry only
  takes effect while the spammer is enabled (`App.AppState.SpamTick`).

## Model

| member | source | states |
|---|---|---|
| Text.Strip | rust67.py:230-233 | `strip()` returns text with no whitespace at either end, never longer than its input |
| Text.StripIsSlice | rust67.py:232-233 | `strip()` keeps the contiguous slice after the leading whitespace, and everything it drops is whitespace |
| Text.StripEmpty | rust67.py:233 | a part strips to "" exactly when it is all whitespace, which is the `if p.strip()` filter |
| Text.StripIdempotent | rust67.py:233 | stripping an already stripped part changes nothing |
| Text.Lower | rust67.py:236 | `lower()` keeps the length, leaves no upper-case letter, and lowers each character in place |
| Text.LowerIdempotent | rust67.py:236 | lowering twice is lowering once |
| Text.LowerKeepsEnds | rust67.py:233-236 | a stripped part is still stripped after `lower()` |
| Text.RemoveAll | rust67.py:78 | `replace("Key.", "")` never lengthens the text and leaves text without the pattern unchanged |
| Text.Split | rust67.py:233 | `split(",")` gives at least one part, and no part holds a comma |
| Text.SplitNoSeparator | rust67.py:233 | text without a comma is one part |
| Text.SplitFirst | rust67.py:233 | the text before the first comma is the first part, and the rest is split on |
| Text.StartsWith | rust67.py:81-86 | defines `startswith` as the prefix slice (no contract; used by `Keys.AnyCtrlDown` and `Keys.AnyAltDown`) |
| Text.JoinSplit | rust67.py:233 | joining the parts with the comma gives back the text, so splitting loses nothing |
| Text.SplitCount | rust67.py:233 | there is one more part than there are commas |
| PyInt.ShowNat | rust67.py:174 | `str(n)` is non-empty decimal digits, with no leading zero |
| PyInt.ShowInt | rust67.py:174 | `str(n)` starts with '-' exactly when `n` is negative; the rest is decimal digits |
| PyInt.ShowNatValue | rust67.py:174 | the digits `str(n)` writes are worth `n` |
| PyInt.ParseStripped | rust67.py:246 | `int()` of stripped text raises on "" and accepts only text ending in a digit |
| PyInt.ParseInt | rust67.py:246 | `int()` raises on blank text and on any text holding a U+001C to U+001F control, which `strip()` would remove but `int()` does not skip |
| PyInt.ParseDigits | rust67.py:246 | a plain string of digits reads as its value |
| PyInt.ParseNegativeRun | rust67.py:246 | a minus sign before a digit run, underscores included, negates the run's value |
| PyInt.ParseShowNat | rust67.py:246 | `int(str(n)) == n` for every natural number |
| PyInt.ParseShowNegative | rust67.py:246 | `int("-" + str(m)) == -m` |
| PyInt.ParseShowInt | rust67.py:246 | `int(str(n)) == n` for every integer |
| PyInt.ParseIntPadded | rust67.py:246 | `int()` ignores any whitespace before and any whitespace after the number, the two chosen independently, when neither holds a U+001C to U+001F control |
| PyInt.PaddedControls | rust67.py:246 | padding free of U+001C to U+001F controls adds none to the text |
| PyInt.StripPadded | rust67.py:246 | whitespace added before and after the text, the two chosen independently, does not change what `strip()` returns |
| Keys.NormalizeKey | rust67.py:74-78 | a normalized key has no upper-case letter, and a key with a character normalizes to that character lowered |
| Keys.NormalizeNamed | rust67.py:77-78 | a named key normalizes to its lowered name once "Key." is removed |
| Keys.NormalizeCode | rust67.py:77-78 | a key code without a character normalizes to "<vk>" |
| Keys.NormalizeIgnoresCase | rust67.py:76 | Shift+A and A are the same held key |
| Keys.PlainNameNormalizes | rust67.py:78 | a lower-case name without 'K' is its own normalized form |
| Keys.AnyCtrlDown | rust67.py:81-82 | defines `any_ctrl_down`: some held key starts with "ctrl" (no contract; its properties are `CtrlKeysCount`, `CharIsNoModifier` and `App.CtrlStaysDown`) |
| Keys.AnyAltDown | rust67.py:85-86 | defines `any_alt_down`: some held key starts with "alt" (no contract; its properties are `CharIsNoModifier` and `App.DragScenario`) |
| Keys.CtrlKeysCount | rust67.py:81-82 | pressing ctrl, ctrl_l or ctrl_r makes `any_ctrl_down` true |
| Keys.CharIsNoModifier | rust67.py:81-86 | pressing a character key never changes `any_ctrl_down` or `any_alt_down` |
| Keys.Step | rust67.py:89-109 | defines one handler call on the held keys and `enabled` (no contract; its properties are `EnabledAfterReplay`, `HeldAfterReplay` and `App.AppState.OnKeyPress` / `OnKeyRelease`) |
| Keys.EnabledAfterReplay | rust67.py:89-109 | for a fixed hotkey, in a stream without Ctrl+Q, `enabled` has flipped after the stream exactly when the hotkey was pressed an odd number of times |
| Keys.HeldAfterReplay | rust67.py:89-109 | a key is held after a stream exactly when the last event on it was a press, or, if no event touched it, when it was held before |
| Keys.ReplaySnoc | rust67.py:89-109 | one more event is one more step of the handlers |
| Settings.ParseToggleHotkey | rust67.py:230 | the hotkey is the stripped, lowered entry, or "f6" when that is empty; it is never empty and has no upper-case letter or surrounding whitespace |
| Settings.NonBlankParts | rust67.py:233 | the kept parts are at most as many as the parts, and each is non-empty and stripped |
| Settings.NonBlankPartsEmpty | rust67.py:233 | nothing is kept exactly when every part is blank |
| Settings.NonBlankPartsAppend | rust67.py:233 | the filter keeps the order of the parts |
| Settings.CanonicalToken | rust67.py:236-244 | a part is "Left", "Right" or "Middle" exactly when it is that name in any case, and is otherwise its lowered text |
| Settings.FixTokens | rust67.py:234-244 | the append loop produces one canonical token per part, in order |
| Settings.ParseActivation | rust67.py:232-244 | there is exactly one activation token per non-blank comma part, so at most one more than there are commas in the stripped entry |
| Settings.ActivationTokensClean | rust67.py:232-244 | no activation token is empty or has whitespace at either end |
| Settings.ActivationTokenAt | rust67.py:232-244 | each non-blank comma part gives its canonical token, placed after the tokens of the non-blank parts before it |
| Settings.ActivationEmpty | rust67.py:232-244 | the token list is empty exactly when every comma part is blank |
| Settings.ParseSpamKey | rust67.py:253 | the spam key is at most one character: the first non-whitespace character of the entry, or "" exactly when the entry is blank |
| Settings.ParseDelay | rust67.py:245-250 | the delay is at least 1; it is the parsed value when that parses and is at least 1, and 30 otherwise |
| Settings.ParseDelayShow | rust67.py:245-250 | a delay written as a positive number is read back, and any other number gives 30 |
| Settings.SeparatorControlDelay | rust67.py:245-250 | a delay entry of U+001C then "5" falls back to 30, because `int()` raises on it |
| Settings.ParseSettings | rust67.py:228-254 | the parsed delay is at least 1 and the spam key at most one character, empty exactly when its entry is blank |
| Settings.ParsedSettingsWellFormed | rust67.py:228-254 | every parsed settings record has a delay of at least 1, a spam key of at most one character and clean tokens |
| Settings.InitialEntriesGiveDefaults | rust67.py:162-179 | the entries the window opens with parse to ["Left", "Right"], "y", 30 and the hotkey "f6" |
| Settings.InitialActivation | rust67.py:164 | "Left, Right" parses to the tokens ["Left", "Right"] |
| Settings.InitialDelay | rust67.py:174 | "30" parses to the default delay |
| Settings.InitialHotkey | rust67.py:179 | "F6" reads back as the hotkey "f6" |
| SpamLoop.IsHeld | rust67.py:44-49 | defines when one token is held: by its mouse entry when it names one, otherwise by the held-key set (no contract; see `UnrequiredKeyIrrelevant`) |
| SpamLoop.AllHeld | rust67.py:42-49 | defines `all_down` as every token held (no contract; `AllDown` is proved against it, and `HeldMonotone` and `DefaultActivation` state its properties) |
| SpamLoop.AllDown | rust67.py:42-49 | the `all_down` loop is true exactly when every required token is held |
| SpamLoop.TickDecision | rust67.py:36-61 | an emission happens exactly when the loop is enabled, the key is non-empty and every token is held, and it waits the delay; otherwise it idles 5 ms when enabled and 10 ms when disabled; with no tokens it always fires |
| SpamLoop.ParsedTickWaits | rust67.py:36-61 | with parsed settings, every iteration waits at least 1 ms and emits a single non-whitespace character |
| SpamLoop.UnrequiredKeyIrrelevant | rust67.py:42-49 | pressing or releasing a key that is not a token does not change `all_down` |
| SpamLoop.HeldMonotone | rust67.py:42-49 | holding more keys and buttons never stops the tokens from being held |
| SpamLoop.DefaultActivation | rust67.py:27-61 | with the defaults, the loop emits "y" and waits 30 ms exactly when Left and Right are both down, whatever keys are held |
| SpamLoop.EmptySpamKeyNeverFires | rust67.py:51 | an empty spam key never fires |
| App.ButtonName | rust67.py:65-71 | Left, Right and Middle write their own entry of the mouse map |
| App.AppState.constructor | rust67.py:17-24 | at start-up the spammer is enabled, the hotkey is "f6", nothing is held and the label says ON |
| App.AppState.OpenWindow | rust67.py:137 | the main window exists from now on, and the state stays well formed |
| App.AppState.OnClick | rust67.py:65-71 | a click writes only the entry of its button, and any other button changes nothing |
| App.AppState.OnKeyPress | rust67.py:89-104 | a press adds the normalized key and flips `enabled` exactly when the key is the lowered hotkey; it asks to quit exactly on "q" with a Ctrl key held, and to minimize exactly on "m" with a Ctrl key held and the window open |
| App.AppState.OnKeyRelease | rust67.py:107-109 | a release discards only the normalized key and leaves `enabled` alone |
| App.AppState.Toggle | rust67.py:185-191 | the button flips `enabled`, and the label reads "Status: ON" in green exactly when it is on and "Status: OFF" in red otherwise |
| App.AppState.StartMove | rust67.py:208-212 | a drag starts, recording the pointer offset, only when an Alt key and Left are held; otherwise the record is unchanged |
| App.AppState.DoDrag | rust67.py:214-218 | while dragging, the window moves to the pointer's root position less the offset; otherwise it does not move |
| App.AppState.StopDrag | rust67.py:220-221 | releasing the button always ends the drag, and the state stays well formed |
| App.AppState.ReadSettings | rust67.py:228-254 | a settings read stores the parsed hotkey and returns the parsed settings |
| App.AppState.SpamTick | rust67.py:35-61 | one iteration decides as `TickDecision` on the current state, and it updates the hotkey only when enabled |
| App.HotkeyDisables | rust67.py:89-96 | pressing and releasing F6 while enabled makes the next iteration idle 10 ms and leaves the status label unchanged |
| App.HotkeyResumes | rust67.py:89-96 | a second F6 with Left and Right held resumes emitting "y" every 30 ms |
| App.F6Normalizes | rust67.py:74-78 | the F6 key normalizes to "f6" |
| App.ChordScenario | rust67.py:36-57 | with the defaults, pressing Left and Right fires "y" and waits 30 ms |
| App.ReleaseScenario | rust67.py:36-59 | with the defaults, releasing Right stops the firing |
| App.PlainQScenario | rust67.py:103 | Q without Ctrl asks for nothing |
| App.CtrlScenario | rust67.py:98-104 | with a Ctrl key down and the window open, M asks to minimize and Q asks to quit |
| App.QIsNoCtrl | rust67.py:81-82 | "q" is not a Ctrl key |
| App.CtrlStaysDown | rust67.py:81-82 | a held Ctrl key keeps `any_ctrl_down` true while other keys go down |
| App.DragScenario | rust67.py:208-221 | Alt+Left then a motion to (100, 200) moves the window to (95, 193), and after the release a motion does nothing |
| App.AltNormalizes | rust67.py:74-78 | the left Alt key normalizes to "alt_l" |

## Left out

- The tkinter window is not modelled: construction, styling, the icon, auto-sizing, the `<Map>` rebind and the geometry string (rust67.py:136-203, 259-268). Only the status label's text and colour, the drag record and whether the main window exists (`hasWindow`, for `main_window` at rust67.py:137) are kept. `DoDrag` returns the new position instead of calling `window.geometry`.
- The pynput listeners and the keyboard `Controller` are not modelled. An emission is returned as `Emit(key, waitMs)`. The press and release calls, and the exception they may raise and that is ignored, are left out. So is what those calls may feed back: the operating system's hooks usually deliver injected key events to the keyboard listener as well. If they do, an emitted spam key goes through `on_key_press` (rust67.py:89-104) like a typed one. A spam key equal to the toggle hotkey then flips `enabled` on its first emission, and a spam key "q" while a Ctrl key is held ends the process. In the model, an emission changes no state.
- The daemon thread is not modelled. Neither is the `while program_alive` loop around an iteration, nor the unsynchronized sharing of globals between the loop and the listener threads. One iteration is one call of `SpamTick`, and the sleep is the wait it returns.
- The delay is kept in whole milliseconds. The float `delay / 1000.0` and the sleeps' real timing are left out (rust67.py:40, 57). So is the crash of the spam thread on a huge delay: `delay / 1000.0` overflows for delays of about 1.8e308 and more, and `time.sleep` raises for delays above about 9.2e12 ms; the model keeps returning actions for any delay.
- `os._exit(0)` for Ctrl+Q and the SELF DESTRUCT button become the `Quit` request or are left out. `minimize_window` becomes the `Minimize` request, with no window states. `deiconify_restore` (rust67.py:124-129) is never called, because the `<Map>` binding uses its own lambda, so it is left out.
- The `x, y` arguments of `on_click` are not modelled, because the handler never reads them. Buttons other than Left, Right and Middle are the single value `Other`.
- Text.Lower: only ASCII letters are lowered, because Python's full Unicode case mapping (including characters that lower to two characters) is not modelled.
- PyInt.ParseInt: only ASCII digits are accepted, because Python's `int()` also reads other Unicode decimal digits, which are not modelled.
- PyInt.ParseInt: the limit of 4300 digits that Python 3.11 and later put on `int()` of a string is not modelled, because it depends on the Python version and setting; the model accepts numbers of any length.
- App.AppState.OnKeyPress: the model does not capture that the minimize is scheduled on the window's event loop rather than done at once.
