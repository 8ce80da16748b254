/**
 * The program's shared runtime state and the handlers that change it: the
 * mouse and keyboard listeners, the settings reader, one spam-loop
 * iteration, the window's Toggle button and its Alt+Left drag.
 */
module App {
  import opened Wrappers
  import opened Text
  import opened Keys
  import opened Settings
  import opened SpamLoop

  /** A mouse button as the mouse listener reports it; `Other` covers the extra buttons. */
  datatype Button = Left | Right | Middle | Other

  /** The entry of the mouse-button map a button writes. */
  function ButtonName(b: Button): (name: string)
    requires !b.Other?
    ensures name in MouseNames
  {
    match b
    case Left => "Left"
    case Right => "Right"
    case Middle => "Middle"
  }

  /** What a key press asks of the window and the process besides the state change. */
  datatype Request = NoRequest | Minimize | Quit

  datatype Point = Point(x: int, y: int)

  const StatusOn: string := "Status: ON"
  const StatusOff: string := "Status: OFF"
  const ColorOn: string := "#55ff55"
  const ColorOff: string := "#ff5555"

  const AllReleased: map<string, bool> := map["Left" := false, "Right" := false, "Middle" := false]

  class AppState {
    /** Whether the spam loop may fire. */
    var enabled: bool
    /** The toggle hotkey as last read from its entry. */
    var toggleHotkey: string
    /** The normalized names of the keys held down. */
    var keyStates: set<string>
    /** Which of Left, Right and Middle are held down. */
    var mouseStates: map<string, bool>
    /** Whether the main window exists yet. */
    var hasWindow: bool
    /** The drag record: the pointer offset inside the window and whether a drag is on. */
    var dragX: int
    var dragY: int
    var dragging: bool
    /** The status label's text and colour. */
    var statusText: string
    var statusColor: string

    ghost predicate Valid()
      reads this
    {
      && mouseStates.Keys == MouseNames
      && toggleHotkey != [] && IsLowerCase(toggleHotkey)
      && (forall k :: k in keyStates ==> IsLowerCase(k))
      && ((statusText == StatusOn && statusColor == ColorOn) || (statusText == StatusOff && statusColor == ColorOff))
    }

    /** The state at start-up: enabled, hotkey "f6", nothing held, no window yet. */
    constructor ()
      ensures Valid()
      ensures enabled && toggleHotkey == DefaultHotkey
      ensures keyStates == {} && mouseStates == AllReleased
      ensures !hasWindow && !dragging && dragX == 0 && dragY == 0
      ensures statusText == StatusOn && statusColor == ColorOn
    {
      enabled := true;
      toggleHotkey := DefaultHotkey;
      keyStates := {};
      mouseStates := AllReleased;
      hasWindow := false;
      dragX, dragY, dragging := 0, 0, false;
      statusText, statusColor := StatusOn, ColorOn;
    }

    /** The main window has been created. */
    method OpenWindow()
      requires Valid()
      modifies this`hasWindow
      ensures Valid()
      ensures hasWindow
    {
      hasWindow := true;
    }

    /** `on_click`: a Left, Right or Middle transition writes that entry only. */
    method OnClick(button: Button, pressed: bool)
      requires Valid()
      modifies this`mouseStates
      ensures Valid()
      ensures button.Other? ==> mouseStates == old(mouseStates)
      ensures !button.Other? ==> mouseStates == old(mouseStates)[ButtonName(button) := pressed]
    {
      if !button.Other? {
        mouseStates := mouseStates[ButtonName(button) := pressed];
      }
    }

    /**
     * `on_key_press`: the normalized key becomes held; the hotkey flips
     * `enabled`; with a Ctrl key held, "q" asks to quit and "m" asks to
     * minimize once the window exists.
     */
    method OnKeyPress(key: Key) returns (request: Request)
      requires Valid()
      modifies this`keyStates, this`enabled
      ensures Valid()
      ensures keyStates == old(keyStates) + {NormalizeKey(key)}
      ensures enabled == if NormalizeKey(key) == toggleHotkey then !old(enabled) else old(enabled)
      ensures Keyboard(enabled, keyStates) == Step(old(Keyboard(enabled, keyStates)), Press(key), toggleHotkey)
      ensures request == Quit <==> NormalizeKey(key) == "q" && AnyCtrlDown(keyStates)
      ensures request == Minimize <==> NormalizeKey(key) == "m" && AnyCtrlDown(keyStates) && hasWindow
    {
      var k := NormalizeKey(key);
      keyStates := keyStates + {k};
      LowerOfLowerCase(toggleHotkey);
      if k == Lower(toggleHotkey) {
        enabled := !enabled;
      }
      request := NoRequest;
      if k == "m" && AnyCtrlDown(keyStates) && hasWindow {
        request := Minimize;
      }
      if k == "q" && AnyCtrlDown(keyStates) {
        request := Quit;
      }
    }

    /** `on_key_release`: the normalized key is no longer held; nothing else changes. */
    method OnKeyRelease(key: Key)
      requires Valid()
      modifies this`keyStates
      ensures Valid()
      ensures keyStates == old(keyStates) - {NormalizeKey(key)}
      ensures Keyboard(enabled, keyStates) == Step(old(Keyboard(enabled, keyStates)), Release(key), toggleHotkey)
    {
      keyStates := keyStates - {NormalizeKey(key)};
    }

    /** The Toggle button: flips `enabled` and shows it on the status label. */
    method Toggle()
      requires Valid()
      modifies this`enabled, this`statusText, this`statusColor
      ensures Valid()
      ensures enabled == !old(enabled)
      ensures statusText == StatusOn <==> enabled
      ensures statusColor == if enabled then ColorOn else ColorOff
    {
      enabled := !enabled;
      if enabled {
        statusText, statusColor := StatusOn, ColorOn;
      } else {
        statusText, statusColor := StatusOff, ColorOff;
      }
    }

    /** `start_move`: a drag starts, at pointer offset (x, y), only with an Alt key and Left held. */
    method StartMove(x: int, y: int)
      requires Valid()
      modifies this`dragging, this`dragX, this`dragY
      ensures Valid()
      ensures AnyAltDown(keyStates) && mouseStates["Left"] ==> dragging && dragX == x && dragY == y
      ensures !(AnyAltDown(keyStates) && mouseStates["Left"]) ==>
        dragging == old(dragging) && dragX == old(dragX) && dragY == old(dragY)
    {
      if AnyAltDown(keyStates) && mouseStates["Left"] {
        dragging := true;
        dragX := x;
        dragY := y;
      }
    }

    /** `do_drag`: while dragging, the window moves to the pointer's root position less the offset. */
    method DoDrag(xRoot: int, yRoot: int) returns (move: Option<Point>)
      ensures move.Some? <==> dragging
      ensures move.Some? ==> move.value.x + dragX == xRoot && move.value.y + dragY == yRoot
    {
      if dragging {
        move := Some(Point(xRoot - dragX, yRoot - dragY));
      } else {
        move := None;
      }
    }

    /** `stop_drag`: releasing the button always ends the drag. */
    method StopDrag()
      requires Valid()
      modifies this`dragging
      ensures Valid()
      ensures !dragging
    {
      dragging := false;
    }

    /** `get_settings`: stores the parsed toggle hotkey and returns the parsed settings. */
    method ReadSettings(e: Entries) returns (s: Settings)
      requires Valid()
      modifies this`toggleHotkey
      ensures Valid()
      ensures toggleHotkey == ParseToggleHotkey(e.toggle)
      ensures s == ParseSettings(e)
    {
      var parts := ActivationParts(e.activation);
      var fixed := FixTokens(parts);
      s := Settings(fixed, ParseSpamKey(e.spamKey), ParseDelay(e.delay));
      toggleHotkey := ParseToggleHotkey(e.toggle);
    }

    /**
     * One iteration of `spam_loop`: when enabled it reads the settings (and
     * with them the toggle hotkey) and decides; when disabled it only idles.
     */
    method SpamTick(e: Entries) returns (action: Action)
      requires Valid()
      modifies this`toggleHotkey
      ensures Valid()
      ensures action == TickDecision(enabled, ParseSettings(e), mouseStates, keyStates)
      ensures toggleHotkey == if enabled then ParseToggleHotkey(e.toggle) else old(toggleHotkey)
    {
      if enabled {
        var s := ReadSettings(e);
        var allDown := AllDown(s.required, mouseStates, keyStates);
        if allDown && s.spamKey != [] {
          action := Emit(s.spamKey, s.delay);
        } else {
          action := Idle(IdleMs);
        }
      } else {
        action := Idle(DisabledMs);
      }
    }
  }

  // ------------------------------------------------------------ scenarios

  /**
   * Pressing and releasing F6 (any key that normalizes to "f6") while the
   * loop is enabled makes its next iteration idle 10 ms, whatever is held
   * and whatever the entries say, and leaves the status label as it was,
   * since only the Toggle button writes it.
   */
  method HotkeyDisables(app: AppState, f6: Key, e: Entries) returns (during: Action)
    requires app.Valid() && app.enabled && app.toggleHotkey == DefaultHotkey
    requires NormalizeKey(f6) == DefaultHotkey
    modifies app
    ensures during == Idle(DisabledMs)
    ensures !app.enabled && app.statusText == old(app.statusText)
  {
    var request := app.OnKeyPress(f6);
    app.OnKeyRelease(f6);
    during := app.SpamTick(e);
  }

  /**
   * Pressing and releasing F6 again while disabled, with Left and Right held
   * and entries that parse to the defaults (as the window's initial entries
   * do, Settings.InitialEntriesGiveDefaults), resumes the emissions.
   */
  method HotkeyResumes(app: AppState, f6: Key, e: Entries) returns (after: Action)
    requires app.Valid() && !app.enabled && app.toggleHotkey == DefaultHotkey
    requires app.mouseStates["Left"] && app.mouseStates["Right"]
    requires NormalizeKey(f6) == DefaultHotkey
    requires ParseSettings(e) == Settings(DefaultRequired, DefaultKey, DefaultDelay)
    modifies app
    ensures after == Emit("y", 30)
    ensures app.enabled
  {
    var request := app.OnKeyPress(f6);
    app.OnKeyRelease(f6);
    DefaultActivation(app.mouseStates, app.keyStates);
    after := app.SpamTick(e);
  }

  /** The F6 key of the keyboard listener normalizes to the default hotkey. */
  lemma F6Normalizes()
    ensures NormalizeKey(Named("f6")) == DefaultHotkey
  {
    PlainNameNormalizes("f6");
  }

  /** With the default settings, pressing Left and Right fires "y" and waits 30 ms. */
  method ChordScenario(app: AppState, e: Entries) returns (both: Action)
    requires app.Valid() && app.enabled
    requires ParseSettings(e) == Settings(DefaultRequired, DefaultKey, DefaultDelay)
    modifies app
    ensures both == Emit("y", 30)
  {
    app.OnClick(Left, true);
    app.OnClick(Right, true);
    DefaultActivation(app.mouseStates, app.keyStates);
    both := app.SpamTick(e);
  }

  /** With the default settings, releasing Right stops the firing, whatever else is held. */
  method ReleaseScenario(app: AppState, e: Entries) returns (released: Action)
    requires app.Valid() && app.enabled
    requires ParseSettings(e) == Settings(DefaultRequired, DefaultKey, DefaultDelay)
    modifies app
    ensures released == Idle(IdleMs)
  {
    app.OnClick(Right, false);
    DefaultActivation(app.mouseStates, app.keyStates);
    released := app.SpamTick(e);
  }

  /** With no Ctrl key held, Q asks for nothing (`q` is any key that normalizes to "q"). */
  method PlainQScenario(app: AppState, q: Key) returns (plainQ: Request)
    requires app.Valid() && !AnyCtrlDown(app.keyStates)
    requires NormalizeKey(q) == "q"
    modifies app
    ensures plainQ == NoRequest
  {
    QIsNoCtrl(app.keyStates);
    plainQ := app.OnKeyPress(q);
  }

  /**
   * With the window open and a Ctrl key down, M asks to minimize and Q asks
   * to quit (`q`, `m` and `ctrl` are any keys that normalize to "q", "m"
   * and "ctrl_l").
   */
  method CtrlScenario(app: AppState, q: Key, m: Key, ctrl: Key) returns (ctrlM: Request, ctrlQ: Request)
    requires app.Valid() && app.hasWindow
    requires NormalizeKey(q) == "q" && NormalizeKey(m) == "m" && NormalizeKey(ctrl) == "ctrl_l"
    modifies app
    ensures ctrlM == Minimize && ctrlQ == Quit
  {
    var none := app.OnKeyPress(ctrl);
    CtrlStaysDown(app.keyStates, "m");
    ctrlM := app.OnKeyPress(m);
    CtrlStaysDown(app.keyStates, "q");
    ctrlQ := app.OnKeyPress(q);
  }

  /** "q" is not a Ctrl key. */
  lemma QIsNoCtrl(keys: set<string>)
    ensures AnyCtrlDown(keys + {"q"}) == AnyCtrlDown(keys)
  {
    assert !StartsWith("q", "ctrl");
  }

  /** A held Ctrl key stays held while other keys go down. */
  lemma CtrlStaysDown(keys: set<string>, k: string)
    requires "ctrl_l" in keys
    ensures AnyCtrlDown(keys + {k})
  {
    assert StartsWith("ctrl_l", "ctrl");
  }

  /**
   * Alt+Left starts a drag; the window follows the pointer until the button
   * is released (`alt` is any key that normalizes to "alt_l").
   */
  method DragScenario(app: AppState, alt: Key) returns (moving: Option<Point>, stopped: Option<Point>)
    requires app.Valid() && NormalizeKey(alt) == "alt_l"
    modifies app
    ensures moving == Some(Point(95, 193))
    ensures stopped == None
  {
    var none := app.OnKeyPress(alt);
    assert AnyAltDown(app.keyStates) by {
      assert "alt_l" in app.keyStates && StartsWith("alt_l", "alt");
    }
    app.OnClick(Left, true);
    app.StartMove(5, 7);
    moving := app.DoDrag(100, 200);
    app.StopDrag();
    stopped := app.DoDrag(120, 220);
  }

  /** The left Alt key of the keyboard listener normalizes to "alt_l". */
  lemma AltNormalizes()
    ensures NormalizeKey(Named("alt_l")) == "alt_l"
  {
    PlainNameNormalizes("alt_l");
  }
}
