/**
 * Keys as the keyboard listener reports them, `normalize_key`, the modifier
 * checks `any_ctrl_down` / `any_alt_down`, and the effect of a stream of key
 * presses and releases on the held-key set and the enabled flag.
 */
module Keys {
  import opened Text
  import opened PyInt
  import opened Wrappers

  /**
   * A key event's key: a key code carrying a character, a named key of the
   * `Key` enumeration (`Key.ctrl_l`, `Key.f6`, ...), or a key code that has
   * no character and only a virtual-key number.
   */
  datatype Key = Char(c: char) | Named(name: string) | Code(vk: nat)

  /** `str(key)` for the keys that carry no character. */
  function KeyText(key: Key): string
    requires !key.Char?
  {
    match key
    case Named(name) => "Key." + name
    case Code(vk) => "<" + ShowNat(vk) + ">"
  }

  /**
   * `normalize_key`: the lowered character when the key has one, otherwise
   * `str(key)` with every "Key." removed, lowered.
   */
  function NormalizeKey(key: Key): (k: string)
    ensures IsLowerCase(k)
    ensures key.Char? ==> k == [LowerChar(key.c)]
  {
    if key.Char? then [LowerChar(key.c)] else Lower(RemoveAll(KeyText(key), "Key."))
  }

  /** A named key normalizes to its lowered name (when the name does not itself hold "Key."). */
  lemma NormalizeNamed(name: string)
    requires !Contains(name, "Key.")
    ensures NormalizeKey(Named(name)) == Lower(name)
  {
    assert StartsWith("Key." + name, "Key.");
    assert ("Key." + name)[4..] == name;
  }

  /** A key code without a character normalizes to "<vk>". */
  lemma NormalizeCode(vk: nat)
    ensures NormalizeKey(Code(vk)) == "<" + ShowNat(vk) + ">"
  {
    var t := "<" + ShowNat(vk) + ">";
    assert 'K' !in t by {
      forall k | 0 <= k < |t| ensures t[k] != 'K' {
        if 0 < k < |t| - 1 { assert t[k] == ShowNat(vk)[k - 1]; }
      }
    }
    NotContainsFirstChar(t, "Key.");
    assert IsLowerCase(t) by {
      forall k | 0 <= k < |t| ensures !IsUpper(t[k]) {
        if 0 < k < |t| - 1 { assert t[k] == ShowNat(vk)[k - 1]; }
      }
    }
    LowerOfLowerCase(t);
  }

  /** Shift+A and A are the same held key. */
  lemma NormalizeIgnoresCase(c: char)
    ensures NormalizeKey(Char(c)) == NormalizeKey(Char(LowerChar(c)))
  {
  }

  /** `any(k.startswith(prefix) for k in keys)`. */
  predicate AnyHeldWithPrefix(keys: set<string>, prefix: string) {
    exists k :: k in keys && StartsWith(k, prefix)
  }

  /** `any_ctrl_down`: some held key's name starts with "ctrl". */
  predicate AnyCtrlDown(keys: set<string>) {
    AnyHeldWithPrefix(keys, "ctrl")
  }

  /** `any_alt_down`: some held key's name starts with "alt". */
  predicate AnyAltDown(keys: set<string>) {
    AnyHeldWithPrefix(keys, "alt")
  }

  /** A named key whose name is lower case and holds no 'K' normalizes to its name. */
  lemma PlainNameNormalizes(name: string)
    requires 'K' !in name && IsLowerCase(name)
    ensures NormalizeKey(Named(name)) == name
  {
    NotContainsFirstChar(name, "Key.");
    NormalizeNamed(name);
    LowerOfLowerCase(name);
  }

  /** Both control keys, and the generic one, count as Ctrl. */
  lemma CtrlKeysCount(name: string, keys: set<string>)
    requires name in {"ctrl", "ctrl_l", "ctrl_r"}
    ensures AnyCtrlDown(keys + {NormalizeKey(Named(name))})
  {
    assert StartsWith(name, "ctrl") && name[..4] == "ctrl";
    assert 'K' !in name && IsLowerCase(name);
    PlainNameNormalizes(name);
    assert name in keys + {name};
  }

  /** A single character is never a Ctrl or Alt modifier. */
  lemma CharIsNoModifier(c: char, keys: set<string>)
    ensures AnyCtrlDown(keys + {NormalizeKey(Char(c))}) == AnyCtrlDown(keys)
    ensures AnyAltDown(keys + {NormalizeKey(Char(c))}) == AnyAltDown(keys)
  {
  }

  // ------------------------------------------------------------ key events

  datatype KeyEvent = Press(key: Key) | Release(key: Key)

  /** The part of the runtime state that keyboard events change. */
  datatype Keyboard = Keyboard(enabled: bool, held: set<string>)

  /**
   * `on_key_press` / `on_key_release` on the held-key set and the enabled
   * flag: a press adds the normalized key and flips `enabled` when it equals
   * the lowered toggle hotkey; a release discards the normalized key.
   */
  function Step(kb: Keyboard, ev: KeyEvent, hotkey: string): Keyboard {
    var k := NormalizeKey(ev.key);
    match ev
    case Press(_) => Keyboard(if k == Lower(hotkey) then !kb.enabled else kb.enabled, kb.held + {k})
    case Release(_) => Keyboard(kb.enabled, kb.held - {k})
  }

  /** The state after a stream of key events, in order. */
  function Replay(kb: Keyboard, evs: seq<KeyEvent>, hotkey: string): Keyboard
    decreases |evs|
  {
    if evs == [] then kb else Replay(Step(kb, evs[0], hotkey), evs[1..], hotkey)
  }

  /** The number of presses of the toggle hotkey in a stream. */
  function HotkeyPresses(evs: seq<KeyEvent>, hotkey: string): nat {
    if evs == [] then 0
    else
      var flips := if evs[0].Press? && NormalizeKey(evs[0].key) == Lower(hotkey) then 1 else 0;
      flips + HotkeyPresses(evs[1..], hotkey)
  }

  /**
   * For a fixed toggle hotkey, every press of it flips `enabled` exactly once
   * and nothing else does: after a stream, `enabled` has flipped iff the
   * hotkey was pressed an odd number of times (however its releases are
   * interleaved). The stream is one in which the hotkey is not rewritten
   * between events, as an enabled spam-loop iteration may do, and in which
   * no Ctrl+Q ends the process.
   */
  lemma {:induction false} EnabledAfterReplay(kb: Keyboard, evs: seq<KeyEvent>, hotkey: string)
    ensures Replay(kb, evs, hotkey).enabled == (kb.enabled != (HotkeyPresses(evs, hotkey) % 2 == 1))
    decreases |evs|
  {
    if evs != [] {
      EnabledAfterReplay(Step(kb, evs[0], hotkey), evs[1..], hotkey);
    }
  }

  /** The last event in a stream that touches held key `k`: `Some(true)` for a press. */
  function LastTouch(evs: seq<KeyEvent>, k: string): Option<bool> {
    if evs == [] then None
    else if NormalizeKey(evs[|evs| - 1].key) == k then Some(evs[|evs| - 1].Press?)
    else LastTouch(evs[..|evs| - 1], k)
  }

  /**
   * A key is held after a stream exactly when the last event on it was a
   * press, or no event touched it and it was held before: each press and
   * release changes its own key only.
   */
  lemma {:induction false} HeldAfterReplay(kb: Keyboard, evs: seq<KeyEvent>, hotkey: string, k: string)
    ensures k in Replay(kb, evs, hotkey).held <==>
      match LastTouch(evs, k)
      case Some(pressed) => pressed
      case None => k in kb.held
    decreases |evs|
  {
    if evs != [] {
      var init := evs[..|evs| - 1];
      ReplaySnoc(kb, init, evs[|evs| - 1], hotkey);
      assert init + [evs[|evs| - 1]] == evs;
      HeldAfterReplay(kb, init, hotkey, k);
    }
  }

  /** Replaying one more event is one more step. */
  lemma {:induction false} ReplaySnoc(kb: Keyboard, evs: seq<KeyEvent>, ev: KeyEvent, hotkey: string)
    ensures Replay(kb, evs + [ev], hotkey) == Step(Replay(kb, evs, hotkey), ev, hotkey)
    decreases |evs|
  {
    if evs == [] {
      assert evs + [ev] == [ev];
    } else {
      assert (evs + [ev])[1..] == evs[1..] + [ev];
      ReplaySnoc(Step(kb, evs[0], hotkey), evs[1..], ev, hotkey);
    }
  }
}
