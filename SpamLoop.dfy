/**
 * One iteration of `spam_loop`: whether every activation token is held, and
 * the choice between emitting the spam key and idling. The key emission and
 * the sleep are returned as an action; durations are whole milliseconds.
 */
module SpamLoop {
  import opened Text
  import opened Settings

  /** Idle time of an enabled iteration that does not fire. */
  const IdleMs: int := 5
  /** Idle time of an iteration while disabled. */
  const DisabledMs: int := 10

  /** Press and release `key`, then sleep `waitMs`; or only sleep `waitMs`. */
  datatype Action = Emit(key: string, waitMs: int) | Idle(waitMs: int)

  /**
   * A token is held when it names an entry of the mouse-button map and that
   * entry is true, or when it names no entry and is in the held-key set.
   */
  predicate IsHeld(token: string, mouse: map<string, bool>, keys: set<string>) {
    if token in mouse then mouse[token] else token in keys
  }

  predicate AllHeld(required: seq<string>, mouse: map<string, bool>, keys: set<string>) {
    forall i :: 0 <= i < |required| ==> IsHeld(required[i], mouse, keys)
  }

  /** The loop computing `all_down` over the required tokens, without stopping early. */
  method AllDown(required: seq<string>, mouse: map<string, bool>, keys: set<string>) returns (allDown: bool)
    ensures allDown == AllHeld(required, mouse, keys)
  {
    allDown := true;
    for n := 0 to |required|
      invariant allDown == forall i :: 0 <= i < n ==> IsHeld(required[i], mouse, keys)
    {
      var req := required[n];
      if req in mouse {
        if !mouse[req] {
          allDown := false;
        }
      } else {
        if req !in keys {
          allDown := false;
        }
      }
    }
  }

  /**
   * The decision of one iteration: disabled idles 10 ms; enabled emits the
   * spam key and waits the delay when every token is held and the key is
   * not empty; otherwise it idles 5 ms.
   */
  function TickDecision(enabled: bool, s: Settings, mouse: map<string, bool>, keys: set<string>): (a: Action)
    ensures a.Emit? ==> enabled && s.spamKey != [] && forall t :: t in s.required ==> IsHeld(t, mouse, keys)
    ensures enabled && s.spamKey != [] && (forall t :: t in s.required ==> IsHeld(t, mouse, keys)) ==> a.Emit?
    ensures a.Emit? ==> a.key == s.spamKey && a.waitMs == s.delay
    ensures a.Idle? ==> a.waitMs == if enabled then IdleMs else DisabledMs
    ensures enabled && s.required == [] && s.spamKey != [] ==> a == Emit(s.spamKey, s.delay)
  {
    if !enabled then Idle(DisabledMs)
    else if AllHeld(s.required, mouse, keys) && s.spamKey != [] then Emit(s.spamKey, s.delay)
    else Idle(IdleMs)
  }

  /**
   * With settings read from the entries, every iteration waits at least 1 ms,
   * and what it emits is a single non-whitespace character.
   */
  lemma ParsedTickWaits(enabled: bool, e: Entries, mouse: map<string, bool>, keys: set<string>)
    ensures TickDecision(enabled, ParseSettings(e), mouse, keys).waitMs >= 1
    ensures var a := TickDecision(enabled, ParseSettings(e), mouse, keys);
      a.Emit? ==> |a.key| == 1 && !IsSpace(a.key[0])
  {
  }

  /** Releasing a key that is not an activation token does not change whether the tokens are held. */
  lemma {:induction false} UnrequiredKeyIrrelevant(required: seq<string>, mouse: map<string, bool>, keys: set<string>, k: string)
    requires k !in required
    ensures AllHeld(required, mouse, keys - {k}) == AllHeld(required, mouse, keys + {k})
  {
    forall i | 0 <= i < |required| ensures IsHeld(required[i], mouse, keys - {k}) == IsHeld(required[i], mouse, keys + {k}) {
      assert required[i] != k;
    }
  }

  /** Holding more keys and buttons never stops the tokens from being held. */
  lemma HeldMonotone(required: seq<string>, mouse: map<string, bool>, keys: set<string>,
                     mouse': map<string, bool>, keys': set<string>)
    requires AllHeld(required, mouse, keys)
    requires keys <= keys' && mouse'.Keys == mouse.Keys
    requires forall b :: b in mouse && mouse[b] ==> mouse'[b]
    ensures AllHeld(required, mouse', keys')
  {
  }

  /**
   * The default set-up (Left and Right required, "y", 30 ms): it emits "y"
   * and waits 30 ms exactly when both Left and Right are down, whatever
   * keys are held; Left alone idles.
   */
  lemma DefaultActivation(mouse: map<string, bool>, keys: set<string>)
    requires "Left" in mouse && "Right" in mouse
    ensures TickDecision(true, Settings(DefaultRequired, DefaultKey, DefaultDelay), mouse, keys) ==
      if mouse["Left"] && mouse["Right"] then Emit("y", 30) else Idle(IdleMs)
  {
    var req := DefaultRequired;
    assert req[0] == "Left" && req[1] == "Right" && |req| == 2;
    if !mouse["Left"] {
      assert !IsHeld(req[0], mouse, keys);
    } else if !mouse["Right"] {
      assert !IsHeld(req[1], mouse, keys);
    } else {
      assert IsHeld(req[0], mouse, keys) && IsHeld(req[1], mouse, keys);
      assert AllHeld(req, mouse, keys);
    }
  }

  /** With an empty spam key nothing is ever emitted. */
  lemma EmptySpamKeyNeverFires(enabled: bool, required: seq<string>, delay: int, mouse: map<string, bool>, keys: set<string>)
    ensures TickDecision(enabled, Settings(required, "", delay), mouse, keys).Idle?
  {
  }
}
