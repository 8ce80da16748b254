/**
 * The settings reader `get_settings`: the four entry texts of the window
 * become the activation tokens, the spam key, the delay in milliseconds and
 * the toggle hotkey, each with its fallback.
 */
module Settings {
  import opened Wrappers
  import opened Text
  import opened PyInt

  const DefaultRequired: seq<string> := ["Left", "Right"]
  const DefaultKey: string := "y"
  const DefaultDelay: int := 30
  const DefaultHotkey: string := "f6"

  /** The three activation names that stand for mouse buttons. */
  const MouseNames: set<string> := {"Left", "Right", "Middle"}

  /** The texts of the activation, spam-key, delay and toggle-hotkey entries. */
  datatype Entries = Entries(activation: string, spamKey: string, delay: string, toggle: string)

  /**
   * What the window's entries hold when it opens: "Left, Right", the default
   * key, the default delay written out, and the default hotkey upper-cased.
   */
  const InitialEntries: Entries := Entries("Left, Right", DefaultKey, "30", "F6")

  /** The record `get_settings` returns. */
  datatype Settings = Settings(required: seq<string>, spamKey: string, delay: int)

  // ------------------------------------------------------------ toggle hotkey

  /** `entry.strip().lower() or "f6"`. */
  function ParseToggleHotkey(entry: string): (h: string)
    ensures h != [] && IsLowerCase(h)
    ensures Trimmed(h)
    ensures Strip(entry) != [] ==> h == Lower(Strip(entry))
    ensures Strip(entry) == [] ==> h == DefaultHotkey
  {
    var h := Lower(Strip(entry));
    if h == [] then DefaultHotkey else h
  }

  // ------------------------------------------------------------ activation tokens

  /** `[p.strip() for p in parts if p.strip()]`. */
  function NonBlankParts(parts: seq<string>): (r: seq<string>)
    ensures |r| <= |parts|
    ensures forall i :: 0 <= i < |r| ==> r[i] != [] && Trimmed(r[i])
  {
    if parts == [] then []
    else (if Strip(parts[0]) == [] then [] else [Strip(parts[0])]) + NonBlankParts(parts[1..])
  }

  /** Every part is whitespace only. */
  predicate AllBlank(parts: seq<string>) {
    forall p :: p in parts ==> Strip(p) == []
  }

  /** Nothing is left exactly when every part is blank. */
  lemma {:induction false} NonBlankPartsEmpty(parts: seq<string>)
    ensures NonBlankParts(parts) == [] <==> AllBlank(parts)
  {
    if parts != [] {
      var rest := parts[1..];
      NonBlankPartsEmpty(rest);
      AllBlankCons(parts);
      if Strip(parts[0]) != [] {
        assert NonBlankParts(parts)[0] == Strip(parts[0]);
      }
    }
  }

  /** A list is all blank when its head is blank and its tail is all blank. */
  lemma AllBlankCons(parts: seq<string>)
    requires parts != []
    ensures AllBlank(parts) <==> Strip(parts[0]) == [] && AllBlank(parts[1..])
  {
    assert parts == [parts[0]] + parts[1..];
  }

  /** Filtering distributes over concatenation. */
  lemma {:induction false} NonBlankPartsAppend(a: seq<string>, b: seq<string>)
    ensures NonBlankParts(a + b) == NonBlankParts(a) + NonBlankParts(b)
    decreases |a|
  {
    if a != [] {
      assert (a + b)[0] == a[0];
      assert (a + b)[1..] == a[1..] + b;
      NonBlankPartsAppend(a[1..], b);
    } else {
      assert a + b == b;
    }
  }

  /** The stripped comma-separated parts of the activation entry that are not blank. */
  function ActivationParts(raw: string): seq<string> {
    NonBlankParts(Split(Strip(raw), ','))
  }

  /**
   * The token one stripped part becomes: "Left", "Right" or "Middle" when it
   * is that mouse name in any case, otherwise the part lowered.
   */
  function CanonicalToken(p: string): (t: string)
    ensures Lower(p) == "left" <==> t == "Left"
    ensures Lower(p) == "right" <==> t == "Right"
    ensures Lower(p) == "middle" <==> t == "Middle"
    ensures t !in MouseNames ==> t == Lower(p) && t !in {"left", "right", "middle"}
    ensures Lower(t) == Lower(p)
  {
    var pl := Lower(p);
    LowerIdempotent(p);
    assert Lower(pl) == pl;
    if pl == "left" then "Left"
    else if pl == "right" then "Right"
    else if pl == "middle" then "Middle"
    else pl
  }

  /** The tokens of a list of parts, one per part, in order. */
  function CanonicalTokens(parts: seq<string>): seq<string> {
    seq(|parts|, i requires 0 <= i < |parts| => CanonicalToken(parts[i]))
  }

  /**
   * The loop of `get_settings` that appends one canonical token per part to
   * `fixed`.
   */
  method FixTokens(parts: seq<string>) returns (fixed: seq<string>)
    ensures fixed == CanonicalTokens(parts)
  {
    fixed := [];
    for n := 0 to |parts|
      invariant |fixed| == n
      invariant forall i :: 0 <= i < n ==> fixed[i] == CanonicalToken(parts[i])
    {
      var pl := Lower(parts[n]);
      if pl == "left" {
        fixed := fixed + ["Left"];
      } else if pl == "right" {
        fixed := fixed + ["Right"];
      } else if pl == "middle" {
        fixed := fixed + ["Middle"];
      } else {
        fixed := fixed + [pl];
      }
    }
  }

  /** The activation tokens `get_settings` returns for the activation entry. */
  function ParseActivation(raw: string): (tokens: seq<string>)
    ensures |tokens| == |ActivationParts(raw)|
    ensures |tokens| <= CountChar(Strip(raw), ',') + 1
  {
    SplitCount(Strip(raw), ',');
    CanonicalTokens(ActivationParts(raw))
  }

  /** No token is empty and none has whitespace at either end. */
  lemma ActivationTokensClean(raw: string)
    ensures forall i :: 0 <= i < |ParseActivation(raw)| ==>
      ParseActivation(raw)[i] != [] && Trimmed(ParseActivation(raw)[i])
  {
    var parts := ActivationParts(raw);
    forall i | 0 <= i < |parts|
      ensures CanonicalToken(parts[i]) != [] && Trimmed(CanonicalToken(parts[i]))
    {
      LowerKeepsEnds(parts[i]);
    }
  }

  /**
   * One token per non-blank comma-separated part, in the parts' order: the
   * i-th part, when not blank, gives the token after those of the non-blank
   * parts before it.
   */
  lemma ActivationTokenAt(raw: string, i: nat)
    requires i < |Split(Strip(raw), ',')|
    requires Strip(Split(Strip(raw), ',')[i]) != []
    ensures var parts := Split(Strip(raw), ',');
      var n := |NonBlankParts(parts[..i])|;
      n < |ParseActivation(raw)| && ParseActivation(raw)[n] == CanonicalToken(Strip(parts[i]))
  {
    var parts := Split(Strip(raw), ',');
    assert parts == parts[..i] + [parts[i]] + parts[i + 1..];
    NonBlankPartsAppend(parts[..i] + [parts[i]], parts[i + 1..]);
    NonBlankPartsAppend(parts[..i], [parts[i]]);
  }

  /** The activation tokens are empty exactly when every comma-separated part is blank. */
  lemma ActivationEmpty(raw: string)
    ensures ParseActivation(raw) == [] ==> AllBlank(Split(Strip(raw), ','))
    ensures AllBlank(Split(Strip(raw), ',')) ==> ParseActivation(raw) == []
  {
    var parts := Split(Strip(raw), ',');
    NonBlankPartsEmpty(parts);
    var ps := NonBlankParts(parts);
    assert ActivationParts(raw) == ps;
    assert |CanonicalTokens(ps)| == |ps|;
  }

  // ------------------------------------------------------------ spam key and delay

  /** `entry.strip()[:1]`: the first character of the stripped entry, if any. */
  function ParseSpamKey(entry: string): (k: string)
    ensures |k| <= 1
    ensures k == [] <==> Strip(entry) == []
    ensures k != [] ==> k[0] == Strip(entry)[0] && !IsSpace(k[0])
  {
    var t := Strip(entry);
    if t == [] then [] else t[..1]
  }

  /** `int(entry)`, replaced by the default 30 when that raises or is below 1. */
  function ParseDelay(entry: string): (d: int)
    ensures d >= 1
    ensures ParseInt(entry).Some? && ParseInt(entry).value >= 1 ==> d == ParseInt(entry).value
    ensures ParseInt(entry).None? || ParseInt(entry).value < 1 ==> d == DefaultDelay
  {
    match ParseInt(entry)
    case None => DefaultDelay
    case Some(v) => if v < 1 then DefaultDelay else v
  }

  /** A delay written out as a positive number is read back; any other number gives the default. */
  lemma ParseDelayShow(n: int)
    ensures ParseDelay(ShowInt(n)) == if n >= 1 then n else DefaultDelay
  {
    ParseShowInt(n);
  }

  /**
   * A separator control before the number makes `int()` raise, so the delay
   * falls back to the default, although `strip()` would remove it.
   */
  lemma SeparatorControlDelay()
    ensures ParseDelay("\U{1C}5") == DefaultDelay
  {
    var e := "\U{1C}5";
    assert IsSeparatorControl(e[0]);
  }

  /** `get_settings` without its write of the toggle hotkey. */
  function ParseSettings(e: Entries): (r: Settings)
    ensures r.delay >= 1 && |r.spamKey| <= 1
    ensures r.spamKey == [] <==> AllSpace(e.spamKey)
  {
    StripEmpty(e.spamKey);
    Settings(ParseActivation(e.activation), ParseSpamKey(e.spamKey), ParseDelay(e.delay))
  }

  /** Every parsed settings record has a delay of at least 1 ms and a spam key of at most one character. */
  lemma ParsedSettingsWellFormed(e: Entries)
    ensures ParseSettings(e).delay >= 1 && |ParseSettings(e).spamKey| <= 1
    ensures forall t :: t in ParseSettings(e).required ==> t != [] && Trimmed(t)
  {
    ActivationTokensClean(e.activation);
  }

  /** The entries the window opens with parse back to the program's defaults. */
  lemma InitialEntriesGiveDefaults()
    ensures ParseSettings(InitialEntries) == Settings(DefaultRequired, DefaultKey, DefaultDelay)
    ensures ParseToggleHotkey(InitialEntries.toggle) == DefaultHotkey
  {
    InitialActivation();
    StripUntouched("y");
    InitialDelay();
    InitialHotkey();
  }

  lemma InitialDelay()
    ensures ParseDelay("30") == DefaultDelay
  {
    var d := "30";
    assert AllDigits(d) && Trimmed(d);
    DigitsTrimmed(d);
    ParseDigits(d);
    StripUntouched(d);
    assert DigitsValue(d) == DigitsValue("3") * 10 + 0 by { assert d[..1] == "3"; }
  }

  lemma InitialHotkey()
    ensures ParseToggleHotkey("F6") == DefaultHotkey
  {
    StripUntouched("F6");
    assert Lower("F6") == "f6";
  }

  lemma InitialActivation()
    ensures ParseActivation("Left, Right") == ["Left", "Right"]
  {
    InitialParts();
    CanonicalMouseNames();
  }

  lemma InitialParts()
    ensures ActivationParts("Left, Right") == ["Left", "Right"]
  {
    var raw := "Left, Right";
    StripUntouched(raw);
    InitialSplit();
    InitialNonBlank();
  }

  lemma InitialSplit()
    ensures Split("Left, Right", ',') == ["Left", " Right"]
  {
    assert "Left, Right" == "Left" + [','] + " Right";
    SplitFirst("Left", ',', " Right");
    SplitNoSeparator(" Right", ',');
  }

  lemma InitialNonBlank()
    ensures NonBlankParts(["Left", " Right"]) == ["Left", "Right"]
  {
    NonBlankPartsAppend(["Left"], [" Right"]);
    assert ["Left"] + [" Right"] == ["Left", " Right"];
    StripUntouched("Left");
    NonBlankSingle("Left");
    StripRight();
    NonBlankSingle(" Right");
  }

  lemma StripRight()
    ensures Strip(" Right") == "Right"
  {
    SliceStrip(" Right", 1, 5);
    assert " Right"[1..6] == "Right";
  }

  lemma NonBlankSingle(p: string)
    requires Strip(p) != []
    ensures NonBlankParts([p]) == [Strip(p)]
  {
    assert [p][1..] == [];
  }

  lemma CanonicalMouseNames()
    ensures CanonicalTokens(["Left", "Right"]) == ["Left", "Right"]
  {
    LowerWord("Left", "left");
    LowerWord("Right", "right");
  }

  lemma LowerWord(w: string, l: string)
    requires |w| == |l| && forall k :: 0 <= k < |w| ==> LowerChar(w[k]) == l[k]
    ensures Lower(w) == l
  {
  }
}
