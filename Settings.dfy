// The settings dialog (src/SettingsWindow.py): the hotkey string built from
// a captured key press, the one-rebind-at-a-time state machine on
// `current_rebind`, and resetting the four hotkeys to their defaults.
//
// A key press arrives as its three modifier flags and the text Qt gives for
// its key (QKeySequence(key).toString(), an uninterpreted string here). The
// read-only line edits and the rebind buttons are modelled by their texts.

module Settings {
  import opened Strings
  import opened Optional
  import opened Hotkeys

  /** The separator the dialog puts between the parts of a hotkey string. */
  const Separator := " + "

  const ListeningText := "Listening"
  const RebindText := "Rebind Hotkey"

  /** The settings the dialog edits, in the order of its table. */
  const HotkeySettings: seq<string> :=
    ["start_stop_hotkey", "record_hotkey", "stop_record_hotkey", "stop_play_hotkey"]

  /** The same four settings as a set, the key set of the dialog's
      per-setting maps (DefaultsMatchFallbacks proves the two agree). */
  const HotkeyKeys: set<string> :=
    {"start_stop_hotkey", "record_hotkey", "stop_record_hotkey", "stop_play_hotkey"}

  /** The table reset_to_default writes. */
  const DefaultHotkeys: map<string, string> := map[
    "start_stop_hotkey" := "F6", "record_hotkey" := "F9",
    "stop_record_hotkey" := "F10", "stop_play_hotkey" := "F8"]

  /** The default for one setting (the empty string for any other key). */
  function DefaultFor(key: string): string {
    if key in DefaultHotkeys then DefaultHotkeys[key] else ""
  }

  /** The defaults of the settings `keys`, as writing them one by one in
      order leaves them. */
  function DefaultsFor(keys: seq<string>): map<string, string> {
    if keys == [] then map[]
    else
      var key := keys[|keys| - 1];
      DefaultsFor(keys[..|keys| - 1])[key := DefaultFor(key)]
  }

  // ---------------------------------------------------------------------
  // The hotkey string

  /** The position of a part in the fixed order CTRL, SHIFT, ALT, key. */
  function PartRank(part: string): int {
    if part == "CTRL" then 0
    else if part == "SHIFT" then 1
    else if part == "ALT" then 2
    else 3
  }

  /** Whether a key name is appended: it is non-empty and not itself the
      name of a modifier. */
  predicate AppendsKey(keyName: string) {
    keyName != [] && !IsModifierName(keyName)
  }

  /** The parts of the hotkey string, given the upper-cased key name. */
  function HotkeyParts(ctrl: bool, shift: bool, alt: bool, keyName: string): seq<string> {
    (if ctrl then ["CTRL"] else [])
    + (if shift then ["SHIFT"] else [])
    + (if alt then ["ALT"] else [])
    + (if AppendsKey(keyName) then [keyName] else [])
  }

  /** The parts follow the fixed order CTRL, SHIFT, ALT, key, with no part
      twice, and there is one part per present modifier and appended key. */
  lemma HotkeyPartsOrdered(ctrl: bool, shift: bool, alt: bool, keyName: string)
    ensures var parts := HotkeyParts(ctrl, shift, alt, keyName);
      && (forall i, j :: 0 <= i < j < |parts| ==> PartRank(parts[i]) < PartRank(parts[j]))
      && |parts| == (if ctrl then 1 else 0) + (if shift then 1 else 0) + (if alt then 1 else 0)
                    + (if AppendsKey(keyName) then 1 else 0)
  {
  }

  /** Each modifier is listed exactly when it is held; any other part is
      the key name, which comes last and is there exactly when it is
      appended. */
  lemma HotkeyPartsContent(ctrl: bool, shift: bool, alt: bool, keyName: string)
    ensures var parts := HotkeyParts(ctrl, shift, alt, keyName);
      && ("CTRL" in parts <==> ctrl) && ("SHIFT" in parts <==> shift) && ("ALT" in parts <==> alt)
      && (forall p :: p in parts && !IsModifierName(p) ==> p == keyName)
      && (!IsModifierName(keyName) ==> (keyName in parts <==> AppendsKey(keyName)))
      && (AppendsKey(keyName) ==> |parts| > 0 && parts[|parts| - 1] == keyName)
  {
  }

  /** The hotkey-string builder of eventFilter: the present modifiers, then
      the upper-cased key name when it is appended, joined with " + ". */
  method BuildHotkeyString(ctrl: bool, shift: bool, alt: bool, keyText: string) returns (hotkey: string)
    ensures hotkey == Join(HotkeyParts(ctrl, shift, alt, Upper(keyText)), Separator)
  {
    var parts: seq<string> := [];
    if ctrl {
      parts := parts + ["CTRL"];
    }
    if shift {
      parts := parts + ["SHIFT"];
    }
    if alt {
      parts := parts + ["ALT"];
    }
    var keyName := Upper(keyText);
    assert keyName !in ["CTRL", "SHIFT", "ALT"] <==> !IsModifierName(keyName);
    if keyName != [] && keyName !in ["CTRL", "SHIFT", "ALT"] {
      parts := parts + [keyName];
    }
    assert parts == HotkeyParts(ctrl, shift, alt, keyName);
    hotkey := Join(parts, Separator);
  }

  // ---------------------------------------------------------------------
  // How the parser reads what the builder writes

  function Pad(present: bool): string {
    if present then " " else ""
  }

  /** A " + "-joined string of two or more parts is the first part and a
      space, the '+', then a space and the join of the rest. */
  lemma JoinSpacedHead(ps: seq<string>)
    requires |ps| >= 2
    ensures Join(ps, Separator) == (ps[0] + " ") + ['+'] + ([' '] + Join(ps[1..], Separator))
  {
    var j := Join(ps[1..], Separator);
    assert Join(ps, Separator) == ps[0] + Separator + j;
    assert Separator == [' ', '+', ' '];
    Regroup(ps[0], ' ', '+', ' ', j);
  }

  lemma Regroup(a: string, x: char, y: char, z: char, b: string)
    ensures a + [x, y, z] + b == (a + [x]) + [y] + ([z] + b)
  {
    assert [x, y, z] == [x] + [y] + [z];
  }

  /** Splitting a " + "-joined string on '+' keeps the spaces: every part
      but the first gains a leading space, every part but the last a
      trailing one. */
  lemma {:induction false} SplitSpacedJoin(ps: seq<string>)
    requires |ps| >= 1
    requires forall i :: 0 <= i < |ps| ==> '+' !in ps[i]
    ensures var qs := Split(Join(ps, Separator), '+');
      |qs| == |ps|
      && forall i :: 0 <= i < |ps| ==> qs[i] == Pad(i > 0) + ps[i] + Pad(i < |ps| - 1)
  {
    if |ps| == 1 {
      SplitNoSep(ps[0], '+');
      assert Pad(false) + ps[0] + Pad(false) == ps[0];
    } else {
      var rest := ps[1..];
      var j := Join(rest, Separator);
      SplitSpacedJoin(rest);
      var ts := Split(j, '+');
      var head := ps[0] + " ";
      JoinSpacedHead(ps);
      assert '+' !in head;
      SplitAfterPart(head, '+', [' '] + j);
      SplitCons(' ', j, '+');
      assert Split(Join(ps, Separator), '+') == [head] + ([[' '] + ts[0]] + ts[1..]);
      PaddedParts(ps, ts);
    }
  }

  /** The parts of a " + "-joined list, given the padded parts of its tail. */
  lemma PaddedParts(ps: seq<string>, ts: seq<string>)
    requires |ps| >= 2 && |ts| == |ps| - 1
    requires forall k :: 0 <= k < |ts| ==> ts[k] == Pad(k > 0) + ps[k + 1] + Pad(k < |ts| - 1)
    ensures var qs := [ps[0] + " "] + ([[' '] + ts[0]] + ts[1..]);
      forall i :: 0 <= i < |ps| ==> qs[i] == Pad(i > 0) + ps[i] + Pad(i < |ps| - 1)
  {
    var qs := [ps[0] + " "] + ([[' '] + ts[0]] + ts[1..]);
    forall i | 0 <= i < |ps|
      ensures qs[i] == Pad(i > 0) + ps[i] + Pad(i < |ps| - 1)
    {
      if i == 1 {
        assert ts[0] == Pad(false) + ps[1] + Pad(0 < |ts| - 1);
      } else if i > 1 {
        assert qs[i] == ts[i - 1];
      }
    }
  }

  /** No key-map name starts or ends with a space. */
  lemma SpacedPartIsNoKey(q: string)
    requires |q| > 0 && (q[0] == ' ' || q[|q| - 1] == ' ')
    ensures q !in KeyMap
  {
  }

  /** Any " + "-joined string of two or more '+'-free parts parses to (0, 0): the
      parser does not trim, so no part matches the key map. */
  lemma {:induction false} ParseSpacedJoin(ps: seq<string>)
    requires |ps| >= 2
    requires forall i :: 0 <= i < |ps| ==> '+' !in ps[i]
    ensures Parse(Join(ps, Separator)) == (0, 0)
  {
    var us := UpperAll(ps);
    assert Upper(Separator) == Separator;
    UpperJoin(ps, Separator);
    forall i | 0 <= i < |us| ensures '+' !in us[i] {
      UpperKeepsOut(ps[i], '+');
    }
    SplitSpacedJoin(us);
    var qs := Split(Join(us, Separator), '+');
    forall q | q in qs ensures q !in KeyMap {
      var i :| 0 <= i < |qs| && qs[i] == q;
      assert q == Pad(i > 0) + us[i] + Pad(i < |us| - 1);
      SpacedPartIsNoKey(q);
    }
    KeyCodeOfMeaning(qs);
  }

  /** A built hotkey string with a modifier and a key, or with two
      modifiers, such as "CTRL + F6", parses to (0, 0). */
  lemma FormattedComboParsesToNothing(ctrl: bool, shift: bool, alt: bool, keyText: string)
    requires '+' !in keyText || keyText == "+"
    requires |HotkeyParts(ctrl, shift, alt, Upper(keyText))| >= 2
    ensures Parse(Join(HotkeyParts(ctrl, shift, alt, Upper(keyText)), Separator)) == (0, 0)
  {
    if keyText == "+" {
      PlusKeyCombo(ctrl, shift, alt);
    } else {
      UpperKeepsOut(keyText, '+');
      ParseSpacedJoin(HotkeyParts(ctrl, shift, alt, Upper(keyText)));
    }
  }

  /** The '+' key with modifiers, such as "CTRL + +", also parses to (0, 0):
      it reads as the modifiers joined with an empty part, and a trailing
      '+'. */
  lemma PlusKeyCombo(ctrl: bool, shift: bool, alt: bool)
    requires |HotkeyParts(ctrl, shift, alt, Upper("+"))| >= 2
    ensures Parse(Join(HotkeyParts(ctrl, shift, alt, Upper("+")), Separator)) == (0, 0)
  {
    UpperFixed("+");
    var mods := (if ctrl then ["CTRL"] else []) + (if shift then ["SHIFT"] else [])
                + (if alt then ["ALT"] else []);
    assert HotkeyParts(ctrl, shift, alt, Upper("+")) == mods + ["+"];
    assert forall i :: 0 <= i < |mods| ==> mods[i] in ["CTRL", "SHIFT", "ALT"];
    var j := Join(mods, Separator);
    JoinSnoc(mods, "+", Separator);
    JoinSnoc(mods, "", Separator);
    assert Join(mods + ["+"], Separator) == Join(mods + [""], Separator) + "+" by {
      assert j + Separator + "+" == (j + Separator + "") + "+";
    }
    assert forall i :: 0 <= i < |mods + [""]| ==> '+' !in (mods + [""])[i];
    ParseSpacedJoin(mods + [""]);
    ParseTrailingPlus(Join(mods + [""], Separator));
  }

  /** A built hotkey string of one part is read back as that part: a bare
      key such as "F6" gives its code without modifiers, a lone modifier
      gives its flag and key code 0. */
  lemma FormattedSinglePartRoundTrip(ctrl: bool, shift: bool, alt: bool, keyText: string)
    requires '+' !in keyText || keyText == "+"
    requires |HotkeyParts(ctrl, shift, alt, Upper(keyText))| == 1
    ensures var part := HotkeyParts(ctrl, shift, alt, Upper(keyText))[0];
      Parse(Join(HotkeyParts(ctrl, shift, alt, Upper(keyText)), Separator))
      == (if IsKeyName(part) then KeyMap[part] else 0, ModifierFlag(part))
  {
    if keyText == "+" {
      PlusKeyAlone(ctrl, shift, alt);
      return;
    }
    var parts := HotkeyParts(ctrl, shift, alt, Upper(keyText));
    var part := parts[0];
    UpperKeepsOut(keyText, '+');
    assert '+' !in part;
    assert Upper(part) == part by {
      UpperIdempotent(keyText);
      UpperFixed("CTRL");
      UpperFixed("SHIFT");
      UpperFixed("ALT");
    }
    ParseSinglePart(part);
  }

  /** The '+' key alone is built as "+", which is read back as an unknown
      part: key code 0 and no modifiers. */
  lemma PlusKeyAlone(ctrl: bool, shift: bool, alt: bool)
    requires |HotkeyParts(ctrl, shift, alt, Upper("+"))| == 1
    ensures HotkeyParts(ctrl, shift, alt, Upper("+")) == ["+"]
    ensures !IsKeyName("+") && ModifierFlag("+") == 0
    ensures Parse(Join(["+"], Separator)) == (0, 0)
  {
    UpperFixed("+");
    ParseTrailingPlus("");
    ParseEmptyExample();
    assert "" + "+" == "+";
  }

  // ---------------------------------------------------------------------
  // Defaults

  /** Resetting twice leaves the settings as resetting once. */
  lemma ResetIdempotent(values: map<string, string>)
    ensures (values + DefaultHotkeys) + DefaultHotkeys == values + DefaultHotkeys
  {
  }

  /** The dialog's defaults are the listener's fallbacks, setting by setting,
      and cover exactly the dialog's four settings. */
  lemma DefaultsMatchFallbacks()
    ensures DefaultHotkeys.Keys == HotkeyKeys
    ensures forall k :: k in HotkeyKeys <==> k in HotkeySettings
    ensures forall i :: 0 <= i < |Bindings| ==>
      Bindings[i].setting in DefaultHotkeys && DefaultHotkeys[Bindings[i].setting] == Bindings[i].fallback
  {
  }

  /** After a reset, the listener reads back F6, F9, F10 and F8: codes 0x75,
      0x78, 0x79 and 0x77 without modifiers. */
  lemma ResetRegistersDefaultCodes(values: map<string, string>)
    ensures forall i :: 0 <= i < |Bindings| ==>
      HotkeyOf(values + DefaultHotkeys, Bindings[i]) == (0, FallbackCodes[i])
  {
    DefaultsMatchFallbacks();
    forall i | 0 <= i < |Bindings|
      ensures HotkeyOf(values + DefaultHotkeys, Bindings[i]) == (0, FallbackCodes[i])
    {
      var b := Bindings[i];
      assert Lookup(values + DefaultHotkeys, b.setting, b.fallback) == Lookup(map[], b.setting, b.fallback);
      FallbackHotkey(map[], i);
    }
  }

  /** Writing the defaults of the four settings in order gives the table. */
  lemma DefaultsForAll()
    ensures DefaultsFor(HotkeySettings) == DefaultHotkeys
  {
    var s := HotkeySettings;
    assert s[..1][..0] == [] && s[..2][..1] == s[..1] && s[..3][..2] == s[..2] && s[..4][..3] == s[..3];
    assert DefaultsFor(s[..1]) == map[s[0] := DefaultFor(s[0])];
    assert DefaultsFor(s[..2]) == DefaultsFor(s[..1])[s[1] := DefaultFor(s[1])];
    assert DefaultsFor(s[..3]) == DefaultsFor(s[..2])[s[2] := DefaultFor(s[2])];
    assert DefaultsFor(s[..4]) == DefaultsFor(s[..3])[s[3] := DefaultFor(s[3])];
    assert s[..4] == s;
  }

  lemma UnionUpdate(m: map<string, string>, d: map<string, string>, k: string, v: string)
    ensures (m + d)[k := v] == m + d[k := v]
  {
  }

  /** Writing the default of the next key extends the defaults written. */
  lemma WriteOneDefault(m: map<string, string>, keys: seq<string>, i: nat)
    requires i < |keys|
    ensures (m + DefaultsFor(keys[..i]))[keys[i] := DefaultFor(keys[i])] == m + DefaultsFor(keys[..i + 1])
  {
    assert keys[..i + 1][..i] == keys[..i];
    UnionUpdate(m, DefaultsFor(keys[..i]), keys[i], DefaultFor(keys[i]));
  }

  /** Writing every default over a map of the four settings leaves the table. */
  lemma OverwriteAllFields(m: map<string, string>)
    requires m.Keys == HotkeyKeys
    ensures m + DefaultHotkeys == DefaultHotkeys
  {
    assert DefaultHotkeys.Keys == HotkeyKeys;
  }

  // ---------------------------------------------------------------------
  // The dialog

  class SettingsWindow {
    const store: SettingsStore
    const listener: KeyListener
    /** The text of each setting's read-only line edit. */
    var fields: map<string, string>
    /** The text of each setting's rebind button. */
    var buttons: map<string, string>
    /** current_rebind: the setting being rebound, if any. */
    var currentRebind: Option<string>
    /** Whether the dialog is installed as the application's event filter. */
    var filterInstalled: bool

    ghost predicate Valid()
      reads this
    {
      && listener.store == store
      && fields.Keys == HotkeyKeys
      && buttons.Keys == HotkeyKeys
      && (currentRebind.Some? ==> currentRebind.value in HotkeyKeys)
      && filterInstalled == currentRebind.Some?
      && forall k :: k in buttons ==>
           buttons[k] == if currentRebind == Some(k) then ListeningText else RebindText
    }

    /** The dialog shows each setting's stored string (empty when none). */
    constructor (store: SettingsStore, listener: KeyListener)
      requires listener.store == store
      ensures Valid()
      ensures this.store == store && this.listener == listener
      ensures fields == map k | k in HotkeyKeys :: Lookup(store.values, k, "")
      ensures currentRebind == None
    {
      this.store := store;
      this.listener := listener;
      fields := map k | k in HotkeyKeys :: Lookup(store.values, k, "");
      buttons := map k | k in HotkeyKeys :: RebindText;
      currentRebind := None;
      filterInstalled := false;
    }

    /** rebind_hotkey: refused with a warning while another rebind is in
        progress; otherwise start listening for `key`. */
    method RebindHotkey(key: string) returns (warned: bool)
      requires Valid() && key in HotkeyKeys
      modifies this
      ensures Valid()
      ensures warned <==> old(currentRebind).Some?
      ensures warned ==> currentRebind == old(currentRebind) && fields == old(fields)
                         && buttons == old(buttons) && filterInstalled == old(filterInstalled)
      ensures !warned ==> currentRebind == Some(key) && fields == old(fields)[key := ""]
                          && buttons == old(buttons)[key := ListeningText] && filterInstalled
    {
      if currentRebind.Some? {
        warned := true;
        return;
      }
      warned := false;
      currentRebind := Some(key);
      fields := fields[key := ""];
      buttons := buttons[key := ListeningText];
      filterInstalled := true;
    }

    /** eventFilter: while a rebind is in progress, a key press is consumed;
        its hotkey string becomes both the field text and the stored setting,
        the listener reloads its hotkeys and the rebind ends. Any other event
        is passed on untouched. */
    method EventFilter(isKeyPress: bool, ctrl: bool, shift: bool, alt: bool, keyText: string,
                       user32: bool, accepts: (int, bv32, int) -> bool) returns (consumed: bool)
      requires Valid()
      modifies this, store`values, listener
      ensures Valid()
      ensures consumed <==> old(currentRebind).Some? && isKeyPress
      ensures !consumed ==>
        && currentRebind == old(currentRebind) && fields == old(fields) && buttons == old(buttons)
        && store.values == old(store.values)
        && listener.hotkeyActions == old(listener.hotkeyActions)
        && listener.registeredHotkeys == old(listener.registeredHotkeys)
      ensures consumed ==>
        var key := old(currentRebind).value;
        var text := Join(HotkeyParts(ctrl, shift, alt, Upper(keyText)), Separator);
        && fields == old(fields)[key := text]
        && store.values == old(store.values)[key := text]
        && buttons == old(buttons)[key := RebindText]
        && currentRebind == None
        && listener.hotkeyActions == old(listener.hotkeyActions) + BoundCommands
        && listener.registeredHotkeys ==
             if user32 then Registrations(store.values, accepts) else old(listener.registeredHotkeys)
    {
      if currentRebind.Some? && isKeyPress {
        var hotkey := BuildHotkeyString(ctrl, shift, alt, keyText);
        CompleteRebind(hotkey, user32, accepts);
        consumed := true;
      } else {
        consumed := false;
      }
    }

    /** The consuming branch of eventFilter, once the hotkey string is
        built: show and store it, reload the listener, end the rebind. */
    method CompleteRebind(hotkey: string, user32: bool, accepts: (int, bv32, int) -> bool)
      requires Valid() && currentRebind.Some?
      modifies this, store`values, listener
      ensures Valid()
      ensures var key := old(currentRebind).value;
        && fields == old(fields)[key := hotkey]
        && store.values == old(store.values)[key := hotkey]
        && buttons == old(buttons)[key := RebindText]
        && currentRebind == None
        && listener.hotkeyActions == old(listener.hotkeyActions) + BoundCommands
        && listener.registeredHotkeys ==
             if user32 then Registrations(store.values, accepts) else old(listener.registeredHotkeys)
    {
      var key := currentRebind.value;
      fields := fields[key := hotkey];
      store.values := store.values[key := hotkey];
      listener.LoadHotkeys(user32, accepts);
      buttons := buttons[key := RebindText];
      currentRebind := None;
      filterInstalled := false;
    }

    /** The loop of reset_to_default: write each setting's default to the
        store and to its field, in the order of the table. */
    method WriteDefaults()
      modifies this`fields, store`values
      ensures store.values == old(store.values) + DefaultHotkeys
      ensures fields == old(fields) + DefaultHotkeys
    {
      var keys := HotkeySettings;
      for i := 0 to |keys|
        invariant store.values == old(store.values) + DefaultsFor(keys[..i])
        invariant fields == old(fields) + DefaultsFor(keys[..i])
      {
        var key := keys[i];
        var default := DefaultFor(key);
        WriteOneDefault(old(store.values), keys, i);
        WriteOneDefault(old(fields), keys, i);
        store.values := store.values[key := default];
        fields := fields[key := default];
      }
      assert keys[..|keys|] == keys;
      DefaultsForAll();
    }

    /** reset_to_default: write the defaults, then reload the listener's
        hotkeys; a rebind in progress is not cancelled. */
    method ResetToDefault(user32: bool, accepts: (int, bv32, int) -> bool)
      requires Valid()
      modifies this, store`values, listener
      ensures Valid()
      ensures store.values == old(store.values) + DefaultHotkeys
      ensures fields == DefaultHotkeys
      ensures currentRebind == old(currentRebind) && buttons == old(buttons)
      ensures listener.hotkeyActions == old(listener.hotkeyActions) + BoundCommands
      ensures listener.registeredHotkeys ==
        if user32 then Registrations(store.values, accepts) else old(listener.registeredHotkeys)
    {
      WriteDefaults();
      OverwriteAllFields(old(fields));
      listener.LoadHotkeys(user32, accepts);
    }
  }
}
