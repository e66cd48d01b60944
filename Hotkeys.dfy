// Global hotkeys (src/KeyListener.py): the hotkey-string parser with its
// virtual-key table, and the listener object that keeps two registries,
// the callback per hotkey ID and the hotkeys the OS accepted.
//
// The OS call RegisterHotKey is an oracle `accepts(id, modifiers, keyCode)`
// together with `user32`, whether the user32 library can be loaded at all
// (off Windows it cannot, and both calls land in their `except` branch).
// The persistent settings are a string map shared with the settings window.

module Hotkeys {
  import opened Strings
  import opened Optional

  /** The window message that carries a hotkey press. */
  const WM_HOTKEY := 0x0312

  /** Modifier flags of RegisterHotKey. */
  const MOD_ALT: bv32 := 0x0001
  const MOD_CONTROL: bv32 := 0x0002
  const MOD_SHIFT: bv32 := 0x0004

  /** Key names the parser knows, with their virtual-key codes. */
  const KeyMap: map<string, int> := map[
    "F1" := 0x70, "F2" := 0x71, "F3" := 0x72, "F4" := 0x73,
    "F5" := 0x74, "F6" := 0x75, "F7" := 0x76, "F8" := 0x77,
    "F9" := 0x78, "F10" := 0x79, "F11" := 0x7A, "F12" := 0x7B,
    "CTRL" := 0x11, "SHIFT" := 0x10, "ALT" := 0x12]

  /** The function-key names in order: FunctionKeyNames[k - 1] names Fk. */
  const FunctionKeyNames: seq<string> :=
    ["F1", "F2", "F3", "F4", "F5", "F6", "F7", "F8", "F9", "F10", "F11", "F12"]

  predicate IsModifierName(part: string) {
    part == "CTRL" || part == "SHIFT" || part == "ALT"
  }

  /** A part that sets the key code: a key-map name other than a modifier. */
  predicate IsKeyName(part: string) {
    part in KeyMap && !IsModifierName(part)
  }

  /** The modifier flag a single part contributes (0 for any other part). */
  function ModifierFlag(part: string): bv32 {
    if part == "CTRL" then MOD_CONTROL
    else if part == "SHIFT" then MOD_SHIFT
    else if part == "ALT" then MOD_ALT
    else 0
  }

  /** The modifiers a list of parts denotes: one flag per modifier name
      present, however often it occurs. */
  function ModifiersOf(parts: seq<string>): (m: bv32)
    ensures m <= 7
    ensures m & MOD_CONTROL != 0 <==> "CTRL" in parts
    ensures m & MOD_SHIFT != 0 <==> "SHIFT" in parts
    ensures m & MOD_ALT != 0 <==> "ALT" in parts
  {
    (if "CTRL" in parts then MOD_CONTROL else 0)
    | (if "SHIFT" in parts then MOD_SHIFT else 0)
    | (if "ALT" in parts then MOD_ALT else 0)
  }

  /** The key code a list of parts denotes: that of the last key name, or 0
      when no part is a key name. */
  function KeyCodeOf(parts: seq<string>): int {
    if parts == [] then 0
    else
      var last := parts[|parts| - 1];
      if IsKeyName(last) then KeyMap[last] else KeyCodeOf(parts[..|parts| - 1])
  }

  /** The key code is 0 exactly when no part is a key name; otherwise it is
      the code of the last part that is one. */
  lemma {:induction false} KeyCodeOfMeaning(parts: seq<string>)
    ensures KeyCodeOf(parts) == 0 <==> forall p :: p in parts ==> !IsKeyName(p)
    ensures KeyCodeOf(parts) != 0 ==>
      exists i :: 0 <= i < |parts| && IsKeyName(parts[i]) && KeyCodeOf(parts) == KeyMap[parts[i]]
                  && forall j :: i < j < |parts| ==> !IsKeyName(parts[j])
  {
    if parts != [] {
      var init := parts[..|parts| - 1];
      assert parts == init + [parts[|parts| - 1]];
      KeyCodeOfMeaning(init);
      if !IsKeyName(parts[|parts| - 1]) && KeyCodeOf(init) != 0 {
        var i :| 0 <= i < |init| && IsKeyName(init[i]) && KeyCodeOf(init) == KeyMap[init[i]]
          && forall j :: i < j < |init| ==> !IsKeyName(init[j]);
        assert parts[i] == init[i];
      }
    }
  }

  /** What the parser yields for a hotkey string: (key code, modifiers),
      after upper-casing it and splitting it on '+' without trimming. */
  function Parse(hotkey: string): (int, bv32) {
    var parts := Split(Upper(hotkey), '+');
    (KeyCodeOf(parts), ModifiersOf(parts))
  }

  /** parse_hotkey: fold the parts into a key code and modifier flags. */
  method ParseHotkey(hotkey: string) returns (keyCode: int, modifiers: bv32)
    ensures (keyCode, modifiers) == Parse(hotkey)
  {
    var parts := Split(Upper(hotkey), '+');
    modifiers := 0;
    keyCode := 0;
    for i := 0 to |parts|
      invariant modifiers == ModifiersOf(parts[..i])
      invariant keyCode == KeyCodeOf(parts[..i])
    {
      var part := parts[i];
      assert parts[..i + 1] == parts[..i] + [part];
      assert parts[..i + 1][..i] == parts[..i];
      if part in KeyMap {
        if part == "CTRL" {
          modifiers := modifiers | MOD_CONTROL;
        } else if part == "SHIFT" {
          modifiers := modifiers | MOD_SHIFT;
        } else if part == "ALT" {
          modifiers := modifiers | MOD_ALT;
        } else {
          keyCode := KeyMap[part];
        }
      }
    }
    assert parts[..|parts|] == parts;
  }

  // ---------------------------------------------------------------------
  // Properties of the parser

  /** Parsing does not depend on letter case. */
  lemma ParseCaseInsensitive(hotkey: string)
    ensures Parse(Upper(hotkey)) == Parse(hotkey)
  {
    UpperIdempotent(hotkey);
  }

  /** The modifiers are always among the three flags, so within 0..7. */
  lemma ParseModifiersInRange(hotkey: string)
    ensures 0 <= Parse(hotkey).1 <= 7
  {
  }

  /** Appending one more part `+p` changes the result exactly as one more
      loop iteration would: a key name replaces the key code, a modifier
      name ORs in its flag, anything else is ignored. */
  lemma {:induction false} ParseAppendPart(hotkey: string, p: string)
    requires '+' !in p
    ensures var u := Upper(p);
      Parse(hotkey + "+" + p)
      == (if IsKeyName(u) then KeyMap[u] else Parse(hotkey).0,
          Parse(hotkey).1 | ModifierFlag(u))
  {
    var u := Upper(p);
    UpperAppend(hotkey + "+", p);
    UpperAppend(hotkey, "+");
    assert Upper("+") == "+";
    assert '+' !in u by {
      forall i | 0 <= i < |u| ensures u[i] != '+' {
        assert p[i] != '+';
      }
    }
    SplitBeforePart(Upper(hotkey), '+', u);
    var parts := Split(Upper(hotkey), '+');
    assert Split(Upper(hotkey + "+" + p), '+') == parts + [u];
    assert (parts + [u])[..|parts|] == parts;
    assert "CTRL" in parts + [u] <==> "CTRL" in parts || u == "CTRL";
    assert "SHIFT" in parts + [u] <==> "SHIFT" in parts || u == "SHIFT";
    assert "ALT" in parts + [u] <==> "ALT" in parts || u == "ALT";
  }

  /** A part that is not exactly a key-map name (an unknown name, an empty
      part, a name with surrounding spaces) is ignored. */
  lemma ParseIgnoresUnknownPart(hotkey: string, p: string)
    requires '+' !in p && Upper(p) !in KeyMap
    ensures Parse(hotkey + "+" + p) == Parse(hotkey)
  {
    ParseAppendPart(hotkey, p);
  }

  /** Repeating a modifier that is already present changes nothing. */
  lemma ParseRepeatedModifier(hotkey: string, m: string)
    requires IsModifierName(m) && m in Split(Upper(hotkey), '+')
    ensures Parse(hotkey + "+" + m) == Parse(hotkey)
  {
    UpperFixed(m);
    ParseAppendPart(hotkey, m);
  }

  /** When several key names appear, the last one wins. */
  lemma ParseLastKeyWins(hotkey: string, k: string)
    requires '+' !in k && IsKeyName(Upper(k))
    ensures Parse(hotkey + "+" + k) == (KeyMap[Upper(k)], Parse(hotkey).1)
  {
    ParseAppendPart(hotkey, k);
  }

  /** A string without '+' is a single part. */
  lemma ParseSinglePart(hotkey: string)
    requires '+' !in hotkey
    ensures var u := Upper(hotkey);
      Parse(hotkey) == (if IsKeyName(u) then KeyMap[u] else 0, ModifierFlag(u))
  {
    var u := Upper(hotkey);
    assert '+' !in u by {
      forall i | 0 <= i < |u| ensures u[i] != '+' {
        assert hotkey[i] != '+';
      }
    }
    SplitNoSep(u, '+');
    var parts := [u];
    assert parts[..|parts| - 1] == [];
    assert KeyCodeOf(parts) == if IsKeyName(u) then KeyMap[u] else KeyCodeOf([]);
  }

  /** F1..F12 map to the virtual-key codes 0x70..0x7B, with no modifiers. */
  lemma FunctionKeyCodes(k: int)
    requires 1 <= k <= 12
    ensures Parse(FunctionKeyNames[k - 1]) == (0x6F + k, 0)
  {
    var name := FunctionKeyNames[k - 1];
    UpperFixed(name);
    ParseSinglePart(name);
    FunctionKeyEntry(k);
  }

  /** The k-th function-key name is a key name with code 0x6F + k. */
  lemma FunctionKeyEntry(k: int)
    requires 1 <= k <= 12
    ensures IsKeyName(FunctionKeyNames[k - 1])
    ensures KeyMap[FunctionKeyNames[k - 1]] == 0x6F + k
    ensures ModifierFlag(FunctionKeyNames[k - 1]) == 0
  {
  }

  /** Worked example: modifiers alone give key code 0. */
  lemma ParseModifiersOnlyExample()
    ensures Parse("CTRL+SHIFT") == (0, 6)
  {
    CtrlShiftText();
    UpperFixed("CTRL");
    UpperFixed("SHIFT");
    ParseSinglePart("CTRL");
    ParseAppendPart("CTRL", "SHIFT");
  }

  /** The example string is "CTRL", '+', "SHIFT" run together. */
  lemma CtrlShiftText()
    ensures "CTRL" + "+" + "SHIFT" == "CTRL+SHIFT"
  {
  }

  /** Worked example: the empty string gives (0, 0). */
  lemma ParseEmptyExample()
    ensures Parse("") == (0, 0)
  {
    ParseSinglePart("");
  }

  /** A trailing '+' leaves an empty last part, which is ignored. */
  lemma ParseTrailingPlus(hotkey: string)
    ensures Parse(hotkey + "+") == Parse(hotkey)
  {
    ParseIgnoresUnknownPart(hotkey, "");
    assert hotkey + "+" + "" == hotkey + "+";
  }

  // ---------------------------------------------------------------------
  // The listener and its two registries

  /** The parent-window actions a hotkey can trigger. */
  datatype Command = ToggleClicking | StartRecording | StopRecording | StopPlaying

  /** One hotkey as wired by load_hotkeys: its ID, the setting holding its
      string, the fallback string, and the action it triggers. */
  datatype Binding = Binding(id: int, setting: string, fallback: string, command: Command)

  const Bindings: seq<Binding> := [
    Binding(1, "start_stop_hotkey", "F6", ToggleClicking),
    Binding(2, "record_hotkey", "F9", StartRecording),
    Binding(3, "stop_record_hotkey", "F10", StopRecording),
    Binding(4, "stop_play_hotkey", "F8", StopPlaying)]

  /** The persistent settings (one store, shared by every object that opens
      the application's settings). */
  class SettingsStore {
    var values: map<string, string>

    constructor (initial: map<string, string>)
      ensures values == initial
    {
      values := initial;
    }
  }

  /** settings.value(key, default): the stored string, or the default. */
  function Lookup(values: map<string, string>, key: string, default: string): (v: string)
    ensures key in values ==> v == values[key]
    ensures key !in values ==> v == default
  {
    if key in values then values[key] else default
  }

  /** The (modifiers, key code) pair load_hotkeys passes for binding `b`. */
  function HotkeyOf(values: map<string, string>, b: Binding): (bv32, int) {
    var parsed := Parse(Lookup(values, b.setting, b.fallback));
    (parsed.1, parsed.0)
  }

  /** The registry after the OS is asked to register `hk` under `id`. */
  function Registered(r: map<int, (bv32, int)>, accepts: (int, bv32, int) -> bool,
                      id: int, hk: (bv32, int)): map<int, (bv32, int)> {
    if accepts(id, hk.0, hk.1) then r[id := hk] else r
  }

  /** The (modifiers, key code) pair of each binding, in table order. */
  function BindingHotkeys(values: map<string, string>): (hks: seq<(bv32, int)>)
    ensures |hks| == |Bindings|
    ensures forall i :: 0 <= i < |Bindings| ==> hks[i] == HotkeyOf(values, Bindings[i])
  {
    seq(|Bindings|, i requires 0 <= i < |Bindings| => HotkeyOf(values, Bindings[i]))
  }

  /** The registry after the first `n` bindings are registered, in order,
      on an empty one, binding i with the pair `hks[i]`. */
  function RegisteredFirst(hks: seq<(bv32, int)>, accepts: (int, bv32, int) -> bool, n: nat): map<int, (bv32, int)>
    requires n <= |hks| && n <= |Bindings|
  {
    if n == 0 then map[]
    else Registered(RegisteredFirst(hks, accepts, n - 1), accepts, Bindings[n - 1].id, hks[n - 1])
  }

  /** The registry after load_hotkeys clears it and registers IDs 1..4. */
  function Registrations(values: map<string, string>, accepts: (int, bv32, int) -> bool): map<int, (bv32, int)> {
    RegisteredFirst(BindingHotkeys(values), accepts, |Bindings|)
  }

  /** Binding i carries hotkey ID i + 1. */
  lemma BindingIds()
    ensures forall i :: 0 <= i < |Bindings| ==> Bindings[i].id == i + 1
  {
  }

  /** After the first `n` registrations, only IDs 1..n are registered, and
      binding i < n is registered, with the pair `hks[i]`, exactly when the
      OS accepted it. */
  lemma {:induction false} RegisteredFirstMeaning(hks: seq<(bv32, int)>, accepts: (int, bv32, int) -> bool, n: nat)
    requires n <= |hks| && n <= |Bindings|
    ensures forall id :: id in RegisteredFirst(hks, accepts, n) ==> 1 <= id <= n
    ensures forall i :: 0 <= i < n ==>
      var r := RegisteredFirst(hks, accepts, n);
      (Bindings[i].id in r <==> accepts(Bindings[i].id, hks[i].0, hks[i].1))
      && (Bindings[i].id in r ==> r[Bindings[i].id] == hks[i])
  {
    if n > 0 {
      var prev := RegisteredFirst(hks, accepts, n - 1);
      var r := RegisteredFirst(hks, accepts, n);
      RegisteredFirstMeaning(hks, accepts, n - 1);
      BindingIds();
      assert r == Registered(prev, accepts, n, hks[n - 1]);
      forall i | 0 <= i < n - 1
        ensures Bindings[i].id in r <==> Bindings[i].id in prev
        ensures Bindings[i].id in r ==> r[Bindings[i].id] == prev[Bindings[i].id]
      {
        assert Bindings[i].id != n;
      }
    }
  }

  /** After load_hotkeys, exactly the bindings the OS accepted are
      registered, each with the parse of its stored string or fallback. */
  lemma RegistrationsMeaning(values: map<string, string>, accepts: (int, bv32, int) -> bool)
    ensures forall id :: id in Registrations(values, accepts) ==> 1 <= id <= 4
    ensures forall i :: 0 <= i < |Bindings| ==>
      var r := Registrations(values, accepts);
      var hk := HotkeyOf(values, Bindings[i]);
      (Bindings[i].id in r <==> accepts(Bindings[i].id, hk.0, hk.1))
      && (Bindings[i].id in r ==> r[Bindings[i].id] == hk)
  {
    RegisteredFirstMeaning(BindingHotkeys(values), accepts, |Bindings|);
  }

  /** The callbacks load_hotkeys installs, keyed by hotkey ID. */
  const BoundCommands: map<int, Command> :=
    map[1 := ToggleClicking, 2 := StartRecording, 3 := StopRecording, 4 := StopPlaying]

  /** Installing the four bindings' callbacks one by one adds BoundCommands. */
  lemma BoundCommandsInOrder(m: map<int, Command>)
    ensures m[Bindings[0].id := Bindings[0].command][Bindings[1].id := Bindings[1].command]
             [Bindings[2].id := Bindings[2].command][Bindings[3].id := Bindings[3].command]
            == m + BoundCommands
  {
  }

  class KeyListener {
    const store: SettingsStore
    /** hotkey_actions: the callback run for each hotkey ID. */
    var hotkeyActions: map<int, Command>
    /** registered_hotkeys: (modifiers, key code) of each ID the OS accepted. */
    var registeredHotkeys: map<int, (bv32, int)>

    constructor (store: SettingsStore)
      ensures this.store == store
      ensures hotkeyActions == map[] && registeredHotkeys == map[]
    {
      this.store := store;
      hotkeyActions := map[];
      registeredHotkeys := map[];
    }

    /** nativeEvent, from an already decoded (message, wParam): a hotkey
        message is handled, and runs the callback of its ID when there is
        one; any other message is passed on. */
    function HandleNativeEvent(message: int, wParam: int): (r: (bool, Option<Command>))
      reads this
      ensures r.0 <==> message == WM_HOTKEY
      ensures r.1.Some? <==> message == WM_HOTKEY && wParam in hotkeyActions
      ensures r.1.Some? ==> r.1.value == hotkeyActions[wParam]
    {
      if message == WM_HOTKEY then
        (true, if wParam in hotkeyActions then Some(hotkeyActions[wParam]) else None)
      else (false, None)
    }

    /** register_hotkey: the callback is always recorded; the hotkey itself
        only when the OS accepts it. */
    method RegisterHotkey(id: int, keyCode: int, modifiers: bv32, callback: Command, accepted: bool)
      modifies this
      ensures hotkeyActions == old(hotkeyActions)[id := callback]
      ensures registeredHotkeys ==
        if accepted then old(registeredHotkeys)[id := (modifiers, keyCode)] else old(registeredHotkeys)
    {
      hotkeyActions := hotkeyActions[id := callback];
      if accepted {
        registeredHotkeys := registeredHotkeys[id := (modifiers, keyCode)];
      }
    }

    /** unregister_hotkeys: release every registered ID and empty the
        registry; without user32 the `except` branch leaves it as it is. */
    method UnregisterHotkeys(user32: bool) returns (released: set<int>)
      modifies this
      ensures hotkeyActions == old(hotkeyActions)
      ensures released == if user32 then old(registeredHotkeys).Keys else {}
      ensures registeredHotkeys == if user32 then map[] else old(registeredHotkeys)
    {
      if user32 {
        released := registeredHotkeys.Keys;
        registeredHotkeys := map[];
      } else {
        released := {};
      }
    }

    /** One parse-and-register pair of load_hotkeys: parse the stored
        string of `b` (or its fallback) and register it under `b.id`. */
    method RegisterBinding(b: Binding, user32: bool, accepts: (int, bv32, int) -> bool)
      modifies this
      ensures hotkeyActions == old(hotkeyActions)[b.id := b.command]
      ensures registeredHotkeys ==
        if user32 then Registered(old(registeredHotkeys), accepts, b.id, HotkeyOf(store.values, b))
        else old(registeredHotkeys)
    {
      var hotkey := Lookup(store.values, b.setting, b.fallback);
      var code, mods := ParseHotkey(hotkey);
      RegisterHotkey(b.id, code, mods, b.command, user32 && accepts(b.id, mods, code));
    }

    /** load_hotkeys: unregister everything, then parse the four stored
        hotkey strings (or their fallbacks) and register IDs 1..4. */
    method LoadHotkeys(user32: bool, accepts: (int, bv32, int) -> bool)
      modifies this
      ensures hotkeyActions == old(hotkeyActions) + BoundCommands
      ensures registeredHotkeys ==
        if user32 then Registrations(store.values, accepts) else old(registeredHotkeys)
    {
      var _ := UnregisterHotkeys(user32);
      ghost var actions := hotkeyActions;
      ghost var hks := BindingHotkeys(store.values);
      RegisterBinding(Bindings[0], user32, accepts);
      assert user32 ==> registeredHotkeys == RegisteredFirst(hks, accepts, 1);
      RegisterBinding(Bindings[1], user32, accepts);
      assert user32 ==> registeredHotkeys == RegisteredFirst(hks, accepts, 2);
      RegisterBinding(Bindings[2], user32, accepts);
      assert user32 ==> registeredHotkeys == RegisteredFirst(hks, accepts, 3);
      RegisterBinding(Bindings[3], user32, accepts);
      BoundCommandsInOrder(actions);
    }
  }

  /** The virtual-key codes of the fallback strings F6, F9, F10, F8. */
  const FallbackCodes: seq<int> := [0x75, 0x78, 0x79, 0x77]

  /** With nothing stored for a binding, its fallback registers the code of
      F6, F9, F10 or F8 without modifiers. */
  lemma FallbackHotkey(values: map<string, string>, i: int)
    requires 0 <= i < |Bindings| && Bindings[i].setting !in values
    ensures HotkeyOf(values, Bindings[i]) == (0, FallbackCodes[i])
  {
    var k := [6, 9, 10, 8][i];
    FunctionKeyCodes(k);
    assert Lookup(values, Bindings[i].setting, Bindings[i].fallback) == FunctionKeyNames[k - 1];
  }
}
