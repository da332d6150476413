/** The `KeyboardInterceptor` engine. The C++ keeps its state in static
    members of one class; here one object owns that state, and every
    operation is a method on it, run sequentially (the mutex is not
    modelled). */
module Interceptor {
  import opened WinUser
  import opened KeyInterceptorDefs
  import opened KeyState
  import opened Decision
  import opened Accessibility

  /** What the hook procedure returns: 1 (swallow the event), or the result
      of passing the event on with `CallNextHookEx`. */
  datatype HookResult = Suppress | CallNext

  /** The scan of one fixed entry in `shouldIntercept`: walk the codes up to
      the 0 sentinel, stop at the first key that is not down; the entry
      holds when the last key looked at was down. */
  method ComboDown(codes: seq<UChar>, table: seq<bool>) returns (isDown: bool)
    requires |table| == KeyTableSize && WellFormedEntry(codes)
    ensures isDown == Fires(codes, table)
  {
    isDown := false;
    var index := 0;
    while codes[index] != 0
      invariant index <= ZeroIndex(codes) < |codes|
      invariant isDown == (index > 0)
      invariant forall j :: 0 <= j < index ==> IsKeyDown(table, codes[j])
      decreases ZeroIndex(codes) - index
    {
      isDown := IsKeyDown(table, codes[index]);
      if !isDown {
        break;
      }
      index := index + 1;
    }
  }

  class KeyboardInterceptor {
    /** `keystates_`: 1 (true) while a key is down. */
    const keystates: array<bool>
    /** `interceptors_`: fixed combinations, each ending with the 0 sentinel. */
    var interceptors: seq<seq<UChar>>
    /** `customInterceptors_`: callbacks with their user data. */
    var customInterceptors: seq<KeyInterceptorData>
    /** `state_`. */
    var state: KeyboardInterceptorState
    /** Whether the system hook (`hook_`) is installed. */
    var hookInstalled: bool
    /** `dwFlags` of `startupStickyKeys_`, `startupToggleKeys_`, `startupFilterKeys_`. */
    var startupStickyKeys: Flags
    var startupToggleKeys: Flags
    var startupFilterKeys: Flags

    /** The engine invariant: the table has 255 entries, the hook is
        installed exactly when the state is not `Unhook`, and every fixed
        entry is sentinel-terminated with codes that index the table. */
    ghost predicate Valid()
      reads this
    {
      keystates.Length == KeyTableSize
      && (hookInstalled <==> state != Unhook)
      && WellFormedEntries(interceptors)
    }

    /** The snapshots as a feature-to-flags map. */
    function Startup(): FeatureFlags
      reads this
    {
      FeatureFlags(startupStickyKeys, startupToggleKeys, startupFilterKeys)
    }

    /** Static initialisation: every key up, no interceptors, `Unhook`, and
        snapshots whose flags are 0. */
    constructor ()
      ensures Valid() && fresh(keystates)
      ensures forall k :: 0 <= k < keystates.Length ==> !keystates[k]
      ensures interceptors == [] && customInterceptors == []
      ensures state == Unhook
      ensures Startup() == FeatureFlags(0, 0, 0)
    {
      keystates := new bool[KeyTableSize](_ => false);
      interceptors := [];
      customInterceptors := [];
      state := Unhook;
      hookInstalled := false;
      startupStickyKeys, startupToggleKeys, startupFilterKeys := 0, 0, 0;
    }

    /** `storeKeyState`: records a down or up transition of `vk`; no other
        entry changes. */
    method StoreKeyState(wparam: nat, vk: nat)
      requires Valid() && vk < KeyTableSize
      modifies keystates
      ensures keystates[..] == Stored(old(keystates[..]), wparam, vk)
    {
      if wparam == WM_KEYDOWN || wparam == WM_SYSKEYDOWN {
        keystates[vk] := true;
      }
      if wparam == WM_KEYUP || wparam == WM_SYSKEYUP {
        keystates[vk] := false;
      }
    }

    /** `shouldIntercept`: the custom phase, and the fixed phase only when no
        callback asked for suppression. `invoked` lists the callbacks
        called, in order. */
    method ShouldIntercept(wparam: nat, vk: nat) returns (intercept: bool, invoked: seq<nat>)
      requires Valid()
      ensures intercept == Intercepts(customInterceptors, interceptors, wparam, vk, keystates[..])
      ensures invoked == CallbackTrace(customInterceptors, wparam, vk, keystates[..])
    {
      var table := keystates[..];
      var suppressed;
      suppressed, invoked := CustomPhase(wparam, vk, table);
      if suppressed {
        return true, invoked;
      }
      intercept := FixedPhase(table);
    }

    /** The first loop of `shouldIntercept`: custom callbacks in registration
        order, stopping at the first that asks for suppression (a null one
        is skipped, a thrown fault is caught and counts as "no"). */
    method CustomPhase(wparam: nat, vk: nat, table: seq<bool>) returns (suppressed: bool, invoked: seq<nat>)
      ensures suppressed == (FirstSuppressor(customInterceptors, wparam, vk, table) < |customInterceptors|)
      ensures invoked == CallbackTrace(customInterceptors, wparam, vk, table)
    {
      invoked := [];
      var i := 0;
      while i < |customInterceptors|
        invariant i <= |customInterceptors|
        invariant forall j :: 0 <= j < i ==> !Suppresses(customInterceptors[j], wparam, vk, table)
        invariant invoked == NonNullIndices(customInterceptors, i)
      {
        var data := customInterceptors[i];
        if data.interceptor.Some? {
          invoked := invoked + [i];
          var outcome := data.interceptor.value(wparam, vk, table, data.userData);
          if outcome == Returned(true) {
            assert FirstSuppressor(customInterceptors, wparam, vk, table) == i;
            return true, invoked;
          }
          // Returned(false), or Threw: the exception is caught and logged; go on.
        }
        i := i + 1;
      }
      assert FirstSuppressor(customInterceptors, wparam, vk, table) == |customInterceptors|;
      return false, invoked;
    }

    /** The second loop of `shouldIntercept`: fixed entries in order, each
        scanned up to its sentinel; the first that fires decides. */
    method FixedPhase(table: seq<bool>) returns (fires: bool)
      requires Valid() && |table| == KeyTableSize
      ensures fires <==> exists j :: 0 <= j < |interceptors| && Fires(interceptors[j], table)
    {
      var k := 0;
      while k < |interceptors|
        invariant k <= |interceptors|
        invariant forall j :: 0 <= j < k ==> !Fires(interceptors[j], table)
      {
        var isDown := ComboDown(interceptors[k], table);
        if isDown {
          return true;
        }
        k := k + 1;
      }
      return false;
    }

    /** `LowLevelKeyboardProc`: unless the engine is `Started` and the hook
        code is HC_ACTION, the event is passed on and the table is left
        alone; otherwise the table records the event and the event is
        suppressed exactly when `shouldIntercept` says so. */
    method LowLevelKeyboardProc(nCode: int, wparam: nat, vk: nat) returns (result: HookResult, invoked: seq<nat>)
      requires Valid()
      requires state == Started && nCode == HC_ACTION ==> vk < KeyTableSize
      modifies keystates
      ensures state != Started || nCode != HC_ACTION ==>
        keystates[..] == old(keystates[..]) && result == CallNext && invoked == []
      ensures state == Started && nCode == HC_ACTION ==>
        keystates[..] == Stored(old(keystates[..]), wparam, vk)
        && (result == Suppress <==> Intercepts(customInterceptors, interceptors, wparam, vk, keystates[..]))
        && invoked == CallbackTrace(customInterceptors, wparam, vk, keystates[..])
    {
      invoked := [];
      if nCode < 0 || state != Started {
        return CallNext, invoked;
      }
      if nCode == HC_ACTION {
        StoreKeyState(wparam, vk);
        var intercept;
        intercept, invoked := ShouldIntercept(wparam, vk);
        if intercept {
          return Suppress, invoked;
        }
      }
      return CallNext, invoked;
    }

    /** `Hook`: installs the hook and moves `Unhook` to `Hooked`; a no-op in
        any other state. */
    method Hook()
      requires Valid()
      modifies this`state, this`hookInstalled
      ensures Valid()
      ensures old(state) == Unhook ==> state == Hooked && hookInstalled
      ensures old(state) != Unhook ==> state == old(state) && hookInstalled == old(hookInstalled)
    {
      if state == Unhook {
        hookInstalled := true;
        state := Hooked;
      }
    }

    /** `AddInterceptor(vkcode, lenOfVkCode)`: appends a fresh copy of the
        first `lenOfVkCode` codes followed by the 0 sentinel. An empty
        combination is accepted. */
    method AddInterceptor(vkcode: array<UChar>, lenOfVkCode: nat)
      requires Valid()
      requires lenOfVkCode <= vkcode.Length
      requires forall i :: 0 <= i < lenOfVkCode ==> vkcode[i] < KeyTableSize
      modifies this`interceptors
      ensures Valid()
      ensures interceptors == old(interceptors) + [vkcode[..lenOfVkCode] + [0]]
    {
      var codes := new UChar[lenOfVkCode + 1];
      codes[lenOfVkCode] := 0;
      for i := 0 to lenOfVkCode
        modifies codes
        invariant codes[lenOfVkCode] == 0
        invariant forall j :: 0 <= j < i ==> codes[j] == vkcode[j]
      {
        codes[i] := vkcode[i];
      }
      assert codes[..] == vkcode[..lenOfVkCode] + [0];
      SentinelEntry(vkcode[..lenOfVkCode]);
      interceptors := interceptors + [codes[..]];
    }

    /** `AddCustomInterceptor`: appends the (callback, user data) pair. */
    method AddCustomInterceptor(interceptor: Option<KeyInterceptor>, userData: UserData)
      requires Valid()
      modifies this`customInterceptors
      ensures Valid()
      ensures customInterceptors == old(customInterceptors) + [KeyInterceptorData(interceptor, userData)]
    {
      customInterceptors := customInterceptors + [KeyInterceptorData(interceptor, userData)];
    }

    /** `ClearInterceptor`: removes every fixed combination. `UnHook` calls
        it after removing the hook and before leaving its state, where the
        engine invariant is broken, so it keeps the invariant rather than
        requiring it. */
    method ClearInterceptor()
      modifies this`interceptors
      ensures interceptors == []
      ensures old(Valid()) ==> Valid()
    {
      interceptors := [];
    }

    /** `ClearCustomInterceptor`: its clear is commented out, so the custom
        list is left as it is. */
    method ClearCustomInterceptor()
      ensures customInterceptors == old(customInterceptors)
      ensures old(Valid()) ==> Valid()
    {
    }

    /** `UnHook`: a no-op in `Unhook`; otherwise removes the hook, empties
        the fixed list, keeps the custom list and returns to `Unhook`. */
    method UnHook()
      requires Valid()
      modifies this`state, this`hookInstalled, this`interceptors
      ensures Valid() && state == Unhook && !hookInstalled
      ensures old(state) == Unhook ==> interceptors == old(interceptors)
      ensures old(state) != Unhook ==> interceptors == []
      ensures customInterceptors == old(customInterceptors)
    {
      if state == Unhook {
        return;
      }
      hookInstalled := false;
      ClearInterceptor();
      ClearCustomInterceptor();
      state := Unhook;
    }

    /** `Start`: any state but `Unhook` becomes `Started`. */
    method Start()
      requires Valid()
      modifies this`state
      ensures Valid()
      ensures state == if old(state) == Unhook then Unhook else Started
    {
      if state != Unhook {
        state := Started;
      }
    }

    /** `Stop`: any state but `Unhook` becomes `Stoped`. */
    method Stop()
      requires Valid()
      modifies this`state
      ensures Valid()
      ensures state == if old(state) == Unhook then Unhook else Stoped
    {
      if state != Unhook {
        state := Stoped;
      }
    }

    /** `DisableAccessibilityShortcuts(keys)` against the settings store
        `settings`: returns the store afterwards; the snapshots and the store
        change as `Disable` says. */
    method DisableAccessibilityShortcuts(keys: AccessibilityShortcuts, settings: FeatureFlags) returns (settings': FeatureFlags)
      modifies this`startupStickyKeys, this`startupToggleKeys, this`startupFilterKeys
      ensures (Startup(), settings') == Disable(keys, old(Startup()), settings)
    {
      settings' := DisableFeatureShortcuts(Sticky, keys, settings);
      settings' := DisableFeatureShortcuts(Toggle, keys, settings');
      settings' := DisableFeatureShortcuts(Filter, keys, settings');
    }

    /** One of the three blocks of `DisableAccessibilityShortcuts` with the
        same flag arithmetic: if `keys` selects `f`, read its setting into its
        snapshot and, when the feature is not on, write the setting back with
        the hotkey and confirmation bits cleared. */
    method DisableFeatureShortcuts(f: Feature, keys: AccessibilityShortcuts, settings: FeatureFlags) returns (settings': FeatureFlags)
      modifies this`startupStickyKeys, this`startupToggleKeys, this`startupFilterKeys
      ensures (Startup(), settings') == DisableFeature(f, keys, old(Startup()), settings)
    {
      settings' := settings;
      if And(keys, Bit(f)) != 0 {
        var current := settings.Get(f);
        match f {
          case Sticky => startupStickyKeys := current;
          case Toggle => startupToggleKeys := current;
          case Filter => startupFilterKeys := current;
        }
        if current & OnFlag(f) == 0 {
          // Disable the hotkey and the confirmation.
          settings' := settings.Set(f, ShortcutsCleared(f, current));
        }
      }
    }

    /** `RestoreAccessibilityShortcuts(keys)` against the settings store
        `settings`, as written: the StickyKeys and ToggleKeys snapshots go
        back to their own settings, the FilterKeys snapshot to StickyKeys. */
    method RestoreAccessibilityShortcuts(keys: AccessibilityShortcuts, settings: FeatureFlags) returns (settings': FeatureFlags)
      ensures settings' == Restore(keys, Startup(), settings)
      ensures Selects(keys, Filter) ==> settings'.Get(Sticky) == startupFilterKeys && settings'.Get(Filter) == settings.Get(Filter)
      ensures Selects(keys, Toggle) ==> settings'.Get(Toggle) == startupToggleKeys
      ensures Selects(keys, Sticky) && !Selects(keys, Filter) ==> settings'.Get(Sticky) == startupStickyKeys
    {
      settings' := settings;
      if And(keys, StickyKeys) != 0 {
        settings' := settings'.Set(Sticky, startupStickyKeys);
      }
      if And(keys, ToggleKeys) != 0 {
        settings' := settings'.Set(Toggle, startupToggleKeys);
      }
      if And(keys, FilterKeys) != 0 {
        settings' := settings'.Set(Sticky, startupFilterKeys);
      }
    }
  }
}
