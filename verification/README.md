# KeyboardInterceptor, modelled in Dafny

This project models the interception engine of a Windows keyboard-hook library:
the static `KeyboardInterceptor` class of `src/keyinterceptor.cpp` and
`src/keyinterceptor.hpp`. The engine has these parts:

- a 255-entry key-state table, fed by a low-level keyboard hook;
- a registry of fixed key combinations, each a 0-terminated code buffer;
- a registry of custom callbacks, each paired with user data;
- the lifecycle states `Unhook`, `Hooked`, `Started` and `Stoped`:
  - `Hook` moves `Unhook` to `Hooked`;
  - `Start` and `Stop` move any state but `Unhook` to `Started` or `Stoped`;
  - `UnHook` moves any state to `Unhook`;
- per-event suppression: first the custom callbacks in registration order,
  then the fixed combinations;
- saving, clearing and restoring the StickyKeys, ToggleKeys and FilterKeys
  hotkey flags.

Modules:

- `WinUser` (`win_user.dfy`): the Windows constants the engine uses.
- `KeyInterceptorDefs` (`key_interceptor_defs.dfy`): the header's declarations:
  - the `AccessibilityShortcuts` mask with `operator|` and `operator&`;
  - the state enum;
  - the callback type and the `KeyInterceptorData` record.
- `KeyState` (`key_state.dfy`): `storeKeyState` and `isKeyDown` on a table
  value, plus the table left behind by a whole run of events.
- `Decision` (`decision.dfy`): what `shouldIntercept` decides, stated on
  values. It covers the sentinel scan of a fixed entry, the first suppressing
  callback and the callbacks that get invoked.
- `Accessibility` (`accessibility.dfy`): `DisableAccessibilityShortcuts` and
  `RestoreAccessibilityShortcuts` over a settings store with one flags word
  per feature. Restore is modelled as written, next to the evidently
  intended version.
- `Interceptor` (`interceptor.dfy`): the engine itself, one class
  `KeyboardInterceptor` whose fields are the C++ statics.
  - The table is an `array<bool>` that the hook procedure updates in place.
  - The registries, the state and the snapshots are fields that the
    registration and lifecycle methods reassign.
  - Each method is proved against the value-level functions of the modules
    above.
- `Demo` (`demo.dfy`): the demo program's session as a client of the
  engine.

Three behaviours of the code that a caller may not expect:

- Key state is recorded only while the engine is `Started`: the hook
  procedure returns before `storeKeyState` in any other state
  (`src/keyinterceptor.cpp:108`). Tracking does not continue while
  `Stoped`.
- `AddInterceptor` accepts an empty combination; it stores just the
  sentinel (`src/keyinterceptor.cpp:134-149`). Such an entry never fires
  (`Decision.EmptyCombinationNeverFires`).
- `ClearCustomInterceptor` leaves the custom list intact
  (`src/keyinterceptor.cpp:165`), so the custom callbacks survive `UnHook`.

## Model

| member | source | states |
|---|---|---|
| `KeyInterceptorDefs.Or` | src/keyinterceptor.hpp:18-22 | The OR operator: the result holds a feature's bit exactly when either operand does. |
| `KeyInterceptorDefs.OrKeepsOperands` | src/keyinterceptor.hpp:18-22 | Both operands' bits are kept, and a union of enumerator masks stays within `AllKeys`. |
| `KeyInterceptorDefs.And` | src/keyinterceptor.hpp:24-26 | `operator&`: the result holds a feature's bit exactly when both operands do. |
| `KeyInterceptorDefs.AndWithinOperands` | src/keyinterceptor.hpp:24-26 | The result of `operator&` holds no bit outside either operand. |
| `KeyInterceptorDefs.Selects` | src/keyinterceptor.cpp:183-241 | The test `keys & X` applied before each block: a mask selects a feature when it shares that feature's bit (`AndNonZeroIffSharedFeature`). |
| `KeyInterceptorDefs.FeatureBits` | src/keyinterceptor.hpp:11-16 | The three enumerators are distinct single bits. `AllKeys` is 0x7 and selects all three features. Each enumerator selects exactly its own feature. |
| `KeyInterceptorDefs.OrCommutativeAssociative` | src/keyinterceptor.hpp:18-22 | `operator|` is commutative and associative. |
| `KeyInterceptorDefs.OrAllKeys` | src/keyinterceptor.hpp:15-22 | Any mask made of enumerators OR-ed with `AllKeys`, on either side, gives `AllKeys`. |
| `KeyInterceptorDefs.FeaturesOfOr` | src/keyinterceptor.hpp:18-22 | `a | b` selects exactly the features that `a` or `b` selects. |
| `KeyInterceptorDefs.AndNonZeroIffSharedFeature` | src/keyinterceptor.hpp:24-26 | `a & b` is non-zero if and only if the two masks share a feature, for any `b` made of enumerators. This is the test the engine applies to each feature. |
| `KeyState.Stored` | src/keyinterceptor.cpp:15-23 | A (system) key-down sets entry `vk`; a (system) key-up clears it. No other entry changes, and any other event kind changes nothing. |
| `KeyState.IsKeyDown` | src/keyinterceptor.cpp:25-40 | A code reads as down if and only if one of the physical entries it stands for is down. Control, Alt and Shift stand for their left and right keys; any other code reads its own entry. |
| `KeyState.AliasIgnoresOwnEntry` | src/keyinterceptor.cpp:15-40 | An event recorded for a generic alias code (Control, Alt, Shift) never changes what that code reads. |
| `KeyState.Replay` | src/keyinterceptor.cpp:15-23 | Recording any run of events keeps the table at 255 entries. |
| `KeyState.ReplayReflectsLastTransition` | src/keyinterceptor.cpp:15-23 | After any run of events, each entry holds the last down/up transition of its key, or its initial value if there was none. |
| `KeyState.ReplayIsKeyDown` | src/keyinterceptor.cpp:15-40 | After any run of events, any code reads as down if and only if one of the physical entries it stands for had a down as its last transition. An entry with no transition counts with its initial value. For Control, Alt and Shift this is the OR over the left and right keys; any other code uses its own last transition. |
| `Decision.ZeroIndex` | src/keyinterceptor.cpp:92 | The scan of a stored entry stops at its first 0. Every code before that index is non-zero. |
| `Decision.Fires` | src/keyinterceptor.cpp:89-97 | A fixed entry fires when the codes before its first 0 are not empty and every one of them reads as down. |
| `Decision.Suppresses` | src/keyinterceptor.cpp:76-81 | A custom entry suppresses when its callback is not null and returns true. A null callback, a `false` and a thrown fault do not suppress. |
| `Decision.FirstSuppressor` | src/keyinterceptor.cpp:72-86 | The index of the first custom entry whose callback is not null and returns true. No earlier entry suppresses. It is the list length when no entry suppresses. |
| `Decision.NonNullIndices` | src/keyinterceptor.cpp:72-79 | The increasing list of exactly those entries among the first `n` whose callback is not null. |
| `Decision.CallbackTrace` | src/keyinterceptor.cpp:72-86 | The callbacks `shouldIntercept` invokes, in order: every non-null one up to and including the first suppressor, and none after it. |
| `Decision.Intercepts` | src/keyinterceptor.cpp:69-102 | The result of `shouldIntercept`: some custom callback suppresses, or else some fixed entry fires. |
| `Decision.SentinelEntry` | src/keyinterceptor.cpp:139-146 | What `AddInterceptor` stores is well formed, ending in 0 with every code a table index. Its scan examines the given codes before their first 0, which is all of them when none is 0. |
| `Decision.ZeroIndexAppendSentinel` | src/keyinterceptor.cpp:141 | Appending the sentinel leaves the first 0 where it was, or puts it at the end when there was none. |
| `Decision.EmptyCombinationNeverFires` | src/keyinterceptor.cpp:88-99 | An entry registered with no codes never triggers suppression. |
| `Decision.ZeroTruncates` | src/keyinterceptor.cpp:92 | A 0 inside the registered codes cuts the combination short. The entry fires exactly as the one registered with the codes before that 0. |
| `Decision.TwoKeyCombination` | src/keyinterceptor.cpp:88-99 | A two-key combination fires if and only if both keys are down. |
| `Decision.OneKeyCombination` | src/keyinterceptor.cpp:88-99 | A one-key combination fires if and only if its key is down. |
| `Decision.CustomTakesPrecedence` | src/keyinterceptor.cpp:72-86 | Once a custom callback suppresses, the event is suppressed whatever the fixed entries say. That callback is the first suppressor, and no callback after it is invoked. |
| `Decision.NonSuppressingEntryIsTransparent` | src/keyinterceptor.cpp:72-86 | A custom entry that is null, returns false or throws can be inserted anywhere in the list without changing the decision. |
| `Decision.FixedPhaseDecides` | src/keyinterceptor.cpp:88-101 | With no suppressing callback, the event is suppressed if and only if some fixed entry fires. Every non-null callback is invoked. |
| `Accessibility.FeatureFlags.Set` | src/keyinterceptor.cpp:194 | Writing one feature's setting changes that setting and no other. |
| `Accessibility.ShortcutsCleared` | src/keyinterceptor.cpp:190-192 | A feature's flags word with its hotkey and confirmation bits cleared, the two `&= ~` steps of a block. `ShortcutsClearedBits` gives the bits it keeps and drops. |
| `Accessibility.ShortcutsClearedBits` | src/keyinterceptor.cpp:189-192 | Clearing a feature's shortcuts clears its hotkey and confirmation bits. Every other bit, the "on" bit included, is kept. |
| `Accessibility.FlagBits` | src/keyinterceptor.cpp:189-221 | A proof helper used by `ShortcutsClearedBits` and `DisabledSettingBits`: for each of the three features, the on, hotkey and confirmation constants are 0x1, 0x4 and 0x8. |
| `Accessibility.DisableFeature` | src/keyinterceptor.cpp:183-196 | One feature's block. Only that feature's snapshot and setting are written. When the mask selects the feature, its snapshot becomes the current setting, and if it is off its setting loses its shortcuts. Everything for an unselected feature stays as it was. |
| `Accessibility.Disable` | src/keyinterceptor.cpp:180-226 | The StickyKeys, ToggleKeys and FilterKeys blocks in that order, each a `DisableFeature`. `DisableEffect` gives its closed form, and `DisableOnlyClearsShortcutBits` bounds what it changes. |
| `Accessibility.DisabledSettingBits` | src/keyinterceptor.cpp:189-192 | One block changes no bit of the feature's setting other than the hotkey and confirmation bits. |
| `Accessibility.DisableSnapshotEffect` | src/keyinterceptor.cpp:180-226 | After the three blocks, a selected feature's snapshot is its setting before the call, and an unselected one keeps its snapshot. |
| `Accessibility.DisableSettingEffect` | src/keyinterceptor.cpp:180-226 | After the three blocks, each feature's setting is what its own block makes of it: the later blocks touch only their own feature. |
| `Accessibility.DisableOnlyClearsShortcutBits` | src/keyinterceptor.cpp:180-226 | No bit of any setting changes except the hotkey and confirmation bits. |
| `Accessibility.DisableEffect` | src/keyinterceptor.cpp:180-226 | For each feature selected by the mask, the snapshot becomes the current setting. If the feature is off, its setting loses the hotkey and confirmation bits. An unselected feature keeps its snapshot and its setting. |
| `Accessibility.DisableLeavesActiveFeaturesAlone` | src/keyinterceptor.cpp:189 | A feature that is on is never rewritten. A selected feature that is off ends with neither shortcut bit set. |
| `Accessibility.Restore` | src/keyinterceptor.cpp:228-245 | As written. ToggleKeys gets its snapshot when selected. StickyKeys gets the FilterKeys snapshot when FilterKeys is selected, else its own snapshot when selected. The FilterKeys setting is never written. |
| `Accessibility.RestoreIntended` | src/keyinterceptor.cpp:228-245 | As evidently intended: every selected feature gets its own snapshot back, and every unselected feature keeps its setting. |
| `Accessibility.RestoreRoundTripWithoutFilterKeys` | src/keyinterceptor.cpp:228-240 | For a mask that does not select FilterKeys, Disable then Restore gives back every setting exactly. |
| `Accessibility.RestoreAsWritten` | src/keyinterceptor.cpp:228-245 | ToggleKeys always comes back. When FilterKeys is selected, StickyKeys ends up holding the FilterKeys snapshot and FilterKeys keeps its disabled value. |
| `Accessibility.RestoreMisdirectsFilterKeys` | src/keyinterceptor.cpp:241-244 | Every feature is off with its hotkey active. After Disable and Restore with `AllKeys`, FilterKeys holds 0 instead of its original 0x4. |
| `Accessibility.IntendedRestoreRoundTrip` | src/keyinterceptor.cpp:228-245 | With each snapshot written back to its own feature, Disable then Restore gives back every setting, for any mask. |
| `Accessibility.SecondDisableOverwritesSnapshot` | src/keyinterceptor.cpp:185-186 | Disabling twice makes a selected, off feature's snapshot hold the already-cleared flags. |
| `Interceptor.ComboDown` | src/keyinterceptor.cpp:89-97 | The scan of one fixed entry answers "down" exactly when the entry fires. |
| `Interceptor.KeyboardInterceptor.constructor` | src/keyinterceptor.cpp:259-270 | Initially every key is up and both registries are empty. The state is `Unhook` and the snapshots' flags are 0. |
| `Interceptor.KeyboardInterceptor.StoreKeyState` | src/keyinterceptor.cpp:15-23 | The table afterwards is `Stored` of the table before. |
| `Interceptor.KeyboardInterceptor.ShouldIntercept` | src/keyinterceptor.cpp:69-102 | The result is `Intercepts`: some callback suppresses, or else some fixed entry fires. The callbacks invoked are `CallbackTrace`: every non-null one up to and including the first suppressor. |
| `Interceptor.KeyboardInterceptor.CustomPhase` | src/keyinterceptor.cpp:72-86 | The custom loop suppresses exactly when some callback is a suppressor. The callbacks invoked are `CallbackTrace`. |
| `Interceptor.KeyboardInterceptor.FixedPhase` | src/keyinterceptor.cpp:88-101 | The fixed loop answers "suppress" if and only if some registered entry fires on the table. |
| `Interceptor.KeyboardInterceptor.LowLevelKeyboardProc` | src/keyinterceptor.cpp:104-124 | Unless the engine is `Started` and the code is HC_ACTION, the event passes and the table is untouched. Otherwise the table records the event, and the event is suppressed if and only if the decision says so on the updated table. |
| `Interceptor.KeyboardInterceptor.Hook` | src/keyinterceptor.cpp:126-132 | `Unhook` becomes `Hooked` with the hook installed. Any other state is left alone. |
| `Interceptor.KeyboardInterceptor.AddInterceptor` | src/keyinterceptor.cpp:134-149 | Appends the first `lenOfVkCode` codes followed by 0. The invariant (well-formed entries) is kept. |
| `Interceptor.KeyboardInterceptor.AddCustomInterceptor` | src/keyinterceptor.cpp:151-157 | Appends the (callback, user data) pair. |
| `Interceptor.KeyboardInterceptor.ClearInterceptor` | src/keyinterceptor.cpp:158-162 | The fixed registry becomes empty. The engine invariant is kept. |
| `Interceptor.KeyboardInterceptor.ClearCustomInterceptor` | src/keyinterceptor.cpp:163-167 | The custom registry is unchanged. The engine invariant is kept. |
| `Interceptor.KeyboardInterceptor.UnHook` | src/keyinterceptor.cpp:168-178 | Always ends in `Unhook` without a hook. From any other state the fixed registry is emptied while the custom registry survives. From `Unhook` nothing changes. |
| `Interceptor.KeyboardInterceptor.Start` | src/keyinterceptor.cpp:247-251 | Any state but `Unhook` becomes `Started`. |
| `Interceptor.KeyboardInterceptor.Stop` | src/keyinterceptor.cpp:253-257 | Any state but `Unhook` becomes `Stoped`. |
| `Interceptor.KeyboardInterceptor.DisableAccessibilityShortcuts` | src/keyinterceptor.cpp:180-226 | The new snapshots and settings are `Disable` of the old ones, whose effect `DisableEffect` states. |
| `Interceptor.KeyboardInterceptor.DisableFeatureShortcuts` | src/keyinterceptor.cpp:183-196 | One block: the new snapshot and setting are `DisableFeature` of the old ones. |
| `Interceptor.KeyboardInterceptor.RestoreAccessibilityShortcuts` | src/keyinterceptor.cpp:228-245 | The settings become `Restore` of the snapshots. ToggleKeys gets its snapshot. With FilterKeys selected, StickyKeys gets the FilterKeys snapshot and FilterKeys is untouched. Otherwise StickyKeys gets its own snapshot. |
| `Demo.MyInterceptor` | src/demo.cpp:7-19 | The demo's callback never asks for suppression. |
| `Demo.Setup` | src/demo.cpp:23-31 | After the demo's registrations, Hook and Start, the engine holds the two Windows-key entries and one custom callback, in state `Started` with every key up. |
| `Demo.PressAndRelease` | src/demo.cpp:7-31 | With the demo running, pressing a Windows key is swallowed and releasing it passes. The engine is left as it was, with both Windows keys up. |
| `Demo.Session` | src/demo.cpp:7-43 | Left Windows down and Right Windows down are swallowed, while Left Windows up and Escape down pass. After `UnHook` the fixed registry is empty and the custom callback remains. |
| `Demo.NoCombinationHeld` | src/demo.cpp:23-27 | With both Windows keys up, neither demo combination fires. |

## Left out

- Installing and removing the system hook (`SetWindowsHookEx`, `UnhookWindowsHookEx`, `CallNextHookEx`, the `hook_` handle) is a foreign call. It is reduced to the flag `hookInstalled` and the result `CallNext`.
- A failed hook installation is not modelled. At `src/keyinterceptor.cpp:128-130` a NULL handle still moves the state to `Hooked`, while the model's `hookInstalled` is always set by `Hook`.
- The mutex and the atomic state: every operation is modelled as running alone.
- Concurrent registration during event delivery is not modelled.
- `dumpKeyInfo` and the debug-string logging (`src/keyinterceptor.cpp:42-67`, `84`) are output only.
- `SystemParametersInfo` becomes a settings store passed in and returned, with one `dwFlags` word per feature.
  - The structures' other fields are not modelled.
  - So is the `sizeof(STICKYKEYS)` passed when reading ToggleKeys and FilterKeys at `src/keyinterceptor.cpp:200` and `215`.
  - So is the `SPI_SETSTICKYKEYS` call at `src/keyinterceptor.cpp:242`, which passes a FILTERKEYS structure with `sizeof(FILTERKEYS)`. It is modelled as writing the FilterKeys flags word into the StickyKeys setting.
  - So is the failure of the call.
- Callback bodies are arbitrary functions. A thrown fault is the outcome `Threw`.
  - `Threw` stands for a thrown `std::exception`, which is what `src/keyinterceptor.cpp:83` catches. Any other thrown value escapes the hook procedure and is not modelled.
  - A callback that writes through the table or the user data is not modelled.
  - A callback that does not return is not modelled.
  - A callback's answer is a function of the event kind, the code, the table and its user data. A callback whose answer depends on state that changes between events is modelled per event only.
- The hook procedure sees only the event kind and `vkCode` of `KBDLLHOOKSTRUCT`. The scan code, flags, time and extra info are not modelled.
- `Interceptor.KeyboardInterceptor.StoreKeyState` and `Interceptor.KeyboardInterceptor.AddInterceptor` require every code to be below 255. The table has 255 entries; a larger code indexes past it in the C++ when it is recorded or scanned, which is undefined behaviour.
- `Interceptor.KeyboardInterceptor.LowLevelKeyboardProc` requires the code to be below 255 only when the engine is `Started` and the hook code is HC_ACTION. That is the only path that indexes the table (`src/keyinterceptor.cpp:108-115`).
- `Interceptor.KeyboardInterceptor.AddInterceptor` requires `lenOfVkCode` to be within the given array. A longer length reads past the caller's buffer.
- The three blocks of `DisableAccessibilityShortcuts` with the same flag arithmetic are one method, `DisableFeatureShortcuts`, called for each feature in the source's order.
- The demo's message box, message loop and `PostQuitMessage` on Escape are user-interface side effects. `Demo.MyInterceptor` keeps only its answer, always "do not suppress".
- `Interceptor.KeyboardInterceptor.RestoreAccessibilityShortcuts` models the code as written. The intended version is stated and proved only on values, as `Accessibility.RestoreIntended`.

## Findings

| source | as written | input that shows it | evidently intended | confidence | as-written member | corrected member |
|---|---|---|---|---|---|---|
| src/keyinterceptor.cpp:242 | Restoring FilterKeys writes the FilterKeys snapshot with `SPI_SETSTICKYKEYS`, i.e. into the StickyKeys setting. | All three features off with their hotkey active (flags 0x4 each); `DisableAccessibilityShortcuts(AllKeys)` then `RestoreAccessibilityShortcuts(AllKeys)`: FilterKeys ends with flags 0 instead of 0x4, and StickyKeys receives the FilterKeys snapshot. | Write it with `SPI_SETFILTERKEYS`, so that disable then restore gives every setting back. | not executed | `Accessibility.RestoreMisdirectsFilterKeys` | `Accessibility.IntendedRestoreRoundTrip` |
