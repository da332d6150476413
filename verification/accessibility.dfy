/** The accessibility-shortcut guard over an abstract settings store: a
    flags word per feature, read with SPI_GET*, written with SPI_SET*. The
    engine's snapshots (`startupStickyKeys_` and its siblings) are a second
    such total map. */
module Accessibility {
  import opened WinUser
  import opened KeyInterceptorDefs

  /** A total map from feature to its `dwFlags` word. */
  datatype FeatureFlags = FeatureFlags(sticky: Flags, toggle: Flags, filter: Flags)
  {
    function Get(f: Feature): Flags
    {
      match f
      case Sticky => sticky
      case Toggle => toggle
      case Filter => filter
    }

    function Set(f: Feature, w: Flags): (r: FeatureFlags)
      ensures r.Get(f) == w
      ensures forall g :: g != f ==> r.Get(g) == Get(g)
    {
      match f
      case Sticky => this.(sticky := w)
      case Toggle => this.(toggle := w)
      case Filter => this.(filter := w)
    }
  }

  /** The "feature is on" bit: SKF_STICKYKEYSON, TKF_TOGGLEKEYSON, FKF_FILTERKEYSON. */
  function OnFlag(f: Feature): Flags
  {
    match f
    case Sticky => SKF_STICKYKEYSON
    case Toggle => TKF_TOGGLEKEYSON
    case Filter => FKF_FILTERKEYSON
  }

  /** The hotkey bit: SKF_HOTKEYACTIVE, TKF_HOTKEYACTIVE, FKF_HOTKEYACTIVE. */
  function HotkeyFlag(f: Feature): Flags
  {
    match f
    case Sticky => SKF_HOTKEYACTIVE
    case Toggle => TKF_HOTKEYACTIVE
    case Filter => FKF_HOTKEYACTIVE
  }

  /** The confirmation bit: SKF_CONFIRMHOTKEY, TKF_CONFIRMHOTKEY, FKF_CONFIRMHOTKEY. */
  function ConfirmFlag(f: Feature): Flags
  {
    match f
    case Sticky => SKF_CONFIRMHOTKEY
    case Toggle => TKF_CONFIRMHOTKEY
    case Filter => FKF_CONFIRMHOTKEY
  }

  /** `w` with the hotkey and confirmation bits cleared: those two bits are
      off afterwards and every other bit, the "on" bit included, is kept. */
  function ShortcutsCleared(f: Feature, w: Flags): Flags
  {
    w & !HotkeyFlag(f) & !ConfirmFlag(f)
  }

  /** The bits `ShortcutsCleared` keeps and drops. */
  lemma ShortcutsClearedBits(f: Feature, w: Flags)
    ensures ShortcutsCleared(f, w) & HotkeyFlag(f) == 0 && ShortcutsCleared(f, w) & ConfirmFlag(f) == 0
    ensures ShortcutsCleared(f, w) & !(HotkeyFlag(f) | ConfirmFlag(f)) == w & !(HotkeyFlag(f) | ConfirmFlag(f))
    ensures ShortcutsCleared(f, w) & OnFlag(f) == w & OnFlag(f)
  {
    FlagBits(f);
  }

  /** The three features use the same bit values. */
  lemma FlagBits(f: Feature)
    ensures OnFlag(f) == 0x1 && HotkeyFlag(f) == 0x4 && ConfirmFlag(f) == 0x8
  {
  }

  /** The setting word `w` of feature `f` after disabling with `keys`:
      unchanged unless `keys` selects `f` and the feature is off, in which
      case its shortcut bits are cleared. */
  function DisabledSetting(f: Feature, keys: AccessibilityShortcuts, w: Flags): Flags
  {
    if Selects(keys, f) && w & OnFlag(f) == 0 then ShortcutsCleared(f, w) else w
  }

  /** One feature's step of `DisableAccessibilityShortcuts`: when `keys`
      selects it, snapshot its setting, and if the feature is not on, write
      the setting back with its shortcut bits cleared. */
  function DisableFeature(f: Feature, keys: AccessibilityShortcuts, snaps: FeatureFlags, settings: FeatureFlags): (r: (FeatureFlags, FeatureFlags))
    ensures r.0 == if Selects(keys, f) then snaps.Set(f, settings.Get(f)) else snaps
    ensures r.1 == settings.Set(f, DisabledSetting(f, keys, settings.Get(f)))
  {
    if !Selects(keys, f) then (snaps, settings)
    else
      var current := settings.Get(f);
      (snaps.Set(f, current),
       if current & OnFlag(f) == 0 then settings.Set(f, ShortcutsCleared(f, current)) else settings)
  }

  /** `DisableAccessibilityShortcuts(keys)`: StickyKeys, then ToggleKeys,
      then FilterKeys; yields the new snapshots and the new settings. */
  function Disable(keys: AccessibilityShortcuts, snaps: FeatureFlags, settings: FeatureFlags): (FeatureFlags, FeatureFlags)
  {
    var (s1, st1) := DisableFeature(Sticky, keys, snaps, settings);
    var (s2, st2) := DisableFeature(Toggle, keys, s1, st1);
    DisableFeature(Filter, keys, s2, st2)
  }

  /** `RestoreAccessibilityShortcuts(keys)` as written: the FilterKeys
      snapshot is written with SPI_SETSTICKYKEYS, i.e. to StickyKeys. */
  function Restore(keys: AccessibilityShortcuts, snaps: FeatureFlags, settings: FeatureFlags): (r: FeatureFlags)
    ensures r.sticky == if Selects(keys, Filter) then snaps.filter else if Selects(keys, Sticky) then snaps.sticky else settings.sticky
    ensures r.toggle == if Selects(keys, Toggle) then snaps.toggle else settings.toggle
    ensures r.filter == settings.filter
  {
    var st1 := if Selects(keys, Sticky) then settings.Set(Sticky, snaps.sticky) else settings;
    var st2 := if Selects(keys, Toggle) then st1.Set(Toggle, snaps.toggle) else st1;
    if Selects(keys, Filter) then st2.Set(Sticky, snaps.filter) else st2
  }

  /** Restore as evidently intended: each snapshot goes back to its own
      feature's setting. */
  function RestoreIntended(keys: AccessibilityShortcuts, snaps: FeatureFlags, settings: FeatureFlags): (r: FeatureFlags)
    ensures forall f :: r.Get(f) == if Selects(keys, f) then snaps.Get(f) else settings.Get(f)
  {
    var st1 := if Selects(keys, Sticky) then settings.Set(Sticky, snaps.sticky) else settings;
    var st2 := if Selects(keys, Toggle) then st1.Set(Toggle, snaps.toggle) else st1;
    if Selects(keys, Filter) then st2.Set(Filter, snaps.filter) else st2
  }

  /** What disabling does, feature by feature: a selected feature's snapshot
      becomes its current setting and, unless the feature is on, its
      setting loses the hotkey and confirmation bits; an unselected feature
      keeps both its snapshot and its setting. */
  lemma DisableEffect(keys: AccessibilityShortcuts, snaps: FeatureFlags, settings: FeatureFlags, f: Feature)
    ensures Disable(keys, snaps, settings).0.Get(f) == if Selects(keys, f) then settings.Get(f) else snaps.Get(f)
    ensures Disable(keys, snaps, settings).1.Get(f) ==
      if Selects(keys, f) && settings.Get(f) & OnFlag(f) == 0 then ShortcutsCleared(f, settings.Get(f))
      else settings.Get(f)
  {
    DisableSnapshotEffect(keys, snaps, settings, f);
    DisableSettingEffect(keys, snaps, settings, f);
  }

  /** The snapshot half of `DisableEffect`. */
  lemma DisableSnapshotEffect(keys: AccessibilityShortcuts, snaps: FeatureFlags, settings: FeatureFlags, f: Feature)
    ensures Disable(keys, snaps, settings).0.Get(f) == if Selects(keys, f) then settings.Get(f) else snaps.Get(f)
  {
    var r1 := DisableFeature(Sticky, keys, snaps, settings);
    var r2 := DisableFeature(Toggle, keys, r1.0, r1.1);
    assert Disable(keys, snaps, settings) == DisableFeature(Filter, keys, r2.0, r2.1);
    // The step for `f` sees `f`'s original snapshot and setting; the steps
    // for the other two features leave them alone.
    match f {
      case Sticky =>
      case Toggle =>
        assert r1.1.Get(f) == settings.Get(f);
      case Filter =>
        assert r2.1.Get(f) == settings.Get(f);
    }
  }

  /** The setting half of `DisableEffect`. */
  lemma DisableSettingEffect(keys: AccessibilityShortcuts, snaps: FeatureFlags, settings: FeatureFlags, f: Feature)
    ensures Disable(keys, snaps, settings).1.Get(f) == DisabledSetting(f, keys, settings.Get(f))
  {
    var r1 := DisableFeature(Sticky, keys, snaps, settings);
    var r2 := DisableFeature(Toggle, keys, r1.0, r1.1);
    assert Disable(keys, snaps, settings) == DisableFeature(Filter, keys, r2.0, r2.1);
    match f {
      case Sticky =>
      case Toggle =>
        assert r1.1.Get(f) == settings.Get(f);
      case Filter =>
        assert r2.1.Get(f) == settings.Get(f);
    }
  }

  /** Disabling never changes any bit of a setting except its hotkey and
      confirmation bits. */
  lemma DisableOnlyClearsShortcutBits(keys: AccessibilityShortcuts, snaps: FeatureFlags, settings: FeatureFlags, f: Feature)
    ensures Disable(keys, snaps, settings).1.Get(f) | (HotkeyFlag(f) | ConfirmFlag(f))
         == settings.Get(f) | (HotkeyFlag(f) | ConfirmFlag(f))
  {
    DisableSettingEffect(keys, snaps, settings, f);
    DisabledSettingBits(f, keys, settings.Get(f));
  }

  /** Disabling one setting word keeps every bit but the shortcut bits. */
  lemma DisabledSettingBits(f: Feature, keys: AccessibilityShortcuts, w: Flags)
    ensures DisabledSetting(f, keys, w) | (HotkeyFlag(f) | ConfirmFlag(f)) == w | (HotkeyFlag(f) | ConfirmFlag(f))
  {
    if Selects(keys, f) && w & OnFlag(f) == 0 {
      FlagBits(f);
    }
  }

  /** A feature that is on is never touched by disabling, and a disabled
      feature never has a shortcut bit set. */
  lemma DisableLeavesActiveFeaturesAlone(keys: AccessibilityShortcuts, snaps: FeatureFlags, settings: FeatureFlags, f: Feature)
    ensures settings.Get(f) & OnFlag(f) != 0 ==> Disable(keys, snaps, settings).1.Get(f) == settings.Get(f)
    ensures Selects(keys, f) && settings.Get(f) & OnFlag(f) == 0 ==> Disable(keys, snaps, settings).1.Get(f) & (HotkeyFlag(f) | ConfirmFlag(f)) == 0
  {
    DisableSettingEffect(keys, snaps, settings, f);
    ShortcutsClearedBits(f, settings.Get(f));
  }

  /** Disable then the intended restore, with the same mask, gives back
      every setting exactly as it was. */
  lemma IntendedRestoreRoundTrip(keys: AccessibilityShortcuts, snaps: FeatureFlags, settings: FeatureFlags)
    ensures RestoreIntended(keys, Disable(keys, snaps, settings).0, Disable(keys, snaps, settings).1) == settings
  {
  }

  /** Restore as written, with a mask that does not select FilterKeys:
      disable then restore gives back every setting exactly as it was. */
  lemma RestoreRoundTripWithoutFilterKeys(keys: AccessibilityShortcuts, snaps: FeatureFlags, settings: FeatureFlags)
    requires !Selects(keys, Filter)
    ensures Restore(keys, Disable(keys, snaps, settings).0, Disable(keys, snaps, settings).1) == settings
  {
  }

  /** Restore as written, with any mask: ToggleKeys always comes back; when
      FilterKeys is selected, StickyKeys ends up holding the FilterKeys
      snapshot and the FilterKeys setting is left as disabling left it. */
  lemma RestoreAsWritten(keys: AccessibilityShortcuts, snaps: FeatureFlags, settings: FeatureFlags)
    ensures Restore(keys, Disable(keys, snaps, settings).0, Disable(keys, snaps, settings).1).Get(Toggle) == settings.Get(Toggle)
    ensures Selects(keys, Filter) ==>
      Restore(keys, Disable(keys, snaps, settings).0, Disable(keys, snaps, settings).1).Get(Sticky) == settings.Get(Filter)
    ensures Selects(keys, Filter) ==>
      Restore(keys, Disable(keys, snaps, settings).0, Disable(keys, snaps, settings).1).Get(Filter) == Disable(keys, snaps, settings).1.Get(Filter)
  {
  }

  /** A concrete mismatch: every feature off with its hotkey active (0x4).
      `Disable(AllKeys)` then `Restore(AllKeys)` leaves FilterKeys' hotkey
      cleared, so FilterKeys is not restored. */
  lemma RestoreMisdirectsFilterKeys()
    ensures var settings := FeatureFlags(FKF_HOTKEYACTIVE, FKF_HOTKEYACTIVE, FKF_HOTKEYACTIVE);
            var (s, st) := Disable(AllKeys, FeatureFlags(0, 0, 0), settings);
            Restore(AllKeys, s, st).Get(Filter) == 0 != settings.Get(Filter)
  {
  }

  /** Each call snapshots anew: disabling twice makes the snapshot of a
      selected feature that is off hold the already cleared flags, so the
      original setting is no longer recorded anywhere. */
  lemma SecondDisableOverwritesSnapshot(keys: AccessibilityShortcuts, snaps: FeatureFlags, settings: FeatureFlags, f: Feature)
    requires Selects(keys, f) && settings.Get(f) & OnFlag(f) == 0
    ensures var (s, st) := Disable(keys, snaps, settings);
            Disable(keys, s, st).0.Get(f) == ShortcutsCleared(f, settings.Get(f))
  {
    var (s, st) := Disable(keys, snaps, settings);
    DisableEffect(keys, snaps, settings, f);
    DisableEffect(keys, s, st, f);
  }
}
