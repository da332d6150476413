/** The key-state table as a value: what one key event does to it, what a
    query reads from it, and what a whole run of events leaves in it. */
module KeyState {
  import opened WinUser
  import opened KeyInterceptorDefs

  predicate IsDownEvent(wparam: nat)
  {
    wparam == WM_KEYDOWN || wparam == WM_SYSKEYDOWN
  }

  predicate IsUpEvent(wparam: nat)
  {
    wparam == WM_KEYUP || wparam == WM_SYSKEYUP
  }

  /** The table after `storeKeyState(wparam, vk)`: entry `vk` becomes down
      on a (system) key-down, up on a (system) key-up, and every other
      entry, and every entry for any other event kind, stays as it was. */
  function Stored(t: seq<bool>, wparam: nat, vk: nat): (r: seq<bool>)
    requires vk < |t|
    ensures |r| == |t|
    ensures forall k :: 0 <= k < |t| && k != vk ==> r[k] == t[k]
    ensures IsDownEvent(wparam) ==> r[vk]
    ensures IsUpEvent(wparam) ==> !r[vk]
    ensures !IsDownEvent(wparam) && !IsUpEvent(wparam) ==> r == t
  {
    var t' := if IsDownEvent(wparam) then t[vk := true] else t;
    if IsUpEvent(wparam) then t'[vk := false] else t'
  }

  /** The table entries a query for `vk` consults: both sides for the
      generic Control, Alt and Shift codes, the code itself otherwise. */
  function PhysicalKeys(vk: nat): set<nat>
  {
    if vk == VK_CONTROL then {VK_LCONTROL, VK_RCONTROL}
    else if vk == VK_MENU then {VK_LMENU, VK_RMENU}
    else if vk == VK_SHIFT then {VK_LSHIFT, VK_RSHIFT}
    else {vk}
  }

  /** `isKeyDown(vk)`: a key reads as down exactly when one of the physical
      entries it stands for is down; a non-alias code reads its own entry. */
  function IsKeyDown(t: seq<bool>, vk: nat): (r: bool)
    requires |t| == KeyTableSize && vk < |t|
    ensures r <==> exists p :: p in PhysicalKeys(vk) && t[p]
    ensures vk != VK_CONTROL && vk != VK_MENU && vk != VK_SHIFT ==> r == t[vk]
  {
    if vk == VK_CONTROL then t[VK_LCONTROL] || t[VK_RCONTROL]
    else if vk == VK_MENU then t[VK_LMENU] || t[VK_RMENU]
    else if vk == VK_SHIFT then t[VK_LSHIFT] || t[VK_RSHIFT]
    else t[vk]
  }

  /** The generic alias codes ignore their own table entry: recording an
      event for VK_CONTROL itself never changes what VK_CONTROL reads. */
  lemma AliasIgnoresOwnEntry(t: seq<bool>, wparam: nat, vk: nat)
    requires |t| == KeyTableSize
    requires vk == VK_CONTROL || vk == VK_MENU || vk == VK_SHIFT
    ensures IsKeyDown(Stored(t, wparam, vk), vk) == IsKeyDown(t, vk)
  {
  }

  /** A keyboard event as the table sees it: its kind and its key. */
  datatype KeyEvent = KeyEvent(wparam: nat, vkCode: nat)

  predicate InTable(events: seq<KeyEvent>)
  {
    forall i :: 0 <= i < |events| ==> events[i].vkCode < KeyTableSize
  }

  /** The table after recording `events` in order, starting from `t`. */
  function Replay(t: seq<bool>, events: seq<KeyEvent>): (r: seq<bool>)
    requires |t| == KeyTableSize && InTable(events)
    ensures |r| == KeyTableSize
    decreases |events|
  {
    if events == [] then t
    else
      var last := events[|events| - 1];
      Stored(Replay(t, events[..|events| - 1]), last.wparam, last.vkCode)
  }

  /** The most recent down (true) or up (false) transition of key `k` in
      `events`, if there is one. */
  function LastTransition(events: seq<KeyEvent>, k: nat): Option<bool>
    decreases |events|
  {
    if events == [] then None
    else
      var last := events[|events| - 1];
      if last.vkCode == k && IsDownEvent(last.wparam) then Some(true)
      else if last.vkCode == k && IsUpEvent(last.wparam) then Some(false)
      else LastTransition(events[..|events| - 1], k)
  }

  /** After any run of events, each entry holds the last down/up transition
      recorded for its key, or its initial value if there was none. */
  lemma {:induction false} ReplayReflectsLastTransition(t: seq<bool>, events: seq<KeyEvent>, k: nat)
    requires |t| == KeyTableSize && InTable(events) && k < KeyTableSize
    ensures Replay(t, events)[k] == match LastTransition(events, k) case Some(down) => down case None => t[k]
    decreases |events|
  {
    if events != [] {
      ReplayReflectsLastTransition(t, events[..|events| - 1], k);
    }
  }

  /** What a query reads after any run of events: a code reads as down
      exactly when, for one of the physical entries it stands for, the last
      transition recorded for that entry is a down (or, with none, its
      initial value is down). For the generic Control, Alt and Shift codes
      that is the OR over their left and right keys. */
  lemma ReplayIsKeyDown(t: seq<bool>, events: seq<KeyEvent>, vk: nat)
    requires |t| == KeyTableSize && InTable(events) && vk < KeyTableSize
    ensures IsKeyDown(Replay(t, events), vk) <==>
      exists p :: p in PhysicalKeys(vk) && match LastTransition(events, p) case Some(down) => down case None => t[p]
  {
    forall p | p in PhysicalKeys(vk) {
      ReplayReflectsLastTransition(t, events, p);
    }
  }
}
