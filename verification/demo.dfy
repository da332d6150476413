/** The demo program's session, as a client of the engine: two single-key
    combinations for the Windows keys and a custom callback that never asks
    for suppression, then Hook and Start, a few key events and UnHook. */
module Demo {
  import opened WinUser
  import opened KeyInterceptorDefs
  import opened KeyState
  import opened Decision
  import opened Interceptor

  /** The demo's `myInterceptor`: it reacts to Escape (posting a quit
      message, not modelled) and always answers "do not suppress". */
  function MyInterceptor(wparam: nat, vk: nat, keystates: seq<bool>, userData: UserData): CallbackOutcome
  {
    Returned(false)
  }

  /** The demo's set-up: the two Windows-key combinations, the custom
      callback, then Hook and Start. */
  method Setup() returns (engine: KeyboardInterceptor)
    ensures fresh(engine) && fresh(engine.keystates) && engine.Valid()
    ensures engine.interceptors == [[VK_LWIN, 0], [VK_RWIN, 0]]
    ensures engine.customInterceptors == [KeyInterceptorData(Some(MyInterceptor), 0)]
    ensures engine.state == Started
    ensures forall k :: 0 <= k < engine.keystates.Length ==> !engine.keystates[k]
  {
    engine := new KeyboardInterceptor();
    var lwin := new UChar[1];
    lwin[0] := VK_LWIN;
    var rwin := new UChar[1];
    rwin[0] := VK_RWIN;
    assert lwin[..1] + [0] == [VK_LWIN, 0] && rwin[..1] + [0] == [VK_RWIN, 0];
    engine.AddInterceptor(lwin, 1);
    engine.AddInterceptor(rwin, 1);
    engine.AddCustomInterceptor(Some(MyInterceptor), 0);
    engine.Hook();
    engine.Start();
  }

  /** The engine as the demo's set-up leaves it, up to the key table:
      `Started` with the demo's registrations and both Windows keys up. */
  ghost predicate DemoRunning(engine: KeyboardInterceptor)
    reads engine, engine.keystates
  {
    engine.Valid() && engine.state == Started
    && engine.interceptors == [[VK_LWIN, 0], [VK_RWIN, 0]]
    && engine.customInterceptors == [KeyInterceptorData(Some(MyInterceptor), 0)]
    && !engine.keystates[VK_LWIN] && !engine.keystates[VK_RWIN]
  }

  /** Pressing a Windows key is swallowed (its combination fires) and
      releasing it is passed on (the callback says no and no combination
      is held); both Windows keys end up again. */
  method PressAndRelease(engine: KeyboardInterceptor, vk: nat) returns (down: HookResult, up: HookResult)
    requires DemoRunning(engine) && (vk == VK_LWIN || vk == VK_RWIN)
    modifies engine.keystates
    ensures DemoRunning(engine)
    ensures down == Suppress && up == CallNext
  {
    var trace: seq<nat>;
    down, trace := engine.LowLevelKeyboardProc(HC_ACTION, WM_KEYDOWN, vk);
    OneKeyCombination(vk, engine.keystates[..]);
    assert Fires(engine.interceptors[if vk == VK_LWIN then 0 else 1], engine.keystates[..]);

    up, trace := engine.LowLevelKeyboardProc(HC_ACTION, WM_KEYUP, vk);
    NoCombinationHeld(engine.interceptors, engine.keystates[..]);
    assert FirstSuppressor(engine.customInterceptors, WM_KEYUP, vk, engine.keystates[..]) == 1;
  }

  /** Left Windows down is swallowed; its release passes; Right Windows down
      is swallowed; Escape down passes; after UnHook the fixed list is empty
      while the custom callback is still registered. */
  method Session() returns (lwinDown: HookResult, lwinUp: HookResult, rwinDown: HookResult, escapeDown: HookResult,
                            fixedLeft: nat, customLeft: nat)
    ensures lwinDown == Suppress && lwinUp == CallNext && rwinDown == Suppress && escapeDown == CallNext
    ensures fixedLeft == 0 && customLeft == 1
  {
    var engine := Setup();
    lwinDown, lwinUp := PressAndRelease(engine, VK_LWIN);
    var rwinUp;
    rwinDown, rwinUp := PressAndRelease(engine, VK_RWIN);

    var trace: seq<nat>;
    escapeDown, trace := engine.LowLevelKeyboardProc(HC_ACTION, WM_KEYDOWN, VK_ESCAPE);
    NoCombinationHeld(engine.interceptors, engine.keystates[..]);
    assert FirstSuppressor(engine.customInterceptors, WM_KEYDOWN, VK_ESCAPE, engine.keystates[..]) == 1;

    engine.UnHook();
    fixedLeft := |engine.interceptors|;
    customLeft := |engine.customInterceptors|;
  }

  /** With both Windows keys up, neither of the demo's combinations fires. */
  lemma NoCombinationHeld(fixed: seq<seq<UChar>>, t: seq<bool>)
    requires |t| == KeyTableSize && fixed == [[VK_LWIN, 0], [VK_RWIN, 0]]
    requires !t[VK_LWIN] && !t[VK_RWIN]
    ensures WellFormedEntries(fixed)
    ensures forall j :: 0 <= j < |fixed| ==> !Fires(fixed[j], t)
  {
  }
}
