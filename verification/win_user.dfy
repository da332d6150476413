/** Windows constants and scalar types the interception engine depends on
    (virtual-key codes, keyboard messages, hook codes and the accessibility
    flag bits of WinUser.h). */
module WinUser {

  /** `unsigned char`: the element type of a registered key combination. */
  type UChar = b: int | 0 <= b < 256

  /** A `DWORD` flags word, as in STICKYKEYS, TOGGLEKEYS and FILTERKEYS. */
  type Flags = bv32

  // Generic modifier codes and their left/right variants.
  const VK_SHIFT: nat := 0x10
  const VK_CONTROL: nat := 0x11
  const VK_MENU: nat := 0x12
  const VK_LSHIFT: nat := 0xA0
  const VK_RSHIFT: nat := 0xA1
  const VK_LCONTROL: nat := 0xA2
  const VK_RCONTROL: nat := 0xA3
  const VK_LMENU: nat := 0xA4
  const VK_RMENU: nat := 0xA5

  // Other keys used by the demo session.
  const VK_ESCAPE: nat := 0x1B
  const VK_LWIN: nat := 0x5B
  const VK_RWIN: nat := 0x5C

  // Keyboard messages delivered to a low-level keyboard hook.
  const WM_KEYDOWN: nat := 0x100
  const WM_KEYUP: nat := 0x101
  const WM_SYSKEYDOWN: nat := 0x104
  const WM_SYSKEYUP: nat := 0x105

  /** Hook code meaning "the event carries a key message to act on". */
  const HC_ACTION: int := 0

  // Accessibility feature flag bits.
  const SKF_STICKYKEYSON: Flags := 0x1
  const SKF_HOTKEYACTIVE: Flags := 0x4
  const SKF_CONFIRMHOTKEY: Flags := 0x8
  const TKF_TOGGLEKEYSON: Flags := 0x1
  const TKF_HOTKEYACTIVE: Flags := 0x4
  const TKF_CONFIRMHOTKEY: Flags := 0x8
  const FKF_FILTERKEYSON: Flags := 0x1
  const FKF_HOTKEYACTIVE: Flags := 0x4
  const FKF_CONFIRMHOTKEY: Flags := 0x8
}
